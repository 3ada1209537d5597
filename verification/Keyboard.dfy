/** The keyboard ring: the interrupt handler puts characters, one reader takes them, and an
    interrupt may land between any two steps of the reader. */
module Keyboard {
  import opened Rings

  const SIZE := 256

  datatype Buffer = Buffer(keys: seq<nat>, head: nat, tail: nat)

  predicate Wf(b: Buffer) { |b.keys| == SIZE && b.head < SIZE && b.tail < SIZE }

  /** buffer_put: drops the character when the ring is full. */
  function Put(b: Buffer, c: nat): (r: Buffer)
    requires Wf(b)
    ensures Wf(r)
  {
    var next := (b.head + 1) % SIZE;
    if next == b.tail then b else b.(keys := b.keys[b.head := c], head := next)
  }

  /** The reader of keyboard_read between its accesses to shared memory: it loads the head and
      compares it with the tail in keyboard_available, again in buffer_get, then loads the
      character, then moves the tail. */
  datatype Pc = Start | Polled(h: nat) | Available | Tested(h: nat) | Pending | Loaded(c: nat)

  datatype State = State(b: Buffer, pc: Pc, out: seq<nat>)

  datatype Step = Interrupt(c: nat) | Poll | PollCompare | Test | TestCompare | Load | Advance

  predicate Enabled(st: State, step: Step) {
    match step
    case Interrupt(c) => c != 0
    case Poll => st.pc.Start?
    case PollCompare => st.pc.Polled?
    case Test => st.pc.Available?
    case TestCompare => st.pc.Tested?
    case Load => st.pc.Pending?
    case Advance => st.pc.Loaded?
  }

  /** When buffer_get finds the ring empty it returns 0, which keyboard_read stores. */
  function Next(st: State, step: Step): State
    requires Wf(st.b) && Enabled(st, step)
  {
    match step
    case Interrupt(c) => st.(b := Put(st.b, c))
    case Poll => st.(pc := Polled(st.b.head))
    case PollCompare => st.(pc := if st.pc.h != st.b.tail then Available else Start)
    case Test => st.(pc := Tested(st.b.head))
    case TestCompare => if st.pc.h == st.b.tail then st.(pc := Start, out := st.out + [0]) else st.(pc := Pending)
    case Load => st.(pc := Loaded(st.b.keys[st.b.tail]))
    case Advance => State(st.b.(tail := (st.b.tail + 1) % SIZE), Start, st.out + [st.pc.c])
  }

  predicate Accepts(st: State, step: Step)
    requires Wf(st.b)
  {
    step.Interrupt? && (st.b.head + 1) % SIZE != st.b.tail
  }

  /** The characters accepted so far, and how many there were when the reader last loaded the head. */
  datatype View = View(accepted: seq<nat>, seen: nat)

  function NextView(st: State, v: View, step: Step): View
    requires Wf(st.b)
  {
    if Accepts(st, step) then v.(accepted := v.accepted + [step.c])
    else if step.Poll? || step.Test? then v.(seen := |v.accepted|)
    else v
  }

  /** What was read is a prefix of what was accepted; the rest, at most 255 characters, is in the
      ring. */
  ghost predicate Inv(st: State, v: View) {
    && Wf(st.b)
    && |st.out| <= |v.accepted| <= |st.out| + (SIZE - 1) && st.out == v.accepted[..|st.out|]
    && st.b.head == |v.accepted| % SIZE && st.b.tail == |st.out| % SIZE
    && Holds(st.b.keys, |st.out|, v.accepted[|st.out|..])
    && (st.pc.Polled? || st.pc.Tested? ==> st.pc.h == v.seen % SIZE && |st.out| <= v.seen <= |v.accepted|)
    && (st.pc.Tested? ==> |st.out| < v.seen)
    && (!st.pc.Start? && !st.pc.Polled? ==> |st.out| < |v.accepted|)
    && (st.pc.Loaded? ==> st.pc.c == v.accepted[|st.out|])
  }

  lemma Wrapped(i: nat, j: nat)
    requires i <= j < i + SIZE
    ensures i % SIZE == j % SIZE <==> i == j
    ensures (j % SIZE + 1) % SIZE == (j + 1) % SIZE
    ensures (j + 1) % SIZE == i % SIZE <==> j + 1 == i + SIZE
  {
  }

  /** The tests on the wrapped indices are exact. */
  lemma TestsAreExact(st: State, v: View)
    requires Inv(st, v)
    ensures st.b.head == st.b.tail <==> |st.out| == |v.accepted|
    ensures (st.b.head + 1) % SIZE == st.b.tail <==> |v.accepted| == |st.out| + (SIZE - 1)
    ensures st.pc.Polled? || st.pc.Tested? ==> (st.pc.h == st.b.tail <==> v.seen == |st.out|)
  {
    Wrapped(|st.out|, |v.accepted|);
    if st.pc.Polled? || st.pc.Tested? { Wrapped(|st.out|, v.seen); }
  }

  lemma PutKeeps(st: State, v: View, c: nat)
    requires Inv(st, v) && c != 0 && Accepts(st, Interrupt(c))
    ensures Inv(Next(st, Interrupt(c)), v.(accepted := v.accepted + [c]))
  {
    TestsAreExact(st, v);
    var n := |st.out|;
    Wrapped(|v.accepted|, |v.accepted|);
    var items := v.accepted[n..];
    Push(st.b.keys, n, items, c);
    assert (v.accepted + [c])[n..] == items + [c] && (v.accepted + [c])[..n] == v.accepted[..n];
    assert n + |items| == |v.accepted|;
  }

  lemma AdvanceKeeps(st: State, v: View)
    requires Inv(st, v) && Enabled(st, Advance)
    ensures Inv(Next(st, Advance), v)
  {
    var n := |st.out|;
    Wrapped(n, n);
    Pop(st.b.keys, n, v.accepted[n..]);
    assert v.accepted[n..][1..] == v.accepted[n + 1..] && v.accepted[..n] + [v.accepted[n]] == v.accepted[..n + 1];
  }

  lemma StepKeeps(st: State, v: View, step: Step)
    requires Inv(st, v) && Enabled(st, step)
    ensures Inv(Next(st, step), NextView(st, v, step))
  {
    TestsAreExact(st, v);
    match step
    case Interrupt(c) => if Accepts(st, step) { PutKeeps(st, v, c); }
    case Load => Pop(st.b.keys, |st.out|, v.accepted[|st.out|..]);
    case Advance => AdvanceKeeps(st, v);
    case _ =>
  }

  ghost predicate LegalRun(st: State, steps: seq<Step>)
    decreases |steps|
  {
    Wf(st.b) && (steps == [] || (Enabled(st, steps[0]) && LegalRun(Next(st, steps[0]), steps[1..])))
  }

  ghost function Run(st: State, v: View, steps: seq<Step>): (State, View)
    requires LegalRun(st, steps)
    decreases |steps|
  {
    if steps == [] then (st, v) else Run(Next(st, steps[0]), NextView(st, v, steps[0]), steps[1..])
  }

  /** Wherever the interrupts land, the reader gets the accepted characters in order, none lost,
      repeated or made up. */
  lemma {:induction false} RunKeeps(st: State, v: View, steps: seq<Step>)
    requires Inv(st, v) && LegalRun(st, steps)
    ensures Inv(Run(st, v, steps).0, Run(st, v, steps).1)
    ensures Run(st, v, steps).0.out <= Run(st, v, steps).1.accepted
    decreases |steps|
  {
    if steps != [] {
      StepKeeps(st, v, steps[0]);
      RunKeeps(Next(st, steps[0]), NextView(st, v, steps[0]), steps[1..]);
    }
  }

  /** A character is dropped exactly when 255 characters wait to be released. */
  lemma DropsOnlyWhenFull(st: State, v: View, c: nat)
    requires Inv(st, v) && c != 0
    ensures NextView(st, v, Interrupt(c)) == v <==> |v.accepted| - |st.out| == 255
  {
    TestsAreExact(st, v);
    assert |v.accepted + [c]| != |v.accepted|;
  }

  // ---------------------------------------------------------------- the driver's code

  class KeyBuffer {
    var keys: seq<nat>
    var head: nat
    var tail: nat
    /** Characters accepted and characters released since initialisation. */
    ghost var accepted: seq<nat>
    ghost var released: seq<nat>

    ghost predicate Valid()
      reads this
    {
      Inv(State(Buffer(keys, head, tail), Start, released), View(accepted, 0))
    }

    constructor ()
      ensures Valid() && accepted == [] && released == []
    {
      keys, head, tail, accepted, released := seq(SIZE, _ => 0), 0, 0, [], [];
    }

    method BufferPut(c: nat)
      requires Valid() && c != 0
      modifies this`keys, this`head, this`accepted
      ensures Valid()
      ensures accepted == old(accepted) + if |old(accepted)| - |released| < SIZE - 1 then [c] else []
    {
      ghost var st := State(Buffer(keys, head, tail), Start, released);
      StepKeeps(st, View(accepted, 0), Interrupt(c));
      TestsAreExact(st, View(accepted, 0));
      var next := (head + 1) % SIZE;
      if next != tail {
        keys := keys[head := c];
        head := next;
        accepted := accepted + [c];
      }
    }

    method BufferGet() returns (c: nat)
      requires Valid()
      modifies this`tail, this`released
      ensures Valid() && accepted == old(accepted)
      ensures if |old(released)| == |accepted| then c == 0 && released == old(released)
              else c == accepted[|old(released)|] && released == old(released) + [c]
    {
      ghost var st := State(Buffer(keys, head, tail), Start, released);
      TestsAreExact(st, View(accepted, 0));
      if head == tail {
        return 0;
      }
      Pop(keys, |released|, accepted[|released|..]);
      AdvanceKeeps(st.(pc := Loaded(keys[tail])), View(accepted, 0));
      c := keys[tail];
      tail := (tail + 1) % SIZE;
      released := released + [c];
    }

    method KeyboardRead(n: nat) returns (buf: seq<nat>)
      requires Valid()
      modifies this`tail, this`released
      ensures Valid() && released == old(released) + buf
      ensures |buf| == if n <= |accepted| - |old(released)| then n else |accepted| - |old(released)|
    {
      buf := [];
      while |buf| < n && head != tail
        invariant Valid() && released == old(released) + buf && |buf| <= n
        decreases n - |buf|
      {
        TestsAreExact(State(Buffer(keys, head, tail), Start, released), View(accepted, 0));
        var c := BufferGet();
        buf := buf + [c];
      }
      TestsAreExact(State(Buffer(keys, head, tail), Start, released), View(accepted, 0));
    }
  }
}
