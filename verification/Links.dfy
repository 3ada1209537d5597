/** Intrusive doubly linked lists threaded through a table: entry p holds the indices of its
    neighbours, -1 for NULL. A list is abstracted by the sequence of its members. */
module Links {

  const NIL := -1

  datatype Link = Link(next: int, prev: int)

  ghost predicate NoDup(q: seq<nat>) {
    forall i, j :: 0 <= i < j < |q| ==> q[i] != q[j]
  }

  function Head(q: seq<nat>): int { if q == [] then NIL else q[0] }

  function LinkOf(q: seq<nat>, i: nat): Link
    requires i < |q|
  {
    Link(if i + 1 < |q| then q[i + 1] else NIL, if i > 0 then q[i - 1] else NIL)
  }

  ghost predicate LinkedAt(links: seq<Link>, q: seq<nat>, i: nat)
    requires i < |q|
  {
    q[i] < |links| && links[q[i]] == LinkOf(q, i)
  }

  /** Following next from the head meets the members of q in order, and prev inverts next. */
  ghost predicate Linked(links: seq<Link>, q: seq<nat>) {
    forall i :: 0 <= i < |q| ==> LinkedAt(links, q, i)
  }

  /** Writes to entries outside a list leave it linked. */
  lemma Frame(links: seq<Link>, links1: seq<Link>, q: seq<nat>)
    requires Linked(links, q) && |links1| == |links|
    requires forall p :: p in q && p < |links| ==> links1[p] == links[p]
    ensures Linked(links1, q)
  {
    forall i | 0 <= i < |q| ensures LinkedAt(links1, q, i) {
      assert LinkedAt(links, q, i) && q[i] in q;
    }
  }

  function Append(links: seq<Link>, tail: nat, p: nat): seq<Link>
    requires tail < |links| && p < |links|
  {
    var l1 := links[p := Link(NIL, NIL)];
    var l2 := l1[tail := l1[tail].(next := p)];
    l2[p := l2[p].(prev := tail)]
  }

  lemma AppendLinked(links: seq<Link>, q: seq<nat>, p: nat)
    requires Linked(links, q) && NoDup(q) && q != [] && p !in q && p < |links|
    ensures q[|q| - 1] < |links| && Linked(Append(links, q[|q| - 1], p), q + [p])
  {
    assert LinkedAt(links, q, |q| - 1);
    var n, r := Append(links, q[|q| - 1], p), q + [p];
    forall i | 0 <= i < |r| ensures LinkedAt(n, r, i) {
      if i < |q| { assert LinkedAt(links, q, i); }
    }
  }

  /** The writes that unlink p from its neighbours, and p from them. */
  function Unlink(links: seq<Link>, p: nat): seq<Link>
    requires p < |links| && NIL <= links[p].prev < |links| && NIL <= links[p].next < |links|
  {
    var k := links[p];
    var l1 := if k.prev != NIL then links[k.prev := links[k.prev].(next := k.next)] else links;
    var l2 := if k.next != NIL then l1[k.next := l1[k.next].(prev := k.prev)] else l1;
    l2[p := Link(NIL, NIL)]
  }

  function Drop(q: seq<nat>, k: nat): seq<nat>
    requires k < |q|
  {
    q[..k] + q[k + 1..]
  }

  lemma UnlinkLinked(links: seq<Link>, q: seq<nat>, k: nat)
    requires Linked(links, q) && NoDup(q) && k < |q|
    ensures q[k] < |links| && NIL <= links[q[k]].prev < |links| && NIL <= links[q[k]].next < |links|
    ensures Linked(Unlink(links, q[k]), Drop(q, k))
  {
    assert LinkedAt(links, q, k);
    if k > 0 { assert LinkedAt(links, q, k - 1); }
    if k + 1 < |q| { assert LinkedAt(links, q, k + 1); }
    var n, r := Unlink(links, q[k]), Drop(q, k);
    forall i | 0 <= i < |r| ensures LinkedAt(n, r, i) {
      var o := if i < k then i else i + 1;
      assert r[i] == q[o] && LinkedAt(links, q, o);
      assert i > 0 ==> r[i - 1] == if i <= k then q[i - 1] else q[i];
      assert i + 1 < |r| ==> r[i + 1] == if i + 1 < k then q[i + 1] else q[i + 2];
    }
  }

  /** The writes that put p before the entry at nx and after the one at pv. */
  function Insert(links: seq<Link>, p: nat, pv: int, nx: int): seq<Link>
    requires p < |links| && NIL <= pv < |links| && NIL <= nx < |links|
  {
    var l1 := links[p := Link(nx, pv)];
    var l2 := if nx != NIL then l1[nx := l1[nx].(prev := p)] else l1;
    if pv != NIL then l2[pv := l2[pv].(next := p)] else l2
  }

  lemma InsertLinked(links: seq<Link>, q: seq<nat>, k: nat, p: nat)
    requires Linked(links, q) && NoDup(q) && k <= |q| && p !in q && p < |links|
    ensures var pv, nx := if k > 0 then q[k - 1] else NIL, if k < |q| then q[k] else NIL;
            && pv < |links| && nx < |links|
            && Linked(Insert(links, p, pv, nx), q[..k] + [p] + q[k..])
  {
    var pv, nx := if k > 0 then q[k - 1] else NIL, if k < |q| then q[k] else NIL;
    if k > 0 { assert LinkedAt(links, q, k - 1); }
    if k < |q| { assert LinkedAt(links, q, k); }
    var n, r := Insert(links, p, pv, nx), q[..k] + [p] + q[k..];
    forall i | 0 <= i < |r| ensures LinkedAt(n, r, i) {
      if i != k {
        var o := if i < k then i else i - 1;
        assert r[i] == q[o] && LinkedAt(links, q, o);
        assert q[o] in q;
      }
      assert i > 0 ==> r[i - 1] == if i - 1 < k then q[i - 1] else if i - 1 == k then p else q[i - 2];
      assert i + 1 < |r| ==> r[i + 1] == if i + 1 < k then q[i + 1] else if i + 1 == k then p else q[i];
    }
  }
}
