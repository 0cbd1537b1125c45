/** The recency list of one shard of pkg/store/kv/kv.go: two maps of pointers, a head and a tail. Entries are
    identified by their address; a missing key of `next` or `prev` reads as nil, as in the source. */
module LruList {
  import opened KvLog
  import opened Wrappers

  /** An entry; `addr` is its identity, so two entries are the same pointer only if all of it agrees. */
  datatype Entry = Entry(addr: nat, key: string, value: Value, expireAt: Option<int>, size: nat, version: nat)

  datatype Links = Links(
    head: Option<Entry>, tail: Option<Entry>, next: map<Entry, Option<Entry>>, prev: map<Entry, Option<Entry>>)

  function Empty(): Links {
    Links(None, None, map[], map[])
  }

  function Ptr(m: map<Entry, Option<Entry>>, e: Entry): Option<Entry> {
    if e in m then m[e] else None
  }

  // ---------- the code, step by step ----------

  /** kv.go:359-367, the part of `moveToFront` that takes the entry out of its place. */
  function Detach(l: Links, e: Entry): Links {
    var next := match Ptr(l.prev, e) case Some(p) => l.next[p := Ptr(l.next, e)] case None => l.next;
    match Ptr(next, e)
    case Some(n) => l.(next := next, prev := l.prev[n := Ptr(l.prev, e)])
    case None => l.(next := next, tail := Ptr(l.prev, e))
  }

  /** kv.go:369-378, the part of `moveToFront` that puts it in front. */
  function Attach(l: Links, e: Entry): Links {
    var next, prev := l.next[e := l.head], l.prev[e := None];
    var prev' := if l.head.Some? then prev[l.head.value := Some(e)] else prev;
    Links(Some(e), if l.tail.None? then Some(e) else l.tail, next, prev')
  }

  /** `moveToFront` as written. With `guarded`, an entry that is not linked yet is not detached. */
  function MoveToFront(l: Links, e: Entry, guarded: bool): Links {
    if l.head == Some(e) then l
    else if guarded && e !in l.next then Attach(l, e)
    else Attach(Detach(l, e), e)
  }

  /** The list part of `deleteFromShard` (kv.go:400-413). */
  function Remove(l: Links, e: Entry): Links {
    var l1 := match Ptr(l.prev, e)
      case Some(p) => l.(next := l.next[p := Ptr(l.next, e)])
      case None => l.(head := Ptr(l.next, e));
    var l2 := match Ptr(l1.next, e)
      case Some(n) => l1.(prev := l1.prev[n := Ptr(l1.prev, e)])
      case None => l1.(tail := Ptr(l1.prev, e));
    l2.(next := l2.next - {e}, prev := l2.prev - {e})
  }

  // ---------- what it stands for ----------

  function At(order: seq<Entry>, i: int): Option<Entry> {
    if 0 <= i < |order| then Some(order[i]) else None
  }

  /** The pointers of `order[i]` lead to its neighbours. */
  ghost predicate LinkedAt(l: Links, order: seq<Entry>, i: nat)
    requires i < |order|
  {
    && order[i] in l.next && l.next[order[i]] == At(order, i + 1)
    && order[i] in l.prev && l.prev[order[i]] == At(order, i - 1)
  }

  /** Head and pointers spell out `order`, most recent first, and nothing else. */
  ghost predicate Chain(l: Links, order: seq<Entry>) {
    && Distinct(order)
    && l.head == At(order, 0)
    && (forall e :: e in l.next <==> e in order)
    && (forall e :: e in l.prev <==> e in order)
    && (forall i :: 0 <= i < |order| ==> LinkedAt(l, order, i))
  }

  /** The whole list, with its tail. */
  ghost predicate Represents(l: Links, order: seq<Entry>) {
    Chain(l, order) && l.tail == At(order, |order| - 1)
  }

  function IndexOf(order: seq<Entry>, e: Entry): (i: nat)
    requires e in order
    ensures i < |order| && order[i] == e && e !in order[..i]
  {
    if order[0] == e then 0 else 1 + IndexOf(order[1..], e)
  }

  /** `order` without `e`. */
  function Without(order: seq<Entry>, e: Entry): seq<Entry> {
    if e in order then order[..IndexOf(order, e)] + order[IndexOf(order, e) + 1..] else order
  }

  function Front(order: seq<Entry>, e: Entry): seq<Entry> {
    [e] + Without(order, e)
  }

  lemma WithoutIs(order: seq<Entry>, e: Entry)
    requires Distinct(order)
    ensures Distinct(Without(order, e))
    ensures forall x :: x in Without(order, e) <==> x in order && x != e
  {
    if e in order {
      var k := IndexOf(order, e);
      var r := Without(order, e);
      forall x | x in order && x != e
        ensures x in r
      {
        var i :| 0 <= i < |order| && order[i] == x;
        assert x == r[if i < k then i else i - 1];
      }
    }
  }

  /** The pointers stand for one order only. */
  lemma {:induction false} SamePrefix(l: Links, a: seq<Entry>, b: seq<Entry>, n: nat)
    requires Chain(l, a) && Chain(l, b) && n <= |a|
    ensures n <= |b| && a[..n] == b[..n]
  {
    if n == 0 {
    } else {
      SamePrefix(l, a, b, n - 1);
      if n > 1 {
        assert a[n - 2] == a[..n - 1][n - 2] == b[..n - 1][n - 2] == b[n - 2];
        assert LinkedAt(l, a, n - 2) && LinkedAt(l, b, n - 2);
      }
      assert a[..n] == a[..n - 1] + [a[n - 1]] && b[..n] == b[..n - 1] + [b[n - 1]];
    }
  }

  // ---------- removal ----------

  /** What removing `e` does to the pointers of another entry. */
  lemma RemovePointers(l: Links, e: Entry, x: Entry)
    requires e in l.next && e in l.prev && x in l.next && x in l.prev && x != e
    requires l.next[e] != Some(e) && l.prev[e] != Some(e)
    ensures var l' := Remove(l, e);
      && x in l'.next && l'.next[x] == (if l.prev[e] == Some(x) then l.next[e] else l.next[x])
      && x in l'.prev && l'.prev[x] == (if l.next[e] == Some(x) then l.prev[e] else l.prev[x])
  {
  }

  lemma WithoutAt(order: seq<Entry>, e: Entry, i: nat)
    requires e in order && i < |Without(order, e)|
    ensures |Without(order, e)| == |order| - 1
    ensures var k := IndexOf(order, e);
      Without(order, e)[i] == order[if i < k then i else i + 1]
  {
  }

  /** The neighbours of an entry in `order` without `e`, by its place in `order`. */
  lemma WithoutNeighbours(order: seq<Entry>, e: Entry, i: nat)
    requires e in order && i < |Without(order, e)|
    ensures var k, r := IndexOf(order, e), Without(order, e);
      var j := if i < k then i else i + 1;
      && At(r, i + 1) == At(order, if j + 1 == k then k + 1 else j + 1)
      && At(r, i - 1) == At(order, if j - 1 == k then k - 1 else j - 1)
  {
    hide IndexOf, Without;
    WithoutAt(order, e, i);
    if i + 1 < |order| - 1 {
      WithoutAt(order, e, i + 1);
    }
    if i > 0 {
      WithoutAt(order, e, i - 1);
    }
  }

  lemma RemoveIsRemove(l: Links, order: seq<Entry>, e: Entry)
    requires Represents(l, order) && e in order
    ensures Represents(Remove(l, e), Without(order, e))
  {
    hide Remove;
    var k, r, l' := IndexOf(order, e), Without(order, e), Remove(l, e);
    WithoutIs(order, e);
    assert LinkedAt(l, order, k);
    forall i | 0 <= i < |r|
      ensures LinkedAt(l', r, i)
    {
      RemovedNeighbours(l, order, e, i);
    }
    RemovedEnds(l, order, e);
    RemovedMembers(l, e);
  }

  lemma RemovedEnds(l: Links, order: seq<Entry>, e: Entry)
    requires Represents(l, order) && e in order
    ensures var r := Without(order, e);
      Remove(l, e).head == At(r, 0) && Remove(l, e).tail == At(r, |r| - 1)
  {
    hide IndexOf, Without;
    var k, r := IndexOf(order, e), Without(order, e);
    OneLess(order, e);
    assert LinkedAt(l, order, k);
    if r != [] {
      WithoutAt(order, e, 0);
      WithoutAt(order, e, |r| - 1);
    }
    assert k > 0 ==> order[k - 1] != e;
  }

  lemma OneLess(order: seq<Entry>, e: Entry)
    requires e in order
    ensures |Without(order, e)| == |order| - 1
    ensures IndexOf(order, e) < |order| && order[IndexOf(order, e)] == e
  {
  }

  lemma RemovedMembers(l: Links, e: Entry)
    requires e in l.next && e in l.prev && (forall x :: x in l.next <==> x in l.prev)
    requires l.next[e].Some? ==> l.next[e].value in l.next && l.next[e].value != e
    requires l.prev[e].Some? ==> l.prev[e].value in l.prev && l.prev[e].value != e
    ensures forall x :: x in Remove(l, e).next <==> x in l.next && x != e
    ensures forall x :: x in Remove(l, e).prev <==> x in l.prev && x != e
  {
  }

  lemma RemovedNeighbours(l: Links, order: seq<Entry>, e: Entry, i: nat)
    requires Chain(l, order) && e in order && i < |Without(order, e)|
    ensures LinkedAt(Remove(l, e), Without(order, e), i)
  {
    hide Remove, Without, IndexOf;
    var k, r := IndexOf(order, e), Without(order, e);
    WithoutAt(order, e, i);
    WithoutNeighbours(order, e, i);
    var j := if i < k then i else i + 1;
    assert LinkedAt(l, order, k) && LinkedAt(l, order, j);
    RemovePointers(l, e, order[j]);
  }

  /** Eviction takes the least recently used entry. */
  lemma RemoveTailDropsLast(l: Links, order: seq<Entry>)
    requires Represents(l, order) && order != []
    ensures l.tail == Some(order[|order| - 1])
    ensures Represents(Remove(l, order[|order| - 1]), order[..|order| - 1])
  {
    var e := order[|order| - 1];
    RemoveIsRemove(l, order, e);
    assert IndexOf(order, e) == |order| - 1;
    assert Without(order, e) == order[..|order| - 1];
  }

  // ---------- moving to the front ----------

  /** `r` is the list proper; `e` may still have pointers of its own. */
  ghost predicate Around(l: Links, r: seq<Entry>, e: Entry) {
    && Distinct(r) && e !in r
    && l.head == At(r, 0) && l.tail == At(r, |r| - 1)
    && (forall x :: x in l.next ==> x in r || x == e)
    && (forall x :: x in l.prev ==> x in r || x == e)
    && (forall x :: x in r ==> x in l.next && x in l.prev)
    && (forall i :: 0 <= i < |r| ==> LinkedAt(l, r, i))
  }

  /** Detaching is removing, except that the entry keeps pointers of its own. */
  lemma DetachKeepsOwnPointers(l: Links, e: Entry)
    requires e in l.next && e in l.prev && l.prev[e].Some?
    requires l.next[e] != Some(e) && l.prev[e] != Some(e)
    ensures var d, r := Detach(l, e), Remove(l, e);
      && d.head == r.head && d.tail == r.tail && e in d.next && e in d.prev
      && d.next - {e} == r.next && d.prev - {e} == r.prev
  {
  }

  lemma DetachIsRemove(l: Links, order: seq<Entry>, e: Entry)
    requires Represents(l, order) && e in order && l.head != Some(e)
    ensures Around(Detach(l, e), Without(order, e), e)
  {
    hide Remove, Detach, Without, IndexOf;
    var r, d := Without(order, e), Detach(l, e);
    assert LinkedAt(l, order, IndexOf(order, e));
    WithoutIs(order, e);
    DetachKeepsOwnPointers(l, e);
    RemoveIsRemove(l, order, e);
    assert forall x :: x in d.next && x != e ==> x in d.next - {e};
    assert forall x :: x in d.prev && x != e ==> x in d.prev - {e};
    forall i | 0 <= i < |r|
      ensures LinkedAt(d, r, i)
    {
      assert LinkedAt(Remove(l, e), r, i);
      assert r[i] in d.next - {e} && r[i] in d.prev - {e};
    }
  }

  lemma AttachIsCons(l: Links, r: seq<Entry>, e: Entry)
    requires Around(l, r, e)
    ensures Represents(Attach(l, e), [e] + r)
  {
    var l', o := Attach(l, e), [e] + r;
    forall i | 0 <= i < |o|
      ensures LinkedAt(l', o, i)
    {
      if i > 0 {
        assert o[i] == r[i - 1] && LinkedAt(l, r, i - 1);
      }
    }
  }

  /** A linked entry moves to the front; with the guard, so does a fresh one. */
  lemma MoveToFrontIsFront(l: Links, order: seq<Entry>, e: Entry, guarded: bool)
    requires Represents(l, order) && (guarded || e in order)
    ensures Represents(MoveToFront(l, e, guarded), Front(order, e))
  {
    WithoutIs(order, e);
    if l.head == Some(e) {
      assert order[0] == e && IndexOf(order, e) == 0;
      assert Front(order, e) == order;
    } else if e in order {
      DetachIsRemove(l, order, e);
      AttachIsCons(Detach(l, e), Without(order, e), e);
    } else {
      AttachIsCons(l, order, e);
    }
  }

  /** As written, a fresh entry put into a non-empty list becomes its tail: the pointers are right, but the
      newest entry now stands where the least recently used one should. */
  lemma FreshBecomesTail(l: Links, order: seq<Entry>, e: Entry)
    requires Represents(l, order) && e !in order
    ensures var l' := MoveToFront(l, e, false);
      Chain(l', [e] + order) && l'.tail == Some(e)
  {
    var l1 := Detach(l, e);
    assert l1 == l.(tail := None);
    AttachIsCons(l, order, e);
    var l', o := Attach(l, e), [e] + order;
    assert MoveToFront(l, e, false) == l'.(tail := Some(e));
    forall i | 0 <= i < |o|
      ensures LinkedAt(l'.(tail := Some(e)), o, i)
    {
      assert LinkedAt(l', o, i);
    }
  }

  /** Exactly when `moveToFront` as written keeps the list: the entry is already linked, or the list is empty.
      (The first is the `else` of kv.go:365 not taken for a fresh entry.) */
  lemma AsWrittenExactly(l: Links, order: seq<Entry>, e: Entry)
    requires Represents(l, order)
    ensures Represents(MoveToFront(l, e, false), Front(order, e)) <==> e in l.next || l.head == None
  {
    WithoutIs(order, e);
    if e in order {
      MoveToFrontIsFront(l, order, e, false);
    } else {
      FreshBecomesTail(l, order, e);
      assert order == [] ==> l == Links(None, None, l.next, l.prev);
      assert order != [] ==> At([e] + order, |order|) == Some(order[|order| - 1]);
    }
  }

  /** So two insertions suffice to make eviction throw out the newest entry, and after two evictions the list has
      forgotten an entry that is still stored. */
  lemma NewestIsEvicted(a: Entry, b: Entry)
    requires a != b
    ensures var l := MoveToFront(MoveToFront(Empty(), a, false), b, false);
      && Chain(l, [b, a]) && l.tail == Some(b)
      && Remove(l, b).tail == Some(b) && Chain(Remove(l, b), [a])
      && Remove(Remove(l, b), b).head == None && a in Remove(Remove(l, b), b).next
  {
    var l1 := MoveToFront(Empty(), a, false);
    assert Represents(Empty(), []);
    AsWrittenExactly(Empty(), [], a);
    assert Front([], a) == [a];
    FreshBecomesTail(l1, [a], b);
    assert [b] + [a] == [b, a];
  }

  // ---------- what the code as written keeps ----------

  /** The pointers of `e` and those that lead back to it agree, and `rank` falls along `next`. */
  ghost predicate Mirrored(next: map<Entry, Option<Entry>>, prev: map<Entry, Option<Entry>>, rank: map<Entry, int>,
                           e: Entry)
  {
    && (e in next <==> e in prev)
    && (e in next ==>
          && e in rank
          && (next[e].Some? ==>
                var n := next[e].value; n in prev && prev[n] == Some(e) && n in rank && rank[e] > rank[n])
          && (prev[e].Some? ==> prev[e].value in next && next[prev[e].value] == Some(e)))
  }

  ghost predicate AllMirrored(next: map<Entry, Option<Entry>>, prev: map<Entry, Option<Entry>>, rank: map<Entry, int>) {
    forall e :: Mirrored(next, prev, rank, e)
  }

  /** Nothing is in front of the head. */
  predicate HeadIsFirst(l: Links) {
    l.head.Some? ==> l.head.value in l.prev && l.prev[l.head.value] == None
  }

  /** Pointers agree and nobody follows itself. There may be several chains, and the tail may be anywhere. */
  ghost predicate Knit(l: Links) {
    HeadIsFirst(l) && exists rank :: AllMirrored(l.next, l.prev, rank)
  }

  lemma EmptyIsKnit()
    ensures Knit(Empty())
  {
    assert AllMirrored(map[], map[], map[]);
  }

  lemma MirroredAt(l: Links, rank: map<Entry, int>, e: Entry)
    requires AllMirrored(l.next, l.prev, rank)
    ensures Mirrored(l.next, l.prev, rank, e)
    ensures e in l.next && l.next[e].Some? ==> Mirrored(l.next, l.prev, rank, l.next[e].value)
    ensures e in l.next && l.prev[e].Some? ==> Mirrored(l.next, l.prev, rank, l.prev[e].value)
  {
    assert Mirrored(l.next, l.prev, rank, e);
  }

  lemma RemoveMirrorsAt(l: Links, e: Entry, rank: map<Entry, int>, x: Entry)
    requires AllMirrored(l.next, l.prev, rank)
    ensures Mirrored(Remove(l, e).next, Remove(l, e).prev, rank, x)
  {
    hide AllMirrored;
    MirroredAt(l, rank, e);
    MirroredAt(l, rank, x);
  }

  lemma RemoveKeepsMirrors(l: Links, e: Entry, rank: map<Entry, int>)
    requires AllMirrored(l.next, l.prev, rank)
    ensures AllMirrored(Remove(l, e).next, Remove(l, e).prev, rank)
  {
    hide Remove, Mirrored;
    forall x
      ensures Mirrored(Remove(l, e).next, Remove(l, e).prev, rank, x)
    {
      RemoveMirrorsAt(l, e, rank, x);
    }
  }

  lemma RemoveKeepsKnit(l: Links, e: Entry)
    requires Knit(l)
    ensures Knit(Remove(l, e))
  {
    hide AllMirrored;
    var rank :| AllMirrored(l.next, l.prev, rank);
    RemoveKeepsMirrors(l, e, rank);
    MirroredAt(l, rank, e);
    if l.head.Some? {
      MirroredAt(l, rank, l.head.value);
    }
  }

  /** Detaching is removing, except that the entry may keep pointers of its own and the head stays. */
  lemma DetachIsLikeRemove(l: Links, e: Entry, rank: map<Entry, int>)
    requires AllMirrored(l.next, l.prev, rank)
    ensures Detach(l, e).next - {e} == Remove(l, e).next && Detach(l, e).prev - {e} == Remove(l, e).prev
  {
    hide AllMirrored;
    MirroredAt(l, rank, e);
  }

  lemma AttachMirrorsAt(l: Links, e: Entry, rank: map<Entry, int>, x: Entry)
    requires AllMirrored(l.next - {e}, l.prev - {e}, rank) && HeadIsFirst(l) && l.head != Some(e)
    ensures l.head.Some? ==> l.head.value in rank
    ensures var l', rank' := Attach(l, e), rank[e := if l.head.Some? then rank[l.head.value] + 1 else 0];
            Mirrored(l'.next, l'.prev, rank', x)
  {
    hide AllMirrored;
    var m := l.(next := l.next - {e}, prev := l.prev - {e});
    MirroredAt(m, rank, x);
    if l.head.Some? {
      MirroredAt(m, rank, l.head.value);
    }
  }

  lemma AttachKnits(l: Links, e: Entry, rank: map<Entry, int>)
    requires AllMirrored(l.next - {e}, l.prev - {e}, rank) && HeadIsFirst(l) && l.head != Some(e)
    ensures Knit(Attach(l, e))
  {
    hide Mirrored;
    AttachMirrorsAt(l, e, rank, e);
    var rank' := rank[e := if l.head.Some? then rank[l.head.value] + 1 else 0];
    forall x
      ensures Mirrored(Attach(l, e).next, Attach(l, e).prev, rank', x)
    {
      AttachMirrorsAt(l, e, rank, x);
    }
    assert AllMirrored(Attach(l, e).next, Attach(l, e).prev, rank');
  }

  lemma DetachKeepsHead(l: Links, e: Entry, rank: map<Entry, int>)
    requires AllMirrored(l.next, l.prev, rank) && HeadIsFirst(l) && l.head != Some(e)
    ensures HeadIsFirst(Detach(l, e)) && Detach(l, e).head == l.head
  {
    hide AllMirrored;
    MirroredAt(l, rank, e);
  }

  lemma MoveToFrontKeepsKnit(l: Links, e: Entry, guarded: bool)
    requires Knit(l)
    ensures Knit(MoveToFront(l, e, guarded))
  {
    hide AllMirrored, Detach, Attach, Remove;
    var rank :| AllMirrored(l.next, l.prev, rank);
    MirroredAt(l, rank, e);
    if l.head != Some(e) {
      if guarded && e !in l.next {
        assert l.next - {e} == l.next && l.prev - {e} == l.prev;
        AttachKnits(l, e, rank);
      } else {
        RemoveKeepsMirrors(l, e, rank);
        DetachIsLikeRemove(l, e, rank);
        DetachKeepsHead(l, e, rank);
        AttachKnits(Detach(l, e), e, rank);
      }
    }
  }

  /** What removing the tail does, wherever it is: one with others behind it stays the tail, though it is not linked any
      more; else the one in front of it is the tail, and nothing is behind that. */
  lemma RemoveTail(l: Links, e: Entry)
    requires Knit(l) && l.tail == Some(e)
    ensures var l' := Remove(l, e);
            && e !in l'.next && e !in l'.prev
            && l'.tail == (if Ptr(l.next, e).Some? then l.tail else Ptr(l.prev, e))
            && (Ptr(l.next, e).None? ==> l'.prev == l.prev - {e})
            && (Ptr(l.next, e).None? && l'.tail.Some? ==> Ptr(l'.next, l'.tail.value) == None)
  {
    hide AllMirrored;
    var rank :| AllMirrored(l.next, l.prev, rank);
    MirroredAt(l, rank, e);
  }

  lemma OrderIsKnit(l: Links, order: seq<Entry>)
    requires Represents(l, order)
    ensures Knit(l)
  {
    hide IndexOf;
    var rank: map<Entry, int> := map e | e in order :: |order| - IndexOf(order, e);
    forall e
      ensures Mirrored(l.next, l.prev, rank, e)
    {
      if e in order {
        var k := IndexOf(order, e);
        assert LinkedAt(l, order, k);
        if k + 1 < |order| {
          assert LinkedAt(l, order, k + 1) && IndexOf(order, order[k + 1]) == k + 1;
        }
        if k > 0 {
          assert LinkedAt(l, order, k - 1);
        }
      }
    }
    assert AllMirrored(l.next, l.prev, rank);
    assert order != [] ==> LinkedAt(l, order, 0);
  }
}
