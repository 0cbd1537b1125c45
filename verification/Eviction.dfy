/** The eviction loops of `Set` (pkg/store/kv/kv.go:440-447) as a walk over a shard's list and the global counters:
    what the loops take, when they end, and what they leave, for the list as it is, in order or not. */
module Eviction {
  import opened KvLog
  import opened LruList
  import opened Wrappers

  // ---------- what fits ----------

  function SizeOf(order: seq<Entry>): nat {
    if order == [] then 0 else SizeOf(order[..|order| - 1]) + order[|order| - 1].size
  }

  /** The entries that may stay beside a new one of `size` bytes. */
  predicate Fits(order: seq<Entry>, size: nat, maxEntries: int, maxMemory: int) {
    |order| < maxEntries && SizeOf(order) + size <= maxMemory
  }

  /** What eviction leaves: the least recently used entries go until the rest fits. */
  function Keep(order: seq<Entry>, size: nat, maxEntries: int, maxMemory: int): seq<Entry> {
    if order == [] || Fits(order, size, maxEntries, maxMemory) then order
    else Keep(order[..|order| - 1], size, maxEntries, maxMemory)
  }

  lemma {:induction false} SizeOfPrefix(order: seq<Entry>, n: nat)
    requires n <= |order|
    ensures SizeOf(order[..n]) <= SizeOf(order)
  {
    if n < |order| {
      SizeOfPrefix(order[..|order| - 1], n);
      assert order[..|order| - 1][..n] == order[..n];
    } else {
      assert order[..n] == order;
    }
  }

  /** Eviction removes the shortest least-recently-used suffix that makes room: what is kept is a prefix of the
      recency order, it fits, and every prefix that fits is contained in it. */
  lemma {:induction false} KeepIsLongestFittingPrefix(order: seq<Entry>, size: nat, maxEntries: int, maxMemory: int,
                                                      n: nat)
    requires maxEntries > 0 && size <= maxMemory && n <= |order|
    ensures Keep(order, size, maxEntries, maxMemory) <= order
    ensures Fits(Keep(order, size, maxEntries, maxMemory), size, maxEntries, maxMemory)
    ensures Fits(order[..n], size, maxEntries, maxMemory) <==> n <= |Keep(order, size, maxEntries, maxMemory)|
  {
    if order != [] && !Fits(order, size, maxEntries, maxMemory) {
      var init := order[..|order| - 1];
      if n < |order| {
        KeepIsLongestFittingPrefix(init, size, maxEntries, maxMemory, n);
        assert init[..n] == order[..n];
      } else {
        KeepIsLongestFittingPrefix(init, size, maxEntries, maxMemory, 0);
        assert order[..n] == order;
      }
    } else {
      SizeOfPrefix(order, n);
    }
  }

  lemma {:induction false} SizeOfConcat(a: seq<Entry>, b: seq<Entry>)
    ensures SizeOf(a + b) == SizeOf(a) + SizeOf(b)
  {
    if b == [] {
      assert a + b == a;
    } else {
      assert (a + b)[..|a + b| - 1] == a + b[..|b| - 1];
      SizeOfConcat(a, b[..|b| - 1]);
    }
  }

  lemma SizeOfOne(e: Entry)
    ensures SizeOf([e]) == e.size
  {
    assert [e][..0] == [];
  }

  // ---------- the loops ----------

  /** A shard's list and the counters of the whole store. */
  datatype Ledger = Ledger(list: Links, entries: int, memory: int)

  /** One call of `evictLRU`. */
  function EvictOne(g: Ledger): Ledger {
    match g.list.tail
    case None => g
    case Some(e) => Ledger(Remove(g.list, e), g.entries - 1, g.memory - e.size)
  }

  function Evict(g: Ledger, n: nat): Ledger {
    if n == 0 then g else EvictOne(Evict(g, n - 1))
  }

  /** Both loops have ended: an entry of `size` bytes fits beside everything the store counts. */
  predicate Room(g: Ledger, size: nat, maxEntries: int, maxMemory: int) {
    g.entries < maxEntries && g.memory + size <= maxMemory
  }

  function Reversed(order: seq<Entry>): (r: seq<Entry>)
    ensures |r| == |order|
  {
    if order == [] then [] else [order[|order| - 1]] + Reversed(order[..|order| - 1])
  }

  /** The entry and all in front of it, from the back to the front. */
  function Forward(prev: map<Entry, Option<Entry>>, e: Entry): seq<Entry>
    decreases |prev|
  {
    [e] + if e in prev && prev[e].Some? then Forward(prev - {e}, prev[e].value) else []
  }

  /** The entries that evictions deduct one after the other, until they find no tail any more. The tail leads from the
      back to the front; but one with others behind it is deducted twice, because removing it leaves it the tail. */
  function Victims(l: Links): seq<Entry> {
    match l.tail
    case None => []
    case Some(e) => if Ptr(l.next, e).Some? then [e, e] else Forward(l.prev, e)
  }

  lemma FirstVictim(l: Links, e: Entry)
    requires Knit(l) && l.tail == Some(e)
    ensures Knit(Remove(l, e)) && Victims(l) == [e] + Victims(Remove(l, e))
  {
    hide Knit, Remove;
    RemoveKeepsKnit(l, e);
    RemoveTail(l, e);
  }

  function Deducted(g: Ledger, victims: seq<Entry>, n: nat): (int, int)
    requires n <= |victims|
  {
    (g.entries - n, g.memory - SizeOf(victims[..n]))
  }

  /** After `n` evictions the counters lack the first `n` victims; later evictions find nothing. */
  ghost predicate Deducts(g: Ledger, victims: seq<Entry>, n: nat) {
    var m := if n <= |victims| then n else |victims|;
    var left := Evict(g, n);
    (left.entries, left.memory) == Deducted(g, victims, m) && (n >= |victims| ==> left.list.tail == None)
  }

  lemma {:induction false} EvictOneFirst(g: Ledger, n: nat)
    ensures Evict(EvictOne(g), n) == Evict(g, n + 1)
  {
    hide EvictOne;
    if n == 0 {
      assert Evict(g, 1) == EvictOne(Evict(g, 0));
    } else {
      EvictOneFirst(g, n - 1);
    }
  }

  /** What evictions deduct from any list that the code, as written or guarded, can come to. */
  lemma {:induction false} EvictDeducts(g: Ledger, n: nat)
    requires Knit(g.list)
    ensures Deducts(g, Victims(g.list), n)
    decreases n
  {
    hide Knit, Remove, SizeOf, Forward;
    var victims := Victims(g.list);
    if n == 0 {
      assert victims[..0] == [];
      NoVictims(g.list);
    } else if g.list.tail.None? {
      EvictDeducts(g, n - 1);
      EvictOneFirst(g, n - 1);
    } else {
      var e, rest := g.list.tail.value, EvictOne(g);
      FirstVictim(g.list, e);
      EvictDeducts(rest, n - 1);
      EvictOneFirst(g, n - 1);
      var m := if n <= |victims| then n else |victims|;
      assert victims[..m] == [e] + Victims(rest.list)[..m - 1];
      SizeOfConcat([e], Victims(rest.list)[..m - 1]);
      SizeOfOne(e);
    }
  }

  lemma NoVictims(l: Links)
    ensures Victims(l) == [] <==> l.tail == None
    ensures SizeOf([]) == 0
  {
  }

  lemma {:induction false} ReversedAt(order: seq<Entry>, k: nat)
    requires k < |order|
    ensures Reversed(order)[k] == order[|order| - 1 - k]
    decreases k
  {
    if k == 0 {
    } else {
      var init := order[..|order| - 1];
      ReversedAt(init, k - 1);
      assert Reversed(order)[1..] == Reversed(init);
      assert Reversed(order)[k] == Reversed(order)[1..][k - 1];
    }
  }

  lemma {:induction false} ReversedSize(order: seq<Entry>)
    ensures SizeOf(Reversed(order)) == SizeOf(order)
  {
    if order == [] {
    } else {
      var last := order[|order| - 1];
      ReversedSize(order[..|order| - 1]);
      SizeOfConcat([last], Reversed(order[..|order| - 1]));
      SizeOfOne(last);
    }
  }

  function Dropped(order: seq<Entry>, n: nat): seq<Entry> {
    if n <= |order| then order[..|order| - n] else []
  }

  /** On a list in order, evictions drop entries from the end. */
  lemma {:induction false} EvictDrops(g: Ledger, order: seq<Entry>, n: nat)
    requires Represents(g.list, order)
    ensures Represents(Evict(g, n).list, Dropped(order, n))
    decreases n
  {
    hide Represents, Remove;
    if n == 0 {
      assert order[..|order|] == order;
    } else {
      EvictDrops(g, order, n - 1);
      var left := Dropped(order, n - 1);
      if n <= |order| {
        RemoveTailDropsLast(Evict(g, n - 1).list, left);
        assert left[..|left| - 1] == Dropped(order, n);
      } else {
        NoTail(Evict(g, n - 1).list);
      }
    }
  }

  lemma NoTail(l: Links)
    requires Represents(l, [])
    ensures l.tail == None
  {
  }

  /** And its victims are its entries, the least recently used first. */
  lemma {:induction false} VictimsOfOrder(l: Links, order: seq<Entry>)
    requires Represents(l, order)
    ensures Knit(l) && Victims(l) == Reversed(order)
    decreases |order|
  {
    hide Represents, Remove, Knit, Victims;
    OrderIsKnit(l, order);
    NoVictims(l);
    if order == [] {
      NoTail(l);
    } else {
      var last := order[|order| - 1];
      RemoveTailDropsLast(l, order);
      VictimsOfOrder(Remove(l, last), order[..|order| - 1]);
      FirstVictim(l, last);
    }
  }

  lemma {:induction false} SizeOfPart(victims: seq<Entry>, n: nat)
    requires n <= |victims|
    ensures SizeOf(victims[..n]) <= SizeOf(victims)
  {
    SizeOfPrefix(victims, n);
  }

  /** Deducting every victim makes room. */
  predicate Enough(g: Ledger, victims: seq<Entry>, size: nat, maxEntries: int, maxMemory: int) {
    g.entries - |victims| < maxEntries && g.memory - SizeOf(victims) + size <= maxMemory
  }

  /** The loops end if and only if deducting every victim makes room, and then within that many rounds. */
  lemma LoopsEndExactly(g: Ledger, size: nat, maxEntries: int, maxMemory: int)
    requires Knit(g.list)
    ensures var victims := Victims(g.list);
            && ((exists n: nat :: Room(Evict(g, n), size, maxEntries, maxMemory)) <==>
                Enough(g, victims, size, maxEntries, maxMemory))
            && (Enough(g, victims, size, maxEntries, maxMemory) ==>
                  Room(Evict(g, |victims|), size, maxEntries, maxMemory))
  {
    hide Remove, SizeOf, Evict, Victims, Knit;
    var victims := Victims(g.list);
    forall n: nat | Room(Evict(g, n), size, maxEntries, maxMemory)
      ensures Enough(g, victims, size, maxEntries, maxMemory)
    {
      EvictDeducts(g, n);
      SizeOfPart(victims, if n <= |victims| then n else |victims|);
    }
    EvictDeducts(g, |victims|);
    assert victims[..|victims|] == victims;
    if Enough(g, victims, size, maxEntries, maxMemory) {
      assert Room(Evict(g, |victims|), size, maxEntries, maxMemory);
    }
  }

  /** Two insertions as written: b, the newer, is the tail, in front of a. */
  lemma TwoInserted(a: Entry, b: Entry)
    requires a != b
    ensures var l := MoveToFront(MoveToFront(Empty(), a, false), b, false);
            && Knit(l) && Victims(l) == [b, b] && SizeOf([b, b]) == 2 * b.size
            && Knit(Remove(Remove(l, b), b)) && Victims(Remove(Remove(l, b), b)) == []
  {
    var l := MoveToFront(MoveToFront(Empty(), a, false), b, false);
    NewestIsEvicted(a, b);
    EmptyIsKnit();
    MoveToFrontKeepsKnit(Empty(), a, false);
    MoveToFrontKeepsKnit(MoveToFront(Empty(), a, false), b, false);
    assert LinkedAt(l, [b, a], 0);
    hide Knit, Remove, MoveToFront;
    FirstVictim(l, b);
    FirstVictim(Remove(l, b), b);
    SizeOfConcat([b], [b]);
    SizeOfOne(b);
    assert [b, b] == [b] + [b];
    var rest := Victims(Remove(Remove(l, b), b));
    assert [b, b] == [b] + ([b] + rest);
    assert |rest| == 0;
  }

  /** One shard, memory for 300 bytes: a takes 215 and b 65. To fit 165 bytes, which the limit allows, the loop evicts
      b, then b again, and then finds nothing to evict: it never ends, although nothing is stored elsewhere. */
  lemma OneShardCanHang(a: Entry, b: Entry, n: nat)
    requires a != b && a.size == 215 && b.size == 65
    ensures var l := MoveToFront(MoveToFront(Empty(), a, false), b, false);
            !Room(Evict(Ledger(l, 2, 280), n), 165, 100, 300)
  {
    hide MoveToFront, Knit, Victims, SizeOf;
    TwoInserted(a, b);
    var l := MoveToFront(MoveToFront(Empty(), a, false), b, false);
    LoopsEndExactly(Ledger(l, 2, 280), 165, 100, 300);
  }

  /** The list that those two evictions leave has forgotten a, which is still stored and linked: no order spells it out,
      and the loop does not end for as little as 86 bytes. */
  lemma ForgottenCanHang(a: Entry, b: Entry, order: seq<Entry>, n: nat)
    requires a != b && a.size == 215 && b.size == 65
    ensures var l := MoveToFront(MoveToFront(Empty(), a, false), b, false);
            var left := Remove(Remove(l, b), b);
            !Chain(left, order) && !Room(Evict(Ledger(left, 1, 215), n), 86, 100, 300)
  {
    hide MoveToFront, Remove, Knit, Victims;
    TwoInserted(a, b);
    NewestIsEvicted(a, b);
    var left := Remove(Remove(MoveToFront(MoveToFront(Empty(), a, false), b, false), b), b);
    LoopsEndExactly(Ledger(left, 1, 215), 86, 100, 300);
    assert SizeOf([]) == 0;
    assert order != [] ==> At(order, 0) == Some(order[0]);
  }

  /** Two shards, room for one entry, which is in the other shard: the loop finds nothing to evict in its own, with or
      without the guard. */
  lemma OtherShardCanHang(n: nat)
    ensures !Room(Evict(Ledger(Empty(), 1, 100), n), 64, 1, 300)
  {
    EmptyIsKnit();
    LoopsEndExactly(Ledger(Empty(), 1, 100), 64, 1, 300);
  }

  /** An entry larger than the limit: nothing makes room for it, even in an empty store. */
  lemma TooLargeHangs(n: nat)
    ensures !Room(Evict(Ledger(Empty(), 0, 0), n), 400, 100, 300)
  {
    EmptyIsKnit();
    LoopsEndExactly(Ledger(Empty(), 0, 0), 400, 100, 300);
  }

  // ---------- what is left of a list in order ----------

  lemma RoomIsFit(g: Ledger, order: seq<Entry>, n: nat, size: nat, maxEntries: int, maxMemory: int)
    requires Represents(g.list, order)
    ensures Room(Evict(g, n), size, maxEntries, maxMemory) <==>
            Fits(Dropped(order, n), size, maxEntries - (g.entries - |order|), maxMemory - (g.memory - SizeOf(order)))
  {
    hide Represents, Evict, Knit, Victims, SizeOf, Reversed;
    VictimsOfOrder(g.list, order);
    EvictDeducts(g, n);
    var m := if n <= |order| then n else |order|;
    DroppedSize(order, m);
    assert Dropped(order, n) == Dropped(order, m);
  }

  lemma {:induction false} DroppedSize(order: seq<Entry>, n: nat)
    requires n <= |order|
    ensures SizeOf(Reversed(order)[..n]) == SizeOf(order) - SizeOf(order[..|order| - n])
    decreases n
  {
    hide SizeOf, Reversed;
    if n == 0 {
      assert Reversed(order)[..0] == [] && order[..|order|] == order;
      SizeOfNothing();
    } else {
      DroppedSize(order, n - 1);
      DroppedStep(order, n);
    }
  }

  lemma SizeOfNothing()
    ensures SizeOf([]) == 0
  {
  }

  lemma DroppedStep(order: seq<Entry>, n: nat)
    requires 0 < n <= |order|
    ensures var r := Reversed(order);
            && SizeOf(r[..n]) == SizeOf(r[..n - 1]) + r[n - 1].size
            && SizeOf(order[..|order| - (n - 1)]) == SizeOf(order[..|order| - n]) + r[n - 1].size
  {
    hide SizeOf, Reversed;
    var r := Reversed(order);
    ReversedAt(order, n - 1);
    SizeOfOne(r[n - 1]);
    assert r[..n] == r[..n - 1] + [r[n - 1]];
    SizeOfConcat(r[..n - 1], [r[n - 1]]);
    assert order[..|order| - (n - 1)] == order[..|order| - n] + [r[n - 1]];
    SizeOfConcat(order[..|order| - n], [r[n - 1]]);
  }

  lemma {:induction false} KeepIsFirstFit(order: seq<Entry>, n: nat, size: nat, maxEntries: int, maxMemory: int)
    requires Fits(Dropped(order, n), size, maxEntries, maxMemory)
    requires forall k :: 0 <= k < n ==> !Fits(Dropped(order, k), size, maxEntries, maxMemory)
    ensures Dropped(order, n) == Keep(order, size, maxEntries, maxMemory)
    decreases |order|
  {
    assert Dropped(order, 0) == order;
    if n > 0 && order != [] {
      var init := order[..|order| - 1];
      forall k | 0 <= k < n
        ensures Dropped(order, k + 1) == Dropped(init, k)
      {
        assert k < |order| ==> order[..|order| - (k + 1)] == init[..|init| - k];
      }
      KeepIsFirstFit(init, n - 1, size, maxEntries, maxMemory);
    }
  }

  /** On a list in order: the loops end if and only if what is stored elsewhere leaves room, within one round per entry,
      and then keep exactly the longest prefix that fits. */
  lemma OrderedLoops(g: Ledger, order: seq<Entry>, n: nat, size: nat, maxEntries: int, maxMemory: int)
    requires Represents(g.list, order)
    requires forall k :: 0 <= k < n ==> !Room(Evict(g, k), size, maxEntries, maxMemory)
    ensures var entries, memory := maxEntries - (g.entries - |order|), maxMemory - (g.memory - SizeOf(order));
            && (Room(Evict(g, n), size, maxEntries, maxMemory) ==>
                  entries > 0 && size <= memory && Dropped(order, n) == Keep(order, size, entries, memory))
            && (entries > 0 && size <= memory && n >= |order| ==> Room(Evict(g, n), size, maxEntries, maxMemory))
  {
    hide Represents, Room, Evict;
    var entries, memory := maxEntries - (g.entries - |order|), maxMemory - (g.memory - SizeOf(order));
    forall k | 0 <= k <= n
      ensures Room(Evict(g, k), size, maxEntries, maxMemory) <==> Fits(Dropped(order, k), size, entries, memory)
    {
      RoomIsFit(g, order, k, size, maxEntries, maxMemory);
    }
    if Room(Evict(g, n), size, maxEntries, maxMemory) {
      KeepIsFirstFit(order, n, size, entries, memory);
    }
    assert n >= |order| ==> Dropped(order, n) == [];
  }
}
