/** The store of pkg/store/kv/kv.go: shards, global counters, eviction, expiry, log and snapshot. Each public
    method is one call under its shard's lock; clock readings are parameters.

    `guardFresh` chooses between `moveToFront` as written (false) and with the guard that LruList shows it needs
    (true). The log theorems hold for both; those about recency and counters need the guard. */
module KvStore {
  import opened Eviction
  import opened KvLog
  import opened LruList
  import opened Wrappers

  datatype StoreError = StoreClosed | KeyNotFound | KeyExpired

  // ---------- recency orders ----------

  function CountAll(orders: seq<seq<Entry>>): nat {
    if orders == [] then 0 else CountAll(orders[..|orders| - 1]) + |orders[|orders| - 1]|
  }

  function SizeAll(orders: seq<seq<Entry>>): nat {
    if orders == [] then 0 else SizeAll(orders[..|orders| - 1]) + SizeOf(orders[|orders| - 1])
  }

  function WithoutKey(order: seq<Entry>, key: string): seq<Entry> {
    if order == [] then []
    else WithoutKey(order[..|order| - 1], key) + if order[|order| - 1].key == key then [] else [order[|order| - 1]]
  }

  lemma SizeOfWithout(order: seq<Entry>, e: Entry)
    requires e in order
    ensures SizeOf(Without(order, e)) == SizeOf(order) - e.size
    ensures |Without(order, e)| == |order| - 1
  {
    var k := IndexOf(order, e);
    assert order == order[..k] + [e] + order[k + 1..];
    SizeOfConcat(order[..k] + [e], order[k + 1..]);
    SizeOfConcat(order[..k], [e]);
    SizeOfConcat(order[..k], order[k + 1..]);
    SizeOfOne(e);
  }

  lemma {:induction false} TotalsOfUpdate(orders: seq<seq<Entry>>, i: nat, order: seq<Entry>)
    requires i < |orders|
    ensures CountAll(orders[i := order]) == CountAll(orders) - |orders[i]| + |order|
    ensures SizeAll(orders[i := order]) == SizeAll(orders) - SizeOf(orders[i]) + SizeOf(order)
    ensures CountAll(orders) >= |orders[i]| && SizeAll(orders) >= SizeOf(orders[i])
  {
    var init := orders[..|orders| - 1];
    if i == |orders| - 1 {
      assert orders[i := order][..|orders| - 1] == init;
    } else {
      TotalsOfUpdate(init, i, order);
      assert orders[i := order][..|orders| - 1] == init[i := order];
    }
  }

  lemma {:induction false} WithoutKeyConcat(a: seq<Entry>, b: seq<Entry>, key: string)
    ensures WithoutKey(a + b, key) == WithoutKey(a, key) + WithoutKey(b, key)
  {
    if b == [] {
      assert a + b == a;
    } else {
      assert (a + b)[..|a + b| - 1] == a + b[..|b| - 1];
      WithoutKeyConcat(a, b[..|b| - 1], key);
    }
  }

  lemma {:induction false} NoSuchKey(order: seq<Entry>, key: string)
    requires forall e :: e in order ==> e.key != key
    ensures WithoutKey(order, key) == order
  {
    if order == [] {
    } else {
      var init, last := order[..|order| - 1], order[|order| - 1];
      assert last in order && order == init + [last];
      assert forall e :: e in init ==> e in order;
      NoSuchKey(init, key);
      assert WithoutKey(order, key) == WithoutKey(init, key) + [last];
    }
  }

  lemma WithoutKeyOfSplit(a: seq<Entry>, e: Entry, b: seq<Entry>)
    requires forall x :: x in a ==> x.key != e.key
    requires forall x :: x in b ==> x.key != e.key
    ensures WithoutKey(a + [e] + b, e.key) == a + b
  {
    hide WithoutKey;
    NoSuchKey(a, e.key);
    NoSuchKey(b, e.key);
    WithoutKeyConcat(a + [e], b, e.key);
    WithoutKeyConcat(a, [e], e.key);
    WithoutKeyOfOne(e);
    assert a + [] == a;
  }

  lemma WithoutKeyOfOne(e: Entry)
    ensures WithoutKey([e], e.key) == []
  {
    assert [e][..0] == [];
  }

  /** In a list with one entry per key, dropping an entry is dropping its key. */
  lemma WithoutIsWithoutKey(order: seq<Entry>, e: Entry)
    requires Distinct(order) && e in order && forall x :: x in order && x.key == e.key ==> x == e
    ensures Without(order, e) == WithoutKey(order, e.key)
  {
    hide IndexOf, WithoutKey;
    var k := IndexOf(order, e);
    assert order[k] == e;
    var a, b := order[..k], order[k + 1..];
    forall j | 0 <= j < |order| && j != k
      ensures order[j].key != e.key
    {
      assert order[j] in order;
    }
    assert forall j :: 0 <= j < |a| ==> a[j] == order[j];
    assert forall j :: 0 <= j < |b| ==> b[j] == order[k + 1 + j];
    WithoutKeyOfSplit(a, e, b);
    assert order == a + [e] + b;
  }

  // ---------- routing of keys ----------

  /** Everything `evictLRU` can come to delete through this list has a key of this shard. */
  ghost predicate KeysIn(l: Links, home: iset<string>) {
    && (l.tail.Some? ==> l.tail.value.key in home)
    && forall e :: e in l.prev && l.prev[e].Some? ==> l.prev[e].value.key in home
  }

  /** What the code as written keeps of a list. */
  ghost predicate Sound(l: Links, home: iset<string>) {
    Knit(l) && KeysIn(l, home)
  }

  lemma MoveToFrontKeepsHome(l: Links, e: Entry, guarded: bool, home: iset<string>)
    requires Sound(l, home) && e.key in home
    ensures Sound(LruList.MoveToFront(l, e, guarded), home)
  {
    hide Knit, KeysIn, Detach, Attach;
    MoveToFrontKeepsKnit(l, e, guarded);
    DetachKeepsKeys(l, e, home);
    AttachKeepsKeys(l, e, home);
    AttachKeepsKeys(Detach(l, e), e, home);
  }

  lemma DetachKeepsKeys(l: Links, e: Entry, home: iset<string>)
    requires KeysIn(l, home)
    ensures KeysIn(Detach(l, e), home)
  {
    assert e in l.prev && l.prev[e].Some? ==> l.prev[e].value.key in home;
  }

  lemma AttachKeepsKeys(l: Links, e: Entry, home: iset<string>)
    requires KeysIn(l, home) && e.key in home
    ensures KeysIn(Attach(l, e), home)
  {
  }

  lemma RemoveKeepsHome(l: Links, e: Entry, home: iset<string>)
    requires Sound(l, home)
    ensures Sound(Remove(l, e), home)
  {
    hide Knit;
    RemoveKeepsKnit(l, e);
    assert e in l.prev && l.prev[e].Some? ==> l.prev[e].value.key in home;
  }

  // ---------- shards ----------

  /** `data` and `order` hold the same entries, one per key. */
  ghost predicate Stored(data: map<string, Entry>, order: seq<Entry>) {
    && (forall e :: e in order ==> e.key in data && data[e.key] == e)
    && (forall k :: k in data ==> data[k] in order && data[k].key == k)
  }

  /** A shard whose list is the recency order of its entries, with addresses below `bound`. */
  ghost predicate Recency(l: Links, data: map<string, Entry>, order: seq<Entry>, bound: nat) {
    Represents(l, order) && Stored(data, order) && forall e :: e in order ==> e.addr < bound
  }

  ghost predicate AtHome(l: Links, data: map<string, Entry>, home: iset<string>) {
    Sound(l, home) && forall k :: k in data ==> k in home && data[k].key == k
  }

  lemma RemoveKeepsRecency(l: Links, data: map<string, Entry>, order: seq<Entry>, bound: nat, key: string)
    requires Recency(l, data, order, bound) && key in data
    ensures Recency(Remove(l, data[key]), data - {key}, WithoutKey(order, key), bound)
    ensures |WithoutKey(order, key)| == |order| - 1 && SizeOf(WithoutKey(order, key)) == SizeOf(order) - data[key].size
  {
    hide Remove, IndexOf, Without, WithoutKey, Represents, Distinct, SizeOf;
    var e := data[key];
    assert Distinct(order) by { RepresentsDistinct(l, order); }
    RemoveIsRemove(l, order, e);
    WithoutIs(order, e);
    WithoutIsWithoutKey(order, e);
    SizeOfWithout(order, e);
  }

  lemma RepresentsDistinct(l: Links, order: seq<Entry>)
    requires Represents(l, order)
    ensures Distinct(order) && (forall e :: e in l.next <==> e in order)
    ensures l.tail == At(order, |order| - 1)
  {
  }

  lemma TailIsLast(l: Links, data: map<string, Entry>, order: seq<Entry>, bound: nat)
    requires Recency(l, data, order, bound)
    ensures order == [] <==> l.tail == None
    ensures l.tail.Some? ==>
      && l.tail.value == order[|order| - 1] && l.tail.value.key in data && data[l.tail.value.key] == l.tail.value
      && WithoutKey(order, l.tail.value.key) == order[..|order| - 1]
  {
    RepresentsDistinct(l, order);
    if order != [] {
      var e := order[|order| - 1];
      NoSuchKey(order[..|order| - 1], e.key);
    }
  }

  lemma PushKeepsRecency(l: Links, data: map<string, Entry>, order: seq<Entry>, e: Entry)
    requires Recency(l, data, order, e.addr) && e.key !in data
    ensures Recency(LruList.MoveToFront(l, e, true), data[e.key := e], [e] + order, e.addr + 1)
    ensures |[e] + order| == |order| + 1 && SizeOf([e] + order) == e.size + SizeOf(order)
  {
    hide LruList.MoveToFront, Represents, SizeOf;
    assert e !in order;
    MoveToFrontIsFront(l, order, e, true);
    SizeOfConcat([e], order);
    SizeOfOne(e);
  }

  lemma RecencyBound(l: Links, data: map<string, Entry>, order: seq<Entry>, bound: nat, bound': nat)
    requires Recency(l, data, order, bound) && bound <= bound'
    ensures Recency(l, data, order, bound')
  {
  }

  /** The shard after `Set` has put `e` in (kv.go:458-465). */
  function InsertList(l: Links, data: map<string, Entry>, e: Entry, guarded: bool): Links {
    LruList.MoveToFront(if e.key in data then Remove(l, data[e.key]) else l, e, guarded)
  }

  lemma InsertKeepsRecency(l: Links, data: map<string, Entry>, order: seq<Entry>, e: Entry)
    requires Recency(l, data, order, e.addr)
    ensures Recency(InsertList(l, data, e, true), data[e.key := e], [e] + WithoutKey(order, e.key), e.addr + 1)
    ensures var order' := [e] + WithoutKey(order, e.key);
      && |order'| == |order| + (if e.key in data then 0 else 1)
      && SizeOf(order') == SizeOf(order) + e.size - (if e.key in data then data[e.key].size else 0)
  {
    hide LruList.MoveToFront, Represents, Remove, SizeOf, WithoutKey;
    if e.key in data {
      RemoveKeepsRecency(l, data, order, e.addr, e.key);
      PushKeepsRecency(Remove(l, data[e.key]), data - {e.key}, WithoutKey(order, e.key), e);
      assert (data - {e.key})[e.key := e] == data[e.key := e];
    } else {
      NoSuchKey(order, e.key);
      PushKeepsRecency(l, data, order, e);
    }
  }

  lemma InsertKeepsHome(l: Links, data: map<string, Entry>, e: Entry, guarded: bool, home: iset<string>)
    requires AtHome(l, data, home) && e.key in home
    ensures AtHome(InsertList(l, data, e, guarded), data[e.key := e], home)
  {
    hide Sound, LruList.MoveToFront, Remove;
    var l' := if e.key in data then Remove(l, data[e.key]) else l;
    if e.key in data {
      RemoveKeepsHome(l, data[e.key], home);
    }
    MoveToFrontKeepsHome(l', e, guarded, home);
  }

  lemma TouchKeepsRecency(l: Links, data: map<string, Entry>, order: seq<Entry>, bound: nat, key: string)
    requires Recency(l, data, order, bound) && key in data
    ensures Recency(LruList.MoveToFront(l, data[key], true), data, [data[key]] + WithoutKey(order, key), bound)
    ensures data[key] in order && data[key].key == key && |[data[key]] + WithoutKey(order, key)| == |order|
    ensures SizeOf([data[key]] + WithoutKey(order, key)) == SizeOf(order)
  {
    hide LruList.MoveToFront, Represents, IndexOf, WithoutKey, SizeOf;
    var e := data[key];
    assert Distinct(order) by { RepresentsDistinct(l, order); }
    MoveToFrontIsFront(l, order, e, true);
    WithoutIs(order, e);
    WithoutIsWithoutKey(order, e);
    SizeOfWithout(order, e);
    SizeOfConcat([e], Without(order, e));
    SizeOfOne(e);
  }

  class Shard {
    var data: map<string, Entry>
    var lruHead: Option<Entry>
    var lruTail: Option<Entry>
    var next: map<Entry, Option<Entry>>
    var prev: map<Entry, Option<Entry>>

    constructor ()
      ensures data == map[] && List() == LruList.Empty()
    {
      data, next, prev := map[], map[], map[];
      lruHead, lruTail := None, None;
    }

    function List(): Links
      reads this
    {
      Links(lruHead, lruTail, next, prev)
    }

    method MoveToFront(entry: Entry, guardFresh: bool)
      modifies this
      ensures data == old(data) && List() == LruList.MoveToFront(old(List()), entry, guardFresh)
    {
      if lruHead == Some(entry) {
        return;
      }
      if !guardFresh || entry in next {
        var p := Ptr(prev, entry);
        if p.Some? {
          next := next[p.value := Ptr(next, entry)];
        }
        var n := Ptr(next, entry);
        if n.Some? {
          prev := prev[n.value := Ptr(prev, entry)];
        } else {
          lruTail := Ptr(prev, entry);
        }
      }
      prev := prev[entry := None];
      next := next[entry := lruHead];
      if lruHead.Some? {
        prev := prev[lruHead.value := Some(entry)];
      }
      lruHead := Some(entry);
      if lruTail.None? {
        lruTail := Some(entry);
      }
    }

    /** The shard's part of `deleteFromShard`. */
    method Delete(key: string, entry: Entry)
      modifies this
      ensures data == old(data) - {key} && List() == Remove(old(List()), entry)
    {
      data := data - {key};
      var p := Ptr(prev, entry);
      if p.Some? {
        next := next[p.value := Ptr(next, entry)];
      } else {
        lruHead := Ptr(next, entry);
      }
      var n := Ptr(next, entry);
      if n.Some? {
        prev := prev[n.value := Ptr(prev, entry)];
      } else {
        lruTail := Ptr(prev, entry);
      }
      next := next - {entry};
      prev := prev - {entry};
    }
  }

  function RecOf(e: Entry): Rec {
    Rec(e.value, e.expireAt, e.version)
  }

  class KVStore {
    const guardFresh: bool
    const readOnly: bool
    const maxEntries: nat
    const maxMemory: nat
    const route: string -> nat  // crc32 of the key, masked: the index of its shard
    const shards: seq<Shard>

    var entries: int
    var memoryUsage: int
    var hits: nat
    var misses: nat
    var evictions: nat
    var version: nat
    var closed: bool
    var nextAddr: nat

    var logChan: seq<WalEntry>
    var wal: seq<WalEntry>   // the log file with its write buffer
    var snapshot: View       // the snapshot file

    ghost var view: View             // what the shards hold
    ghost var since: Option<int>     // time of the last snapshot since opening
    ghost var dropped: nat           // log entries not logged since the files had all there was
    ghost var orders: seq<seq<Entry>>
    ghost var start: Journal         // the files as they were opened
    ghost var steps: seq<Step>       // what was done to the store since then

    ghost function Home(i: nat): iset<string> {
      iset k | route(k) == i
    }

    ghost function Held(key: string): Option<Rec>
      requires route(key) < |shards|
      reads shards[route(key)]
    {
      var data := shards[route(key)].data;
      if key in data then Some(RecOf(data[key])) else None
    }

    ghost function Files(): Journal
      reads `view, `logChan, `wal, `snapshot, `since, `dropped
    {
      Journal(view, logChan, wal, snapshot, since, dropped)
    }

    /** The journal is what the steps recorded make of the files opened. */
    ghost predicate Recorded(j: Journal)
      reads `start, `steps
    {
      start == Open(start.snapshot, start.wal) && j == Run(start, steps)
    }

    ghost predicate Shape() {
      && maxEntries > 0 && (forall k :: route(k) < |shards|)
      && forall i, j :: 0 <= i < j < |shards| ==> shards[i] != shards[j]
    }

    ghost predicate Routed(i: nat)
      requires i < |shards|
      reads shards[i]
    {
      AtHome(shards[i].List(), shards[i].data, Home(i))
    }

    /** Keys sit in their shards, and `view` is what the shards hold. */
    ghost predicate Consistent()
      reads `view, shards
    {
      && Shape()
      && (forall i :: 0 <= i < |shards| ==> Routed(i))
      && (forall k :: Find(view, k) == Held(k))
    }

    /** The invariant of the code as written: `view` is what the shards hold, and store and files are those of a run of
        the journal. */
    ghost predicate Valid()
      reads `view, `logChan, `wal, `snapshot, `since, `dropped, `start, `steps, shards
    {
      Consistent() && Recorded(Files()) && (readOnly ==> logChan == [])
    }

    ghost predicate OrderedAt(i: nat)
      requires i < |shards| && i < |orders|
      reads `orders, `nextAddr, shards[i]
    {
      Recency(shards[i].List(), shards[i].data, orders[i], nextAddr)
    }

    /** The invariant that the guard adds: every shard's list is its recency order, and the global counters
        are the number of entries and their total size. */
    ghost predicate Ordered()
      reads `orders, `nextAddr, `entries, `memoryUsage, shards
    {
      && guardFresh && |orders| == |shards|
      && (forall i :: 0 <= i < |shards| ==> OrderedAt(i))
      && entries == CountAll(orders) && memoryUsage == SizeAll(orders)
    }

    /** An empty store over empty files (kv.go:142-184). */
    constructor (shardCount: nat, maxEntries: nat, maxMemory: nat, route: string -> nat, guardFresh: bool,
                 readOnly: bool)
      requires maxEntries > 0 && forall k :: route(k) < shardCount
      ensures Valid() && fresh(shards) && |shards| == shardCount && view == map[] && !closed
      ensures this.maxEntries == maxEntries && this.maxMemory == maxMemory && this.route == route
      ensures this.guardFresh == guardFresh && this.readOnly == readOnly
      ensures start == Files() == Open(map[], []) && steps == [] && (guardFresh ==> Ordered())
    {
      var made: seq<Shard> := [];
      for i := 0 to shardCount
        invariant |made| == i && fresh(made)
        invariant forall j :: 0 <= j < i ==> made[j].data == map[] && made[j].List() == LruList.Empty()
        invariant forall j, k :: 0 <= j < k < i ==> made[j] != made[k]
      {
        var s := new Shard();
        made := made + [s];
      }
      this.guardFresh, this.readOnly, this.maxEntries, this.maxMemory := guardFresh, readOnly, maxEntries, maxMemory;
      this.route, shards := route, made;
      entries, memoryUsage, hits, misses, evictions, version := 0, 0, 0, 0, 0, 0;
      closed, nextAddr := false, 0;
      logChan, wal, snapshot := [], [], map[];
      view, since, dropped, orders := map[], None, 0, seq(shardCount, _ => []);
      start, steps := Open(map[], []), [];
      new;
      hide Recency, AtHome, Replay;
      NothingIsOrdered(shardCount);
      NothingIsHeld();
    }

    // ---------- building blocks ----------

    /** `deleteFromShard`: map, list and counters. */
    method DeleteFromShard(i: nat, key: string, entry: Entry)
      requires i < |shards|
      modifies `entries, `memoryUsage, shards[i]
      ensures shards[i].data == old(shards[i].data) - {key}
      ensures shards[i].List() == Remove(old(shards[i].List()), entry)
      ensures entries == old(entries) - 1 && memoryUsage == old(memoryUsage) - entry.size
    {
      shards[i].Delete(key, entry);
      entries := entries - 1;
      memoryUsage := memoryUsage - entry.size;
    }

    /** The step of the journal that a change is. */
    ghost function Noted(e: WalEntry): Step {
      if readOnly then ChangeStep(e) else LogStep(e)
    }

    /** Since then entries have only been evicted, each of them logged unless the store is read-only. */
    ghost predicate OnlyEvicted(before: seq<Step>, evictions0: nat, data0: map<string, Entry>, i: nat)
      requires i < |shards|
      reads `steps, `evictions, shards[i]
    {
      && before <= steps && |steps| - |before| == evictions - evictions0
      && (forall n :: |before| <= n < |steps| ==>
            (if readOnly then steps[n].ChangeStep? else steps[n].LogStep?) && steps[n].e.DeleteEntry?)
      && forall k :: k in shards[i].data ==> k in data0 && shards[i].data[k] == data0[k]
    }

    /** One eviction more. */
    lemma OnlyEvictedOn(before: seq<Step>, evictions0: nat, data0: map<string, Entry>, i: nat, steps': seq<Step>,
                        evictions': nat, data': map<string, Entry>, gone: Option<Entry>)
      requires i < |shards|
      requires before <= steps' && |steps'| - |before| == evictions' - evictions0
      requires forall n :: |before| <= n < |steps'| ==>
        (if readOnly then steps'[n].ChangeStep? else steps'[n].LogStep?) && steps'[n].e.DeleteEntry?
      requires forall k :: k in data' ==> k in data0 && data'[k] == data0[k]
      requires evictions == evictions' + if gone.None? then 0 else 1
      requires match gone
               case None => steps == steps' && shards[i].data == data'
               case Some(e) =>
                 && shards[i].data == data' - {e.key}
                 && steps == steps' + [if readOnly then ChangeStep(DeleteEntry(e.key, version))
                                       else LogStep(DeleteEntry(e.key, version))]
      ensures OnlyEvicted(before, evictions0, data0, i)
    {
    }

    /** Logs a change that has just been made to `before`, unless the store is read-only or the channel full. */
    method AppendLog(e: WalEntry, ghost before: View)
      requires view == Apply(before, e)
      requires Recorded(Files().(view := before)) && (readOnly ==> logChan == [])
      modifies `logChan, `dropped, `steps
      ensures Recorded(Files()) && (readOnly ==> logChan == [])
      ensures steps == old(steps) + [Noted(e)]
      ensures if !readOnly && |old(logChan)| < LOG_CAPACITY
              then logChan == old(logChan) + [e] && dropped == old(dropped)
              else logChan == old(logChan) && dropped == old(dropped) + 1
    {
      hide Run;
      RunOneMore(start, steps, Noted(e));
      steps := steps + [Noted(e)];
      if !readOnly && |logChan| < LOG_CAPACITY {
        logChan := logChan + [e];
      } else {
        dropped := dropped + 1;
      }
    }

    method LogDelete(key: string, ghost before: View)
      requires view == before - {key}
      requires Recorded(Files().(view := before)) && (readOnly ==> logChan == [])
      modifies `logChan, `dropped, `steps, `version
      ensures Recorded(Files()) && (readOnly ==> logChan == [])
      ensures version == old(version) + (if readOnly then 0 else 1)
      ensures steps == old(steps) + [Noted(DeleteEntry(key, version))]
      ensures if !readOnly && |old(logChan)| < LOG_CAPACITY then
                logChan == old(logChan) + [DeleteEntry(key, version)] && dropped == old(dropped)
              else logChan == old(logChan) && dropped == old(dropped) + 1
    {
      if !readOnly {
        version := version + 1;
      }
      AppendLog(DeleteEntry(key, version), before);
    }

    /** A change to one shard that leaves it `order` keeps `Ordered`; `before` are the orders before it. */
    lemma OrderedAgain(i: nat, before: seq<seq<Entry>>, order: seq<Entry>)
      requires i < |shards| == |before| && guardFresh && orders == before[i := order]
      requires forall j :: 0 <= j < |shards| && j != i ==> OrderedAt(j)
      requires Recency(shards[i].List(), shards[i].data, order, nextAddr)
      requires entries == CountAll(before) - |before[i]| + |order|
      requires memoryUsage == SizeAll(before) - SizeOf(before[i]) + SizeOf(order)
      ensures Ordered()
    {
      hide Recency, CountAll, SizeAll, SizeOf;
      TotalsOfUpdate(before, i, order);
      assert OrderedAt(i);
    }

    /** What `evictLRU` reads and writes, apart from the map. */
    ghost function Gauge(i: nat): Ledger
      requires i < |shards|
      reads `entries, `memoryUsage, shards[i]
    {
      Ledger(shards[i].List(), entries, memoryUsage)
    }

    /** Shard `i` was `l` and `data`, in the order of `before`, and the entry of `key` has been taken out of it. */
    lemma RemoveKeepsOrdered(i: nat, l: Links, data: map<string, Entry>, before: seq<seq<Entry>>, key: string)
      requires i < |shards| == |before| && guardFresh && key in data
      requires orders == before[i := WithoutKey(before[i], key)] && Recency(l, data, before[i], nextAddr)
      requires shards[i].List() == Remove(l, data[key]) && shards[i].data == data - {key}
      requires forall j :: 0 <= j < |shards| && j != i ==> OrderedAt(j)
      requires entries == CountAll(before) - 1 && memoryUsage == SizeAll(before) - data[key].size
      ensures Ordered() && |orders[i]| == |before[i]| - 1
    {
      hide Recency, Remove, WithoutKey, CountAll, SizeAll, SizeOf;
      RemoveKeepsRecency(l, data, before[i], nextAddr, key);
      OrderedAgain(i, before, orders[i]);
    }

    /** `deleteFromShard` of a key of this shard, with what it means for the invariants. */
    method RemoveEntry(i: nat, key: string, entry: Entry)
      requires Consistent() && i < |shards| && route(key) == i
      modifies `entries, `memoryUsage, `view, `orders, shards[i]
      ensures Consistent() && view == old(view) - {key} && shards[i].data == old(shards[i].data) - {key}
      ensures Gauge(i) == Ledger(Remove(old(Gauge(i)).list, entry), old(entries) - 1, old(memoryUsage) - entry.size)
      ensures old(Ordered() && Find(shards[i].data, key) == Some(entry)) ==>
        && Ordered() && orders == old(orders)[i := WithoutKey(old(orders)[i], key)]
        && |orders[i]| == |old(orders)[i]| - 1
    {
      hide Recency, Remove, Sound, WithoutKey, CountAll, SizeAll, SizeOf;
      assert Routed(i);
      ghost var stored := Ordered() && Find(shards[i].data, key) == Some(entry);
      RemoveKeepsHome(shards[i].List(), entry, Home(i));
      DeleteFromShard(i, key, entry);
      view := view - {key};
      if stored {
        assert old(OrderedAt(i));
        orders := orders[i := WithoutKey(orders[i], key)];
        forall j | 0 <= j < |shards| && j != i
          ensures OrderedAt(j)
        {
          assert old(OrderedAt(j)) && shards[j] != shards[i];
        }
        RemoveKeepsOrdered(i, old(shards[i].List()), old(shards[i].data), old(orders), key);
      }
      assert forall j :: 0 <= j < |shards| && j != i ==> shards[j] != shards[i] && old(Routed(j));
      forall k
        ensures Find(view, k) == Held(k)
      {
        assert old(Find(view, k) == Held(k)) && (route(k) != i ==> shards[route(k)] != shards[i]);
      }
    }

    /** `deleteFromShard` and `logDelete`, on behalf of eviction, expiry and `Delete`. */
    method RemoveLogged(i: nat, key: string, entry: Entry)
      requires Valid() && i < |shards| && route(key) == i
      modifies `entries, `memoryUsage, `logChan, `view, `dropped, `steps, `version, `orders, shards[i]
      ensures Valid() && view == old(view) - {key} && shards[i].data == old(shards[i].data) - {key}
      ensures version == old(version) + (if readOnly then 0 else 1)
      ensures steps == old(steps) + [Noted(DeleteEntry(key, version))]
      ensures if !readOnly && |old(logChan)| < LOG_CAPACITY then
                logChan == old(logChan) + [DeleteEntry(key, version)] && dropped == old(dropped)
              else logChan == old(logChan) && dropped == old(dropped) + 1
      ensures Gauge(i) == Ledger(Remove(old(Gauge(i)).list, entry), old(entries) - 1, old(memoryUsage) - entry.size)
      ensures old(Ordered() && Find(shards[i].data, key) == Some(entry)) ==>
        && Ordered() && orders == old(orders)[i := WithoutKey(old(orders)[i], key)]
        && |orders[i]| == |old(orders)[i]| - 1
    {
      hide Recency, Recorded, WithoutKey, Find;
      RemoveEntry(i, key, entry);
      LogDelete(key, old(view));
    }

    /** `evictLRU`: nothing on an empty list, else the entry at the tail goes. */
    method EvictLRU(i: nat)
      requires Valid() && i < |shards|
      modifies `entries, `memoryUsage, `logChan, `view, `dropped, `steps, `version, `orders, `evictions, shards[i]
      ensures Valid() && Shrunk(view, old(view), "", false)
      ensures Gauge(i) == EvictOne(old(Gauge(i))) && entries <= old(entries)
      ensures match old(shards[i].lruTail)
              case None => steps == old(steps) && shards[i].data == old(shards[i].data) && view == old(view)
              case Some(e) =>
                && view == old(view) - {e.key} && shards[i].data == old(shards[i].data) - {e.key}
                && steps == old(steps) + [if readOnly then ChangeStep(DeleteEntry(e.key, version))
                                          else LogStep(DeleteEntry(e.key, version))]
                && (!readOnly && |old(logChan)| < LOG_CAPACITY ==>
                      logChan == old(logChan) + [DeleteEntry(e.key, version)] && dropped == old(dropped))
      ensures evictions == old(evictions) + if old(shards[i].lruTail).None? then 0 else 1
      ensures old(Ordered()) ==>
        && Ordered() && orders == old(orders)[i := Dropped(old(orders)[i], 1)]
        && evictions + |orders[i]| == old(evictions) + |old(orders)[i]|
    {
      hide Recency, AtHome, Recorded, CountAll, SizeAll, WithoutKey, Remove;
      assert Routed(i);
      TailIsHome(shards[i].List(), shards[i].data, Home(i));
      if old(Ordered()) {
        assert OrderedAt(i);
        TailIsLast(shards[i].List(), shards[i].data, orders[i], nextAddr);
      }
      if shards[i].lruTail.None? {
        assert old(Ordered()) ==> orders[i := Dropped(orders[i], 1)] == orders;
        return;
      }
      var entry := shards[i].lruTail.value;
      RemoveLogged(i, entry.key, entry);
      evictions := evictions + 1;
    }

    /** `evictLRU`, with what it means for what was done before. */
    method EvictNext(i: nat, ghost before: seq<Step>, ghost evictions0: nat, ghost data0: map<string, Entry>)
      requires Valid() && i < |shards| && OnlyEvicted(before, evictions0, data0, i)
      modifies `entries, `memoryUsage, `logChan, `view, `dropped, `steps, `version, `orders, `evictions, shards[i]
      ensures Valid() && Shrunk(view, old(view), "", false) && OnlyEvicted(before, evictions0, data0, i)
      ensures Gauge(i) == EvictOne(old(Gauge(i))) && entries <= old(entries)
      ensures old(Ordered()) ==>
        && Ordered() && orders == old(orders)[i := Dropped(old(orders)[i], 1)]
        && evictions + |orders[i]| == old(evictions) + |old(orders)[i]|
    {
      hide Valid, Ordered, EvictOne, Dropped;
      EvictLRU(i);
      OnlyEvictedOn(before, evictions0, data0, i, old(steps), old(evictions), old(shards[i].data),
        old(shards[i].lruTail));
    }

    /** What the other shards hold counts against the global limits, and eviction cannot touch it. */
    ghost function EntriesElsewhere(i: nat): int
      requires i < |orders|
      reads `orders
    {
      CountAll(orders) - |orders[i]|
    }

    ghost function MemoryElsewhere(i: nat): int
      requires i < |orders|
      reads `orders
    {
      SizeAll(orders) - SizeOf(orders[i])
    }

    /** The eviction loops of `Set` (kv.go:440-447): whether both ended within `fuel` rounds, and after how many. They
        evict one entry after the other and stop as soon as there is room, not earlier. */
    method EvictForRoom(i: nat, size: nat, fuel: nat) returns (room: bool, ghost rounds: nat)
      requires Valid() && i < |shards|
      modifies `entries, `memoryUsage, `logChan, `view, `dropped, `steps, `version, `orders, `evictions, shards[i]
      ensures Valid() && Shrunk(view, old(view), "", false)
      ensures OnlyEvicted(old(steps), old(evictions), old(shards[i].data), i)
      ensures Gauge(i) == Evict(old(Gauge(i)), rounds) && (room <==> Room(Gauge(i), size, maxEntries, maxMemory))
      ensures NoRoomBefore(old(Gauge(i)), rounds, size, maxEntries, maxMemory) && (!room ==> rounds == fuel)
      ensures old(Ordered()) ==>
        && Ordered() && orders == old(orders)[i := Dropped(old(orders)[i], rounds)]
        && evictions + |orders[i]| == old(evictions) + |old(orders)[i]|
    {
      hide Valid, Ordered, EvictOne, Dropped, Find, OnlyEvicted;
      var left := fuel;
      rounds := 0;
      NothingEvicted(i);
      if Ordered() {
        NothingDropped(i);
      }
      while entries >= maxEntries && left > 0
        invariant Valid() && Shrunk(view, old(view), "", false)
        invariant OnlyEvicted(old(steps), old(evictions), old(shards[i].data), i)
        invariant rounds == fuel - left && Gauge(i) == Evict(old(Gauge(i)), rounds)
        invariant NoRoomBefore(old(Gauge(i)), rounds, size, maxEntries, maxMemory)
        invariant old(Ordered()) ==> Ordered() && DroppedTo(orders, evictions, old(orders), old(evictions), i, rounds)
        decreases left
      {
        ghost var orders', evictions' := orders, evictions;
        EvictNext(i, old(steps), old(evictions), old(shards[i].data));
        if old(Ordered()) {
          OneMoreDropped(orders', evictions', orders, evictions, old(orders), old(evictions), i, rounds);
        }
        left, rounds := left - 1, rounds + 1;
      }
      while memoryUsage + size > maxMemory && left > 0
        invariant Valid() && Shrunk(view, old(view), "", false)
        invariant OnlyEvicted(old(steps), old(evictions), old(shards[i].data), i)
        invariant rounds == fuel - left && Gauge(i) == Evict(old(Gauge(i)), rounds)
        invariant left > 0 ==> entries < maxEntries
        invariant NoRoomBefore(old(Gauge(i)), rounds, size, maxEntries, maxMemory)
        invariant old(Ordered()) ==> Ordered() && DroppedTo(orders, evictions, old(orders), old(evictions), i, rounds)
        decreases left
      {
        ghost var orders', evictions' := orders, evictions;
        EvictNext(i, old(steps), old(evictions), old(shards[i].data));
        if old(Ordered()) {
          OneMoreDropped(orders', evictions', orders, evictions, old(orders), old(evictions), i, rounds);
        }
        left, rounds := left - 1, rounds + 1;
      }
      room := entries < maxEntries && memoryUsage + size <= maxMemory;
    }

    lemma NothingEvicted(i: nat)
      requires i < |shards|
      ensures OnlyEvicted(steps, evictions, shards[i].data, i)
    {
    }

    lemma NothingDropped(i: nat)
      requires Ordered() && i < |shards|
      ensures DroppedTo(orders, evictions, orders, evictions, i, 0)
    {
      assert orders[i][..|orders[i]|] == orders[i];
    }

    /** The eviction loops, and when they end: if and only if deducting the victims makes room. For a list in order,
        which the guard keeps, that is if and only if the other shards alone leave room, and then the loops keep exactly
        what `Keep` says. */
    method MakeRoom(i: nat, size: nat, fuel: nat) returns (room: bool, ghost rounds: nat)
      requires Valid() && i < |shards|
      modifies `entries, `memoryUsage, `logChan, `view, `dropped, `steps, `version, `orders, `evictions, shards[i]
      ensures Valid() && Shrunk(view, old(view), "", false)
      ensures OnlyEvicted(old(steps), old(evictions), old(shards[i].data), i)
      ensures Gauge(i) == Evict(old(Gauge(i)), rounds)
      ensures NoRoomBefore(old(Gauge(i)), rounds, size, maxEntries, maxMemory)
      ensures room ==> entries < maxEntries && memoryUsage + size <= maxMemory
      ensures AsWritten(old(Gauge(i)), size, fuel, room)
      ensures old(Ordered()) ==> Ordered() && orders == old(orders)[i := orders[i]]
      ensures old(Ordered()) ==>
        var c, m := old(EntriesElsewhere(i)), old(MemoryElsewhere(i));
        && (room ==> c < maxEntries && m + size <= maxMemory)
        && (c < maxEntries && m + size <= maxMemory && fuel >= |old(orders)[i]| ==> room)
        && (room ==> orders[i] == Keep(old(orders)[i], size, maxEntries - c, maxMemory - m))
        && evictions + |orders[i]| == old(evictions) + |old(orders)[i]|
    {
      hide Consistent, Recorded, Ordered, Evict, Keep, Shrunk, Knit, Victims, OnlyEvicted;
      ghost var before, ordered, order := Gauge(i), Ordered(), [];
      GaugeIsKnit(i);
      if ordered {
        OrderedGauge(i);
        order := orders[i];
      }
      room, rounds := EvictForRoom(i, size, fuel);
      LoopsTell(before, size, fuel, room, rounds);
      if ordered {
        OrderedLoops(before, order, rounds, size, maxEntries, maxMemory);
      }
    }

    /** `room` tells whether the loops end within `fuel` rounds: if and only if deducting the victims makes room, given
        one round for each. */
    ghost predicate AsWritten(g: Ledger, size: nat, fuel: nat, room: bool) {
      var victims := Victims(g.list);
      var enough := Enough(g, victims, size, maxEntries, maxMemory);
      (room ==> enough) && (enough && fuel >= |victims| ==> room)
    }

    lemma LoopsTell(g: Ledger, size: nat, fuel: nat, room: bool, rounds: nat)
      requires Knit(g.list)
      requires room ==> Room(Evict(g, rounds), size, maxEntries, maxMemory)
      requires !room ==> rounds == fuel && !Room(Evict(g, rounds), size, maxEntries, maxMemory)
      requires NoRoomBefore(g, rounds, size, maxEntries, maxMemory)
      ensures AsWritten(g, size, fuel, room)
    {
      hide Room, Evict, Knit, Victims, Enough;
      LoopsEndExactly(g, size, maxEntries, maxMemory);
    }

    lemma GaugeIsKnit(i: nat)
      requires Consistent() && i < |shards|
      ensures Knit(Gauge(i).list)
    {
      assert Routed(i);
    }

    lemma OrderedGauge(i: nat)
      requires Ordered() && i < |shards|
      ensures i < |orders| && Represents(Gauge(i).list, orders[i])
      ensures Gauge(i).entries == EntriesElsewhere(i) + |orders[i]|
      ensures Gauge(i).memory == MemoryElsewhere(i) + SizeOf(orders[i])
    {
      assert OrderedAt(i);
    }

    /** The part of `Set` after eviction, without the log (kv.go:458-468). */
    method Place(i: nat, entry: Entry)
      requires i < |shards|
      modifies `entries, `memoryUsage, shards[i]
      ensures shards[i].data == old(shards[i].data)[entry.key := entry]
      ensures shards[i].List() == InsertList(old(shards[i].List()), old(shards[i].data), entry, guardFresh)
      ensures Put(old(Gauge(i)), old(shards[i].data), entry, Gauge(i))
      ensures var had := old(entry.key in shards[i].data);
        && entries == old(entries) + (if had then 0 else 1)
        && memoryUsage == old(memoryUsage) + entry.size - (if had then old(shards[i].data[entry.key].size) else 0)
    {
      if entry.key in shards[i].data {
        var oldEntry := shards[i].data[entry.key];
        DeleteFromShard(i, entry.key, oldEntry);
      }
      shards[i].data := shards[i].data[entry.key := entry];
      shards[i].MoveToFront(entry, guardFresh);
      entries := entries + 1;
      memoryUsage := memoryUsage + entry.size;
    }

    /** Shard `i` was `l` and `data`, in the order of `before`, and `entry` has been put into it. */
    lemma InsertKeepsOrdered(i: nat, l: Links, data: map<string, Entry>, before: seq<seq<Entry>>, entry: Entry)
      requires i < |shards| == |before| && guardFresh && nextAddr == entry.addr + 1
      requires orders == before[i := [entry] + WithoutKey(before[i], entry.key)]
      requires Recency(l, data, before[i], entry.addr)
      requires shards[i].List() == InsertList(l, data, entry, true) && shards[i].data == data[entry.key := entry]
      requires forall j :: 0 <= j < |shards| && j != i ==>
        Recency(shards[j].List(), shards[j].data, before[j], entry.addr)
      requires entries == CountAll(before) + (if entry.key in data then 0 else 1)
      requires memoryUsage
            == SizeAll(before) + entry.size - (if entry.key in data then data[entry.key].size else 0)
      ensures Ordered()
    {
      hide Recency, WithoutKey, InsertList, CountAll, SizeAll, SizeOf;
      InsertKeepsRecency(l, data, before[i], entry);
      forall j | 0 <= j < |shards| && j != i
        ensures OrderedAt(j)
      {
        RecencyBound(shards[j].List(), shards[j].data, orders[j], entry.addr, nextAddr);
      }
      OrderedAgain(i, before, orders[i]);
    }

    /** List and counters after `entry` has taken the place of any other with its key, and moved to the front. */
    ghost predicate Put(before: Ledger, data: map<string, Entry>, entry: Entry, after: Ledger) {
      if entry.key in data then
        var gone := data[entry.key];
        after == Ledger(LruList.MoveToFront(Remove(before.list, gone), entry, guardFresh), before.entries,
                        before.memory + entry.size - gone.size)
      else
        after == Ledger(LruList.MoveToFront(before.list, entry, guardFresh), before.entries + 1,
                        before.memory + entry.size)
    }

    /** `Place`, with what it means for the invariants. */
    method InsertEntry(i: nat, entry: Entry)
      requires Consistent() && i < |shards| && route(entry.key) == i
      modifies `entries, `memoryUsage, `view, `orders, `nextAddr, shards[i]
      ensures Consistent() && view == old(view)[entry.key := RecOf(entry)]
      ensures shards[i].data == old(shards[i].data)[entry.key := entry]
      ensures Put(old(Gauge(i)), old(shards[i].data), entry, Gauge(i))
      ensures entries <= old(entries) + 1 && memoryUsage <= old(memoryUsage) + entry.size
      ensures old(Ordered()) && entry.addr == old(nextAddr) ==>
        Ordered() && orders == old(orders)[i := [entry] + WithoutKey(old(orders)[i], entry.key)]
      ensures nextAddr == old(nextAddr) + 1
    {
      hide Recency, Sound, WithoutKey, InsertList, CountAll, SizeAll, SizeOf, RecOf, Put;
      assert Routed(i);
      InsertKeepsHome(shards[i].List(), shards[i].data, entry, guardFresh, Home(i));
      Place(i, entry);
      nextAddr := nextAddr + 1;
      view := view[entry.key := RecOf(entry)];
      if old(Ordered()) && entry.addr == old(nextAddr) {
        assert old(OrderedAt(i));
        orders := orders[i := [entry] + WithoutKey(orders[i], entry.key)];
        forall j | 0 <= j < |shards| && j != i
          ensures Recency(shards[j].List(), shards[j].data, old(orders)[j], entry.addr)
        {
          assert old(OrderedAt(j)) && shards[j] != shards[i];
        }
        InsertKeepsOrdered(i, old(shards[i].List()), old(shards[i].data), old(orders), entry);
      }
      assert forall j :: 0 <= j < |shards| && j != i ==> shards[j] != shards[i] && old(Routed(j));
      forall k
        ensures Find(view, k) == Held(k)
      {
        assert old(Find(view, k) == Held(k)) && (route(k) != i ==> shards[route(k)] != shards[i]);
      }
    }

    /** With a single shard nothing is elsewhere: `Set` ends whenever the entry is no larger than the memory limit. */
    lemma NothingElsewhere()
      requires Ordered() && |shards| == 1
      ensures EntriesElsewhere(0) == 0 && MemoryElsewhere(0) == 0
    {
      assert orders[..|orders| - 1] == [];
      assert CountAll(orders) == |orders[0]| && SizeAll(orders) == SizeOf(orders[0]);
    }

    /** Whatever was dropped: snapshot plus log give back what the store shows if and only if the entries that were kept
        have, for every key, the same last effect to show as all changes; if none were dropped, they do. */
    lemma FilesTell(t: int)
      requires Valid() && (since.Some? ==> t > since.value)
      ensures var trail := FollowAll(start, Trail(start.view, [], []), steps);
              Visible(Recovered(Files()), t) == Visible(view, t) <==> SameShown(trail, t)
      ensures dropped == 0 ==> Visible(Recovered(Files()), t) == Visible(view, t)
    {
      hide Run, Visible, Recovered, FollowAll, SameShown, Replay;
      FilesTellExactly(start.snapshot, start.wal, steps, t);
      FilesRecoverTheStore(start.snapshot, start.wal, steps, t);
    }

    // ---------- public operations ----------

    /** `Set`. The eviction loops run at most `fuel` times in all: `done` is false when they have not finished by
        then, which leaves the store as it is inside the loop. */
    method Set(key: string, value: Value, ttl: int, now: int, fuel: nat)
      returns (err: Option<StoreError>, done: bool, ghost rounds: nat)
      requires Valid()
      modifies this, shards
      ensures Valid() && start == old(start) && old(steps) <= steps
      ensures old(closed) ==> err == Some(StoreClosed) && done && view == old(view) && steps == old(steps)
      ensures !old(closed) ==> err == None && Shrunk(view, old(view), key, done)
      ensures forall n :: |old(steps)| <= n < |steps| ==> if readOnly then steps[n].ChangeStep? else steps[n].LogStep?
      ensures !old(closed) ==> |steps| - |old(steps)| == evictions - old(evictions) + if done then 1 else 0
      ensures !old(closed) && done ==>
        && |steps| > |old(steps)| && key in view && steps[|steps| - 1].e == SetEntry(key, view[key])
        && forall n :: |old(steps)| <= n < |steps| - 1 ==> steps[n].e.DeleteEntry?
      ensures !old(closed) && !readOnly && |old(logChan)| + |steps| - |old(steps)| <= LOG_CAPACITY ==>
        && dropped == old(dropped) && |logChan| == |old(logChan)| + |steps| - |old(steps)|
        && (done ==> logChan != [] && key in view && logChan[|logChan| - 1] == SetEntry(key, view[key]))
      ensures !old(closed) && done ==>
        var i := route(key);
        var g := Evict(old(Gauge(route(key))), rounds);
        && key in shards[i].data && key in view && RecOf(shards[i].data[key]) == view[key]
        && shards[i].data[key].key == key && shards[i].data[key].size == |key| + |value| + 64
        && Room(g, |key| + |value| + 64, maxEntries, maxMemory)
        && NoRoomBefore(old(Gauge(route(key))), rounds, |key| + |value| + 64, maxEntries, maxMemory)
        && (Put(g, map[], shards[i].data[key], Gauge(i))
            || (key in old(shards[route(key)].data)
                && Put(g, old(shards[route(key)].data), shards[i].data[key], Gauge(i))))
      ensures !old(closed) && done ==>
        && key in view && view[key] == Rec(value, if ttl > 0 then Some(now + ttl) else None, old(version) + 1)
        && entries <= maxEntries && memoryUsage <= maxMemory
      ensures !old(closed) ==> AsWritten(old(Gauge(route(key))), EntrySize(key, value), fuel, done)
      ensures !old(closed) && old(Ordered()) ==> Ordered()
      ensures !old(closed) && old(Ordered()) ==>
        var i, size, before := route(key), EntrySize(key, value), old(orders)[route(key)];
        var c, m := old(EntriesElsewhere(route(key))), old(MemoryElsewhere(route(key)));
        && (done ==> c < maxEntries && m + size <= maxMemory)
        && (c < maxEntries && m + size <= maxMemory && fuel >= |before| ==> done)
        && (done ==> orders[i] != [] && orders[i][0].key == key && orders[i][0].size == size)
        && (done ==> orders == old(orders)[i :=
              [orders[i][0]] + WithoutKey(Keep(before, size, maxEntries - c, maxMemory - m), key)])
        && (done ==> evictions == old(evictions) + |before| - |Keep(before, size, maxEntries - c, maxMemory - m)|)
    {
      hide Valid, Ordered, WithoutKey, Keep, SizeOf, AsWritten, Evict, Put, NoRoomBefore, Gauge;
      rounds := 0;
      if closed {
        return Some(StoreClosed), true, rounds;
      }
      InShards(key);
      ghost var files := Files();
      FilesAreRecorded();
      done, rounds := SetOpen(key, value, ttl, now, fuel);
      SinceThen(files, old(steps));
      err := None;
    }

    /** `Set` on an open store. */
    method SetOpen(key: string, value: Value, ttl: int, now: int, fuel: nat)
      returns (done: bool, ghost rounds: nat)
      requires Valid() && !closed
      modifies `entries, `memoryUsage, `logChan, `view, `dropped, `steps, `version, `orders, `evictions, `nextAddr
      modifies shards
      ensures Valid() && old(steps) <= steps
      ensures Shrunk(view, old(view), key, done)
      ensures forall n :: |old(steps)| <= n < |steps| ==> if readOnly then steps[n].ChangeStep? else steps[n].LogStep?
      ensures |steps| - |old(steps)| == evictions - old(evictions) + if done then 1 else 0
      ensures done ==>
        && |steps| > |old(steps)| && key in view && steps[|steps| - 1].e == SetEntry(key, view[key])
        && forall n :: |old(steps)| <= n < |steps| - 1 ==> steps[n].e.DeleteEntry?
      ensures done ==>
        var i := route(key);
        var g := Evict(old(Gauge(route(key))), rounds);
        && key in shards[i].data && key in view && RecOf(shards[i].data[key]) == view[key]
        && shards[i].data[key].key == key && shards[i].data[key].size == |key| + |value| + 64
        && Room(g, |key| + |value| + 64, maxEntries, maxMemory)
        && NoRoomBefore(old(Gauge(route(key))), rounds, |key| + |value| + 64, maxEntries, maxMemory)
        && (Put(g, map[], shards[i].data[key], Gauge(i))
            || (key in old(shards[route(key)].data)
                && Put(g, old(shards[route(key)].data), shards[i].data[key], Gauge(i))))
      ensures done ==>
        && key in view && view[key] == Rec(value, if ttl > 0 then Some(now + ttl) else None, old(version) + 1)
        && entries <= maxEntries && memoryUsage <= maxMemory
      ensures AsWritten(old(Gauge(route(key))), EntrySize(key, value), fuel, done)
      ensures old(Ordered()) ==> Ordered()
      ensures old(Ordered()) ==>
        var i, size, before := route(key), EntrySize(key, value), old(orders)[route(key)];
        var c, m := old(EntriesElsewhere(route(key))), old(MemoryElsewhere(route(key)));
        && (done ==> c < maxEntries && m + size <= maxMemory)
        && (c < maxEntries && m + size <= maxMemory && fuel >= |before| ==> done)
        && (done ==> orders[i] != [] && orders[i][0].key == key && orders[i][0].size == size)
        && (done ==> orders == old(orders)[i :=
              [orders[i][0]] + WithoutKey(Keep(before, size, maxEntries - c, maxMemory - m), key)])
        && (done ==> evictions == old(evictions) + |before| - |Keep(before, size, maxEntries - c, maxMemory - m)|)
    {
      hide Valid, Ordered, WithoutKey, Keep, SizeOf, AsWritten, Evict, Put, NoRoomBefore;
      var i, size := route(key), EntrySize(key, value);
      InShards(key);
      var expireAt := if ttl > 0 then Some(now + ttl) else None;
      version := version + 1;
      var ver := version;
      assert Gauge(i) == old(Gauge(i));
      done, rounds := MakeRoom(i, size, fuel);
      if !done {
        return;
      }
      ghost var kept, data := orders, shards[i].data;
      PutEntry(i, Entry(nextAddr, key, value, expireAt, size, ver));
      PutAgain(Evict(old(Gauge(route(key))), rounds), data, old(shards[route(key)].data), shards[i].data[key],
        Gauge(i));
      if old(Ordered()) {
        assert kept[i := orders[i]] == old(orders)[i := orders[i]];
      }
    }

    lemma PutAgain(g: Ledger, data: map<string, Entry>, data0: map<string, Entry>, e: Entry, after: Ledger)
      requires (forall k :: k in data ==> k in data0 && data[k] == data0[k]) && Put(g, data, e, after)
      ensures Put(g, map[], e, after) || (e.key in data0 && Put(g, data0, e, after))
    {
    }

    lemma FilesAreRecorded()
      requires Valid()
      ensures start == Open(start.snapshot, start.wal) && Files() == Run(start, steps)
    {
    }

    /** What the steps since `before` made of the log channel, if they were logged and there was room. */
    lemma SinceThen(files: Journal, before: seq<Step>)
      requires Valid() && before <= steps && start == Open(start.snapshot, start.wal) && files == Run(start, before)
      ensures (forall n :: |before| <= n < |steps| ==> steps[n].LogStep?)
              && |files.chan| + |steps| - |before| <= LOG_CAPACITY ==>
        && dropped == files.dropped && |logChan| == |files.chan| + |steps| - |before|
        && (|steps| > |before| ==> logChan[|logChan| - 1] == steps[|steps| - 1].e)
    {
      hide Consistent, Run;
      var added := steps[|before|..];
      assert steps == before + added;
      RunConcat(start, before, added);
      if (forall n :: |before| <= n < |steps| ==> steps[n].LogStep?) && |files.chan| + |added| <= LOG_CAPACITY {
        forall n | 0 <= n < |added|
          ensures added[n].LogStep?
        {
          assert added[n] == steps[|before| + n];
        }
        LoggedIsKept(files, added);
        if |added| > 0 {
          assert added[|added| - 1] == steps[|steps| - 1];
          assert Run(files, added).chan[|files.chan| + (|added| - 1)] == added[|added| - 1].e;
        }
      }
    }

    lemma InShards(key: string)
      requires Valid()
      ensures route(key) < |shards| && (Ordered() ==> |orders| == |shards|)
      ensures Find(view, key) == Held(key)
    {
    }

    /** The part of `Set` after eviction. */
    method PutEntry(i: nat, entry: Entry)
      requires Valid() && i < |shards| && route(entry.key) == i && entry.addr == nextAddr
      modifies `entries, `memoryUsage, `logChan, `view, `dropped, `steps, `orders, `nextAddr, shards[i]
      ensures Valid() && view == old(view)[entry.key := RecOf(entry)]
      ensures shards[i].data == old(shards[i].data)[entry.key := entry]
      ensures Put(old(Gauge(i)), old(shards[i].data), entry, Gauge(i))
      ensures steps == old(steps) + [Noted(SetEntry(entry.key, RecOf(entry)))]
      ensures entries <= old(entries) + 1 && memoryUsage <= old(memoryUsage) + entry.size
      ensures old(Ordered()) ==>
        && Ordered() && i < |old(orders)|
        && orders == old(orders)[i := [entry] + WithoutKey(old(orders)[i], entry.key)]
    {
      hide Recency, AtHome, Recorded, CountAll, SizeAll, WithoutKey, SizeOf;
      ghost var before := view;
      InsertEntry(i, entry);
      AppendSet(entry, before);
    }

    /** `logSet`, skipped by a read-only store. */
    method AppendSet(entry: Entry, ghost before: View)
      requires view == before[entry.key := RecOf(entry)]
      requires Recorded(Files().(view := before)) && (readOnly ==> logChan == [])
      modifies `logChan, `dropped, `steps
      ensures Recorded(Files()) && (readOnly ==> logChan == [])
      ensures steps == old(steps) + [Noted(SetEntry(entry.key, RecOf(entry)))]
    {
      AppendLog(SetEntry(entry.key, RecOf(entry)), before);
    }

    /** `Get`, with the clock read twice. */
    method Get(key: string, now: int, later: int) returns (r: Result<Value, StoreError>)
      requires Valid() && now <= later
      modifies this, shards
      ensures Valid() && (old(Ordered()) ==> Ordered()) && start == old(start) && old(steps) <= steps
      ensures old(closed) ==> r == Err(StoreClosed) && view == old(view)
      ensures !old(closed) && key !in old(view) ==> r == Err(KeyNotFound) && view == old(view)
      ensures !old(closed) && key in old(view) && Expired(old(view)[key], now) ==>
        && r == Err(KeyExpired) && view == old(view) - {key}
        && steps == old(steps) + [if readOnly then ChangeStep(DeleteEntry(key, version))
                                  else LogStep(DeleteEntry(key, version))]
        && (!readOnly && |old(logChan)| < LOG_CAPACITY ==>
              logChan == old(logChan) + [DeleteEntry(key, version)] && dropped == old(dropped))
      ensures old(closed) || key !in old(view) || !Expired(old(view)[key], now) ==>
        steps == old(steps) && logChan == old(logChan) && dropped == old(dropped)
      ensures r.Ok? ==>
        && key in old(shards[route(key)].data)
        && var front := LruList.MoveToFront(old(Gauge(route(key))).list, old(shards[route(key)].data)[key], guardFresh);
           Gauge(route(key)) == Ledger(front, old(entries), old(memoryUsage))
      ensures !old(closed) && key in old(view) && !Expired(old(view)[key], now) ==>
        && view == old(view)
        && r == (if Expired(old(view)[key], later) then Err(KeyExpired) else Ok(old(view)[key].value))
      ensures r.Ok? ==> hits == old(hits) + 1 && misses == old(misses)
      ensures r.Err? && !old(closed) ==> hits == old(hits) && misses == old(misses) + 1
      ensures r.Ok? && old(Ordered()) ==>
        exists e: Entry :: e.key == key && e in old(orders)[route(key)]
          && orders == old(orders)[route(key) := [e] + WithoutKey(old(orders)[route(key)], key)]
    {
      hide Consistent, Ordered, Recorded, WithoutKey;
      if closed {
        return Err(StoreClosed);
      }
      InShards(key);
      var i := route(key);
      if key !in shards[i].data {
        misses := misses + 1;
        return Err(KeyNotFound);
      }
      r := GetStored(i, key, now, later);
    }

    /** The part of `Get` that has found an entry. */
    method GetStored(i: nat, key: string, now: int, later: int) returns (r: Result<Value, StoreError>)
      requires Valid() && now <= later && route(key) == i < |shards| && key in shards[i].data
      modifies `entries, `memoryUsage, `logChan, `view, `dropped, `steps, `version, `orders, `hits, `misses, shards[i]
      ensures Valid() && (old(Ordered()) ==> Ordered()) && old(steps) <= steps
      ensures var e := old(shards[i].data[key]);
        && r == (if Overdue(e, now) || Overdue(e, later) then Err(KeyExpired) else Ok(e.value))
        && view == (if Overdue(e, now) then old(view) - {key} else old(view))
        && (Overdue(e, now) ==>
              && steps == old(steps) + [Noted(DeleteEntry(key, version))]
              && (!readOnly && |old(logChan)| < LOG_CAPACITY ==>
                    logChan == old(logChan) + [DeleteEntry(key, version)] && dropped == old(dropped)))
        && (!Overdue(e, now) ==> steps == old(steps) && logChan == old(logChan) && dropped == old(dropped))
        && (r.Ok? ==> Gauge(i) == Ledger(LruList.MoveToFront(old(Gauge(i)).list, e, guardFresh), old(entries),
                                         old(memoryUsage)))
      ensures (hits, misses) == if r.Ok? then (old(hits) + 1, old(misses)) else (old(hits), old(misses) + 1)
      ensures r.Ok? && old(Ordered()) ==>
        var e := old(shards[i].data[key]);
        && i < |old(orders)| && e.key == key && e in old(orders)[i]
        && orders == old(orders)[i := [e] + WithoutKey(old(orders)[i], key)]
    {
      hide Consistent, Ordered, Recorded, WithoutKey;
      InShards(key);
      var entry := shards[i].data[key];
      if entry.expireAt.Some? && now > entry.expireAt.value {
        RemoveLogged(i, key, entry);
        misses := misses + 1;
        return Err(KeyExpired);
      }
      if entry.expireAt.Some? && later > entry.expireAt.value {
        misses := misses + 1;
        return Err(KeyExpired);
      }
      Touch(i, key);
      hits := hits + 1;
      return Ok(entry.value);
    }

    /** Moves a stored key to the front of its shard's list. */
    method Touch(i: nat, key: string)
      requires Consistent() && i < |shards| && route(key) == i && key in shards[i].data
      modifies `orders, shards[i]
      ensures Consistent() && shards[i].data == old(shards[i].data)
      ensures shards[i].List() == LruList.MoveToFront(old(shards[i].List()), old(shards[i].data[key]), guardFresh)
      ensures old(Ordered()) ==>
        && Ordered() && old(shards[i].data[key]) in old(orders)[i] && old(shards[i].data[key]).key == key
        && orders == old(orders)[i := [old(shards[i].data[key])] + WithoutKey(old(orders)[i], key)]
    {
      hide Recency, Sound, WithoutKey, LruList.MoveToFront, CountAll, SizeAll, SizeOf;
      var entry := shards[i].data[key];
      assert Routed(i);
      MoveToFrontKeepsHome(shards[i].List(), entry, guardFresh, Home(i));
      shards[i].MoveToFront(entry, guardFresh);
      if old(Ordered()) {
        assert old(OrderedAt(i));
        orders := orders[i := [entry] + WithoutKey(orders[i], key)];
        TouchKeepsRecency(old(shards[i].List()), old(shards[i].data), old(orders)[i], nextAddr, key);
        forall j | 0 <= j < |shards| && j != i
          ensures OrderedAt(j)
        {
          assert old(OrderedAt(j)) && shards[j] != shards[i];
        }
        OrderedAgain(i, old(orders), orders[i]);
      }
      assert Find(view, key) == old(Held(key));
      assert forall j :: 0 <= j < |shards| && j != i ==> shards[j] != shards[i] && old(Routed(j));
      forall k
        ensures Find(view, k) == Held(k)
      {
        assert old(Find(view, k) == Held(k)) && (route(k) != i ==> shards[route(k)] != shards[i]);
      }
    }

    method Delete(key: string) returns (err: Option<StoreError>)
      requires Valid()
      modifies this, shards
      ensures Valid() && (old(Ordered()) ==> Ordered()) && start == old(start) && old(steps) <= steps
      ensures err == (if old(closed) then Some(StoreClosed) else if key !in old(view) then Some(KeyNotFound) else None)
      ensures view == if err == None then old(view) - {key} else old(view)
      ensures err == None ==>
        && steps == old(steps) + [if readOnly then ChangeStep(DeleteEntry(key, version))
                                  else LogStep(DeleteEntry(key, version))]
        && (!readOnly && |old(logChan)| < LOG_CAPACITY ==>
              logChan == old(logChan) + [DeleteEntry(key, version)] && dropped == old(dropped))
        && key in old(shards[route(key)].data)
        && var e := old(shards[route(key)].data[key]);
           var list := Remove(old(Gauge(route(key))).list, e);
           Gauge(route(key)) == Ledger(list, old(entries) - 1, old(memoryUsage) - e.size)
      ensures err != None ==> steps == old(steps) && logChan == old(logChan) && dropped == old(dropped)
      ensures err == None && old(Ordered()) ==>
        orders == old(orders)[route(key) := WithoutKey(old(orders)[route(key)], key)]
    {
      hide Consistent, Ordered, Recorded, WithoutKey;
      if closed {
        return Some(StoreClosed);
      }
      InShards(key);
      var i := route(key);
      if key !in shards[i].data {
        return Some(KeyNotFound);
      }
      RemoveLogged(i, key, shards[i].data[key]);
      return None;
    }

    /** `cleanExpired`: in each shard, first collect the expired keys, then delete those still expired. */
    method CleanExpired(now: int)
      requires Valid()
      modifies this, shards
      ensures Valid() && view == Visible(old(view), now) && start == old(start) && old(steps) <= steps
      ensures forall n :: |old(steps)| <= n < |steps| ==>
        (if readOnly then steps[n].ChangeStep? else steps[n].LogStep?) && steps[n].e.DeleteEntry?
      ensures !readOnly && |old(logChan)| + |steps| - |old(steps)| <= LOG_CAPACITY ==>
        dropped == old(dropped) && |logChan| == |old(logChan)| + |steps| - |old(steps)|
      ensures old(Ordered()) ==> Ordered()
    {
      ghost var files := Files();
      FilesAreRecorded();
      for i := 0 to |shards|
        invariant Valid() && (old(Ordered()) ==> Ordered()) && start == old(start) && old(steps) <= steps
        invariant forall n :: |old(steps)| <= n < |steps| ==>
          (if readOnly then steps[n].ChangeStep? else steps[n].LogStep?) && steps[n].e.DeleteEntry?
        invariant forall k :: Find(view, k) == Find(if route(k) < i then Visible(old(view), now) else old(view), k)
      {
        CleanShard(i, now);
      }
      FilesAreRecorded();
      SinceThen(files, old(steps));
      SameView(view, Visible(old(view), now));
    }

    method CleanShard(i: nat, now: int)
      requires Valid() && i < |shards|
      modifies this, shards
      ensures Valid() && (old(Ordered()) ==> Ordered()) && start == old(start) && old(steps) <= steps
      ensures forall n :: |old(steps)| <= n < |steps| ==>
        (if readOnly then steps[n].ChangeStep? else steps[n].LogStep?) && steps[n].e.DeleteEntry?
      ensures forall k :: Find(view, k) == Find(if route(k) == i then Visible(old(view), now) else old(view), k)
    {
      hide Recency, AtHome, Run, CountAll, SizeAll, WithoutKey, Cleaning;
      var expired := set k | k in shards[i].data && Overdue(shards[i].data[k], now);
      CleaningStarts(i, now, expired);
      while expired != {}
        invariant Valid() && (old(Ordered()) ==> Ordered()) && start == old(start) && old(steps) <= steps
        invariant forall n :: |old(steps)| <= n < |steps| ==>
          (if readOnly then steps[n].ChangeStep? else steps[n].LogStep?) && steps[n].e.DeleteEntry?
        invariant Cleaning(view, old(view), i, now, expired)
        decreases expired
      {
        var key :| key in expired;
        CleaningGoesOn(old(view), i, now, expired, key);
        if key in shards[i].data && Overdue(shards[i].data[key], now) {
          RemoveLogged(i, key, shards[i].data[key]);
        }
        expired := expired - {key};
      }
      CleaningEnds(view, old(view), i, now);
    }

    /** The overdue entries of shard `i` are gone, but for those still to be looked at. */
    ghost predicate Cleaning(view: View, before: View, i: nat, now: int, expired: set<string>) {
      && (forall k :: k in expired ==> route(k) == i)
      && (forall k :: k in view && route(k) == i && Expired(view[k], now) ==> k in expired)
      && (forall k :: k in view ==> k in before && view[k] == before[k])
      && (forall k :: k in before && k !in view ==> route(k) == i && Expired(before[k], now))
    }

    lemma CleaningStarts(i: nat, now: int, expired: set<string>)
      requires Consistent() && i < |shards|
      requires expired == set k | k in shards[i].data && Overdue(shards[i].data[k], now)
      ensures Cleaning(view, view, i, now, expired)
    {
      ViewOfShard(i);
    }

    lemma CleaningGoesOn(before: View, i: nat, now: int, expired: set<string>, key: string)
      requires Consistent() && i < |shards| && Cleaning(view, before, i, now, expired) && key in expired
      ensures route(key) == i
      ensures Cleaning(if key in shards[i].data && Overdue(shards[i].data[key], now) then view - {key} else view,
                       before, i, now, expired - {key})
    {
      ViewOfShard(i);
    }

    lemma CleaningEnds(view: View, before: View, i: nat, now: int)
      requires Cleaning(view, before, i, now, {})
      ensures forall k :: Find(view, k) == Find(if route(k) == i then Visible(before, now) else before, k)
    {
      forall k
        ensures Find(view, k) == Find(if route(k) == i then Visible(before, now) else before, k)
      {
        assert k in before && k !in view ==> Expired(before[k], now);
      }
    }

    /** What `view` says of the keys of one shard. */
    lemma ViewOfShard(i: nat)
      requires Consistent() && i < |shards|
      ensures forall k :: k in shards[i].data ==> route(k) == i && k in view && view[k] == RecOf(shards[i].data[k])
      ensures forall k :: k in view && route(k) == i ==> k in shards[i].data
    {
      assert Routed(i);
      forall k
        ensures k in shards[i].data ==> route(k) == i && k in view && view[k] == RecOf(shards[i].data[k])
        ensures k in view && route(k) == i ==> k in shards[i].data
      {
        assert Find(view, k) == Held(k);
      }
    }

    /** The log writer moves one entry to the file. */
    method WriteWal()
      requires Valid()
      modifies `logChan, `wal, `steps
      ensures Valid() && old(steps) <= steps
      ensures old(logChan) != [] ==> Files() == Write(old(Files()))
      ensures if old(logChan) == [] then logChan == [] && wal == old(wal)
              else logChan == old(logChan)[1..] && wal == old(wal) + [old(logChan)[0]]
    {
      hide Run;
      if logChan != [] {
        RunOneMore(start, steps, WriteStep);
        steps := steps + [WriteStep];
        wal := wal + [logChan[0]];
        logChan := logChan[1..];
      }
    }

    /** `Snapshot` and `resetWAL`. */
    method Snapshot(now: int) returns (err: Option<StoreError>)
      requires Valid()
      modifies `snapshot, `wal, `since, `dropped, `steps
      ensures Valid() && old(steps) <= steps
      ensures err == (if closed || readOnly then Some(StoreClosed) else None)
      ensures Files() == if err == None then TakeSnapshot(old(Files()), now) else old(Files())
      ensures err == None ==>
        && wal == [] && since == Some(now)
        && (forall k :: k in snapshot <==> k in view && (view[k].expireAt == None || now < view[k].expireAt.value))
        && (forall k :: k in snapshot ==> k in view && snapshot[k] == view[k])
    {
      hide Run, Recency, AtHome, Replay;
      if closed || readOnly {
        return Some(StoreClosed);
      }
      var encoded := Encode(now);
      RunOneMore(start, steps, SnapshotStep(now));
      steps := steps + [SnapshotStep(now)];
      snapshot := encoded;
      wal := [];
      since := Some(now);
      dropped := if Settled(view, logChan) then 0 else dropped;
      return None;
    }

    /** The unexpired entries of all shards. */
    method Encode(now: int) returns (encoded: View)
      requires Consistent()
      ensures encoded == Unexpired(view, now)
    {
      encoded := map[];
      for i := 0 to |shards|
        invariant forall k :: Find(encoded, k) == if route(k) < i then Find(Unexpired(view, now), k) else None
      {
        ViewOfShard(i);
        var data := shards[i].data;
        encoded := encoded +
          map k | k in data && (data[k].expireAt.None? || now < data[k].expireAt.value) :: RecOf(data[k]);
      }
      SameView(encoded, Unexpired(view, now));
    }

    /** `loadData` into a store just made: the snapshot's entries in any order, then the log. */
    method LoadData(saved: View, log: seq<WalEntry>)
      requires Valid() && view == map[] && logChan == [] && since == None && dropped == 0
      modifies this, shards
      ensures Valid() && (old(Ordered()) ==> Ordered()) && start == Files() && steps == []
      ensures Files() == Open(saved, log) && view == Replay(saved, log)
    {
      hide Run, Recency, AtHome, Replay, CountAll, SizeAll;
      snapshot, wal := saved, log;
      LoadSnapshot();
      ReplayWal();
      Reopen();
    }

    /** The steps are counted from here on. */
    ghost method Reopen()
      requires Consistent() && Files() == Open(snapshot, wal)
      modifies `start, `steps
      ensures Consistent() && Recorded(Files()) && start == Files() && steps == []
    {
      hide Consistent;
      start, steps := Files(), [];
    }

    method LoadSnapshot()
      requires Consistent() && view == map[]
      modifies `entries, `memoryUsage, `view, `orders, `nextAddr, shards
      ensures Consistent() && (old(Ordered()) ==> Ordered()) && view == snapshot
    {
      var pending := snapshot.Keys;
      while pending != {}
        invariant Consistent() && (old(Ordered()) ==> Ordered())
        invariant pending <= snapshot.Keys && view == snapshot - pending
        decreases pending
      {
        var key :| key in pending;
        var rec := snapshot[key];
        InsertEntry(route(key), Entry(nextAddr, key, rec.value, rec.expireAt, EntrySize(key, rec.value), rec.version));
        pending := pending - {key};
      }
      assert snapshot - {} == snapshot;
    }

    method ReplayWal()
      requires Consistent()
      modifies `entries, `memoryUsage, `view, `orders, `nextAddr, shards
      ensures Consistent() && (old(Ordered()) ==> Ordered()) && view == Replay(old(view), wal)
    {
      assert wal[..0] == [];
      for n := 0 to |wal|
        invariant Consistent() && (old(Ordered()) ==> Ordered())
        invariant view == Replay(old(view), wal[..n])
      {
        assert wal[..n + 1] == wal[..n] + [wal[n]];
        ReplayAppend(old(view), wal[..n], wal[n]);
        match wal[n] {
          case SetEntry(key, rec) =>
            var size := EntrySize(key, rec.value);
            InsertEntry(route(key), Entry(nextAddr, key, rec.value, rec.expireAt, size, rec.version));
          case DeleteEntry(key, _) =>
            ViewOfShard(route(key));
            if key in shards[route(key)].data {
              RemoveEntry(route(key), key, shards[route(key)].data[key]);
            } else {
              assert view == view - {key};
            }
        }
      }
      assert wal[..|wal|] == wal;
    }
  }

  ghost predicate NoRoomBefore(g: Ledger, n: nat, size: nat, maxEntries: int, maxMemory: int) {
    forall k :: 0 <= k < n ==> !Room(Evict(g, k), size, maxEntries, maxMemory)
  }

  /** After `n` evictions from shard `i`. */
  ghost predicate DroppedTo(orders: seq<seq<Entry>>, evictions: nat, orders0: seq<seq<Entry>>, evictions0: nat, i: nat,
                            n: nat)
  {
    && i < |orders0| && orders == orders0[i := Dropped(orders0[i], n)]
    && evictions + |orders[i]| == evictions0 + |orders0[i]|
  }

  lemma OneMoreDropped(orders': seq<seq<Entry>>, evictions': nat, orders: seq<seq<Entry>>, evictions: nat,
                       orders0: seq<seq<Entry>>, evictions0: nat, i: nat, n: nat)
    requires DroppedTo(orders', evictions', orders0, evictions0, i, n)
    requires orders == orders'[i := Dropped(orders'[i], 1)]
    requires evictions + |orders[i]| == evictions' + |orders'[i]|
    ensures DroppedTo(orders, evictions, orders0, evictions0, i, n + 1)
  {
    var order := orders0[i];
    assert n < |order| ==> order[..|order| - n][..|order| - n - 1] == order[..|order| - (n + 1)];
  }

  predicate Overdue(e: Entry, now: int) {
    e.expireAt.Some? && now > e.expireAt.value
  }

  lemma NothingIsHeld()
    ensures Replay(map[], []) == map[]
    ensures forall bound :: Recency(LruList.Empty(), map[], [], bound)
    ensures forall home :: AtHome(LruList.Empty(), map[], home)
  {
    EmptyIsKnit();
  }

  lemma {:induction false} NothingIsOrdered(n: nat)
    ensures CountAll(seq(n, _ => [])) == 0 && SizeAll(seq(n, _ => [])) == 0
  {
    if n == 0 {
    } else {
      NothingIsOrdered(n - 1);
      assert seq<seq<Entry>>(n, _ => [])[..n - 1] == seq<seq<Entry>>(n - 1, _ => []);
    }
  }

  function EntrySize(key: string, value: Value): nat {
    |key| + |value| + 64
  }

  /** `m` holds nothing but what `before` held, apart from `key` if it was written. */
  ghost predicate Shrunk(m: View, before: View, key: string, written: bool) {
    forall k :: k in m && !(written && k == key) ==> k in before && m[k] == before[k]
  }

  lemma TailIsHome(l: Links, data: map<string, Entry>, home: iset<string>)
    requires AtHome(l, data, home)
    ensures l.tail.Some? ==> l.tail.value.key in home
  {
  }
}
