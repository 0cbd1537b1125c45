/** The idempotency gate of pkg/net/webhookin/dedup.go. Times are nanoseconds; a call is atomic, as it is under the
    gate's mutex. */
module Dedup {
  import opened Wrappers

  const MINUTE := 60_000_000_000

  datatype Call = Call(key: string, now: int)

  /** Key to expiry, and the time of the last sweep. */
  datatype Gate = Gate(items: map<string, int>, lastSweep: int)

  function Swept(g: Gate, now: int): Gate {
    if now - g.lastSweep > MINUTE then Gate(map k | k in g.items && now <= g.items[k] :: g.items[k], now) else g
  }

  predicate Seen(g: Gate, c: Call) {
    var items := Swept(g, c.now).items;
    c.key in items && c.now < items[c.key]
  }

  function After(ttl: int, g: Gate, c: Call): Gate {
    var s := Swept(g, c.now);
    if Seen(g, c) then s else s.(items := s.items[c.key := c.now + ttl])
  }

  /** The gate after a history of calls. */
  function Reached(ttl: int, g: Gate, calls: seq<Call>): Gate {
    if calls == [] then g
    else After(ttl, Reached(ttl, g, calls[..|calls| - 1]), calls[|calls| - 1])
  }

  /** When a call with this key was last let through. */
  function LastLet(ttl: int, g: Gate, calls: seq<Call>, key: string): Option<int> {
    if calls == [] then None
    else
      var past, c := calls[..|calls| - 1], calls[|calls| - 1];
      if c.key == key && !Seen(Reached(ttl, g, past), c) then Some(c.now) else LastLet(ttl, g, past, key)
  }

  /** Since the key was last let through, some call swept at a time when its time to live was over. */
  predicate Forgotten(ttl: int, g: Gate, calls: seq<Call>, key: string) {
    if calls == [] then false
    else
      var past, c := calls[..|calls| - 1], calls[|calls| - 1];
      var last := LastLet(ttl, g, past, key);
      if c.key == key && !Seen(Reached(ttl, g, past), c) then false
      else
        || Forgotten(ttl, g, past, key)
        || (last.Some? && c.now - Reached(ttl, g, past).lastSweep > MINUTE && c.now > last.value + ttl)
  }

  /** The gate holds a key exactly if it was let through and not forgotten since, with the expiry of that call. */
  lemma {:induction false} HistoryTells(ttl: int, start: int, calls: seq<Call>, key: string)
    ensures var g := Gate(map[], start);
            var items, last := Reached(ttl, g, calls).items, LastLet(ttl, g, calls, key);
            && (key in items <==> last.Some? && !Forgotten(ttl, g, calls, key))
            && (key in items ==> items[key] == last.value + ttl)
    decreases |calls|
  {
    if calls == [] {
    } else {
      HistoryTells(ttl, start, calls[..|calls| - 1], key);
    }
  }

  /** Whatever the clock does: a call is told that its key was seen if and only if the last call with that key to be
      let through came less than the time to live before, and no sweep since then found it expired. */
  lemma SeenExactly(ttl: int, start: int, past: seq<Call>, c: Call)
    ensures var g := Gate(map[], start);
            var last := LastLet(ttl, g, past, c.key);
            Seen(Reached(ttl, g, past), c) <==>
            last.Some? && c.now < last.value + ttl && !Forgotten(ttl, g, past, c.key)
  {
    HistoryTells(ttl, start, past, c.key);
  }

  ghost predicate Ordered(calls: seq<Call>) {
    forall j, k :: 0 <= j < k < |calls| ==> calls[j].now <= calls[k].now
  }

  /** A key that was forgotten had expired by the latest time of the history. */
  lemma {:induction false} ForgottenExpired(ttl: int, g: Gate, calls: seq<Call>, key: string, now: int)
    requires Ordered(calls) && (calls == [] || calls[|calls| - 1].now <= now) && Forgotten(ttl, g, calls, key)
    ensures LastLet(ttl, g, calls, key).Some? && LastLet(ttl, g, calls, key).value + ttl < now
    decreases |calls|
  {
    var past := calls[..|calls| - 1];
    if Forgotten(ttl, g, past, key) {
      ForgottenExpired(ttl, g, past, key, now);
    }
  }

  /** So while the clock does not go back, sweeping never shows: only the last let-through call counts. */
  lemma SweepingIsInvisible(ttl: int, start: int, past: seq<Call>, c: Call)
    requires Ordered(past + [c])
    ensures var g := Gate(map[], start);
            var last := LastLet(ttl, g, past, c.key);
            Seen(Reached(ttl, g, past), c) <==> last.Some? && c.now < last.value + ttl
  {
    forall j, k | 0 <= j < k < |past|
      ensures past[j].now <= past[k].now
    {
      assert (past + [c])[j] == past[j] && (past + [c])[k] == past[k];
    }
    if past != [] {
      assert (past + [c])[|past| - 1].now <= (past + [c])[|past|].now;
    }
    SeenExactly(ttl, start, past, c);
    if Forgotten(ttl, Gate(map[], start), past, c.key) {
      ForgottenExpired(ttl, Gate(map[], start), past, c.key, c.now);
    }
  }

  /** With a clock that goes back it can show: a swept key is let through again within its time to live. */
  lemma ClockBackForgets()
    ensures var g, past := Gate(map[], 0), [Call("k", 0), Call("other", 2 * MINUTE)];
            && LastLet(MINUTE, g, past, "k") == Some(0) && Forgotten(MINUTE, g, past, "k")
            && !Seen(Reached(MINUTE, g, past), Call("k", 1))
  {
    var g, c, d := Gate(map[], 0), Call("k", 0), Call("other", 2 * MINUTE);
    assert [c, d][..1] == [c] && [c][..0] == [];
    assert Reached(MINUTE, g, []) == g && Reached(MINUTE, g, [c]) == After(MINUTE, g, c);
    assert After(MINUTE, g, c).items == map["k" := MINUTE];
    assert LastLet(MINUTE, g, [c], "k") == Some(0);
  }

  class Deduper {
    const ttl: int
    var items: map<string, int>
    var lastSweep: int

    ghost function View(): Gate
      reads this
    {
      Gate(items, lastSweep)
    }

    constructor (ttl: int, now: int)
      ensures View() == Gate(map[], now) && this.ttl == if ttl <= 0 then 10 * MINUTE else ttl
    {
      this.ttl := if ttl <= 0 then 10 * MINUTE else ttl;
      items, lastSweep := map[], now;
    }

    method SeenBefore(key: string, now: int) returns (seen: bool)
      modifies this
      ensures View() == After(ttl, old(View()), Call(key, now))
      ensures seen <==> Seen(old(View()), Call(key, now))
    {
      if now - lastSweep > MINUTE {
        Sweep(now);
        lastSweep := now;
      }
      if key in items && now < items[key] {
        return true;
      }
      items := items[key := now + ttl];
      return false;
    }

    method Sweep(now: int)
      modifies `items
      ensures items == map k | k in old(items) && now <= old(items)[k] :: old(items)[k]
    {
      var keys := items.Keys;
      while keys != {}
        invariant keys <= items.Keys <= old(items).Keys
        invariant forall k :: k in items ==> items[k] == old(items)[k]
        invariant forall k :: k in old(items) && k !in keys ==> (k in items <==> now <= old(items)[k])
        decreases |keys|
      {
        var k :| k in keys;
        keys := keys - {k};
        if now > items[k] {
          items := items - {k};
        }
      }
    }
  }
}
