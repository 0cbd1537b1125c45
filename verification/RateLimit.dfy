/** The token-bucket limiter of pkg/middleware/ratelimit.go. Times are seconds; times and tokens are reals, so
    floating-point rounding is not modelled; a call of `Allow` and a round of `cleanup` are atomic. */
module RateLimit {
  datatype Bucket = Bucket(tokens: real, lastRefill: real, lastAccess: real)

  datatype Limits = Limits(rate: real, capacity: int, maxIdle: real)

  /** No more than fit into a bucket. */
  function Capped(l: Limits, tokens: real): real {
    if l.capacity as real < tokens then l.capacity as real else tokens
  }

  /** The tokens that come in from `since` to `now`. */
  function Earned(l: Limits, since: real, now: real): real {
    l.rate * (now - since)
  }

  /** The tokens of a bucket at time `now`. */
  function TokensAt(l: Limits, b: Bucket, now: real): real {
    Capped(l, b.tokens + Earned(l, b.lastRefill, now))
  }

  function Fresh(l: Limits, now: real): Bucket {
    Bucket(l.capacity as real, now, now)
  }

  function Found(l: Limits, m: map<string, Bucket>, key: string, now: real): Bucket {
    if key in m then m[key] else Fresh(l, now)
  }

  /** What a call with this key has to spend. */
  function Credit(l: Limits, m: map<string, Bucket>, key: string, now: real): real {
    TokensAt(l, Found(l, m, key, now), now)
  }

  function Touched(credit: real, now: real): Bucket {
    Bucket(if credit >= 1.0 then credit - 1.0 else credit, now, now)
  }

  datatype Event = Call(key: string, now: real) | Cleanup(now: real)

  /** The buckets after an event; without `sweep`, cleanup does nothing. */
  function After(l: Limits, m: map<string, Bucket>, e: Event, sweep: bool): map<string, Bucket> {
    match e
    case Call(key, now) => m[key := Touched(Credit(l, m, key, now), now)]
    case Cleanup(now) =>
      if sweep then map k | k in m && now - m[k].lastAccess <= l.maxIdle :: m[k] else m
  }

  function Answer(l: Limits, m: map<string, Bucket>, e: Event): seq<bool> {
    if e.Call? then [Credit(l, m, e.key, e.now) >= 1.0] else []
  }

  /** The answers to the calls among `events`. */
  function Answers(l: Limits, m: map<string, Bucket>, events: seq<Event>, sweep: bool): seq<bool>
    decreases |events|
  {
    if events == [] then []
    else Answer(l, m, events[0]) + Answers(l, After(l, m, events[0], sweep), events[1..], sweep)
  }

  function AfterAll(l: Limits, m: map<string, Bucket>, events: seq<Event>, sweep: bool): map<string, Bucket>
    decreases |events|
  {
    if events == [] then m else AfterAll(l, After(l, m, events[0], sweep), events[1..], sweep)
  }

  /** The clock does not go back, from `start` on. */
  predicate Ordered(events: seq<Event>, start: real)
    decreases |events|
  {
    events == [] || (start <= events[0].now && Ordered(events[1..], events[0].now))
  }

  /** The time of the last event. */
  function EndOf(events: seq<Event>, start: real): real
    decreases |events|
  {
    if events == [] then start else EndOf(events[1..], events[0].now)
  }

  // ---------- earning ----------

  lemma EarnedAdds(l: Limits, a: real, b: real, c: real)
    ensures Earned(l, a, c) == Earned(l, a, b) + Earned(l, b, c)
    ensures Earned(l, a, a) == 0.0
  {
  }

  lemma EarnedIsPositive(l: Limits, a: real, b: real)
    requires l.rate >= 0.0 && a <= b
    ensures Earned(l, a, b) >= 0.0
  {
  }

  // ---------- what every bucket satisfies ----------

  predicate Sound(l: Limits, b: Bucket, now: real) {
    0.0 <= b.tokens <= l.capacity as real && b.lastRefill == b.lastAccess <= now
  }

  ghost predicate AllSound(l: Limits, m: map<string, Bucket>, now: real) {
    forall k :: k in m ==> Sound(l, m[k], now)
  }

  /** What can be spent is never negative and never above the capacity. */
  lemma CreditIsBounded(l: Limits, m: map<string, Bucket>, key: string, now: real)
    requires l.rate >= 0.0 && l.capacity >= 0 && AllSound(l, m, now)
    ensures 0.0 <= Credit(l, m, key, now) <= l.capacity as real
  {
    hide Earned;
    assert l.capacity as real >= 0.0;
    EarnedIsPositive(l, Found(l, m, key, now).lastRefill, now);
  }

  lemma AfterIsSound(l: Limits, m: map<string, Bucket>, e: Event, sweep: bool, start: real)
    requires l.rate >= 0.0 && l.capacity >= 0 && AllSound(l, m, start) && start <= e.now
    ensures AllSound(l, After(l, m, e, sweep), e.now)
  {
    hide Credit;
    assert AllSound(l, m, e.now);
    if e.Call? {
      CreditIsBounded(l, m, e.key, e.now);
    }
  }

  lemma {:induction false} AfterAllIsSound(l: Limits, m: map<string, Bucket>, events: seq<Event>, sweep: bool,
                                           start: real)
    requires l.rate >= 0.0 && l.capacity >= 0 && AllSound(l, m, start) && Ordered(events, start)
    ensures AllSound(l, AfterAll(l, m, events, sweep), EndOf(events, start))
    decreases |events|
  {
    if events == [] {
    } else {
      hide After, AllSound;
      AfterIsSound(l, m, events[0], sweep, start);
      AfterAllIsSound(l, After(l, m, events[0], sweep), events[1..], sweep, events[0].now);
    }
  }

  // ---------- the rate bound ----------

  /** 1 when the event is a call with this key that is allowed. */
  function Grant(l: Limits, m: map<string, Bucket>, e: Event, key: string): nat {
    if e.Call? && e.key == key && Credit(l, m, key, e.now) >= 1.0 then 1 else 0
  }

  /** How many calls with this key are allowed. */
  function CountAllowed(l: Limits, m: map<string, Bucket>, events: seq<Event>, sweep: bool, key: string): nat
    decreases |events|
  {
    if events == [] then 0
    else Grant(l, m, events[0], key) + CountAllowed(l, After(l, m, events[0], sweep), events[1..], sweep, key)
  }

  lemma CreditLater(l: Limits, m: map<string, Bucket>, key: string, start: real, now: real)
    requires l.rate >= 0.0 && start <= now
    ensures Credit(l, m, key, now) <= Credit(l, m, key, start) + Earned(l, start, now)
  {
    hide Earned;
    EarnedIsPositive(l, start, now);
    EarnedAdds(l, now, now, now);
    EarnedAdds(l, start, start, start);
    if key in m {
      EarnedAdds(l, m[key].lastRefill, start, now);
    }
  }

  /** A call takes its token from what can be spent; nothing else does. */
  lemma CreditAfter(l: Limits, m: map<string, Bucket>, e: Event, key: string)
    ensures Credit(l, After(l, m, e, false), key, e.now) + Grant(l, m, e, key) as real <= Credit(l, m, key, e.now)
  {
    hide Earned;
    EarnedAdds(l, e.now, e.now, e.now);
  }

  /** Allowed calls are paid for by the tokens at the start and those earned since. */
  lemma {:induction false} AllowedArePaid(l: Limits, m: map<string, Bucket>, events: seq<Event>, key: string,
                                          start: real)
    requires l.rate >= 0.0 && l.capacity >= 0 && AllSound(l, m, start) && Ordered(events, start)
    ensures CountAllowed(l, m, events, false, key) as real
         <= Credit(l, m, key, start) + Earned(l, start, EndOf(events, start))
    decreases |events|
  {
    hide Credit, Earned, After, Grant, AllSound;
    if events == [] {
      CreditIsBounded(l, m, key, start);
      EarnedAdds(l, start, start, start);
    } else {
      var e, rest := events[0], events[1..];
      AfterIsSound(l, m, e, false, start);
      AllowedArePaid(l, After(l, m, e, false), rest, key, e.now);
      CreditLater(l, m, key, start, e.now);
      CreditAfter(l, m, e, key);
      EarnedAdds(l, start, e.now, EndOf(rest, e.now));
    }
  }

  // ---------- cleanup is invisible when idling refills ----------

  /** A bucket is full again by `now`. */
  predicate Full(l: Limits, b: Bucket, now: real) {
    b.lastRefill <= now && b.tokens + Earned(l, b.lastRefill, now) >= l.capacity as real
  }

  /** The sweeping limiter's buckets against those of one that never deletes: the same, or deleted and full by now. */
  ghost predicate Same(l: Limits, swept: map<string, Bucket>, kept: map<string, Bucket>, now: real) {
    && (forall k :: k in swept ==> k in kept && swept[k] == kept[k])
    && (forall k :: k in kept && k !in swept ==> Full(l, kept[k], now))
  }

  lemma SameLater(l: Limits, swept: map<string, Bucket>, kept: map<string, Bucket>, now: real, later: real)
    requires l.rate >= 0.0 && Same(l, swept, kept, now) && now <= later
    ensures Same(l, swept, kept, later)
  {
    forall k | k in kept && k !in swept
      ensures Full(l, kept[k], later)
    {
      hide Earned;
      EarnedAdds(l, kept[k].lastRefill, now, later);
      EarnedIsPositive(l, now, later);
    }
  }

  lemma SameCredit(l: Limits, swept: map<string, Bucket>, kept: map<string, Bucket>, key: string, now: real)
    requires Same(l, swept, kept, now)
    ensures Credit(l, swept, key, now) == Credit(l, kept, key, now)
  {
    hide Earned;
    EarnedAdds(l, now, now, now);
  }

  /** A bucket idle for longer than the limit has earned its capacity. */
  lemma IdleIsFull(l: Limits, b: Bucket, now: real)
    requires l.rate >= 0.0 && Earned(l, 0.0, l.maxIdle) >= l.capacity as real
    requires Sound(l, b, now) && now - b.lastAccess > l.maxIdle
    ensures Full(l, b, now)
  {
    var idle := now - b.lastRefill;
    assert Earned(l, 0.0, idle) == Earned(l, b.lastRefill, now);
    hide Earned;
    EarnedAdds(l, 0.0, l.maxIdle, idle);
    EarnedIsPositive(l, l.maxIdle, idle);
  }

  lemma SameAfterCleanup(l: Limits, swept: map<string, Bucket>, kept: map<string, Bucket>, now: real)
    requires l.rate >= 0.0 && Earned(l, 0.0, l.maxIdle) >= l.capacity as real
    requires AllSound(l, kept, now) && Same(l, swept, kept, now)
    ensures Same(l, After(l, swept, Cleanup(now), true), kept, now)
  {
    hide Earned, Full;
    forall k | k in swept && k !in After(l, swept, Cleanup(now), true)
      ensures Full(l, kept[k], now)
    {
      IdleIsFull(l, kept[k], now);
    }
  }

  lemma SameAfter(l: Limits, swept: map<string, Bucket>, kept: map<string, Bucket>, e: Event)
    requires l.rate >= 0.0 && Earned(l, 0.0, l.maxIdle) >= l.capacity as real
    requires AllSound(l, kept, e.now) && Same(l, swept, kept, e.now)
    ensures Same(l, After(l, swept, e, true), After(l, kept, e, false), e.now)
    ensures Answer(l, swept, e) == Answer(l, kept, e)
    ensures forall key :: Grant(l, swept, e, key) == Grant(l, kept, e, key)
  {
    hide Earned, Credit, Full, Touched;
    if e.Call? {
      SameCredit(l, swept, kept, e.key, e.now);
    } else {
      SameAfterCleanup(l, swept, kept, e.now);
    }
  }

  lemma {:induction false} SameAnswers(l: Limits, swept: map<string, Bucket>, kept: map<string, Bucket>,
                                       events: seq<Event>, start: real)
    requires l.rate >= 0.0 && l.capacity >= 0 && Earned(l, 0.0, l.maxIdle) >= l.capacity as real
    requires AllSound(l, kept, start) && Same(l, swept, kept, start) && Ordered(events, start)
    ensures Answers(l, swept, events, true) == Answers(l, kept, events, false)
    ensures forall key :: CountAllowed(l, swept, events, true, key) == CountAllowed(l, kept, events, false, key)
    ensures Same(l, AfterAll(l, swept, events, true), AfterAll(l, kept, events, false), EndOf(events, start))
    decreases |events|
  {
    hide Earned, After, Answer, Grant, Same;
    if events == [] {
    } else {
      var e := events[0];
      SameLater(l, swept, kept, start, e.now);
      SameAfter(l, swept, kept, e);
      AfterIsSound(l, kept, e, false, start);
      SameAnswers(l, After(l, swept, e, true), After(l, kept, e, false), events[1..], e.now);
    }
  }

  /** The rate bound, cleanup included: after any history, the calls of a key allowed in any later window number at
      most the capacity plus the rate times the length of the window. */
  lemma RateBound(l: Limits, past: seq<Event>, window: seq<Event>, key: string, from: real)
    requires l.rate >= 0.0 && l.capacity >= 0 && l.rate * l.maxIdle >= l.capacity as real
    requires Ordered(past, 0.0) && EndOf(past, 0.0) <= from && Ordered(window, from)
    ensures CountAllowed(l, AfterAll(l, map[], past, true), window, true, key) as real
         <= l.capacity as real + l.rate * (EndOf(window, from) - from)
  {
    var end, swept, kept := EndOf(past, 0.0), AfterAll(l, map[], past, true), AfterAll(l, map[], past, false);
    assert AllSound(l, map[], 0.0) && Same(l, map[], map[], 0.0);
    assert l.rate * l.maxIdle == Earned(l, 0.0, l.maxIdle);
    assert l.rate * (EndOf(window, from) - from) == Earned(l, from, EndOf(window, from));
    hide Earned, Credit, Same, Answers, CountAllowed, AfterAll;
    SameAnswers(l, map[], map[], past, 0.0);
    AfterAllIsSound(l, map[], past, false, 0.0);
    SameLater(l, swept, kept, end, from);
    SameAnswers(l, swept, kept, window, from);
    AllowedArePaid(l, kept, window, key, from);
    CreditIsBounded(l, kept, key, from);
  }

  // ---------- and only then ----------

  /** `n` calls with one key at one instant. */
  function Burst(key: string, now: real, n: nat): seq<Event> {
    if n == 0 then [] else [Call(key, now)] + Burst(key, now, n - 1)
  }

  function AllTrue(n: nat): seq<bool> {
    if n == 0 then [] else [true] + AllTrue(n - 1)
  }

  /** A burst is let through whole exactly when the tokens cover it. */
  lemma {:induction false} BurstExactly(l: Limits, m: map<string, Bucket>, key: string, now: real, n: nat, sweep: bool)
    requires n > 0
    ensures Answers(l, m, Burst(key, now, n), sweep) == AllTrue(n) <==> n as real <= Credit(l, m, key, now)
    ensures n as real <= Credit(l, m, key, now) ==>
              var after := AfterAll(l, m, Burst(key, now, n), sweep);
              key in after && after[key] == Bucket(Credit(l, m, key, now) - n as real, now, now)
    decreases n
  {
    hide TokensAt;
    var e, rest := Call(key, now), Burst(key, now, n - 1);
    var m' := After(l, m, e, sweep);
    assert Burst(key, now, n)[0] == e && Burst(key, now, n)[1..] == rest;
    TouchedCredit(l, m, key, now, sweep);
    if n == 1 {
      assert AllTrue(1) == [true] + AllTrue(0) == [true];
      assert rest == [];
      assert Answers(l, m, Burst(key, now, n), sweep) == Answer(l, m, e) == [Credit(l, m, key, now) >= 1.0];
      assert Answers(l, m, Burst(key, now, n), sweep)[0] == (Credit(l, m, key, now) >= 1.0);
    } else {
      BurstExactly(l, m', key, now, n - 1, sweep);
      FirstAnswer(Answer(l, m, e)[0], Answers(l, m', rest, sweep), n);
    }
  }

  lemma FirstAnswer(a: bool, rest: seq<bool>, n: nat)
    requires n > 0
    ensures [a] + rest == AllTrue(n) <==> a && rest == AllTrue(n - 1)
  {
    assert ([a] + rest)[0] == a && ([a] + rest)[1..] == rest;
    assert AllTrue(n)[0] == true && AllTrue(n)[1..] == AllTrue(n - 1);
  }

  lemma TouchedCredit(l: Limits, m: map<string, Bucket>, key: string, now: real, sweep: bool)
    ensures var credit, m' := Credit(l, m, key, now), After(l, m, Call(key, now), sweep);
            Credit(l, m', key, now) == (if credit >= 1.0 then credit - 1.0 else credit)
  {
    hide Earned;
    EarnedAdds(l, now, now, now);
  }

  lemma {:induction false} AnswersAppend(l: Limits, m: map<string, Bucket>, a: seq<Event>, b: seq<Event>, sweep: bool)
    ensures Answers(l, m, a + b, sweep) == Answers(l, m, a, sweep) + Answers(l, AfterAll(l, m, a, sweep), b, sweep)
    decreases |a|
  {
    hide After, Answer;
    if a == [] {
      assert a + b == b;
    } else {
      assert (a + b)[0] == a[0] && (a + b)[1..] == a[1..] + b;
      AnswersAppend(l, After(l, m, a[0], sweep), a[1..], b, sweep);
    }
  }

  lemma {:induction false} OrderedAppend(a: seq<Event>, b: seq<Event>, start: real)
    requires Ordered(a, start) && Ordered(b, EndOf(a, start))
    ensures Ordered(a + b, start)
    decreases |a|
  {
    if a == [] {
      assert a + b == b;
    } else {
      assert (a + b)[0] == a[0] && (a + b)[1..] == a[1..] + b;
      OrderedAppend(a[1..], b, a[0].now);
    }
  }

  lemma {:induction false} BurstIsOrdered(key: string, now: real, n: nat, start: real)
    requires start <= now
    ensures Ordered(Burst(key, now, n), start) && EndOf(Burst(key, now, n), start) == (if n == 0 then start else now)
    decreases n
  {
    if n == 0 {
    } else {
      assert Burst(key, now, n)[1..] == Burst(key, now, n - 1);
      BurstIsOrdered(key, now, n - 1, now);
    }
  }

  /** Spend everything, be forgotten, and spend again: the history that tells the two limiters apart. */
  function Respend(l: Limits, gap: real): seq<Event>
    requires l.capacity > 0
  {
    Burst("k", 0.0, l.capacity) + ([Cleanup(gap)] + Burst("k", gap, l.capacity))
  }

  /** What the limiter answers to that history. */
  lemma RespendAnswers(l: Limits, gap: real, sweep: bool)
    requires l.capacity > 0 && 0.0 <= gap && l.maxIdle < gap && l.rate >= 0.0 && l.rate * gap < l.capacity as real
    ensures Answers(l, map[], Respend(l, gap), sweep) == AllTrue(l.capacity) + AllTrue(l.capacity) <==> sweep
  {
    var n := l.capacity;
    var first, again := Burst("k", 0.0, n), Burst("k", gap, n);
    EarnedAdds(l, 0.0, 0.0, 0.0);
    BurstExactly(l, map[], "k", 0.0, n, sweep);
    var m := AfterAll(l, map[], first, sweep);
    var m' := After(l, m, Cleanup(gap), sweep);
    RespendCredit(l, gap, m, sweep);
    BurstExactly(l, m', "k", gap, n, sweep);
    hide Earned, Credit, After, Burst;
    AnswersAppend(l, map[], first, [Cleanup(gap)] + again, sweep);
    assert ([Cleanup(gap)] + again)[1..] == again;
    var tail := Answers(l, m', again, sweep);
    assert Answers(l, m, [Cleanup(gap)] + again, sweep) == [] + tail == tail;
    assert AllTrue(n) + tail == AllTrue(n) + AllTrue(n) <==> tail == AllTrue(n) by {
      assert (AllTrue(n) + tail)[|AllTrue(n)|..] == tail;
      assert (AllTrue(n) + AllTrue(n))[|AllTrue(n)|..] == AllTrue(n);
    }
  }

  lemma RespendCredit(l: Limits, gap: real, m: map<string, Bucket>, sweep: bool)
    requires l.maxIdle < gap && l.rate >= 0.0 && l.rate * gap < l.capacity as real
    requires "k" in m && m["k"] == Bucket(0.0, 0.0, 0.0)
    ensures Credit(l, After(l, m, Cleanup(gap), sweep), "k", gap) >= l.capacity as real <==> sweep
  {
    EarnedAdds(l, gap, gap, gap);
    assert Earned(l, 0.0, gap) == l.rate * gap;
  }

  /** No window of any run lets more calls of a key through than the capacity and what is earned in the window. */
  ghost predicate Bounded(l: Limits) {
    forall past: seq<Event>, window: seq<Event>, key: string, from: real ::
      Ordered(past, 0.0) && EndOf(past, 0.0) <= from && Ordered(window, from) ==>
        CountAllowed(l, AfterAll(l, map[], past, true), window, true, key) as real
          <= l.capacity as real + l.rate * (EndOf(window, from) - from)
  }

  /** `n` calls that are all allowed count as `n`. */
  lemma {:induction false} CountBurst(l: Limits, m: map<string, Bucket>, key: string, now: real, n: nat,
                                      rest: seq<Event>)
    requires n as real <= Credit(l, m, key, now)
    ensures CountAllowed(l, m, Burst(key, now, n) + rest, true, key)
         == n + CountAllowed(l, AfterAll(l, m, Burst(key, now, n), true), rest, true, key)
    decreases n
  {
    hide TokensAt;
    var burst := Burst(key, now, n);
    if n == 0 {
      assert burst + rest == rest;
    } else {
      var m' := After(l, m, Call(key, now), true);
      assert burst[0] == Call(key, now) && burst[1..] == Burst(key, now, n - 1);
      assert (burst + rest)[0] == Call(key, now) && (burst + rest)[1..] == Burst(key, now, n - 1) + rest;
      TouchedCredit(l, m, key, now, true);
      CountBurst(l, m', key, now, n - 1, rest);
    }
  }

  /** Spending twice with a cleanup in between lets twice the capacity through. */
  lemma RespendCounts(l: Limits, gap: real)
    requires l.capacity > 0 && 0.0 <= gap && l.maxIdle < gap
    ensures CountAllowed(l, map[], Respend(l, gap), true, "k") == 2 * l.capacity
  {
    var n := l.capacity;
    var first, again := Burst("k", 0.0, n), Burst("k", gap, n);
    EarnedAdds(l, 0.0, 0.0, 0.0);
    EarnedAdds(l, gap, gap, gap);
    BurstExactly(l, map[], "k", 0.0, n, true);
    CountBurst(l, map[], "k", 0.0, n, [Cleanup(gap)] + again);
    var m := AfterAll(l, map[], first, true);
    var m' := After(l, m, Cleanup(gap), true);
    assert "k" !in m';
    assert Credit(l, m', "k", gap) == n as real;
    CountBurst(l, m', "k", gap, n, []);
    assert again + [] == again;
    assert ([Cleanup(gap)] + again)[1..] == again;
  }

  lemma {:induction false} EndOfAppend(a: seq<Event>, b: seq<Event>, start: real)
    ensures EndOf(a + b, start) == EndOf(b, EndOf(a, start))
    decreases |a|
  {
    if a == [] {
      assert a + b == b;
    } else {
      assert (a + b)[0] == a[0] && (a + b)[1..] == a[1..] + b;
      EndOfAppend(a[1..], b, a[0].now);
    }
  }

  lemma RespendEnds(l: Limits, gap: real)
    requires l.capacity > 0 && 0.0 <= gap
    ensures EndOf(Respend(l, gap), 0.0) == gap
  {
    var first, again := Burst("k", 0.0, l.capacity), Burst("k", gap, l.capacity);
    EndOfAppend(first, [Cleanup(gap)] + again, 0.0);
    assert ([Cleanup(gap)] + again)[1..] == again;
    BurstIsOrdered("k", gap, l.capacity, gap);
  }

  lemma BoundWithoutCapacity(l: Limits)
    requires l.rate >= 0.0 && l.capacity == 0
    ensures Bounded(l)
  {
    hide CountAllowed, AfterAll, EndOf, Ordered;
    forall past: seq<Event>, window: seq<Event>, key: string, from: real | Ordered(window, from)
      ensures CountAllowed(l, AfterAll(l, map[], past, true), window, true, key) as real
           <= l.capacity as real + l.rate * (EndOf(window, from) - from)
    {
      NothingCounts(l, AfterAll(l, map[], past, true), window, key);
      EndIsLater(window, from);
      EarnedIsPositive(l, from, EndOf(window, from));
    }
  }

  lemma BoundWhenRefilled(l: Limits)
    requires l.rate >= 0.0 && l.capacity >= 0 && l.rate * l.maxIdle >= l.capacity as real
    ensures Bounded(l)
  {
    hide CountAllowed, AfterAll, Ordered, EndOf;
    forall past: seq<Event>, window: seq<Event>, key: string, from: real |
      Ordered(past, 0.0) && EndOf(past, 0.0) <= from && Ordered(window, from)
      ensures CountAllowed(l, AfterAll(l, map[], past, true), window, true, key) as real
           <= l.capacity as real + l.rate * (EndOf(window, from) - from)
    {
      RateBound(l, past, window, key, from);
    }
  }

  lemma NoBoundOtherwise(l: Limits)
    requires l.rate >= 0.0 && l.capacity >= 1 && l.rate * l.maxIdle < l.capacity as real
    ensures !Bounded(l)
  {
    var gap := GapExists(l);
    var past: seq<Event>, window := [], Respend(l, gap);
    RespendCounts(l, gap);
    RespendEnds(l, gap);
    RespendIsOrdered(l, gap);
    assert AfterAll(l, map[], past, true) == map[];
    assert Ordered(past, 0.0) && EndOf(past, 0.0) <= 0.0 && Ordered(window, 0.0);
    hide CountAllowed, AfterAll, Ordered, EndOf, Respend;
    var allowed := CountAllowed(l, AfterAll(l, map[], past, true), window, true, "k");
    assert allowed == 2 * l.capacity;
    assert EndOf(window, 0.0) - 0.0 == gap;
    assert allowed as real > l.capacity as real + l.rate * gap;
  }

  /** The rate bound holds in all windows of all runs if and only if a bucket refills while it idles, or can never
      allow anything. */
  lemma RateBoundExactly(l: Limits)
    requires l.rate >= 0.0 && l.capacity >= 0
    ensures Bounded(l) <==> l.capacity < 1 || l.rate * l.maxIdle >= l.capacity as real
  {
    hide Bounded;
    if l.capacity < 1 {
      BoundWithoutCapacity(l);
    } else if l.rate * l.maxIdle >= l.capacity as real {
      BoundWhenRefilled(l);
    } else {
      NoBoundOtherwise(l);
    }
  }

  lemma {:induction false} NothingCounts(l: Limits, m: map<string, Bucket>, events: seq<Event>, key: string)
    requires l.capacity < 1
    ensures CountAllowed(l, m, events, true, key) == 0
    decreases |events|
  {
    if events == [] {
    } else {
      NothingCounts(l, After(l, m, events[0], true), events[1..], key);
    }
  }

  lemma {:induction false} EndIsLater(events: seq<Event>, start: real)
    requires Ordered(events, start)
    ensures start <= EndOf(events, start)
    decreases |events|
  {
    if events == [] {
    } else {
      EndIsLater(events[1..], events[0].now);
    }
  }

  /** Cleanup shows in no run from the start. */
  ghost predicate Invisible(l: Limits) {
    forall events: seq<Event> :: Ordered(events, 0.0) ==>
      Answers(l, map[], events, true) == Answers(l, map[], events, false)
  }

  /** A time that is too long to be remembered and too short to refill. */
  lemma GapExists(l: Limits) returns (gap: real)
    requires l.rate >= 0.0 && l.capacity >= 1 && l.rate * l.maxIdle < l.capacity as real
    ensures 0.0 <= gap && l.maxIdle < gap && l.rate * gap < l.capacity as real
  {
    if l.maxIdle < 0.0 {
      gap := 0.0;
    } else {
      var missing := l.capacity as real - l.rate * l.maxIdle;
      var more := missing / (l.rate + 1.0);
      gap := l.maxIdle + more;
      assert more * (l.rate + 1.0) == missing;
      assert l.rate * gap == l.rate * l.maxIdle + l.rate * more;
      assert more > 0.0;
    }
  }

  lemma {:induction false} NothingIsAllowed(l: Limits, m: map<string, Bucket>, n: map<string, Bucket>,
                                            events: seq<Event>)
    requires l.capacity < 1
    ensures Answers(l, m, events, true) == Answers(l, n, events, false)
    decreases |events|
  {
    if events == [] {
    } else {
      NothingIsAllowed(l, After(l, m, events[0], true), After(l, n, events[0], false), events[1..]);
    }
  }

  /** Cleanup shows in no run if and only if a bucket refills while it idles, or can never allow anything. */
  lemma InvisibleExactly(l: Limits)
    requires l.rate >= 0.0
    ensures Invisible(l) <==> l.capacity < 1 || l.rate * l.maxIdle >= l.capacity as real
  {
    if l.capacity < 1 {
      forall events: seq<Event> | Ordered(events, 0.0)
        ensures Answers(l, map[], events, true) == Answers(l, map[], events, false)
      {
        NothingIsAllowed(l, map[], map[], events);
      }
    } else if l.rate * l.maxIdle >= l.capacity as real {
      assert Same(l, map[], map[], 0.0);
      forall events: seq<Event> | Ordered(events, 0.0)
        ensures Answers(l, map[], events, true) == Answers(l, map[], events, false)
      {
        SameAnswers(l, map[], map[], events, 0.0);
      }
    } else {
      var gap := GapExists(l);
      hide Answers, Earned, Burst;
      RespendAnswers(l, gap, true);
      RespendAnswers(l, gap, false);
      RespendIsOrdered(l, gap);
      assert Ordered(Respend(l, gap), 0.0);
    }
  }

  lemma RespendIsOrdered(l: Limits, gap: real)
    requires l.capacity > 0 && 0.0 <= gap
    ensures Ordered(Respend(l, gap), 0.0)
  {
    var rest := [Cleanup(gap)] + Burst("k", gap, l.capacity);
    BurstIsOrdered("k", 0.0, l.capacity, 0.0);
    BurstIsOrdered("k", gap, l.capacity, gap);
    assert rest[1..] == Burst("k", gap, l.capacity);
    OrderedAppend(Burst("k", 0.0, l.capacity), rest, 0.0);
  }

  // ---------- the limiter object ----------

  class TokenBucket {
    var tokens: real
    var lastRefill: real
    var lastAccess: real

    ghost function View(): Bucket
      reads this
    {
      Bucket(tokens, lastRefill, lastAccess)
    }

    constructor (tokens: real, now: real)
      ensures View() == Bucket(tokens, now, now)
    {
      this.tokens, lastRefill, lastAccess := tokens, now, now;
    }

    /** The refill and the spending in `Allow`. */
    method Take(limits: Limits, now: real) returns (ok: bool)
      modifies this
      ensures View() == Touched(TokensAt(limits, old(View()), now), now)
      ensures ok <==> TokensAt(limits, old(View()), now) >= 1.0
    {
      hide Earned;
      var added := Earned(limits, lastRefill, now);
      tokens := Capped(limits, tokens + added);
      lastRefill := now;
      lastAccess := now;
      ok := tokens >= 1.0;
      if ok {
        tokens := tokens - 1.0;
      }
    }
  }

  class RateLimiter {
    const limits: Limits
    var buckets: map<string, TokenBucket>

    ghost function Repr(): set<TokenBucket>
      reads `buckets
    {
      set k | k in buckets :: buckets[k]
    }

    /** No two keys share a bucket. */
    ghost predicate Valid()
      reads `buckets
    {
      forall j, k :: j in buckets && k in buckets && buckets[j] == buckets[k] ==> j == k
    }

    ghost function View(): map<string, Bucket>
      reads `buckets, Repr()
    {
      map k | k in buckets :: buckets[k].View()
    }

    constructor (limits: Limits)
      ensures Valid() && this.limits == limits && View() == map[]
    {
      this.limits, buckets := limits, map[];
    }

    method GetBucket(key: string, now: real) returns (bucket: TokenBucket)
      requires Valid()
      modifies `buckets
      ensures Valid() && key in buckets && buckets[key] == bucket
      ensures fresh(Repr() - old(Repr()))
      ensures View() == old(View())[key := Found(limits, old(View()), key, now)]
    {
      if key !in buckets {
        bucket := new TokenBucket(limits.capacity as real, now);
        buckets := buckets[key := bucket];
      } else {
        bucket := buckets[key];
      }
    }

    method Allow(key: string, now: real) returns (ok: bool)
      requires Valid()
      modifies `buckets, Repr()
      ensures Valid() && fresh(Repr() - old(Repr()))
      ensures View() == After(limits, old(View()), Call(key, now), true)
      ensures [ok] == Answer(limits, old(View()), Call(key, now))
    {
      hide TokensAt, Touched, Fresh;
      var bucket := GetBucket(key, now);
      assert bucket.View() == View()[key];
      ok := bucket.Take(limits, now);
    }

    /** One round of the cleanup loop. */
    method Cleanup(now: real)
      requires Valid()
      modifies `buckets
      ensures Valid() && Repr() <= old(Repr())
      ensures View() == After(limits, old(View()), Event.Cleanup(now), true)
    {
      var keys := buckets.Keys;
      while keys != {}
        invariant Valid() && keys <= buckets.Keys <= old(buckets).Keys
        invariant forall k :: k in buckets ==> buckets[k] == old(buckets)[k]
        invariant forall k :: k in old(buckets) && k !in keys ==>
          (k in buckets <==> now - old(buckets)[k].lastAccess <= limits.maxIdle)
        decreases |keys|
      {
        var key :| key in keys;
        keys := keys - {key};
        if now - buckets[key].lastAccess > limits.maxIdle {
          buckets := buckets - {key};
        }
      }
    }
  }
}
