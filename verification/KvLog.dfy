/** The write-ahead log and the snapshot of pkg/store/kv/kv.go as values: a journal of the logged changes, with
    the log channel, the log file and the snapshot file as sequences and maps of records. */
module KvLog {
  import opened Wrappers

  type Value = seq<bv8>

  /** What is kept of an entry on disk; `expireAt == None` is the zero time. */
  datatype Rec = Rec(value: Value, expireAt: Option<int>, version: nat)

  type View = map<string, Rec>

  datatype WalEntry = SetEntry(key: string, rec: Rec) | DeleteEntry(key: string, version: nat)

  const LOG_CAPACITY := 1000

  function Find<T>(m: map<string, T>, key: string): Option<T> {
    if key in m then Some(m[key]) else None
  }

  function Apply(m: View, e: WalEntry): View {
    match e
    case SetEntry(key, rec) => m[key := rec]
    case DeleteEntry(key, _) => m - {key}
  }

  /** Replays `log` on top of `m`. */
  function Replay(m: View, log: seq<WalEntry>): View {
    if log == [] then m else Apply(Replay(m, log[..|log| - 1]), log[|log| - 1])
  }

  /** `Get`'s test: an entry is expired strictly after its expiry time. */
  predicate Expired(rec: Rec, now: int) {
    rec.expireAt.Some? && now > rec.expireAt.value
  }

  /** What `Get` can see at time `now`. */
  function Visible(m: View, now: int): View {
    map k | k in m && !Expired(m[k], now) :: m[k]
  }

  /** The test of `Snapshot` and `Keys`, which already drops an entry at its very expiry time. */
  function Unexpired(m: View, now: int): View {
    map k | k in m && (m[k].expireAt.None? || now < m[k].expireAt.value) :: m[k]
  }

  // ---------- replay, key by key ----------

  /** What the last entry for `key` makes of it, or what was there before. */
  function LastEffect(before: Option<Rec>, log: seq<WalEntry>, key: string): Option<Rec> {
    if log == [] then before
    else if log[|log| - 1].key != key then LastEffect(before, log[..|log| - 1], key)
    else if log[|log| - 1].SetEntry? then Some(log[|log| - 1].rec)
    else None
  }

  predicate Mentions(log: seq<WalEntry>, key: string) {
    exists i :: 0 <= i < |log| && log[i].key == key
  }

  lemma {:induction false} ReplayPerKey(m: View, log: seq<WalEntry>, key: string)
    ensures Find(Replay(m, log), key) == LastEffect(Find(m, key), log, key)
  {
    if log == [] {
    } else {
      ReplayPerKey(m, log[..|log| - 1], key);
    }
  }

  lemma {:induction false} EffectIsTheLogs(b: Option<Rec>, b': Option<Rec>, log: seq<WalEntry>, key: string)
    ensures Mentions(log, key) ==> LastEffect(b, log, key) == LastEffect(b', log, key)
    ensures !Mentions(log, key) ==> LastEffect(b, log, key) == b
  {
    if log == [] {
    } else {
      var init := log[..|log| - 1];
      EffectIsTheLogs(b, b', init, key);
      assert Mentions(init, key) ==> Mentions(log, key);
      assert log[|log| - 1].key == key ==> Mentions(log, key);
      if Mentions(log, key) && log[|log| - 1].key != key {
        var i :| 0 <= i < |log| && log[i].key == key;
        assert init[i] == log[i];
      }
    }
  }

  lemma {:induction false} EffectOfSuffix(b: Option<Rec>, log: seq<WalEntry>, i: nat, key: string)
    requires i <= |log|
    ensures LastEffect(b, log, key) == LastEffect(LastEffect(b, log[..i], key), log[i..], key)
  {
    if i < |log| {
      var init, last := log[..|log| - 1], log[|log| - 1];
      EffectOfSuffix(b, init, i, key);
      assert init[..i] == log[..i] && log[i..][..|log| - i - 1] == init[i..] && log[i..][|log| - i - 1] == last;
    } else {
      assert log[..i] == log;
    }
  }

  lemma SameView(a: View, b: View)
    requires forall k :: Find(a, k) == Find(b, k)
    ensures a == b
  {
    forall k
      ensures k in a <==> k in b
      ensures k in a ==> a[k] == b[k]
    {
      assert Find(a, k) == Find(b, k);
    }
  }

  // ---------- the journal ----------

  /** `view` is the store in memory, `chan` the log channel, `wal` the log file (with its write buffer),
      `snapshot` the snapshot file, `since` the time of the last snapshot taken since the store was opened and
      `dropped` the number of log entries that found the channel full since the files last had all there was. */
  datatype Journal = Journal(
    view: View, chan: seq<WalEntry>, wal: seq<WalEntry>, snapshot: View, since: Option<int>, dropped: nat)

  /** A store opened on files: snapshot loaded, then log replayed. */
  function Open(snapshot: View, wal: seq<WalEntry>): Journal {
    Journal(Replay(snapshot, wal), [], wal, snapshot, None, 0)
  }

  /** A change to the store without a log entry, as in a read-only store. */
  function Change(j: Journal, e: WalEntry): Journal {
    j.(view := Apply(j.view, e), dropped := j.dropped + 1)
  }

  /** One change to the store together with its log entry; `logSet` and `logDelete` drop the entry when the
      channel is full. */
  function Log(j: Journal, e: WalEntry): Journal {
    if |j.chan| < LOG_CAPACITY then j.(view := Apply(j.view, e), chan := j.chan + [e]) else Change(j, e)
  }

  /** The log writer moves one entry from the channel to the file. */
  function Write(j: Journal): Journal
    requires j.chan != []
  {
    j.(chan := j.chan[1..], wal := j.wal + [j.chan[0]])
  }

  /** The entries in the channel only repeat what memory shows. */
  predicate Settled(view: View, chan: seq<WalEntry>) {
    Replay(view, chan) == view
  }

  /** `Snapshot`, with no change to the store while it runs: the unexpired entries go to the snapshot file and the
      log file is emptied, but entries still in the channel stay there. If these only repeat what memory shows, what
      was dropped before does not matter any more. */
  function TakeSnapshot(j: Journal, now: int): Journal {
    j.(snapshot := Unexpired(j.view, now), wal := [], since := Some(now),
       dropped := if Settled(j.view, j.chan) then 0 else j.dropped)
  }

  /** What a restart would load from the files once the channel has been written out. */
  function Recovered(j: Journal): View {
    Replay(j.snapshot, j.wal + j.chan)
  }

  /** As long as nothing was dropped: the channel only repeats what memory shows; without a snapshot since opening
      recovery gives exactly the store, and after one it gives what the store shows at every later time. */
  ghost predicate Recoverable(j: Journal) {
    j.dropped == 0 ==>
      && Settled(j.view, j.chan)
      && (j.since.None? ==> Recovered(j) == j.view)
      && (j.since.Some? ==> forall t :: t > j.since.value ==> Visible(Recovered(j), t) == Visible(j.view, t))
  }

  lemma OpenIsRecoverable(snapshot: View, wal: seq<WalEntry>)
    ensures Recoverable(Open(snapshot, wal))
  {
    assert wal + [] == wal;
  }

  lemma ReplayAppend(m: View, log: seq<WalEntry>, e: WalEntry)
    ensures Replay(m, log + [e]) == Apply(Replay(m, log), e)
  {
    assert (log + [e])[..|log|] == log;
  }

  lemma VisibleApply(a: View, b: View, e: WalEntry, t: int)
    requires Visible(a, t) == Visible(b, t)
    ensures Visible(Apply(a, e), t) == Visible(Apply(b, e), t)
  {
    forall k
      ensures Find(Visible(Apply(a, e), t), k) == Find(Visible(Apply(b, e), t), k)
    {
      assert Find(Visible(a, t), k) == Find(Visible(b, t), k);
    }
    SameView(Visible(Apply(a, e), t), Visible(Apply(b, e), t));
  }

  lemma LogKeepsRecoverable(j: Journal, e: WalEntry)
    requires Recoverable(j)
    ensures Recoverable(Log(j, e))
  {
    if |j.chan| < LOG_CAPACITY && j.dropped == 0 {
      var view' := Apply(j.view, e);
      forall k
        ensures Find(Replay(view', j.chan + [e]), k) == Find(view', k)
      {
        ReplayAppend(view', j.chan, e);
        ReplayPerKey(view', j.chan, k);
        ReplayPerKey(j.view, j.chan, k);
      }
      SameView(Replay(view', j.chan + [e]), view');
      assert j.wal + (j.chan + [e]) == (j.wal + j.chan) + [e];
      ReplayAppend(j.snapshot, j.wal + j.chan, e);
      if j.since.Some? {
        forall t | t > j.since.value
          ensures Visible(Recovered(Log(j, e)), t) == Visible(view', t)
        {
          VisibleApply(Recovered(j), j.view, e, t);
        }
      }
    }
  }

  /** Any suffix of entries that memory already shows is itself shown. */
  lemma SuffixIsSettled(m: View, log: seq<WalEntry>, i: nat)
    requires Replay(m, log) == m && i <= |log|
    ensures Replay(m, log[i..]) == m
  {
    forall k
      ensures Find(Replay(m, log[i..]), k) == Find(m, k)
    {
      ReplayPerKey(m, log[i..], k);
      ReplayPerKey(m, log, k);
      EffectOfSuffix(Find(m, k), log, i, k);
      EffectIsTheLogs(Find(m, k), LastEffect(Find(m, k), log[..i], k), log[i..], k);
    }
    SameView(Replay(m, log[i..]), m);
  }

  lemma WriteKeepsRecoverable(j: Journal)
    requires Recoverable(j) && j.chan != []
    ensures Recoverable(Write(j))
  {
    if j.dropped == 0 {
      SuffixIsSettled(j.view, j.chan, 1);
      assert j.wal + j.chan == (j.wal + [j.chan[0]]) + j.chan[1..];
    }
  }

  /** A snapshot taken while the channel only repeats what memory shows, for example while it is empty, makes the files
      tell the store, whatever was dropped before. */
  lemma SnapshotRestores(j: Journal, now: int)
    requires Settled(j.view, j.chan)
    ensures TakeSnapshot(j, now).dropped == 0 && Recoverable(TakeSnapshot(j, now))
  {
    assert [] + j.chan == j.chan;
    var snapshot := Unexpired(j.view, now);
    forall t | t > now
      ensures Visible(Replay(snapshot, j.chan), t) == Visible(j.view, t)
    {
      forall k
        ensures Find(Visible(Replay(snapshot, j.chan), t), k) == Find(Visible(j.view, t), k)
      {
        ReplayPerKey(snapshot, j.chan, k);
        ReplayPerKey(j.view, j.chan, k);
        EffectIsTheLogs(Find(snapshot, k), Find(j.view, k), j.chan, k);
      }
      SameView(Visible(Replay(snapshot, j.chan), t), Visible(j.view, t));
    }
  }

  /** Entries still in the channel when the snapshot was taken do no harm. */
  lemma SnapshotKeepsRecoverable(j: Journal, now: int)
    requires Recoverable(j)
    ensures Recoverable(TakeSnapshot(j, now))
  {
    if TakeSnapshot(j, now).dropped == 0 {
      SnapshotRestores(j, now);
    }
  }

  // ---------- whole runs ----------

  datatype Step = ChangeStep(e: WalEntry) | LogStep(e: WalEntry) | WriteStep | SnapshotStep(now: int)

  function Do(j: Journal, s: Step): Journal {
    match s
    case ChangeStep(e) => Change(j, e)
    case LogStep(e) => Log(j, e)
    case WriteStep => if j.chan == [] then j else Write(j)
    case SnapshotStep(now) => TakeSnapshot(j, now)
  }

  function Run(j: Journal, steps: seq<Step>): Journal
    decreases |steps|
  {
    if steps == [] then j else Run(Do(j, steps[0]), steps[1..])
  }

  lemma {:induction false} RunOneMore(j: Journal, steps: seq<Step>, s: Step)
    ensures Run(j, steps + [s]) == Do(Run(j, steps), s)
    decreases |steps|
  {
    hide Do;
    if steps == [] {
      assert ([] + [s])[1..] == [];
      assert Run(Do(j, s), []) == Do(j, s);
    } else {
      assert (steps + [s])[0] == steps[0] && (steps + [s])[1..] == steps[1..] + [s];
      RunOneMore(Do(j, steps[0]), steps[1..], s);
    }
  }

  lemma {:induction false} RunConcat(j: Journal, a: seq<Step>, b: seq<Step>)
    ensures Run(j, a + b) == Run(Run(j, a), b)
    decreases |a|
  {
    hide Do;
    if a == [] {
      assert a + b == b;
    } else {
      assert (a + b)[0] == a[0] && (a + b)[1..] == a[1..] + b;
      RunConcat(Do(j, a[0]), a[1..], b);
    }
  }

  /** Logged changes for which the channel has room are all in it, in order, and none is dropped. */
  lemma {:induction false} LoggedIsKept(j: Journal, steps: seq<Step>)
    requires forall n :: 0 <= n < |steps| ==> steps[n].LogStep?
    requires |j.chan| + |steps| <= LOG_CAPACITY
    ensures Run(j, steps).dropped == j.dropped && |Run(j, steps).chan| == |j.chan| + |steps|
    ensures forall n :: 0 <= n < |j.chan| ==> Run(j, steps).chan[n] == j.chan[n]
    ensures forall n :: 0 <= n < |steps| ==> Run(j, steps).chan[|j.chan| + n] == steps[n].e
    decreases |steps|
  {
    if steps == [] {
    } else {
      var next := Do(j, steps[0]);
      LoggedIsKept(next, steps[1..]);
      forall n | 0 <= n < |steps|
        ensures Run(j, steps).chan[|j.chan| + n] == steps[n].e
      {
        if n > 0 {
          assert steps[1..][n - 1] == steps[n];
          assert Run(next, steps[1..]).chan[|next.chan| + (n - 1)] == steps[n].e;
        } else {
          assert Run(next, steps[1..]).chan[|j.chan|] == next.chan[|j.chan|];
        }
      }
    }
  }

  lemma {:induction false} RunKeepsRecoverable(j: Journal, steps: seq<Step>)
    requires Recoverable(j)
    ensures Recoverable(Run(j, steps))
    decreases |steps|
  {
    if steps == [] {
    } else {
      match steps[0] {
        case ChangeStep(_) =>
        case LogStep(e) => LogKeepsRecoverable(j, e);
        case WriteStep => if j.chan != [] { WriteKeepsRecoverable(j); }
        case SnapshotStep(now) => SnapshotKeepsRecoverable(j, now);
      }
      RunKeepsRecoverable(Do(j, steps[0]), steps[1..]);
    }
  }

  /** Whatever was logged, written out and snapshotted in whatever order since the files were opened: if no log
      entry was dropped since the files last had all there was, snapshot plus log give back the store, at every time
      after the last snapshot; without a snapshot they give back every value, expiry and version. */
  lemma FilesRecoverTheStore(snapshot: View, wal: seq<WalEntry>, steps: seq<Step>, t: int)
    ensures var j := Run(Open(snapshot, wal), steps);
      && (j.dropped == 0 && (j.since.Some? ==> t > j.since.value) ==> Visible(Recovered(j), t) == Visible(j.view, t))
      && (j.dropped == 0 && j.since.None? ==> Recovered(j) == j.view)
  {
    OpenIsRecoverable(snapshot, wal);
    RunKeepsRecoverable(Open(snapshot, wal), steps);
  }

  // ---------- runs that drop entries ----------

  /** What happened since the last snapshot, or since opening: the store then, the changes to it, and the entries that
      were in the channel then or got into it since. */
  datatype Trail = Trail(base: View, changes: seq<WalEntry>, kept: seq<WalEntry>)

  function Follow(j: Journal, trail: Trail, s: Step): Trail {
    match s
    case ChangeStep(e) => trail.(changes := trail.changes + [e])
    case LogStep(e) =>
      Trail(trail.base, trail.changes + [e], if |j.chan| < LOG_CAPACITY then trail.kept + [e] else trail.kept)
    case WriteStep => trail
    case SnapshotStep(_) => Trail(j.view, [], j.chan)
  }

  function FollowAll(j: Journal, trail: Trail, steps: seq<Step>): Trail
    decreases |steps|
  {
    if steps == [] then trail else FollowAll(Do(j, steps[0]), Follow(j, trail, steps[0]), steps[1..])
  }

  ghost predicate Tracks(trail: Trail, j: Journal) {
    && j.view == Replay(trail.base, trail.changes)
    && (j.since.None? ==> Recovered(j) == Replay(trail.base, trail.kept))
    && (j.since.Some? ==> j.snapshot == Unexpired(trail.base, j.since.value) && j.wal + j.chan == trail.kept)
  }

  lemma ReplayNothing(m: View)
    ensures Replay(m, []) == m
  {
  }

  lemma StepKeepsTrack(trail: Trail, j: Journal, s: Step)
    requires Tracks(trail, j)
    ensures Tracks(Follow(j, trail, s), Do(j, s))
  {
    hide Replay, Apply, Unexpired, Settled;
    match s
    case ChangeStep(e) => ReplayAppend(trail.base, trail.changes, e);
    case LogStep(e) =>
      ReplayAppend(trail.base, trail.changes, e);
      ReplayAppend(trail.base, trail.kept, e);
      ReplayAppend(j.snapshot, j.wal + j.chan, e);
      assert j.wal + (j.chan + [e]) == (j.wal + j.chan) + [e];
    case WriteStep =>
      if j.chan != [] {
        assert j.wal + j.chan == (j.wal + [j.chan[0]]) + j.chan[1..];
      }
    case SnapshotStep(now) =>
      ReplayNothing(j.view);
      assert [] + j.chan == j.chan;
  }

  lemma {:induction false} RunKeepsTrack(trail: Trail, j: Journal, steps: seq<Step>)
    requires Tracks(trail, j)
    ensures Tracks(FollowAll(j, trail, steps), Run(j, steps))
    decreases |steps|
  {
    hide Tracks, Follow, Do;
    if steps == [] {
    } else {
      StepKeepsTrack(trail, j, steps[0]);
      RunKeepsTrack(Follow(j, trail, steps[0]), Do(j, steps[0]), steps[1..]);
    }
  }

  /** The effect of a log on a key, as far as it shows at time `t`. */
  function Shown(effect: Option<Rec>, t: int): Option<Rec> {
    if effect.Some? && Expired(effect.value, t) then None else effect
  }

  lemma ShownIsVisible(m: View, key: string, t: int)
    ensures Find(Visible(m, t), key) == Shown(Find(m, key), t)
    ensures forall since :: t > since ==> Shown(Find(Unexpired(m, since), key), t) == Shown(Find(m, key), t)
  {
  }

  /** What a log makes of a key since the trail began. */
  function Effect(trail: Trail, log: seq<WalEntry>, key: string): Option<Rec> {
    LastEffect(Find(trail.base, key), log, key)
  }

  /** For every key, what was kept has the same last effect as all changes. */
  ghost predicate SameEffects(trail: Trail) {
    forall k :: Effect(trail, trail.kept, k) == Effect(trail, trail.changes, k)
  }

  /** The same, as far as it shows at time `t`. */
  ghost predicate SameShown(trail: Trail, t: int) {
    forall k :: Shown(Effect(trail, trail.kept, k), t) == Shown(Effect(trail, trail.changes, k), t)
  }

  /** What recovery shows of one key. */
  lemma RecoveredKey(trail: Trail, j: Journal, key: string, t: int)
    requires Tracks(trail, j) && (j.since.Some? ==> t > j.since.value)
    ensures Shown(Find(Recovered(j), key), t) == Shown(Effect(trail, trail.kept, key), t)
    ensures j.since.None? ==> Find(Recovered(j), key) == Effect(trail, trail.kept, key)
    ensures Find(j.view, key) == Effect(trail, trail.changes, key)
  {
    hide Replay, Visible, Unexpired;
    ReplayPerKey(trail.base, trail.changes, key);
    ReplayPerKey(trail.base, trail.kept, key);
    ReplayPerKey(j.snapshot, j.wal + j.chan, key);
    EffectIsTheLogs(Find(j.snapshot, key), Find(trail.base, key), trail.kept, key);
    EffectIsTheLogs(Find(trail.base, key), Find(j.snapshot, key), trail.kept, key);
    ShownIsVisible(trail.base, key, t);
    if j.since.Some? {
      var snapshot := Unexpired(trail.base, j.since.value);
      assert Shown(Find(snapshot, key), t) == Shown(Find(trail.base, key), t);
      assert Find(Recovered(j), key) == LastEffect(Find(snapshot, key), trail.kept, key);
    }
  }

  /** Over all runs, with any entries dropped and any snapshots taken: after the last snapshot the files show the store
      if and only if for every key the entries that were kept have the same last effect to show as all changes; and
      without a snapshot they hold it exactly if these effects are the same. */
  lemma FilesTellExactly(snapshot: View, wal: seq<WalEntry>, steps: seq<Step>, t: int)
    ensures var j := Run(Open(snapshot, wal), steps);
            var trail := FollowAll(Open(snapshot, wal), Trail(Replay(snapshot, wal), [], []), steps);
            && ((j.since.Some? ==> t > j.since.value) ==>
                  (Visible(Recovered(j), t) == Visible(j.view, t) <==> SameShown(trail, t)))
            && (j.since.None? ==> (Recovered(j) == j.view <==> SameEffects(trail)))
  {
    var start := Open(snapshot, wal);
    var trail := Trail(Replay(snapshot, wal), [], []);
    assert wal + [] == wal && Tracks(trail, start);
    RunKeepsTrack(trail, start, steps);
    hide Tracks, Recovered, Visible, SameShown, SameEffects, Replay;
    var j := Run(start, steps);
    if j.since.Some? ==> t > j.since.value {
      TellsExactly(FollowAll(start, trail, steps), j, t);
    } else {
      assert j.since.Some?;
    }
  }

  lemma TellsExactly(trail: Trail, j: Journal, t: int)
    requires Tracks(trail, j) && (j.since.Some? ==> t > j.since.value)
    ensures Visible(Recovered(j), t) == Visible(j.view, t) <==> SameShown(trail, t)
    ensures j.since.None? ==> (Recovered(j) == j.view <==> SameEffects(trail))
  {
    hide Tracks, Recovered, Visible, Shown, Find, Effect;
    forall k
      ensures Find(Visible(Recovered(j), t), k) == Shown(Effect(trail, trail.kept, k), t)
      ensures j.since.None? ==> Find(Recovered(j), k) == Effect(trail, trail.kept, k)
      ensures Find(j.view, k) == Effect(trail, trail.changes, k)
      ensures Find(Visible(j.view, t), k) == Shown(Effect(trail, trail.changes, k), t)
    {
      RecoveredKey(trail, j, k, t);
      ShownIsVisible(Recovered(j), k, t);
      ShownIsVisible(j.view, k, t);
    }
    SameViewExactly(Visible(Recovered(j), t), Visible(j.view, t));
    SameViewExactly(Recovered(j), j.view);
  }

  lemma SameViewExactly(a: View, b: View)
    ensures a == b <==> forall k :: Find(a, k) == Find(b, k)
  {
    if forall k :: Find(a, k) == Find(b, k) {
      SameView(a, b);
    }
  }

  /** What recovery from a snapshot finds for a key at the snapshot's own time: what the store shows, unless the entry
      expires just then and nothing in the channel repeats it. */
  lemma KeyAtTheInstant(j: Journal, now: int, k: string)
    requires Settled(j.view, j.chan)
    ensures var lost := k in j.view && j.view[k].expireAt == Some(now) && !Mentions(j.chan, k);
            Find(Visible(Recovered(TakeSnapshot(j, now)), now), k)
              == if lost then None else Find(Visible(j.view, now), k)
  {
    var snapshot := Unexpired(j.view, now);
    assert [] + j.chan == j.chan;
    ReplayPerKey(snapshot, j.chan, k);
    ReplayPerKey(j.view, j.chan, k);
    EffectIsTheLogs(Find(snapshot, k), Find(j.view, k), j.chan, k);
  }

  /** "Later than the snapshot" is needed: at the time of the snapshot itself the files show what the store shows if
      and only if every entry that expires just then is repeated by an entry still in the channel. The channel only
      repeats what memory shows; what was dropped before does not matter. */
  lemma AtTheSnapshotInstantExactly(j: Journal, now: int)
    requires Settled(j.view, j.chan)
    ensures Visible(Recovered(TakeSnapshot(j, now)), now) == Visible(j.view, now) <==>
            forall k :: k in j.view && j.view[k].expireAt == Some(now) ==> Mentions(j.chan, k)
  {
    hide Settled, Recovered, Mentions, Visible;
    var a, b := Visible(Recovered(TakeSnapshot(j, now)), now), Visible(j.view, now);
    forall k
      ensures k in j.view && j.view[k].expireAt == Some(now) ==>
                k in b && (Mentions(j.chan, k) <==> Find(a, k) == Find(b, k))
      ensures !(k in j.view && j.view[k].expireAt == Some(now)) ==> Find(a, k) == Find(b, k)
    {
      KeyAtTheInstant(j, now, k);
      StillVisible(j.view, now, k);
    }
    if forall k :: k in j.view && j.view[k].expireAt == Some(now) ==> Mentions(j.chan, k) {
      SameView(a, b);
    }
  }

  lemma StillVisible(m: View, now: int, k: string)
    ensures k in m && m[k].expireAt == Some(now) ==> k in Visible(m, now)
  {
  }

  /** A store whose only entry expires at the instant of the snapshot: it is visible in memory, and gone from the
      files. */
  lemma ExpiringAtTheSnapshotIsLost()
    ensures exists j: Journal, now ::
      Recoverable(j) && j.dropped == 0
      && Visible(Recovered(TakeSnapshot(j, now)), now) != Visible(j.view, now)
  {
    var rec := Rec([], Some(5), 1);
    var e := SetEntry("k", rec);
    var j := Write(Log(Open(map[], []), e));
    OpenIsRecoverable(map[], []);
    LogKeepsRecoverable(Open(map[], []), e);
    WriteKeepsRecoverable(Log(Open(map[], []), e));
    assert Log(Open(map[], []), e).view == map["k" := rec];
    AtTheSnapshotInstantExactly(j, 5);
    assert "k" in j.view && !Mentions(j.chan, "k");
  }

  /** Nor may log entries be dropped: one lost deletion brings the key back. */
  lemma DroppedDeletionComesBack(j: Journal, key: string, version: nat, t: int)
    requires Recoverable(j) && j.dropped == 0 && |j.chan| >= LOG_CAPACITY
    requires key in Visible(j.view, t) && (j.since.Some? ==> t > j.since.value)
    ensures var j' := Log(j, DeleteEntry(key, version));
      j'.dropped == 1 && key !in j'.view && key in Visible(Recovered(j'), t)
  {
    assert Visible(Recovered(j), t) == Visible(j.view, t);
  }
}
