/** The send side of a connection as a step system (pkg/net/websocket/ws.go:399-490): callers enqueue
    messages, `writerPump` takes them and writes their fragments one `writeFrame` at a time, and the reader's
    goroutine slips in pong and close replies. `writeMu` makes each frame one step, and a write may fail after any of
    its bytes; the buffered writer then refuses all later ones. Every interleaving is a list of steps. */
module WriterPump {
  import opened FrameCodec
  import opened Messages
  import opened Wrappers

  datatype PumpPc = Idle | Writing(m: Message, offset: nat) | Stopped

  /** `accepted`, `taken`, `complete` and `offset` are history: the messages `WriteMessage` accepted, those the
      pump dequeued, how many of these are on the wire in full, and how much of the next one is. `cut` is what a failed
      write has left on the wire of its frame. */
  datatype State = State(
    queue: seq<Message>, capacity: nat, pc: PumpPc, closed: bool, wire: seq<Frame>, cut: Option<seq<byte>>,
    accepted: seq<Message>, taken: seq<Message>, complete: nat, offset: nat) {
    predicate Writable() {
      !closed && cut.None?
    }
  }

  function Initial(capacity: nat): State {
    State([], capacity, Idle, false, [], None, [], [], 0, 0)
  }

  /** `Reject` and `RejectAndClose` are the full-queue outcomes of `WriteMessage` that do not enqueue. */
  datatype Step =
    | Accept(m: Message)
    | Reject
    | RejectAndClose
    | Take
    | WriteNext
    | SendPing
    | Reply(f: Frame)
    | Fail(f: Frame, n: nat)
    | Close
    | Stop

  const PING_PAYLOAD: seq<byte> := [0x70, 0x69, 0x6E, 0x67]

  predicate IsReply(f: Frame) {
    (f.op == PONG || f.op == CLOSE) && f.fin && |f.payload| <= MAX_CONTROL_PAYLOAD
  }

  /** The next frame of the pump, a ping or a reply. */
  predicate MayBeWritten(s: State, f: Frame) {
    || (s.pc.Writing? && (s.pc.offset < |s.pc.m.data| || s.pc.offset == 0)
        && f == OnWire(FragmentAt(s.pc.m, s.pc.offset)))
    || (s.pc.Idle? && f == Frame(PING, true, PING_PAYLOAD))
    || IsReply(f)
  }

  /** `writeFrame` keeps the low four bits of the opcode. */
  function OnWire(f: Frame): Frame {
    f.(op := f.op % 0x10)
  }

  predicate Enabled(s: State, step: Step) {
    match step
    case Accept(m) => |s.queue| < s.capacity
    case Reject => |s.queue| >= s.capacity || s.closed
    case RejectAndClose => |s.queue| >= s.capacity && !s.closed
    case Take => s.pc.Idle? && s.queue != []
    case WriteNext => s.pc.Writing?
    case SendPing => s.pc.Idle?
    case Reply(f) => IsReply(f)
    case Fail(f, n) => s.Writable() && MayBeWritten(s, f) && |f.payload| <= MAX_INT64 && n < |EncodeServer(f)|
    case Close => true
    case Stop => s.pc.Idle? && s.closed
  }

  /** A frame written to a closed connection, or after a failure, goes nowhere. */
  function Put(s: State, f: Frame): seq<Frame> {
    if s.Writable() then s.wire + [f] else s.wire
  }

  function Do(s: State, step: Step): State
    requires Enabled(s, step)
  {
    match step
    case Accept(m) => s.(queue := s.queue + [m], accepted := s.accepted + [m])
    case Reject => s
    case RejectAndClose => s.(closed := true)
    case Take => s.(queue := s.queue[1..], pc := Writing(s.queue[0], 0), taken := s.taken + [s.queue[0]])
    case WriteNext => WriteFragment(s, s.pc.m, s.pc.offset)
    case SendPing => s.(wire := Put(s, Frame(PING, true, PING_PAYLOAD)))
    case Reply(f) => s.(wire := Put(s, f))
    case Fail(f, n) => s.(cut := Some(EncodeServer(f)[..n]))
    case Close => s.(closed := true)
    case Stop => s.(pc := Stopped)
  }

  /** A failed write of a one-frame message is ignored; a failed fragment closes the connection and ends the pump. */
  function WriteFragment(s: State, m: Message, at: nat): State {
    if at >= |m.data| && at != 0 then s
    else if !s.Writable() then
      if |m.data| <= MAX_FRAGMENT then s.(pc := Idle) else s.(pc := Stopped, closed := true)
    else
      var f := OnWire(FragmentAt(m, at));
      if f.fin then s.(wire := Put(s, f), pc := Idle, complete := s.complete + 1, offset := 0)
      else s.(wire := Put(s, f), pc := Writing(m, at + MAX_FRAGMENT), offset := at + MAX_FRAGMENT)
  }

  ghost predicate IsRun(s: State, steps: seq<Step>, s': State)
    decreases |steps|
  {
    if steps == [] then s == s'
    else Enabled(s, steps[0]) && IsRun(Do(s, steps[0]), steps[1..], s')
  }

  ghost predicate Reachable(s: State) {
    exists capacity: nat, steps: seq<Step> :: IsRun(Initial(capacity), steps, s)
  }

  // ---------- what every step keeps ----------

  function RunsOf(ms: seq<Message>): seq<Frame> {
    if ms == [] then [] else RunsOf(ms[..|ms| - 1]) + Fragments(ms[|ms| - 1])
  }

  /** The fragments of `m` that end at or before `offset`. */
  function FragmentsBelow(m: Message, offset: nat): seq<Frame> {
    if offset < MAX_FRAGMENT || offset - MAX_FRAGMENT >= |m.data| then []
    else FragmentsBelow(m, offset - MAX_FRAGMENT) + [FragmentAt(m, offset - MAX_FRAGMENT)]
  }

  ghost predicate OnTheWire(s: State) {
    && s.complete <= |s.taken|
    && s.offset % MAX_FRAGMENT == 0
    && (s.offset > 0 ==> s.complete < |s.taken| && s.offset < |s.taken[s.complete].data|)
    && DataFrames(s.wire)
       == RunsOf(s.taken[..s.complete]) + (if s.offset == 0 then [] else FragmentsBelow(s.taken[s.complete], s.offset))
  }

  /** `WriteMessage` takes any opcode; a message has one of these two. */
  predicate AllData(ms: seq<Message>) {
    forall i :: 0 <= i < |ms| ==> IsData(ms[i].op)
  }

  ghost predicate Inv(s: State) {
    && s.accepted == s.taken + s.queue
    && CutOk(s)
    && (AllData(s.accepted) ==> InvOfData(s))
  }

  ghost predicate CutOk(s: State) {
    s.cut.Some? ==> ClientParse(s.cut.value).0.Err?
  }

  ghost predicate InvOfData(s: State) {
    && OnTheWire(s)
    && KnownOpcodes(s.wire) && Sendable(s.wire)
    && (s.Writable() ==> match s.pc
          case Idle => s.complete == |s.taken| && s.offset == 0
          case Writing(m, at) => s.complete == |s.taken| - 1 && m == s.taken[s.complete] && at == s.offset
          case Stopped => false)
  }

  lemma {:induction false} FragmentsSplit(m: Message, offset: nat)
    requires offset % MAX_FRAGMENT == 0 && (offset < |m.data| || offset == 0)
    ensures FragmentsBelow(m, offset) + FragmentsFrom(m, offset) == Fragments(m)
  {
    if offset == 0 {
    } else {
      var before := offset - MAX_FRAGMENT;
      FragmentsSplit(m, before);
      SeqAssoc(FragmentsBelow(m, before), [FragmentAt(m, before)], FragmentsFrom(m, offset));
    }
  }

  lemma WireAppend(fs: seq<Frame>, f: Frame)
    requires KnownOpcodes(fs) && (IsControl(f.op) ==> f.op == PING || f.op == PONG || f.op == CLOSE)
    requires Sendable(fs) && f.op < 0x10 && |f.payload| <= MAX_INT64
    ensures KnownOpcodes(fs + [f]) && Sendable(fs + [f])
    ensures DataFrames(fs + [f]) == DataFrames(fs) + if IsControl(f.op) then [] else [f]
  {
    DataFramesAppend(fs, f);
  }

  lemma BelowOneMore(m: Message, at: nat)
    requires at % MAX_FRAGMENT == 0 && (at < |m.data| || at == 0)
    ensures var f := FragmentAt(m, at);
            && (f.fin ==> Fragments(m) == FragmentsBelow(m, at) + [f])
            && (!f.fin ==> (at + MAX_FRAGMENT) % MAX_FRAGMENT == 0 && at + MAX_FRAGMENT < |m.data|
                           && FragmentsBelow(m, at + MAX_FRAGMENT) == FragmentsBelow(m, at) + [f])
  {
    FragmentsSplit(m, at);
  }

  lemma WriteFragmentKeepsInv(s: State)
    requires Inv(s) && AllData(s.accepted) && s.pc.Writing? && s.Writable()
    ensures InvOfData(WriteFragment(s, s.pc.m, s.pc.offset))
  {
    hide KnownOpcodes, Sendable, DataFrames, RunsOf, FragmentsBelow, Fragments;
    var m, at := s.pc.m, s.offset;
    var f := FragmentAt(m, at);
    assert m == s.accepted[s.complete] && OnWire(f) == f;
    WireAppend(s.wire, f);
    BelowOneMore(m, at);
    NothingBelow(m);
    var done, below := RunsOf(s.taken[..s.complete]), FragmentsBelow(m, at);
    assert done + [] == done;
    SeqAssoc(done, below, [f]);
    if f.fin {
      RunsOfOneMore(s.taken, s.complete);
    }
  }

  lemma NothingBelow(m: Message)
    ensures FragmentsBelow(m, 0) == []
  {
  }

  lemma RunsOfOneMore(ms: seq<Message>, n: nat)
    requires n < |ms|
    ensures RunsOf(ms[..n + 1]) == RunsOf(ms[..n]) + Fragments(ms[n])
  {
    assert ms[..n + 1][..n] == ms[..n];
  }

  lemma ControlFrameKeepsInv(s: State, f: Frame)
    requires Inv(s) && AllData(s.accepted)
    requires (f.op == PING || f.op == PONG || f.op == CLOSE) && |f.payload| <= MAX_CONTROL_PAYLOAD
    ensures InvOfData(s.(wire := Put(s, f)))
  {
    WireAppend(s.wire, f);
    assert DataFrames(s.wire) + [] == DataFrames(s.wire);
  }

  lemma FailKeepsCut(s: State, f: Frame, n: nat)
    requires Enabled(s, Fail(f, n))
    ensures ClientParse(EncodeServer(f)[..n]).0.Err?
  {
    CutIsNoFrame(f, n);
  }

  lemma TakeKeepsInv(s: State)
    requires Inv(s) && Enabled(s, Take)
    ensures Inv(Do(s, Take))
  {
    hide KnownOpcodes, Sendable, DataFrames, RunsOf, FragmentsBelow;
    var taken := s.taken + [s.queue[0]];
    assert taken + s.queue[1..] == s.taken + s.queue;
    assert AllData(s.accepted) ==> taken[..s.complete] == s.taken[..s.complete];
  }

  lemma AcceptKeepsInv(s: State, m: Message)
    requires Inv(s) && Enabled(s, Accept(m))
    ensures Inv(Do(s, Accept(m)))
  {
    hide KnownOpcodes, Sendable, DataFrames, RunsOf, FragmentsBelow;
    SeqAssoc(s.taken, s.queue, [m]);
    assert AllData(s.accepted + [m]) ==> AllData(s.accepted) by {
      assert forall i :: 0 <= i < |s.accepted| ==> (s.accepted + [m])[i] == s.accepted[i];
    }
  }

  lemma StepKeepsInv(s: State, step: Step)
    requires Inv(s) && Enabled(s, step)
    ensures Inv(Do(s, step))
  {
    hide KnownOpcodes, Sendable, DataFrames, RunsOf, FragmentsBelow;
    match step
    case WriteNext =>
      if AllData(s.accepted) && s.Writable() {
        WriteFragmentKeepsInv(s);
      }
    case SendPing =>
      if AllData(s.accepted) {
        ControlFrameKeepsInv(s, Frame(PING, true, PING_PAYLOAD));
      }
    case Reply(f) =>
      if AllData(s.accepted) {
        ControlFrameKeepsInv(s, f);
      }
    case Fail(f, n) => FailKeepsCut(s, f, n);
    case Take => TakeKeepsInv(s);
    case Accept(m) => AcceptKeepsInv(s, m);
    case _ =>
  }

  lemma {:induction false} RunKeepsInv(s: State, steps: seq<Step>, s': State)
    requires Inv(s) && IsRun(s, steps, s')
    ensures Inv(s')
    decreases |steps|
  {
    if steps == [] {
    } else {
      StepKeepsInv(s, steps[0]);
      RunKeepsInv(Do(s, steps[0]), steps[1..], s');
    }
  }

  /** Messages never interleave (RFC 6455, section 5.4): in every reachable state the data frames on the wire
      are the whole fragment runs of the messages taken so far, in queue order, then a proper prefix of the
      run of at most one more. */
  lemma FramesNeverInterleave(s: State)
    requires Reachable(s) && AllData(s.accepted)
    ensures Inv(s)
    ensures s.accepted == s.taken + s.queue
    ensures s.offset == 0 ==> DataFrames(s.wire) == RunsOf(s.taken[..s.complete])
    ensures s.offset > 0 ==>
      var m := s.taken[s.complete];
      && DataFrames(s.wire) == RunsOf(s.taken[..s.complete]) + FragmentsBelow(m, s.offset)
      && FragmentsBelow(m, s.offset) < Fragments(m)
  {
    var capacity: nat, steps: seq<Step> :| IsRun(Initial(capacity), steps, s);
    RunKeepsInv(Initial(capacity), steps, s);
    if s.offset > 0 {
      FragmentsSplit(s.taken[s.complete], s.offset);
    }
  }

  // ---------- what the peer makes of it ----------

  lemma {:induction false} RunsReceived(ms: seq<Message>)
    requires forall i :: 0 <= i < |ms| ==> IsData(ms[i].op)
    ensures ReceiveAll(FRESH, RunsOf(ms)) == Receiver(ms, None, true)
  {
    if ms == [] {
    } else {
      var init, last := ms[..|ms| - 1], ms[|ms| - 1];
      RunsReceived(init);
      ReceiveConcat(FRESH, RunsOf(init), Fragments(last));
      FragmentsReceived(init, last, 0);
      assert ms == init + [last];
    }
  }

  lemma {:induction false} PrefixReceived(done: seq<Message>, m: Message, offset: nat)
    requires IsData(m.op) && offset % MAX_FRAGMENT == 0 && (offset < |m.data| || offset == 0)
    ensures ReceiveAll(Receiver(done, None, true), FragmentsBelow(m, offset))
         == Receiver(done, Partial(m, offset), true)
  {
    if offset == 0 {
    } else {
      var before := offset - MAX_FRAGMENT;
      PrefixReceived(done, m, before);
      FragmentReceived(done, m, before);
      ReceiveConcat(Receiver(done, None, true), FragmentsBelow(m, before), [FragmentAt(m, before)]);
      OnlyFrame(Receiver(done, Partial(m, before), true), FragmentAt(m, before));
    }
  }

  /** The receiver holds a prefix of the accepted messages and a prefix of the next one; once the queue is drained on
      an open connection that has not failed, all of them. */
  predicate Holds(s: State, r: Receiver) {
    && r.ok && r.done <= s.accepted
    && (r.current.Some? ==> |r.done| < |s.accepted| && r.current.value.op == s.accepted[|r.done|].op
                            && r.current.value.data <= s.accepted[|r.done|].data)
    && (Drained(s) ==> r.done == s.accepted && r.current == None)
  }

  predicate Drained(s: State) {
    s.Writable() && s.pc.Idle? && s.queue == []
  }

  /** At every moment a peer that follows RFC 6455 section 5.4 has received, without a protocol error, exactly what it
      should: byte for byte and in order. */
  lemma PeerReceivesPrefix(s: State)
    requires Reachable(s) && AllData(s.accepted)
    ensures Holds(s, ReceiveAll(FRESH, s.wire))
  {
    FramesNeverInterleave(s);
    var done := s.taken[..s.complete];
    ControlsAreInvisible(FRESH, s.wire);
    assert forall i :: 0 <= i < |done| ==> done[i] == s.accepted[i];
    RunsReceived(done);
    if s.offset > 0 {
      var m := s.taken[s.complete];
      assert m == s.accepted[s.complete];
      ReceiveConcat(FRESH, RunsOf(done), FragmentsBelow(m, s.offset));
      PrefixReceived(done, m, s.offset);
    }
    assert s.queue == [] ==> s.accepted == s.taken;
    assert s.complete == |s.taken| ==> done == s.taken;
  }

  /** All the bytes on the wire. */
  function Bytes(s: State): seq<byte>
    requires Sendable(s.wire)
  {
    ServerWire(s.wire) + if s.cut.Some? then s.cut.value else []
  }

  /** The same for the bytes on the wire: the client decodes them to the frames written, and a frame cut short. */
  lemma ClientBytesCarryPrefix(s: State)
    requires Reachable(s) && AllData(s.accepted)
    ensures Sendable(s.wire) && ClientFrames(Bytes(s)) == (s.wire, if s.cut.Some? then s.cut.value else [])
    ensures Holds(s, ReceiveAll(FRESH, ClientFrames(Bytes(s)).0))
  {
    FramesNeverInterleave(s);
    ServerWireRoundTrip(s.wire, if s.cut.Some? then s.cut.value else []);
    PeerReceivesPrefix(s);
  }

  lemma {:induction false} OnlyDataArrives(r: Receiver, fs: seq<Frame>)
    requires AllData(r.done) && (r.current.Some? ==> IsData(r.current.value.op))
    ensures AllData(ReceiveAll(r, fs).done)
    decreases |fs|
  {
    if fs == [] {
    } else {
      OnlyDataArrives(Receive(r, fs[0]), fs[1..]);
    }
  }

  /** Once everything is written, the peer holds the accepted messages if and only if all were text or binary:
      `WriteMessage` does not look at the opcode. */
  lemma AllArriveExactly(s: State)
    requires Reachable(s) && Drained(s)
    ensures ReceiveAll(FRESH, s.wire).done == s.accepted <==> AllData(s.accepted)
  {
    OnlyDataArrives(FRESH, s.wire);
    if AllData(s.accepted) {
      PeerReceivesPrefix(s);
    }
  }

  /** A message sent with the opcode of a pong does not arrive as a message. */
  lemma PongIsNoMessage() returns (s: State)
    ensures Reachable(s) && Drained(s) && s.accepted == [Message(PONG, [])]
    ensures ReceiveAll(FRESH, s.wire) == FRESH
  {
    var m := Message(PONG, []);
    var s1 := Do(Initial(1), Accept(m));
    var s2 := Do(s1, Take);
    s := Do(s2, WriteNext);
    assert s2 == State([], 1, Writing(m, 0), false, [], None, [m], [m], 0, 0);
    assert s.wire == [Frame(PONG, true, [])];
    assert IsRun(s, [], s) && IsRun(s2, [WriteNext], s);
    assert [Take, WriteNext][1..] == [WriteNext] && IsRun(s1, [Take, WriteNext], s);
    assert [Accept(m), Take, WriteNext][1..] == [Take, WriteNext];
    assert IsRun(Initial(1), [Accept(m), Take, WriteNext], s);
    assert s.wire[1..] == [];
  }
}
