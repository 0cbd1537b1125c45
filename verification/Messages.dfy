/** Messages and their fragments (RFC 6455, section 5.4): how `writerPump` cuts a message into frames,
    how the server's readers consume frames, and the receiver that RFC 6455 describes. */
module Messages {
  import opened Wrappers
  import opened FrameCodec

  const MAX_FRAGMENT := 64 * 1024

  datatype Message = Message(op: byte, data: seq<byte>)

  predicate IsData(op: byte) {
    op == TEXT || op == BINARY
  }

  // ---------- cutting a message ----------

  /** The frame `writerPump` writes at `offset`. A message of at most MAX_FRAGMENT bytes, even an empty
      one, is its own only fragment. */
  function FragmentAt(m: Message, offset: nat): Frame
    requires offset < |m.data| || offset == 0
  {
    var end := if offset + MAX_FRAGMENT > |m.data| then |m.data| else offset + MAX_FRAGMENT;
    Frame(if offset == 0 then m.op else CONTINUATION, end == |m.data|, m.data[offset..end])
  }

  function FragmentsFrom(m: Message, offset: nat): seq<Frame>
    requires offset < |m.data| || offset == 0
    decreases |m.data| - offset
  {
    var f := FragmentAt(m, offset);
    if f.fin then [f] else [f] + FragmentsFrom(m, offset + MAX_FRAGMENT)
  }

  function Fragments(m: Message): seq<Frame> {
    FragmentsFrom(m, 0)
  }

  /** A message is cut every 64 KiB and nowhere else: the first frame has its opcode, only the last has FIN. */
  lemma FragmentsExactly(m: Message, i: nat)
    ensures i < |Fragments(m)| <==> i == 0 || 0x1_0000 * i < |m.data|
    ensures i < |Fragments(m)| ==>
      var op, at, end := if i == 0 then m.op else CONTINUATION, 0x1_0000 * i, 0x1_0000 * i + 0x1_0000;
      Fragments(m)[i] == if end >= |m.data| then Frame(op, true, m.data[at..]) else Frame(op, false, m.data[at..end])
  {
    FragmentsFromExactly(m, 0, i);
  }

  lemma {:induction false} FragmentsFromExactly(m: Message, offset: nat, i: nat)
    requires offset < |m.data| || offset == 0
    ensures i < |FragmentsFrom(m, offset)| <==> i == 0 || offset + 0x1_0000 * i < |m.data|
    ensures i < |FragmentsFrom(m, offset)| ==> FragmentsFrom(m, offset)[i] == FragmentAt(m, offset + 0x1_0000 * i)
    decreases i
  {
    var f := FragmentAt(m, offset);
    if i > 0 && !f.fin {
      FragmentsFromExactly(m, offset + MAX_FRAGMENT, i - 1);
    }
  }

  // ---------- the receiver of RFC 6455, section 5.4 ----------

  /** Completed messages, the message under assembly, and whether the stream obeyed the protocol. */
  datatype Receiver = Receiver(done: seq<Message>, current: Option<Message>, ok: bool)

  const FRESH := Receiver([], None, true)

  function Receive(r: Receiver, f: Frame): Receiver {
    if f.op == PING || f.op == PONG || f.op == CLOSE then r
    else if IsData(f.op) && r.current.None? then
      Deliver(r, Message(f.op, f.payload), f.fin)
    else if f.op == CONTINUATION && r.current.Some? then
      Deliver(r, Message(r.current.value.op, r.current.value.data + f.payload), f.fin)
    else r.(ok := false)
  }

  function Deliver(r: Receiver, m: Message, fin: bool): Receiver {
    if fin then r.(done := r.done + [m], current := None) else r.(current := Some(m))
  }

  function ReceiveAll(r: Receiver, fs: seq<Frame>): Receiver
    decreases |fs|
  {
    if fs == [] then r else ReceiveAll(Receive(r, fs[0]), fs[1..])
  }

  lemma {:induction false} ReceiveConcat(r: Receiver, a: seq<Frame>, b: seq<Frame>)
    ensures ReceiveAll(r, a + b) == ReceiveAll(ReceiveAll(r, a), b)
    decreases |a|
  {
    if a == [] {
      assert a + b == b;
    } else {
      assert (a + b)[0] == a[0] && (a + b)[1..] == a[1..] + b;
      ReceiveConcat(Receive(r, a[0]), a[1..], b);
    }
  }

  lemma {:induction false} ReceiveGrows(r: Receiver, fs: seq<Frame>)
    ensures var r' := ReceiveAll(r, fs);
      |r.done| <= |r'.done| && r'.done[..|r.done|] == r.done && (r'.ok ==> r.ok)
    decreases |fs|
  {
    if fs == [] {
    } else {
      ReceiveGrows(Receive(r, fs[0]), fs[1..]);
    }
  }

  /** What the receiver holds after the fragments of `m` below `offset`. */
  function Partial(m: Message, offset: nat): Option<Message>
    requires offset <= |m.data|
  {
    if offset == 0 then None else Some(Message(m.op, m.data[..offset]))
  }

  lemma FragmentReceived(done: seq<Message>, m: Message, offset: nat)
    requires IsData(m.op) && (offset < |m.data| || offset == 0)
    ensures var r := Receive(Receiver(done, Partial(m, offset), true), FragmentAt(m, offset));
      if FragmentAt(m, offset).fin then r == Receiver(done + [m], None, true)
      else offset + MAX_FRAGMENT < |m.data| && r == Receiver(done, Partial(m, offset + MAX_FRAGMENT), true)
  {
    var end := offset + |FragmentAt(m, offset).payload|;
    assert m.data[..offset] + m.data[offset..end] == m.data[..end];
    assert m.data[..|m.data|] == m.data;
  }

  lemma {:induction false} FragmentsReceived(done: seq<Message>, m: Message, offset: nat)
    requires IsData(m.op) && (offset < |m.data| || offset == 0)
    ensures ReceiveAll(Receiver(done, Partial(m, offset), true), FragmentsFrom(m, offset))
         == Receiver(done + [m], None, true)
    decreases |m.data| - offset
  {
    FragmentReceived(done, m, offset);
    var f := FragmentAt(m, offset);
    if !f.fin {
      FragmentsReceived(done, m, offset + MAX_FRAGMENT);
      assert FragmentsFrom(m, offset)[1..] == FragmentsFrom(m, offset + MAX_FRAGMENT);
    } else {
      assert FragmentsFrom(m, offset)[1..] == [];
    }
  }

  /** The frames of a stream that are not control frames. */
  function DataFrames(fs: seq<Frame>): seq<Frame> {
    if fs == [] then []
    else if IsControl(fs[0].op) then DataFrames(fs[1..])
    else [fs[0]] + DataFrames(fs[1..])
  }

  lemma {:induction false} DataFramesAppend(fs: seq<Frame>, f: Frame)
    ensures DataFrames(fs + [f]) == DataFrames(fs) + if IsControl(f.op) then [] else [f]
  {
    if fs == [] {
      assert [f][1..] == [];
    } else {
      assert (fs + [f])[0] == fs[0] && (fs + [f])[1..] == fs[1..] + [f];
      DataFramesAppend(fs[1..], f);
    }
  }

  predicate KnownOpcodes(fs: seq<Frame>) {
    forall i :: 0 <= i < |fs| && IsControl(fs[i].op) ==> fs[i].op == PING || fs[i].op == PONG || fs[i].op == CLOSE
  }

  /** Control frames between the fragments change nothing for the receiver. */
  lemma {:induction false} ControlsAreInvisible(r: Receiver, fs: seq<Frame>)
    requires KnownOpcodes(fs)
    ensures ReceiveAll(r, fs) == ReceiveAll(r, DataFrames(fs))
    decreases |fs|
  {
    if fs == [] {
    } else {
      ControlsAreInvisible(Receive(r, fs[0]), fs[1..]);
      if !IsControl(fs[0].op) {
        assert DataFrames(fs)[1..] == DataFrames(fs[1..]);
      }
    }
  }

  // ---------- the server's readers ----------

  /** The automatic reply to a control frame: a pong for a ping, an echo for a close. */
  function Replies(f: Frame): seq<Frame> {
    if f.op == PING then [Frame(PONG, true, f.payload)]
    else if f.op == CLOSE then [Frame(CLOSE, true, f.payload)]
    else []
  }

  function RepliesTo(fs: seq<Frame>): seq<Frame> {
    if fs == [] then [] else Replies(fs[0]) + RepliesTo(fs[1..])
  }

  /** The frames that successive calls of `readFrame` deliver, up to the error that ends them. */
  datatype Stream = More(frame: Frame, next: Stream) | Stop(error: ReadError)

  function Decode(input: seq<byte>, limit: nat): (s: Stream)
    decreases |input|
  {
    match ParseFrame(input, limit)
    case (Err(e), _) => Stop(e)
    case (Ok(f), rest) => More(f, Decode(rest, limit))
  }

  /** What is left to read of a message: its bytes, the error that follows them (`Eof` at a regular end),
      the replies sent while reading, and the stream beyond. */
  datatype Rest = Rest(bytes: seq<byte>, ending: ReadError, replies: seq<Frame>, beyond: Stream)

  /** Reads the rest of a message; `op` is the opcode of its first frame, 0 if none has been seen. */
  function Drain(op: byte, s: Stream): Rest
    decreases s
  {
    match s
    case Stop(e) => Rest([], e, [], s)
    case More(f, next) =>
      if f.op == CLOSE then Rest([], Eof, Replies(f), next)
      else if f.op == CONTINUATION || (IsData(f.op) && op == 0) then
        if f.fin then Rest(f.payload, Eof, [], next)
        else
          var d := Drain(if f.op == CONTINUATION then op else f.op, next);
          d.(bytes := f.payload + d.bytes)
      else if IsData(f.op) then Rest([], NewDataOpcode, [], next)
      else
        var d := Drain(op, next);
        d.(replies := Replies(f) + d.replies)
  }

  /** The answer of `ReadMessageStream`: the first frame of a message, or an error. */
  datatype Opened = Opened(first: ReadResult<Frame>, replies: seq<Frame>, beyond: Stream)

  function Open(s: Stream): (o: Opened)
    ensures o.first.Ok? ==> IsData(o.first.value.op)
  {
    match s
    case Stop(e) => Opened(Err(e), [], s)
    case More(f, next) =>
      if IsData(f.op) then Opened(Ok(f), [], next)
      else if f.op == CLOSE then Opened(Err(Eof), Replies(f), next)
      else
        var o := Open(next);
        o.(replies := Replies(f) + o.replies)
  }

  /** What there is to read of the message that starts with `f`. */
  function Remaining(f: Frame, beyond: Stream): Rest {
    if f.fin then Rest(f.payload, Eof, [], beyond)
    else
      var d := Drain(f.op, beyond);
      d.(bytes := f.payload + d.bytes)
  }

  /** `ReadMessageStream`, then `Read` until it reports an error. */
  function ReadOne(s: Stream): (ReadResult<Message>, Rest) {
    var o := Open(s);
    match o.first
    case Err(e) => (Err(e), Rest([], e, o.replies, o.beyond))
    case Ok(f) =>
      var d := Remaining(f, o.beyond);
      (Ok(Message(f.op, d.bytes)), d.(replies := o.replies + d.replies))
  }

  /** The contract of one `Read` into a buffer of `size` bytes: the chunk comes off the front of what is left;
      an error is reported only once nothing is left, and is then the right one. */
  ghost predicate ReadStep(before: Rest, size: nat, chunk: seq<byte>, err: Option<ReadError>, after: Rest) {
    match err
    case None =>
      && before.bytes == chunk + after.bytes && before.ending == after.ending && before.beyond == after.beyond
      && |chunk| <= size && (size > 0 ==> chunk != [])
    case Some(e) =>
      chunk == [] && before.bytes == [] && e == before.ending && after.bytes == [] && after.ending == e
  }

  datatype Answer = Answer(size: nat, chunk: seq<byte>, err: Option<ReadError>, after: Rest)

  ghost predicate ReadRun(before: Rest, answers: seq<Answer>)
    decreases |answers|
  {
    answers == [] ||
    (ReadStep(before, answers[0].size, answers[0].chunk, answers[0].err, answers[0].after)
     && ReadRun(answers[0].after, answers[1..]))
  }

  /** Only the last answer is an error. */
  predicate EndsInError(answers: seq<Answer>) {
    && answers != [] && answers[|answers| - 1].err.Some?
    && forall i :: 0 <= i < |answers| - 1 ==> answers[i].err.None?
  }

  function Chunks(answers: seq<Answer>): seq<byte> {
    if answers == [] then [] else answers[0].chunk + Chunks(answers[1..])
  }

  /** Whatever the buffer sizes: the chunks read up to the first error are exactly the bytes of the message,
      that error is its ending, and with non-empty buffers it comes after at most one read per byte. */
  lemma {:induction false} ReadsDeliverTheMessage(before: Rest, answers: seq<Answer>)
    requires ReadRun(before, answers)
    ensures (forall i :: 0 <= i < |answers| ==> answers[i].err.None?) ==>
      && Chunks(answers) <= before.bytes
      && ((forall i :: 0 <= i < |answers| ==> answers[i].size > 0) ==> |answers| <= |Chunks(answers)|)
    ensures EndsInError(answers) ==>
      Chunks(answers) == before.bytes && answers[|answers| - 1].err.value == before.ending
    decreases |answers|
  {
    if answers == [] {
    } else {
      var a, rest := answers[0], answers[1..];
      ReadsDeliverTheMessage(a.after, rest);
      assert forall i :: 0 <= i < |rest| ==> rest[i] == answers[i + 1];
    }
  }

  /** `n` messages read one after the other, as long as each ends regularly. */
  function ReadMany(s: Stream, n: nat): (seq<Message>, seq<Frame>, Stream)
    decreases n
  {
    if n == 0 then ([], [], s)
    else match ReadOne(s)
      case (Err(_), d) => ([], d.replies, d.beyond)
      case (Ok(m), d) =>
        if d.ending != Eof then ([], d.replies, d.beyond)
        else
          var (ms, replies, beyond) := ReadMany(d.beyond, n - 1);
          ([m] + ms, d.replies + replies, beyond)
  }

  // ---------- the readers agree with the receiver ----------

  function Feed(fs: seq<Frame>, tail: Stream): Stream {
    if fs == [] then tail else More(fs[0], Feed(fs[1..], tail))
  }

  predicate NoClose(fs: seq<Frame>) {
    forall i :: 0 <= i < |fs| ==> fs[i].op != CLOSE
  }

  lemma {:induction false} RepliesConcat(a: seq<Frame>, b: seq<Frame>)
    ensures RepliesTo(a + b) == RepliesTo(a) + RepliesTo(b)
  {
    if a == [] {
      assert a + b == b;
    } else {
      assert (a + b)[0] == a[0] && (a + b)[1..] == a[1..] + b;
      RepliesConcat(a[1..], b);
    }
  }

  /** What the receiver and the replies make of one frame followed by others. */
  lemma OneMoreFrame(r: Receiver, f: Frame, fs: seq<Frame>)
    ensures ReceiveAll(r, [f] + fs) == ReceiveAll(Receive(r, f), fs)
    ensures RepliesTo([f] + fs) == Replies(f) + RepliesTo(fs)
  {
    assert ([f] + fs)[1..] == fs;
  }

  lemma OnlyFrame(r: Receiver, f: Frame)
    ensures ReceiveAll(r, [f]) == Receive(r, f) && RepliesTo([f]) == Replies(f)
  {
    OneMoreFrame(r, f, []);
    assert [f] + [] == [f];
  }

  lemma NoFrames(r: Receiver)
    ensures ReceiveAll(r, []) == r && RepliesTo([]) == []
  {
  }

  lemma MoreFrames(r: Receiver, a: seq<Frame>, b: seq<Frame>)
    ensures ReceiveAll(r, a + b) == ReceiveAll(ReceiveAll(r, a), b)
    ensures RepliesTo(a + b) == RepliesTo(a) + RepliesTo(b)
  {
    ReceiveConcat(r, a, b);
    RepliesConcat(a, b);
  }

  /** `fs` makes the receiver complete at least one message. */
  predicate Completing(r: Receiver, fs: seq<Frame>) {
    NoClose(fs) && r.ok && ReceiveAll(r, fs).ok && |ReceiveAll(r, fs).done| > |r.done|
  }

  lemma CompletingStep(r: Receiver, fs: seq<Frame>)
    requires Completing(r, fs)
    ensures fs != [] && fs == [fs[0]] + fs[1..] && fs[0].op != CLOSE && NoClose(fs[1..])
    ensures Receive(r, fs[0]).ok
    ensures Receive(r, fs[0]).done == r.done ==> Completing(Receive(r, fs[0]), fs[1..])
  {
    ReceiveGrows(Receive(r, fs[0]), fs[1..]);
  }

  lemma SeqAssoc<T>(a: seq<T>, b: seq<T>, c: seq<T>)
    ensures (a + b) + c == a + (b + c)
  {
  }

  /** If the receiver, in mid-message, completes a message within `fs`, then reading on completes the same
      message at the same frame. */
  lemma {:induction false} DrainFollowsReceiver(r: Receiver, fs: seq<Frame>, tail: Stream)
    returns (used: seq<Frame>, left: seq<Frame>)
    requires Completing(r, fs) && r.current.Some? && IsData(r.current.value.op)
    ensures fs == used + left && used != []
    ensures var m, d := r.current.value, Drain(r.current.value.op, Feed(fs, tail));
      && d == Rest(d.bytes, Eof, RepliesTo(used), Feed(left, tail))
      && ReceiveAll(r, used) == Receiver(r.done + [Message(m.op, m.data + d.bytes)], None, true)
    decreases |fs|
  {
    var f, rest, m := fs[0], fs[1..], r.current.value;
    CompletingStep(r, fs);
    if f.op == CONTINUATION && f.fin {
      used, left := [f], rest;
      OnlyFrame(r, f);
    } else {
      used, left := DrainFollowsReceiver(Receive(r, f), rest, tail);
      OneMoreFrame(r, f, used);
      SeqAssoc([f], used, left);
      used := [f] + used;
      SeqAssoc(m.data, f.payload, Drain(m.op, Feed(rest, tail)).bytes);
    }
  }

  /** Between messages: opening a message skips exactly the control frames before its first frame. */
  lemma {:induction false} OpenFollowsReceiver(r: Receiver, fs: seq<Frame>, tail: Stream)
    returns (used: seq<Frame>, first: Frame, left: seq<Frame>)
    requires Completing(r, fs) && r.current.None?
    ensures fs == used + [first] + left
    ensures Open(Feed(fs, tail)) == Opened(Ok(first), RepliesTo(used), Feed(left, tail))
    ensures IsData(first.op) && ReceiveAll(r, used) == r
    decreases |fs|
  {
    var f, rest := fs[0], fs[1..];
    CompletingStep(r, fs);
    if IsData(f.op) {
      used, first, left := [], f, rest;
    } else {
      used, first, left := OpenFollowsReceiver(r, rest, tail);
      OneMoreFrame(r, f, used);
      used := [f] + used;
    }
  }

  /** Reading one message takes what the receiver takes up to its next completed message, and replies to the
      control frames on the way. */
  lemma ReadOneFollowsReceiver(r: Receiver, fs: seq<Frame>, tail: Stream)
    returns (m: Message, used: seq<Frame>, left: seq<Frame>)
    requires Completing(r, fs) && r.current.None?
    ensures fs == used + left && used != []
    ensures ReadOne(Feed(fs, tail)) == (Ok(m), Rest(m.data, Eof, RepliesTo(used), Feed(left, tail)))
    ensures ReceiveAll(r, used) == Receiver(r.done + [m], None, true)
  {
    hide Feed, Drain, Open, RepliesTo;
    var before, f, rest := OpenFollowsReceiver(r, fs, tail);
    var head := before + [f];
    MoreFrames(r, before, [f]);
    OnlyFrame(r, f);
    if f.fin {
      m, used, left := Message(f.op, f.payload), head, rest;
      assert RepliesTo(before) + [] == RepliesTo(before) == RepliesTo(used);
    } else {
      MoreFrames(r, head, rest);
      assert forall i :: 0 <= i < |rest| ==> rest[i] == fs[|head| + i];
      var inside, after := DrainFollowsReceiver(Receive(r, f), rest, tail);
      m := Message(f.op, f.payload + Drain(f.op, Feed(rest, tail)).bytes);
      used, left := head + inside, after;
      MoreFrames(r, head, inside);
      SeqAssoc(head, inside, after);
      assert RepliesTo(used) == RepliesTo(before) + RepliesTo(inside);
    }
  }

  /** The server reads exactly the messages that the receiver of RFC 6455 section 5.4 assembles from the same
      frames, in order, and sends the replies that section 5.5 asks for; the frames left behind complete no
      further message. */
  lemma {:induction false} ServerFollowsReceiver(r: Receiver, fs: seq<Frame>, tail: Stream)
    returns (ms: seq<Message>, used: seq<Frame>, left: seq<Frame>)
    requires r.ok && r.current.None? && NoClose(fs) && ReceiveAll(r, fs).ok
    ensures fs == used + left
    ensures ReceiveAll(r, fs).done == r.done + ms == ReceiveAll(r, used).done
    ensures ReadMany(Feed(fs, tail), |ms|) == (ms, RepliesTo(used), Feed(left, tail))
    decreases |fs|
  {
    hide ReceiveAll, Feed, ReadOne, RepliesTo;
    ReceiveGrows(r, fs);
    if |ReceiveAll(r, fs).done| == |r.done| {
      NoFrames(r);
      ms, used, left := [], [], fs;
    } else {
      var m, first, rest := ReadOneFollowsReceiver(r, fs, tail);
      MoreFrames(r, first, rest);
      assert forall i :: 0 <= i < |rest| ==> rest[i] == fs[|first| + i];
      ms, used, left := ServerFollowsReceiver(Receiver(r.done + [m], None, true), rest, tail);
      MoreFrames(r, first, used);
      SeqAssoc(r.done, [m], ms);
      SeqAssoc(first, used, left);
      ms, used := [m] + ms, first + used;
    }
  }

  // ---------- messages that do not end ----------

  /** Frames that keep the receiver in the middle of the same message. */
  predicate Within(r: Receiver, fs: seq<Frame>) {
    && NoClose(fs) && r.ok && r.current.Some? && IsData(r.current.value.op)
    && ReceiveAll(r, fs).ok && ReceiveAll(r, fs).done == r.done
  }

  lemma WithinStep(r: Receiver, fs: seq<Frame>)
    requires Within(r, fs) && fs != []
    ensures Receive(r, fs[0]).ok && Receive(r, fs[0]).done == r.done && Within(Receive(r, fs[0]), fs[1..])
    ensures fs[0].op != CLOSE && (fs[0].op == CONTINUATION ==> !fs[0].fin) && !IsData(fs[0].op)
    ensures Receive(r, fs[0]).current.value.op == r.current.value.op
  {
    ReceiveGrows(Receive(r, fs[0]), fs[1..]);
  }

  /** In mid-message the reader takes exactly the bytes that the receiver takes, whatever comes after them. */
  lemma {:induction false} DrainGoesOn(r: Receiver, fs: seq<Frame>, tail: Stream) returns (bytes: seq<byte>)
    requires Within(r, fs)
    ensures var m := r.current.value;
      && ReceiveAll(r, fs) == Receiver(r.done, Some(Message(m.op, m.data + bytes)), true)
      && var d := Drain(m.op, tail);
         Drain(m.op, Feed(fs, tail)) == Rest(bytes + d.bytes, d.ending, RepliesTo(fs) + d.replies, d.beyond)
    decreases |fs|
  {
    var m := r.current.value;
    if fs == [] {
      bytes := [];
      assert m.data + [] == m.data;
    } else {
      WithinStep(r, fs);
      var f, d := fs[0], Drain(m.op, tail);
      var rest := DrainGoesOn(Receive(r, f), fs[1..], tail);
      bytes := (if f.op == CONTINUATION then f.payload else []) + rest;
      if f.op == CONTINUATION {
        SeqAssoc(m.data, f.payload, rest);
        SeqAssoc(f.payload, rest, d.bytes);
      } else {
        assert [] + rest == rest;
      }
      SeqAssoc(Replies(f), RepliesTo(fs[1..]), d.replies);
    }
  }

  /** A message that is cut off: the reader gives the bytes received so far, and then the error that ended the
      connection; a close ends it as a regular end would, and a new data frame with an error of its own. */
  lemma DrainEnds(r: Receiver, fs: seq<Frame>, e: ReadError, f: Frame, next: Stream) returns (bytes: seq<byte>)
    requires Within(r, fs)
    ensures var m := r.current.value;
      ReceiveAll(r, fs) == Receiver(r.done, Some(Message(m.op, m.data + bytes)), true)
    ensures Drain(r.current.value.op, Feed(fs, Stop(e))) == Rest(bytes, e, RepliesTo(fs), Stop(e))
    ensures f.op == CLOSE ==>
      Drain(r.current.value.op, Feed(fs, More(f, next)))
      == Rest(bytes, Eof, RepliesTo(fs) + [Frame(CLOSE, true, f.payload)], next)
    ensures IsData(f.op) ==>
      Drain(r.current.value.op, Feed(fs, More(f, next))) == Rest(bytes, NewDataOpcode, RepliesTo(fs), next)
  {
    bytes := DrainGoesOn(r, fs, Stop(e));
    var bytes' := DrainGoesOn(r, fs, More(f, next));
    SamePrefixAdded(r.current.value.data, bytes, bytes');
    assert bytes + [] == bytes && RepliesTo(fs) + [] == RepliesTo(fs);
  }

  /** In mid-message too, frames that are neither data, continuation nor close take nothing away from it. */
  lemma {:induction false} DrainSkips(op: byte, fs: seq<Frame>, tail: Stream)
    requires forall i :: 0 <= i < |fs| ==> !IsData(fs[i].op) && fs[i].op != CONTINUATION && fs[i].op != CLOSE
    ensures var d := Drain(op, tail); Drain(op, Feed(fs, tail)) == d.(replies := RepliesTo(fs) + d.replies)
    decreases |fs|
  {
    var d := Drain(op, tail);
    if fs == [] {
      assert [] + d.replies == d.replies;
    } else {
      DrainSkips(op, fs[1..], tail);
      SeqAssoc(Replies(fs[0]), RepliesTo(fs[1..]), d.replies);
    }
  }

  lemma SamePrefixAdded<T>(a: seq<T>, b: seq<T>, c: seq<T>)
    requires a + b == a + c
    ensures b == c
  {
    assert b == (a + b)[|a|..] && c == (a + c)[|a|..];
  }

  /** Opening the first message of a stream that breaks off in the middle of it: the whole of what the receiver holds,
      and the error in place of an end. */
  lemma TruncatedMessageTells(fs: seq<Frame>, e: ReadError)
    requires NoClose(fs) && ReceiveAll(FRESH, fs).ok && ReceiveAll(FRESH, fs).done == []
    requires ReceiveAll(FRESH, fs).current.Some?
    ensures var m := ReceiveAll(FRESH, fs).current.value;
      ReadOne(Feed(fs, Stop(e))) == (Ok(m), Rest(m.data, e, RepliesTo(fs), Stop(e)))
  {
    hide Drain, RepliesTo, Feed;
    var before, f, rest := OpenBegins(fs, Stop(e));
    var r := Receive(FRESH, f);
    assert ReceiveAll(r, rest) == ReceiveAll(FRESH, fs);
    ReceiveGrows(r, rest);
    assert forall i :: 0 <= i < |rest| ==> rest[i] == fs[|before| + 1 + i];
    var bytes := DrainEnds(r, rest, e, f, Stop(e));
    var bytes' := DrainGoesOn(r, rest, Stop(e));
    SamePrefixAdded(r.current.value.data, bytes, bytes');
    MoreFrames(FRESH, before + [f], rest);
    MoreFrames(FRESH, before, [f]);
    OnlyFrame(FRESH, f);
    assert RepliesTo([f]) == [] && RepliesTo(before) + [] == RepliesTo(before);
  }

  /** Up to its first data frame, the receiver and the opening of a message skip the same frames. */
  lemma {:induction false} OpenBegins(fs: seq<Frame>, tail: Stream)
    returns (used: seq<Frame>, first: Frame, left: seq<Frame>)
    requires NoClose(fs) && ReceiveAll(FRESH, fs).ok && ReceiveAll(FRESH, fs) != FRESH
    ensures fs == used + [first] + left
    ensures Open(Feed(fs, tail)) == Opened(Ok(first), RepliesTo(used), Feed(left, tail))
    ensures IsData(first.op) && ReceiveAll(FRESH, fs) == ReceiveAll(Receive(FRESH, first), left)
    decreases |fs|
  {
    var f, rest := fs[0], fs[1..];
    if IsData(f.op) {
      used, first, left := [], f, rest;
    } else {
      ReceiveGrows(Receive(FRESH, f), rest);
      used, first, left := OpenBegins(rest, tail);
      OneMoreFrame(FRESH, f, used);
      used := [f] + used;
    }
  }

  /** Before a message everything but data frames and closes is skipped, pings with a pong; then comes the error that
      ended the connection, the end of file of a close, or the message. */
  lemma {:induction false} OpenSkips(fs: seq<Frame>, tail: Stream)
    requires forall i :: 0 <= i < |fs| ==> !IsData(fs[i].op) && fs[i].op != CLOSE
    ensures Open(Feed(fs, tail)).first == Open(tail).first && Open(Feed(fs, tail)).beyond == Open(tail).beyond
    ensures Open(Feed(fs, tail)).replies == RepliesTo(fs) + Open(tail).replies
    ensures tail.Stop? ==> Open(Feed(fs, tail)) == Opened(Err(tail.error), RepliesTo(fs), tail)
    ensures tail.More? && tail.frame.op == CLOSE ==>
      Open(Feed(fs, tail))
      == Opened(Err(Eof), RepliesTo(fs) + [Frame(CLOSE, true, tail.frame.payload)], tail.next)
    decreases |fs|
  {
    if fs == [] {
      assert [] + Open(tail).replies == Open(tail).replies;
    } else {
      OpenSkips(fs[1..], tail);
      SeqAssoc(Replies(fs[0]), RepliesTo(fs[1..]), Open(tail).replies);
      SeqAssoc(Replies(fs[0]), RepliesTo(fs[1..]), [Frame(CLOSE, true, if tail.More? then tail.frame.payload else [])]);
    }
  }

  // ---------- replies ----------

  /** The payloads of the frames with this opcode, in order. */
  function Payloads(fs: seq<Frame>, op: byte): seq<seq<byte>> {
    if fs == [] then []
    else (if fs[0].op == op then [fs[0].payload] else []) + Payloads(fs[1..], op)
  }

  /** The client finds in the bytes of the replies one pong for each ping and one close for each close, in order and
      with their payloads, and nothing else (RFC 6455, sections 5.5.1 to 5.5.3). */
  lemma ClientFindsReplies(fs: seq<Frame>)
    requires forall i :: 0 <= i < |fs| ==> |fs[i].payload| <= MAX_INT64
    ensures Sendable(RepliesTo(fs))
    ensures var found := ClientFrames(ServerWire(RepliesTo(fs))).0;
      && Payloads(found, PONG) == Payloads(fs, PING) && Payloads(found, CLOSE) == Payloads(fs, CLOSE)
      && forall i :: 0 <= i < |found| ==> found[i].fin && (found[i].op == PONG || found[i].op == CLOSE)
  {
    RepliesTell(fs);
    ServerWireRoundTrip(RepliesTo(fs), []);
    assert ServerWire(RepliesTo(fs)) + [] == ServerWire(RepliesTo(fs));
  }

  lemma {:induction false} RepliesTell(fs: seq<Frame>)
    requires forall i :: 0 <= i < |fs| ==> |fs[i].payload| <= MAX_INT64
    ensures Sendable(RepliesTo(fs))
    ensures Payloads(RepliesTo(fs), PONG) == Payloads(fs, PING)
    ensures Payloads(RepliesTo(fs), CLOSE) == Payloads(fs, CLOSE)
    ensures var found := RepliesTo(fs);
      forall i :: 0 <= i < |found| ==> found[i].fin && (found[i].op == PONG || found[i].op == CLOSE)
  {
    if fs == [] {
    } else {
      RepliesTell(fs[1..]);
      var reply, rest := Replies(fs[0]), RepliesTo(fs[1..]);
      if reply != [] {
        assert (reply + rest)[0] == reply[0] && (reply + rest)[1..] == rest;
      } else {
        assert reply + rest == rest;
      }
    }
  }

  /** Fragment and reassemble: a message cut up as `writerPump` does, with any known control frames but a
      close between its frames, is read as that message and then end of file. */
  lemma FragmentedMessageReadsBack(m: Message, fs: seq<Frame>, tail: Stream)
    requires IsData(m.op) && NoClose(fs) && KnownOpcodes(fs) && DataFrames(fs) == Fragments(m)
    ensures var (r, d) := ReadOne(Feed(fs, tail));
      r == Ok(m) && d.bytes == m.data && d.ending == Eof
  {
    ControlsAreInvisible(FRESH, fs);
    FragmentsReceived([], m, 0);
    var m', used, left := ReadOneFollowsReceiver(FRESH, fs, tail);
    MoreFrames(FRESH, used, left);
    assert Receiver([] + [m'], None, true) == Receiver([m'], None, true);
    ReceiveGrows(Receiver([m'], None, true), left);
    assert ReceiveAll(FRESH, fs).done == [m] && [m][..1] == [m'] && [m'][0] == m;
  }

  // ---------- from bytes ----------

  /** The bytes of any masked encodings of `fs` decode to `fs`. */
  lemma {:induction false} WireDecodes(fs: seq<Sent>, tail: seq<byte>, limit: nat)
    requires AllValid(fs, limit)
    ensures Decode(Wire(fs, limit) + tail, limit) == Feed(Frames(fs), Decode(tail, limit))
  {
    if fs == [] {
      assert Wire(fs, limit) + tail == tail;
    } else {
      var input, rest := Wire(fs, limit) + tail, Wire(fs[1..], limit) + tail;
      assert input == fs[0].Bytes(limit) + rest;
      assert ParseFrame(input, limit) == (Ok(fs[0].frame), rest) by { SentRoundTrip(fs[0], rest, limit); }
      WireDecodes(fs[1..], tail, limit);
      assert Frames(fs)[1..] == Frames(fs[1..]);
    }
  }
}
