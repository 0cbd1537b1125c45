/** The imperative side of pkg/net/websocket/ws.go: one connection over a byte stream in each direction, and
    the reader of one message. Each method is one call that holds the connection's locks throughout. */
module Connection {
  import opened Wrappers
  import opened FrameCodec
  import opened Messages

  class Conn {
    var input: seq<byte>   // sent by the peer and not yet read
    var output: seq<byte>  // written to the peer
    var closed: bool
    const readLimit: nat

    constructor (input: seq<byte>)
      ensures this.input == input && output == [] && !closed && readLimit == READ_LIMIT
    {
      this.input := input;
      output := [];
      closed := false;
      readLimit := READ_LIMIT;
    }

    /** `io.ReadFull`. */
    method ReadFull(p: array<byte>) returns (err: Option<ReadError>)
      modifies this`input, p
      ensures input == Take(old(input), p.Length).1
      ensures match Take(old(input), p.Length).0
              case Ok(bytes) => err == None && p[..] == bytes
              case Err(e) => err == Some(e)
    {
      if p.Length <= |input| {
        forall i | 0 <= i < p.Length {
          p[i] := input[i];
        }
        input := input[p.Length..];
        err := None;
      } else {
        err := if input == [] then Some(Eof) else Some(UnexpectedEof);
        input := [];
      }
    }

    method ReadFrame() returns (r: ReadResult<Frame>)
      modifies this`input
      ensures (r, input) == ParseFrame(old(input), readLimit)
    {
      var h := new byte[2];
      var err := ReadFull(h);
      if err.Some? {
        return Err(err.value);
      }
      var op, fin, mask, prefix := h[0] % 0x10, h[0] >= 0x80, h[1] >= 0x80, h[1] % 0x80;
      assert ParseHead(h[..]) == Head(op, fin, mask, prefix);
      if !mask {
        return Err(UnmaskedFrame);
      }
      var length := ReadLength(prefix);
      if length.Err? {
        return Err(length.error);
      }
      r := ReadBody(op, fin, length.value);
    }

    /** `ReadFrame`, as the message level sees it: the next frame of the decoded stream. */
    method NextFrame() returns (r: ReadResult<Frame>)
      modifies this`input
      ensures match r
              case Ok(f) =>
                && Decode(old(input), readLimit) == More(f, Decode(input, readLimit)) && |input| < |old(input)|
                && f.op < 0x10 && (IsControl(f.op) ==> f.fin && |f.payload| <= MAX_CONTROL_PAYLOAD)
              case Err(e) => Decode(old(input), readLimit) == Stop(e)
    {
      r := ReadFrame();
    }

    /** The extended payload length (ws.go:175-191). */
    method ReadLength(prefix: byte) returns (r: ReadResult<nat>)
      modifies this`input
      ensures (r, input) == ParseLength(prefix as nat, old(input))
    {
      if prefix == 126 {
        var ext := new byte[2];
        var err := ReadFull(ext);
        return if err.Some? then Err(err.value) else Ok(FromBigEndian(ext[..]));
      } else if prefix == 127 {
        var ext := new byte[8];
        var err := ReadFull(ext);
        return if err.Some? then Err(err.value) else Ok(FromBigEndian(ext[..]));
      } else {
        return Ok(prefix as nat);
      }
    }

    /** Limit, masking key, payload unmasked in place, control checks (ws.go:193-220). */
    method ReadBody(op: byte, fin: bool, n: nat) returns (r: ReadResult<Frame>)
      requires op < 0x10
      modifies this`input
      ensures (r, input) == ParseBody(op, fin, n, old(input), readLimit)
    {
      if readLimit < n <= MAX_INT64 {
        return Err(PayloadTooLarge);
      }
      var maskKey := new byte[4];
      var err := ReadFull(maskKey);
      if err.Some? {
        return Err(err.value);
      }
      if n > MAX_INT64 {
        return Err(NegativeLength);
      }
      var payload := new byte[n];
      if n > 0 {
        err := ReadFull(payload);
        if err.Some? {
          return Err(err.value);
        }
        Unmask(payload, maskKey);
      }
      assert n == 0 ==> payload[..] == [];
      r := CheckControl(Frame(op, fin, payload[..]));
    }

    static method Unmask(payload: array<byte>, maskKey: array<byte>)
      requires maskKey.Length == 4 && payload != maskKey
      modifies payload
      ensures payload[..] == Mask(old(payload[..]), maskKey[..])
      ensures forall i, b :: 0 <= i < payload.Length && 0 <= b < 8 ==>
        (Bit(payload[i], b) <==> Bit(old(payload[i]), b) != Bit(maskKey[i % 4], b))
    {
      for i := 0 to payload.Length
        invariant forall j :: 0 <= j < i ==> payload[j] == Xor(old(payload[j]), maskKey[j % 4])
        invariant forall j :: i <= j < payload.Length ==> payload[j] == old(payload[j])
      {
        payload[i] := Xor(payload[i], maskKey[i % 4]);
      }
      forall i, b | 0 <= i < payload.Length && 0 <= b < 8
        ensures Bit(payload[i], b) <==> Bit(old(payload[i]), b) != Bit(maskKey[i % 4], b)
      {
        XorIsBitwise(old(payload[i]), maskKey[i % 4], b);
      }
    }

    /** One unmasked frame; `writeMu` makes it one step. */
    method WriteFrame(op: byte, fin: bool, payload: seq<byte>)
      requires |payload| <= MAX_INT64
      modifies this`output
      ensures output == old(output) + EncodeServer(Frame(op, fin, payload))
    {
      var header := new byte[14];
      header[0] := (if fin then 0x80 else 0) + op % 0x10;
      var hlen, n := 1, |payload|;
      if n <= 125 {
        header[hlen] := n as byte;
        hlen := hlen + 1;
      } else if n <= 0xFFFF {
        header[hlen] := 126;
        hlen := hlen + 1;
        header[hlen] := (n / 256 % 256) as byte;
        header[hlen + 1] := (n % 256) as byte;
        hlen := hlen + 2;
        assert BigEndian(n / 256, 1) == BigEndian(n / 256 / 256, 0) + [(n / 256 % 256) as byte];
        assert header[2..4] == BigEndian(n, 2);
      } else {
        header[hlen] := 127;
        hlen := hlen + 1;
        var ext := BigEndian(n, 8);
        forall i | 0 <= i < 8 {
          header[hlen + i] := ext[i];
        }
        hlen := hlen + 8;
        assert header[2..10] == ext;
      }
      assert header[..hlen] == Header(Frame(op, fin, payload), 0, false, ShortestForm(n));
      output := output + header[..hlen];
      if n > 0 {
        output := output + payload;
      }
    }

    /** What `writerPump` does with one message it has taken from the queue (ws.go:456-484), uninterrupted. */
    method PumpMessage(m: Message)
      requires |m.data| <= MAX_INT64 && m.op < 0x10
      modifies this`output
      ensures Sendable(Fragments(m)) && output == old(output) + ServerWire(Fragments(m))
    {
      hide EncodeServer;
      FragmentsAreSendable(m, 0);
      if |m.data| <= MAX_FRAGMENT {
        ServerWireFragment(m, 0);
        assert m.data[0..|m.data|] == m.data;
        WriteFrame(m.op, true, m.data);
        return;
      }
      var total, offset, first := |m.data|, 0, true;
      while offset < total
        invariant offset <= total && (first <==> offset == 0)
        invariant Sendable(Pieces(m, offset))
        invariant old(output) + ServerWire(Fragments(m)) == output + ServerWire(Pieces(m, offset))
      {
        var end := offset + MAX_FRAGMENT;
        if end > total {
          end := total;
        }
        var chunk, fin := m.data[offset..end], end == total;
        var op;
        if first {
          op, first := m.op, false;
        } else {
          op := CONTINUATION;
        }
        ServerWireFragment(m, offset);
        SeqAssoc(output, EncodeServer(FragmentAt(m, offset)), ServerWire(Pieces(m, end)));
        WriteFrame(op, fin, chunk);
        offset := end;
      }
      assert output + [] == output;
    }

    /** Opens the next message (ws.go:354-395). */
    method ReadMessageStream() returns (op: byte, reader: StreamReader?, err: Option<ReadError>)
      modifies this`input, this`output
      ensures old(closed) ==> err == Some(ConnectionClosed) && input == old(input) && output == old(output)
      ensures !old(closed) ==>
        var o := Open(Decode(old(input), readLimit));
        && Sendable(o.replies) && output == old(output) + ServerWire(o.replies)
        && match o.first
           case Err(e) => err == Some(e)
           case Ok(f) =>
             && err == None && op == f.op && reader != null && fresh(reader)
             && reader.parent == this && reader.Valid() && reader.KnowsOpcode()
             && reader.Pending() == Remaining(f, o.beyond)
    {
      hide Decode, ServerWire, Drain, Open, LeadsOn;
      ServerWireOfNothing();
      op, reader := 0, null;
      if closed {
        return 0, null, Some(ConnectionClosed);
      }
      ghost var start, sent := Open(Decode(input, readLimit)), [];
      RepliesAreSendable(0, input, readLimit);
      OpenLeadsOn(Decode(input, readLimit));
      while true
        invariant LeadsOn(start, sent, Decode(input, readLimit))
        invariant Sendable(sent) && output == old(output) + ServerWire(sent)
        invariant Sendable(start.replies)
        decreases |input|
      {
        OpenStep(start, sent, Decode(input, readLimit));
        assert sent + [] == sent;
        var r := NextFrame();
        if r.Err? {
          return 0, null, Some(r.error);
        }
        var f := r.value;
        if IsData(f.op) {
          reader := new StreamReader(this, if f.fin then 0 else f.op, f.payload, f.fin);
          return f.op, reader, None;
        } else if f.op == PING {
          WriteReply(PONG, f.payload, old(output), sent);
          sent := sent + [Frame(PONG, true, f.payload)];
        } else if f.op == CLOSE {
          WriteReply(CLOSE, f.payload, old(output), sent);
          return 0, null, Some(Eof);
        }
      }
    }

    /** Writes a reply; `base` is the output before the call at hand and `sent` its replies so far. */
    method WriteReply(op: byte, payload: seq<byte>, ghost base: seq<byte>, ghost sent: seq<Frame>)
      requires |payload| <= MAX_CONTROL_PAYLOAD && op < 0x10 && Sendable(sent)
      requires output == base + ServerWire(sent)
      modifies this`output
      ensures Sendable(sent + [Frame(op, true, payload)])
      ensures output == base + ServerWire(sent + [Frame(op, true, payload)])
    {
      hide EncodeServer;
      WriteFrame(op, true, payload);
      ServerWireAppend(sent, Frame(op, true, payload));
    }
  }

  /** With `sent` as replies so far, what opens `s` completes `start`. */
  ghost predicate LeadsOn(start: Opened, sent: seq<Frame>, s: Stream) {
    var o := Open(s);
    start.first == o.first && start.beyond == o.beyond && start.replies == sent + o.replies
  }

  lemma OpenLeadsOn(s: Stream)
    ensures LeadsOn(Open(s), [], s)
  {
  }

  lemma OpenStep(start: Opened, sent: seq<Frame>, s: Stream)
    requires LeadsOn(start, sent, s)
    ensures match s
            case Stop(e) => start == Opened(Err(e), sent, s)
            case More(f, next) =>
              if IsData(f.op) then start == Opened(Ok(f), sent, next)
              else if f.op == CLOSE then start == Opened(Err(Eof), sent + Replies(f), next)
              else LeadsOn(start, sent + Replies(f), next)
  {
    assert sent + [] == sent;
  }

  lemma ServerWireOfNothing()
    ensures ServerWire([]) == []
  {
  }

  lemma {:induction false} FragmentsAreSendable(m: Message, offset: nat)
    requires m.op < 0x10 && |m.data| <= MAX_INT64 && (offset < |m.data| || offset == 0)
    ensures Sendable(FragmentsFrom(m, offset))
    decreases |m.data| - offset
  {
    if FragmentAt(m, offset).fin {
    } else {
      FragmentsAreSendable(m, offset + MAX_FRAGMENT);
    }
  }

  /** The fragments still to be written when those below `offset` have been. */
  function Pieces(m: Message, offset: nat): seq<Frame>
    requires offset <= |m.data|
  {
    if offset < |m.data| then FragmentsFrom(m, offset) else []
  }

  lemma ServerWireFragment(m: Message, offset: nat)
    requires m.op < 0x10 && |m.data| <= MAX_INT64 && (offset < |m.data| || offset == 0)
    ensures var f, all := FragmentAt(m, offset), FragmentsFrom(m, offset);
      && Sendable(all) && f.op < 0x10 && |f.payload| <= MAX_INT64
      && Sendable(Pieces(m, offset + |f.payload|))
      && ServerWire(all) == EncodeServer(f) + ServerWire(Pieces(m, offset + |f.payload|))
  {
    hide EncodeServer;
    var f := FragmentAt(m, offset);
    FragmentsAreSendable(m, offset);
    ServerWireSplits(f, Pieces(m, offset + |f.payload|));
  }

  lemma {:induction false} RepliesAreSendable(op: byte, input: seq<byte>, limit: nat)
    ensures Sendable(Open(Decode(input, limit)).replies)
    ensures Sendable(Drain(op, Decode(input, limit)).replies)
    decreases |input|
  {
    match ParseFrame(input, limit)
    case (Err(_), _) =>
    case (Ok(f), rest) =>
      RepliesAreSendable(op, rest, limit);
      RepliesAreSendable(f.op, rest, limit);
  }

  /** Streams one message (ws.go:272-345). */
  class StreamReader {
    const parent: Conn
    var op: byte            // opcode of the first frame while the message is unfinished
    var buf: seq<byte>      // received and not yet handed out
    var done: bool
    var readErr: Option<ReadError>

    constructor (parent: Conn, op: byte, buf: seq<byte>, done: bool)
      ensures this.parent == parent && this.op == op && this.buf == buf && this.done == done && readErr == None
    {
      this.parent := parent;
      this.op := op;
      this.buf := buf;
      this.done := done;
      readErr := None;
    }

    ghost predicate Valid()
      reads this
    {
      (!done ==> readErr == None) && (readErr.Some? ==> buf == [])
    }

    /** An unfinished reader knows its opcode, so to it a new data opcode is always an error. */
    ghost predicate KnowsOpcode()
      reads this
    {
      !done ==> IsData(op)
    }

    /** What successive reads will still deliver. */
    ghost function Pending(): Rest
      reads this, parent
    {
      var beyond := Decode(parent.input, parent.readLimit);
      if done then Rest(buf, if readErr.Some? then readErr.value else Eof, [], beyond)
      else
        var d := Drain(op, beyond);
        d.(bytes := buf + d.bytes)
    }

    /** Takes one frame from the connection (ws.go:297-343); `base` and `sent` as for `WriteReply`. */
    method Pull(ghost base: seq<byte>, ghost sent: seq<Frame>) returns (ghost sent': seq<Frame>)
      requires Valid() && !done && buf == []
      requires Sendable(sent) && parent.output == base + ServerWire(sent)
      modifies this, parent`input, parent`output
      ensures Valid() && (old(KnowsOpcode()) ==> KnowsOpcode())
      ensures Sendable(sent') && parent.output == base + ServerWire(sent')
      ensures Pending().bytes == old(Pending()).bytes && Pending().ending == old(Pending()).ending
      ensures sent' + Pending().replies == sent + old(Pending()).replies
      ensures readErr == None ==> Pending().beyond == old(Pending()).beyond
      ensures done || |parent.input| < old(|parent.input|)
    {
      hide Decode, ServerWire;
      sent' := sent;
      var r := parent.NextFrame();
      if r.Err? {
        readErr, done := Some(r.error), true;
        return;
      }
      var f := r.value;
      if f.op == PING {
        parent.WriteReply(PONG, f.payload, base, sent);
        SeqAssoc(sent, [Frame(PONG, true, f.payload)], Pending().replies);
        sent' := sent + [Frame(PONG, true, f.payload)];
      } else if f.op == CLOSE {
        parent.WriteReply(CLOSE, f.payload, base, sent);
        sent' := sent + [Frame(CLOSE, true, f.payload)];
        readErr, done := Some(Eof), true;
      } else if f.op == CONTINUATION {
        buf := f.payload;
        done := f.fin;
      } else if IsData(f.op) {
        if op == 0 {
          op, buf, done := f.op, f.payload, f.fin;
        } else {
          readErr, done := Some(NewDataOpcode), true;
        }
      }
    }

    /** Copies what fits. */
    method HandOut(p: array<byte>) returns (n: nat)
      requires Valid() && buf != []
      modifies `buf, p
      ensures n <= p.Length && Valid() && (p.Length > 0 ==> n > 0)
      ensures old(Pending()) == Pending().(bytes := p[..n] + Pending().bytes)
    {
      hide Decode, Drain;
      n := if |buf| < p.Length then |buf| else p.Length;
      forall i | 0 <= i < n {
        p[i] := buf[i];
      }
      assert p[..n] == buf[..n] && buf == buf[..n] + buf[n..];
      buf := buf[n..];
    }

    method Read(p: array<byte>) returns (n: nat, err: Option<ReadError>, ghost sent: seq<Frame>)
      requires Valid()
      modifies this, parent`input, parent`output, p
      ensures n <= p.Length && Valid() && (old(KnowsOpcode()) ==> KnowsOpcode())
      ensures ReadStep(old(Pending()), p.Length, p[..n], err, Pending())
      ensures old(Pending()).replies == sent + Pending().replies
      ensures Sendable(sent) && parent.output == old(parent.output) + ServerWire(sent)
      ensures err == None || (err == Some(Eof) && readErr == None) ==> Pending().beyond == old(Pending()).beyond
    {
      hide Decode, Drain, EncodeServer, ServerWire;
      ServerWireOfNothing();
      n, err, sent := 0, None, [];
      while true
        invariant Valid() && (old(KnowsOpcode()) ==> KnowsOpcode())
        invariant Pending().bytes == old(Pending()).bytes && Pending().ending == old(Pending()).ending
        invariant sent + Pending().replies == old(Pending()).replies
        invariant readErr == None ==> Pending().beyond == old(Pending()).beyond
        invariant Sendable(sent) && parent.output == old(parent.output) + ServerWire(sent)
        invariant n == 0 && err == None
        decreases !done, |parent.input|
      {
        if |buf| > 0 {
          n := HandOut(p);
          return;
        }
        if done {
          err := if readErr.Some? then readErr else Some(Eof);
          return;
        }
        sent := Pull(old(parent.output), sent);
      }
    }
  }
}
