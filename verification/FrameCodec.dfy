/** The byte layer of pkg/net/websocket/ws.go: frames as bytes (RFC 6455, sections 5.2 and 5.3).

    `ParseFrame` is the specification of `readFrame`; `AcceptedExactly` says, for every input, that it
    accepts precisely the masked encodings of the frames the reader allows. */
module FrameCodec {
  import opened Wrappers

  newtype byte = b: int | 0 <= b < 0x100

  const CONTINUATION: byte := 0x0
  const TEXT: byte := 0x1
  const BINARY: byte := 0x2
  const CLOSE: byte := 0x8
  const PING: byte := 0x9
  const PONG: byte := 0xA
  const MAX_CONTROL_PAYLOAD := 125
  const MAX_INT64 := 0x7FFF_FFFF_FFFF_FFFF
  const READ_LIMIT := 0x100_0000

  datatype Frame = Frame(op: byte, fin: bool, payload: seq<byte>)

  /** The errors of `readFrame`. `NegativeLength` is the run-time panic of allocating a slice whose
      64-bit length has its top bit set; `NewDataOpcode` is added by `streamReader.Read`, `ConnectionClosed` by
      `ReadMessageStream`. */
  datatype ReadError =
    | Eof
    | UnexpectedEof
    | UnmaskedFrame
    | PayloadTooLarge
    | NegativeLength
    | FragmentedControl
    | ControlTooLarge
    | NewDataOpcode
    | ConnectionClosed

  type ReadResult<T> = Result<T, ReadError>

  // ---------- big-endian numbers ----------

  function Pow256(k: nat): (p: nat) {
    if k == 0 then 1 else 256 * Pow256(k - 1)
  }

  /** The low `k` bytes of `n`, most significant first. */
  function BigEndian(n: nat, k: nat): (s: seq<byte>)
    ensures |s| == k
  {
    if k == 0 then [] else BigEndian(n / 256, k - 1) + [(n % 256) as byte]
  }

  function FromBigEndian(s: seq<byte>): nat {
    if s == [] then 0 else 256 * FromBigEndian(s[..|s| - 1]) + s[|s| - 1] as nat
  }

  lemma {:induction false} BigEndianRoundTrip(n: nat, k: nat)
    requires n < Pow256(k)
    ensures FromBigEndian(BigEndian(n, k)) == n
  {
    if k == 0 {
    } else {
      BigEndianRoundTrip(n / 256, k - 1);
      var s := BigEndian(n, k);
      assert s[..|s| - 1] == BigEndian(n / 256, k - 1);
    }
  }

  lemma {:induction false} FromBigEndianRoundTrip(s: seq<byte>)
    ensures FromBigEndian(s) < Pow256(|s|)
    ensures BigEndian(FromBigEndian(s), |s|) == s
  {
    if s == [] {
    } else {
      var hi, lo := s[..|s| - 1], s[|s| - 1];
      FromBigEndianRoundTrip(hi);
      var v, d := FromBigEndian(hi), lo as nat;
      assert FromBigEndian(s) == 256 * v + d;
      assert (256 * v + d) / 256 == v && (256 * v + d) % 256 == d;
      assert s == hi + [lo];
    }
  }

  lemma PowersOf256()
    ensures Pow256(2) == 0x1_0000 && Pow256(8) == 0x1_0000_0000_0000_0000
  {
    assert Pow256(1) == 256;
    assert Pow256(3) == 256 * Pow256(2) && Pow256(4) == 256 * Pow256(3);
    assert Pow256(5) == 256 * Pow256(4) && Pow256(6) == 256 * Pow256(5);
    assert Pow256(7) == 256 * Pow256(6);
  }

  // ---------- frame layout ----------

  /** The three ways RFC 6455 section 5.2 writes a payload length. */
  datatype LengthForm = Short | Medium | Long

  predicate Fits(form: LengthForm, n: nat) {
    match form
    case Short => n <= 125
    case Medium => n <= 0xFFFF
    case Long => n <= MAX_INT64
  }

  function ShortestForm(n: nat): LengthForm {
    if n <= 125 then Short else if n <= 0xFFFF then Medium else Long
  }

  // Bit operations on header bytes, written as arithmetic: `b & 0x0F` is `b % 0x10`, bit 7 is `b >= 0x80`.

  function FirstByte(op: byte, fin: bool, rsv: byte): byte
    requires rsv < 8
  {
    (if fin then 0x80 else 0) + 0x10 * rsv + op % 0x10
  }

  function SecondByte(masked: bool, prefix: byte): byte
    requires prefix < 0x80
  {
    if masked then 0x80 + prefix else prefix
  }

  datatype Head = Head(op: byte, fin: bool, masked: bool, prefix: byte)

  function ParseHead(h: seq<byte>): Head
    requires |h| == 2
  {
    Head(h[0] % 0x10, h[0] >= 0x80, h[1] >= 0x80, h[1] % 0x80)
  }

  /** The reserved bits, which `readFrame` does not look at. */
  function ReservedBits(b0: byte): byte {
    (b0 / 0x10) % 8
  }

  function LengthPrefix(form: LengthForm, n: nat): (p: byte)
    requires Fits(form, n)
  {
    match form
    case Short => n as byte
    case Medium => 126
    case Long => 127
  }

  function LengthExtension(form: LengthForm, n: nat): seq<byte> {
    match form
    case Short => []
    case Medium => BigEndian(n, 2)
    case Long => BigEndian(n, 8)
  }

  function Mask(payload: seq<byte>, key: seq<byte>): (m: seq<byte>)
    requires |key| == 4
  {
    seq(|payload|, i requires 0 <= i < |payload| => Xor(payload[i], key[i % 4]))
  }

  /** Exclusive or of two bytes, bit by bit from the lowest. */
  function Xor(a: byte, k: byte): byte {
    XorBits(a as nat, k as nat, 8) as byte
  }

  function XorBits(a: nat, k: nat, bits: nat): (x: nat)
    ensures x < Pow2(bits)
  {
    if bits == 0 then 0 else 2 * XorBits(a / 2, k / 2, bits - 1) + (a + k) % 2
  }

  /** Bit `i` of a byte, counted from the lowest. */
  predicate Bit(b: byte, i: nat) {
    b as nat / Pow2(i) % 2 == 1
  }

  /** What the exclusive or of two bytes is: a bit is set exactly where the two differ. */
  lemma XorIsBitwise(a: byte, k: byte, i: nat)
    requires i < 8
    ensures Bit(Xor(a, k), i) <==> Bit(a, i) != Bit(k, i)
  {
    hide Xor, XorBits;
    XorIs(a, k);
    XorBitAt(a as nat, k as nat, 8, i);
    OddSum(a as nat / Pow2(i), k as nat / Pow2(i));
  }

  lemma XorIs(a: byte, k: byte)
    ensures Xor(a, k) as nat == XorBits(a as nat, k as nat, 8)
  {
    assert Pow2(8) == 256;
  }

  lemma OddSum(u: nat, v: nat)
    ensures (u + v) % 2 == 1 <==> (u % 2 == 1) != (v % 2 == 1)
  {
  }

  lemma {:induction false} XorBitAt(a: nat, k: nat, bits: nat, i: nat)
    requires i < bits
    ensures XorBits(a, k, bits) / Pow2(i) % 2 == (a / Pow2(i) + k / Pow2(i)) % 2
  {
    hide XorBits;
    XorStep(a, k, bits);
    var x, high := XorBits(a, k, bits), XorBits(a / 2, k / 2, bits - 1);
    if i == 0 {
      assert x / 1 == x && a / 1 == a && k / 1 == k;
    } else {
      XorBitAt(a / 2, k / 2, bits - 1, i - 1);
      assert x / 2 == high;
      HalfFirst(x, i);
      HalfFirst(a, i);
      HalfFirst(k, i);
    }
  }

  lemma HalfFirst(n: nat, i: nat)
    requires i > 0
    ensures n / Pow2(i) == n / 2 / Pow2(i - 1)
  {
    var p := Pow2(i - 1);
    var q := n / 2 / p;
    var r := n / 2 - q * p;
    QuotientIs(n, 2 * p, q, 2 * r + n % 2);
  }

  lemma QuotientIs(n: nat, d: nat, q: nat, r: nat)
    requires d > 0 && r < d && n == q * d + r
    ensures n / d == q
  {
    var q', r' := n / d, n % d;
    assert n == q' * d + r';
    if q' < q {
      OneMoreTimes(q', q, d);
    } else if q < q' {
      OneMoreTimes(q, q', d);
    }
  }

  lemma OneMoreTimes(a: nat, b: nat, d: nat)
    requires a < b
    ensures a * d + d <= b * d
  {
    var c := b - a - 1;
    assert b * d == (a + 1 + c) * d == a * d + d + c * d;
  }

  lemma MaskIsInvolutive(payload: seq<byte>, key: seq<byte>)
    requires |key| == 4
    ensures Mask(Mask(payload, key), key) == payload
  {
    forall i | 0 <= i < |payload|
      ensures Mask(Mask(payload, key), key)[i] == payload[i]
    {
      XorTwice(payload[i] as nat, key[i % 4] as nat, 8);
    }
  }

  lemma XorStep(a: nat, k: nat, bits: nat)
    requires bits > 0
    ensures XorBits(a, k, bits) == 2 * XorBits(a / 2, k / 2, bits - 1) + (a + k) % 2
  {
  }

  lemma LowBitTwice(a: nat, k: nat, x: nat)
    requires x % 2 == (a + k) % 2
    ensures (x + k) % 2 == a % 2
  {
  }

  lemma {:induction false} XorTwice(a: nat, k: nat, bits: nat)
    requires a < Pow2(bits)
    ensures XorBits(XorBits(a, k, bits), k, bits) == a
  {
    if bits == 0 {
    } else {
      XorTwice(a / 2, k / 2, bits - 1);
      var x, high, low := XorBits(a, k, bits), XorBits(a / 2, k / 2, bits - 1), (a + k) % 2;
      XorStep(a, k, bits);
      XorStep(x, k, bits);
      assert x == 2 * high + low && x / 2 == high && x % 2 == low;
      LowBitTwice(a, k, x);
    }
  }

  function Header(f: Frame, rsv: byte, masked: bool, form: LengthForm): seq<byte>
    requires Fits(form, |f.payload|) && rsv < 8
  {
    [FirstByte(f.op, f.fin, rsv), SecondByte(masked, LengthPrefix(form, |f.payload|))]
    + LengthExtension(form, |f.payload|)
  }

  /** A client frame: header, masking key, masked payload. */
  function EncodeMasked(f: Frame, rsv: byte, form: LengthForm, key: seq<byte>): seq<byte>
    requires Fits(form, |f.payload|) && |key| == 4 && rsv < 8
  {
    Header(f, rsv, true, form) + (key + Mask(f.payload, key))
  }

  /** A server frame: no mask, reserved bits clear, the shortest length form. */
  function EncodeServer(f: Frame): seq<byte>
    requires |f.payload| <= MAX_INT64
  {
    Header(f, 0, false, ShortestForm(|f.payload|)) + f.payload
  }

  /** The encoding is as short as any form that can hold the length (RFC 6455, section 5.2). */
  lemma ServerFormIsShortest(n: nat, form: LengthForm)
    requires Fits(form, n)
    ensures Fits(ShortestForm(n), n)
    ensures |LengthExtension(ShortestForm(n), n)| <= |LengthExtension(form, n)|
    ensures |LengthExtension(ShortestForm(n), n)| == |LengthExtension(form, n)| ==> ShortestForm(n) == form
  {
  }

  predicate IsControl(op: byte) {
    op >= 0x8
  }

  /** What `readFrame` lets through once the bytes are in. */
  predicate Allowed(f: Frame, limit: nat) {
    && f.op < 0x10
    && |f.payload| <= limit
    && (IsControl(f.op) ==> f.fin && |f.payload| <= MAX_CONTROL_PAYLOAD)
  }

  // ---------- parsing ----------

  /** `io.ReadFull` of `n > 0` bytes: the bytes (or the error) and what is left of the input. */
  function Take(input: seq<byte>, n: nat): (r: (ReadResult<seq<byte>>, seq<byte>)) {
    if n <= |input| then (Ok(input[..n]), input[n..])
    else if input == [] then (Err(Eof), [])
    else (Err(UnexpectedEof), [])
  }

  /** Reads the payload length that `prefix` announces. */
  function ParseLength(prefix: nat, input: seq<byte>): (r: (ReadResult<nat>, seq<byte>)) {
    if prefix == 126 then
      match Take(input, 2)
      case (Ok(ext), rest) => (Ok(FromBigEndian(ext)), rest)
      case (Err(e), rest) => (Err(e), rest)
    else if prefix == 127 then
      match Take(input, 8)
      case (Ok(ext), rest) => (Ok(FromBigEndian(ext)), rest)
      case (Err(e), rest) => (Err(e), rest)
    else (Ok(prefix), input)
  }

  function CheckControl(f: Frame): ReadResult<Frame> {
    if IsControl(f.op) && !f.fin then Err(FragmentedControl)
    else if IsControl(f.op) && |f.payload| > MAX_CONTROL_PAYLOAD then Err(ControlTooLarge)
    else Ok(f)
  }

  /** Reads the masking key and a payload of `n` bytes, then checks control frames. A length of 2^63 or
      more is negative once converted to `int64`, so it passes the limit test and then panics. */
  function ParseBody(op: byte, fin: bool, n: nat, input: seq<byte>, limit: nat): (r: (ReadResult<Frame>, seq<byte>))
    requires op < 0x10
  {
    if limit < n <= MAX_INT64 then (Err(PayloadTooLarge), input)
    else match Take(input, 4)
      case (Err(e), rest) => (Err(e), rest)
      case (Ok(key), rest) =>
        if n > MAX_INT64 then (Err(NegativeLength), rest)
        else if n == 0 then (CheckControl(Frame(op, fin, [])), rest)
        else match Take(rest, n)
          case (Err(e), rest') => (Err(e), rest')
          case (Ok(masked), rest') => (CheckControl(Frame(op, fin, Mask(masked, key))), rest')
  }

  /** One call of `readFrame`: its answer and the bytes it leaves unread. */
  function ParseFrame(input: seq<byte>, limit: nat): (r: (ReadResult<Frame>, seq<byte>))
    ensures r.0.Ok? ==> |r.1| + 6 <= |input| && Allowed(r.0.value, limit)
  {
    match Take(input, 2)
    case (Err(e), rest) => (Err(e), rest)
    case (Ok(h), rest) =>
      var head := ParseHead(h);
      if !head.masked then (Err(UnmaskedFrame), rest)
      else match ParseLength(head.prefix as nat, rest)
        case (Err(e), rest') => (Err(e), rest')
        case (Ok(n), rest') => ParseBody(head.op, head.fin, n, rest', limit)
  }

  // ---------- what ParseFrame accepts ----------

  lemma HeadFields(op: byte, fin: bool, rsv: byte, masked: bool, prefix: byte)
    requires op < 0x10 && rsv < 8 && prefix < 0x80
    ensures ParseHead([FirstByte(op, fin, rsv), SecondByte(masked, prefix)]) == Head(op, fin, masked, prefix)
  {
  }

  lemma HeadRebuilt(h: seq<byte>)
    requires |h| == 2
    ensures var head := ParseHead(h);
      && head.op < 0x10 && head.prefix < 0x80
      && h == [FirstByte(head.op, head.fin, ReservedBits(h[0])), SecondByte(head.masked, head.prefix)]
  {
  }

  lemma LengthRoundTrip(form: LengthForm, n: nat, tail: seq<byte>)
    requires Fits(form, n)
    ensures ParseLength(LengthPrefix(form, n) as nat, LengthExtension(form, n) + tail) == (Ok(n), tail)
  {
    PowersOf256();
    var ext := LengthExtension(form, n);
    assert (ext + tail)[..|ext|] == ext && (ext + tail)[|ext|..] == tail;
    if form.Medium? {
      BigEndianRoundTrip(n, 2);
    } else if form.Long? {
      BigEndianRoundTrip(n, 8);
    }
  }

  lemma HeaderRoundTrip(f: Frame, rsv: byte, masked: bool, form: LengthForm, body: seq<byte>)
    requires Fits(form, |f.payload|) && f.op < 0x10 && rsv < 8
    ensures var input, p := Header(f, rsv, masked, form) + body, LengthPrefix(form, |f.payload|);
      && |input| >= 2
      && ParseHead(input[..2]) == Head(f.op, f.fin, masked, p)
      && ParseLength(p as nat, input[2..]) == (Ok(|f.payload|), body)
  {
    var n := |f.payload|;
    var p, ext := LengthPrefix(form, n), LengthExtension(form, n);
    var input := Header(f, rsv, masked, form) + body;
    assert input[..2] == [FirstByte(f.op, f.fin, rsv), SecondByte(masked, p)] && input[2..] == ext + body;
    HeadFields(f.op, f.fin, rsv, masked, p);
    LengthRoundTrip(form, n, body);
  }

  lemma BodyRoundTrip(f: Frame, key: seq<byte>, tail: seq<byte>, limit: nat)
    requires Allowed(f, limit) && |key| == 4 && |f.payload| <= MAX_INT64
    ensures ParseBody(f.op, f.fin, |f.payload|, key + Mask(f.payload, key) + tail, limit) == (Ok(f), tail)
  {
    var n, masked := |f.payload|, Mask(f.payload, key);
    var input := key + masked + tail;
    assert input[..4] == key && input[4..] == masked + tail;
    assert (masked + tail)[..n] == masked && (masked + tail)[n..] == tail;
    MaskIsInvolutive(f.payload, key);
  }

  /** Completeness: every allowed frame, masked with any key, in any length form that holds it, with any
      reserved bits, is read back as it was and exactly its bytes are consumed. */
  lemma FrameRoundTrip(f: Frame, rsv: byte, form: LengthForm, key: seq<byte>, tail: seq<byte>, limit: nat)
    requires Allowed(f, limit) && Fits(form, |f.payload|) && |key| == 4 && rsv < 8
    ensures ParseFrame(EncodeMasked(f, rsv, form, key) + tail, limit) == (Ok(f), tail)
  {
    hide Header, Mask, ParseHead, ParseLength, ParseBody, LengthPrefix;
    var body := key + Mask(f.payload, key) + tail;
    assert EncodeMasked(f, rsv, form, key) + tail == Header(f, rsv, true, form) + body;
    HeaderRoundTrip(f, rsv, true, form, body);
    BodyRoundTrip(f, key, tail, limit);
  }

  lemma LengthSound(prefix: byte, input: seq<byte>) returns (form: LengthForm)
    requires prefix < 0x80
    requires ParseLength(prefix as nat, input).0.Ok?
    requires ParseLength(prefix as nat, input).0.value <= MAX_INT64
    ensures var (n, rest) := ParseLength(prefix as nat, input);
      Fits(form, n.value) && prefix == LengthPrefix(form, n.value) && input == LengthExtension(form, n.value) + rest
  {
    PowersOf256();
    form := if prefix == 126 then Medium else if prefix == 127 then Long else Short;
    if prefix == 126 {
      FromBigEndianRoundTrip(input[..2]);
    } else if prefix == 127 {
      FromBigEndianRoundTrip(input[..8]);
    }
  }

  lemma BodySound(op: byte, fin: bool, n: nat, input: seq<byte>, limit: nat) returns (key: seq<byte>)
    requires op < 0x10 && ParseBody(op, fin, n, input, limit).0.Ok?
    ensures var (f, rest) := ParseBody(op, fin, n, input, limit);
      && n == |f.value.payload| <= MAX_INT64
      && f.value.op == op && f.value.fin == fin && Allowed(f.value, limit)
      && |key| == 4 && input == key + Mask(f.value.payload, key) + rest
  {
    key := input[..4];
    var masked := input[4..][..n];
    MaskIsInvolutive(masked, key);
    assert input == key + masked + input[4..][n..];
  }

  lemma HeaderSound(input: seq<byte>, f: Frame, body: seq<byte>) returns (rsv: byte, form: LengthForm)
    requires |input| >= 2 && |f.payload| <= MAX_INT64
    requires var head := ParseHead(input[..2]);
      && head.masked && head.op == f.op && head.fin == f.fin
      && ParseLength(head.prefix as nat, input[2..]) == (Ok(|f.payload|), body)
    ensures Fits(form, |f.payload|) && f.op < 0x10 && rsv < 8
    ensures input == Header(f, rsv, true, form) + body
  {
    HeadRebuilt(input[..2]);
    rsv := ReservedBits(input[0]);
    form := LengthSound(ParseHead(input[..2]).prefix, input[2..]);
  }

  /** Soundness: whatever is accepted is the encoding of an allowed frame, followed by what is left. */
  lemma AcceptedIsEncoding(input: seq<byte>, limit: nat) returns (rsv: byte, form: LengthForm, key: seq<byte>)
    requires ParseFrame(input, limit).0.Ok?
    ensures var (f, rest) := ParseFrame(input, limit);
      && |key| == 4 && rsv < 8
      && Fits(form, |f.value.payload|)
      && Allowed(f.value, limit)
      && input == EncodeMasked(f.value, rsv, form, key) + rest
  {
    var head := ParseHead(input[..2]);
    var (n, body) := ParseLength(head.prefix as nat, input[2..]);
    key := BodySound(head.op, head.fin, n.value, body, limit);
    rsv, form := HeaderSound(input, ParseFrame(input, limit).0.value, body);
  }

  ghost predicate IsEncodingOf(bytes: seq<byte>, f: Frame) {
    exists rsv: byte, form, key: seq<byte> ::
      rsv < 8 && |key| == 4 && Fits(form, |f.payload|) && bytes == EncodeMasked(f, rsv, form, key)
  }

  /** `readFrame` answers `f` and leaves `rest` exactly when the input is an encoding of the allowed frame
      `f` followed by `rest`. */
  lemma AcceptedExactly(input: seq<byte>, limit: nat, f: Frame, rest: seq<byte>)
    ensures ParseFrame(input, limit) == (Ok(f), rest) <==>
            |rest| <= |input| && input[|input| - |rest|..] == rest
            && Allowed(f, limit) && IsEncodingOf(input[..|input| - |rest|], f)
  {
    hide ParseFrame, EncodeMasked, Fits, Allowed;
    if ParseFrame(input, limit) == (Ok(f), rest) {
      var rsv, form, key := AcceptedIsEncoding(input, limit);
      assert input[..|input| - |rest|] == EncodeMasked(f, rsv, form, key);
    }
    if |rest| <= |input| && input[|input| - |rest|..] == rest
       && Allowed(f, limit) && IsEncodingOf(input[..|input| - |rest|], f) {
      var bytes := input[..|input| - |rest|];
      var rsv: byte, form, key: seq<byte> :|
        rsv < 8 && |key| == 4 && Fits(form, |f.payload|) && bytes == EncodeMasked(f, rsv, form, key);
      FrameRoundTrip(f, rsv, form, key, rest, limit);
      assert input == bytes + rest;
    }
  }

  // ---------- lengths that are negative to the reader ----------

  /** The first byte of a number decides whether its top bit is set. */
  lemma {:induction false} FirstByteBounds(s: seq<byte>)
    requires s != []
    ensures s[0] as nat * Pow256(|s| - 1) <= FromBigEndian(s) < (s[0] as nat + 1) * Pow256(|s| - 1)
  {
    var hi := s[..|s| - 1];
    if hi == [] {
      assert FromBigEndian(hi) == 0 && Pow256(0) == 1;
    } else {
      FirstByteBounds(hi);
      OneDigitMore(s[0] as nat, FromBigEndian(hi), s[|s| - 1] as nat, Pow256(|s| - 2));
    }
  }

  lemma OneDigitMore(a: nat, x: nat, b: nat, p: nat)
    requires a * p <= x < (a + 1) * p && b < 256
    ensures a * (256 * p) <= 256 * x + b < (a + 1) * (256 * p)
  {
    assert a * (256 * p) == 256 * (a * p) && (a + 1) * (256 * p) == 256 * ((a + 1) * p);
  }

  lemma TopBitExactly(ext: seq<byte>)
    requires |ext| == 8
    ensures FromBigEndian(ext) > MAX_INT64 <==> ext[0] >= 0x80
  {
    FirstByteBounds(ext);
    PowersOf256();
    assert Pow256(8) == 256 * Pow256(7);
  }

  /** `readFrame` panics on a negative length exactly for the inputs of at least fourteen bytes whose second byte
      announces a masked 64-bit length and whose third byte has the top bit set, which RFC 6455 section 5.2 forbids. */
  lemma NegativeLengthExactly(input: seq<byte>, limit: nat)
    ensures ParseFrame(input, limit).0 == Err(NegativeLength) <==>
            |input| >= 14 && input[1] == 0xFF && input[2] >= 0x80
  {
    if |input| >= 2 {
      var head, rest := ParseHead(input[..2]), input[2..];
      assert head.masked && head.prefix == 127 <==> input[1] == 0xFF;
      if head.masked {
        if head.prefix == 127 {
          if |rest| >= 8 {
            TopBitExactly(rest[..8]);
          }
        } else if head.prefix == 126 {
          if |rest| >= 2 {
            FromBigEndianRoundTrip(rest[..2]);
            PowersOf256();
          }
        }
      }
    }
  }

  /** One such input: a binary frame of length 2^63. */
  lemma NegativeLengthHappens(limit: nat)
    ensures ParseFrame([0x82, 0xFF, 0x80, 0, 0, 0, 0, 0, 0, 0, 1, 2, 3, 4], limit).0 == Err(NegativeLength)
  {
    NegativeLengthExactly([0x82, 0xFF, 0x80, 0, 0, 0, 0, 0, 0, 0, 1, 2, 3, 4], limit);
  }

  // ---------- every other answer ----------

  /** The answers of `readFrame` other than a frame, by the bytes of the input: it may end before the header, in the
      length, before the key or in the payload; `Eof` stands for an end just where a field begins. */
  lemma ErrorsExactly(input: seq<byte>, limit: nat)
    ensures input == [] ==> ParseFrame(input, limit).0 == Err(Eof)
    ensures |input| == 1 ==> ParseFrame(input, limit).0 == Err(UnexpectedEof)
    ensures |input| >= 2 && input[1] < 0x80 ==> ParseFrame(input, limit).0 == Err(UnmaskedFrame)
    ensures |input| >= 2 && input[1] >= 0x80 ==>
      var at := if input[1] == 0xFE then 4 else if input[1] == 0xFF then 10 else 2;
      && (|input| < at ==> ParseFrame(input, limit).0 == Err(if |input| == 2 then Eof else UnexpectedEof))
      && (|input| >= at ==>
            var n := if at == 2 then input[1] as nat - 0x80 else FromBigEndian(input[2..at]);
            && (limit < n <= MAX_INT64 ==> ParseFrame(input, limit).0 == Err(PayloadTooLarge))
            && (!(limit < n <= MAX_INT64) && |input| < at + 4 ==>
                  ParseFrame(input, limit).0 == Err(if |input| == at then Eof else UnexpectedEof))
            && (n <= limit && n <= MAX_INT64 && at + 4 <= |input| < at + 4 + n ==>
                  ParseFrame(input, limit).0 == Err(if |input| == at + 4 then Eof else UnexpectedEof))
            && (n <= limit && n <= MAX_INT64 && |input| >= at + 4 + n && input[0] % 0x10 >= 8 ==>
                  && (input[0] < 0x80 ==> ParseFrame(input, limit).0 == Err(FragmentedControl))
                  && (input[0] >= 0x80 && n > 125 ==> ParseFrame(input, limit).0 == Err(ControlTooLarge))))
  {
    if |input| >= 2 && input[1] >= 0x80 {
      var at: nat := if input[1] == 0xFE then 4 else if input[1] == 0xFF then 10 else 2;
      assert input[..2][0] == input[0] && input[..2][1] == input[1];
      if |input| >= at {
        assert input[2..][..at - 2] == input[2..at] && input[2..][at - 2..] == input[at..];
        if |input| >= at + 4 {
          assert input[at..][4..] == input[at + 4..];
        }
      }
    }
  }

  lemma XorTwo(a: nat, k: nat, bits: nat)
    requires bits >= 2
    ensures XorBits(a, k, bits) == (a + k) % 2 + 2 * ((a / 2 + k / 2) % 2) + 4 * XorBits(a / 4, k / 4, bits - 2)
  {
    hide XorBits;
    XorStep(a, k, bits);
    XorStep(a / 2, k / 2, bits - 1);
    assert a / 2 / 2 == a / 4 && k / 2 / 2 == k / 4;
  }

  lemma XorNone()
    ensures XorBits(0, 0, 0) == 0
  {
  }

  lemma UnmasksH()
    ensures Xor(0x7F, 0x37) == 0x48
  {
    hide XorBits, Xor;
    XorIs(0x7F, 0x37);
    XorTwo(0x7F, 0x37, 8);
    XorTwo(31, 13, 6);
    XorTwo(7, 3, 4);
    XorTwo(1, 0, 2);
    XorNone();
  }

  lemma UnmasksE()
    ensures Xor(0x9F, 0xFA) == 0x65
  {
    hide XorBits, Xor;
    XorIs(0x9F, 0xFA);
    XorTwo(0x9F, 0xFA, 8);
    XorTwo(39, 62, 6);
    XorTwo(9, 15, 4);
    XorTwo(2, 3, 2);
    XorNone();
  }

  lemma UnmasksFirstL()
    ensures Xor(0x4D, 0x21) == 0x6C
  {
    hide XorBits, Xor;
    XorIs(0x4D, 0x21);
    XorTwo(0x4D, 0x21, 8);
    XorTwo(19, 8, 6);
    XorTwo(4, 2, 4);
    XorTwo(1, 0, 2);
    XorNone();
  }

  lemma UnmasksSecondL()
    ensures Xor(0x51, 0x3D) == 0x6C
  {
    hide XorBits, Xor;
    XorIs(0x51, 0x3D);
    XorTwo(0x51, 0x3D, 8);
    XorTwo(20, 15, 6);
    XorTwo(5, 3, 4);
    XorTwo(1, 0, 2);
    XorNone();
  }

  lemma UnmasksO()
    ensures Xor(0x58, 0x37) == 0x6F
  {
    hide XorBits, Xor;
    XorIs(0x58, 0x37);
    XorTwo(0x58, 0x37, 8);
    XorTwo(22, 13, 6);
    XorTwo(5, 3, 4);
    XorTwo(1, 0, 2);
    XorNone();
  }

  lemma HelloUnmasked()
    ensures Mask([0x7F, 0x9F, 0x4D, 0x51, 0x58], [0x37, 0xFA, 0x21, 0x3D]) == [0x48, 0x65, 0x6C, 0x6C, 0x6F]
  {
    hide Xor;
    UnmasksH();
    UnmasksE();
    UnmasksFirstL();
    UnmasksSecondL();
    UnmasksO();
  }

  lemma HelloIsRead()
    ensures ParseFrame([0x81, 0x85, 0x37, 0xFA, 0x21, 0x3D, 0x7F, 0x9F, 0x4D, 0x51, 0x58], READ_LIMIT)
         == (Ok(Frame(TEXT, true, [0x48, 0x65, 0x6C, 0x6C, 0x6F])), [])
  {
    hide Mask;
    HelloUnmasked();
    var input: seq<byte> := [0x81, 0x85, 0x37, 0xFA, 0x21, 0x3D, 0x7F, 0x9F, 0x4D, 0x51, 0x58];
    var rest := input[2..];
    assert input[..2] == [0x81, 0x85] && rest[..4] == [0x37, 0xFA, 0x21, 0x3D];
    assert rest[4..] == [0x7F, 0x9F, 0x4D, 0x51, 0x58];
    assert rest[4..][..5] == rest[4..] && rest[4..][5..] == [];
  }

  lemma LongHeaders()
    ensures LengthExtension(Medium, 256) == [1, 0]
    ensures LengthExtension(Long, 65536) == [0, 0, 0, 0, 0, 1, 0, 0]
  {
    hide BigEndian;
    Zeros(0);
    Zeros(5);
    LastByte(1, 0);
    LastByte(256, 1);
    LastByte(1, 5);
    LastByte(256, 6);
    LastByte(65536, 7);
  }

  lemma LastByte(n: nat, k: nat)
    ensures BigEndian(n, k + 1) == BigEndian(n / 256, k) + [(n % 256) as byte]
  {
  }

  lemma {:induction false} Zeros(k: nat)
    ensures BigEndian(0, k) == seq(k, _ => 0)
  {
    if k > 0 {
      Zeros(k - 1);
    }
  }

  lemma ServerHeader(op: byte, data: seq<byte>)
    requires 125 < |data| <= MAX_INT64 && op < 0x10
    ensures var form := if |data| <= 0xFFFF then Medium else Long;
            EncodeServer(Frame(op, true, data))
            == [0x80 + op, if form == Medium then 0x7E else 0x7F] + LengthExtension(form, |data|) + data
  {
  }

  /** The examples of RFC 6455, section 5.7: "Hello" in one masked frame, and as a server sends it; a first and a last
      fragment, and the headers of a longer payload. */
  lemma RfcExamples()
    ensures ParseFrame([0x81, 0x85, 0x37, 0xFA, 0x21, 0x3D, 0x7F, 0x9F, 0x4D, 0x51, 0x58], READ_LIMIT)
         == (Ok(Frame(TEXT, true, [0x48, 0x65, 0x6C, 0x6C, 0x6F])), [])
    ensures EncodeServer(Frame(TEXT, true, [0x48, 0x65, 0x6C, 0x6C, 0x6F]))
         == [0x81, 0x05, 0x48, 0x65, 0x6C, 0x6C, 0x6F]
    ensures EncodeServer(Frame(TEXT, false, [0x48, 0x65, 0x6C])) == [0x01, 0x03, 0x48, 0x65, 0x6C]
    ensures EncodeServer(Frame(CONTINUATION, true, [0x6C, 0x6F])) == [0x80, 0x02, 0x6C, 0x6F]
    ensures forall data: seq<byte> :: |data| == 256 ==>
      EncodeServer(Frame(BINARY, true, data)) == [0x82, 0x7E, 0x01, 0x00] + data
    ensures forall data: seq<byte> :: |data| == 65536 ==>
      EncodeServer(Frame(BINARY, true, data)) == [0x82, 0x7F, 0, 0, 0, 0, 0, 1, 0, 0] + data
  {
    HelloIsRead();
    LongHeaders();
    hide BigEndian, ParseFrame;
    forall data: seq<byte> | |data| == 256
      ensures EncodeServer(Frame(BINARY, true, data)) == [0x82, 0x7E, 0x01, 0x00] + data
    {
      ServerHeader(BINARY, data);
    }
    forall data: seq<byte> | |data| == 65536
      ensures EncodeServer(Frame(BINARY, true, data)) == [0x82, 0x7F, 0, 0, 0, 0, 0, 1, 0, 0] + data
    {
      ServerHeader(BINARY, data);
    }
  }

  // ---------- runs of frames ----------

  /** A client frame together with the choices its sender makes. */
  datatype Sent = Sent(frame: Frame, rsv: byte, form: LengthForm, key: seq<byte>) {
    predicate Valid(limit: nat) {
      Allowed(frame, limit) && Fits(form, |frame.payload|) && |key| == 4 && rsv < 8
    }

    function Bytes(limit: nat): seq<byte>
      requires Valid(limit)
    {
      EncodeMasked(frame, rsv, form, key)
    }
  }

  predicate AllValid(fs: seq<Sent>, limit: nat) {
    forall i :: 0 <= i < |fs| ==> fs[i].Valid(limit)
  }

  function Wire(fs: seq<Sent>, limit: nat): seq<byte>
    requires AllValid(fs, limit)
  {
    if fs == [] then []
    else fs[0].Bytes(limit) + Wire(fs[1..], limit)
  }

  function Frames(fs: seq<Sent>): seq<Frame> {
    if fs == [] then [] else [fs[0].frame] + Frames(fs[1..])
  }

  /** `n` calls of `readFrame` that all succeed: the frames and the bytes left; fewer on an error. */
  function ParseMany(input: seq<byte>, n: nat, limit: nat): (seq<Frame>, seq<byte>) {
    if n == 0 then ([], input)
    else match ParseFrame(input, limit)
      case (Err(_), rest) => ([], rest)
      case (Ok(f), rest) =>
        var (fs, rest') := ParseMany(rest, n - 1, limit);
        ([f] + fs, rest')
  }

  lemma ParseManyStep(input: seq<byte>, n: nat, limit: nat, f: Frame, rest: seq<byte>)
    requires ParseFrame(input, limit) == (Ok(f), rest)
    ensures ParseMany(input, n + 1, limit) == ([f] + ParseMany(rest, n, limit).0, ParseMany(rest, n, limit).1)
  {
  }

  /** Repeated `readFrame` over concatenated encodings returns those frames and consumes every byte. */
  lemma {:induction false} ManyRoundTrip(fs: seq<Sent>, tail: seq<byte>, limit: nat)
    requires AllValid(fs, limit)
    ensures ParseMany(Wire(fs, limit) + tail, |fs|, limit) == (Frames(fs), tail)
  {
    hide ParseFrame, EncodeMasked, Allowed, Fits;
    if fs == [] {
      assert Wire(fs, limit) + tail == tail;
    } else {
      var s, rest := fs[0], Wire(fs[1..], limit) + tail;
      var input := Wire(fs, limit) + tail;
      assert input == s.Bytes(limit) + rest;
      assert ParseFrame(input, limit) == (Ok(s.frame), rest) by { SentRoundTrip(s, rest, limit); }
      ParseManyStep(input, |fs| - 1, limit, s.frame, rest);
      ManyRoundTrip(fs[1..], tail, limit);
    }
  }

  lemma SentRoundTrip(s: Sent, rest: seq<byte>, limit: nat)
    requires s.Valid(limit)
    ensures ParseFrame(s.Bytes(limit) + rest, limit) == (Ok(s.frame), rest)
  {
    FrameRoundTrip(s.frame, s.rsv, s.form, s.key, rest, limit);
  }

  // ---------- the server's own frames, as a client reads them ----------

  /** The client side of the connection (the reader of ws_test.go): masked or not, no checks. */
  function ClientParse(input: seq<byte>): (r: (ReadResult<Frame>, seq<byte>))
    ensures r.0.Ok? ==> |r.1| < |input|
  {
    match Take(input, 2)
    case (Err(e), rest) => (Err(e), rest)
    case (Ok(h), rest) =>
      var head := ParseHead(h);
      match ParseLength(head.prefix as nat, rest)
      case (Err(e), rest') => (Err(e), rest')
      case (Ok(n), rest') =>
        if !head.masked then ClientPayload(head, n, rest', None)
        else match Take(rest', 4)
          case (Err(e), rest'') => (Err(e), rest'')
          case (Ok(key), rest'') => ClientPayload(head, n, rest'', Some(key))
  }

  function ClientPayload(head: Head, n: nat, input: seq<byte>, key: Option<seq<byte>>):
    (r: (ReadResult<Frame>, seq<byte>))
    requires key.Some? ==> |key.value| == 4
  {
    if n > MAX_INT64 then (Err(NegativeLength), input)
    else if n == 0 then (Ok(Frame(head.op, head.fin, [])), input)
    else match Take(input, n)
      case (Err(e), rest) => (Err(e), rest)
      case (Ok(raw), rest) =>
        (Ok(Frame(head.op, head.fin, if key.Some? then Mask(raw, key.value) else raw)), rest)
  }

  lemma ServerRoundTrip(f: Frame, tail: seq<byte>)
    requires f.op < 0x10 && |f.payload| <= MAX_INT64
    ensures ClientParse(EncodeServer(f) + tail) == (Ok(f), tail)
  {
    var n, body := |f.payload|, f.payload + tail;
    assert EncodeServer(f) + tail == Header(f, 0, false, ShortestForm(n)) + body;
    HeaderRoundTrip(f, 0, false, ShortestForm(n), body);
    assert body[..n] == f.payload && body[n..] == tail;
  }

  predicate Sendable(fs: seq<Frame>) {
    forall f :: f in fs ==> f.op < 0x10 && |f.payload| <= MAX_INT64
  }

  function ServerWire(fs: seq<Frame>): seq<byte>
    requires Sendable(fs)
  {
    if fs == [] then [] else ServerWire(fs[..|fs| - 1]) + EncodeServer(fs[|fs| - 1])
  }

  /** Every frame the client finds in `input`, and the bytes after the last whole one. */
  function ClientFrames(input: seq<byte>): (r: (seq<Frame>, seq<byte>))
    decreases |input|
  {
    match ClientParse(input)
    case (Err(_), _) => ([], input)
    case (Ok(f), rest) =>
      var (fs, rest') := ClientFrames(rest);
      ([f] + fs, rest')
  }

  lemma ServerWireAppend(fs: seq<Frame>, f: Frame)
    requires Sendable(fs) && f.op < 0x10 && |f.payload| <= MAX_INT64
    ensures Sendable(fs + [f]) && ServerWire(fs + [f]) == ServerWire(fs) + EncodeServer(f)
  {
    hide EncodeServer;
    assert (fs + [f])[..|fs|] == fs;
  }

  lemma {:induction false} ServerWireSplits(f: Frame, fs: seq<Frame>)
    requires f.op < 0x10 && |f.payload| <= MAX_INT64 && Sendable(fs)
    ensures Sendable([f] + fs)
    ensures ServerWire([f] + fs) == EncodeServer(f) + ServerWire(fs)
    decreases |fs|
  {
    hide EncodeServer;
    if fs == [] {
      ServerWireAppend([], f);
      assert [f] + [] == [] + [f];
    } else {
      var init, last := fs[..|fs| - 1], fs[|fs| - 1];
      ServerWireSplits(f, init);
      ServerWireAppend([f] + init, last);
      assert [f] + fs == ([f] + init) + [last];
    }
  }

  /** What is read does not depend on the bytes after it. */
  lemma ClientParseExtends(input: seq<byte>, more: seq<byte>)
    requires ClientParse(input).0.Ok?
    ensures ClientParse(input + more) == (ClientParse(input).0, ClientParse(input).1 + more)
  {
    hide ParseLength, ClientPayload, ParseHead;
    var rest := input[2..];
    TakeExtends(input, 2, more);
    var head := ParseHead(input[..2]);
    ParseLengthExtends(head.prefix as nat, rest, more);
    var (n, rest') := (ParseLength(head.prefix as nat, rest).0.value, ParseLength(head.prefix as nat, rest).1);
    if head.masked {
      TakeExtends(rest', 4, more);
      ClientPayloadExtends(head, n, rest'[4..], more, Some(rest'[..4]));
    } else {
      ClientPayloadExtends(head, n, rest', more, None);
    }
  }

  lemma ParseLengthExtends(prefix: nat, input: seq<byte>, more: seq<byte>)
    requires ParseLength(prefix, input).0.Ok?
    ensures ParseLength(prefix, input + more) == (ParseLength(prefix, input).0, ParseLength(prefix, input).1 + more)
  {
    hide FromBigEndian;
    TakeExtends(input, 2, more);
    TakeExtends(input, 8, more);
  }

  lemma ClientPayloadExtends(head: Head, n: nat, input: seq<byte>, more: seq<byte>, key: Option<seq<byte>>)
    requires (key.Some? ==> |key.value| == 4) && ClientPayload(head, n, input, key).0.Ok?
    ensures ClientPayload(head, n, input + more, key) ==
            (ClientPayload(head, n, input, key).0, ClientPayload(head, n, input, key).1 + more)
  {
    hide Mask;
    TakeExtends(input, n, more);
  }

  lemma TakeExtends(input: seq<byte>, n: nat, more: seq<byte>)
    ensures n <= |input| ==> Take(input + more, n) == (Ok(input[..n]), input[n..] + more)
  {
    if n <= |input| {
      assert (input + more)[..n] == input[..n] && (input + more)[n..] == input[n..] + more;
    }
  }

  /** A frame cut short is no frame. */
  lemma CutIsNoFrame(f: Frame, n: nat)
    requires f.op < 0x10 && |f.payload| <= MAX_INT64 && n < |EncodeServer(f)|
    ensures ClientParse(EncodeServer(f)[..n]).0.Err?
  {
    hide EncodeServer, ClientParse;
    var input, more := EncodeServer(f)[..n], EncodeServer(f)[n..];
    ServerRoundTrip(f, []);
    assert input + more == EncodeServer(f) == EncodeServer(f) + [];
    if ClientParse(input).0.Ok? {
      assert ClientParse(input).1 + more != [];
      ClientParseExtends(input, more);
    }
  }

  lemma ClientFramesStep(input: seq<byte>, f: Frame, rest: seq<byte>)
    requires ClientParse(input) == (Ok(f), rest)
    ensures ClientFrames(input) == ([f] + ClientFrames(rest).0, ClientFrames(rest).1)
  {
    hide ClientParse;
  }

  /** A client that reads the server's bytes finds exactly the frames written, in order, and whatever is no frame after
      them. */
  lemma {:induction false} ServerWireRoundTrip(fs: seq<Frame>, tail: seq<byte>)
    requires Sendable(fs) && ClientParse(tail).0.Err?
    ensures ClientFrames(ServerWire(fs) + tail) == (fs, tail)
  {
    hide EncodeServer, ClientParse;
    if fs == [] {
      assert ServerWire(fs) + tail == tail;
    } else {
      hide ServerWire, ClientFrames;
      var f, rest := fs[0], fs[1..];
      assert fs == [f] + rest;
      ServerWireSplits(f, rest);
      assert ServerWire(fs) + tail == EncodeServer(f) + (ServerWire(rest) + tail);
      ServerRoundTrip(f, ServerWire(rest) + tail);
      ClientFramesStep(ServerWire(fs) + tail, f, ServerWire(rest) + tail);
      ServerWireRoundTrip(rest, tail);
    }
  }
}
