/**
 The WebSocket side of the stub server: the incremental decoder of masked client frames, the encoder
 of server frames (sections 5.2 and 5.3 of RFC 6455), and the echo loop over a growing buffer.
 */
module WebSocket {
  import Division

  type byte = b: int | 0 <= b < 256
  type Bytes = seq<byte>

  const MAX_PAYLOAD: nat := 67_108_864  // 64 MiB

  // --- big-endian numbers and masks ---

  function BigEndian(bs: Bytes): nat {
    if bs == [] then 0 else BigEndian(bs[..|bs| - 1]) * 256 + bs[|bs| - 1]
  }

  function ToBigEndian(n: nat, width: nat): (bs: Bytes)
    ensures |bs| == width
  {
    if width == 0 then [] else ToBigEndian(n / 256, width - 1) + [n % 256]
  }

  function Pow256(k: nat): nat {
    if k == 0 then 1 else 256 * Pow256(k - 1)
  }

  lemma {:induction false} BigEndianRoundTrip(n: nat, width: nat)
    requires n < Pow256(width)
    ensures BigEndian(ToBigEndian(n, width)) == n
  {
    if width > 0 {
      BigEndianRoundTrip(n / 256, width - 1);
      var bs := ToBigEndian(n, width);
      assert bs[..|bs| - 1] == ToBigEndian(n / 256, width - 1);
    }
  }

  lemma {:induction false} BigEndianBack(bs: Bytes)
    ensures BigEndian(bs) < Pow256(|bs|) && ToBigEndian(BigEndian(bs), |bs|) == bs
  {
    if bs != [] {
      BigEndianBack(bs[..|bs| - 1]);
      assert bs == bs[..|bs| - 1] + [bs[|bs| - 1]];
    }
  }

  function Pow2(k: nat): nat {
    if k == 0 then 1 else 2 * Pow2(k - 1)
  }

  /** Exclusive or of the k low bits: a bit is set when exactly one of the two is. */
  function XorBits(a: nat, b: nat, k: nat): (x: nat)
    ensures x < Pow2(k)
  {
    if k == 0 then 0 else 2 * XorBits(a / 2, b / 2, k - 1) + (a + b) % 2
  }

  lemma {:induction false} XorBitsTwice(a: nat, m: nat, k: nat)
    requires a < Pow2(k)
    ensures XorBits(XorBits(a, m, k), m, k) == a
  {
    if k > 0 {
      XorBitsTwice(a / 2, m / 2, k - 1);
      HalfAndRest(XorBits(a / 2, m / 2, k - 1), a, m);
    }
  }

  lemma HalfAndRest(x: nat, a: nat, m: nat)
    ensures var y := 2 * x + (a + m) % 2;
      y / 2 == x && (y + m) % 2 == a % 2
  {}

  function Xor(a: byte, b: byte): byte {
    assert Pow2(8) == 256;
    XorBits(a, b, 8)
  }

  lemma XorTwice(a: byte, m: byte)
    ensures Xor(Xor(a, m), m) == a
  {
    assert Pow2(8) == 256;
    XorBitsTwice(a, m, 8);
  }

  // --- what the exclusive or is ---

  function Bit(n: nat, k: nat): nat {
    PowersPositive(k);
    n / Pow2(k) % 2
  }

  lemma {:induction false} PowersPositive(k: nat)
    ensures Pow2(k) > 0
  {
    if k > 0 {
      PowersPositive(k - 1);
    }
  }

  // Bit k + 1 of a number is bit k of its half.
  lemma {:induction false} BitOfHalf(n: nat, k: nat)
    ensures Bit(n, k + 1) == Bit(n / 2, k)
  {
    PowersPositive(k);
    HalfThenDivide(n, Pow2(k));
  }

  lemma HalfThenDivide(n: nat, p: nat)
    requires p > 0
    ensures n / (2 * p) == n / 2 / p
  {
    var q := n / 2 / p;
    assert q * p <= n / 2 < q * p + p;
    assert q * (2 * p) == 2 * (q * p);
    Division.Quotient(n, 2 * p, q);
  }

  lemma {:induction false} XorBitsAt(a: nat, b: nat, width: nat, k: nat)
    requires k < width
    ensures Bit(XorBits(a, b, width), k) == if Bit(a, k) == Bit(b, k) then 0 else 1
  {
    var half := XorBits(a / 2, b / 2, width - 1);
    HalfAndRest(half, a, b);
    if k == 0 {
      LowestBit(XorBits(a, b, width));
      LowestBit(a);
      LowestBit(b);
      OddSum(a, b);
    } else {
      XorBitsAt(a / 2, b / 2, width - 1, k - 1);
      BitOfHalf(XorBits(a, b, width), k - 1);
      BitOfHalf(a, k - 1);
      BitOfHalf(b, k - 1);
    }
  }

  lemma {:induction false} LowestBit(n: nat)
    ensures Bit(n, 0) == n % 2
  {
    assert Pow2(0) == 1;
  }

  lemma OddSum(a: nat, b: nat)
    ensures (a + b) % 2 == if a % 2 == b % 2 then 0 else 1
    ensures (2 * (a / 2) + (a + b) % 2) % 2 == (a + b) % 2
  {}

  // A bit of the result is set exactly when it is set in one of the two bytes.
  lemma {:induction false} XorSetsDifferingBits(a: byte, b: byte, k: nat)
    requires k < 8
    ensures Bit(Xor(a, b), k) == 1 <==> Bit(a, k) != Bit(b, k)
  {
    XorBitsAt(a, b, 8, k);
  }

  /** The payload with byte i combined with mask byte i mod 4. */
  function Masked(payload: Bytes, mask: Bytes): (r: Bytes)
    requires |mask| == 4
    ensures |r| == |payload|
  {
    seq(|payload|, i requires 0 <= i < |payload| => Xor(payload[i], mask[i % 4]))
  }

  lemma MaskedTwice(payload: Bytes, mask: Bytes)
    requires |mask| == 4
    ensures Masked(Masked(payload, mask), mask) == payload
  {
    var once := Masked(payload, mask);
    forall i | 0 <= i < |payload|
      ensures Masked(once, mask)[i] == payload[i]
    {
      XorTwice(payload[i], mask[i % 4]);
    }
  }

  // --- the decoder of client frames ---

  datatype Verdict = Complete(opcode: nat, payload: Bytes, consumed: nat) | NeedMore | Error

  datatype Header = Header(payloadLen: nat, headerLen: nat) | Short | TooLong

  /** The payload length and where the mask starts. */
  function HeaderOf(buf: Bytes): Header
    requires |buf| >= 2
  {
    var shortLen := buf[1] % 128;
    if shortLen <= 125 then Header(shortLen, 2)
    else if shortLen == 126 then
      if |buf| < 4 then Short else Header(BigEndian(buf[2..4]), 4)
    else if |buf| < 10 then Short
    else if BigEndian(buf[2..10]) > MAX_PAYLOAD then TooLong
    else Header(BigEndian(buf[2..10]), 10)
  }

  function Decode(buf: Bytes): Verdict {
    if |buf| < 2 then NeedMore
    else if buf[1] < 128 then Error
    else match HeaderOf(buf)
      case Short => NeedMore
      case TooLong => Error
      case Header(len, start) =>
        if |buf| < start + 4 + len then NeedMore
        else Complete(buf[0] % 16, Masked(buf[start + 4..start + 4 + len], buf[start..start + 4]), start + 4 + len)
  }

  method UnmaskInPlace(payload: array<byte>, mask: Bytes)
    requires |mask| == 4
    modifies payload
    ensures payload[..] == Masked(old(payload[..]), mask)
  {
    for i := 0 to payload.Length
      invariant forall k :: 0 <= k < i ==> payload[k] == Xor(old(payload[k]), mask[k % 4])
      invariant forall k :: i <= k < payload.Length ==> payload[k] == old(payload[k])
    {
      payload[i] := Xor(payload[i], mask[i % 4]);
    }
  }

  method TryDecode(buf: Bytes) returns (r: Verdict)
    ensures r == Decode(buf)
  {
    if |buf| < 2 {
      return NeedMore;
    }
    var b0, b1 := buf[0], buf[1];
    var opcode := b0 % 16;
    if b1 / 128 % 2 == 0 {
      return Error;
    }
    var shortLen := b1 % 128;
    var payloadLen, headerLen;
    if shortLen <= 125 {
      payloadLen, headerLen := shortLen, 2;
    } else if shortLen == 126 {
      if |buf| < 4 {
        return NeedMore;
      }
      payloadLen, headerLen := BigEndian(buf[2..4]), 4;
    } else {
      if |buf| < 10 {
        return NeedMore;
      }
      var n := BigEndian(buf[2..10]);
      if n > MAX_PAYLOAD {
        return Error;
      }
      payloadLen, headerLen := n, 10;
    }
    var frameEnd := headerLen + 4 + payloadLen;
    if |buf| < frameEnd {
      return NeedMore;
    }
    var payload := new byte[payloadLen](i requires 0 <= i < payloadLen => buf[headerLen + 4 + i]);
    assert payload[..] == buf[headerLen + 4..frameEnd];
    UnmaskInPlace(payload, buf[headerLen..headerLen + 4]);
    r := Complete(opcode, payload[..], frameEnd);
  }

  // --- what the decoder recognises ---

  /** The three ways to write the length of a payload. */
  datatype Form = Length7 | Length16 | Length64

  predicate Fits(form: Form, len: nat) {
    match form
    case Length7 => len <= 125
    case Length16 => len < 65_536
    case Length64 => len <= MAX_PAYLOAD
  }

  function LengthField(form: Form, len: nat): (r: Bytes)
    requires Fits(form, len)
    ensures |r| > 0
  {
    match form
    case Length7 => [128 + len]
    case Length16 => [128 + 126] + ToBigEndian(len, 2)
    case Length64 => [128 + 127] + ToBigEndian(len, 8)
  }

  /** A masked client frame; flags are the four bits before the opcode. */
  function ClientFrame(flags: nat, opcode: nat, form: Form, mask: Bytes, payload: Bytes): Bytes
    requires flags < 16 && opcode < 16 && |mask| == 4 && Fits(form, |payload|)
  {
    [16 * flags + opcode] + LengthField(form, |payload|) + mask + Masked(payload, mask)
  }

  lemma LengthFieldDecodes(first: byte, form: Form, len: nat, rest: Bytes)
    requires Fits(form, len)
    ensures var buf := [first] + LengthField(form, len) + rest;
      |buf| >= 2 && buf[1] >= 128 && HeaderOf(buf) == Header(len, 1 + |LengthField(form, len)|)
  {
    var buf := [first] + LengthField(form, len) + rest;
    match form {
      case Length7 =>
      case Length16 =>
        assert Pow256(2) == 65_536;
        BigEndianRoundTrip(len, 2);
        assert buf[2..4] == ToBigEndian(len, 2);
      case Length64 =>
        PowEnough();
        BigEndianRoundTrip(len, 8);
        assert buf[2..10] == ToBigEndian(len, 8);
    }
  }

  lemma PowEnough()
    ensures Pow256(8) > MAX_PAYLOAD
  {
    assert Pow256(4) == 0x1_0000_0000;
    assert Pow256(6) == 256 * (256 * Pow256(4));
  }

  // Decoding a client frame followed by anything returns its opcode, its payload and its length.
  lemma FrameDecodes(flags: nat, opcode: nat, form: Form, mask: Bytes, payload: Bytes, rest: Bytes)
    requires flags < 16 && opcode < 16 && |mask| == 4 && Fits(form, |payload|)
    ensures var frame := ClientFrame(flags, opcode, form, mask, payload);
      Decode(frame + rest) == Complete(opcode, payload, |frame|)
  {
    var field := LengthField(form, |payload|);
    var body := Masked(payload, mask);
    FourParts([16 * flags + opcode], field, mask, body, rest);
    LengthFieldDecodes(16 * flags + opcode, form, |payload|, mask + body + rest);
    MaskedTwice(payload, mask);
  }

  lemma FourParts(a: Bytes, b: Bytes, c: Bytes, d: Bytes, rest: Bytes)
    ensures var i := |a| + |b|;
      var all := a + b + c + d + rest;
      && all == a + b + (c + d + rest) && |all| >= i + |c| + |d| && |a + b + c + d| == i + |c| + |d|
      && all[i..i + |c|] == c && all[i + |c|..i + |c| + |d|] == d
  {}

  // The masked frame of section 5.7 of RFC 6455: it says "Hello".
  lemma HelloDecodes()
    ensures Decode([0x81, 0x85, 0x37, 0xfa, 0x21, 0x3d, 0x7f, 0x9f, 0x4d, 0x51, 0x58])
      == Complete(1, [0x48, 0x65, 0x6c, 0x6c, 0x6f], 11)
  {
    var buf: Bytes := [0x81, 0x85, 0x37, 0xfa, 0x21, 0x3d, 0x7f, 0x9f, 0x4d, 0x51, 0x58];
    assert HeaderOf(buf) == Header(5, 2);
    assert buf[2..6] == [0x37, 0xfa, 0x21, 0x3d] && buf[6..11] == [0x7f, 0x9f, 0x4d, 0x51, 0x58];
    HelloUnmasked(buf[6..11], buf[2..6]);
  }

  lemma HelloUnmasked(payload: Bytes, mask: Bytes)
    requires payload == [0x7f, 0x9f, 0x4d, 0x51, 0x58] && mask == [0x37, 0xfa, 0x21, 0x3d]
    ensures Masked(payload, mask) == [0x48, 0x65, 0x6c, 0x6c, 0x6f]
  {
    HelloDigits(payload, mask);
    MaskedWith(payload, mask, Xor, [0x48, 0x65, 0x6c, 0x6c, 0x6f]);
  }

  // Masking with the exclusive or given as a function value.
  lemma MaskedWith(payload: Bytes, mask: Bytes, xor: (byte, byte) -> byte, text: Bytes)
    requires xor == Xor && |payload| == |text| == 5 && |mask| == 4
    requires xor(payload[0], mask[0]) == text[0] && xor(payload[1], mask[1]) == text[1]
    requires xor(payload[2], mask[2]) == text[2] && xor(payload[3], mask[3]) == text[3]
    requires xor(payload[4], mask[0]) == text[4]
    ensures Masked(payload, mask) == text
  {
    var masked := Masked(payload, mask);
    assert masked[4] == Xor(payload[4], mask[0]);
  }

  lemma HelloDigits(p: Bytes, m: Bytes)
    requires p == [0x7f, 0x9f, 0x4d, 0x51, 0x58] && m == [0x37, 0xfa, 0x21, 0x3d]
    ensures Xor(p[0], m[0]) == 0x48 && Xor(p[1], m[1]) == 0x65 && Xor(p[2], m[2]) == 0x6c
    ensures Xor(p[3], m[3]) == 0x6c && Xor(p[4], m[0]) == 0x6f
  {
    HelloByte0(p[0], m[0], 7, 3);
    HelloByte1(p[1], m[1], 9, 15);
    HelloByte2(p[2], m[2], 4, 2);
    HelloByte3(p[3], m[3], 5, 3);
    HelloByte4(p[4], m[0], 5, 3);
  }

  lemma HelloByte0(a: byte, b: byte, u: nat, v: nat)
    requires a == 0x7f && b == 0x37 && u == 7 && v == 3
    ensures Xor(a, b) == 0x48
  {
    FourBits(a, b, u, v, 4, 1, 1, 1, 1, 0, 1, 1, 1);
    FourBits(u, v, 0, 0, 0, 0, 1, 1, 1, 0, 0, 1, 1);
  }

  lemma HelloByte1(a: byte, b: byte, u: nat, v: nat)
    requires a == 0x9f && b == 0xfa && u == 9 && v == 15
    ensures Xor(a, b) == 0x65
  {
    FourBits(a, b, u, v, 4, 1, 1, 1, 1, 1, 0, 1, 0);
    FourBits(u, v, 0, 0, 0, 1, 0, 0, 1, 1, 1, 1, 1);
  }

  lemma HelloByte2(a: byte, b: byte, u: nat, v: nat)
    requires a == 0x4d && b == 0x21 && u == 4 && v == 2
    ensures Xor(a, b) == 0x6c
  {
    FourBits(a, b, u, v, 4, 1, 1, 0, 1, 0, 0, 0, 1);
    FourBits(u, v, 0, 0, 0, 0, 1, 0, 0, 0, 0, 1, 0);
  }

  lemma HelloByte3(a: byte, b: byte, u: nat, v: nat)
    requires a == 0x51 && b == 0x3d && u == 5 && v == 3
    ensures Xor(a, b) == 0x6c
  {
    FourBits(a, b, u, v, 4, 0, 0, 0, 1, 1, 1, 0, 1);
    FourBits(u, v, 0, 0, 0, 0, 1, 0, 1, 0, 0, 1, 1);
  }

  lemma HelloByte4(a: byte, b: byte, u: nat, v: nat)
    requires a == 0x58 && b == 0x37 && u == 5 && v == 3
    ensures Xor(a, b) == 0x6f
  {
    FourBits(a, b, u, v, 4, 1, 0, 0, 0, 0, 1, 1, 1);
    FourBits(u, v, 0, 0, 0, 0, 1, 0, 1, 0, 0, 1, 1);
  }

  // The low hexadecimal digits, given by their bits, and the bits above them.
  lemma {:induction false} FourBits(a: nat, b: nat, u: nat, v: nat, k: nat,
      p8: nat, p4: nat, p2: nat, p1: nat, q8: nat, q4: nat, q2: nat, q1: nat)
    requires p8 < 2 && p4 < 2 && p2 < 2 && p1 < 2 && q8 < 2 && q4 < 2 && q2 < 2 && q1 < 2
    requires a == 16 * u + 8 * p8 + 4 * p4 + 2 * p2 + p1 && b == 16 * v + 8 * q8 + 4 * q4 + 2 * q2 + q1
    ensures XorBits(a, b, k + 4)
      == 16 * XorBits(u, v, k) + 8 * ((p8 + q8) % 2) + 4 * ((p4 + q4) % 2) + 2 * ((p2 + q2) % 2) + (p1 + q1) % 2
  {
    var a8, b8 := 2 * u + p8, 2 * v + q8;
    var a4, b4 := 2 * a8 + p4, 2 * b8 + q4;
    LowBit(a, b, 2 * a4 + p2, 2 * b4 + q2, p1, q1, k + 3);
    LowBit(2 * a4 + p2, 2 * b4 + q2, a4, b4, p2, q2, k + 2);
    LowBit(a4, b4, a8, b8, p4, q4, k + 1);
    LowBit(a8, b8, u, v, p8, q8, k);
  }

  lemma {:induction false} LowBit(a: nat, b: nat, u: nat, v: nat, p: nat, q: nat, k: nat)
    requires a == 2 * u + p && b == 2 * v + q && p < 2 && q < 2
    ensures XorBits(a, b, k + 1) == 2 * XorBits(u, v, k) + (p + q) % 2
  {
    EvenPart(a + b, u + v, p + q);
    assert a / 2 == u && b / 2 == v;
  }

  lemma EvenPart(n: nat, k: nat, rest: nat)
    requires n == 2 * k + rest
    ensures n % 2 == rest % 2
  {}

  // Lengths are in network byte order, and the longest payload has 64 MiB.
  lemma {:induction false} MostSignificantFirst(b: byte, rest: Bytes)
    ensures BigEndian([b] + rest) == b * Pow256(|rest|) + BigEndian(rest)
  {
    var bs := [b] + rest;
    if rest == [] {
      assert bs[..0] == [];
    } else {
      var n := |rest| - 1;
      assert bs[..n + 1] == [b] + rest[..n];
      MostSignificantFirst(b, rest[..n]);
      ShiftedByte(b, Pow256(n), BigEndian(rest[..n]));
    }
  }

  lemma ShiftedByte(b: nat, p: nat, x: nat)
    ensures (b * p + x) * 256 == b * (256 * p) + x * 256
  {}

  lemma LongestPayload()
    ensures HeaderOf([0x82, 0xff, 0, 0, 0, 0, 4, 0, 0, 0]) == Header(67_108_864, 10)
    ensures HeaderOf([0x82, 0xff, 0, 0, 0, 0, 4, 0, 0, 1]) == TooLong
    ensures HeaderOf([0x82, 0xfe, 1, 0]) == Header(256, 4)
  {
    EightBytes([0x82, 0xff, 0, 0, 0, 0, 4, 0, 0, 0], 0);
    EightBytes([0x82, 0xff, 0, 0, 0, 0, 4, 0, 0, 1], 1);
    var short: Bytes := [0x82, 0xfe, 1, 0];
    assert short[2..4] == [1] + [0];
    MostSignificantFirst(1, [0]);
    OneByte(0);
  }

  lemma EightBytes(buf: Bytes, last: byte)
    requires buf == [0x82, 0xff, 0, 0, 0, 0, 4, 0, 0, last]
    ensures BigEndian(buf[2..10]) == 67_108_864 + last
  {
    var zeros: Bytes := [0, 0, 0, 0];
    assert buf[2..10] == zeros + [4, 0, 0, last];
    ZerosFirst(zeros, [4, 0, 0, last]);
    FourBytes(last);
  }

  lemma {:induction false} ZerosFirst(zeros: Bytes, rest: Bytes)
    requires forall i :: 0 <= i < |zeros| ==> zeros[i] == 0
    ensures BigEndian(zeros + rest) == BigEndian(rest)
  {
    if zeros == [] {
      assert zeros + rest == rest;
    } else {
      ZerosFirst(zeros[1..], rest);
      MostSignificantFirst(0, zeros[1..] + rest);
      assert zeros + rest == [0] + (zeros[1..] + rest);
    }
  }

  lemma FourBytes(last: byte)
    ensures BigEndian([4, 0, 0, last]) == 67_108_864 + last
  {
    MostSignificantFirst(4, [0, 0, last]);
    ZerosFirst([0, 0], [last]);
    assert [4] + [0, 0, last] == [4, 0, 0, last] && [0, 0] + [last] == [0, 0, last];
    OneByte(last);
    assert Pow256(3) == 16_777_216;
  }

  lemma OneByte(b: byte)
    ensures BigEndian([b]) == b
  {
    assert [b][..0] == [];
  }

  // A verdict other than NeedMore does not change when more bytes arrive.
  lemma DecodeIsStable(buf: Bytes, more: Bytes)
    requires Decode(buf) != NeedMore
    ensures Decode(buf + more) == Decode(buf)
  {
    if |buf| >= 4 {
      SameSlice(buf, more, 2, 4);
    }
    if |buf| >= 10 {
      SameSlice(buf, more, 2, 10);
    }
    if Decode(buf).Complete? {
      var h := HeaderOf(buf);
      SameSlice(buf, more, h.headerLen, h.headerLen + 4);
      SameSlice(buf, more, h.headerLen + 4, h.headerLen + 4 + h.payloadLen);
    }
  }

  lemma SameSlice(a: Bytes, b: Bytes, i: nat, j: nat)
    requires i <= j <= |a|
    ensures (a + b)[i..j] == a[i..j]
  {}

  // Every proper prefix of a client frame needs more.
  lemma PrefixNeedsMore(flags: nat, opcode: nat, form: Form, mask: Bytes, payload: Bytes, k: nat)
    requires flags < 16 && opcode < 16 && |mask| == 4 && Fits(form, |payload|)
    requires k < |ClientFrame(flags, opcode, form, mask, payload)|
    ensures Decode(ClientFrame(flags, opcode, form, mask, payload)[..k]) == NeedMore
  {
    var frame := ClientFrame(flags, opcode, form, mask, payload);
    FrameDecodes(flags, opcode, form, mask, payload, []);
    assert frame + [] == frame;
    ShorterNeedsMore(frame, k);
  }

  lemma ShorterNeedsMore(frame: Bytes, k: nat)
    requires Decode(frame).Complete? && Decode(frame).consumed == |frame| && k < |frame|
    ensures Decode(frame[..k]) == NeedMore
  {
    if Decode(frame[..k]) != NeedMore {
      assert frame[..k] + frame[k..] == frame;
      DecodeIsStable(frame[..k], frame[k..]);
      DecodedBounds(frame[..k]);
    }
  }

  // What decodes completely starts with a client frame of that opcode and payload.
  lemma CompleteIsFrame(buf: Bytes) returns (flags: nat, form: Form, mask: Bytes)
    requires Decode(buf).Complete?
    ensures var d := Decode(buf);
      && flags < 16 && d.opcode < 16 && |mask| == 4 && Fits(form, |d.payload|) && d.consumed <= |buf|
      && buf[..d.consumed] == ClientFrame(flags, d.opcode, form, mask, d.payload)
  {
    var d := Decode(buf);
    var h := HeaderOf(buf);
    flags, mask := buf[0] / 16, buf[h.headerLen..h.headerLen + 4];
    form := if h.headerLen == 2 then Length7 else if h.headerLen == 4 then Length16 else Length64;
    var body := buf[h.headerLen + 4..d.consumed];
    MaskedTwice(body, mask);
    HeaderIsField(buf, form);
    FrameIs(buf, flags, d.opcode, form, mask, d.payload, h.headerLen, d.consumed);
  }

  lemma FrameIs(buf: Bytes, flags: nat, opcode: nat, form: Form, mask: Bytes, payload: Bytes, start: nat, end: nat)
    requires flags < 16 && opcode < 16 && Fits(form, |payload|) && 1 <= start && start + 4 <= end <= |buf|
    requires buf[0] == 16 * flags + opcode && buf[1..start] == LengthField(form, |payload|)
    requires mask == buf[start..start + 4] && Masked(payload, mask) == buf[start + 4..end]
    ensures buf[..end] == ClientFrame(flags, opcode, form, mask, payload)
  {
    SplitFrame(buf, start, end);
    assert [16 * flags + opcode] == buf[..1];
  }

  lemma SplitFrame(buf: Bytes, start: nat, end: nat)
    requires 1 <= start && start + 4 <= end <= |buf|
    ensures buf[..end] == buf[..1] + buf[1..start] + buf[start..start + 4] + buf[start + 4..end]
  {}

  lemma HeaderIsField(buf: Bytes, form: Form)
    requires |buf| >= 2 && buf[1] >= 128 && HeaderOf(buf).Header?
    requires var h := HeaderOf(buf);
      |buf| >= h.headerLen && h.headerLen == (match form case Length7 => 2 case Length16 => 4 case Length64 => 10)
    ensures var h := HeaderOf(buf);
      Fits(form, h.payloadLen) && buf[1..h.headerLen] == LengthField(form, h.payloadLen)
  {
    match form {
      case Length7 =>
      case Length16 =>
        assert Pow256(2) == 65_536;
        BigEndianBack(buf[2..4]);
      case Length64 =>
        BigEndianBack(buf[2..10]);
    }
  }

  // --- the encoder of server frames ---

  /** An unmasked frame; the widest length field holds the low 64 bits of the length. */
  function ServerFrame(opcode: nat, payload: Bytes): Bytes
    requires opcode < 16
  {
    [128 + opcode]
    + (if |payload| < 126 then [|payload|]
       else if |payload| < 65_536 then [126] + ToBigEndian(|payload|, 2)
       else [127] + ToBigEndian(|payload|, 8))
    + payload
  }

  method EncodeServerFrame(opcode: nat, payload: Bytes) returns (out: Bytes)
    requires opcode < 16 && |payload| < 0x1_0000_0000_0000_0000
    ensures out == ServerFrame(opcode, payload)
  {
    var len := |payload|;
    out := [128 + opcode];
    if len < 126 {
      out := out + [len];
    } else if len < 65_536 {
      out := out + [126];
      out := out + ToBigEndian(len, 2);
    } else {
      out := out + [127];
      out := out + ToBigEndian(len, 8);
    }
    out := out + payload;
  }

  // How a receiver reads an unmasked frame: the final bit, the opcode, the payload and the length.
  ghost predicate ReadsAs(buf: Bytes, opcode: nat, payload: Bytes, used: nat) {
    && |buf| >= 2 && buf[0] == 128 + opcode && buf[1] < 128 && PayloadStart(buf) <= used <= |buf|
    && buf[PayloadStart(buf)..used] == payload
    && |payload| == (if buf[1] < 126 then buf[1] else BigEndian(buf[2..PayloadStart(buf)]))
    // the shortest form that holds the length
    && (buf[1] == 126 ==> |payload| > 125) && (buf[1] == 127 ==> |payload| > 65_535)
  }

  function PayloadStart(buf: Bytes): nat
    requires |buf| >= 2
  {
    if buf[1] < 126 then 2 else if buf[1] == 126 then 4 else 10
  }

  lemma ServerFrameReads(opcode: nat, payload: Bytes, rest: Bytes)
    requires opcode < 16 && |payload| < 0x1_0000_0000_0000_0000
    ensures ReadsAs(ServerFrame(opcode, payload) + rest, opcode, payload, |ServerFrame(opcode, payload)|)
  {
    var frame := ServerFrame(opcode, payload);
    var buf := frame + rest;
    if |payload| < 126 {
      assert buf[2..|frame|] == payload;
    } else if |payload| < 65_536 {
      assert Pow256(2) == 65_536;
      BigEndianRoundTrip(|payload|, 2);
      assert buf[2..4] == ToBigEndian(|payload|, 2) && buf[4..|frame|] == payload;
    } else {
      assert Pow256(4) == 0x1_0000_0000;
      assert Pow256(8) == 0x1_0000_0000_0000_0000;
      BigEndianRoundTrip(|payload|, 8);
      assert buf[2..10] == ToBigEndian(|payload|, 8) && buf[10..|frame|] == payload;
    }
  }

  // The unmasked frame of section 5.7 of RFC 6455.
  lemma HelloIsEncoded()
    ensures ServerFrame(1, [0x48, 0x65, 0x6c, 0x6c, 0x6f]) == [0x81, 0x05, 0x48, 0x65, 0x6c, 0x6c, 0x6f]
  {}

  // --- the echo loop ---

  lemma DecodedBounds(buf: Bytes)
    ensures Decode(buf).Complete? ==>
      Decode(buf).opcode < 16 && |Decode(buf).payload| <= MAX_PAYLOAD && 6 <= Decode(buf).consumed <= |buf|
  {
    if Decode(buf).Complete? {
      var flags, form, mask := CompleteIsFrame(buf);
    }
  }

  /** What is sent in answer to a frame. */
  function Answer(opcode: nat, payload: Bytes): seq<Bytes>
    requires |payload| <= MAX_PAYLOAD
  {
    if opcode == 1 || opcode == 2 then [ServerFrame(opcode, payload)]
    else if opcode == 8 then [ServerFrame(8, payload)]
    else if opcode == 9 then [ServerFrame(10, payload)]
    else []
  }

  // Only text, binary, ping and pong leave the connection open.
  predicate GoesOn(opcode: nat) {
    opcode == 1 || opcode == 2 || opcode == 9 || opcode == 10
  }

  /** The frames sent in answer to a stream of bytes, as a function of the whole stream. */
  ghost function Replies(input: Bytes): seq<Bytes>
    decreases |input|
  {
    DecodedBounds(input);
    match Decode(input)
    case NeedMore => []
    case Error => []
    case Complete(opcode, payload, consumed) =>
      Answer(opcode, payload) + if GoesOn(opcode) then Replies(input[consumed..]) else []
  }

  /** What the reads deliver before the first that is empty: the end of the stream, or an error. */
  ghost function Arrived(chunks: seq<Bytes>): Bytes {
    if chunks == [] || chunks[0] == [] then [] else chunks[0] + Arrived(chunks[1..])
  }

  ghost function First<T>(xs: seq<T>, n: nat): seq<T> {
    if |xs| <= n then xs else xs[..n]
  }

  lemma FirstIsPrefix<T>(xs: seq<T>, n: nat)
    ensures First(xs, n) <= xs && |First(xs, n)| == if |xs| < n then |xs| else n
  {}

  lemma FirstOfMore<T>(xs: seq<T>, ys: seq<T>, n: nat)
    requires |xs| > n
    ensures First(xs + ys, n) == First(xs, n)
  {}

  lemma DropFromBoth(a: Bytes, b: Bytes, n: nat)
    requires n <= |a|
    ensures (a + b)[n..] == a[n..] + b
  {}

  // Behind a complete frame the stream goes on as if it started there.
  lemma RepliesStep(buf: Bytes, coming: Bytes)
    requires Decode(buf).Complete?
    ensures var d := Decode(buf);
      && d.opcode < 16 && |d.payload| <= MAX_PAYLOAD && 6 <= d.consumed <= |buf|
      && Replies(buf + coming) ==
           Answer(d.opcode, d.payload) + if GoesOn(d.opcode) then Replies(buf[d.consumed..] + coming) else []
  {
    DecodedBounds(buf);
    DecodeIsStable(buf, coming);
    DropFromBoth(buf, coming, Decode(buf).consumed);
  }

  /** Answer one frame; go tells whether the loop goes on. */
  method Respond(opcode: nat, payload: Bytes, sent: seq<Bytes>, sendable: nat) returns (now: seq<Bytes>, go: bool)
    requires opcode < 16 && |payload| <= MAX_PAYLOAD && |sent| <= sendable
    ensures now == First(sent + Answer(opcode, payload), sendable)
    ensures go <==> GoesOn(opcode) && |sent + Answer(opcode, payload)| <= sendable
  {
    now, go := sent, true;
    if opcode == 1 || opcode == 2 {
      if |sent| == sendable {
        go := false;
      } else {
        var frame := EncodeServerFrame(opcode, payload);
        now := sent + [frame];
      }
    } else if opcode == 8 {
      if |sent| < sendable {
        var frame := EncodeServerFrame(8, payload);
        now := sent + [frame];
      }
      go := false;
    } else if opcode == 9 {
      if |sent| == sendable {
        go := false;
      } else {
        var frame := EncodeServerFrame(10, payload);
        now := sent + [frame];
      }
    } else if opcode != 10 {
      go := false;
    }
  }

  /**
   The loop over the bytes left over from the handshake and a sequence of reads, where the first
   sendable frames can be sent and every later send fails. Returns the frames sent.
   */
  method EchoLoop(leftover: Bytes, chunks: seq<Bytes>, sendable: nat) returns (sent: seq<Bytes>)
    ensures sent == First(Replies(leftover + Arrived(chunks)), sendable)
  {
    var buf := leftover;
    var next := 0;
    sent := [];
    ghost var goal := Replies(leftover + Arrived(chunks));
    ghost var coming := Arrived(chunks);
    assert chunks[0..] == chunks;
    while true
      invariant next <= |chunks| && |sent| <= sendable && coming == Arrived(chunks[next..])
      invariant goal == sent + Replies(buf + coming)
      decreases |chunks| - next, |buf|
    {
      var verdict := TryDecode(buf);
      match verdict {
        case Complete(opcode, payload, consumed) =>
          RepliesStep(buf, coming);
          buf := buf[consumed..];
          ghost var before := sent;
          var go;
          sent, go := Respond(opcode, payload, sent, sendable);
          FinishOrGoOn(goal, before, Answer(opcode, payload), if GoesOn(opcode) then Replies(buf + coming) else [],
                       sendable);
          if !go {
            return;
          }
        case NeedMore =>
          if next == |chunks| || |chunks[next]| == 0 {
            assert buf + coming == buf;
            return;
          }
          NextChunk(chunks, next, buf);
          coming := Arrived(chunks[next + 1..]);
          buf := buf + chunks[next];
          next := next + 1;
        case Error =>
          DecodeIsStable(buf, coming);
          return;
      }
    }
  }

  lemma FinishOrGoOn(goal: seq<Bytes>, sent: seq<Bytes>, answer: seq<Bytes>, tail: seq<Bytes>,
      sendable: nat)
    requires goal == sent + (answer + tail) && |sent| <= sendable
    ensures goal == sent + answer + tail
    ensures tail == [] || |sent + answer| > sendable ==> First(goal, sendable) == First(sent + answer, sendable)
    ensures |sent + answer| <= sendable ==> First(sent + answer, sendable) == sent + answer
  {
    assert goal == sent + answer + tail;
    if |sent + answer| > sendable {
      FirstOfMore(sent + answer, tail, sendable);
    }
  }

  lemma NextChunk(chunks: seq<Bytes>, next: nat, buf: Bytes)
    requires next < |chunks| && chunks[next] != []
    ensures buf + Arrived(chunks[next..]) == buf + chunks[next] + Arrived(chunks[next + 1..])
  {
    assert chunks[next..][1..] == chunks[next + 1..];
  }

  // --- what the loop promises ---

  ghost function Joined(chunks: seq<Bytes>): Bytes {
    if chunks == [] then [] else Joined(chunks[..|chunks| - 1]) + chunks[|chunks| - 1]
  }

  // However a stream is split into reads that are not empty, all of it arrives; so the frames sent
  // depend on the bytes only.
  lemma {:induction false} SplitStreamArrives(leftover: Bytes, chunks: seq<Bytes>)
    requires forall i :: 0 <= i < |chunks| ==> chunks[i] != []
    ensures leftover + Arrived(chunks) == leftover + Joined(chunks)
  {
    if chunks != [] {
      SplitStreamArrives(leftover, chunks[..|chunks| - 1]);
      ArrivedSnoc(chunks[..|chunks| - 1], chunks[|chunks| - 1]);
      assert chunks == chunks[..|chunks| - 1] + [chunks[|chunks| - 1]];
      SameTail(leftover, Arrived(chunks[..|chunks| - 1]), Joined(chunks[..|chunks| - 1]));
    }
  }

  // An empty read is the end of the stream: nothing behind it arrives.
  lemma {:induction false} EmptyReadEnds(chunks: seq<Bytes>, later: seq<Bytes>)
    requires forall i :: 0 <= i < |chunks| ==> chunks[i] != []
    ensures Arrived(chunks + ([[]] + later)) == Arrived(chunks)
    decreases |chunks|
  {
    if chunks != [] {
      EmptyReadEnds(chunks[1..], later);
      assert (chunks + ([[]] + later))[1..] == chunks[1..] + ([[]] + later);
    }
  }

  lemma SameTail<T>(a: seq<T>, b: seq<T>, c: seq<T>)
    ensures a + b == a + c <==> b == c
  {
    assert (a + b)[|a|..] == b && (a + c)[|a|..] == c;
  }

  lemma {:induction false} ArrivedSnoc(chunks: seq<Bytes>, last: Bytes)
    requires last != [] && forall i :: 0 <= i < |chunks| ==> chunks[i] != []
    ensures Arrived(chunks + [last]) == Arrived(chunks) + last
  {
    if chunks == [] {
      assert (chunks + [last])[1..] == [];
      assert Arrived([last]) == last + Arrived([]);
    } else {
      assert (chunks + [last])[1..] == chunks[1..] + [last];
      ArrivedSnoc(chunks[1..], last);
    }
  }

  datatype Sent = Sent(flags: nat, opcode: nat, form: Form, mask: Bytes, payload: Bytes)

  ghost predicate ValidSent(f: Sent) {
    f.flags < 16 && f.opcode < 16 && |f.mask| == 4 && Fits(f.form, |f.payload|) && |f.payload| <= MAX_PAYLOAD
  }

  ghost predicate AllValid(fs: seq<Sent>) {
    |fs| > 0 ==> ValidSent(fs[0]) && AllValid(fs[1..])
  }

  ghost function OnWire(f: Sent): Bytes
    requires ValidSent(f)
  {
    ClientFrame(f.flags, f.opcode, f.form, f.mask, f.payload)
  }

  ghost function Wire(fs: seq<Sent>): Bytes
    requires AllValid(fs)
  {
    if |fs| == 0 then [] else OnWire(fs[0]) + Wire(fs[1..])
  }

  ghost function Answers(fs: seq<Sent>): seq<Bytes>
    requires AllValid(fs)
  {
    if |fs| == 0 then []
    else Answer(fs[0].opcode, fs[0].payload) + if GoesOn(fs[0].opcode) then Answers(fs[1..]) else []
  }

  // The frames a client sends, however masked and with whatever form of length, are answered one by
  // one and in order, up to the first close or unknown frame.
  lemma {:induction false} FramesAreAnswered(fs: seq<Sent>)
    requires AllValid(fs)
    ensures Replies(Wire(fs)) == Answers(fs)
  {
    if |fs| > 0 {
      FirstFrame(fs[0], Wire(fs[1..]));
      FramesAreAnswered(fs[1..]);
    }
  }

  lemma {:induction false} FirstFrame(f: Sent, coming: Bytes)
    requires ValidSent(f)
    ensures Replies(OnWire(f) + coming) ==
      Answer(f.opcode, f.payload) + if GoesOn(f.opcode) then Replies(coming) else []
  {
    FrameDecodes(f.flags, f.opcode, f.form, f.mask, f.payload, []);
    assert OnWire(f) + [] == OnWire(f);
    RepliesStep(OnWire(f), coming);
    assert OnWire(f)[|OnWire(f)|..] + coming == coming;
  }
}
