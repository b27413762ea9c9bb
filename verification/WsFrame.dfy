/**
  The WebSocket wire format as this service reads and writes it (RFC 6455, sections 5.2 and 5.3):
  frame heads in three length forms, payload masking, parsing from the front of a buffer, and the
  encoders.  A byte is an integer below 256; bit tests are written as arithmetic on it.
 */
module WsFrame {

  type byte = x: int | 0 <= x < 256
  type Bytes = seq<byte>

  /** A masking key: the four bytes that precede a masked payload. */
  type Key = k: Bytes | |k| == 4 witness [0, 0, 0, 0]

  const CONTINUATION: nat := 0x0
  const TEXT: nat := 0x1
  const BINARY: nat := 0x2
  const CLOSE: nat := 0x8
  const PING: nat := 0x9
  const PONG: nat := 0xa

  /** No 64-bit length exceeds this: the limit of a reader that accepts every frame. */
  const NO_LIMIT: nat := 0x1_0000_0000_0000_0000

  const FOUR_GIB: nat := 0x1_0000_0000

  // ---------------------------------------------------------------------------------------------
  // Masking
  // ---------------------------------------------------------------------------------------------

  function Pow2(width: nat): (p: nat)
    ensures p > 0
  {
    if width == 0 then 1 else 2 * Pow2(width - 1)
  }

  /** Exclusive or of two numbers of `width` bits, lowest bit first. */
  function XorBits(width: nat, a: nat, b: nat): (x: nat)
    requires a < Pow2(width) && b < Pow2(width)
    ensures x < Pow2(width)
  {
    if width == 0 then 0 else (a + b) % 2 + 2 * XorBits(width - 1, a / 2, b / 2)
  }

  lemma LowestBit(a: nat, b: nat, tail: nat)
    ensures ((a + b) % 2 + 2 * tail) / 2 == tail
    ensures ((a + b) % 2 + 2 * tail + b) % 2 == a % 2
  {
  }

  lemma {:induction false} XorBitsInvolutive(width: nat, a: nat, b: nat)
    requires a < Pow2(width) && b < Pow2(width)
    ensures XorBits(width, XorBits(width, a, b), b) == a
  {
    if width > 0 {
      XorBitsInvolutive(width - 1, a / 2, b / 2);
      var tail := XorBits(width - 1, a / 2, b / 2);
      LowestBit(a, b, tail);
      assert XorBits(width, a, b) / 2 == tail;
      assert a == a % 2 + 2 * (a / 2);
    }
  }

  function Xor(a: byte, b: byte): byte {
    assert Pow2(8) == 256;
    XorBits(8, a, b)
  }

  /** Bit `i` of a number, the lowest being number 0. */
  function Bit(x: nat, i: nat): nat { x / Pow2(i) % 2 }

  lemma HalfAndRest(x: nat, p: nat)
    requires p > 0
    ensures x / (2 * p) == x / 2 / p
  {
    var q, r := x / 2 / p, x / 2 % p;
    assert x == 2 * (q * p + r) + x % 2;
    assert x == q * (2 * p) + (2 * r + x % 2) && 2 * r + x % 2 < 2 * p;
    QuotientIs(x, 2 * p, q, 2 * r + x % 2);
  }

  lemma MultipleIsFar(k: int, d: int)
    requires d >= 0
    ensures k >= 1 ==> k * d >= d
    ensures k <= -1 ==> k * d <= -d
  {
    if k >= 1 { assert k * d == (k - 1) * d + d && (k - 1) * d >= 0; }
    if k <= -1 { assert k * d == (k + 1) * d - d && (k + 1) * d <= 0; }
  }

  lemma QuotientIs(x: nat, d: nat, q: nat, r: nat)
    requires x == q * d + r && r < d
    ensures x / d == q
  {
    var k := x / d - q;
    assert x == (x / d) * d + x % d;
    assert k * d == (x / d) * d - q * d;
    MultipleIsFar(k, d);
  }

  lemma BitOfHalf(x: nat, i: nat)
    ensures Bit(x, 0) == x % 2
    ensures i > 0 ==> Bit(x, i) == Bit(x / 2, i - 1)
  {
    if i > 0 { HalfAndRest(x, Pow2(i - 1)); }
  }

  lemma LowestXor(width: nat, a: nat, b: nat)
    requires width > 0 && a < Pow2(width) && b < Pow2(width)
    ensures XorBits(width, a, b) / 2 == XorBits(width - 1, a / 2, b / 2)
    ensures XorBits(width, a, b) % 2 == (a % 2 + b % 2) % 2
  {
    LowestBit(a, b, XorBits(width - 1, a / 2, b / 2));
    LowestSum(a, b, XorBits(width - 1, a / 2, b / 2));
  }

  lemma LowestSum(a: nat, b: nat, tail: nat)
    ensures ((a + b) % 2 + 2 * tail) % 2 == (a % 2 + b % 2) % 2
  {
  }

  lemma {:induction false} XorBitsAt(width: nat, a: nat, b: nat, i: nat)
    requires a < Pow2(width) && b < Pow2(width) && i < width
    ensures Bit(XorBits(width, a, b), i) == (Bit(a, i) + Bit(b, i)) % 2
  {
    hide Bit, XorBits;
    LowestXor(width, a, b);
    BitOfHalf(a, i);
    BitOfHalf(b, i);
    BitOfHalf(XorBits(width, a, b), i);
    if i > 0 { XorBitsAt(width - 1, a / 2, b / 2, i - 1); }
  }

  /** The exclusive or of two bytes: each bit is set where exactly one of the two is. */
  lemma XorIsBitwise(a: byte, b: byte, i: nat)
    requires i < 8
    ensures Bit(Xor(a, b), i) == if Bit(a, i) == Bit(b, i) then 0 else 1
  {
    assert Pow2(8) == 256;
    XorBitsAt(8, a, b, i);
    hide XorBits, Pow2;
  }

  function Mask(data: Bytes, key: Key): (masked: Bytes)
    ensures |masked| == |data|
  {
    seq(|data|, i requires 0 <= i < |data| => Xor(data[i], key[i % 4]))
  }

  /**
    Masking is the exclusive or with the key, repeated, bit for bit; so masking twice with one key gives the
    data back: the same operation masks and unmasks.
   */
  lemma MaskInvolutive(data: Bytes, key: Key)
    ensures Mask(Mask(data, key), key) == data
    ensures forall i, k {:trigger Bit(Mask(data, key)[i], k)} :: 0 <= i < |data| && 0 <= k < 8 ==>
              Bit(Mask(data, key)[i], k) == if Bit(data[i], k) == Bit(key[i % 4], k) then 0 else 1
  {
    hide Bit;
    forall i, k {:trigger Bit(Mask(data, key)[i], k)} | 0 <= i < |data| && 0 <= k < 8
      ensures Bit(Mask(data, key)[i], k) == if Bit(data[i], k) == Bit(key[i % 4], k) then 0 else 1
    {
      XorIsBitwise(data[i], key[i % 4], k);
    }
    forall i | 0 <= i < |data| ensures Mask(Mask(data, key), key)[i] == data[i] {
      assert Pow2(8) == 256;
      XorBitsInvolutive(8, data[i], key[i % 4]);
    }
  }

  // ---------------------------------------------------------------------------------------------
  // Big-endian numbers
  // ---------------------------------------------------------------------------------------------

  function U16(b: Bytes, at: nat): (n: nat)
    requires at + 2 <= |b|
    ensures n < 0x1_0000
  {
    var high: int, low: int := b[at], b[at + 1];
    high * 0x100 + low
  }

  function U32(b: Bytes, at: nat): (n: nat)
    requires at + 4 <= |b|
    ensures n < FOUR_GIB
  {
    U16(b, at) * 0x1_0000 + U16(b, at + 2)
  }

  function U16Bytes(n: nat): (b: Bytes)
    requires n < 0x1_0000
    ensures |b| == 2 && U16(b, 0) == n
  {
    [n / 0x100, n % 0x100]
  }

  function U32Bytes(n: nat): (b: Bytes)
    requires n < FOUR_GIB
    ensures |b| == 4 && U32(b, 0) == n
  {
    var high, low := U16Bytes(n / 0x1_0000), U16Bytes(n % 0x1_0000);
    assert (high + low)[0] == high[0] && (high + low)[1] == high[1];
    assert (high + low)[2] == low[0] && (high + low)[3] == low[1];
    high + low
  }

  // ---------------------------------------------------------------------------------------------
  // Frames
  // ---------------------------------------------------------------------------------------------

  function Fin(b0: byte): bool { b0 / 0x80 == 1 }
  function Rsv1(b0: byte): bool { b0 / 0x40 % 2 == 1 }
  /** The three reserved bits together (`b0 & 0x70`, shifted down). */
  function Rsv(b0: byte): nat { b0 / 0x10 % 8 }
  function Opcode(b0: byte): nat { b0 % 0x10 }
  function Masked(b1: byte): bool { b1 / 0x80 == 1 }
  function Length7(b1: byte): nat { b1 % 0x80 }

  /** One parsed frame: its first byte, whether it was masked, its plain payload, its bytes on the wire. */
  datatype Frame = Frame(b0: byte, masked: bool, payload: Bytes, wire: Bytes) {
    predicate IsFin() { Fin(b0) }
    predicate HasRsv1() { Rsv1(b0) }
    function Op(): nat { Opcode(b0) }
    predicate IsControl() { Op() >= 8 }
  }

  /** The payload length a frame head announces and where the head (without mask) ends. */
  datatype Head = NeedMore | TooBig | Head(length: nat, offset: nat)

  function ParseHead(b: Bytes, limit: nat): (h: Head)
    ensures h.Head? ==> 2 <= h.offset <= |b| && h.offset <= 10
    ensures h.Head? && limit >= 0x1_0000 ==> h.length <= limit
  {
    if |b| < 2 then NeedMore
    else if Length7(b[1]) == 126 then
      if |b| < 4 then NeedMore else Head(U16(b, 2), 4)
    else if Length7(b[1]) == 127 then
      if |b| < 10 then NeedMore
      else
        var length := U32(b, 2) * FOUR_GIB + U32(b, 6);
        if length > limit then TooBig else Head(length, 10)
    else Head(Length7(b[1]), 2)
  }

  datatype Parse = Incomplete | Oversized | Parsed(frame: Frame)

  /** Take one frame from the front of `b`; the payload is unmasked when the frame is masked. */
  function ParseFrame(b: Bytes, limit: nat): (p: Parse)
    ensures p.Parsed? ==> 2 <= |p.frame.wire| <= |b| && p.frame.wire == b[..|p.frame.wire|]
    ensures p.Parsed? ==> p.frame.b0 == b[0] && p.frame.masked == Masked(b[1])
  {
    match ParseHead(b, limit)
    case NeedMore => Incomplete
    case TooBig => Oversized
    case Head(length, offset) =>
      var masked := Masked(b[1]);
      var start := offset + (if masked then 4 else 0);
      if |b| < start + length then Incomplete
      else
        var payload := b[start..start + length];
        Parsed(Frame(b[0], masked, if masked then Mask(payload, b[offset..offset + 4]) else payload,
                     b[..start + length]))
  }

  /** A head depends on its own bytes only. */
  lemma HeadOfPrefix(b: Bytes, c: Bytes, limit: nat)
    requires b <= c && !ParseHead(b, limit).NeedMore?
    ensures ParseHead(c, limit) == ParseHead(b, limit)
  {
    assert b[0] == c[0] && b[1] == c[1];
    if Length7(b[1]) == 126 {
      assert U16(c, 2) == U16(b, 2);
    } else if Length7(b[1]) == 127 {
      assert U32(c, 2) == U32(b, 2) && U32(c, 6) == U32(b, 6);
    }
  }

  /** A frame depends on its own bytes only: any buffer that starts with them yields the same frame. */
  lemma FrameOfPrefix(b: Bytes, c: Bytes, limit: nat)
    requires ParseFrame(b, limit).Parsed? && ParseFrame(b, limit).frame.wire <= c
    ensures ParseFrame(c, limit) == ParseFrame(b, limit)
  {
    hide ParseHead, Mask;
    var wire := ParseFrame(b, limit).frame.wire;
    var h := ParseHead(b, limit);
    var start := h.offset + (if Masked(b[1]) then 4 else 0);
    HeadOfWire(b, wire, limit);
    HeadOfPrefix(wire, c, limit);
    PrefixSlice(wire, b, 0, start + h.length);
    PrefixSlice(wire, c, 0, start + h.length);
    PrefixSlice(wire, b, start, start + h.length);
    PrefixSlice(wire, c, start, start + h.length);
    PrefixSlice(wire, b, h.offset, start);
    PrefixSlice(wire, c, h.offset, start);
  }

  lemma PrefixSlice(a: Bytes, b: Bytes, from: nat, to: nat)
    requires a <= b && from <= to <= |a|
    ensures b[from..to] == a[from..to]
    ensures to >= 2 ==> a[1] == b[1] && a[0] == b[0]
  {
  }

  lemma HeadOfWire(b: Bytes, wire: Bytes, limit: nat)
    requires ParseHead(b, limit).Head? && wire <= b && |wire| >= ParseHead(b, limit).offset
    ensures ParseHead(wire, limit) == ParseHead(b, limit)
  {
    assert wire[0] == b[0] && wire[1] == b[1];
    if Length7(b[1]) == 126 {
      assert U16(wire, 2) == U16(b, 2);
    } else if Length7(b[1]) == 127 {
      assert U32(wire, 2) == U32(b, 2) && U32(wire, 6) == U32(b, 6);
    }
  }

  /** Whatever follows a frame (or an oversized head) does not change how it is read. */
  lemma ParseExtends(b: Bytes, more: Bytes, limit: nat)
    requires !ParseFrame(b, limit).Incomplete?
    ensures ParseFrame(b + more, limit) == ParseFrame(b, limit)
  {
    if ParseFrame(b, limit).Parsed? {
      FrameOfPrefix(b, b + more, limit);
    } else {
      HeadOfPrefix(b, b + more, limit);
    }
  }

  /** Readers with different limits agree on every frame that both accept and on incomplete input. */
  lemma ParseLimits(b: Bytes, small: nat, large: nat)
    requires small <= large
    ensures !ParseFrame(b, small).Oversized? ==> ParseFrame(b, large) == ParseFrame(b, small)
  {
    hide ParseHead, Mask;
    HeadLimits(b, small, large);
  }

  lemma HeadLimits(b: Bytes, small: nat, large: nat)
    requires small <= large
    ensures !ParseHead(b, small).TooBig? ==> ParseHead(b, large) == ParseHead(b, small)
  {
    hide U16, U32, Length7;
  }

  lemma NeverOversized(b: Bytes)
    ensures !ParseFrame(b, NO_LIMIT).Oversized?
  {
  }

  // ---------------------------------------------------------------------------------------------
  // Encoding
  // ---------------------------------------------------------------------------------------------

  /** Second head byte and extended length, in the shortest form; `mark` is the mask bit. */
  function LengthField(length: nat, mark: nat): (b: Bytes)
    requires length < FOUR_GIB && (mark == 0 || mark == 0x80)
  {
    if length < 126 then [mark + length]
    else if length < 65536 then [mark + 126] + U16Bytes(length)
    else [mark + 127] + U32Bytes(0) + U32Bytes(length)
  }

  /** An unmasked frame, as the server side sends it. */
  function EncodeFrame(opcode: nat, payload: Bytes, fin: bool): Bytes
    requires |payload| < FOUR_GIB
  {
    [(if fin then 0x80 else 0) + opcode % 0x10] + LengthField(|payload|, 0) + payload
  }

  /** A masked final text frame, as a client sends it. */
  function EncodeMaskedText(text: Bytes, key: Key): Bytes
    requires |text| < FOUR_GIB
  {
    [0x80 + TEXT] + LengthField(|text|, 0x80) + key + Mask(text, key)
  }

  /** A masked control frame.  Only seven bits of the length are written. */
  function EncodeMaskedControl(opcode: nat, payload: Bytes, key: Key): Bytes
    requires 8 <= opcode < 16
  {
    [0x80 + opcode, 0x80 + |payload| % 0x80] + key + Mask(payload, key)
  }

  lemma HeadOfLengthField(b0: byte, length: nat, mark: nat, rest: Bytes, limit: nat)
    requires length < FOUR_GIB && (mark == 0 || mark == 0x80) && length <= limit
    ensures ParseHead([b0] + LengthField(length, mark) + rest, limit)
         == Head(length, 1 + |LengthField(length, mark)|)
    ensures Masked(([b0] + LengthField(length, mark) + rest)[1]) == (mark == 0x80)
  {
    var b := [b0] + LengthField(length, mark) + rest;
    if length < 126 {
      assert b[1] == mark + length;
    } else if length < 65536 {
      assert b[1] == mark + 126 && b[2..4] == U16Bytes(length);
      assert U16(b, 2) == U16(b[2..4], 0);
    } else {
      assert b[1] == mark + 127 && b[2..6] == U32Bytes(0) && b[6..10] == U32Bytes(length);
      assert U32(b, 2) == U32(b[2..6], 0) && U32(b, 6) == U32(b[6..10], 0);
    }
  }

  lemma FirstByte(opcode: nat, fin: bool)
    ensures var b0 := (if fin then 0x80 else 0) + opcode % 0x10;
            b0 < 0x100 && Fin(b0) == fin && Rsv(b0) == 0 && Opcode(b0) == opcode % 0x10
  {
  }

  /** Round trip, unmasked: any opcode, any payload the reader's limit admits, any suffix. */
  lemma FrameRoundTrip(opcode: nat, payload: Bytes, fin: bool, suffix: Bytes, limit: nat)
    requires |payload| < FOUR_GIB && |payload| <= limit
    ensures var wire := EncodeFrame(opcode, payload, fin);
            var p := ParseFrame(wire + suffix, limit);
            p.Parsed? && p.frame.wire == wire && p.frame.payload == payload && !p.frame.masked
            && p.frame.IsFin() == fin && p.frame.Op() == opcode % 16 && Rsv(p.frame.b0) == 0
  {
    hide ParseHead, LengthField, Mask, Fin, Rsv, Opcode;
    FirstByte(opcode, fin);
    var b0: byte := (if fin then 0x80 else 0) + opcode % 0x10;
    var wire := EncodeFrame(opcode, payload, fin);
    var field := LengthField(|payload|, 0);
    HeadOfLengthField(b0, |payload|, 0, payload + suffix, limit);
    assert wire + suffix == [b0] + field + (payload + suffix);
    var start := 1 + |field|;
    assert (wire + suffix)[start..start + |payload|] == payload;
    assert (wire + suffix)[..start + |payload|] == wire;
    assert (wire + suffix)[0] == b0;
  }

  /** Round trip, masked text: the reader recovers the text for every key, and consumes just the frame. */
  lemma MaskedTextRoundTrip(text: Bytes, key: Key, suffix: Bytes, limit: nat)
    requires |text| < FOUR_GIB && |text| <= limit
    ensures var wire := EncodeMaskedText(text, key);
            ParseFrame(wire + suffix, limit) == Parsed(Frame(0x81, true, text, wire))
  {
    var wire := EncodeMaskedText(text, key);
    var field := LengthField(|text|, 0x80);
    var body := Mask(text, key);
    HeadOfLengthField(0x81, |text|, 0x80, key + body + suffix, limit);
    assert wire + suffix == [0x81] + field + (key + body + suffix);
    var offset := 1 + |field|;
    assert (wire + suffix)[offset..offset + 4] == key;
    assert (wire + suffix)[offset + 4..offset + 4 + |text|] == body;
    assert (wire + suffix)[..offset + 4 + |text|] == wire;
    MaskInvolutive(text, key);
  }

  /** The seven bits that the control encoder keeps are the length when it is at most 125. */
  lemma ShortControl(opcode: nat, payload: Bytes, key: Key, suffix: Bytes, limit: nat)
    requires 8 <= opcode < 16 && |payload| <= limit && |payload| <= 125
    ensures var wire := EncodeMaskedControl(opcode, payload, key);
            ParseFrame(wire + suffix, limit) == Parsed(Frame(0x80 + opcode, true, payload, wire))
  {
    hide Mask;
    var wire := EncodeMaskedControl(opcode, payload, key);
    var body := Mask(payload, key);
    assert |wire| == 6 + |payload|;
    var b := wire + suffix;
    assert b[0] == 0x80 + opcode && b[1] == 0x80 + |payload|;
    assert b[2..6] == key && b[6..6 + |payload|] == body && b[..6 + |payload|] == wire;
    MaskInvolutive(payload, key);
    assert ParseHead(b, limit) == Head(|payload|, 2);
    hide Mask, EncodeMaskedControl, ParseHead;
  }

  lemma LongControl(opcode: nat, payload: Bytes, key: Key, suffix: Bytes, limit: nat)
    requires 8 <= opcode < 16 && |payload| > 125
    ensures var wire := EncodeMaskedControl(opcode, payload, key);
            ParseFrame(wire + suffix, limit) != Parsed(Frame(0x80 + opcode, true, payload, wire))
  {
    var wire := EncodeMaskedControl(opcode, payload, key);
    assert |wire| == 6 + |payload|;
    var b := wire + suffix;
    assert b[1] == 0x80 + |payload| % 0x80;
    var h := ParseHead(b, limit);
    assert h.Head? ==> h.length != |payload| || h.offset != 2;
    hide Mask, EncodeMaskedControl, ParseHead;
  }

  /**
    The control encoder keeps only seven bits of the length, so its frames come back exactly when the
    payload has at most 125 bytes, the bound RFC 6455 section 5.5 sets for control frames.
   */
  lemma ControlRoundTrip(opcode: nat, payload: Bytes, key: Key, suffix: Bytes, limit: nat)
    requires 8 <= opcode < 16 && |payload| <= limit
    ensures var wire := EncodeMaskedControl(opcode, payload, key);
            (ParseFrame(wire + suffix, limit) == Parsed(Frame(0x80 + opcode, true, payload, wire)))
            <==> |payload| <= 125
  {
    hide ParseFrame, EncodeMaskedControl;
    if |payload| <= 125 {
      ShortControl(opcode, payload, key, suffix, limit);
    } else {
      LongControl(opcode, payload, key, suffix, limit);
    }
  }
}
