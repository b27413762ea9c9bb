/**
  The frame layout of RFC 6455, section 5.2, written down field by field: the parser reads exactly the
  frames so laid out, in all three forms of the length, and the encoders write them in the shortest form.
 */
module WsLayout {
  import opened WsFrame
  import opened Options

  /** Where a frame keeps its length: in the second byte, in two more bytes, or in eight. */
  datatype Form = Seven | Sixteen | SixtyFour

  datatype Fields = Fields(fin: bool, rsv1: bool, rsv2: bool, rsv3: bool, opcode: nat, key: Option<Key>,
                           form: Form, payload: Bytes)

  function Flag(on: bool, weight: nat): nat { if on then weight else 0 }

  /** A number in network byte order. */
  function Digits(n: nat, width: nat): (b: Bytes)
    ensures |b| == width
  {
    if width == 0 then [] else Digits(n / 256, width - 1) + [n % 256]
  }

  function Number(b: Bytes): nat {
    if b == [] then 0
    else
      var last: int := b[|b| - 1];
      Number(b[..|b| - 1]) * 256 + last
  }

  predicate Fits(h: Fields) {
    && h.opcode < 16
    && match h.form
       case Seven => |h.payload| < 126
       case Sixteen => |h.payload| < 0x1_0000
       case SixtyFour => |h.payload| < 0x1_0000_0000_0000_0000
  }

  function FirstOf(h: Fields): (b0: byte)
    requires Fits(h)
  {
    Flag(h.fin, 128) + Flag(h.rsv1, 64) + Flag(h.rsv2, 32) + Flag(h.rsv3, 16) + h.opcode
  }

  /** The second byte and the extended length. */
  function LengthOf(h: Fields): (b: Bytes)
    requires Fits(h)
    ensures |b| == (match h.form case Seven => 1 case Sixteen => 3 case SixtyFour => 9)
  {
    var mark := Flag(h.key.Some?, 128);
    match h.form
    case Seven => [mark + |h.payload|]
    case Sixteen => [mark + 126] + Digits(|h.payload|, 2)
    case SixtyFour => [mark + 127] + Digits(|h.payload|, 8)
  }

  /** The masking key and the masked payload, or the payload as it is. */
  function BodyOf(h: Fields): Bytes {
    match h.key
    case None => h.payload
    case Some(key) => key + Mask(h.payload, key)
  }

  function Layout(h: Fields): Bytes
    requires Fits(h)
  {
    [FirstOf(h)] + LengthOf(h) + BodyOf(h)
  }

  // ---- Numbers ----

  lemma {:induction false} NumberOfDigits(n: nat, width: nat, power: nat)
    requires power == Power256(width) && n < power
    ensures Number(Digits(n, width)) == n
  {
    if width > 0 {
      SmallerPower(n, Power256(width - 1));
      NumberOfDigits(n / 256, width - 1, Power256(width - 1));
      var init := Digits(n / 256, width - 1);
      assert Digits(n, width)[..width - 1] == init;
    }
  }

  function Power256(width: nat): nat {
    if width == 0 then 1 else 256 * Power256(width - 1)
  }

  lemma SmallerPower(n: nat, p: nat)
    requires n < 256 * p
    ensures n / 256 < p
  {
  }

  lemma {:induction false} DigitsOfNumber(b: Bytes)
    ensures Digits(Number(b), |b|) == b
  {
    if b != [] {
      var init, last := b[..|b| - 1], b[|b| - 1];
      DigitsOfNumber(init);
      var high, low: int := Number(init), last;
      assert (high * 256 + low) / 256 == high && (high * 256 + low) % 256 == low;
      assert b == init + [last];
    }
  }

  lemma NumberOfTwo(b: Bytes, at: nat)
    requires at + 2 <= |b|
    ensures Number(b[at..at + 2]) == U16(b, at)
  {
    var two := b[at..at + 2];
    var high: int := b[at];
    assert two[..1] == [b[at]];
    assert Number(two[..1]) == high by { assert two[..1][..0] == []; }
  }

  lemma {:induction false} NumberConcat(a: Bytes, b: Bytes)
    ensures Number(a + b) == Number(a) * Power256(|b|) + Number(b)
  {
    if b == [] {
      assert a + b == a;
    } else {
      var init, last: int := b[..|b| - 1], b[|b| - 1];
      NumberConcat(a, init);
      assert (a + b)[..|a + b| - 1] == a + init;
      Shifted(Number(a), Power256(|init|), Number(init), last);
    }
  }

  lemma Shifted(high: nat, power: nat, low: nat, last: int)
    ensures (high * power + low) * 256 + last == high * (256 * power) + (low * 256 + last)
  {
  }

  lemma NumberOfFour(b: Bytes, at: nat)
    requires at + 4 <= |b|
    ensures Number(b[at..at + 4]) == U32(b, at)
  {
    assert b[at..at + 4] == b[at..at + 2] + b[at + 2..at + 4];
    NumberConcat(b[at..at + 2], b[at + 2..at + 4]);
    NumberOfTwo(b, at);
    NumberOfTwo(b, at + 2);
    assert Power256(2) == 0x1_0000;
  }

  lemma NumberOfEight(b: Bytes, at: nat)
    requires at + 8 <= |b|
    ensures Number(b[at..at + 8]) == U32(b, at) * FOUR_GIB + U32(b, at + 4)
  {
    assert b[at..at + 8] == b[at..at + 4] + b[at + 4..at + 8];
    NumberConcat(b[at..at + 4], b[at + 4..at + 8]);
    NumberOfFour(b, at);
    NumberOfFour(b, at + 4);
    assert Power256(4) == FOUR_GIB by { assert Power256(2) == 0x1_0000; }
  }

  /** What a head announces, said with the numbers of section 5.2. */
  lemma HeadSays(b: Bytes, limit: nat)
    ensures ParseHead(b, limit) ==
            if |b| < 2 then NeedMore
            else if b[1] % 128 < 126 then Head(b[1] % 128, 2)
            else if b[1] % 128 == 126 then if |b| < 4 then NeedMore else Head(Number(b[2..4]), 4)
            else if |b| < 10 then NeedMore
            else if Number(b[2..10]) > limit then TooBig
            else Head(Number(b[2..10]), 10)
  {
    if |b| >= 4 { NumberOfTwo(b, 2); }
    if |b| >= 10 { NumberOfEight(b, 2); }
    hide U16, U32, Number;
  }

  // ---- Frames laid out so are read so ----

  lemma FirstBits(h: Fields)
    requires Fits(h)
    ensures Fin(FirstOf(h)) == h.fin && Rsv1(FirstOf(h)) == h.rsv1 && Opcode(FirstOf(h)) == h.opcode
    ensures Rsv(FirstOf(h)) == 0 <==> !h.rsv1 && !h.rsv2 && !h.rsv3
    ensures Rsv(FirstOf(h)) % 4 == 0 <==> !h.rsv2 && !h.rsv3
  {
    hide Digits, Mask;
    var low := Flag(h.rsv2, 2) + Flag(h.rsv3, 1);
    SplitByte(Flag(h.fin, 1), Flag(h.rsv1, 1), low, h.opcode);
  }

  lemma SplitByte(fin: nat, rsv1: nat, low: nat, opcode: nat)
    requires fin < 2 && rsv1 < 2 && low < 4 && opcode < 16
    ensures var b0 := fin * 128 + rsv1 * 64 + low * 16 + opcode;
            b0 / 128 == fin && b0 / 64 % 2 == rsv1 && b0 / 16 % 8 == rsv1 * 4 + low && b0 % 16 == opcode
  {
  }

  lemma LaidOutHead(h: Fields, rest: Bytes, limit: nat)
    requires Fits(h)
    ensures var b := [FirstOf(h)] + LengthOf(h) + rest;
            && Masked(b[1]) == h.key.Some?
            && ParseHead(b, limit) == (if h.form.SixtyFour? && |h.payload| > limit then TooBig
                                       else Head(|h.payload|, 1 + |LengthOf(h)|))
  {
    hide ParseHead, FirstOf, Digits, Number;
    var b := [FirstOf(h)] + LengthOf(h) + rest;
    HeadSays(b, limit);
    match h.form
    case Seven => assert b[1] == LengthOf(h)[0];
    case Sixteen =>
      assert b[1] == LengthOf(h)[0] && b[2..4] == Digits(|h.payload|, 2);
      Powers();
      NumberOfDigits(|h.payload|, 2, 0x1_0000);
    case SixtyFour =>
      assert b[1] == LengthOf(h)[0] && b[2..10] == Digits(|h.payload|, 8);
      Powers();
      NumberOfDigits(|h.payload|, 8, 0x1_0000_0000_0000_0000);
  }

  lemma Powers()
    ensures Power256(2) == 0x1_0000 && Power256(8) == 0x1_0000_0000_0000_0000
  {
    assert Power256(4) == 0x1_0000_0000 by { assert Power256(2) == 0x1_0000; }
    assert Power256(6) == 0x1_0000_0000_0000;
  }

  /** What the parser should make of a frame. */
  function FrameOf(h: Fields): Frame
    requires Fits(h)
  {
    Frame(FirstOf(h), h.key.Some?, h.payload, Layout(h))
  }

  /**
    Every frame laid out so, whatever follows it, is read so: first byte, mask, unmasked payload and extent;
    only a length in eight bytes can be over the limit.
   */
  lemma LayoutParses(h: Fields, suffix: Bytes, limit: nat)
    requires Fits(h)
    ensures ParseFrame(Layout(h) + suffix, limit)
         == if h.form.SixtyFour? && |h.payload| > limit then Oversized else Parsed(FrameOf(h))
  {
    hide ParseHead, Mask, LengthOf, FirstOf, BodyOf, ParseFrame;
    LaidOutHead(h, BodyOf(h) + suffix, limit);
    var front := [FirstOf(h)] + LengthOf(h);
    assert Layout(h) + suffix == front + (BodyOf(h) + suffix);
    if h.form.SixtyFour? && |h.payload| > limit {
      OversizedHead(Layout(h) + suffix, limit);
    } else {
      assert front[0] == FirstOf(h);
      BodyParses(h, front, suffix, limit);
    }
  }

  /** Three stretches in a row: where the second one is, and the first two together. */
  lemma Stretches(a: Bytes, b: Bytes, c: Bytes)
    ensures (a + b + c)[|a|..|a| + |b|] == b && (a + b + c)[..|a| + |b|] == a + b
  {
  }

  /** What the parser makes of a buffer whose head it can read and whose body is there. */
  lemma ParseBody(b: Bytes, limit: nat, length: nat, offset: nat)
    requires ParseHead(b, limit) == Head(length, offset)
    ensures !Masked(b[1]) && offset + length <= |b| ==>
              ParseFrame(b, limit)
              == Parsed(Frame(b[0], false, b[offset..offset + length], b[..offset + length]))
    ensures Masked(b[1]) && offset + 4 + length <= |b| ==>
              var key: Key := b[offset..offset + 4];
              ParseFrame(b, limit)
              == Parsed(Frame(b[0], true, Mask(b[offset + 4..offset + 4 + length], key), b[..offset + 4 + length]))
  {
    hide ParseHead, Mask;
  }

  lemma PlainParses(b0: byte, front: Bytes, payload: Bytes, suffix: Bytes, limit: nat)
    requires |front| >= 2 && front[0] == b0
    requires var b := front + payload + suffix;
             !Masked(b[1]) && ParseHead(b, limit) == Head(|payload|, |front|)
    ensures ParseFrame(front + payload + suffix, limit) == Parsed(Frame(b0, false, payload, front + payload))
  {
    hide ParseHead, Mask, ParseFrame, Masked;
    Stretches(front, payload, suffix);
    ParseBody(front + payload + suffix, limit, |payload|, |front|);
  }

  lemma MaskedParses(b0: byte, front: Bytes, key: Key, body: Bytes, suffix: Bytes, limit: nat)
    requires |front| >= 2 && front[0] == b0
    requires var b := front + key + body + suffix;
             Masked(b[1]) && ParseHead(b, limit) == Head(|body|, |front|)
    ensures ParseFrame(front + key + body + suffix, limit)
         == Parsed(Frame(b0, true, Mask(body, key), front + key + body))
  {
    hide ParseHead, Mask, ParseFrame, Masked;
    var b := front + key + body + suffix;
    Stretches(front, key, body + suffix);
    Regrouped(front + key, body, suffix);
    Stretches(front + key, body, suffix);
    ParseBody(b, limit, |body|, |front|);
  }

  lemma Regrouped(a: Bytes, b: Bytes, c: Bytes)
    ensures a + b + c == a + (b + c)
  {
  }

  /** A head that says what the fields say, the body and whatever follows. */
  lemma BodyParses(h: Fields, front: Bytes, suffix: Bytes, limit: nat)
    requires Fits(h) && |front| >= 2 && Layout(h) == front + BodyOf(h) && front[0] == FirstOf(h)
    requires var b := front + (BodyOf(h) + suffix);
             Masked(b[1]) == h.key.Some? && ParseHead(b, limit) == Head(|h.payload|, |front|)
    ensures ParseFrame(front + (BodyOf(h) + suffix), limit) == Parsed(FrameOf(h))
  {
    hide ParseHead, Mask, LengthOf, FirstOf, Layout, ParseFrame, Masked;
    Regrouped(front, BodyOf(h), suffix);
    if h.key.Some? {
      var key, body := h.key.value, Mask(h.payload, h.key.value);
      MaskInvolutive(h.payload, key);
      Regrouped(front, key, body);
      MaskedParses(FirstOf(h), front, key, body, suffix, limit);
    } else {
      PlainParses(FirstOf(h), front, h.payload, suffix, limit);
    }
  }

  // ---- Nothing else is read as a frame ----

  function FormOf(b1: byte): Form {
    if b1 % 128 < 126 then Seven else if b1 % 128 == 126 then Sixteen else SixtyFour
  }

  /** The fields of a frame, read off its bytes, when its head ends at `at`. */
  function FieldsOf(f: Frame, at: nat): Fields
    requires |f.wire| >= at + (if f.masked then 4 else 0) && at >= 2
  {
    var b0: int := f.b0;
    Fields(b0 / 128 == 1, b0 / 64 % 2 == 1, b0 / 32 % 2 == 1, b0 / 16 % 2 == 1, b0 % 16,
           if f.masked then Some(f.wire[at..at + 4]) else None, FormOf(f.wire[1]), f.payload)
  }

  lemma ByteOfBits(b0: byte)
    ensures b0 == Flag(b0 / 128 == 1, 128) + Flag(b0 / 64 % 2 == 1, 64) + Flag(b0 / 32 % 2 == 1, 32)
                  + Flag(b0 / 16 % 2 == 1, 16) + b0 % 16
  {
  }

  /** The length field of a frame that was read. */
  lemma LengthIs(b: Bytes, limit: nat, h: Fields)
    requires ParseHead(b, limit).Head? && |h.payload| == ParseHead(b, limit).length
    requires h.form == FormOf(b[1]) && h.key.Some? == Masked(b[1]) && h.opcode < 16
    ensures Fits(h) && LengthOf(h) == b[1..ParseHead(b, limit).offset]
  {
    hide ParseHead, Number, Digits;
    HeadSays(b, limit);
    var at := ParseHead(b, limit).offset;
    LengthBytes(b, at);
    var b1: int := b[1];
    assert b1 == Flag(h.key.Some?, 128) + b1 % 128;
    if at == 2 {
      assert b[1..2] == [b[1]];
    } else {
      assert b[1..at] == [b[1]] + b[2..at];
    }
  }

  lemma BodyIs(b: Bytes, at: nat, length: nat, h: Fields)
    requires at + (if h.key.Some? then 4 else 0) + length <= |b|
    requires match h.key
             case None => h.payload == b[at..at + length]
             case Some(key) => key == b[at..at + 4] && h.payload == Mask(b[at + 4..at + 4 + length], key)
    ensures BodyOf(h) == b[at..at + (if h.key.Some? then 4 else 0) + length]
  {
    if h.key.Some? {
      MaskInvolutive(b[at + 4..at + 4 + length], h.key.value);
    }
    hide Mask;
  }

  lemma ThreeParts(b: Bytes, at: nat, end: nat)
    requires 1 <= at <= end <= |b|
    ensures b[..end] == [b[0]] + b[1..at] + b[at..end]
  {
  }

  /** Every frame that is read is laid out so: the bytes taken are the layout of the fields found. */
  lemma ParsedIsLaidOut(b: Bytes, limit: nat)
    requires ParseFrame(b, limit).Parsed?
    ensures exists h :: Fits(h) && Layout(h) <= b && ParseFrame(b, limit).frame == FrameOf(h)
  {
    hide ParseHead, Mask, LengthOf, BodyOf, FirstOf, ParseFrame, Fits;
    FrameParts(b, limit);
    var f := ParseFrame(b, limit).frame;
    var head := ParseHead(b, limit);
    var at := head.offset;
    OffsetIs(b, limit);
    var h := FieldsOf(f, at);
    LengthIs(b, limit, h);
    FirstIs(b[0], h);
    if f.masked { PrefixSlice(f.wire, b, at, at + 4); }
    BodyIs(b, at, head.length, h);
    ThreeParts(b, at, |f.wire|);
  }

  /** A frame that was read, in terms of its head. */
  lemma FrameParts(b: Bytes, limit: nat)
    requires ParseFrame(b, limit).Parsed?
    ensures ParseHead(b, limit).Head?
    ensures var f, length, offset := ParseFrame(b, limit).frame, ParseHead(b, limit).length, ParseHead(b, limit).offset;
            if f.masked then
              && offset + 4 + length <= |b| && f.wire == b[..offset + 4 + length]
              && f.payload == Mask(b[offset + 4..offset + 4 + length], b[offset..offset + 4])
            else
              && offset + length <= |b| && f.wire == b[..offset + length] && f.payload == b[offset..offset + length]
  {
    hide ParseHead, Mask;
  }

  lemma OffsetIs(b: Bytes, limit: nat)
    requires ParseHead(b, limit).Head?
    ensures ParseHead(b, limit).offset == match FormOf(b[1]) case Seven => 2 case Sixteen => 4 case SixtyFour => 10
  {
    hide U16, U32;
  }

  lemma FirstIs(b0: byte, h: Fields)
    requires Fits(h) && h.fin == (b0 / 128 == 1) && h.rsv1 == (b0 / 64 % 2 == 1) && h.rsv2 == (b0 / 32 % 2 == 1)
    requires h.rsv3 == (b0 / 16 % 2 == 1) && h.opcode == b0 % 16
    ensures FirstOf(h) == b0
  {
    ByteOfBits(b0);
  }

  lemma LengthBytes(b: Bytes, at: nat)
    requires |b| >= at && (at == 4 || at == 10 || at == 2)
    ensures at == 4 ==> b[2..4] == Digits(Number(b[2..4]), 2) && Number(b[2..4]) < 0x1_0000
    ensures at == 10 ==> b[2..10] == Digits(Number(b[2..10]), 8) && Number(b[2..10]) < 0x1_0000_0000_0000_0000
  {
    if at == 4 {
      DigitsOfNumber(b[2..4]);
      NumberOfTwo(b, 2);
    } else if at == 10 {
      DigitsOfNumber(b[2..10]);
      NumberOfEight(b, 2);
    }
  }

  /**
    The parser decides by section 5.2: it finds a frame exactly when the buffer starts with one that is laid
    out so and within the limit; it reports an oversized one exactly when eight bytes announce a length over
    the limit; and it waits for more bytes in every other case.
   */
  lemma ParseDecides(b: Bytes, limit: nat)
    ensures ParseFrame(b, limit).Parsed?
       <==> exists h :: Fits(h) && Layout(h) <= b && (h.form.SixtyFour? ==> |h.payload| <= limit)
    ensures ParseFrame(b, limit).Oversized? <==> |b| >= 10 && b[1] % 128 == 127 && Number(b[2..10]) > limit
  {
    hide ParseFrame, ParseHead, Layout, Number;
    if ParseFrame(b, limit).Parsed? {
      ParsedIsLaidOut(b, limit);
      var h :| Fits(h) && Layout(h) <= b && ParseFrame(b, limit).frame == FrameOf(h);
      LayoutParses(h, b[|Layout(h)|..], limit);
      assert Layout(h) + b[|Layout(h)|..] == b;
    }
    if h :| Fits(h) && Layout(h) <= b && (h.form.SixtyFour? ==> |h.payload| <= limit) {
      LayoutParses(h, b[|Layout(h)|..], limit);
      assert Layout(h) + b[|Layout(h)|..] == b;
    }
    OversizedHead(b, limit);
    HeadSays(b, limit);
  }

  lemma OversizedHead(b: Bytes, limit: nat)
    ensures ParseFrame(b, limit).Oversized? <==> ParseHead(b, limit).TooBig?
  {
    hide ParseHead, Mask;
  }

  // ---- The encoders ----

  function Shortest(length: nat): Form {
    if length < 126 then Seven else if length < 0x1_0000 then Sixteen else SixtyFour
  }

  lemma ShortestField(h: Fields)
    requires Fits(h) && h.form == Shortest(|h.payload|) && |h.payload| < FOUR_GIB
    ensures LengthOf(h) == LengthField(|h.payload|, Flag(h.key.Some?, 0x80))
  {
    hide Digits, Number, U16Bytes, U32Bytes;
    var length := |h.payload|;
    if h.form.Sixteen? {
      TwoDigits(length);
    } else if h.form.SixtyFour? {
      EightDigits(length);
      var mark := Flag(h.key.Some?, 0x80);
      assert [mark + 127] + U32Bytes(0) + U32Bytes(length) == [mark + 127] + (U32Bytes(0) + U32Bytes(length));
    }
  }

  lemma TwoDigits(n: nat)
    requires n < 0x1_0000
    ensures Digits(n, 2) == U16Bytes(n)
  {
    hide Digits, Number, U16, U16Bytes;
    var b := U16Bytes(n);
    DigitsOfNumber(b);
    NumberOfTwo(b, 0);
    assert b[0..2] == b;
  }

  lemma EightDigits(n: nat)
    requires n < FOUR_GIB
    ensures Digits(n, 8) == U32Bytes(0) + U32Bytes(n)
  {
    hide Digits, Number, U32, U32Bytes;
    var b := U32Bytes(0) + U32Bytes(n);
    DigitsOfNumber(b);
    NumberOfEight(b, 0);
    assert b[0..8] == b;
    FieldHalves(U32Bytes(0), U32Bytes(n));
  }

  lemma FieldHalves(high: Bytes, low: Bytes)
    requires |high| == 4 && |low| == 4
    ensures U32(high + low, 0) == U32(high, 0) && U32(high + low, 4) == U32(low, 0)
  {
  }

  /** Each encoder writes the layout of the frame it is asked for, with the length in its shortest form. */
  lemma EncodersFollowLayout(opcode: nat, payload: Bytes, fin: bool, key: Key)
    requires |payload| < FOUR_GIB
    ensures EncodeFrame(opcode, payload, fin)
         == Layout(Fields(fin, false, false, false, opcode % 16, None, Shortest(|payload|), payload))
    ensures EncodeMaskedText(payload, key)
         == Layout(Fields(true, false, false, false, 1, Some(key), Shortest(|payload|), payload))
    ensures 8 <= opcode < 16 && |payload| <= 125 ==>
              EncodeMaskedControl(opcode, payload, key)
              == Layout(Fields(true, false, false, false, opcode, Some(key), Seven, payload))
  {
    hide LengthField, Mask;
    var plain := Fields(fin, false, false, false, opcode % 16, None, Shortest(|payload|), payload);
    var text := Fields(true, false, false, false, 1, Some(key), Shortest(|payload|), payload);
    ShortestField(plain);
    ShortestField(text);
    assert [0x80 + TEXT] + LengthField(|payload|, 0x80) + key + Mask(payload, key)
        == [0x80 + TEXT] + LengthField(|payload|, 0x80) + (key + Mask(payload, key));
    if 8 <= opcode < 16 && |payload| <= 125 {
      var control := Fields(true, false, false, false, opcode, Some(key), Seven, payload);
      assert [0x80 + opcode] + [0x80 + |payload|] + (key + Mask(payload, key))
          == [0x80 + opcode, 0x80 + |payload|] + key + Mask(payload, key);
    }
  }
}
