/**
  The byte-filling loops of the wire format: unmasking, and the four frame encoders, each proved to
  write exactly the frame that `WsFrame` specifies (and so, by its round trips, one that parses back).
 */
module WsEncoders {
  import opened WsFrame

  /** The unmasking and masking loop shared by every reader and every client-side encoder. */
  method ApplyMask(data: Bytes, key: Key) returns (result: Bytes)
    ensures result == Mask(data, key)
    ensures |result| == |data|
    ensures forall i, k {:trigger Bit(result[i], k)} :: 0 <= i < |data| && 0 <= k < 8 ==>
              Bit(result[i], k) == if Bit(data[i], k) == Bit(key[i % 4], k) then 0 else 1
  {
    hide Bit;
    var decoded := new byte[|data|];
    var i := 0;
    while i < |data|
      invariant 0 <= i <= |data|
      invariant decoded[..i] == Mask(data, key)[..i]
    {
      decoded[i] := Xor(data[i], key[i % 4]);
      i := i + 1;
    }
    result := decoded[..];
    forall i, k {:trigger Bit(result[i], k)} | 0 <= i < |data| && 0 <= k < 8
      ensures Bit(result[i], k) == if Bit(data[i], k) == Bit(key[i % 4], k) then 0 else 1
    {
      assert result[i] == Xor(data[i], key[i % 4]);
      XorIsBitwise(data[i], key[i % 4], k);
    }
  }

  /** The length ladder of every reader's loop. */
  method ReadHead(buffer: Bytes, limit: nat) returns (head: Head)
    requires 0x1_0000 <= limit < FOUR_GIB
    ensures head == ParseHead(buffer, limit)
  {
    hide U16, U32;
    if |buffer| < 2 { return NeedMore; }
    var payloadLen: nat, offset := Length7(buffer[1]), 2;
    if payloadLen == 126 {
      if |buffer| < 4 { return NeedMore; }
      payloadLen, offset := U16(buffer, 2), 4;
    } else if payloadLen == 127 {
      if |buffer| < 10 { return NeedMore; }
      var high, low := U32(buffer, 2), U32(buffer, 6);
      if high != 0 || low > limit { return TooBig; }
      payloadLen, offset := low, 10;
    }
    head := Head(payloadLen, offset);
  }

  /** The cut of one frame from the front of a buffer. */
  method ReadFrame(buffer: Bytes, limit: nat) returns (p: Parse)
    requires 0x1_0000 <= limit < FOUR_GIB
    ensures p == ParseFrame(buffer, limit)
  {
    hide ParseHead, Mask;
    var head := ReadHead(buffer, limit);
    if head.NeedMore? { return Incomplete; }
    if head.TooBig? { return Oversized; }
    var b0, masked := buffer[0], Masked(buffer[1]);
    var maskLen := if masked then 4 else 0;
    var total := head.offset + maskLen + head.length;
    if |buffer| < total { return Incomplete; }
    var payload := buffer[head.offset + maskLen..total];
    if masked {
      payload := ApplyMask(payload, buffer[head.offset..head.offset + 4]);
    }
    p := Parsed(Frame(b0, masked, payload, buffer[..total]));
  }

  method WriteUInt16BE(buffer: array<byte>, value: nat, at: nat)
    requires at + 2 <= buffer.Length && value < 0x1_0000
    modifies buffer
    ensures buffer[..] == old(buffer[..at]) + U16Bytes(value) + old(buffer[at + 2..])
  {
    buffer[at] := value / 0x100;
    buffer[at + 1] := value % 0x100;
  }

  method WriteUInt32BE(buffer: array<byte>, value: nat, at: nat)
    requires at + 4 <= buffer.Length && value < FOUR_GIB
    modifies buffer
    ensures buffer[..] == old(buffer[..at]) + U32Bytes(value) + old(buffer[at + 4..])
  {
    WriteUInt16BE(buffer, value / 0x1_0000, at);
    WriteUInt16BE(buffer, value % 0x1_0000, at + 2);
  }

  method CopyKey(key: Key, buffer: array<byte>, at: nat)
    requires at + 4 <= buffer.Length
    modifies buffer
    ensures buffer[..] == old(buffer[..at]) + key + old(buffer[at + 4..])
  {
    buffer[at], buffer[at + 1], buffer[at + 2], buffer[at + 3] := key[0], key[1], key[2], key[3];
  }

  /** The three forms of the length. */
  lemma LengthForms(length: nat, mark: nat)
    requires length < FOUR_GIB && (mark == 0 || mark == 0x80)
    ensures length < 126 ==> LengthField(length, mark) == [mark + length]
    ensures 126 <= length < 65536 ==> LengthField(length, mark) == [mark + 126] + U16Bytes(length)
    ensures 65536 <= length ==> LengthField(length, mark) == [mark + 127] + U32Bytes(0) + U32Bytes(length)
  {
  }

  lemma TextForm(text: Bytes, key: Key)
    requires |text| < FOUR_GIB
    ensures EncodeMaskedText(text, key) == [0x80 + TEXT] + LengthField(|text|, 0x80) + key + Mask(text, key)
  {
    hide LengthField, Mask;
  }

  method EncodeWsFrame(opcode: nat, data: Bytes, fin: bool) returns (frame: Bytes)
    requires |data| < FOUR_GIB
    ensures frame == EncodeFrame(opcode, data, fin)
  {
    hide U16Bytes, U32Bytes, LengthField;
    var length := |data|;
    LengthForms(length, 0);
    var header: array<byte>;
    if length < 126 {
      header := new byte[2];
      header[1] := length;
      assert header[1..] == LengthField(length, 0);
    } else if length < 65536 {
      header := new byte[4];
      header[1] := 126;
      WriteUInt16BE(header, length, 2);
      assert header[1..] == LengthField(length, 0);
    } else {
      header := new byte[10];
      header[1] := 127;
      WriteUInt32BE(header, 0, 2);
      WriteUInt32BE(header, length, 6);
      assert header[1..] == LengthField(length, 0);
    }
    header[0] := (if fin then 0x80 else 0x00) + opcode % 0x10;
    frame := header[..] + data;
  }

  method EncodeWsClientText(data: Bytes, maskKey: Key) returns (frame: Bytes)
    requires |data| < FOUR_GIB
    ensures frame == EncodeMaskedText(data, maskKey)
  {
    hide U16Bytes, U32Bytes, Mask, EncodeMaskedText, LengthField;
    var masked := ApplyMask(data, maskKey);
    var length := |masked|;
    LengthForms(length, 0x80);
    var header: array<byte>;
    if length < 126 {
      header := new byte[6];
      header[1] := 0x80 + length;
      CopyKey(maskKey, header, 2);
      assert header[1..] == LengthField(length, 0x80) + maskKey;
    } else if length < 65536 {
      header := new byte[8];
      header[1] := 0x80 + 126;
      WriteUInt16BE(header, length, 2);
      CopyKey(maskKey, header, 4);
      assert header[1..] == LengthField(length, 0x80) + maskKey;
    } else {
      header := new byte[14];
      header[1] := 0x80 + 127;
      WriteUInt32BE(header, 0, 2);
      WriteUInt32BE(header, length, 6);
      CopyKey(maskKey, header, 10);
      assert header[1..] == LengthField(length, 0x80) + maskKey;
    }
    header[0] := 0x80 + TEXT;
    frame := header[..] + masked;
    assert header[..] == [0x80 + TEXT] + LengthField(length, 0x80) + maskKey;
    TextForm(data, maskKey);
  }

  method EncodeWsClientControl(opcode: nat, data: Bytes, maskKey: Key) returns (frame: Bytes)
    requires 8 <= opcode < 16
    ensures frame == EncodeMaskedControl(opcode, data, maskKey)
  {
    var masked := ApplyMask(data, maskKey);
    var header := new byte[6];
    header[0] := 0x80 + opcode;
    header[1] := 0x80 + |masked| % 0x80;
    CopyKey(maskKey, header, 2);
    frame := header[..] + masked;
  }
}
