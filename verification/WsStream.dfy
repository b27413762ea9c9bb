/**
  The meaning of a WebSocket byte stream: an independent decoder that accepts frames of every size
  (RFC 6455, sections 5.2 to 5.5) and turns bytes into message and control events.  The stream
  readers of the service are compared with it.
 */
module WsStream {
  import opened WsFrame

  /** A fragmented message under way: the opcode and RSV1 bit of its first frame and its payloads. */
  datatype Assembly = Idle | Collecting(opcode: nat, compressed: bool, parts: seq<Bytes>)

  datatype Event =
    | Message(opcode: nat, compressed: bool, payload: Bytes)
    | Control(b0: byte, payload: Bytes)

  /** Everything a decoder knows after some bytes: `rest` is the start of a frame not yet complete. */
  datatype Decoder = Decoder(asm: Assembly, rest: Bytes, events: seq<Event>)

  const FRESH := Decoder(Idle, [], [])

  /** All parts joined, first to last. */
  function Joined<T>(parts: seq<seq<T>>): seq<T> {
    if parts == [] then [] else Joined(parts[..|parts| - 1]) + parts[|parts| - 1]
  }

  lemma JoinedAppend<T>(parts: seq<seq<T>>, last: seq<T>)
    ensures Joined(parts + [last]) == Joined(parts) + last
  {
    assert (parts + [last])[..|parts|] == parts;
  }

  lemma {:induction false} JoinedConcat<T>(a: seq<seq<T>>, b: seq<seq<T>>)
    ensures Joined(a + b) == Joined(a) + Joined(b)
  {
    if b == [] {
      assert a + b == a;
    } else {
      var init, last := b[..|b| - 1], b[|b| - 1];
      assert a + b == (a + init) + [last];
      JoinedAppend(a + init, last);
      JoinedConcat(a, init);
    }
  }

  /** What one frame does to the message under way. */
  function NextAssembly(asm: Assembly, f: Frame): Assembly {
    if f.IsControl() then (if f.Op() == CLOSE then Idle else asm)
    else if f.Op() == CONTINUATION then
      if asm.Idle? || f.IsFin() then Idle else asm.(parts := asm.parts + [f.payload])
    else if f.IsFin() then asm
    else Collecting(f.Op(), f.HasRsv1(), [f.payload])
  }

  /** The event one frame completes, if any. */
  function Completed(asm: Assembly, f: Frame): seq<Event> {
    if f.IsControl() then [Control(f.b0, f.payload)]
    else if f.Op() == CONTINUATION then
      if asm.Idle? || !f.IsFin() then []
      else [Message(asm.opcode, asm.compressed || f.HasRsv1(), Joined(asm.parts + [f.payload]))]
    else if f.IsFin() then [Message(f.Op(), f.HasRsv1(), f.payload)]
    else []
  }

  function Feed(d: Decoder, f: Frame): Decoder {
    Decoder(NextAssembly(d.asm, f), d.rest, d.events + Completed(d.asm, f))
  }

  /** Consume every complete frame at the front of `rest`. */
  function Run(d: Decoder): (r: Decoder)
    ensures |r.rest| <= |d.rest|
    decreases |d.rest|
  {
    match ParseFrame(d.rest, NO_LIMIT)
    case Parsed(f) => Run(Feed(d, f).(rest := d.rest[|f.wire|..]))
    case _ => d
  }

  function Receive(d: Decoder, chunk: Bytes): Decoder {
    Run(d.(rest := d.rest + chunk))
  }

  function Decode(stream: Bytes): Decoder {
    Receive(FRESH, stream)
  }

  lemma {:induction false} RunSettles(d: Decoder)
    ensures ParseFrame(Run(d).rest, NO_LIMIT).Incomplete?
    decreases |d.rest|
  {
    NeverOversized(d.rest);
    match ParseFrame(d.rest, NO_LIMIT)
    case Parsed(f) => RunSettles(Feed(d, f).(rest := d.rest[|f.wire|..]));
    case _ =>
  }

  lemma {:induction false} RunThenReceive(d: Decoder, more: Bytes)
    ensures Receive(Run(d), more) == Run(d.(rest := d.rest + more))
    decreases |d.rest|
  {
    match ParseFrame(d.rest, NO_LIMIT)
    case Parsed(f) =>
      ParseExtends(d.rest, more, NO_LIMIT);
      assert (d.rest + more)[|f.wire|..] == d.rest[|f.wire|..] + more;
      RunThenReceive(Feed(d, f).(rest := d.rest[|f.wire|..]), more);
    case _ =>
  }

  /** Decoding is indifferent to where a stream is cut. */
  lemma ReceiveTwice(d: Decoder, a: Bytes, b: Bytes)
    ensures Receive(Receive(d, a), b) == Receive(d, a + b)
  {
    RunThenReceive(d.(rest := d.rest + a), b);
    assert d.rest + a + b == d.rest + (a + b);
  }

  lemma DecodeMore(stream: Bytes, chunk: Bytes)
    ensures Decode(stream + chunk) == Receive(Decode(stream), chunk)
  {
    ReceiveTwice(FRESH, stream, chunk);
  }

  /** Between frames, one more frame has exactly its own effect. */
  lemma ReceiveFrame(d: Decoder, f: Frame, limit: nat)
    requires d.rest == [] && limit <= NO_LIMIT && ParseFrame(f.wire, limit) == Parsed(f)
    ensures Receive(d, f.wire) == Feed(d, f)
  {
    ParseLimits(f.wire, limit, NO_LIMIT);
    assert [] + f.wire == f.wire;
    assert f.wire[|f.wire|..] == [];
    var next := Feed(d.(rest := f.wire), f).(rest := []);
    assert ParseFrame([], NO_LIMIT).Incomplete?;
    assert Run(next) == next;
    assert Run(d.(rest := f.wire)) == next;
  }
}
