/**
  What the reference decoder makes of messages: every way of cutting a message into frames, with control
  frames in between, masked or not and with any form of the length, decodes to that message and those
  control frames.
 */
module WsMessages {
  import opened WsFrame
  import opened WsStream
  import opened WsLayout
  import opened Options

  predicate IsControl(h: Fields) { h.opcode >= 8 }

  /** The bytes of some frames in a row. */
  function Sent(frames: seq<Fields>): Bytes
    requires forall h <- frames :: Fits(h)
  {
    if frames == [] then [] else Layout(frames[0]) + Sent(frames[1..])
  }

  /** The payloads of the data frames. */
  function Parts(frames: seq<Fields>): seq<Bytes> {
    if frames == [] then []
    else (if IsControl(frames[0]) then [] else [frames[0].payload]) + Parts(frames[1..])
  }

  /** The payload of a message: those of its data frames, first to last. */
  function Content(frames: seq<Fields>): Bytes {
    if frames == [] then []
    else (if IsControl(frames[0]) then [] else frames[0].payload) + Content(frames[1..])
  }

  /** The control frames, in order. */
  function Controls(frames: seq<Fields>): seq<Event>
    requires forall h <- frames :: Fits(h)
  {
    if frames == [] then []
    else
      (if IsControl(frames[0]) then [Control(FirstOf(frames[0]), frames[0].payload)] else []) + Controls(frames[1..])
  }

  /** Continuations that are not final, and control frames other than close. */
  ghost predicate GoesOn(frames: seq<Fields>) {
    forall h <- frames :: Fits(h) && if IsControl(h) then h.opcode != 8 else h.opcode == 0 && !h.fin
  }

  /** One frame on the wire, received between frames. */
  lemma ReceiveOne(o: Decoder, h: Fields)
    requires o.rest == [] && Fits(h)
    ensures Receive(o, Layout(h)) == Feed(o, FrameOf(h))
  {
    hide Layout, ParseFrame, Receive, Feed;
    assert Layout(h) + [] == Layout(h);
    LayoutParses(h, [], NO_LIMIT);
    ReceiveFrame(o, FrameOf(h), NO_LIMIT);
  }

  /** The bits of a frame, as the decoder sees them. */
  lemma SeenBits(h: Fields)
    requires Fits(h)
    ensures FrameOf(h).IsFin() == h.fin && FrameOf(h).HasRsv1() == h.rsv1 && FrameOf(h).Op() == h.opcode
    ensures FrameOf(h).IsControl() == IsControl(h)
  {
    hide Layout;
    FirstBits(h);
  }

  /** The piece that one frame adds to the parts, and to the events. */
  function PartOf(h: Fields): seq<Bytes> { if IsControl(h) then [] else [h.payload] }

  function EventOf(h: Fields): seq<Event>
    requires Fits(h)
  {
    if IsControl(h) then [Control(FirstOf(h), h.payload)] else []
  }

  lemma Unfolds(frames: seq<Fields>)
    requires frames != [] && forall h <- frames :: Fits(h)
    ensures forall h <- frames[1..] :: Fits(h)
    ensures Sent(frames) == Layout(frames[0]) + Sent(frames[1..])
    ensures Parts(frames) == PartOf(frames[0]) + Parts(frames[1..])
    ensures Controls(frames) == EventOf(frames[0]) + Controls(frames[1..])
    ensures Content(frames) == (if IsControl(frames[0]) then [] else frames[0].payload) + Content(frames[1..])
  {
    hide Layout, FirstOf;
  }

  lemma Regrouped<T>(a: seq<T>, b: seq<T>, c: seq<T>)
    ensures a + b + c == a + (b + c)
  {
  }

  lemma JoinedPart(parts: seq<Bytes>, h: Fields)
    ensures Joined(parts + PartOf(h)) == Joined(parts) + if IsControl(h) then [] else h.payload
  {
    hide Joined;
    if IsControl(h) {
      assert parts + [] == parts && Joined(parts) + [] == Joined(parts);
    } else {
      JoinedAppend(parts, h.payload);
    }
  }

  lemma {:induction false} PartsJoin(parts: seq<Bytes>, frames: seq<Fields>)
    requires forall h <- frames :: Fits(h)
    ensures Joined(parts + Parts(frames)) == Joined(parts) + Content(frames)
    decreases |frames|
  {
    hide Joined, PartOf, IsControl, Controls, Sent;
    if frames == [] {
      assert parts + [] == parts && Joined(parts) + [] == Joined(parts);
    } else {
      hide Parts, Content;
      var h, rest := frames[0], frames[1..];
      Unfolds(frames);
      JoinedPart(parts, h);
      PartsJoin(parts + PartOf(h), rest);
      Regrouped(parts, PartOf(h), Parts(rest));
      Regrouped(Joined(parts), if IsControl(h) then [] else h.payload, Content(rest));
    }
  }

  /** In the middle of a message: parts pile up, control frames come out. */
  lemma {:induction false} MiddleDecodes(o: Decoder, frames: seq<Fields>)
    requires o.rest == [] && o.asm.Collecting? && GoesOn(frames)
    ensures Receive(o, Sent(frames))
         == Decoder(o.asm.(parts := o.asm.parts + Parts(frames)), [], o.events + Controls(frames))
    decreases |frames|
  {
    hide Layout, Receive, Feed, FirstOf, NextAssembly, Completed, PartOf, EventOf, Fits, IsControl;
    if frames == [] {
      ReceiveEmpty(o);
      assert o.asm.parts + [] == o.asm.parts && o.events + [] == o.events;
    } else {
      hide Sent, Parts, Controls;
      var h, rest := frames[0], frames[1..];
      Unfolds(frames);
      ReceiveOne(o, h);
      ReceiveTwice(o, Layout(h), Sent(rest));
      MiddleFrame(o, h);
      MiddleDecodes(Feed(o, FrameOf(h)), rest);
      Regrouped(o.asm.parts, PartOf(h), Parts(rest));
      Regrouped(o.events, EventOf(h), Controls(rest));
    }
  }

  lemma MiddleFrame(o: Decoder, h: Fields)
    requires o.asm.Collecting? && Fits(h) && if IsControl(h) then h.opcode != 8 else h.opcode == 0 && !h.fin
    ensures Feed(o, FrameOf(h))
         == Decoder(o.asm.(parts := o.asm.parts + PartOf(h)), o.rest, o.events + EventOf(h))
  {
    hide Layout;
    SeenBits(h);
    assert o.asm.parts + [] == o.asm.parts;
  }

  lemma ReceiveEmpty(o: Decoder)
    requires o.rest == []
    ensures Receive(o, []) == o
  {
    assert ParseFrame([], NO_LIMIT).Incomplete?;
    assert o.(rest := [] + []) == o;
  }

  /** A message in one frame. */
  lemma WholeDecodes(o: Decoder, h: Fields)
    requires o.rest == [] && o.asm.Idle? && Fits(h) && h.fin && 0 < h.opcode < 8
    ensures Receive(o, Layout(h)) == Decoder(Idle, [], o.events + [Message(h.opcode, h.rsv1, h.payload)])
  {
    hide Layout, Receive;
    ReceiveOne(o, h);
    SeenBits(h);
  }

  lemma FirstFrame(o: Decoder, h: Fields)
    requires o.rest == [] && o.asm.Idle? && Fits(h) && !h.fin && 0 < h.opcode < 8
    ensures Receive(o, Layout(h)) == Decoder(Collecting(h.opcode, h.rsv1, [h.payload]), [], o.events)
  {
    hide Layout, Receive;
    ReceiveOne(o, h);
    SeenBits(h);
    assert o.events + [] == o.events;
  }

  lemma LastFrame(o: Decoder, h: Fields)
    requires o.rest == [] && o.asm.Collecting? && Fits(h) && h.fin && h.opcode == 0
    ensures Receive(o, Layout(h))
         == Decoder(Idle, [], o.events + [Message(o.asm.opcode, o.asm.compressed || h.rsv1,
                                                  Joined(o.asm.parts) + h.payload)])
  {
    hide Layout, Receive, Joined;
    ReceiveOne(o, h);
    SeenBits(h);
    JoinedAppend(o.asm.parts, h.payload);
  }

  /**
    Every message decodes.  Whatever has been received before: a first frame, any continuations and control
    frames between, and a final continuation decode to the control frames in their order and then to one
    message with the opcode and compression of the first frame and the payloads of all its frames in a row.
   */
  lemma MessageDecodes(o: Decoder, first: Fields, middle: seq<Fields>, last: Fields)
    requires o.rest == [] && o.asm.Idle? && Fits(first) && !first.fin && 0 < first.opcode < 8
    requires GoesOn(middle) && Fits(last) && last.fin && last.opcode == 0
    ensures Receive(o, Layout(first) + Sent(middle) + Layout(last))
         == Decoder(Idle, [], o.events + Controls(middle)
                              + [Message(first.opcode, first.rsv1 || last.rsv1,
                                         first.payload + Content(middle) + last.payload)])
  {
    hide Layout, Receive, Joined, Parts, Content, Controls, Sent, PartOf, EventOf;
    FirstFrame(o, first);
    ReceiveTwice(o, Layout(first), Sent(middle));
    var o1 := Receive(o, Layout(first));
    MiddleDecodes(o1, middle);
    var o2 := Receive(o1, Sent(middle));
    ReceiveTwice(o, Layout(first) + Sent(middle), Layout(last));
    LastFrame(o2, last);
    PartsJoin([first.payload], middle);
    JoinedSingle(first.payload);
  }

  lemma JoinedSingle(part: Bytes)
    ensures Joined([part]) == part
  {
    assert [part][..0] == [];
  }

  /** A close frame ends an unfinished message, which is never completed. */
  lemma CloseDropsMessage(o: Decoder, h: Fields)
    requires o.rest == [] && Fits(h) && h.opcode == 8
    ensures Receive(o, Layout(h)) == Decoder(Idle, [], o.events + [Control(FirstOf(h), h.payload)])
  {
    hide Layout, Receive;
    ReceiveOne(o, h);
    SeenBits(h);
  }
}
