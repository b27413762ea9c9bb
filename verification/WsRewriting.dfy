/**
  What the rewriter does to a stream, in terms of the decoder of `WsStream`: the meaning is kept up to
  rewriting, fail-closed mode lets no unvalidated message through, and without a rewrite callback
  every byte comes out unchanged and in order.
 */
module WsRewriting {
  import opened WsFrame
  import opened WsStream
  import opened WsRewriter
  import opened Options

  // ---------------------------------------------------------------------------------------------
  // Well-formed client streams
  // ---------------------------------------------------------------------------------------------

  /** RFC 6455 sections 5.2 to 5.5 for a client: masked data frames, properly nested fragments. */
  predicate FrameOk(asm: Assembly, f: Frame) {
    !f.IsControl() ==>
      && f.masked && Rsv(f.b0) % 4 == 0
      && (f.Op() == CONTINUATION <==> asm.Collecting?)
      && (f.Op() == CONTINUATION ==> !f.HasRsv1())
  }

  predicate WellFormed(asm: Assembly, b: Bytes)
    decreases |b|
  {
    match ParseFrame(b, NO_LIMIT)
    case Parsed(f) => FrameOk(asm, f) && WellFormed(NextAssembly(asm, f), b[|f.wire|..])
    case _ => true
  }

  /** A complete prefix of a well-formed stream leaves a well-formed remainder. */
  lemma {:induction false} WellFormedSplit(d: Decoder, more: Bytes)
    requires WellFormed(d.asm, d.rest + more)
    ensures WellFormed(Run(d).asm, Run(d).rest + more) && WellFormed(d.asm, d.rest)
    decreases |d.rest|
  {
    match ParseFrame(d.rest, NO_LIMIT)
    case Parsed(f) =>
      ParseExtends(d.rest, more, NO_LIMIT);
      assert (d.rest + more)[|f.wire|..] == d.rest[|f.wire|..] + more;
      WellFormedSplit(Feed(d, f).(rest := d.rest[|f.wire|..]), more);
    case _ =>
  }

  // ---------------------------------------------------------------------------------------------
  // Decoder facts
  // ---------------------------------------------------------------------------------------------

  /** One turn of the decoder's loop. */
  lemma RunUnfolds(d: Decoder)
    ensures var p := ParseFrame(d.rest, NO_LIMIT);
            Run(d) == if p.Parsed? then Run(Feed(d.(rest := d.rest[|p.frame.wire|..]), p.frame)) else d
  {
    hide ParseFrame;
  }

  /** What a decoder does next depends on its assembly and rest; earlier events only precede it. */
  lemma {:induction false} RunAfterEvents(asm: Assembly, rest: Bytes, events: seq<Event>)
    ensures Run(Decoder(asm, rest, events))
         == (var r := Run(Decoder(asm, rest, [])); r.(events := events + r.events))
    decreases |rest|
  {
    hide ParseFrame, Run, NextAssembly, Completed;
    RunUnfolds(Decoder(asm, rest, events));
    RunUnfolds(Decoder(asm, rest, []));
    match ParseFrame(rest, NO_LIMIT)
    case Parsed(f) =>
      var asm', rest', new1 := NextAssembly(asm, f), rest[|f.wire|..], Completed(asm, f);
      RunAfterEvents(asm', rest', events + new1);
      RunAfterEvents(asm', rest', [] + new1);
      var r := Run(Decoder(asm', rest', []));
      assert events + new1 + r.events == events + ([] + new1 + r.events);
    case _ => assert events + [] == events;
  }

  /** Frames that came from the wire and open or continue a text message without ending it. */
  predicate HeldFrames(held: seq<Frame>) {
    forall i {:trigger held[i]} :: 0 <= i < |held| ==>
      && ParseFrame(held[i].wire, MAX_FRAME) == Parsed(held[i])
      && !held[i].IsControl() && !held[i].IsFin()
      && (held[i].Op() == TEXT || held[i].Op() == CONTINUATION)
  }

  /** The held frames are the message under way. */
  predicate HoldsText(asm: Assembly, held: seq<Frame>) {
    && HeldFrames(held)
    && (if held == [] then asm.Idle?
        else asm == Collecting(TEXT, false, Payloads(held)) && held[0].Op() == TEXT && !held[0].HasRsv1()
             && forall i :: 1 <= i < |held| ==> held[i].Op() == CONTINUATION)
  }

  lemma PayloadsAppend(held: seq<Frame>, f: Frame)
    ensures Payloads(held + [f]) == Payloads(held) + [f.payload]
    ensures RawAll(held + [f]) == RawAll(held) + [Raw(f.wire)]
  {
  }

  lemma ReceiveItem(o: Decoder, items: seq<Item>, item: Item)
    ensures Receive(o, Wire(items + [item])) == Receive(Receive(o, Wire(items)), Output(item))
  {
    WireConcat(items, [item]);
    WireOne(item);
    ReceiveTwice(o, Wire(items), Output(item));
  }

  lemma ReceiveNothing(o: Decoder)
    requires o.rest == []
    ensures Receive(o, Wire([])) == o
  {
    assert ParseFrame([], NO_LIMIT).Incomplete?;
    assert o.(rest := [] + []) == o;
  }

  lemma ReceiveRaw(o: Decoder, f: Frame)
    requires o.rest == [] && ParseFrame(f.wire, MAX_FRAME) == Parsed(f)
    ensures Receive(o, Wire([Raw(f.wire)])) == Feed(o, f)
  {
    WireOne(Raw(f.wire));
    ReceiveFrame(o, f, MAX_FRAME);
  }

  /** Replaying held frames rebuilds the message under way, without completing anything. */
  lemma {:induction false} ReplayHeld(o: Decoder, asm: Assembly, held: seq<Frame>)
    requires o.asm.Idle? && o.rest == [] && HoldsText(asm, held)
    ensures Receive(o, Wire(RawAll(held))) == o.(asm := asm)
    decreases |held|
  {
    if held == [] {
      ReceiveNothing(o);
    } else {
      var init, f := held[..|held| - 1], held[|held| - 1];
      assert init + [f] == held;
      PayloadsAppend(init, f);
      var asm0 := if init == [] then Idle else Collecting(TEXT, false, Payloads(init));
      ReplayHeld(o, asm0, init);
      ReceiveItem(o, RawAll(init), Raw(f.wire));
      var o0 := o.(asm := asm0);
      ReceiveFrame(o0, f, MAX_FRAME);
      assert o0.events + [] == o0.events;
      assert Payloads([f]) == [f.payload];
      assert Feed(o0, f) == o.(asm := asm);
    }
  }

  /** An encoded text decodes to exactly that message, whatever is under way. */
  lemma ReceiveRewritten(o: Decoder, text: Bytes, sent: Bytes, key: Key)
    requires o.rest == [] && |sent| < FOUR_GIB
    ensures Receive(o, Wire([Rewritten(text, EncodeMaskedText(sent, key))]))
         == o.(events := o.events + [Message(TEXT, false, sent)])
  {
    hide ParseFrame, EncodeMaskedText, Wire, Mask, Receive, Run, Joined;
    var wire := EncodeMaskedText(sent, key);
    MaskedTextRoundTrip(sent, key, [], NO_LIMIT);
    assert wire + [] == wire;
    WireOne(Rewritten(text, wire));
    var f := Frame(0x81, true, sent, wire);
    assert f.Op() == TEXT && f.IsFin() && !f.HasRsv1();
    ReceiveFrame(o, f, NO_LIMIT);
  }

  // ---------------------------------------------------------------------------------------------
  // Meaning
  // ---------------------------------------------------------------------------------------------

  predicate IsText(cfg: Config, e: Event) {
    cfg.rewrite.Some? && e.Message? && e.opcode == TEXT && !e.compressed
  }

  function TextCount(cfg: Config, events: seq<Event>): nat {
    if events == [] then 0
    else TextCount(cfg, events[..|events| - 1]) + if IsText(cfg, events[|events| - 1]) then 1 else 0
  }

  /** The text that the rewrite callback puts in place of the n-th one; it may leave it alone, or throw. */
  function Outgoing(cfg: Config, n: nat, text: Bytes): Bytes {
    match cfg.rewrite
    case None => text
    case Some(rewrite) => if rewrite(n, text).Replace? then rewrite(n, text).text else text
  }

  predicate Admitted(cfg: Config, n: nat, text: Bytes) { cfg.admit.Some? ==> cfg.admit.value(n, text).Passes? }

  predicate Thrown(cfg: Config, n: nat, text: Bytes) { cfg.rewrite.Some? && cfg.rewrite.value(n, text).Throws? }

  /** A throwing rewrite is passed over in one case only: at once, and without validation. */
  predicate GoesUpstream(cfg: Config, n: nat, text: Bytes) {
    && Admitted(cfg, n, text) && (Thrown(cfg, n, text) ==> cfg.admit.None? && !cfg.failClosed)
    && |Outgoing(cfg, n, text)| < FOUR_GIB
  }

  /** The client is answered: the hook refuses, or the rewrite throws, with a status. */
  predicate IsAnswered(cfg: Config, n: nat, text: Bytes) {
    && cfg.admit.Some?
    && (|| cfg.admit.value(n, text) == Refuses(true)
        || (Admitted(cfg, n, text) && cfg.rewrite.Some? && cfg.rewrite.value(n, text) == Throws(true)))
  }

  /** The connection ends: the hook refuses, or the rewrite throws, without one, or the frame cannot be made. */
  predicate EndsConnection(cfg: Config, n: nat, text: Bytes) {
    && cfg.admit.Some?
    && (|| cfg.admit.value(n, text) == Refuses(false)
        || (Admitted(cfg, n, text) && cfg.rewrite.Some? && cfg.rewrite.value(n, text) == Throws(false))
        || (Admitted(cfg, n, text) && !Thrown(cfg, n, text) && |Outgoing(cfg, n, text)| >= FOUR_GIB))
  }

  /** The push fails: without the hook, on a throw that must not be passed over, or on a frame that cannot be made. */
  predicate FailsPush(cfg: Config, n: nat, text: Bytes) {
    cfg.admit.None? && ((Thrown(cfg, n, text) && cfg.failClosed) || |Outgoing(cfg, n, text)| >= FOUR_GIB)
  }

  /** The callbacks alone decide about a text, and leave no case open. */
  lemma FatesByCallbacks(cfg: Config, n: nat, text: Bytes)
    ensures FateOf(cfg, n, text).Sent? <==> GoesUpstream(cfg, n, text)
    ensures FateOf(cfg, n, text).Sent? ==> FateOf(cfg, n, text).text == Outgoing(cfg, n, text)
    ensures FateOf(cfg, n, text).Lost? <==> IsAnswered(cfg, n, text)
    ensures FateOf(cfg, n, text).Fatal? <==> EndsConnection(cfg, n, text)
    ensures FateOf(cfg, n, text).Rejected? <==> FailsPush(cfg, n, text)
  {
  }

  /** What an entry other than a raw one says about the n-th text. */
  ghost predicate Decided(cfg: Config, n: nat, item: Item) {
    match item
    case Raw(_) => false
    case Rewritten(text, wire) =>
      && GoesUpstream(cfg, n, text) && wire == EncodeMaskedText(Outgoing(cfg, n, text), cfg.keys(n))
      && ParseFrame(wire, NO_LIMIT) == Parsed(Frame(0x81, true, Outgoing(cfg, n, text), wire))
    case Dropped(text) => IsAnswered(cfg, n, text)
    case Severed(text) => EndsConnection(cfg, n, text)
  }

  /** One complete text: the push fails or hands over one entry, as the callbacks say. */
  lemma EmitDecides(cfg: Config, s: State, text: Bytes)
    ensures Emit(cfg, s, text).Failure? <==> FailsPush(cfg, s.used, text)
    ensures Emit(cfg, s, text).Success? ==>
              && |Emit(cfg, s, text).value.items| == 1
              && var item := Emit(cfg, s, text).value.items[0];
                 !item.Raw? && item.text == text && Decided(cfg, s.used, item)
  {
    hide ParseFrame, EncodeMaskedText, Outgoing, Admitted, Thrown;
    FatesByCallbacks(cfg, s.used, text);
    hide FateOf, GoesUpstream, IsAnswered, EndsConnection, FailsPush;
    if FateOf(cfg, s.used, text).Sent? {
      var sent := FateOf(cfg, s.used, text).text;
      SentIsShort(cfg, s.used, text);
      var wire := EncodeMaskedText(sent, cfg.keys(s.used));
      MaskedTextRoundTrip(sent, cfg.keys(s.used), [], NO_LIMIT);
      assert wire + [] == wire;
    }
  }

  lemma SentIsShort(cfg: Config, n: nat, text: Bytes)
    ensures FateOf(cfg, n, text).Sent? ==> |FateOf(cfg, n, text).text| < FOUR_GIB
  {
  }

  /** What an event comes to: the n-th text is rewritten, or withheld; anything else stays. */
  function Image(cfg: Config, n: nat, e: Event): seq<Event> {
    if !IsText(cfg, e) then [e]
    else if GoesUpstream(cfg, n, e.payload) then [Message(TEXT, false, Outgoing(cfg, n, e.payload))]
    else []
  }

  function Mapped(cfg: Config, events: seq<Event>): seq<Event> {
    if events == [] then []
    else
      var init := events[..|events| - 1];
      Mapped(cfg, init) + Image(cfg, TextCount(cfg, init), events[|events| - 1])
  }

  /** `output` is `input` with the first `cut` events mapped and the others unchanged. */
  ghost predicate RewrittenUpTo(cfg: Config, input: seq<Event>, output: seq<Event>, cut: nat) {
    cut <= |input| && output == Mapped(cfg, input[..cut]) + input[cut..]
  }

  /** A message under way that is forwarded frame by frame. */
  predicate Unrewritable(cfg: Config, asm: Assembly) {
    asm.Collecting? && (cfg.rewrite.Some? ==> asm.opcode != TEXT || asm.compressed)
  }

  /** Before bypass: `d` decodes the input consumed so far, `o` the output so far. */
  ghost predicate Following(cfg: Config, d: Decoder, o: Decoder, s: State) {
    && !s.bypass && d.rest == s.buffer && o.rest == []
    && o.events == Mapped(cfg, d.events) && s.used == TextCount(cfg, d.events)
    && (s.held != [] ==> cfg.rewrite.Some?)
    && (if s.passthrough then s.held == [] && o.asm == d.asm && Unrewritable(cfg, d.asm)
        else o.asm.Idle? && HoldsText(d.asm, s.held))
  }

  /** From the bypass on: nothing is kept back, and the two decoders do the same from now on. */
  ghost predicate Mirrored(cfg: Config, d: Decoder, o: Decoder, s: State, cut: nat) {
    && s.bypass && s.buffer == [] && s.held == [] && !s.passthrough
    && o.asm == d.asm && o.rest == d.rest
    && RewrittenUpTo(cfg, d.events, o.events, cut)
  }

  ghost predicate Faithful(cfg: Config, d: Decoder, o: Decoder, s: State, cut: nat) {
    if s.bypass then Mirrored(cfg, d, o, s, cut) else Following(cfg, d, o, s) && cut == |d.events|
  }

  /** How many events the frames make that are taken before one ends the parsing. */
  function EventsTaken(cfg: Config, asm: Assembly, s: State): nat
    decreases |s.buffer|
  {
    match ParseFrame(s.buffer, MAX_FRAME)
    case Parsed(f) =>
      var rest := s.(buffer := s.buffer[|f.wire|..]);
      (match Handle(cfg, rest, f)
       case Failure(_) => 0
       case Success(step) =>
         if step.stop then 0
         else
           WsRewriter.BufferKept(cfg, rest, f);
           |Completed(asm, f)| + EventsTaken(cfg, NextAssembly(asm, f), step.state))
    case _ => 0
  }

  lemma TakenUnfolds(cfg: Config, asm: Assembly, s: State)
    ensures var p := ParseFrame(s.buffer, MAX_FRAME);
            if !p.Parsed? then EventsTaken(cfg, asm, s) == 0
            else
              var handled := Handle(cfg, s.(buffer := s.buffer[|p.frame.wire|..]), p.frame);
              EventsTaken(cfg, asm, s) == if handled.Failure? || handled.value.stop then 0
                                          else
                                            |Completed(asm, p.frame)|
                                            + EventsTaken(cfg, NextAssembly(asm, p.frame), handled.value.state)
  {
    hide ParseFrame, Handle, Completed, NextAssembly;
  }

  /** The events complete at the end of the input, or when the rewriter enters bypass. */
  function Cut(cfg: Config, ops: seq<Operation>): nat {
    if ops == [] || Execute(cfg, ops[..|ops| - 1]).Failure? then 0
    else
      var before, op := ops[..|ops| - 1], ops[|ops| - 1];
      PushCut(cfg, Decode(Input(before)), Execute(cfg, before).value.state, op, Cut(cfg, before))
  }

  function PushCut(cfg: Config, d: Decoder, s: State, op: Operation, cut: nat): nat {
    if s.bypass || op == Chunk([]) then cut
    else if op.FlushAll? || |s.buffer + op.bytes| > MAX_BUFFER then |d.events|
    else |d.events| + EventsTaken(cfg, d.asm, s.(buffer := s.buffer + op.bytes))
  }

  /** Two decoders in the same position keep agreeing, event for event. */
  lemma MirroredRun(cfg: Config, d: Decoder, o: Decoder, cut: nat)
    requires o.asm == d.asm && o.rest == d.rest && RewrittenUpTo(cfg, d.events, o.events, cut)
    ensures Run(o).asm == Run(d).asm && Run(o).rest == Run(d).rest
    ensures RewrittenUpTo(cfg, Run(d).events, Run(o).events, cut)
  {
    RunAfterEvents(d.asm, d.rest, d.events);
    RunAfterEvents(o.asm, o.rest, o.events);
    hide Run, Mapped;
    LaterUnchanged(cfg, d.events, o.events, cut, Run(Decoder(d.asm, d.rest, [])).events);
  }

  lemma LaterUnchanged(cfg: Config, input: seq<Event>, output: seq<Event>, cut: nat, later: seq<Event>)
    requires RewrittenUpTo(cfg, input, output, cut)
    ensures RewrittenUpTo(cfg, input + later, output + later, cut)
  {
    hide Mapped;
    assert (input + later)[..cut] == input[..cut] && (input + later)[cut..] == input[cut..] + later;
  }

  lemma AllMapped(cfg: Config, input: seq<Event>, output: seq<Event>)
    requires output == Mapped(cfg, input)
    ensures RewrittenUpTo(cfg, input, output, |input|)
  {
    assert input[..|input|] == input;
  }

  /** One more event, or none. */
  lemma MappedNext(cfg: Config, events: seq<Event>, x: seq<Event>)
    requires |x| <= 1
    ensures Mapped(cfg, events + x)
            == Mapped(cfg, events) + (if x == [] then [] else Image(cfg, TextCount(cfg, events), x[0]))
    ensures TextCount(cfg, events + x) == TextCount(cfg, events) + if x != [] && IsText(cfg, x[0]) then 1 else 0
  {
    hide Image, IsText;
    if x == [] {
      assert events + x == events;
    } else {
      assert (events + x)[..|events|] == events;
    }
  }

  lemma ControlStays(cfg: Config, n: nat, b0: byte, payload: Bytes)
    ensures !IsText(cfg, Control(b0, payload)) && Image(cfg, n, Control(b0, payload)) == [Control(b0, payload)]
  {
  }

  lemma RunNothing(d: Decoder)
    requires d.rest == []
    ensures Run(d) == d
  {
    assert ParseFrame([], NO_LIMIT).Incomplete?;
  }

  /** Handing over a buffer raw, once both decoders stand at the same assembly. */
  lemma HandOver(cfg: Config, d: Decoder, o: Decoder, items: seq<Item>, buffer: Bytes, cut: nat)
    requires o.rest == [] && d.rest == buffer && RewrittenUpTo(cfg, d.events, Receive(o, Wire(items)).events, cut)
    requires Receive(o, Wire(items)).asm == d.asm && Receive(o, Wire(items)).rest == []
    ensures var all := items + (if buffer == [] then [] else [Raw(buffer)]);
            var o' := Receive(o, Wire(all));
            o'.asm == Run(d).asm && o'.rest == Run(d).rest && RewrittenUpTo(cfg, Run(d).events, o'.events, cut)
  {
    hide ParseFrame, Run, RewrittenUpTo;
    var o1 := Receive(o, Wire(items));
    if buffer == [] {
      assert items + [] == items;
      RunNothing(d);
    } else {
      ReceiveItem(o, items, Raw(buffer));
      assert o1.rest + buffer == buffer;
      MirroredRun(cfg, d, o1.(rest := buffer), cut);
    }
  }

  /** Entering bypass (or flushing) before another frame is taken. */
  lemma FlushFollows(cfg: Config, d: Decoder, o: Decoder, s: State)
    requires Following(cfg, d, o, s)
    ensures var step := Flush(s);
            Mirrored(cfg, Run(d), Receive(o, Wire(step.items)), step.state, |d.events|)
  {
    hide Run, Mapped, TextCount, RewrittenUpTo, Wire, Receive;
    if s.passthrough {
      ReceiveNothing(o);
      assert RawAll(s.held) == [];
    } else {
      ReplayHeld(o, d.asm, s.held);
    }
    AllMapped(cfg, d.events, o.events);
    HandOver(cfg, d, o, RawAll(s.held), s.buffer, |d.events|);
  }

  lemma ControlFollows(cfg: Config, d: Decoder, o: Decoder, s: State, f: Frame)
    requires Following(cfg, d, o, s) && ParseFrame(f.wire, MAX_FRAME) == Parsed(f) && f.IsControl()
    ensures var step := Handle(cfg, s, f).value;
            Following(cfg, Feed(d, f), Receive(o, Wire(step.items)), step.state)
  {
    hide ParseFrame, Run, Mapped, TextCount, Image, IsText, Wire, Receive;
    MappedNext(cfg, d.events, Completed(d.asm, f));
    ControlStays(cfg, TextCount(cfg, d.events), f.b0, f.payload);
    if f.Op() == CLOSE && !s.passthrough {
      ReplayHeld(o, d.asm, s.held);
      ReceiveItem(o, RawAll(s.held), Raw(f.wire));
      ReceiveFrame(o.(asm := d.asm), f, MAX_FRAME);
    } else {
      if f.Op() == CLOSE { assert RawAll(s.held) + [Raw(f.wire)] == [Raw(f.wire)]; }
      ReceiveRaw(o, f);
    }
  }

  /** A data frame forwarded as it is: it belongs to no text the rewriter could rewrite. */
  lemma ForwardedFollows(cfg: Config, d: Decoder, o: Decoder, s: State, f: Frame)
    requires Following(cfg, d, o, s) && ParseFrame(f.wire, MAX_FRAME) == Parsed(f) && FrameOk(d.asm, f)
             && !f.IsControl()
    requires s.passthrough || (f.Op() != CONTINUATION && (f.HasRsv1() || f.Op() != TEXT || cfg.rewrite.None?))
    requires Handle(cfg, s, f).Success? && !Handle(cfg, s, f).value.stop
    ensures var step := Handle(cfg, s, f).value;
            Following(cfg, Feed(d, f), Receive(o, Wire(step.items)), step.state)
  {
    hide ParseFrame, Run, Mapped, TextCount, WouldOverflow;
    assert d.asm == o.asm;
    MappedNext(cfg, d.events, Completed(d.asm, f));
    ReceiveRaw(o, f);
  }

  /** A complete text: rewritten, or withheld. */
  lemma EmitFollows(cfg: Config, d: Decoder, o: Decoder, s: State, text: Bytes)
    requires cfg.rewrite.Some? && o.rest == [] && o.events == Mapped(cfg, d.events)
             && s.used == TextCount(cfg, d.events)
    requires Emit(cfg, s, text).Success?
    ensures var step := Emit(cfg, s, text).value;
            var events := d.events + [Message(TEXT, false, text)];
            && Receive(o, Wire(step.items)) == o.(events := Mapped(cfg, events))
            && step.state == s.(used := TextCount(cfg, events)) && !step.stop
  {
    hide Mapped, TextCount, Wire, Receive, EncodeMaskedText;
    MappedNext(cfg, d.events, [Message(TEXT, false, text)]);
    FatesByCallbacks(cfg, s.used, text);
    hide FateOf, GoesUpstream, Outgoing, IsAnswered, EndsConnection, FailsPush;
    SentIsShort(cfg, s.used, text);
    match FateOf(cfg, s.used, text)
    case Sent(sent) => ReceiveRewritten(o, text, sent, cfg.keys(s.used));
    case Rejected(_) =>
    case _ =>
      WireOne(Emit(cfg, s, text).value.items[0]);
      WireNothing();
      ReceiveNothing(o);
  }

  /** A text message starts to be held, or is complete and taken at once. */
  lemma TextFollows(cfg: Config, d: Decoder, o: Decoder, s: State, f: Frame)
    requires Following(cfg, d, o, s) && ParseFrame(f.wire, MAX_FRAME) == Parsed(f) && FrameOk(d.asm, f)
             && !f.IsControl()
    requires !s.passthrough && f.Op() == TEXT && !f.HasRsv1() && cfg.rewrite.Some?
    requires Handle(cfg, s, f).Success? && !Handle(cfg, s, f).value.stop
    ensures var step := Handle(cfg, s, f).value;
            Following(cfg, Feed(d, f), Receive(o, Wire(step.items)), step.state)
  {
    hide ParseFrame, Run, Mapped, TextCount, WouldOverflow, Emit, Wire, Receive;
    if f.IsFin() {
      EmitFollows(cfg, d, o, s, f.payload);
    } else {
      ReceiveNothing(o);
      assert Payloads([f]) == [f.payload];
      assert s.held == [] && [] + [f] == [f];
      assert d.events + [] == d.events;
    }
  }

  lemma ContinuationFollows(cfg: Config, d: Decoder, o: Decoder, s: State, f: Frame)
    requires Following(cfg, d, o, s) && ParseFrame(f.wire, MAX_FRAME) == Parsed(f) && FrameOk(d.asm, f)
    requires !s.passthrough && f.Op() == CONTINUATION && cfg.rewrite.Some?
    requires Handle(cfg, s, f).Success? && !Handle(cfg, s, f).value.stop
    ensures var step := Handle(cfg, s, f).value;
            Following(cfg, Feed(d, f), Receive(o, Wire(step.items)), step.state)
  {
    hide ParseFrame, Run, WouldOverflow, Mapped, TextCount, Emit, Wire, Receive;
    PayloadsAppend(s.held, f);
    if f.IsFin() {
      EmitFollows(cfg, d, o, ResetFragment(s), Joined(Payloads(s.held + [f])));
    } else {
      ReceiveNothing(o);
      assert d.events + [] == d.events;
    }
  }

  /** One frame that does not trigger bypass. */
  lemma HandleFollows(cfg: Config, d: Decoder, o: Decoder, s: State, f: Frame)
    requires Following(cfg, d, o, s) && ParseFrame(f.wire, MAX_FRAME) == Parsed(f) && FrameOk(d.asm, f)
    requires Handle(cfg, s, f).Success? && !Handle(cfg, s, f).value.stop
    ensures var step := Handle(cfg, s, f).value;
            Following(cfg, Feed(d, f), Receive(o, Wire(step.items)), step.state)
  {
    hide ParseFrame, Run, Mapped, TextCount, Handle, Wire;
    if f.IsControl() {
      ControlFollows(cfg, d, o, s, f);
    } else if s.passthrough || (f.Op() != CONTINUATION && (f.HasRsv1() || f.Op() != TEXT || cfg.rewrite.None?)) {
      ForwardedFollows(cfg, d, o, s, f);
    } else if f.Op() == CONTINUATION {
      ContinuationFollows(cfg, d, o, s, f);
    } else {
      TextFollows(cfg, d, o, s, f);
    }
  }

  /** The frame that makes the held message too large, or is itself too large to be held. */
  lemma HandleBypasses(cfg: Config, d: Decoder, o: Decoder, s: State, f: Frame)
    requires Following(cfg, d, o, s) && ParseFrame(f.wire, MAX_FRAME) == Parsed(f) && FrameOk(d.asm, f)
    requires Handle(cfg, s, f).Success? && Handle(cfg, s, f).value.stop
    ensures var step := Handle(cfg, s, f).value;
            Mirrored(cfg, Run(Feed(d, f)), Receive(o, Wire(step.items)), step.state, |d.events|)
  {
    hide ParseFrame, Run, RewrittenUpTo, Mapped, TextCount, WouldOverflow, Wire, Emit;
    var tail := if s.buffer == [] then [] else [Raw(s.buffer)];
    assert !s.passthrough && !f.IsControl();
    AllMapped(cfg, d.events, o.events);
    LaterUnchanged(cfg, d.events, o.events, |d.events|, Completed(d.asm, f));
    if f.Op() == CONTINUATION {
      PayloadsAppend(s.held, f);
      ReplayHeld(o, d.asm, s.held);
      ReceiveItem(o, RawAll(s.held), Raw(f.wire));
      ReceiveFrame(o.(asm := d.asm), f, MAX_FRAME);
      HandOver(cfg, Feed(d, f), o, RawAll(s.held + [f]), s.buffer, |d.events|);
    } else {
      assert s.held == [] && o.asm == d.asm;
      ReceiveRaw(o, f);
      assert [Raw(f.wire)] + (RawAll(s.held) + tail) == [Raw(f.wire)] + tail;
      HandOver(cfg, Feed(d, f), o, [Raw(f.wire)], s.buffer, |d.events|);
    }
  }

  lemma {:induction false} DrainFollows(cfg: Config, d: Decoder, o: Decoder, s: State)
    requires Following(cfg, d, o, s) && WellFormed(d.asm, d.rest) && Drain(cfg, s).Success?
    ensures var step := Drain(cfg, s).value;
            Faithful(cfg, Run(d), Receive(o, Wire(step.items)), step.state, |d.events| + EventsTaken(cfg, d.asm, s))
    decreases |s.buffer|
  {
    hide ParseFrame, Handle, Drain, Run, EventsTaken, Mapped, TextCount, RewrittenUpTo, Wire, Flush, NextAssembly,
         Completed;
    ParseLimits(s.buffer, MAX_FRAME, NO_LIMIT);
    WsRewriter.DrainUnfolds(cfg, s);
    TakenUnfolds(cfg, d.asm, s);
    RunUnfolds(d);
    match ParseFrame(s.buffer, MAX_FRAME)
    case Incomplete => ReceiveNothing(o);
    case Oversized => FlushFollows(cfg, d, o, s);
    case Parsed(f) =>
      FrameOfPrefix(s.buffer, f.wire, MAX_FRAME);
      var rest := s.buffer[|f.wire|..];
      var s1, d1 := s.(buffer := rest), d.(rest := rest);
      var step := Handle(cfg, s1, f).value;
      if step.stop {
        HandleBypasses(cfg, d1, o, s1, f);
      } else {
        HandleFollows(cfg, d1, o, s1, f);
        var o1 := Receive(o, Wire(step.items));
        DrainFollows(cfg, Feed(d1, f), o1, step.state);
        var next := Drain(cfg, step.state).value;
        WireConcat(step.items, next.items);
        ReceiveTwice(o, Wire(step.items), Wire(next.items));
      }
  }

  /** Bytes that nobody looks at: both decoders take the same ones. */
  lemma BothReceive(cfg: Config, d: Decoder, o: Decoder, chunk: Bytes, cut: nat)
    requires o.asm == d.asm && o.rest == d.rest && RewrittenUpTo(cfg, d.events, o.events, cut)
    ensures Receive(o, chunk).asm == Receive(d, chunk).asm && Receive(o, chunk).rest == Receive(d, chunk).rest
    ensures RewrittenUpTo(cfg, Receive(d, chunk).events, Receive(o, chunk).events, cut)
  {
    MirroredRun(cfg, d.(rest := d.rest + chunk), o.(rest := o.rest + chunk), cut);
  }

  lemma PushFollows(cfg: Config, d: Decoder, o: Decoder, s: State, chunk: Bytes, cut: nat)
    requires Faithful(cfg, d, o, s, cut) && Run(d) == d && WellFormed(d.asm, d.rest + chunk)
             && Push(cfg, s, chunk).Success?
    ensures var step := Push(cfg, s, chunk).value;
            Faithful(cfg, Receive(d, chunk), Receive(o, Wire(step.items)), step.state,
                     PushCut(cfg, d, s, Chunk(chunk), cut))
  {
    hide ParseFrame, Handle, Drain, EventsTaken, Mapped, TextCount, RewrittenUpTo, Flush, Wire, WellFormed, Run;
    if s.bypass {
      if chunk == [] { WireNothing(); } else { WireOne(Raw(chunk)); }
      BothReceive(cfg, d, o, chunk, cut);
    } else if chunk == [] {
      assert d.(rest := d.rest + []) == d;
      ReceiveNothing(o);
    } else {
      var d1, s1 := d.(rest := d.rest + chunk), s.(buffer := s.buffer + chunk);
      assert Following(cfg, d1, o, s1);
      if |s1.buffer| > MAX_BUFFER {
        FlushFollows(cfg, d1, o, s1);
      } else {
        DrainFollows(cfg, d1, o, s1);
      }
    }
  }

  lemma FlushAgain(cfg: Config, d: Decoder, o: Decoder, s: State, cut: nat)
    requires Faithful(cfg, d, o, s, cut) && Run(d) == d
    ensures var step := Flush(s);
            Mirrored(cfg, d, Receive(o, Wire(step.items)), step.state, PushCut(cfg, d, s, FlushAll, cut))
  {
    if s.bypass {
      assert Wire(Flush(s).items) == [];
      assert o.(rest := o.rest + []) == o;
      MirroredRun(cfg, d, o, cut);
    } else {
      FlushFollows(cfg, d, o, s);
    }
  }

  /**
    Rewriting preserves meaning.  For every well-formed client stream, every chunking, any flushes in
    between, every choice of mask keys and callbacks that may depend on all that came before: decoding the
    output gives the events of the input, with every text message that was complete before bypass was
    entered mapped to what the callbacks make of it (rewritten, or withheld) and nothing else changed.
    Until bypass is entered that is all of them, and exactly the message under way may still be missing;
    from bypass on, nothing is missing.
   */
  lemma {:induction false} RewritingPreservesMeaning(cfg: Config, ops: seq<Operation>)
    requires WellFormed(Idle, Input(ops)) && Execute(cfg, ops).Success?
    ensures var r := Execute(cfg, ops).value;
            Faithful(cfg, Decode(Input(ops)), Decode(Wire(r.items)), r.state, Cut(cfg, ops))
  {
    if ops == [] {
      assert ParseFrame([], NO_LIMIT).Incomplete?;
      assert Run(FRESH) == FRESH;
    } else {
      var before, op := ops[..|ops| - 1], ops[|ops| - 1];
      var chunk := if op.Chunk? then op.bytes else [];
      var w, r := Input(before), Execute(cfg, before).value;
      assert [] + w == w && [] + (w + chunk) == w + chunk;
      WellFormedSplit(FRESH.(rest := w), chunk);
      RewritingPreservesMeaning(cfg, before);
      var d, o := Decode(w), Decode(Wire(r.items));
      RunSettles(FRESH.(rest := w));
      assert Run(d) == d;
      DecodeMore(w, chunk);
      if op.Chunk? {
        PushFollows(cfg, d, o, r.state, chunk, Cut(cfg, before));
        var step := Push(cfg, r.state, chunk).value;
        WireConcat(r.items, step.items);
        DecodeMore(Wire(r.items), Wire(step.items));
      } else {
        FlushAgain(cfg, d, o, r.state, Cut(cfg, before));
        assert d.(rest := d.rest + []) == d && w + [] == w;
        WireConcat(r.items, Flush(r.state).items);
        DecodeMore(Wire(r.items), Wire(Flush(r.state).items));
      }
    }
  }

  /** What the proxy sends on, up to a severed text, decodes to a beginning of that. */
  lemma DeliveredIsBeginning(items: seq<Item>)
    ensures Decode(Wire(Delivered(items))).events <= Decode(Wire(items)).events
  {
    var n := |Delivered(items)|;
    assert items == items[..n] + items[n..];
    WireConcat(items[..n], items[n..]);
    var w, more := Wire(items[..n]), Wire(items[n..]);
    DecodeMore(w, more);
    var d := Decode(w);
    hide Run, Wire, Delivered;
    RunAfterEvents(d.asm, d.rest + more, d.events);
  }

  /** In default mode a run fails only on a rewritten text of 4 GiB or more, and never with an admission hook. */
  lemma {:induction false} DefaultFailsOnlyOnLength(cfg: Config, ops: seq<Operation>)
    requires !cfg.failClosed && Execute(cfg, ops).Failure?
    ensures Execute(cfg, ops).error == TooLong && cfg.admit.None?
    ensures exists n: nat, text :: |Outgoing(cfg, n, text)| >= FOUR_GIB
  {
    var before := ops[..|ops| - 1];
    if Execute(cfg, before).Failure? {
      DefaultFailsOnlyOnLength(cfg, before);
    } else {
      var s, op := Execute(cfg, before).value.state, ops[|ops| - 1];
      if op.Chunk? { DrainFailsOnLength(cfg, s.(buffer := s.buffer + op.bytes)); }
      hide Drain, Flush, Outgoing;
    }
  }

  lemma HandleFailsOnLength(cfg: Config, s: State, f: Frame)
    requires !cfg.failClosed && Handle(cfg, s, f).Failure?
    ensures Handle(cfg, s, f).error == TooLong && cfg.admit.None?
    ensures exists n: nat, text :: |Outgoing(cfg, n, text)| >= FOUR_GIB
  {
    hide EncodeMaskedText, WouldOverflow, Flush;
    var text := if f.Op() == CONTINUATION then Joined(Payloads(s.held + [f])) else f.payload;
    FatesByCallbacks(cfg, s.used, text);
    assert |Outgoing(cfg, s.used, text)| >= FOUR_GIB;
  }

  lemma {:induction false} DrainFailsOnLength(cfg: Config, s: State)
    requires !cfg.failClosed
    ensures Drain(cfg, s).Failure? ==>
              Drain(cfg, s).error == TooLong && cfg.admit.None?
                  && exists n: nat, text :: |Outgoing(cfg, n, text)| >= FOUR_GIB
    decreases |s.buffer|
  {
    hide ParseFrame, Handle, Drain, Flush, Outgoing;
    WsRewriter.DrainUnfolds(cfg, s);
    if ParseFrame(s.buffer, MAX_FRAME).Parsed? {
      var f := ParseFrame(s.buffer, MAX_FRAME).frame;
      var handled := Handle(cfg, s.(buffer := s.buffer[|f.wire|..]), f);
      if handled.Failure? {
        HandleFailsOnLength(cfg, s.(buffer := s.buffer[|f.wire|..]), f);
      } else if !handled.value.stop {
        DrainFailsOnLength(cfg, handled.value.state);
      }
    }
  }

  // ---------------------------------------------------------------------------------------------
  // Byte conservation
  // ---------------------------------------------------------------------------------------------

  predicate Transparent(cfg: Config) { cfg.rewrite.None? && !cfg.failClosed }

  lemma HandleForwards(cfg: Config, s: State, f: Frame)
    requires Transparent(cfg) && s.held == []
    ensures Handle(cfg, s, f).Success?
    ensures var step := Handle(cfg, s, f).value;
            !step.stop && step.items == [Raw(f.wire)] && step.state.held == []
            && step.state.buffer == s.buffer && step.state.bypass == s.bypass
  {
    assert RawAll([]) + [Raw(f.wire)] == [Raw(f.wire)];
  }

  lemma FlushForwards(s: State)
    requires s.held == []
    ensures Wire(Flush(s).items) == s.buffer
  {
    assert Flush(s).items == if s.buffer == [] then [] else [Raw(s.buffer)];
    WireOne(Raw(s.buffer));
  }

  lemma {:induction false} DrainConserves(cfg: Config, s: State)
    requires Transparent(cfg) && s.held == []
    ensures Drain(cfg, s).Success?
    ensures var step := Drain(cfg, s).value;
            step.state.held == [] && Wire(step.items) + step.state.buffer == s.buffer
            && (step.state.bypass && !s.bypass ==> step.state.buffer == [])
    decreases |s.buffer|
  {
    hide ParseFrame, Handle, Flush, Wire, Drain;
    WsRewriter.DrainUnfolds(cfg, s);
    match ParseFrame(s.buffer, MAX_FRAME)
    case Incomplete => WireNothing();
    case Oversized => FlushForwards(s); FlushClears(s);
    case Parsed(f) =>
      var s1 := s.(buffer := s.buffer[|f.wire|..]);
      HandleForwards(cfg, s1, f);
      var step := Handle(cfg, s1, f).value;
      DrainConserves(cfg, step.state);
      WireOne(Raw(f.wire));
      WireConcat(step.items, Drain(cfg, step.state).value.items);
      assert s.buffer == f.wire + s1.buffer;
  }

  lemma FlushClears(s: State)
    ensures Flush(s).state == State([], true, false, [], s.used)
  {
  }

  lemma PushConserves(cfg: Config, s: State, chunk: Bytes)
    requires Transparent(cfg) && s.held == [] && (s.bypass ==> s.buffer == [])
    ensures Push(cfg, s, chunk).Success?
    ensures var step := Push(cfg, s, chunk).value;
            step.state.held == [] && Wire(step.items) + step.state.buffer == s.buffer + chunk
            && (step.state.bypass ==> step.state.buffer == [])
  {
    hide Drain, Flush, Wire;
    var s1 := s.(buffer := s.buffer + chunk);
    if chunk == [] {
      WireNothing();
    } else if s.bypass {
      WireOne(Raw(chunk));
    } else if |s1.buffer| > MAX_BUFFER {
      FlushForwards(s1);
      FlushClears(s1);
    } else {
      DrainConserves(cfg, s1);
    }
  }

  ghost predicate Conserves(r: Step, input: Bytes) {
    r.state.held == [] && Wire(r.items) + r.state.buffer == input && (r.state.bypass ==> r.state.buffer == [])
  }

  lemma PushKeepsBytes(cfg: Config, r: Step, chunk: Bytes, input: Bytes)
    requires Transparent(cfg) && Conserves(r, input)
    ensures Push(cfg, r.state, chunk).Success?
    ensures var step := Push(cfg, r.state, chunk).value; Conserves(step.(items := r.items + step.items), input + chunk)
  {
    PushConserves(cfg, r.state, chunk);
    hide Push, Wire;
    var step := Push(cfg, r.state, chunk).value;
    WireConcat(r.items, step.items);
    Regroup(Wire(r.items), r.state.buffer, chunk, Wire(step.items), step.state.buffer);
  }

  lemma Regroup(done: Bytes, rest: Bytes, chunk: Bytes, more: Bytes, left: Bytes)
    requires more + left == rest + chunk
    ensures (done + more) + left == (done + rest) + chunk
  {
    assert (done + more) + left == done + (more + left);
    assert (done + rest) + chunk == done + (rest + chunk);
  }

  lemma FlushKeepsBytes(r: Step, input: Bytes)
    requires Conserves(r, input)
    ensures var step := Flush(r.state);
            && Conserves(step.(items := r.items + step.items), input)
            && Wire(r.items + step.items) == input
  {
    FlushForwards(r.state);
    FlushClears(r.state);
    WireConcat(r.items, Flush(r.state).items);
    hide Flush, Wire;
  }

  /**
    Byte conservation.  Without a rewrite callback and without fail-closed mode no push fails, and for
    every byte string, even malformed, and every chunking, the output followed by the bytes still
    buffered is the input; a flush leaves nothing behind.
   */
  lemma {:induction false} BytesConserved(cfg: Config, ops: seq<Operation>)
    requires Transparent(cfg)
    ensures Execute(cfg, ops).Success? && Conserves(Execute(cfg, ops).value, Input(ops))
    ensures ops != [] && ops[|ops| - 1].FlushAll? ==> Wire(Execute(cfg, ops).value.items) == Input(ops)
  {
    hide Push, Flush, Wire;
    if ops == [] {
      WireNothing();
    } else {
      hide Conserves;
      var before, op := ops[..|ops| - 1], ops[|ops| - 1];
      BytesConserved(cfg, before);
      var r := Execute(cfg, before).value;
      if op.FlushAll? {
        FlushKeepsBytes(r, Input(before));
      } else {
        PushKeepsBytes(cfg, r, op.bytes, Input(before));
      }
    }
  }
}
