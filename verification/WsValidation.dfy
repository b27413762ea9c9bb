/**
  Fail-closed validation: what a rewriter that refuses everything it cannot check lets through, entry by
  entry, for immediate and for deferred texts.
 */
module WsValidation {
  import opened WsFrame
  import opened WsStream
  import opened WsRewriter
  import opened WsRewriting
  import opened Options

  predicate Guarded(cfg: Config) { cfg.failClosed && cfg.rewrite.Some? }

  /** The complete data messages among some events. */
  function Messages(events: seq<Event>): seq<Event> {
    if events == [] then []
    else
      var last := events[|events| - 1];
      Messages(events[..|events| - 1]) + (if last.Message? then [last] else [])
  }

  /** The complete texts among some entries. */
  function Texts(items: seq<Item>): seq<Bytes> {
    if items == [] then []
    else
      var last := items[|items| - 1];
      Texts(items[..|items| - 1]) + (if last.Raw? then [] else [last.text])
  }

  /** The messages that the callbacks make of the texts, from the n-th on: each validated and rewritten, or withheld. */
  function Validated(cfg: Config, texts: seq<Bytes>): seq<Event> {
    if texts == [] then []
    else
      var n := |texts| - 1;
      Validated(cfg, texts[..n]) +
      (if GoesUpstream(cfg, n, texts[n]) then [Message(TEXT, false, Outgoing(cfg, n, texts[n]))] else [])
  }

  /** One frame as it came from the wire, which completes no data message. */
  ghost predicate Silent(wire: Bytes) {
    exists f :: ParseFrame(wire, MAX_FRAME) == Parsed(f) && f.wire == wire && (f.IsControl() || !f.IsFin())
  }

  /** An entry that is either silent or the n-th text as the callbacks decided about it. */
  ghost predicate ItemOk(cfg: Config, n: nat, item: Item) {
    if item.Raw? then Silent(item.wire) else Decided(cfg, n, item)
  }

  ghost predicate Screened(cfg: Config, items: seq<Item>) {
    items == [] ||
    (var init := items[..|items| - 1];
     Screened(cfg, init) && ItemOk(cfg, |Texts(init)|, items[|items| - 1]))
  }

  // ---- What screened entries come to ----

  lemma {:induction false} ScreenedPrefix(cfg: Config, items: seq<Item>, k: nat)
    requires Screened(cfg, items) && k <= |items|
    ensures Screened(cfg, items[..k])
  {
    hide ItemOk;
    if k == |items| {
      assert items[..k] == items;
    } else {
      var init := items[..|items| - 1];
      ScreenedPrefix(cfg, init, k);
      assert init[..k] == items[..k];
    }
  }

  lemma MessagesNext(events: seq<Event>, x: seq<Event>)
    requires |x| <= 1
    ensures Messages(events + x) == Messages(events) + (if x != [] && x[0].Message? then x else [])
  {
    if x == [] {
      assert events + x == events;
    } else {
      assert (events + x)[..|events|] == events && x == [x[0]];
    }
  }

  /** A silent frame, received between frames, leaves the messages alone. */
  lemma SilentFrame(o: Decoder, wire: Bytes)
    requires o.rest == [] && Silent(wire)
    ensures Receive(o, wire).rest == [] && Messages(Receive(o, wire).events) == Messages(o.events)
  {
    var f :| ParseFrame(wire, MAX_FRAME) == Parsed(f) && f.wire == wire && (f.IsControl() || !f.IsFin());
    hide ParseFrame, Receive, Messages;
    ReceiveFrame(o, f, MAX_FRAME);
    MessagesNext(o.events, Completed(o.asm, f));
  }

  lemma TextItem(cfg: Config, o: Decoder, texts: seq<Bytes>, item: Item)
    requires o.rest == [] && Messages(o.events) == Validated(cfg, texts)
    requires !item.Raw? && ItemOk(cfg, |texts|, item)
    ensures Receive(o, Output(item)).rest == []
    ensures Messages(Receive(o, Output(item)).events) == Validated(cfg, texts + [item.text])
  {
    hide Receive, Messages, ParseFrame, Outgoing, GoesUpstream, IsAnswered, EndsConnection;
    assert (texts + [item.text])[..|texts|] == texts;
    if item.Rewritten? {
      var sent := Outgoing(cfg, |texts|, item.text);
      ReceiveText(o, sent, item.wire);
      MessagesNext(o.events, [Message(TEXT, false, sent)]);
    } else {
      WithheldStays(cfg, |texts|, item);
      WireNothing();
      ReceiveNothing(o);
    }
  }

  /** A frame that parses as a whole text is received as that message. */
  lemma ReceiveText(o: Decoder, text: Bytes, wire: Bytes)
    requires o.rest == [] && ParseFrame(wire, NO_LIMIT) == Parsed(Frame(0x81, true, text, wire))
    ensures Receive(o, wire) == o.(events := o.events + [Message(TEXT, false, text)])
  {
    hide ParseFrame, Receive;
    var f := Frame(0x81, true, text, wire);
    assert f.Op() == TEXT && f.IsFin() && !f.HasRsv1();
    ReceiveFrame(o, f, NO_LIMIT);
  }

  lemma WithheldStays(cfg: Config, n: nat, item: Item)
    requires !item.Raw? && !item.Rewritten? && Decided(cfg, n, item)
    ensures !GoesUpstream(cfg, n, item.text)
  {
  }

  /** Screened entries decode to the validated texts, in order, and to no other message. */
  lemma {:induction false} ScreenedMessages(cfg: Config, items: seq<Item>)
    requires Screened(cfg, items)
    ensures var o := Decode(Wire(items)); o.rest == [] && Messages(o.events) == Validated(cfg, Texts(items))
  {
    hide ItemOk, Messages, Validated, Run;
    if items == [] {
      NothingDecoded(cfg);
    } else {
      var init, last := items[..|items| - 1], items[|items| - 1];
      ScreenedMessages(cfg, init);
      var o := Decode(Wire(init));
      DecodeMore(Wire(init), Output(last));
      if last.Raw? {
        RawIsSilent(cfg, |Texts(init)|, last);
        SilentFrame(o, last.wire);
        assert Texts(init) + [] == Texts(init);
      } else {
        TextItem(cfg, o, Texts(init), last);
      }
    }
  }

  lemma RawIsSilent(cfg: Config, n: nat, item: Item)
    requires item.Raw? && ItemOk(cfg, n, item)
    ensures Silent(item.wire)
  {
  }

  lemma NothingDecoded(cfg: Config)
    ensures Decode(Wire([])) == FRESH && Messages(FRESH.events) == Validated(cfg, [])
  {
    WireNothing();
    RunNothing(FRESH);
    assert [] + [] == FRESH.rest;
  }

  // ---- What a guarded rewriter hands over ----

  /** A guarded rewriter that has not been flushed: no raw data frame has gone out whole. */
  ghost predicate Closed(cfg: Config, s: State, items: seq<Item>) {
    !s.bypass && !s.passthrough && HeldFrames(s.held) && Screened(cfg, items) && s.used == |Texts(items)|
  }

  lemma ScreenedNext(cfg: Config, items: seq<Item>, item: Item)
    requires Screened(cfg, items) && ItemOk(cfg, |Texts(items)|, item)
    ensures Screened(cfg, items + [item])
    ensures Texts(items + [item]) == Texts(items) + (if item.Raw? then [] else [item.text])
  {
    hide ItemOk;
    assert (items + [item])[..|items|] == items;
  }

  lemma RawNext(cfg: Config, items: seq<Item>, f: Frame)
    requires Screened(cfg, items) && ParseFrame(f.wire, MAX_FRAME) == Parsed(f) && (f.IsControl() || !f.IsFin())
    ensures Screened(cfg, items + [Raw(f.wire)]) && Texts(items + [Raw(f.wire)]) == Texts(items)
  {
    hide ParseFrame;
    assert Silent(f.wire);
    hide Silent;
    ScreenedNext(cfg, items, Raw(f.wire));
  }

  lemma {:induction false} HeldNext(cfg: Config, items: seq<Item>, held: seq<Frame>)
    requires Screened(cfg, items) && HeldFrames(held)
    ensures Screened(cfg, items + RawAll(held)) && Texts(items + RawAll(held)) == Texts(items)
  {
    hide ParseFrame, Texts, Screened;
    if held == [] {
      assert items + RawAll(held) == items;
    } else {
      var init, f := held[..|held| - 1], held[|held| - 1];
      assert init + [f] == held;
      PayloadsAppend(init, f);
      HeldNext(cfg, items, init);
      RawNext(cfg, items + RawAll(init), f);
      assert items + RawAll(held) == items + RawAll(init) + [Raw(f.wire)];
    }
  }

  lemma EmitScreens(cfg: Config, items: seq<Item>, s: State, text: Bytes)
    requires Screened(cfg, items) && s.used == |Texts(items)| && Emit(cfg, s, text).Success?
    ensures var step := Emit(cfg, s, text).value;
            Screened(cfg, items + step.items) && step.state.used == |Texts(items + step.items)|
  {
    hide Screened, Texts, Decided;
    EmitDecides(cfg, s, text);
    var item := Emit(cfg, s, text).value.items[0];
    assert ItemOk(cfg, s.used, item);
    hide ItemOk;
    assert Emit(cfg, s, text).value.items == [item];
    ScreenedNext(cfg, items, item);
  }

  lemma ControlGuarded(cfg: Config, items: seq<Item>, s: State, f: Frame)
    requires Closed(cfg, s, items) && ParseFrame(f.wire, MAX_FRAME) == Parsed(f) && f.IsControl()
    ensures var step := Handle(cfg, s, f).value; Closed(cfg, step.state, items + step.items)
  {
    hide ParseFrame, Screened, Texts, Emit;
    if f.Op() == CLOSE {
      HeldNext(cfg, items, s.held);
      RawNext(cfg, items + RawAll(s.held), f);
      assert items + (RawAll(s.held) + [Raw(f.wire)]) == items + RawAll(s.held) + [Raw(f.wire)];
    } else {
      RawNext(cfg, items, f);
    }
  }

  lemma HandleGuarded(cfg: Config, items: seq<Item>, s: State, f: Frame)
    requires Guarded(cfg) && Closed(cfg, s, items)
    requires ParseFrame(f.wire, MAX_FRAME) == Parsed(f) && Handle(cfg, s, f).Success?
    ensures var step := Handle(cfg, s, f).value; !step.stop && Closed(cfg, step.state, items + step.items)
  {
    if f.IsControl() {
      ControlGuarded(cfg, items, s, f);
    } else if f.IsFin() {
      FinalGuarded(cfg, items, s, f);
    } else {
      FragmentGuarded(cfg, items, s, f);
    }
    hide *;
  }

  lemma FinalGuarded(cfg: Config, items: seq<Item>, s: State, f: Frame)
    requires Guarded(cfg) && Closed(cfg, s, items) && !f.IsControl() && f.IsFin() && Handle(cfg, s, f).Success?
    ensures var step := Handle(cfg, s, f).value; !step.stop && Closed(cfg, step.state, items + step.items)
  {
    hide ParseFrame, Screened, Texts, Emit, WouldOverflow;
    if f.Op() == CONTINUATION {
      EmitScreens(cfg, items, ResetFragment(s), Joined(Payloads(s.held + [f])));
    } else {
      EmitScreens(cfg, items, s, f.payload);
    }
  }

  lemma FragmentGuarded(cfg: Config, items: seq<Item>, s: State, f: Frame)
    requires Guarded(cfg) && Closed(cfg, s, items) && !f.IsControl() && !f.IsFin()
    requires ParseFrame(f.wire, MAX_FRAME) == Parsed(f) && Handle(cfg, s, f).Success?
    ensures var step := Handle(cfg, s, f).value; !step.stop && Closed(cfg, step.state, items + step.items)
  {
    hide ParseFrame, Screened, Texts, Emit, WouldOverflow;
    assert items + [] == items;
  }

  lemma {:induction false} DrainGuarded(cfg: Config, items: seq<Item>, s: State)
    requires Guarded(cfg) && Closed(cfg, s, items) && Drain(cfg, s).Success?
    ensures var step := Drain(cfg, s).value; Closed(cfg, step.state, items + step.items)
    decreases |s.buffer|
  {
    hide ParseFrame, Handle, Drain, Screened, Texts, HeldFrames, Flush;
    WsRewriter.DrainUnfolds(cfg, s);
    match ParseFrame(s.buffer, MAX_FRAME)
    case Incomplete => assert items + [] == items;
    case Oversized =>
    case Parsed(f) =>
      FrameOfPrefix(s.buffer, f.wire, MAX_FRAME);
      var s1 := s.(buffer := s.buffer[|f.wire|..]);
      var step := Handle(cfg, s1, f).value;
      HandleGuarded(cfg, items, s1, f);
      DrainGuarded(cfg, items + step.items, step.state);
      var next := Drain(cfg, step.state).value;
      assert items + step.items + next.items == items + (step.items + next.items);
  }

  lemma {:induction false} RunGuarded(cfg: Config, ops: seq<Operation>)
    requires Guarded(cfg) && Execute(cfg, ops).Success? && forall op <- ops :: op.Chunk?
    ensures var r := Execute(cfg, ops).value; Closed(cfg, r.state, r.items)
  {
    hide Drain, Flush, Closed;
    if ops == [] {
      NothingClosed(cfg);
    } else {
      var before, op := ops[..|ops| - 1], ops[|ops| - 1];
      assert op in ops;
      RunGuarded(cfg, before);
      var r := Execute(cfg, before).value;
      ChunkGuarded(cfg, r.items, r.state, op.bytes);
    }
  }

  lemma NothingClosed(cfg: Config)
    ensures Closed(cfg, INITIAL, [])
  {
  }

  lemma ChunkGuarded(cfg: Config, items: seq<Item>, s: State, chunk: Bytes)
    requires Guarded(cfg) && Closed(cfg, s, items) && Push(cfg, s, chunk).Success?
    ensures var step := Push(cfg, s, chunk).value; Closed(cfg, step.state, items + step.items)
  {
    hide Drain, Screened, Texts, HeldFrames;
    if chunk == [] {
      assert items + [] == items;
    } else {
      DrainGuarded(cfg, items, s.(buffer := s.buffer + chunk));
    }
  }

  /**
    Fail-closed validation.  For every byte stream, well-formed or not, and every chunking, as long as the
    pushes succeed and nothing is flushed: at every entry that the proxy has reached, and so up to a
    severed text, the complete data messages sent upstream are exactly what the callbacks made of the
    complete texts, in order, without the dropped ones.  No text gets by the admission hook or the rewrite
    callback, and everything forwarded raw completes no message.
   */
  lemma FailClosedOnlyValidated(cfg: Config, ops: seq<Operation>, k: nat)
    requires Guarded(cfg) && Execute(cfg, ops).Success? && (forall op <- ops :: op.Chunk?)
    requires k <= |Execute(cfg, ops).value.items|
    ensures var items := Execute(cfg, ops).value.items;
            && Screened(cfg, items)
            && (var o := Decode(Wire(items[..k]));
                o.rest == [] && Messages(o.events) == Validated(cfg, Texts(items[..k])))
            && (var o := Decode(Wire(Delivered(items)));
                o.rest == [] && Messages(o.events) == Validated(cfg, Texts(Delivered(items))))
  {
    var items := Execute(cfg, ops).value.items;
    RunGuarded(cfg, ops);
    ScreenedPrefix(cfg, items, k);
    ScreenedMessages(cfg, items[..k]);
    ScreenedPrefix(cfg, items, |Delivered(items)|);
    ScreenedMessages(cfg, Delivered(items));
    hide Execute, Screened, Decode, Wire, Messages, Validated, Texts;
  }

  // ---- Every text, in every mode ----

  /** Each entry is raw or the next text, as the callbacks decided about it. */
  ghost predicate AllDecided(cfg: Config, items: seq<Item>) {
    items == [] ||
    (var init, last := items[..|items| - 1], items[|items| - 1];
     AllDecided(cfg, init) && (last.Raw? || Decided(cfg, |Texts(init)|, last)))
  }

  lemma {:induction false} MoreRaw(cfg: Config, items: seq<Item>, more: seq<Item>)
    requires AllDecided(cfg, items) && forall item <- more :: item.Raw?
    ensures AllDecided(cfg, items + more) && Texts(items + more) == Texts(items)
  {
    if more == [] {
      assert items + more == items;
    } else {
      assert (items + more)[..|items + more| - 1] == items + more[..|more| - 1];
      MoreRaw(cfg, items, more[..|more| - 1]);
      assert Texts(items) + [] == Texts(items);
      hide Decided;
    }
  }

  lemma OneMoreText(cfg: Config, items: seq<Item>, item: Item)
    requires AllDecided(cfg, items) && !item.Raw? && Decided(cfg, |Texts(items)|, item)
    ensures AllDecided(cfg, items + [item]) && Texts(items + [item]) == Texts(items) + [item.text]
  {
    hide Decided;
    assert (items + [item])[..|items|] == items;
  }

  /** What a step hands over, from the n-th text on: raw entries only, or one text. */
  ghost predicate Extends(cfg: Config, n: nat, step: Step) {
    || ((forall item <- step.items :: item.Raw?) && step.state.used == n)
    || (|step.items| == 1 && Decided(cfg, n, step.items[0]) && step.state.used == n + 1)
  }

  lemma ExtendsDecided(cfg: Config, items: seq<Item>, n: nat, step: Step)
    requires AllDecided(cfg, items) && n == |Texts(items)| && Extends(cfg, n, step)
    ensures AllDecided(cfg, items + step.items) && step.state.used == |Texts(items + step.items)|
  {
    hide AllDecided, Texts, GoesUpstream, IsAnswered, EndsConnection, ParseFrame;
    if forall item <- step.items :: item.Raw? {
      MoreRaw(cfg, items, step.items);
    } else {
      assert step.items == [step.items[0]];
      OneMoreText(cfg, items, step.items[0]);
    }
  }

  lemma FlushExtends(cfg: Config, s: State)
    ensures Extends(cfg, s.used, Flush(s))
  {
    hide Decided;
    var raw := RawAll(s.held);
    assert forall item <- raw + [Raw(s.buffer)] :: item.Raw?;
  }

  lemma HandleExtends(cfg: Config, s: State, f: Frame)
    requires Handle(cfg, s, f).Success?
    ensures Extends(cfg, s.used, Handle(cfg, s, f).value)
  {
    hide Decided, Emit, Flush, WouldOverflow;
    var raw := RawAll(s.held);
    assert forall item <- raw + [Raw(f.wire)] :: item.Raw?;
    FlushExtends(cfg, s);
    FlushExtends(cfg, s.(held := s.held + [f]));
    assert forall item <- [Raw(f.wire)] + Flush(s).items :: item == Raw(f.wire) || item in Flush(s).items;
    if !f.IsControl() && f.IsFin() {
      var text := if f.Op() == CONTINUATION then Joined(Payloads(s.held + [f])) else f.payload;
      EmitDecides(cfg, s, text);
      EmitDecides(cfg, ResetFragment(s), text);
    }
    FlushIsRaw(s);
  }

  lemma FlushIsRaw(s: State)
    ensures (forall item <- Flush(s).items :: item.Raw?) && Flush(s).state.used == s.used
  {
    var raw := RawAll(s.held);
    assert forall item <- raw + [Raw(s.buffer)] :: item.Raw?;
  }

  lemma {:induction false} DrainDecides(cfg: Config, items: seq<Item>, s: State)
    requires AllDecided(cfg, items) && s.used == |Texts(items)| && Drain(cfg, s).Success?
    ensures var step := Drain(cfg, s).value;
            AllDecided(cfg, items + step.items) && step.state.used == |Texts(items + step.items)|
    decreases |s.buffer|
  {
    hide ParseFrame, Handle, Drain, AllDecided, Texts, Flush, Extends;
    WsRewriter.DrainUnfolds(cfg, s);
    match ParseFrame(s.buffer, MAX_FRAME)
    case Incomplete => assert items + [] == items;
    case Oversized =>
      FlushExtends(cfg, s);
      ExtendsDecided(cfg, items, s.used, Flush(s));
    case Parsed(f) =>
      var s1 := s.(buffer := s.buffer[|f.wire|..]);
      var step := Handle(cfg, s1, f).value;
      HandleExtends(cfg, s1, f);
      ExtendsDecided(cfg, items, s.used, step);
      if !step.stop {
        DrainDecides(cfg, items + step.items, step.state);
        var next := Drain(cfg, step.state).value;
        assert items + step.items + next.items == items + (step.items + next.items);
      }
  }

  lemma PushDecides(cfg: Config, items: seq<Item>, s: State, chunk: Bytes)
    requires AllDecided(cfg, items) && s.used == |Texts(items)| && Push(cfg, s, chunk).Success?
    ensures var step := Push(cfg, s, chunk).value;
            AllDecided(cfg, items + step.items) && step.state.used == |Texts(items + step.items)|
  {
    hide Drain, AllDecided, Texts, Flush, Extends;
    var s1 := s.(buffer := s.buffer + chunk);
    if chunk == [] {
      assert items + [] == items;
    } else if s.bypass {
      MoreRaw(cfg, items, [Raw(chunk)]);
    } else if |s1.buffer| > MAX_BUFFER {
      FlushExtends(cfg, s1);
      ExtendsDecided(cfg, items, s.used, Flush(s1));
    } else {
      DrainDecides(cfg, items, s1);
    }
  }

  lemma {:induction false} RunDecides(cfg: Config, ops: seq<Operation>)
    requires Execute(cfg, ops).Success?
    ensures var r := Execute(cfg, ops).value; AllDecided(cfg, r.items) && r.state.used == |Texts(r.items)|
  {
    hide Push, Flush, Texts, Extends;
    if ops == [] {
      assert Texts([]) == [] by { NoTexts(); }
    } else {
      hide AllDecided;
      var before, op := ops[..|ops| - 1], ops[|ops| - 1];
      RunDecides(cfg, before);
      var r := Execute(cfg, before).value;
      if op.FlushAll? {
        FlushExtends(cfg, r.state);
        ExtendsDecided(cfg, r.items, r.state.used, Flush(r.state));
      } else {
        PushDecides(cfg, r.items, r.state, op.bytes);
      }
    }
  }

  lemma NoTexts()
    ensures Texts([]) == []
  {
  }

  lemma {:induction false} DecidedAt(cfg: Config, items: seq<Item>, k: nat)
    requires AllDecided(cfg, items) && k < |items| && !items[k].Raw?
    ensures Decided(cfg, |Texts(items[..k])|, items[k])
  {
    hide Decided, Texts;
    if k < |items| - 1 {
      DecidedAt(cfg, items[..|items| - 1], k);
      assert items[..|items| - 1][..k] == items[..k];
    }
  }

  /**
    The callbacks decide about every text, in every mode, over every run: an entry that is sent has passed
    the hook, and its rewrite did not throw unless that may be passed over; it is read back as the text that
    the rewrite put in its place, or as the original; a text is dropped or ends the connection exactly when
    the hook refuses it, or the rewrite throws after the hook, with a status or without.
   */
  lemma EveryTextDecided(cfg: Config, ops: seq<Operation>, k: nat)
    requires Execute(cfg, ops).Success? && k < |Execute(cfg, ops).value.items|
    ensures var items := Execute(cfg, ops).value.items;
            var item, n := items[k], |Texts(items[..k])|;
            !item.Raw? ==>
              && Decided(cfg, n, item)
              && (item.Dropped? <==> IsAnswered(cfg, n, item.text))
              && (item.Severed? <==> EndsConnection(cfg, n, item.text))
  {
    var items := Execute(cfg, ops).value.items;
    RunDecides(cfg, ops);
    if !items[k].Raw? {
      DecidedAt(cfg, items, k);
      FatesByCallbacks(cfg, |Texts(items[..k])|, items[k].text);
      hide Execute, Texts, GoesUpstream, IsAnswered, EndsConnection, ParseFrame, FateOf;
    }
  }
}
