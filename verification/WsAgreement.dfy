/**
  The two incremental parsers agree: on a masked stream that the endpoint has no reason to close,
  it delivers exactly the texts the sniffer reports and answers each ping in its place.
 */
module WsAgreement {
  import opened WsFrame
  import opened WsStream
  import Endpoint = WsEndpoint
  import Sniffer = WsSniffer

  /** Every frame, also one only begun, carries the mask bit. */
  predicate MaskedThroughout(b: Bytes)
    decreases |b|
  {
    |b| >= 2 ==>
      Masked(b[1]) &&
      match ParseFrame(b, NO_LIMIT)
      case Parsed(f) => MaskedThroughout(b[|f.wire|..])
      case _ => true
  }

  /** No reserved bit, no close frame, and every size within the endpoint's limits. */
  predicate Acceptable(asm: Assembly, b: Bytes)
    decreases |b|
  {
    match ParseFrame(b, Endpoint.MAX_MESSAGE)
    case Incomplete => true
    case Oversized => false
    case Parsed(f) =>
      !f.HasRsv1() && f.Op() != CLOSE && !Endpoint.TooMuch(asm, f) && Acceptable(NextAssembly(asm, f), b[|f.wire|..])
  }

  predicate OnlySends(actions: seq<Endpoint.Action>) {
    forall a <- actions :: a.SendText?
  }

  predicate CalmReaction(r: Endpoint.Reaction) {
    OnlySends(r.actions) && (r.onError.Some? ==> OnlySends(r.onError.value))
  }

  /** Neither the socket nor the handler ends the session; writes may find the socket not writable. */
  ghost predicate Calm(env: Endpoint.Environment) {
    (forall n :: !env.socket(n).Raises?) && (forall n, text :: CalmReaction(env.react(n, text)))
  }

  /** What has been done so far: effects, write attempts, deliveries. */
  datatype Trace = Trace(log: seq<Endpoint.Effect>, writes: nat, delivered: nat)

  const NOTHING := Trace([], 0, 0)

  function Write(env: Endpoint.Environment, t: Trace, frame: Bytes): Trace {
    Trace(if env.socket(t.writes).Accepted? then t.log + [Endpoint.Wrote(frame)] else t.log, t.writes + 1, t.delivered)
  }

  function WriteTexts(env: Endpoint.Environment, t: Trace, actions: seq<Endpoint.Action>): Trace {
    if actions == [] then t
    else
      var before := WriteTexts(env, t, actions[..|actions| - 1]);
      var a := actions[|actions| - 1];
      if a.SendText? && |a.text| < FOUR_GIB then Write(env, before, EncodeFrame(TEXT, a.text, true)) else before
  }

  function React(env: Endpoint.Environment, t: Trace, text: Bytes): Trace {
    var reaction := env.react(t.delivered, text);
    var done := WriteTexts(env, Trace(t.log + [Endpoint.Delivered(text)], t.writes, t.delivered + 1), reaction.actions);
    if reaction.onError.None? then done
    else WriteTexts(env, done.(log := done.log + [Endpoint.Errored]), reaction.onError.value)
  }

  /**
    What the endpoint does about one event: deliver a text and let the handler react, answer a ping with its
    payload.
   */
  function Answer(env: Endpoint.Environment, t: Trace, e: Event): Trace {
    match e
    case Control(b0, payload) =>
      if Opcode(b0) == PING && |payload| < FOUR_GIB then Write(env, t, EncodeFrame(PONG, payload, true)) else t
    case Message(opcode, _, payload) => if opcode == TEXT then React(env, t, payload) else t
  }

  function AnswerAll(env: Endpoint.Environment, events: seq<Event>): Trace {
    if events == [] then NOTHING
    else Answer(env, AnswerAll(env, events[..|events| - 1]), events[|events| - 1])
  }

  /** An open endpoint that has followed the decoder. */
  ghost predicate Follows(env: Endpoint.Environment, s: Endpoint.State, d: Decoder) {
    && !s.closed && s.buffer == d.rest && s.asm == d.asm
    && Trace(s.log, s.writes, s.delivered) == AnswerAll(env, d.events)
    && (d.asm.Collecting? ==> !d.asm.compressed)
    && forall e <- d.events :: e.Message? ==> !e.compressed
  }

  lemma AnswerAllAppend(env: Endpoint.Environment, a: seq<Event>, b: seq<Event>)
    requires |b| <= 1
    ensures AnswerAll(env, a + b) == if b == [] then AnswerAll(env, a) else Answer(env, AnswerAll(env, a), b[0])
  {
    if b == [] {
      assert a + b == a;
    } else {
      assert (a + b)[..|a|] == a;
    }
  }

  lemma ShortHead(b: Bytes)
    ensures |b| < 2 ==> ParseHead(b, Endpoint.MAX_MESSAGE).NeedMore?
  {
  }

  /** On masked input the endpoint cuts the same frames as every other reader, although it checks the mask first. */
  lemma CutsTheSame(b: Bytes)
    requires |b| >= 2 ==> Masked(b[1])
    ensures match ParseFrame(b, Endpoint.MAX_MESSAGE)
            case Incomplete => Endpoint.CutFrame(b).Wait?
            case Oversized => Endpoint.CutFrame(b).TooBig?
            case Parsed(f) => Endpoint.CutFrame(b) == Endpoint.Cut(f) && f.masked
  {
    hide ParseHead, Mask;
    ShortHead(b);
  }

  /** The bytes with the mask bit set that is missing. */
  function WithMaskBit(b: Bytes): Bytes
    requires |b| >= 2 && !Masked(b[1])
  {
    b[1 := b[1] + 0x80]
  }

  /** An unmasked control frame is read as if it were masked: its length and limits, and a key before its payload. */
  lemma ControlsReadMasked(b: Bytes)
    requires |b| >= 2 && !Masked(b[1]) && Opcode(b[0]) >= 8
    ensures match ParseFrame(WithMaskBit(b), Endpoint.MAX_MESSAGE)
            case Incomplete => Endpoint.CutFrame(b).Wait?
            case Oversized => Endpoint.CutFrame(b).TooBig?
            case Parsed(f) =>
              Endpoint.CutFrame(b) == Endpoint.Cut(Frame(f.b0, false, f.payload, b[..|f.wire|]))
  {
    hide ParseHead, Mask;
    var c := WithMaskBit(b);
    SameHead(b, Endpoint.MAX_MESSAGE);
    var h := ParseHead(b, Endpoint.MAX_MESSAGE);
    if h.Head? && h.offset + 4 + h.length <= |b| {
      assert b[h.offset..h.offset + 4] == c[h.offset..h.offset + 4];
      assert b[h.offset + 4..h.offset + 4 + h.length] == c[h.offset + 4..h.offset + 4 + h.length];
    }
  }

  lemma SameHead(b: Bytes, limit: nat)
    requires |b| >= 2 && !Masked(b[1])
    ensures Masked(WithMaskBit(b)[1]) && ParseHead(WithMaskBit(b), limit) == ParseHead(b, limit)
  {
    var c := WithMaskBit(b);
    assert Length7(c[1]) == Length7(b[1]);
    if |b| >= 4 { assert U16(c, 2) == U16(b, 2); }
    if |b| >= 10 { assert U32(c, 2) == U32(b, 2) && U32(c, 6) == U32(b, 6); }
  }

  /** An open session whose effects a trace records. */
  predicate Records(s: Endpoint.State, t: Trace) {
    !s.closed && Trace(s.log, s.writes, s.delivered) == t
  }

  lemma SendRecords(env: Endpoint.Environment, s: Endpoint.State, t: Trace, frame: Bytes)
    requires Records(s, t) && !env.socket(s.writes).Raises?
    ensures var s' := Endpoint.SendRaw(env, s, frame);
            Records(s', Write(env, t, frame)) && s'.buffer == s.buffer && s'.asm == s.asm
  {
  }

  lemma {:induction false} ActAllRecords(env: Endpoint.Environment, s: Endpoint.State, t: Trace,
                                         actions: seq<Endpoint.Action>)
    requires (forall n :: !env.socket(n).Raises?) && OnlySends(actions) && Records(s, t)
    ensures var s' := Endpoint.ActAll(env, s, actions);
            Records(s', WriteTexts(env, t, actions)) && s'.buffer == s.buffer && s'.asm == s.asm
  {
    hide EncodeFrame, Records, Endpoint.SendRaw, Write;
    if actions != [] {
      var init, a := actions[..|actions| - 1], actions[|actions| - 1];
      ActAllRecords(env, s, t, init);
      assert a in actions;
      if |a.text| < FOUR_GIB {
        assert !env.socket(Endpoint.ActAll(env, s, init).writes).Raises?;
        SendRecords(env, Endpoint.ActAll(env, s, init), WriteTexts(env, t, init), EncodeFrame(TEXT, a.text, true));
      }
    }
  }

  lemma DeliverRecords(env: Endpoint.Environment, s: Endpoint.State, t: Trace, text: Bytes)
    requires Calm(env) && Records(s, t)
    ensures var s' := Endpoint.Deliver(env, s, text);
            Records(s', React(env, t, text)) && s'.buffer == s.buffer && s'.asm == s.asm
  {
    hide Endpoint.ActAll, WriteTexts;
    var reaction := env.react(s.delivered, text);
    assert CalmReaction(reaction);
    var s1 := s.(delivered := s.delivered + 1, log := s.log + [Endpoint.Delivered(text)]);
    var t1 := Trace(s1.log, s1.writes, s1.delivered);
    ActAllRecords(env, s1, t1, reaction.actions);
    if reaction.onError.Some? {
      var s2, t2 := Endpoint.ActAll(env, s1, reaction.actions), WriteTexts(env, t1, reaction.actions);
      ActAllRecords(env, s2.(log := s2.log + [Endpoint.Errored]), t2.(log := t2.log + [Endpoint.Errored]),
                    reaction.onError.value);
    }
  }

  lemma CloseCloses(env: Endpoint.Environment, s: Endpoint.State, code: nat, reason: Bytes)
    ensures Endpoint.CloseWith(env, s, code, reason).closed
  {
  }

  lemma HandleFollows(env: Endpoint.Environment, s: Endpoint.State, d: Decoder, f: Frame)
    requires Calm(env) && Follows(env, s, d) && |f.payload| < FOUR_GIB
    ensures var ok := !f.HasRsv1() && f.Op() != CLOSE && !Endpoint.TooMuch(d.asm, f);
            Endpoint.Handle(env, s, f).closed == !ok && (ok ==> Follows(env, Endpoint.Handle(env, s, f), Feed(d, f)))
  {
    var t := AnswerAll(env, d.events);
    AnswerAllAppend(env, d.events, Completed(d.asm, f));
    hide EncodeFrame, Endpoint.EncodeClose, AnswerAll, Endpoint.CloseWith, Endpoint.Deliver, Endpoint.SendRaw, React,
         Write, Joined;
    if f.HasRsv1() {
      CloseCloses(env, s, Endpoint.PROTOCOL_ERROR, Endpoint.RSV1_REASON);
    } else if f.Op() == CLOSE {
    } else if f.Op() == PING {
      assert !env.socket(s.writes).Raises?;
      SendRecords(env, s, t, EncodeFrame(PONG, f.payload, true));
    } else if Endpoint.TooMuch(d.asm, f) {
      CloseCloses(env, s.(asm := Idle), Endpoint.TOO_BIG, Endpoint.TOO_BIG_REASON);
    } else {
      var s1 := s.(asm := NextAssembly(s.asm, f));
      var text := Endpoint.TextOf(s.asm, f);
      if text != [] { DeliverRecords(env, s1, t, text[0]); }
    }
  }

  lemma {:induction false} DrainFollows(env: Endpoint.Environment, s: Endpoint.State, d: Decoder)
    requires Calm(env) && Follows(env, s, d) && MaskedThroughout(s.buffer)
    ensures Endpoint.Drain(env, s).closed == !Acceptable(s.asm, s.buffer)
    ensures Acceptable(s.asm, s.buffer) ==> Follows(env, Endpoint.Drain(env, s), Run(d))
    decreases |s.buffer|
  {
    CutsTheSame(s.buffer);
    ParseLimits(s.buffer, Endpoint.MAX_MESSAGE, NO_LIMIT);
    hide ParseFrame, Endpoint.CutFrame, Endpoint.Handle;
    match ParseFrame(s.buffer, Endpoint.MAX_MESSAGE)
    case Parsed(f) =>
      var rest := s.buffer[|f.wire|..];
      var s1, d1 := s.(buffer := rest), d.(rest := rest);
      HandleFollows(env, s1, d1, f);
      var s2 := Endpoint.Handle(env, s1, f);
      if !s2.closed {
        assert Feed(d1, f) == Feed(d, f).(rest := rest);
        DrainFollows(env, s2, Feed(d1, f));
      }
    case _ =>
  }

  lemma {:induction false} AcceptableSplit(d: Decoder, more: Bytes)
    ensures Acceptable(d.asm, d.rest + more)
            <==> Acceptable(d.asm, d.rest) && Acceptable(Run(d).asm, Run(d).rest + more)
    decreases |d.rest|
  {
    ParseLimits(d.rest, Endpoint.MAX_MESSAGE, NO_LIMIT);
    if !ParseFrame(d.rest, Endpoint.MAX_MESSAGE).Incomplete? { ParseExtends(d.rest, more, Endpoint.MAX_MESSAGE); }
    hide ParseFrame, Endpoint.TooMuch;
    match ParseFrame(d.rest, Endpoint.MAX_MESSAGE)
    case Parsed(f) =>
      assert (d.rest + more)[|f.wire|..] == d.rest[|f.wire|..] + more;
      AcceptableSplit(Feed(d, f).(rest := d.rest[|f.wire|..]), more);
    case _ =>
  }

  lemma {:induction false} MaskedSplit(d: Decoder, more: Bytes)
    requires MaskedThroughout(d.rest + more)
    ensures MaskedThroughout(d.rest) && MaskedThroughout(Run(d).rest + more)
    decreases |d.rest|
  {
    hide ParseFrame, Feed;
    NeverOversized(d.rest);
    if |d.rest| >= 2 { assert (d.rest + more)[1] == d.rest[1]; }
    if ParseFrame(d.rest, NO_LIMIT).Parsed? {
      ParseExtends(d.rest, more, NO_LIMIT);
      var f := ParseFrame(d.rest, NO_LIMIT).frame;
      assert (d.rest + more)[|f.wire|..] == d.rest[|f.wire|..] + more;
      MaskedSplit(Feed(d, f).(rest := d.rest[|f.wire|..]), more);
    }
  }

  /** No single chunk makes the endpoint's buffer exceed its cap. */
  predicate BufferKept(chunks: seq<Bytes>) {
    chunks == [] ||
    (var before, chunk := chunks[..|chunks| - 1], chunks[|chunks| - 1];
     BufferKept(before) && |Decode(Joined(before)).rest| + |chunk| <= Endpoint.MAX_MESSAGE + 14)
  }

  function Chunks(chunks: seq<Bytes>): (ops: seq<Endpoint.Operation>)
    ensures |ops| == |chunks|
  {
    seq(|chunks|, i requires 0 <= i < |chunks| => Endpoint.Chunk(chunks[i]))
  }

  /**
    On a masked stream, with a socket and a handler that do not end the session and within the buffer cap,
    the endpoint stays open exactly when the stream is acceptable, and then it has done what the decoded
    events call for: each text delivered once, each ping answered by one pong with the same payload (as far
    as the socket is writable), in order, between whatever the handler sends.
   */
  lemma {:induction false} EndpointRefinesDecoder(env: Endpoint.Environment, chunks: seq<Bytes>)
    requires Calm(env) && BufferKept(chunks) && MaskedThroughout(Joined(chunks))
    ensures Endpoint.Execute(env, Chunks(chunks)).closed == !Acceptable(Idle, Joined(chunks))
    ensures Acceptable(Idle, Joined(chunks))
            ==> Follows(env, Endpoint.Execute(env, Chunks(chunks)), Decode(Joined(chunks)))
  {
    if chunks == [] {
      assert ParseFrame([], NO_LIMIT).Incomplete?;
      assert Run(FRESH) == FRESH;
    } else {
      var before, chunk := chunks[..|chunks| - 1], chunks[|chunks| - 1];
      var w := Joined(before);
      assert Chunks(chunks)[..|before|] == Chunks(before);
      var whole := FRESH.(rest := w);
      assert [] + w == w;
      MaskedSplit(whole, chunk);
      AcceptableSplit(whole, chunk);
      EndpointRefinesDecoder(env, before);
      DecodeMore(w, chunk);
      var s, d := Endpoint.Execute(env, Chunks(before)), Decode(w);
      if Acceptable(Idle, w) {
        RunSettles(whole);
        assert Run(d) == d;
        if chunk == [] {
          assert d.rest + [] == d.rest && w + [] == w;
          AcceptableSplit(whole, []);
        } else {
          DrainFollows(env, s.(buffer := s.buffer + chunk), d.(rest := d.rest + chunk));
        }
      }
    }
  }

  // ---------------------------------------------------------------------------------------------
  // Agreement
  // ---------------------------------------------------------------------------------------------

  /** The texts of some events: what both parsers are there to find. */
  function Texts(events: seq<Event>): seq<Bytes> {
    if events == [] then []
    else
      var e := events[|events| - 1];
      Texts(events[..|events| - 1]) + (if e.Message? && e.opcode == TEXT then [e.payload] else [])
  }

  function Deliveries(log: seq<Endpoint.Effect>): seq<Bytes> {
    if log == [] then []
    else
      var e := log[|log| - 1];
      Deliveries(log[..|log| - 1]) + (if e.Delivered? then [e.text] else [])
  }

  function Reports(log: seq<Sniffer.Observation>): seq<Bytes> {
    if log == [] then []
    else
      var e := log[|log| - 1];
      Reports(log[..|log| - 1]) + (if e.Text? then [e.payload] else [])
  }

  lemma {:induction false} ReportsAppend(a: seq<Sniffer.Observation>, b: seq<Sniffer.Observation>)
    ensures Reports(a + b) == Reports(a) + Reports(b)
  {
    if b == [] {
      assert a + b == a;
    } else {
      assert (a + b)[..|a + b| - 1] == a + b[..|b| - 1];
      ReportsAppend(a, b[..|b| - 1]);
    }
  }

  lemma OneDelivery(log: seq<Endpoint.Effect>, e: Endpoint.Effect)
    ensures Deliveries(log + [e]) == Deliveries(log) + (if e.Delivered? then [e.text] else [])
  {
    assert (log + [e])[..|log|] == log;
  }

  lemma {:induction false} WritesDeliverNothing(env: Endpoint.Environment, t: Trace, actions: seq<Endpoint.Action>)
    ensures Deliveries(WriteTexts(env, t, actions).log) == Deliveries(t.log)
  {
    hide EncodeFrame, Deliveries;
    if actions != [] {
      var before, a := WriteTexts(env, t, actions[..|actions| - 1]), actions[|actions| - 1];
      WritesDeliverNothing(env, t, actions[..|actions| - 1]);
      if a.SendText? && |a.text| < FOUR_GIB {
        OneDelivery(before.log, Endpoint.Wrote(EncodeFrame(TEXT, a.text, true)));
      }
    }
  }

  lemma ReactDelivers(env: Endpoint.Environment, t: Trace, text: Bytes)
    ensures Deliveries(React(env, t, text).log) == Deliveries(t.log) + [text]
  {
    hide Deliveries, WriteTexts;
    var reaction := env.react(t.delivered, text);
    var t1 := Trace(t.log + [Endpoint.Delivered(text)], t.writes, t.delivered + 1);
    OneDelivery(t.log, Endpoint.Delivered(text));
    WritesDeliverNothing(env, t1, reaction.actions);
    if reaction.onError.Some? {
      var done := WriteTexts(env, t1, reaction.actions);
      OneDelivery(done.log, Endpoint.Errored);
      WritesDeliverNothing(env, done.(log := done.log + [Endpoint.Errored]), reaction.onError.value);
    }
  }

  /** Each text is delivered once, in order, whatever the handler does. */
  lemma {:induction false} DeliveredTexts(env: Endpoint.Environment, events: seq<Event>)
    ensures Deliveries(AnswerAll(env, events).log) == Texts(events)
  {
    hide EncodeFrame, React, Deliveries;
    if events == [] {
      NothingDelivered();
    } else {
      var t, e := AnswerAll(env, events[..|events| - 1]), events[|events| - 1];
      DeliveredTexts(env, events[..|events| - 1]);
      if e.Control? {
        OneDelivery(t.log, Endpoint.Wrote(EncodeFrame(PONG, if |e.payload| < FOUR_GIB then e.payload else [], true)));
      } else if e.opcode == TEXT {
        ReactDelivers(env, t, e.payload);
      }
    }
  }

  lemma NothingDelivered()
    ensures Deliveries([]) == []
  {
  }

  /** The pongs among the frames written. */
  function Pongs(log: seq<Endpoint.Effect>): seq<Bytes> {
    if log == [] then []
    else
      var e := log[|log| - 1];
      Pongs(log[..|log| - 1]) + (if e.Wrote? && e.frame != [] && e.frame[0] == 0x80 + PONG then [e.frame] else [])
  }

  /** What answers the pings of some events. */
  function PongsFor(events: seq<Event>): seq<Bytes> {
    if events == [] then []
    else
      var e := events[|events| - 1];
      PongsFor(events[..|events| - 1]) +
      (if e.Control? && Opcode(e.b0) == PING && |e.payload| < FOUR_GIB
       then [EncodeFrame(PONG, e.payload, true)] else [])
  }

  lemma OnePong(log: seq<Endpoint.Effect>, e: Endpoint.Effect)
    ensures Pongs(log + [e])
            == Pongs(log) + (if e.Wrote? && e.frame != [] && e.frame[0] == 0x80 + PONG then [e.frame] else [])
  {
    assert (log + [e])[..|log|] == log;
  }

  lemma FirstByte(opcode: nat, payload: Bytes)
    requires |payload| < FOUR_GIB && opcode < 16
    ensures EncodeFrame(opcode, payload, true) != [] && EncodeFrame(opcode, payload, true)[0] == 0x80 + opcode
  {
  }

  lemma {:induction false} TextsAreNoPongs(env: Endpoint.Environment, t: Trace, actions: seq<Endpoint.Action>)
    ensures Pongs(WriteTexts(env, t, actions).log) == Pongs(t.log)
  {
    hide EncodeFrame, Pongs;
    if actions != [] {
      var before, a := WriteTexts(env, t, actions[..|actions| - 1]), actions[|actions| - 1];
      TextsAreNoPongs(env, t, actions[..|actions| - 1]);
      if a.SendText? && |a.text| < FOUR_GIB {
        FirstByte(TEXT, a.text);
        OnePong(before.log, Endpoint.Wrote(EncodeFrame(TEXT, a.text, true)));
      }
    }
  }

  lemma ReactionIsNoPong(env: Endpoint.Environment, t: Trace, text: Bytes)
    ensures Pongs(React(env, t, text).log) == Pongs(t.log)
  {
    hide Pongs, WriteTexts;
    var reaction := env.react(t.delivered, text);
    var t1 := Trace(t.log + [Endpoint.Delivered(text)], t.writes, t.delivered + 1);
    OnePong(t.log, Endpoint.Delivered(text));
    TextsAreNoPongs(env, t1, reaction.actions);
    if reaction.onError.Some? {
      var done := WriteTexts(env, t1, reaction.actions);
      OnePong(done.log, Endpoint.Errored);
      TextsAreNoPongs(env, done.(log := done.log + [Endpoint.Errored]), reaction.onError.value);
    }
  }

  /** On a writable socket every ping is answered by one pong with its payload, in order, and there is no other pong. */
  lemma {:induction false} PingsAnswered(env: Endpoint.Environment, events: seq<Event>)
    requires forall n :: env.socket(n).Accepted?
    ensures Pongs(AnswerAll(env, events).log) == PongsFor(events)
  {
    hide EncodeFrame, React, Pongs;
    if events == [] {
      NoPong();
    } else {
      var t, e := AnswerAll(env, events[..|events| - 1]), events[|events| - 1];
      PingsAnswered(env, events[..|events| - 1]);
      if e.Control? {
        if Opcode(e.b0) == PING && |e.payload| < FOUR_GIB {
          FirstByte(PONG, e.payload);
          OnePong(t.log, Endpoint.Wrote(EncodeFrame(PONG, e.payload, true)));
        }
      } else if e.opcode == TEXT {
        ReactionIsNoPong(env, t, e.payload);
      }
    }
  }

  lemma NoPong()
    ensures Pongs([]) == []
  {
  }

  lemma ReportedText(fails: Sniffer.Handler, n: nat, e: Event)
    requires e.Message? ==> !e.compressed
    ensures Reports(Sniffer.Reported(e, n, fails)) == if e.Message? && e.opcode == TEXT then [e.payload] else []
  {
    var more := Sniffer.Reported(e, n, fails);
    if |more| == 1 {
      assert more[..0] == [];
    } else if |more| == 2 {
      assert more[..1][..0] == [] && Reports(more[..1]) == [] + [e.payload];
    }
  }

  lemma {:induction false} ReportedTexts(fails: Sniffer.Handler, events: seq<Event>)
    requires forall i :: 0 <= i < |events| && events[i].Message? ==> !events[i].compressed
    ensures Reports(Sniffer.ReportedAll(events, fails)) == Texts(events)
  {
    hide Sniffer.Reported;
    if events != [] {
      hide Reports;
      var init, e := events[..|events| - 1], events[|events| - 1];
      ReportedTexts(fails, init);
      var n := Sniffer.ReportCount(init);
      ReportedText(fails, n, e);
      ReportsAppend(Sniffer.ReportedAll(init, fails), Sniffer.Reported(e, n, fails));
    }
  }

  /** The endpoint's limits are the stricter ones. */
  lemma {:induction false} AcceptableFits(asm: Assembly, b: Bytes)
    requires Acceptable(asm, b)
    ensures Sniffer.Fits(asm, b)
    decreases |b|
  {
    ParseLimits(b, Endpoint.MAX_MESSAGE, Sniffer.MAX_MESSAGE);
    match ParseFrame(b, Endpoint.MAX_MESSAGE)
    case Parsed(f) => AcceptableFits(NextAssembly(asm, f), b[|f.wire|..]);
    case _ =>
  }

  /**
    The two parsers agree on the texts, each with its own chunking of one stream and its own handler;
    they also stand at the same unfinished message and hold the same unparsed bytes.
   */
  lemma ParsersAgree(env: Endpoint.Environment, fails: Sniffer.Handler, a: seq<Bytes>, b: seq<Bytes>)
    requires Joined(a) == Joined(b) && MaskedThroughout(Joined(a)) && Acceptable(Idle, Joined(a))
    requires Calm(env) && BufferKept(a) && Sniffer.BufferKept(b)
    ensures var e, s := Endpoint.Execute(env, Chunks(a)), Sniffer.PushAll(b, fails);
            !e.closed && Deliveries(e.log) == Reports(s.log) && e.buffer == s.buffer && e.asm == s.asm
  {
    var events := Decode(Joined(a)).events;
    EndpointRefinesDecoder(env, a);
    AcceptableFits(Idle, Joined(a));
    Sniffer.SnifferRefinesDecoder(b, fails);
    DeliveredTexts(env, events);
    ReportedTexts(fails, events);
  }
}
