/**
  When the rewriter gives up: it falls back to raw forwarding exactly when a size limit is broken, and a
  rewriter that fails closed refuses exactly the streams that it cannot check or that a callback stops.
 */
module WsLimits {
  import opened WsFrame
  import opened WsStream
  import opened WsRewriter
  import opened WsRewriting
  import opened WsValidation
  import opened Options

  const SIXTEEN_MIB: nat := 16_777_216

  /** What frames that are kept back occupy: their bytes on the wire and their plain payloads. */
  function Weight(frames: seq<Frame>): nat {
    if frames == [] then 0 else |frames[0].wire| + |frames[0].payload| + Weight(frames[1..])
  }

  predicate TooHeavy(frames: seq<Frame>) { |frames| > 4096 || Weight(frames) > SIXTEEN_MIB }

  /** The frames of the plain text message under way, from its first one. */
  function NextHeld(held: seq<Frame>, f: Frame): seq<Frame> {
    if f.IsControl() then if f.Op() == CLOSE then [] else held
    else if f.Op() == CONTINUATION then if held == [] || f.IsFin() then [] else held + [f]
    else if f.IsFin() || f.Op() != TEXT || f.HasRsv1() then held
    else held + [f]
  }

  /** The frame opens or continues a text message, which it makes too heavy to be kept back. */
  predicate Overflows(held: seq<Frame>, f: Frame) {
    && !f.IsControl()
    && ((f.Op() == CONTINUATION && held != []) || (f.Op() == TEXT && !f.IsFin() && !f.HasRsv1()))
    && TooHeavy(held + [f])
  }

  function HeldAfter(held: seq<Frame>, b: Bytes): seq<Frame>
    decreases |b|
  {
    match ParseFrame(b, NO_LIMIT)
    case Parsed(f) => HeldAfter(NextHeld(held, f), b[|f.wire|..])
    case _ => held
  }

  /** Some frame of the stream is announced too long, or makes a text message too heavy. */
  predicate Overlarge(held: seq<Frame>, b: Bytes)
    decreases |b|
  {
    match ParseFrame(b, SIXTEEN_MIB)
    case Incomplete => false
    case Oversized => true
    case Parsed(f) => Overflows(held, f) || Overlarge(NextHeld(held, f), b[|f.wire|..])
  }

  /** Some chunk, with the unfinished frame before it, exceeds the buffer. */
  predicate CapBroken(ops: seq<Operation>) {
    ops != [] &&
    (var init, op := ops[..|ops| - 1], ops[|ops| - 1];
     CapBroken(init) || (op.Chunk? && op.bytes != [] && |Decode(Input(init)).rest| + |op.bytes| > SIXTEEN_MIB))
  }

  lemma {:induction false} WeightMore(frames: seq<Frame>, f: Frame)
    ensures Weight(frames + [f]) == Weight(frames) + |f.wire| + |f.payload|
  {
    if frames == [] {
      assert frames + [f] == [f];
    } else {
      assert (frames + [f])[1..] == frames[1..] + [f];
      WeightMore(frames[1..], f);
    }
  }

  lemma {:induction false} WeightIsKept(held: seq<Frame>)
    ensures Weight(held) == HeldBytes(held)
  {
    if held != [] {
      var init, last := held[..|held| - 1], held[|held| - 1];
      WeightIsKept(init);
      WeightMore(init, last);
      assert held == init + [last];
    }
  }

  lemma HeavyIsOverflow(held: seq<Frame>, f: Frame)
    ensures TooHeavy(held + [f]) <==> WouldOverflow(held, f)
  {
    hide Weight, HeldBytes;
    WeightIsKept(held);
    WeightMore(held, f);
  }

  // ---- Streams cut in two ----

  lemma HeldUnfolds(held: seq<Frame>, b: Bytes)
    ensures var p := ParseFrame(b, NO_LIMIT);
            HeldAfter(held, b) == if p.Parsed? then HeldAfter(NextHeld(held, p.frame), b[|p.frame.wire|..]) else held
  {
    hide ParseFrame, NextHeld;
  }

  lemma OverlargeUnfolds(held: seq<Frame>, b: Bytes)
    ensures var p := ParseFrame(b, SIXTEEN_MIB);
            Overlarge(held, b) <==>
              p.Oversized? || (p.Parsed? && (Overflows(held, p.frame)
                                             || Overlarge(NextHeld(held, p.frame), b[|p.frame.wire|..])))
  {
    hide ParseFrame, NextHeld, Overflows;
  }

  lemma {:induction false} OverlargeSplit(held: seq<Frame>, d: Decoder, more: Bytes)
    ensures Overlarge(held, d.rest) ==> Overlarge(held, d.rest + more)
    ensures !Overlarge(held, d.rest) ==>
              && HeldAfter(held, d.rest + more) == HeldAfter(HeldAfter(held, d.rest), Run(d).rest + more)
              && (Overlarge(held, d.rest + more) <==> Overlarge(HeldAfter(held, d.rest), Run(d).rest + more))
    decreases |d.rest|
  {
    hide ParseFrame, NextHeld, Overflows, Overlarge, HeldAfter, Run;
    var b, p := d.rest, ParseFrame(d.rest, SIXTEEN_MIB);
    ParseLimits(b, SIXTEEN_MIB, NO_LIMIT);
    OverlargeUnfolds(held, b);
    OverlargeUnfolds(held, b + more);
    HeldUnfolds(held, b);
    HeldUnfolds(held, b + more);
    RunUnfolds(d);
    if !p.Incomplete? {
      ParseExtends(b, more, SIXTEEN_MIB);
    }
    if p.Parsed? {
      ParseExtends(b, more, NO_LIMIT);
      var f := p.frame;
      assert (b + more)[|f.wire|..] == b[|f.wire|..] + more;
      OverlargeSplit(NextHeld(held, f), Feed(d.(rest := b[|f.wire|..]), f), more);
    }
  }

  // ---- Bypass ----

  /** One frame of a well-formed stream: parsing stops exactly on an overflow. */
  lemma HandleLimits(cfg: Config, d: Decoder, o: Decoder, s: State, f: Frame)
    requires Following(cfg, d, o, s) && FrameOk(d.asm, f) && cfg.rewrite.Some? && !cfg.failClosed
    requires Handle(cfg, s, f).Success?
    ensures var step := Handle(cfg, s, f).value;
            && (step.stop <==> Overflows(s.held, f)) && step.state.bypass == step.stop
            && (!step.stop ==> step.state.held == NextHeld(s.held, f))
  {
    hide ParseFrame, Mapped, TextCount, WouldOverflow, TooHeavy, Emit;
    HeavyIsOverflow(s.held, f);
    EmitKeeps(cfg, s, f.payload);
    EmitKeeps(cfg, ResetFragment(s), Joined(Payloads(s.held + [f])));
  }

  lemma EmitKeeps(cfg: Config, s: State, text: Bytes)
    ensures Emit(cfg, s, text).Success? ==>
              !Emit(cfg, s, text).value.stop && Emit(cfg, s, text).value.state == s.(used := s.used + 1)
  {
  }

  lemma {:induction false} DrainLimits(cfg: Config, d: Decoder, o: Decoder, s: State)
    requires Following(cfg, d, o, s) && WellFormed(d.asm, d.rest) && cfg.rewrite.Some? && !cfg.failClosed
    requires Drain(cfg, s).Success?
    ensures Drain(cfg, s).value.state.bypass <==> Overlarge(s.held, s.buffer)
    ensures !Drain(cfg, s).value.state.bypass ==> Drain(cfg, s).value.state.held == HeldAfter(s.held, s.buffer)
    decreases |s.buffer|
  {
    hide ParseFrame, Handle, Drain, Overlarge, HeldAfter, NextHeld, Overflows, Mapped, TextCount, HeldFrames, Flush,
         Feed;
    ParseLimits(s.buffer, MAX_FRAME, NO_LIMIT);
    WsRewriter.DrainUnfolds(cfg, s);
    OverlargeUnfolds(s.held, s.buffer);
    HeldUnfolds(s.held, s.buffer);
    match ParseFrame(s.buffer, MAX_FRAME)
    case Incomplete =>
    case Oversized => FlushClears(s);
    case Parsed(f) =>
      FrameOfPrefix(s.buffer, f.wire, MAX_FRAME);
      var rest := s.buffer[|f.wire|..];
      var s1, d1 := s.(buffer := rest), d.(rest := rest);
      HandleLimits(cfg, d1, o, s1, f);
      var step := Handle(cfg, s1, f).value;
      if !step.stop {
        HandleFollows(cfg, d1, o, s1, f);
        FeedKeepsRest(d1, f);
        DrainLimits(cfg, Feed(d1, f), Receive(o, Wire(step.items)), step.state);
      }
  }

  lemma FeedKeepsRest(d: Decoder, f: Frame)
    ensures Feed(d, f).rest == d.rest && Feed(d, f).asm == NextAssembly(d.asm, f)
  {
  }

  lemma PushLimits(cfg: Config, d: Decoder, o: Decoder, s: State, chunk: Bytes)
    requires Following(cfg, d, o, s) && WellFormed(d.asm, d.rest + chunk) && cfg.rewrite.Some? && !cfg.failClosed
    requires chunk != [] && Push(cfg, s, chunk).Success?
    ensures var s' := Push(cfg, s, chunk).value.state;
            && (s'.bypass <==> |d.rest| + |chunk| > SIXTEEN_MIB || Overlarge(s.held, d.rest + chunk))
            && (!s'.bypass ==> s'.held == HeldAfter(s.held, d.rest + chunk))
  {
    hide ParseFrame, Drain, Overlarge, HeldAfter, Mapped, TextCount, HeldFrames, Flush, WellFormed;
    var d1, s1 := d.(rest := d.rest + chunk), s.(buffer := s.buffer + chunk);
    assert Following(cfg, d1, o, s1);
    if |s1.buffer| > MAX_BUFFER {
      FlushClears(s1);
    } else {
      DrainLimits(cfg, d1, o, s1);
    }
  }

  /**
    Without validation the rewriter gives up only when it must.  For every well-formed client stream, every
    chunking and all callbacks: it has entered bypass if and only if some chunk made its buffer exceed
    16 MiB, some frame was announced with more than 16 MiB, or some fragmented text took more than 4096
    frames or more than 16 MiB; until then it keeps back exactly the text under way.
   */
  lemma {:induction false} BypassExactly(cfg: Config, ops: seq<Operation>)
    requires cfg.rewrite.Some? && !cfg.failClosed && (forall op <- ops :: op.Chunk?)
    requires WellFormed(Idle, Input(ops)) && Execute(cfg, ops).Success?
    ensures var s := Execute(cfg, ops).value.state;
            && (s.bypass <==> CapBroken(ops) || Overlarge([], Input(ops)))
            && (!s.bypass ==> s.held == HeldAfter([], Input(ops)))
  {
    hide ParseFrame, Drain, Push, Mapped, TextCount, Flush, WellFormed, Run, Mirrored, Overlarge, HeldAfter, Cut;
    if ops == [] {
      NothingHeld();
    } else {
      var before, op := ops[..|ops| - 1], ops[|ops| - 1];
      assert op in ops;
      var w, chunk := Input(before), op.bytes;
      var whole := FRESH.(rest := w);
      assert [] + w == w && [] + (w + chunk) == w + chunk;
      WellFormedSplit(whole, chunk);
      BypassExactly(cfg, before);
      OverlargeSplit([], whole, chunk);
      var r := Execute(cfg, before).value;
      if r.state.bypass {
        BypassStays(cfg, r.state, chunk);
      } else if chunk == [] {
        PushNothing(cfg, r.state);
        assert w + [] == w;
      } else {
        RewritingPreservesMeaning(cfg, before);
        PushLimits(cfg, Decode(w), Decode(Wire(r.items)), r.state, chunk);
      }
    }
  }

  lemma NothingHeld()
    ensures !Overlarge([], []) && HeldAfter([], []) == []
  {
    assert ParseFrame([], NO_LIMIT).Incomplete? && ParseFrame([], SIXTEEN_MIB).Incomplete?;
  }

  lemma BypassStays(cfg: Config, s: State, chunk: Bytes)
    requires s.bypass && Push(cfg, s, chunk).Success?
    ensures Push(cfg, s, chunk).value.state.bypass
  {
  }

  lemma PushNothing(cfg: Config, s: State)
    ensures Push(cfg, s, []) == Success(Step(s, [], false))
  {
  }

  /**
    A message that cannot be rewritten goes out frame by frame: from a masked first fragment that is compressed,
    no text, or not to be rewritten, to the next final frame that continues it or is a text or binary frame,
    well-formed or not; what is kept back of another text meanwhile stays so.
   */
  lemma ForwardingSpan(cfg: Config, s: State, f: Frame)
    requires !cfg.failClosed && f.masked && !f.IsControl() && Handle(cfg, s, f).Success?
    ensures var step := Handle(cfg, s, f).value;
            && (s.passthrough ==>
                  && step.items == [Raw(f.wire)] && step.state.held == s.held
                  && (step.state.passthrough <==> !(f.IsFin() && f.Op() in {0, 1, 2})))
            && (!s.passthrough ==>
                  (step.state.passthrough <==>
                     !f.IsFin() && f.Op() != 0 && (f.HasRsv1() || f.Op() != 1 || cfg.rewrite.None?)))
  {
    hide WouldOverflow, FateOf, EncodeMaskedText;
  }

  // ---- Refusal ----

  /** A data frame that fail-closed mode does not take: it could hide a text from the validation. */
  predicate Unfit(held: seq<Frame>, f: Frame) {
    && !f.IsControl()
    && (|| !f.masked || Rsv(f.b0) != 0 || (f.Op() != TEXT && f.Op() != CONTINUATION)
        || (f.Op() == CONTINUATION && held == []) || Overflows(held, f))
  }

  /** The text that the frame completes. */
  function Ending(held: seq<Frame>, f: Frame): seq<Bytes> {
    if f.IsControl() || !f.IsFin() then []
    else if f.Op() == CONTINUATION then [Joined(Payloads(held + [f]))]
    else [f.payload]
  }

  /** Some frame is too long or unfit, or completes a text, the n-th or a later one, on which the push fails. */
  predicate Refused(cfg: Config, held: seq<Frame>, n: nat, b: Bytes)
    decreases |b|
  {
    match ParseFrame(b, SIXTEEN_MIB)
    case Incomplete => false
    case Oversized => true
    case Parsed(f) =>
      || Unfit(held, f)
      || (Ending(held, f) != [] && FailsPush(cfg, n, Ending(held, f)[0]))
      || Refused(cfg, NextHeld(held, f), n + |Ending(held, f)|, b[|f.wire|..])
  }

  function EndingsAfter(held: seq<Frame>, b: Bytes): nat
    decreases |b|
  {
    match ParseFrame(b, NO_LIMIT)
    case Parsed(f) => |Ending(held, f)| + EndingsAfter(NextHeld(held, f), b[|f.wire|..])
    case _ => 0
  }

  lemma RefusedUnfolds(cfg: Config, held: seq<Frame>, n: nat, b: Bytes)
    ensures var p := ParseFrame(b, SIXTEEN_MIB);
            Refused(cfg, held, n, b) <==>
              || p.Oversized?
              || (p.Parsed? &&
                  (var f := p.frame;
                   || Unfit(held, f)
                   || (Ending(held, f) != [] && FailsPush(cfg, n, Ending(held, f)[0]))
                   || Refused(cfg, NextHeld(held, f), n + |Ending(held, f)|, b[|f.wire|..])))
  {
    hide ParseFrame, NextHeld, Unfit, Ending, FailsPush;
  }

  lemma EndingsUnfold(held: seq<Frame>, b: Bytes)
    ensures var p := ParseFrame(b, NO_LIMIT);
            EndingsAfter(held, b)
            == if p.Parsed? then
                 |Ending(held, p.frame)| + EndingsAfter(NextHeld(held, p.frame), b[|p.frame.wire|..])
               else 0
  {
    hide ParseFrame, NextHeld, Ending;
  }

  lemma {:induction false} RefusedSplit(cfg: Config, held: seq<Frame>, n: nat, d: Decoder, more: Bytes)
    ensures Refused(cfg, held, n, d.rest) ==> Refused(cfg, held, n, d.rest + more)
    ensures !Refused(cfg, held, n, d.rest) ==>
              var held', n', rest := HeldAfter(held, d.rest), n + EndingsAfter(held, d.rest), Run(d).rest + more;
              && HeldAfter(held, d.rest + more) == HeldAfter(held', rest)
              && n + EndingsAfter(held, d.rest + more) == n' + EndingsAfter(held', rest)
              && (Refused(cfg, held, n, d.rest + more) <==> Refused(cfg, held', n', rest))
    decreases |d.rest|
  {
    hide ParseFrame, NextHeld, Unfit, Ending, FailsPush, Refused, EndingsAfter, HeldAfter, Run;
    var b, p := d.rest, ParseFrame(d.rest, SIXTEEN_MIB);
    ParseLimits(b, SIXTEEN_MIB, NO_LIMIT);
    RefusedUnfolds(cfg, held, n, b);
    RefusedUnfolds(cfg, held, n, b + more);
    HeldUnfolds(held, b);
    HeldUnfolds(held, b + more);
    EndingsUnfold(held, b);
    EndingsUnfold(held, b + more);
    RunUnfolds(d);
    if !p.Incomplete? {
      ParseExtends(b, more, SIXTEEN_MIB);
    }
    if p.Parsed? {
      ParseExtends(b, more, NO_LIMIT);
      var f := p.frame;
      assert (b + more)[|f.wire|..] == b[|f.wire|..] + more;
      RefusedSplit(cfg, NextHeld(held, f), n + |Ending(held, f)|, Feed(d.(rest := b[|f.wire|..]), f), more);
    }
  }

  predicate Watching(s: State) { !s.bypass && !s.passthrough }

  lemma HandleRefuses(cfg: Config, s: State, f: Frame)
    requires Guarded(cfg) && Watching(s)
    ensures Handle(cfg, s, f).Failure? <==>
              Unfit(s.held, f) || (Ending(s.held, f) != [] && FailsPush(cfg, s.used, Ending(s.held, f)[0]))
    ensures Handle(cfg, s, f).Success? ==>
              var step := Handle(cfg, s, f).value;
              && !step.stop && Watching(step.state) && step.state.held == NextHeld(s.held, f)
              && step.state.used == s.used + |Ending(s.held, f)| && step.state.buffer == s.buffer
  {
    hide WouldOverflow, TooHeavy, Emit, FailsPush, Decided, Payloads;
    HeavyIsOverflow(s.held, f);
    var whole := Joined(Payloads(s.held + [f]));
    EmitKeeps(cfg, s, f.payload);
    EmitKeeps(cfg, ResetFragment(s), whole);
    EmitDecides(cfg, s, f.payload);
    EmitDecides(cfg, ResetFragment(s), whole);
    ReservedBits(f);
  }

  lemma ReservedBits(f: Frame)
    ensures Rsv(f.b0) == 0 ==> !f.HasRsv1()
  {
  }

  lemma {:induction false} DrainRefuses(cfg: Config, s: State, d: Decoder)
    requires Guarded(cfg) && Watching(s) && d.rest == s.buffer
    ensures Drain(cfg, s).Failure? <==> Refused(cfg, s.held, s.used, s.buffer)
    ensures Drain(cfg, s).Success? ==>
              var s' := Drain(cfg, s).value.state;
              && Watching(s') && s'.held == HeldAfter(s.held, s.buffer)
              && s'.used == s.used + EndingsAfter(s.held, s.buffer) && s'.buffer == Run(d).rest
    decreases |s.buffer|
  {
    hide ParseFrame, Handle, Drain, Refused, EndingsAfter, HeldAfter, NextHeld, Unfit, Ending, FailsPush, Run, Flush;
    ParseLimits(s.buffer, MAX_FRAME, NO_LIMIT);
    WsRewriter.DrainUnfolds(cfg, s);
    RefusedUnfolds(cfg, s.held, s.used, s.buffer);
    HeldUnfolds(s.held, s.buffer);
    EndingsUnfold(s.held, s.buffer);
    RunUnfolds(d);
    if ParseFrame(s.buffer, MAX_FRAME).Parsed? {
      var f := ParseFrame(s.buffer, MAX_FRAME).frame;
      var rest := s.buffer[|f.wire|..];
      var s1 := s.(buffer := rest);
      HandleRefuses(cfg, s1, f);
      if Handle(cfg, s1, f).Success? {
        DrainRefuses(cfg, Handle(cfg, s1, f).value.state, Feed(d.(rest := rest), f));
      }
    }
  }

  lemma PushRefuses(cfg: Config, s: State, d: Decoder, chunk: Bytes)
    requires Guarded(cfg) && Watching(s) && s.buffer == d.rest && chunk != []
    ensures var rest := d.rest + chunk;
            && (Push(cfg, s, chunk).Failure? <==> |rest| > SIXTEEN_MIB || Refused(cfg, s.held, s.used, rest))
            && (Push(cfg, s, chunk).Success? ==>
                  var s' := Push(cfg, s, chunk).value.state;
                  && Watching(s') && s'.held == HeldAfter(s.held, rest) && s'.buffer == Receive(d, chunk).rest
                  && s'.used == s.used + EndingsAfter(s.held, rest))
  {
    hide Drain, Refused, EndingsAfter, HeldAfter, Run;
    DrainRefuses(cfg, s.(buffer := s.buffer + chunk), d.(rest := d.rest + chunk));
  }

  /**
    Fail-closed mode refuses exactly what it must.  For every byte stream, every chunking and all callbacks:
    a run without flush fails if and only if some chunk made the buffer exceed 16 MiB, or the stream has a
    frame over 16 MiB, a data frame that is unmasked, uses a reserved bit, is neither text nor continuation,
    continues nothing or makes a text too heavy, or a complete text on which the rewrite throws (or whose
    rewriting does not fit a frame) without the admission hook.
   */
  lemma {:induction false} RefusesExactly(cfg: Config, ops: seq<Operation>)
    requires Guarded(cfg) && forall op <- ops :: op.Chunk?
    ensures Execute(cfg, ops).Failure? <==> CapBroken(ops) || Refused(cfg, [], 0, Input(ops))
    ensures Execute(cfg, ops).Success? ==>
              var s := Execute(cfg, ops).value.state;
              && Watching(s) && s.held == HeldAfter([], Input(ops)) && s.buffer == Decode(Input(ops)).rest
              && s.used == EndingsAfter([], Input(ops))
  {
    hide Drain, Push, Run, Refused, EndingsAfter, HeldAfter, Watching;
    if ops == [] {
      NothingRefused(cfg);
    } else {
      var before, op := ops[..|ops| - 1], ops[|ops| - 1];
      assert op in ops;
      var w, chunk := Input(before), op.bytes;
      var whole := FRESH.(rest := w);
      assert [] + w == w && [] + (w + chunk) == w + chunk;
      RefusesExactly(cfg, before);
      RefusedSplit(cfg, [], 0, whole, chunk);
      DecodeMore(w, chunk);
      if Execute(cfg, before).Success? {
        var r := Execute(cfg, before).value;
        if chunk == [] {
          PushNothing(cfg, r.state);
          assert w + [] == w;
        } else {
          PushRefuses(cfg, r.state, Decode(w), chunk);
        }
      }
    }
  }

  lemma NothingRefused(cfg: Config)
    ensures Watching(INITIAL) && !Refused(cfg, [], 0, []) && HeldAfter([], []) == [] && EndingsAfter([], []) == 0
    ensures Decode([]).rest == []
  {
    assert ParseFrame([], NO_LIMIT).Incomplete? && ParseFrame([], SIXTEEN_MIB).Incomplete?;
    assert [] + [] == FRESH.rest;
  }
}
