/** The rewriter as the object the proxy holds, with its fragment accounting. */
module WsRewriterObject {
  import opened WsFrame
  import opened WsStream
  import opened WsRewriter
  import opened WsRewriting
  import opened WsEncoders
  import opened Options

  class ClientTextRewriter {
    const cfg: Config
    var buffer: Bytes
    var bypass: bool
    var passthroughFragment: bool
    var fragmentedOpcode: Option<nat>
    var fragmentedChunks: seq<Bytes>
    var fragmentedRawFrames: seq<Bytes>
    var fragmentedHeldBytes: nat
    var fragmentedFrameCount: nat
    var drawnKeys: nat
    ghost var held: seq<Frame>

    /** The separate fragment fields describe one sequence of held frames. */
    ghost predicate Consistent()
      reads this
    {
      && |fragmentedRawFrames| == |held| == fragmentedFrameCount
      && (forall i :: 0 <= i < |held| ==> fragmentedRawFrames[i] == held[i].wire)
      && fragmentedChunks == Payloads(held)
      && fragmentedHeldBytes == HeldBytes(held)
      && (fragmentedOpcode == if held == [] then None else Some(TEXT))
    }

    /** Between pushes the accounting is exact and within both limits. */
    ghost predicate Valid()
      reads this
    {
      Consistent() && fragmentedHeldBytes <= MAX_BUFFER && fragmentedFrameCount <= MAX_FRAGMENT_FRAMES
    }

    ghost function Model(): State
      reads this
    {
      State(buffer, bypass, passthroughFragment, held, drawnKeys)
    }

    constructor (cfg: Config)
      ensures Valid() && Model() == INITIAL && this.cfg == cfg
    {
      this.cfg := cfg;
      buffer, bypass, passthroughFragment, fragmentedOpcode := [], false, false, None;
      fragmentedChunks, fragmentedRawFrames, fragmentedHeldBytes, fragmentedFrameCount := [], [], 0, 0;
      drawnKeys, held := 0, [];
    }

    method ClearFragment()
      modifies this
      ensures Valid() && Model() == ResetFragment(old(Model()))
    {
      passthroughFragment, fragmentedOpcode := false, None;
      fragmentedChunks, fragmentedRawFrames, fragmentedHeldBytes, fragmentedFrameCount := [], [], 0, 0;
      held := [];
    }

    method FragmentWouldOverflow(rawFrame: Bytes, payload: Bytes) returns (overflow: bool)
      requires Consistent()
      ensures forall f: Frame :: f.wire == rawFrame && f.payload == payload ==> overflow == WouldOverflow(held, f)
    {
      var nextCount := fragmentedFrameCount + 1;
      var nextBytes := fragmentedHeldBytes + |rawFrame| + |payload|;
      overflow := nextCount > MAX_FRAGMENT_FRAMES || nextBytes > MAX_BUFFER;
    }

    method HoldFragmentFrame(f: Frame)
      requires Consistent()
      modifies this
      ensures Consistent() && Model() == old(Model()).(held := old(held) + [f])
      ensures fragmentedHeldBytes == old(fragmentedHeldBytes) + |f.wire| + |f.payload|
    {
      fragmentedRawFrames := fragmentedRawFrames + [f.wire];
      fragmentedChunks := fragmentedChunks + [f.payload];
      fragmentedFrameCount := fragmentedFrameCount + 1;
      fragmentedHeldBytes := fragmentedHeldBytes + |f.wire| + |f.payload|;
      fragmentedOpcode := Some(TEXT);
      assert (held + [f])[..|held|] == held;
      held := held + [f];
    }

    method FlushHeldRawFrames() returns (out: seq<Item>)
      requires Consistent()
      modifies this
      ensures Valid() && Model() == ResetFragment(old(Model())) && out == RawAll(old(held))
    {
      out := [];
      var i := 0;
      while i < |fragmentedRawFrames|
        invariant 0 <= i <= |fragmentedRawFrames| && Consistent() && Model() == old(Model())
        invariant out == RawAll(held)[..i]
      {
        out := out + [Raw(fragmentedRawFrames[i])];
        i := i + 1;
      }
      ClearFragment();
    }

    method TryBypass() returns (out: Result<seq<Item>, Error>)
      requires Consistent()
      modifies this
      ensures match EnterBypass(cfg, old(Model()))
              case Failure(e) => out == Failure(e)
              case Success(step) => out == Success(step.items) && Model() == step.state && Valid()
    {
      if cfg.failClosed { return Failure(CannotValidate); }
      bypass := true;
      var items := FlushHeldRawFrames();
      assert items + [] == items;
      if |buffer| > 0 {
        items := items + [Raw(buffer)];
        buffer := [];
      }
      out := Success(items);
    }

    method EmitRewrittenText(text: Bytes) returns (out: Result<seq<Item>, Error>)
      requires Valid()
      modifies this`drawnKeys
      ensures match Emit(cfg, old(Model()), text)
              case Failure(e) => out == Failure(e)
              case Success(step) => out == Success(step.items) && Model() == step.state
      ensures out.Failure? <==> FailsPush(cfg, old(drawnKeys), text)
      ensures out.Success? ==>
                && |out.value| == 1 && !out.value[0].Raw? && out.value[0].text == text
                && Decided(cfg, old(drawnKeys), out.value[0])
    {
      EmitDecides(cfg, Model(), text);
      hide FailsPush, Decided;
      if cfg.admit.Some? {
        var item := RunDeferred(text);
        drawnKeys := drawnKeys + 1;
        return Success([item]);
      }
      var sent := text;
      if cfg.rewrite.Some? {
        match cfg.rewrite.value(drawnKeys, text) {
          case Throws(_) => if cfg.failClosed { return Failure(RewriteThrew); }
          case Keep =>
          case Replace(rewritten) => if rewritten != text { sent := rewritten; }
        }
      }
      if |sent| >= FOUR_GIB { return Failure(TooLong); }
      var wire := EncodeWsClientText(sent, cfg.keys(drawnKeys));
      drawnKeys := drawnKeys + 1;
      out := Success([Rewritten(text, wire)]);
    }

    /** The deferred encoding, as it comes out when the proxy awaits it. */
    method RunDeferred(text: Bytes) returns (item: Item)
      requires cfg.admit.Some?
      ensures match FateOf(cfg, drawnKeys, text)
              case Sent(sent) => item == Rewritten(text, EncodeMaskedText(sent, cfg.keys(drawnKeys)))
              case Lost => item == Dropped(text)
              case Fatal => item == Severed(text)
              case Rejected(_) => false
      ensures !item.Raw? && item.text == text && Decided(cfg, drawnKeys, item)
      ensures item.Dropped? <==> IsAnswered(cfg, drawnKeys, text)
      ensures item.Severed? <==> EndsConnection(cfg, drawnKeys, text)
    {
      EmitDecides(cfg, Model(), text);
      FatesByCallbacks(cfg, drawnKeys, text);
      hide IsAnswered, EndsConnection, GoesUpstream, Decided;
      var gate := cfg.admit.value(drawnKeys, text);
      if gate.Refuses? { return if gate.answered then Dropped(text) else Severed(text); }
      var sent := text;
      if cfg.rewrite.Some? {
        match cfg.rewrite.value(drawnKeys, text) {
          case Throws(answered) => return if answered then Dropped(text) else Severed(text);
          case Keep =>
          case Replace(rewritten) => sent := rewritten;
        }
      }
      if |sent| >= FOUR_GIB { return Severed(text); }
      var wire := EncodeWsClientText(sent, cfg.keys(drawnKeys));
      item := Rewritten(text, wire);
    }

    method HandleFrame(f: Frame) returns (out: Result<(seq<Item>, bool), Error>)
      requires Valid()
      modifies this
      ensures match Handle(cfg, old(Model()), f)
              case Failure(e) => out == Failure(e)
              case Success(step) => out == Success((step.items, step.stop)) && Model() == step.state && Valid()
    {
      hide Payloads, RawAll, HeldBytes, Joined;
      if f.Op() >= 0x8 {
        var flushed := [];
        if f.Op() == CLOSE { flushed := FlushHeldRawFrames(); }
        assert [] + [Raw(f.wire)] == [Raw(f.wire)];
        return Success((flushed + [Raw(f.wire)], false));
      }
      if cfg.failClosed && (!f.masked || Rsv(f.b0) != 0 || f.Op() !in [TEXT, CONTINUATION]) {
        return Failure(UnsupportedFrame);
      }
      if !f.masked {
        var flushed := FlushHeldRawFrames();
        return Success((flushed + [Raw(f.wire)], false));
      }
      if passthroughFragment {
        if f.IsFin() && f.Op() in [CONTINUATION, TEXT, BINARY] { passthroughFragment := false; }
        return Success(([Raw(f.wire)], false));
      }
      if f.Op() == CONTINUATION {
        out := HandleContinuation(f);
        return;
      }
      if !f.IsFin() {
        if f.HasRsv1() || f.Op() != TEXT || cfg.rewrite.None? {
          passthroughFragment := true;
          return Success(([Raw(f.wire)], false));
        }
        var overflow := FragmentWouldOverflow(f.wire, f.payload);
        if overflow {
          var bypassed := TryBypass();
          if bypassed.Failure? { return Failure(bypassed.error); }
          return Success(([Raw(f.wire)] + bypassed.value, true));
        }
        HoldFragmentFrame(f);
        return Success(([], false));
      }
      if f.HasRsv1() || f.Op() != TEXT || cfg.rewrite.None? {
        return Success(([Raw(f.wire)], false));
      }
      var emitted := EmitRewrittenText(f.payload);
      if emitted.Failure? { return Failure(emitted.error); }
      out := Success((emitted.value, false));
    }

    method HandleContinuation(f: Frame) returns (out: Result<(seq<Item>, bool), Error>)
      requires Valid() && !passthroughFragment && f.Op() == CONTINUATION && f.masked
      requires cfg.failClosed ==> Rsv(f.b0) == 0
      modifies this
      ensures match Handle(cfg, old(Model()), f)
              case Failure(e) => out == Failure(e)
              case Success(step) => out == Success((step.items, step.stop)) && Model() == step.state && Valid()
    {
      hide Payloads, RawAll, HeldBytes, Joined;
      if fragmentedOpcode.None? {
        if cfg.failClosed { return Failure(OrphanContinuation); }
        return Success(([Raw(f.wire)], false));
      }
      var overflow := FragmentWouldOverflow(f.wire, f.payload);
      HoldFragmentFrame(f);
      if overflow {
        var bypassed := TryBypass();
        if bypassed.Failure? { return Failure(bypassed.error); }
        return Success((bypassed.value, true));
      }
      if f.IsFin() {
        var full := Joined(fragmentedChunks);
        ClearFragment();
        var emitted := EmitRewrittenText(full);
        if emitted.Failure? { return Failure(emitted.error); }
        return Success((emitted.value, false));
      }
      out := Success(([], false));
    }

    method Push(chunk: Bytes) returns (out: Result<seq<Item>, Error>)
      requires Valid()
      modifies this
      ensures match WsRewriter.Push(cfg, old(Model()), chunk)
              case Failure(e) => out == Failure(e)
              case Success(step) => out == Success(step.items) && Model() == step.state && Valid()
    {
      hide Drain, Flush;
      if |chunk| == 0 { return Success([]); }
      if bypass { return Success([Raw(chunk)]); }
      buffer := buffer + chunk;
      if |buffer| > MAX_BUFFER {
        out := TryBypass();
        return;
      }
      ghost var drained := Drain(cfg, Model());
      if drained.Success? { assert [] + drained.value.items == drained.value.items; }
      out := DrainBuffer();
    }

    static ghost function Prefixed(items: seq<Item>, r: Result<Step, Error>): Result<seq<Item>, Error> {
      match r
      case Failure(e) => Failure(e)
      case Success(step) => Success(items + step.items)
    }

    method DrainBuffer() returns (out: Result<seq<Item>, Error>)
      requires Valid()
      modifies this
      ensures out == Prefixed([], Drain(cfg, old(Model())))
      ensures out.Success? ==> Valid() && Model() == Drain(cfg, old(Model())).value.state
    {
      ghost var target := Drain(cfg, Model());
      var items: seq<Item> := [];
      hide ParseFrame, Handle, Flush, Drain;
      while true
        invariant Valid()
        invariant Prefixed(items, Drain(cfg, Model())) == Prefixed([], target)
        invariant target.Success? ==> Drain(cfg, Model()).value.state == target.value.state
        decreases |buffer|
      {
        ghost var s := Model();
        var p := ReadFrame(buffer, MAX_FRAME);
        DrainUnfolds(cfg, s);
        match p {
          case Incomplete =>
            assert items + [] == items;
            return Success(items);
          case Oversized =>
            var bypassed := TryBypass();
            if bypassed.Failure? { return bypassed; }
            return Success(items + bypassed.value);
          case Parsed(f) =>
            buffer := buffer[|f.wire|..];
            var handled := HandleFrame(f);
            if handled.Failure? { return Failure(handled.error); }
            var (more, stop) := handled.value;
            if stop { return Success(items + more); }
            ghost var next := Drain(cfg, Model());
            if next.Success? { assert items + (more + next.value.items) == items + more + next.value.items; }
            items := items + more;
        }
      }
    }

    method FlushAll() returns (out: seq<Item>)
      requires Valid()
      modifies this
      ensures Valid() && Model() == Flush(old(Model())).state && out == Flush(old(Model())).items
    {
      bypass := true;
      out := FlushHeldRawFrames();
      if |buffer| > 0 {
        out := out + [Raw(buffer)];
        buffer := [];
      }
    }
  }
}
