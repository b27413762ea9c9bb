/**
  Nothing is swallowed: without validation every frame of the client, well-formed or not, comes out as it
  came in or is part of a text that the callbacks got to see, and from bypass on every byte comes out.
 */
module WsAccounts {
  import opened WsFrame
  import opened WsStream
  import opened WsRewriter
  import opened WsRewriting
  import opened Options

  /** The frames that an entry accounts for: a raw frame, or those whose payloads make up the text. */
  ghost predicate Explains(item: Item, group: seq<Frame>) {
    if item.Raw? then |group| == 1 && group[0].wire == item.wire
    else Joined(Payloads(group)) == item.text
  }

  function Wires(frames: seq<Frame>): Bytes {
    if frames == [] then [] else Wires(frames[..|frames| - 1]) + frames[|frames| - 1].wire
  }

  ghost predicate FromWire(frames: seq<Frame>) {
    forall f <- frames :: ParseFrame(f.wire, NO_LIMIT) == Parsed(f)
  }

  /**
    The account of one stretch: it takes `frames` off the buffer and hands over `items`, the first of which
    account for `groups`. Before bypass these are all, and every frame is in a group or held; from bypass on
    nothing is held, and the other entries are the bytes that follow the frames.
   */
  ghost predicate Accounts(held: seq<Frame>, bytes: Bytes, s: State, items: seq<Item>, groups: seq<seq<Frame>>,
                           frames: seq<Frame>)
  {
    && FromWire(frames) && |groups| <= |items|
    && (forall i :: 0 <= i < |groups| ==> Explains(items[i], groups[i]))
    && multiset(Joined(groups)) + multiset(s.held) == multiset(held) + multiset(frames)
    && (if s.bypass then s.held == [] && s.buffer == [] && Wires(frames) + Wire(items[|groups|..]) == bytes
        else |groups| == |items| && Wires(frames) + s.buffer == bytes)
  }

  lemma WiresOne(f: Frame)
    ensures Wires([f]) == f.wire
  {
    assert [f][..0] == [];
  }

  lemma {:induction false} WiresConcat(a: seq<Frame>, b: seq<Frame>)
    ensures Wires(a + b) == Wires(a) + Wires(b)
  {
    if b == [] {
      assert a + b == a;
    } else {
      assert (a + b)[..|a + b| - 1] == a + b[..|b| - 1];
      WiresConcat(a, b[..|b| - 1]);
    }
  }

  /** Each frame by itself. */
  function Singles(frames: seq<Frame>): (groups: seq<seq<Frame>>)
    ensures |groups| == |frames| && forall i :: 0 <= i < |frames| ==> groups[i] == [frames[i]]
  {
    seq(|frames|, i requires 0 <= i < |frames| => [frames[i]])
  }

  lemma {:induction false} JoinedSingles(frames: seq<Frame>)
    ensures Joined(Singles(frames)) == frames
  {
    if frames != [] {
      var init, last := frames[..|frames| - 1], frames[|frames| - 1];
      assert Singles(frames)[..|frames| - 1] == Singles(init);
      JoinedSingles(init);
      assert frames == init + [last];
    }
  }

  lemma JoinedOne<T>(part: seq<T>)
    ensures Joined([part]) == part
  {
    assert [part][..0] == [];
  }

  /** Two stretches in a row. */
  lemma AccountsTwice(held: seq<Frame>, bytes: Bytes, s: State, items: seq<Item>, groups: seq<seq<Frame>>,
                      frames: seq<Frame>, more: Bytes, s': State, items': seq<Item>, groups': seq<seq<Frame>>,
                      frames': seq<Frame>)
    requires !s.bypass && Accounts(held, bytes, s, items, groups, frames)
    requires Accounts(s.held, s.buffer + more, s', items', groups', frames')
    ensures Accounts(held, bytes + more, s', items + items', groups + groups', frames + frames')
  {
    hide Explains, FromWire, Wire, Wires, Joined;
    JoinedConcat(groups, groups');
    WiresConcat(frames, frames');
    FromBoth(frames, frames');
    var all := groups + groups';
    forall i | 0 <= i < |all| ensures Explains((items + items')[i], all[i]) {
      if i >= |groups| { assert Explains(items'[i - |groups|], groups'[i - |groups|]); }
    }
    assert (items + items')[|all|..] == items'[|groups'|..];
    var left := if s'.bypass then Wire(items'[|groups'|..]) else s'.buffer;
    Regroup(Wires(frames), s.buffer, more, Wires(frames'), left);
    SumsAdd(multiset(Joined(groups)), multiset(s.held), multiset(held), multiset(frames),
            multiset(Joined(groups')), multiset(s'.held), multiset(frames'));
    assert multiset(Joined(groups) + Joined(groups')) == multiset(Joined(groups)) + multiset(Joined(groups'));
    assert multiset(frames + frames') == multiset(frames) + multiset(frames');
  }

  lemma SumsAdd(done: multiset<Frame>, between: multiset<Frame>, held: multiset<Frame>, frames: multiset<Frame>,
                done': multiset<Frame>, left: multiset<Frame>, frames': multiset<Frame>)
    requires done + between == held + frames && done' + left == between + frames'
    ensures done + done' + left == held + (frames + frames')
  {
    assert done + done' + left == done + (done' + left);
    assert done + (between + frames') == (done + between) + frames';
    assert (held + frames) + frames' == held + (frames + frames');
  }

  lemma FromBoth(a: seq<Frame>, b: seq<Frame>)
    requires FromWire(a) && FromWire(b)
    ensures FromWire(a + b)
  {
    hide ParseFrame;
  }

  lemma NothingJoined()
    ensures Joined<Frame>([]) == [] && FromWire([])
  {
  }

  lemma NothingAccounted(s: State)
    requires !s.bypass
    ensures Accounts(s.held, s.buffer, s, [], [], [])
  {
    NothingJoined();
    var groups: seq<seq<Frame>>, frames: seq<Frame> := [], [];
    assert Wires(frames) + s.buffer == s.buffer;
    assert Accounts(s.held, s.buffer, s, [], groups, frames);
  }

  lemma FlushAccounts(s: State)
    ensures Accounts(s.held, s.buffer, Flush(s).state, Flush(s).items, Singles(s.held), [])
  {
    hide Wire, Joined, HeldBytes;
    JoinedSingles(s.held);
    var tail := if s.buffer == [] then [] else [Raw(s.buffer)];
    assert (RawAll(s.held) + tail)[|s.held|..] == tail;
    if s.buffer == [] { WireNothing(); } else { WireOne(Raw(s.buffer)); }
    assert [] + s.buffer == s.buffer;
  }

  /** A frame that goes out raw behind the held ones, or ahead of them. */
  lemma ForwardAccounts(s: State, f: Frame, released: bool, passthrough: bool)
    requires !s.bypass && ParseFrame(f.wire, NO_LIMIT) == Parsed(f)
    ensures var held := if released then s.held else [];
            Accounts(s.held, f.wire + s.buffer, s.(held := if released then [] else s.held, passthrough := passthrough),
                     RawAll(held) + [Raw(f.wire)], Singles(held) + [[f]], [f])
  {
    hide ParseFrame, Joined;
    var held := if released then s.held else [];
    JoinedSingles(held);
    JoinedConcat(Singles(held), [[f]]);
    JoinedOne([f]);
    WiresOne(f);
  }

  lemma HoldAccounts(s: State, f: Frame)
    requires !s.bypass && ParseFrame(f.wire, NO_LIMIT) == Parsed(f)
    ensures Accounts(s.held, f.wire + s.buffer, s.(held := s.held + [f]), [], [], [f])
  {
    hide ParseFrame;
    WiresOne(f);
    assert multiset(s.held + [f]) == multiset(s.held) + multiset([f]);
  }

  lemma TextAccounts(s: State, f: Frame, group: seq<Frame>, s': State, item: Item)
    requires !s.bypass && ParseFrame(f.wire, NO_LIMIT) == Parsed(f) && !item.Raw?
    requires !s'.bypass && s'.buffer == s.buffer && item.text == Joined(Payloads(group))
    requires (group == [f] && s'.held == s.held) || (group == s.held + [f] && s'.held == [])
    ensures Accounts(s.held, f.wire + s.buffer, s', [item], [group], [f])
  {
    hide ParseFrame, Joined, Payloads;
    WiresOne(f);
    JoinedOne(group);
  }

  lemma StopAccounts(s: State, f: Frame)
    requires !s.bypass && ParseFrame(f.wire, NO_LIMIT) == Parsed(f)
    ensures var step := Flush(s.(held := s.held + [f]));
            Accounts(s.held, f.wire + s.buffer, step.state, step.items, Singles(s.held + [f]), [f])
    ensures var step := Flush(s);
            Accounts(s.held, f.wire + s.buffer, step.state, [Raw(f.wire)] + step.items, [[f]] + Singles(s.held), [f])
  {
    var held := s.(held := s.held + [f]);
    HoldAccounts(s, f);
    FlushAccounts(held);
    ForwardAccounts(s, f, false, s.passthrough);
    FlushAccounts(s);
    hide Flush, Accounts, Wires, Wire, Joined;
    var groups, items := Singles(held.held), Flush(held).items;
    assert [] + groups == groups && [] + items == items && [f] + [] == [f];
    assert held.buffer + [] == held.buffer && f.wire + s.buffer + [] == f.wire + s.buffer;
    AccountsTwice(s.held, f.wire + s.buffer, held, [], [], [f], [], Flush(held).state, items, groups, []);
    assert RawAll([]) + [Raw(f.wire)] == [Raw(f.wire)] && Singles([]) + [[f]] == [[f]];
    AccountsTwice(s.held, f.wire + s.buffer, s, [Raw(f.wire)], [[f]], [f], [], Flush(s).state, Flush(s).items,
                  Singles(s.held), []);
  }

  /** The frames that go out at once as they came. */
  predicate Forwards(cfg: Config, s: State, f: Frame) {
    || f.IsControl() || !f.masked || s.passthrough || (f.Op() == CONTINUATION && s.held == [])
    || (f.Op() != CONTINUATION && (f.HasRsv1() || f.Op() != TEXT || cfg.rewrite.None?))
  }

  /** A close frame and an unmasked one let the held frames go before them. */
  predicate Releases(f: Frame) { if f.IsControl() then f.Op() == CLOSE else !f.masked }

  lemma ForwardShape(cfg: Config, s: State, f: Frame)
    requires !cfg.failClosed && Forwards(cfg, s, f)
    ensures Handle(cfg, s, f).Success?
    ensures var step := Handle(cfg, s, f).value;
            && !step.stop && step.items == RawAll(if Releases(f) then s.held else []) + [Raw(f.wire)]
            && step.state == s.(held := if Releases(f) then [] else s.held, passthrough := step.state.passthrough)
  {
    hide Emit, WouldOverflow, Flush;
    assert RawAll([]) + [Raw(f.wire)] == [Raw(f.wire)];
  }

  lemma TextShape(cfg: Config, s: State, f: Frame)
    requires !cfg.failClosed && !Forwards(cfg, s, f)
    ensures !s.passthrough
    ensures var handled := Handle(cfg, s, f);
            if f.Op() == CONTINUATION then
              if WouldOverflow(s.held, f) then handled == Success(Flush(s.(held := s.held + [f])))
              else if f.IsFin() then handled == Emit(cfg, ResetFragment(s), Joined(Payloads(s.held + [f])))
              else handled == Success(Step(s.(held := s.held + [f]), [], false))
            else if f.IsFin() then handled == Emit(cfg, s, f.payload)
            else if WouldOverflow(s.held, f) then
              handled == Success(Flush(s).(items := [Raw(f.wire)] + Flush(s).items))
            else handled == Success(Step(s.(held := s.held + [f]), [], false))
  {
    hide Emit, WouldOverflow, Flush;
  }

  /** One frame, whatever it is. */
  lemma HandleAccounts(cfg: Config, s: State, f: Frame) returns (groups: seq<seq<Frame>>)
    requires !cfg.failClosed && !s.bypass && ParseFrame(f.wire, NO_LIMIT) == Parsed(f) && Handle(cfg, s, f).Success?
    ensures var step := Handle(cfg, s, f).value;
            && Accounts(s.held, f.wire + s.buffer, step.state, step.items, groups, [f])
            && (step.stop <==> step.state.bypass)
  {
    hide ParseFrame, WouldOverflow, Accounts, Emit, Flush, Handle, Forwards, Releases;
    var step := Handle(cfg, s, f).value;
    if Forwards(cfg, s, f) {
      ForwardShape(cfg, s, f);
      groups := Singles(if Releases(f) then s.held else []) + [[f]];
      ForwardAccounts(s, f, Releases(f), step.state.passthrough);
    } else {
      TextShape(cfg, s, f);
      if (f.Op() == CONTINUATION || !f.IsFin()) && WouldOverflow(s.held, f) {
        groups := if f.Op() == CONTINUATION then Singles(s.held + [f]) else [[f]] + Singles(s.held);
        StopAccounts(s, f);
        FlushShape(s);
        FlushShape(s.(held := s.held + [f]));
      } else if f.IsFin() {
        groups := EmitAccounts(cfg, s, f);
      } else {
        groups := [];
        HoldAccounts(s, f);
      }
    }
  }

  lemma EmitAccounts(cfg: Config, s: State, f: Frame) returns (groups: seq<seq<Frame>>)
    requires !s.bypass && ParseFrame(f.wire, NO_LIMIT) == Parsed(f) && !s.passthrough
    ensures var emitted := if f.Op() == CONTINUATION then Emit(cfg, ResetFragment(s), Joined(Payloads(s.held + [f])))
                           else Emit(cfg, s, f.payload);
            emitted.Success? ==>
              && Accounts(s.held, f.wire + s.buffer, emitted.value.state, emitted.value.items, groups, [f])
              && !emitted.value.stop && !emitted.value.state.bypass
  {
    hide ParseFrame, Accounts, Emit;
    var group := if f.Op() == CONTINUATION then s.held + [f] else [f];
    groups := [group];
    JoinedOne(f.payload);
    assert Payloads([f]) == [f.payload];
    var state := if f.Op() == CONTINUATION then ResetFragment(s) else s;
    var emitted := Emit(cfg, state, Joined(Payloads(group)));
    EmitShape(cfg, state, Joined(Payloads(group)));
    if emitted.Success? {
      var item := emitted.value.items[0];
      assert emitted.value.items == [item];
      TextAccounts(s, f, group, emitted.value.state, item);
    }
  }

  lemma FlushShape(s: State)
    ensures Flush(s).stop && Flush(s).state.bypass
  {
  }

  lemma EmitShape(cfg: Config, s: State, text: Bytes)
    ensures Emit(cfg, s, text).Success? ==>
              var step := Emit(cfg, s, text).value;
              && !step.stop && step.state == s.(used := s.used + 1)
              && |step.items| == 1 && !step.items[0].Raw? && step.items[0].text == text
  {
    hide FateOf, EncodeMaskedText;
  }

  lemma {:induction false} DrainAccounts(cfg: Config, s: State) returns (groups: seq<seq<Frame>>, frames: seq<Frame>)
    requires !cfg.failClosed && !s.bypass && Drain(cfg, s).Success?
    ensures var step := Drain(cfg, s).value; Accounts(s.held, s.buffer, step.state, step.items, groups, frames)
    decreases |s.buffer|
  {
    hide ParseFrame, Handle, Drain, Accounts, Flush;
    WsRewriter.DrainUnfolds(cfg, s);
    match ParseFrame(s.buffer, MAX_FRAME)
    case Incomplete =>
      groups, frames := [], [];
      NothingAccounted(s);
    case Oversized =>
      groups, frames := Singles(s.held), [];
      FlushAccounts(s);
    case Parsed(f) =>
      FrameOfPrefix(s.buffer, f.wire, MAX_FRAME);
      ParseLimits(f.wire, MAX_FRAME, NO_LIMIT);
      var s1 := s.(buffer := s.buffer[|f.wire|..]);
      assert s.buffer == f.wire + s1.buffer;
      var step := Handle(cfg, s1, f).value;
      groups := HandleAccounts(cfg, s1, f);
      frames := [f];
      if !step.stop {
        var groups', frames' := DrainAccounts(cfg, step.state);
        var next := Drain(cfg, step.state).value;
        assert step.state.buffer + [] == step.state.buffer && s.buffer + [] == s.buffer;
        AccountsTwice(s.held, s.buffer, step.state, step.items, groups, frames, [], next.state, next.items,
                      groups', frames');
        groups, frames := groups + groups', frames + frames';
      }
  }

  lemma PushAccounts(cfg: Config, s: State, chunk: Bytes) returns (groups: seq<seq<Frame>>, frames: seq<Frame>)
    requires !cfg.failClosed && !s.bypass && Push(cfg, s, chunk).Success?
    ensures var step := Push(cfg, s, chunk).value;
            Accounts(s.held, s.buffer + chunk, step.state, step.items, groups, frames)
  {
    hide Drain, Accounts, Flush;
    var s1 := s.(buffer := s.buffer + chunk);
    if chunk == [] {
      groups, frames := [], [];
      NothingAccounted(s);
      assert s.buffer + chunk == s.buffer;
    } else if |s1.buffer| > MAX_BUFFER {
      groups, frames := Singles(s.held), [];
      FlushAccounts(s1);
    } else {
      groups, frames := DrainAccounts(cfg, s1);
    }
  }

  /** From bypass on every byte goes out behind the others. */
  lemma BypassAccounts(held: seq<Frame>, bytes: Bytes, s: State, items: seq<Item>, groups: seq<seq<Frame>>,
                       frames: seq<Frame>, chunk: Bytes)
    requires s.bypass && Accounts(held, bytes, s, items, groups, frames)
    ensures Accounts(held, bytes + chunk, s, items + [Raw(chunk)], groups, frames)
    ensures chunk == [] ==> Accounts(held, bytes + chunk, s, items, groups, frames)
  {
    hide Explains, FromWire, Wires, Wire, Joined;
    var tail := items[|groups|..];
    assert (items + [Raw(chunk)])[|groups|..] == tail + [Raw(chunk)];
    WireConcat(tail, [Raw(chunk)]);
    WireOne(Raw(chunk));
    assert Wires(frames) + (Wire(tail) + chunk) == Wires(frames) + Wire(tail) + chunk;
    assert chunk == [] ==> bytes + chunk == bytes;
  }

  lemma FlushTwice(s: State)
    requires s.buffer == [] && s.held == []
    ensures Flush(s).items == [] && Flush(s).state.held == [] && Flush(s).state.buffer == [] && Flush(s).state.bypass
  {
  }

  /**
    Nothing is swallowed.  Without validation, for every byte string, even malformed, every chunking, any
    flushes and all callbacks: the input is a row of frames followed by what is still in the buffer (from
    bypass on, by the raw bytes that follow in the output), and each of these frames is exactly once among
    those that the entries account for and those held.
   */
  lemma {:induction false} NothingSwallowed(cfg: Config, ops: seq<Operation>)
    returns (groups: seq<seq<Frame>>, frames: seq<Frame>)
    requires !cfg.failClosed && Execute(cfg, ops).Success?
    ensures var r := Execute(cfg, ops).value; Accounts([], Input(ops), r.state, r.items, groups, frames)
  {
    hide Accounts, Push, Flush;
    if ops == [] {
      groups, frames := [], [];
      NothingAccounted(INITIAL);
    } else {
      var before, op := ops[..|ops| - 1], ops[|ops| - 1];
      groups, frames := NothingSwallowed(cfg, before);
      var r := Execute(cfg, before).value;
      var s, chunk := r.state, if op.Chunk? then op.bytes else [];
      if s.bypass {
        BypassAccounts([], Input(before), s, r.items, groups, frames, chunk);
        BypassStep(cfg, r, op, groups, frames, Input(before) + chunk);
      } else {
        var groups', frames';
        if op.Chunk? {
          groups', frames' := PushAccounts(cfg, s, chunk);
        } else {
          groups', frames' := Singles(s.held), [];
          FlushAccounts(s);
          assert s.buffer + [] == s.buffer;
        }
        var step := if op.Chunk? then Push(cfg, s, chunk).value else Flush(s);
        AccountsTwice([], Input(before), s, r.items, groups, frames, chunk, step.state, step.items, groups', frames');
        groups, frames := groups + groups', frames + frames';
      }
    }
  }

  lemma BypassStep(cfg: Config, r: Step, op: Operation, groups: seq<seq<Frame>>, frames: seq<Frame>, input: Bytes)
    requires r.state.bypass
    requires op.Chunk? ==> Accounts([], input, r.state, r.items + [Raw(op.bytes)], groups, frames)
    requires op.FlushAll? || op == Chunk([]) ==> Accounts([], input, r.state, r.items, groups, frames)
    ensures op.Chunk? ==>
              var step := Push(cfg, r.state, op.bytes).value;
              Accounts([], input, step.state, r.items + step.items, groups, frames)
    ensures op.FlushAll? ==> Accounts([], input, Flush(r.state).state, r.items + Flush(r.state).items, groups, frames)
  {
    hide Explains, FromWire, Wires, Wire, Joined;
    assert r.items + [] == r.items;
    if op.FlushAll? { FlushTwice(r.state); }
  }
}
