/**
  The server-side endpoint: it answers pings, delivers text messages, and closes on protocol errors.
  The close state is shared by the parser, the socket and the session's own handler.
 */
module WsEndpoint {
  import opened WsFrame
  import opened WsStream
  import opened Options

  const MAX_MESSAGE: nat := 8 * 1024 * 1024
  const MAX_FRAGMENTS: nat := 4096

  const PROTOCOL_ERROR: nat := 1002
  const TOO_BIG: nat := 1009

  const UNMASKED_REASON: Bytes := Ascii("client frames must be masked")
  const RSV1_REASON: Bytes := Ascii("unexpected RSV1")
  const TOO_BIG_REASON: Bytes := Ascii("message too big")

  function Ascii(s: string): Bytes {
    seq(|s|, i requires 0 <= i < |s| => if s[i] as int < 256 then s[i] as int else 0)
  }

  /** What the session sees and does: callbacks made and frames written to the socket, in order. */
  datatype Effect = Delivered(text: Bytes) | Errored | Wrote(frame: Bytes) | ClosedCallback

  /** What a session can ask of its endpoint. */
  datatype Action = SendText(text: Bytes) | Close(code: nat, reason: Bytes) | Destroy

  /** What the text handler does and, if it ends by throwing, what the error callback does then. */
  datatype Reaction = Reaction(actions: seq<Action>, onError: Option<seq<Action>>)

  datatype WriteOutcome = Accepted | NotWritable | Raises

  /**
    `react(n, text)` is the reaction to the n-th delivery, which may depend on everything before it;
    `socket(n)` is the fate of the n-th attempted write.
   */
  datatype Environment = Environment(react: (nat, Bytes) -> Reaction, socket: nat -> WriteOutcome)

  datatype State = State(buffer: Bytes, asm: Assembly, closed: bool, writes: nat, delivered: nat, log: seq<Effect>)

  const INITIAL := State([], Idle, false, 0, 0, [])

  function ClosePayload(code: nat, reason: Bytes): Bytes {
    U16Bytes(code % 0x1_0000) + (if |reason| <= 123 then reason else reason[..123])
  }

  function EncodeClose(code: nat, reason: Bytes): Bytes {
    EncodeFrame(CLOSE, ClosePayload(code, reason), true)
  }

  /** Also `destroy`: the close callback runs at most once. */
  function SettleClose(s: State): (r: State)
    ensures r.buffer == s.buffer
  {
    if s.closed then s else s.(closed := true, log := s.log + [ClosedCallback])
  }

  function SendRaw(env: Environment, s: State, frame: Bytes): (r: State)
    ensures r.buffer == s.buffer
  {
    if s.closed then s
    else
      match env.socket(s.writes)
      case NotWritable => s.(writes := s.writes + 1)
      case Accepted => s.(writes := s.writes + 1, log := s.log + [Wrote(frame)])
      case Raises => SettleClose(s.(writes := s.writes + 1))
  }

  function CloseWith(env: Environment, s: State, code: nat, reason: Bytes): (r: State)
    ensures r.buffer == s.buffer
  {
    SettleClose(SendRaw(env, s, EncodeClose(code, reason)))
  }

  /** A text or a code that its frame cannot carry makes the call throw before it does anything. */
  function Act(env: Environment, s: State, a: Action): (r: State)
    ensures r.buffer == s.buffer
  {
    match a
    case SendText(text) => if |text| < FOUR_GIB then SendRaw(env, s, EncodeFrame(TEXT, text, true)) else s
    case Close(code, reason) => if code < 0x1_0000 then CloseWith(env, s, code, reason) else s
    case Destroy => SettleClose(s)
  }

  function ActAll(env: Environment, s: State, actions: seq<Action>): (r: State)
    ensures r.buffer == s.buffer
  {
    if actions == [] then s else Act(env, ActAll(env, s, actions[..|actions| - 1]), actions[|actions| - 1])
  }

  function Deliver(env: Environment, s: State, text: Bytes): (r: State)
    ensures r.buffer == s.buffer
  {
    var reaction := env.react(s.delivered, text);
    var s1 := s.(delivered := s.delivered + 1, log := s.log + [Delivered(text)]);
    var s2 := ActAll(env, s1, reaction.actions);
    match reaction.onError
    case None => s2
    case Some(actions) => ActAll(env, s2.(log := s2.log + [Errored]), actions)
  }

  /** The endpoint's own way of cutting a frame: unmasked data is refused at once, and a mask is always read. */
  datatype Cut = Wait | Unmasked | TooBig | Cut(frame: Frame)

  function CutFrame(b: Bytes): (c: Cut)
    ensures c.Cut? ==> 2 <= |c.frame.wire| <= |b| && |c.frame.payload| <= MAX_MESSAGE
  {
    if |b| < 2 then Wait
    else if !Masked(b[1]) && Opcode(b[0]) < 8 then Unmasked
    else
      match ParseHead(b, MAX_MESSAGE)
      case NeedMore => Wait
      case TooBig => Cut.TooBig
      case Head(length, offset) =>
        var start := offset + 4;
        if |b| < start + length then Wait
        else Cut(Frame(b[0], Masked(b[1]), Mask(b[start..start + length], b[offset..start]), b[..start + length]))
  }

  predicate TooMuch(asm: Assembly, f: Frame) {
    !f.IsControl() && f.Op() == CONTINUATION && asm.Collecting? &&
    (|Joined(asm.parts + [f.payload])| > MAX_MESSAGE || |asm.parts| + 1 > MAX_FRAGMENTS)
  }

  function TextOf(asm: Assembly, f: Frame): seq<Bytes> {
    var done := Completed(asm, f);
    if done != [] && done[0].Message? && done[0].opcode == TEXT then [done[0].payload] else []
  }

  function CloseCode(payload: Bytes): nat {
    if |payload| >= 2 then U16(payload, 0) else 1000
  }

  function Handle(env: Environment, s: State, f: Frame): (r: State)
    requires |f.payload| < FOUR_GIB
    ensures r.buffer == s.buffer
  {
    if f.HasRsv1() then CloseWith(env, s, PROTOCOL_ERROR, RSV1_REASON)
    else if f.Op() == CLOSE then SettleClose(SendRaw(env, s, EncodeClose(CloseCode(f.payload), [])))
    else if f.Op() == PING then SendRaw(env, s, EncodeFrame(PONG, f.payload, true))
    else if f.IsControl() then s
    else if TooMuch(s.asm, f) then CloseWith(env, s.(asm := Idle), TOO_BIG, TOO_BIG_REASON)
    else
      var s1 := s.(asm := NextAssembly(s.asm, f));
      if TextOf(s.asm, f) == [] then s1 else Deliver(env, s1, TextOf(s.asm, f)[0])
  }

  function Drain(env: Environment, s: State): State
    decreases |s.buffer|
  {
    if s.closed then s
    else
      match CutFrame(s.buffer)
      case Wait => s
      case Unmasked => CloseWith(env, s, PROTOCOL_ERROR, UNMASKED_REASON)
      case TooBig => CloseWith(env, s, TOO_BIG, TOO_BIG_REASON)
      case Cut(f) => Drain(env, Handle(env, s.(buffer := s.buffer[|f.wire|..]), f))
  }

  datatype Operation = Chunk(bytes: Bytes) | Ask(action: Action)

  function Push(env: Environment, s: State, chunk: Bytes): State {
    if chunk == [] || s.closed then s
    else
      var s1 := s.(buffer := s.buffer + chunk);
      if |s1.buffer| > MAX_MESSAGE + 14 then CloseWith(env, s1, TOO_BIG, TOO_BIG_REASON) else Drain(env, s1)
  }

  function Perform(env: Environment, s: State, op: Operation): State {
    match op
    case Chunk(bytes) => Push(env, s, bytes)
    case Ask(action) => Act(env, s, action)
  }

  function Execute(env: Environment, ops: seq<Operation>): State {
    if ops == [] then INITIAL else Perform(env, Execute(env, ops[..|ops| - 1]), ops[|ops| - 1])
  }

  // ---------------------------------------------------------------------------------------------
  // Closing
  // ---------------------------------------------------------------------------------------------

  /** The close callback has run exactly when the session is closed, once, and only error reports came after it. */
  ghost predicate ClosesOnce(s: State) {
    && (s.closed <==> ClosedCallback in s.log)
    && (forall i, j :: 0 <= i < j < |s.log| && s.log[i] == ClosedCallback ==> s.log[j] == Errored)
  }

  lemma SettleClosesOnce(s: State)
    requires ClosesOnce(s)
    ensures ClosesOnce(SettleClose(s)) && SettleClose(s).closed
  {
    var s' := SettleClose(s);
    if !s.closed {
      assert forall i :: 0 <= i < |s.log| ==> s'.log[i] == s.log[i] && s.log[i] in s.log;
      assert s'.log[|s.log|] == ClosedCallback;
    }
  }

  /** An open session may log anything; a closed one, an error report. */
  lemma LogClosesOnce(s: State, e: Effect)
    requires ClosesOnce(s) && !e.ClosedCallback? && (s.closed ==> e == Errored)
    ensures ClosesOnce(s.(log := s.log + [e]))
  {
    var log := s.log + [e];
    assert forall i :: 0 <= i < |s.log| ==> log[i] == s.log[i] && s.log[i] in s.log;
    if ClosedCallback in s.log {
      var i :| 0 <= i < |s.log| && s.log[i] == ClosedCallback;
      assert log[i] == ClosedCallback;
    }
  }

  lemma SendClosesOnce(env: Environment, s: State, frame: Bytes)
    requires ClosesOnce(s)
    ensures ClosesOnce(SendRaw(env, s, frame)) && (s.closed ==> SendRaw(env, s, frame) == s)
  {
    if !s.closed {
      LogClosesOnce(s.(writes := s.writes + 1), Wrote(frame));
      SettleClosesOnce(s.(writes := s.writes + 1));
    }
    hide ClosesOnce;
  }

  lemma CloseClosesOnce(env: Environment, s: State, code: nat, reason: Bytes)
    requires ClosesOnce(s)
    ensures ClosesOnce(CloseWith(env, s, code, reason)) && CloseWith(env, s, code, reason).closed
    ensures s.closed ==> CloseWith(env, s, code, reason) == s
  {
    hide ClosesOnce, SendRaw;
    SendClosesOnce(env, s, EncodeClose(code, reason));
    SettleClosesOnce(SendRaw(env, s, EncodeClose(code, reason)));
  }

  /** Whatever a session asks, and a closed session can ask what it likes. */
  lemma ActClosesOnce(env: Environment, s: State, a: Action)
    requires ClosesOnce(s)
    ensures ClosesOnce(Act(env, s, a)) && (s.closed ==> Act(env, s, a) == s)
  {
    hide ClosesOnce, SendRaw, CloseWith, EncodeFrame;
    match a
    case SendText(text) => if |text| < FOUR_GIB { SendClosesOnce(env, s, EncodeFrame(TEXT, text, true)); }
    case Close(code, reason) => if code < 0x1_0000 { CloseClosesOnce(env, s, code, reason); }
    case Destroy => SettleClosesOnce(s);
  }

  lemma {:induction false} ActAllClosesOnce(env: Environment, s: State, actions: seq<Action>)
    requires ClosesOnce(s)
    ensures ClosesOnce(ActAll(env, s, actions)) && (s.closed ==> ActAll(env, s, actions) == s)
  {
    hide ClosesOnce, Act;
    if actions != [] {
      var init := actions[..|actions| - 1];
      ActAllClosesOnce(env, s, init);
      ActClosesOnce(env, ActAll(env, s, init), actions[|actions| - 1]);
    }
  }

  lemma DeliverClosesOnce(env: Environment, s: State, text: Bytes)
    requires ClosesOnce(s) && !s.closed
    ensures ClosesOnce(Deliver(env, s, text))
  {
    hide ActAll;
    var reaction := env.react(s.delivered, text);
    var s0 := s.(delivered := s.delivered + 1);
    assert ClosesOnce(s0);
    hide ClosesOnce;
    LogClosesOnce(s0, Delivered(text));
    var s1 := s0.(log := s.log + [Delivered(text)]);
    ActAllClosesOnce(env, s1, reaction.actions);
    var s2 := ActAll(env, s1, reaction.actions);
    LogClosesOnce(s2, Errored);
    if reaction.onError.Some? { ActAllClosesOnce(env, s2.(log := s2.log + [Errored]), reaction.onError.value); }
  }

  lemma HandleClosesOnce(env: Environment, s: State, f: Frame)
    requires ClosesOnce(s) && !s.closed && |f.payload| < FOUR_GIB
    ensures ClosesOnce(Handle(env, s, f))
  {
    var s1 := s.(asm := NextAssembly(s.asm, f));
    assert ClosesOnce(s1) && ClosesOnce(s.(asm := Idle));
    hide ClosesOnce, EncodeFrame, EncodeClose, TooMuch, TextOf, NextAssembly, CloseWith, SendRaw, Deliver;
    var bye := EncodeClose(CloseCode(f.payload), []);
    if f.HasRsv1() {
      CloseClosesOnce(env, s, PROTOCOL_ERROR, RSV1_REASON);
    } else if f.Op() == CLOSE {
      SendClosesOnce(env, s, bye);
      SettleClosesOnce(SendRaw(env, s, bye));
    } else if f.Op() == PING {
      SendClosesOnce(env, s, EncodeFrame(PONG, f.payload, true));
    } else {
      CloseClosesOnce(env, s.(asm := Idle), TOO_BIG, TOO_BIG_REASON);
      if TextOf(s.asm, f) != [] { DeliverClosesOnce(env, s1, TextOf(s.asm, f)[0]); }
    }
  }

  lemma {:induction false} DrainClosesOnce(env: Environment, s: State)
    requires ClosesOnce(s)
    ensures ClosesOnce(Drain(env, s))
    decreases |s.buffer|
  {
    if !s.closed {
      CloseClosesOnce(env, s, PROTOCOL_ERROR, UNMASKED_REASON);
      CloseClosesOnce(env, s, TOO_BIG, TOO_BIG_REASON);
      if CutFrame(s.buffer).Cut? {
        var f := CutFrame(s.buffer).frame;
        var s1 := s.(buffer := s.buffer[|f.wire|..]);
        assert ClosesOnce(s1);
        hide ClosesOnce, CutFrame, Handle;
        HandleClosesOnce(env, s1, f);
        DrainClosesOnce(env, Handle(env, s1, f));
      }
      hide ClosesOnce, CutFrame, Handle, CloseWith;
    }
  }

  lemma PushClosesOnce(env: Environment, s: State, chunk: Bytes)
    requires ClosesOnce(s)
    ensures ClosesOnce(Push(env, s, chunk)) && (s.closed ==> Push(env, s, chunk) == s)
  {
    if chunk != [] && !s.closed {
      var s1 := s.(buffer := s.buffer + chunk);
      assert ClosesOnce(s1);
      hide ClosesOnce, CloseWith, Drain;
      DrainClosesOnce(env, s1);
      CloseClosesOnce(env, s1, TOO_BIG, TOO_BIG_REASON);
    }
  }

  /**
    In every run, with any handler, however its reactions depend on what came before, and any socket: the
    close callback runs at most once, no text is delivered and no frame written after it, and a closed
    session stays as it is whatever is pushed or asked.
   */
  lemma {:induction false} AtMostOneClose(env: Environment, ops: seq<Operation>, op: Operation)
    ensures ClosesOnce(Execute(env, ops))
    ensures Execute(env, ops).closed ==> Perform(env, Execute(env, ops), op) == Execute(env, ops)
  {
    if ops == [] {
      assert ClosesOnce(INITIAL);
    } else {
      AtMostOneClose(env, ops[..|ops| - 1], ops[|ops| - 1]);
      PerformClosesOnce(env, Execute(env, ops[..|ops| - 1]), ops[|ops| - 1]);
    }
    hide ClosesOnce, Perform;
    PerformClosesOnce(env, Execute(env, ops), op);
  }

  lemma PerformClosesOnce(env: Environment, s: State, op: Operation)
    requires ClosesOnce(s)
    ensures ClosesOnce(Perform(env, s, op)) && (s.closed ==> Perform(env, s, op) == s)
  {
    hide ClosesOnce, Push, Act;
    match op
    case Chunk(bytes) => PushClosesOnce(env, s, bytes);
    case Ask(action) => ActClosesOnce(env, s, action);
  }
}
