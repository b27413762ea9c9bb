/**
  The client-to-upstream text rewriter: it reassembles text messages, rewrites them, forwards all else
  untouched, and on overflow either falls back to raw forwarding (bypass) or refuses (fail closed).
  This module says what each push does; `WsRewriting` proves what that means for the stream.
 */
module WsRewriter {
  import opened WsFrame
  import opened WsStream
  import opened Options

  const MAX_BUFFER: nat := 16 * 1024 * 1024
  const MAX_FRAME: nat := 16 * 1024 * 1024
  const MAX_FRAGMENT_FRAMES: nat := 4096

  /**
    What the rewrite callback does with a text: a string, nothing (null), or an exception; `answered` says
    that the exception carries a status, which the proxy reports to the client.
   */
  datatype Verdict = Replace(text: Bytes) | Keep | Throws(answered: bool)

  /** What the admission hook does with a text before it is rewritten. */
  datatype Gate = Passes | Refuses(answered: bool)

  /**
    Both callbacks may depend on everything that happened before: they are given the number of the text.
    With an admission hook the encoding is deferred until the proxy gets to it. `keys(n)` is the random
    mask key drawn for the n-th text.
   */
  datatype Config = Config(rewrite: Option<(nat, Bytes) -> Verdict>, admit: Option<(nat, Bytes) -> Gate>,
                           failClosed: bool, keys: nat -> Key)

  /** `held` are the frames of a text message under way, kept back until it is complete. */
  datatype State = State(buffer: Bytes, bypass: bool, passthrough: bool, held: seq<Frame>, used: nat)

  const INITIAL := State([], false, false, [], 0)

  /**
    One entry handed to the proxy, with its origin and, for a deferred text, with what becomes of it: a
    dropped text is answered to the client and skipped, a severed one ends the connection.
   */
  datatype Item = Raw(wire: Bytes) | Rewritten(text: Bytes, wire: Bytes) | Dropped(text: Bytes) | Severed(text: Bytes)

  datatype Error = CannotValidate | UnsupportedFrame | OrphanContinuation | RewriteThrew | TooLong

  datatype Step = Step(state: State, items: seq<Item>, stop: bool)

  function Payloads(frames: seq<Frame>): (p: seq<Bytes>)
    ensures |p| == |frames|
  {
    seq(|frames|, i requires 0 <= i < |frames| => frames[i].payload)
  }

  function RawAll(frames: seq<Frame>): (items: seq<Item>)
    ensures |items| == |frames|
  {
    seq(|frames|, i requires 0 <= i < |frames| => Raw(frames[i].wire))
  }

  function HeldBytes(held: seq<Frame>): nat {
    if held == [] then 0
    else HeldBytes(held[..|held| - 1]) + |held[|held| - 1].wire| + |held[|held| - 1].payload|
  }

  predicate WouldOverflow(held: seq<Frame>, f: Frame) {
    |held| + 1 > MAX_FRAGMENT_FRAMES || HeldBytes(held) + |f.wire| + |f.payload| > MAX_BUFFER
  }

  /** What is sent upstream for a complete text that nothing stops. */
  function Applied(cfg: Config, n: nat, text: Bytes): Bytes {
    if cfg.rewrite.Some? && cfg.rewrite.value(n, text).Replace? then cfg.rewrite.value(n, text).text else text
  }

  datatype Fate = Sent(text: Bytes) | Lost | Fatal | Rejected(error: Error)

  /** What becomes of the n-th complete text. */
  function FateOf(cfg: Config, n: nat, text: Bytes): Fate {
    var throws := cfg.rewrite.Some? && cfg.rewrite.value(n, text).Throws?;
    if cfg.admit.Some? then
      var gate := cfg.admit.value(n, text);
      if gate.Refuses? then if gate.answered then Lost else Fatal
      else if throws then if cfg.rewrite.value(n, text).answered then Lost else Fatal
      else if |Applied(cfg, n, text)| >= FOUR_GIB then Fatal
      else Sent(Applied(cfg, n, text))
    else if throws && cfg.failClosed then Rejected(RewriteThrew)
    else if |Applied(cfg, n, text)| >= FOUR_GIB then Rejected(TooLong)
    else Sent(Applied(cfg, n, text))
  }

  function ResetFragment(s: State): State {
    s.(passthrough := false, held := [])
  }

  /** Hand over everything still held, unchanged, and stop parsing. */
  function Flush(s: State): Step {
    Step(ResetFragment(s).(bypass := true, buffer := []),
         RawAll(s.held) + (if s.buffer == [] then [] else [Raw(s.buffer)]), true)
  }

  function EnterBypass(cfg: Config, s: State): Result<Step, Error> {
    if cfg.failClosed then Failure(CannotValidate) else Success(Flush(s))
  }

  function Emit(cfg: Config, s: State, text: Bytes): (r: Result<Step, Error>)
    ensures r.Success? ==> !r.value.stop && r.value.state == s.(used := s.used + 1) && |r.value.items| == 1
  {
    var after := s.(used := s.used + 1);
    match FateOf(cfg, s.used, text)
    case Rejected(e) => Failure(e)
    case Sent(sent) => Success(Step(after, [Rewritten(text, EncodeMaskedText(sent, cfg.keys(s.used)))], false))
    case Lost => Success(Step(after, [Dropped(text)], false))
    case Fatal => Success(Step(after, [Severed(text)], false))
  }

  /** The treatment of one frame; the state's buffer holds what follows it. */
  function Handle(cfg: Config, s: State, f: Frame): Result<Step, Error> {
    if f.IsControl() then
      if f.Op() == CLOSE then Success(Step(ResetFragment(s), RawAll(s.held) + [Raw(f.wire)], false))
      else Success(Step(s, [Raw(f.wire)], false))
    else if cfg.failClosed && (!f.masked || Rsv(f.b0) != 0 || (f.Op() != TEXT && f.Op() != CONTINUATION)) then
      Failure(UnsupportedFrame)
    else if !f.masked then
      Success(Step(ResetFragment(s), RawAll(s.held) + [Raw(f.wire)], false))
    else if s.passthrough then
      var ends := f.IsFin() && f.Op() <= BINARY;
      Success(Step(s.(passthrough := !ends), [Raw(f.wire)], false))
    else if f.Op() == CONTINUATION then
      if s.held == [] then
        if cfg.failClosed then Failure(OrphanContinuation) else Success(Step(s, [Raw(f.wire)], false))
      else if WouldOverflow(s.held, f) then EnterBypass(cfg, s.(held := s.held + [f]))
      else if f.IsFin() then Emit(cfg, ResetFragment(s), Joined(Payloads(s.held + [f])))
      else Success(Step(s.(held := s.held + [f]), [], false))
    else if !f.IsFin() then
      if f.HasRsv1() || f.Op() != TEXT || cfg.rewrite.None? then
        Success(Step(s.(passthrough := true), [Raw(f.wire)], false))
      else if WouldOverflow(s.held, f) then
        match EnterBypass(cfg, s)
        case Failure(e) => Failure(e)
        case Success(step) => Success(step.(items := [Raw(f.wire)] + step.items))
      else Success(Step(s.(held := s.held + [f]), [], false))
    else if f.HasRsv1() || f.Op() != TEXT || cfg.rewrite.None? then Success(Step(s, [Raw(f.wire)], false))
    else Emit(cfg, s, f.payload)
  }

  /** Everything the rewriter does with the bytes it holds. */
  function Drain(cfg: Config, s: State): Result<Step, Error>
    decreases |s.buffer|
  {
    match ParseFrame(s.buffer, MAX_FRAME)
    case Incomplete => Success(Step(s, [], false))
    case Oversized => EnterBypass(cfg, s)
    case Parsed(f) =>
      var rest := s.buffer[|f.wire|..];
      match Handle(cfg, s.(buffer := rest), f)
      case Failure(e) => Failure(e)
      case Success(step) =>
        if step.stop then Success(step)
        else
          BufferKept(cfg, s.(buffer := rest), f);
          match Drain(cfg, step.state)
          case Failure(e) => Failure(e)
          case Success(next) => Success(next.(items := step.items + next.items))
  }

  lemma BufferKept(cfg: Config, s: State, f: Frame)
    ensures Handle(cfg, s, f).Success? && !Handle(cfg, s, f).value.stop
            ==> Handle(cfg, s, f).value.state.buffer == s.buffer
  {
  }

  /** What is left to do after one frame. */
  function AfterFrame(cfg: Config, step: Step): Result<Step, Error>
  {
    if step.stop then Success(step)
    else
      match Drain(cfg, step.state)
      case Failure(e) => Failure(e)
      case Success(next) => Success(next.(items := step.items + next.items))
  }

  /** One turn of the loop. */
  lemma DrainUnfolds(cfg: Config, s: State)
    ensures match ParseFrame(s.buffer, MAX_FRAME)
            case Incomplete => Drain(cfg, s) == Success(Step(s, [], false))
            case Oversized => Drain(cfg, s) == EnterBypass(cfg, s)
            case Parsed(f) =>
              var handled := Handle(cfg, s.(buffer := s.buffer[|f.wire|..]), f);
              && Drain(cfg, s) == (if handled.Failure? then Failure(handled.error) else AfterFrame(cfg, handled.value))
              && (handled.Success? && !handled.value.stop ==> handled.value.state.buffer == s.buffer[|f.wire|..])
  {
    hide ParseFrame, EnterBypass;
    match ParseFrame(s.buffer, MAX_FRAME)
    case Parsed(f) => BufferKept(cfg, s.(buffer := s.buffer[|f.wire|..]), f);
    case _ =>
    hide Handle;
  }

  function Push(cfg: Config, s: State, chunk: Bytes): Result<Step, Error> {
    if chunk == [] then Success(Step(s, [], false))
    else if s.bypass then Success(Step(s, [Raw(chunk)], false))
    else
      var s1 := s.(buffer := s.buffer + chunk);
      if |s1.buffer| > MAX_BUFFER then EnterBypass(cfg, s1) else Drain(cfg, s1)
  }

  // ---------------------------------------------------------------------------------------------
  // Runs
  // ---------------------------------------------------------------------------------------------

  datatype Operation = Chunk(bytes: Bytes) | FlushAll

  /** State and total output after a run of operations, or the error that ended it. */
  function Execute(cfg: Config, ops: seq<Operation>): Result<Step, Error> {
    if ops == [] then Success(Step(INITIAL, [], false))
    else
      match Execute(cfg, ops[..|ops| - 1])
      case Failure(e) => Failure(e)
      case Success(before) =>
        match ops[|ops| - 1]
        case FlushAll =>
          var step := Flush(before.state);
          Success(step.(items := before.items + step.items))
        case Chunk(bytes) =>
          match Push(cfg, before.state, bytes)
          case Failure(e) => Failure(e)
          case Success(step) => Success(step.(items := before.items + step.items))
  }

  /** The bytes pushed in. */
  function Input(ops: seq<Operation>): Bytes {
    if ops == [] then []
    else Input(ops[..|ops| - 1]) + (if ops[|ops| - 1].Chunk? then ops[|ops| - 1].bytes else [])
  }

  /** The bytes an entry comes to. */
  function Output(item: Item): Bytes {
    match item
    case Raw(wire) => wire
    case Rewritten(_, wire) => wire
    case Dropped(_) => []
    case Severed(_) => []
  }

  function Wire(items: seq<Item>): Bytes {
    if items == [] then [] else Wire(items[..|items| - 1]) + Output(items[|items| - 1])
  }

  /** What the proxy sends on: everything before the first severed text. */
  function Delivered(items: seq<Item>): (sent: seq<Item>)
    ensures |sent| <= |items| && sent == items[..|sent|]
    ensures forall item <- sent :: !item.Severed?
    ensures |sent| < |items| ==> items[|sent|].Severed?
  {
    if items == [] then []
    else
      var init := items[..|items| - 1];
      var sent := Delivered(init);
      if |sent| < |init| || items[|items| - 1].Severed? then sent else items
  }

  lemma {:induction false} WireConcat(a: seq<Item>, b: seq<Item>)
    ensures Wire(a + b) == Wire(a) + Wire(b)
  {
    if b == [] {
      assert a + b == a;
    } else {
      assert (a + b)[..|a + b| - 1] == a + b[..|b| - 1];
      WireConcat(a, b[..|b| - 1]);
    }
  }

  lemma WireNothing()
    ensures Wire([]) == []
  {
  }

  lemma WireOne(item: Item)
    ensures Wire([item]) == Output(item)
  {
    assert [item][..0] == [];
  }
}
