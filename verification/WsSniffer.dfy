/**
  The observing frame parser: it watches a byte stream, reports text messages, pings and close frames,
  and gives up on oversized input without disturbing the tunnel.
 */
module WsSniffer {
  import opened WsFrame
  import opened WsStream

  const MAX_MESSAGE: nat := 16 * 1024 * 1024
  const MAX_FRAGMENTS: nat := 4096

  /** What the sniffer's callbacks see, in order. */
  datatype Observation =
    | Text(payload: Bytes)
    | Ping(payload: Bytes)
    | CloseFrame(payload: Bytes)
    | HandlerFailed
    | Overflow

  /** `fails(n, text)` says that the text callback throws on the n-th text; it may depend on all before it. */
  type Handler = (nat, Bytes) -> bool

  /** `texts` counts the texts reported so far. */
  datatype State = State(buffer: Bytes, asm: Assembly, texts: nat, log: seq<Observation>)

  const INITIAL := State([], Idle, 0, [])

  predicate IsReport(e: Event) { e.Message? && e.opcode == TEXT && !e.compressed }

  function ReportCount(events: seq<Event>): nat {
    if events == [] then 0
    else ReportCount(events[..|events| - 1]) + if IsReport(events[|events| - 1]) then 1 else 0
  }

  /** The callbacks that one decoded event leads to after `n` texts. */
  function Reported(e: Event, n: nat, fails: Handler): seq<Observation> {
    match e
    case Control(b0, payload) =>
      if Opcode(b0) == CLOSE then [CloseFrame(payload)]
      else if Opcode(b0) == PING then [Ping(payload)]
      else []
    case Message(_, _, payload) =>
      if IsReport(e) then [Text(payload)] + (if fails(n, payload) then [HandlerFailed] else []) else []
  }

  function ReportedAll(events: seq<Event>, fails: Handler): seq<Observation> {
    if events == [] then []
    else
      var init := events[..|events| - 1];
      ReportedAll(init, fails) + Reported(events[|events| - 1], ReportCount(init), fails)
  }

  /** A continuation frame makes the message under way too large or too fragmented. */
  predicate TooMuch(asm: Assembly, f: Frame) {
    !f.IsControl() && f.Op() == CONTINUATION && asm.Collecting? &&
    (|Joined(asm.parts + [f.payload])| > MAX_MESSAGE || |asm.parts| + 1 > MAX_FRAGMENTS)
  }

  function Overflowed(s: State): State {
    State([], Idle, s.texts, s.log + [Overflow])
  }

  /** Everything the sniffer does with the bytes it holds. */
  function Drain(s: State, fails: Handler): (r: State)
    ensures s.log <= r.log
    decreases |s.buffer|
  {
    match ParseFrame(s.buffer, MAX_MESSAGE)
    case Incomplete => s
    case Oversized => Overflowed(s)
    case Parsed(f) =>
      if TooMuch(s.asm, f) then Overflowed(s)
      else Drain(After(s, f, fails), fails)
  }

  /** Report what a frame completed, if anything. */
  function Notice(s: State, done: seq<Event>, fails: Handler): State {
    if done == [] then s
    else s.(texts := s.texts + (if IsReport(done[0]) then 1 else 0), log := s.log + Reported(done[0], s.texts, fails))
  }

  function Handled(s: State, f: Frame, fails: Handler): State {
    Notice(s.(asm := NextAssembly(s.asm, f)), Completed(s.asm, f), fails)
  }

  lemma NoticeNothing(s: State, fails: Handler)
    ensures Notice(s, [], fails) == s
  {
  }

  lemma NoticeUnreported(s: State, e: Event, fails: Handler)
    requires e.Message? && !IsReport(e)
    ensures Notice(s, [e], fails) == s
  {
    assert s.log + [] == s.log;
  }

  lemma OnePart(part: Bytes)
    ensures Joined([part]) == part
  {
    assert [part][..0] == [] && Joined<byte>([]) == [];
  }

  function After(s: State, f: Frame, fails: Handler): State
    requires |f.wire| <= |s.buffer|
  {
    Handled(s.(buffer := s.buffer[|f.wire|..]), f, fails)
  }

  function Push(s: State, chunk: Bytes, fails: Handler): (r: State)
    ensures s.log <= r.log
  {
    if chunk == [] then s
    else if |s.buffer| + |chunk| > MAX_MESSAGE + 14 then Overflowed(s)
    else Drain(s.(buffer := s.buffer + chunk), fails)
  }

  function PushAll(chunks: seq<Bytes>, fails: Handler): State {
    if chunks == [] then INITIAL
    else Push(PushAll(chunks[..|chunks| - 1], fails), chunks[|chunks| - 1], fails)
  }

  // ---------------------------------------------------------------------------------------------
  // The sniffer refines the decoder
  // ---------------------------------------------------------------------------------------------

  /** The stream itself (not its chunking) stays within the size limits from here on. */
  predicate Fits(asm: Assembly, b: Bytes)
    decreases |b|
  {
    match ParseFrame(b, MAX_MESSAGE)
    case Incomplete => true
    case Oversized => false
    case Parsed(f) => !TooMuch(asm, f) && Fits(NextAssembly(asm, f), b[|f.wire|..])
  }

  ghost predicate Agrees(s: State, d: Decoder, fails: Handler) {
    s.buffer == d.rest && s.asm == d.asm && s.log == ReportedAll(d.events, fails) && s.texts == ReportCount(d.events)
  }

  lemma ReportedNext(events: seq<Event>, x: seq<Event>, fails: Handler)
    requires |x| <= 1
    ensures ReportedAll(events + x, fails)
         == ReportedAll(events, fails) + (if x == [] then [] else Reported(x[0], ReportCount(events), fails))
    ensures ReportCount(events + x) == ReportCount(events) + if x != [] && IsReport(x[0]) then 1 else 0
  {
    hide Reported, IsReport;
    if x == [] {
      assert events + x == events;
    } else {
      assert (events + x)[..|events|] == events;
    }
  }

  lemma AfterAgrees(s: State, d: Decoder, f: Frame, fails: Handler)
    requires Agrees(s, d, fails) && |f.wire| <= |s.buffer|
    ensures Agrees(After(s, f, fails), Feed(d, f).(rest := d.rest[|f.wire|..]), fails)
    ensures Overflow !in s.log ==> Overflow !in After(s, f, fails).log
  {
    hide ReportedAll, ReportCount, Joined;
    ReportedNext(d.events, Completed(d.asm, f), fails);
  }

  lemma {:induction false} DrainRefines(s: State, d: Decoder, fails: Handler)
    requires Agrees(s, d, fails) && Overflow !in s.log
    ensures Overflow !in Drain(s, fails).log <==> Fits(s.asm, s.buffer)
    ensures Fits(s.asm, s.buffer) ==> Agrees(Drain(s, fails), Run(d), fails)
    decreases |s.buffer|
  {
    ParseLimits(s.buffer, MAX_MESSAGE, NO_LIMIT);
    hide ParseFrame, NextAssembly, Completed, ReportedAll, ReportCount, TooMuch, After;
    match ParseFrame(s.buffer, MAX_MESSAGE)
    case Incomplete =>
    case Oversized => assert Overflow in Overflowed(s).log;
    case Parsed(f) =>
      if TooMuch(s.asm, f) {
        assert Overflow in Overflowed(s).log;
      } else {
        AfterAgrees(s, d, f, fails);
        DrainRefines(After(s, f, fails), Feed(d, f).(rest := d.rest[|f.wire|..]), fails);
      }
  }

  lemma {:induction false} FitsSplit(asm: Assembly, d: Decoder, more: Bytes)
    requires d.asm == asm
    ensures Fits(asm, d.rest + more) <==> Fits(asm, d.rest) && Fits(Run(d).asm, Run(d).rest + more)
    decreases |d.rest|
  {
    ParseLimits(d.rest, MAX_MESSAGE, NO_LIMIT);
    match ParseFrame(d.rest, MAX_MESSAGE)
    case Incomplete =>
    case Oversized => ParseExtends(d.rest, more, MAX_MESSAGE);
    case Parsed(f) =>
      ParseExtends(d.rest, more, MAX_MESSAGE);
      assert (d.rest + more)[|f.wire|..] == d.rest[|f.wire|..] + more;
      if !TooMuch(asm, f) {
        FitsSplit(NextAssembly(asm, f), Feed(d, f).(rest := d.rest[|f.wire|..]), more);
      }
  }

  /** No single push makes the buffer exceed its cap: the one limit that depends on the chunking. */
  predicate BufferKept(chunks: seq<Bytes>) {
    chunks == [] ||
    (var before, chunk := chunks[..|chunks| - 1], chunks[|chunks| - 1];
     BufferKept(before) && |Decode(Joined(before)).rest| + |chunk| <= MAX_MESSAGE + 14)
  }

  /**
    As long as the buffer cap is kept, the sniffer overflows exactly when the stream breaks a size
    limit, and otherwise reports what the decoder finds in the whole stream, with the same bytes and
    the same unfinished message left over.
   */
  lemma {:induction false} SnifferRefinesDecoder(chunks: seq<Bytes>, fails: Handler)
    requires BufferKept(chunks)
    ensures Overflow !in PushAll(chunks, fails).log <==> Fits(Idle, Joined(chunks))
    ensures Fits(Idle, Joined(chunks)) ==> Agrees(PushAll(chunks, fails), Decode(Joined(chunks)), fails)
  {
    if chunks == [] {
      assert ParseFrame([], NO_LIMIT).Incomplete?;
    } else {
      var before, chunk := chunks[..|chunks| - 1], chunks[|chunks| - 1];
      var s, d := PushAll(before, fails), Decode(Joined(before));
      SnifferRefinesDecoder(before, fails);
      DecodeMore(Joined(before), chunk);
      var whole := FRESH.(rest := Joined(before));
      assert [] + Joined(before) == Joined(before);
      FitsSplit(Idle, whole, chunk);
      if Fits(Idle, Joined(before)) {
        if chunk == [] {
          assert d.rest + [] == d.rest;
          RunSettles(whole);
          ParseLimits(d.rest, MAX_MESSAGE, NO_LIMIT);
          SettledFits(whole);
        } else {
          DrainRefines(s.(buffer := s.buffer + chunk), d.(rest := d.rest + chunk), fails);
        }
      }
    }
  }

  lemma {:induction false} SettledFits(d: Decoder)
    requires Fits(d.asm, d.rest)
    ensures Fits(Run(d).asm, Run(d).rest)
    decreases |d.rest|
  {
    ParseLimits(d.rest, MAX_MESSAGE, NO_LIMIT);
    match ParseFrame(d.rest, MAX_MESSAGE)
    case Parsed(f) => SettledFits(Feed(d, f).(rest := d.rest[|f.wire|..]));
    case _ =>
  }

  /** Two ways of cutting one stream lead to the same callbacks and the same state, or both overflow. */
  lemma ChunkingIndependence(a: seq<Bytes>, b: seq<Bytes>, fails: Handler)
    requires Joined(a) == Joined(b) && BufferKept(a) && BufferKept(b)
    ensures Overflow in PushAll(a, fails).log <==> Overflow in PushAll(b, fails).log
    ensures Overflow !in PushAll(a, fails).log ==> PushAll(a, fails) == PushAll(b, fails)
  {
    SnifferRefinesDecoder(a, fails);
    SnifferRefinesDecoder(b, fails);
  }
}

/** The sniffer as the object the proxy holds: buffers updated in place, callbacks recorded in `log`. */
module WsSnifferObject {
  import opened WsFrame
  import opened WsStream
  import opened WsSniffer
  import opened WsEncoders
  import opened Options

  class FrameSniffer {
    const fails: Handler
    var buffer: Bytes
    var fragmentedOpcode: Option<nat>
    var fragmentedChunks: seq<Bytes>
    var fragmentedRsv1: bool
    var fragmentedBytes: nat
    var texts: nat
    var log: seq<Observation>

    ghost predicate Valid()
      reads this
    {
      && fragmentedBytes == |Joined(fragmentedChunks)|
      && (fragmentedOpcode.None? ==> fragmentedChunks == [] && !fragmentedRsv1)
    }

    ghost function Model(): State
      reads this
    {
      State(buffer,
            if fragmentedOpcode.None? then Idle
            else Collecting(fragmentedOpcode.value, fragmentedRsv1, fragmentedChunks),
            texts, log)
    }

    constructor (fails: Handler)
      ensures Valid() && Model() == INITIAL && this.fails == fails
    {
      this.fails := fails;
      buffer, texts, log := [], 0, [];
      fragmentedOpcode, fragmentedChunks, fragmentedRsv1, fragmentedBytes := None, [], false, 0;
    }

    method ResetFragment()
      modifies this`fragmentedOpcode, this`fragmentedChunks, this`fragmentedRsv1, this`fragmentedBytes
      ensures Valid() && Model() == old(Model()).(asm := Idle)
    {
      fragmentedOpcode, fragmentedChunks, fragmentedRsv1, fragmentedBytes := None, [], false, 0;
    }

    method GiveUp()
      modifies this
      ensures Valid() && Model() == Overflowed(old(Model()))
    {
      buffer := [];
      ResetFragment();
      log := log + [Overflow];
    }

    method EmitText(text: Bytes)
      requires Valid()
      modifies this`log, this`texts
      ensures Valid() && Model() == Notice(old(Model()), [Message(TEXT, false, text)], fails)
    {
      log := log + [Text(text)];
      if fails(texts, text) { log := log + [HandlerFailed]; }
      texts := texts + 1;
    }

    method Push(chunk: Bytes)
      requires Valid()
      modifies this
      ensures Valid() && Model() == WsSniffer.Push(old(Model()), chunk, fails)
    {
      if |chunk| == 0 { return; }
      buffer := buffer + chunk;
      if |buffer| > MAX_MESSAGE + 14 {
        GiveUp();
        return;
      }
      ghost var target := Drain(Model(), fails);
      while true
        invariant Valid() && Drain(Model(), fails) == target
        decreases |buffer|
      {
        var p := ReadFrame(buffer, MAX_MESSAGE);
        hide ParseFrame;
        match p {
          case Incomplete => return;
          case Oversized =>
            GiveUp();
            return;
          case Parsed(f) =>
            buffer := buffer[|f.wire|..];
            var stop := Handle(f);
            if stop { return; }
        }
      }
    }

    /** One frame already cut from the buffer; `stop` when it made the message under way too large. */
    method Handle(f: Frame) returns (stop: bool)
      requires Valid()
      modifies this
      ensures Valid() && stop == TooMuch(old(Model()).asm, f)
      ensures Model() == if stop then Overflowed(old(Model())) else Handled(old(Model()), f, fails)
    {
      hide Notice, Joined;
      stop := false;
      if f.Op() >= 0x8 {
        HandleControl(f);
      } else if f.Op() == CONTINUATION {
        stop := HandleContinuation(f);
      } else if !f.IsFin() {
        OnePart(f.payload);
        fragmentedOpcode, fragmentedRsv1 := Some(f.Op()), f.HasRsv1();
        fragmentedChunks, fragmentedBytes := [f.payload], |f.payload|;
        NoticeNothing(Model(), fails);
      } else if !f.HasRsv1() && f.Op() == TEXT {
        EmitText(f.payload);
      } else {
        NoticeUnreported(Model(), Message(f.Op(), f.HasRsv1(), f.payload), fails);
      }
    }

    /** A close frame abandons the message under way. */
    method HandleControl(f: Frame)
      requires Valid() && f.IsControl()
      modifies this
      ensures Valid() && Model() == Handled(old(Model()), f, fails)
    {
      hide Joined;
      if f.Op() == CLOSE {
        log := log + [CloseFrame(f.payload)];
        ResetFragment();
      } else if f.Op() == PING {
        log := log + [Ping(f.payload)];
      } else {
        assert log + [] == log;
      }
    }

    method HandleContinuation(f: Frame) returns (stop: bool)
      requires Valid() && f.Op() == CONTINUATION
      modifies this
      ensures Valid() && stop == TooMuch(old(Model()).asm, f)
      ensures Model() == if stop then Overflowed(old(Model())) else Handled(old(Model()), f, fails)
    {
      hide Notice, Joined;
      NoticeNothing(Model(), fails);
      if fragmentedOpcode.None? { return false; }
      JoinedAppend(fragmentedChunks, f.payload);
      fragmentedChunks := fragmentedChunks + [f.payload];
      fragmentedBytes := fragmentedBytes + |f.payload|;
      if fragmentedBytes > MAX_MESSAGE || |fragmentedChunks| > MAX_FRAGMENTS {
        GiveUp();
        return true;
      }
      NoticeNothing(Model(), fails);
      if f.IsFin() {
        var full, op, wasCompressed := Joined(fragmentedChunks), fragmentedOpcode.value, fragmentedRsv1 || f.HasRsv1();
        ResetFragment();
        if !wasCompressed && op == TEXT {
          EmitText(full);
        } else {
          NoticeUnreported(Model(), Message(op, wasCompressed, full), fails);
        }
      }
      stop := false;
    }

    method Reset()
      modifies this
      ensures Valid() && Model() == State([], Idle, old(texts), old(log))
    {
      buffer := [];
      ResetFragment();
    }
  }
}
