/**
  How an endpoint session ends: for every client stream, which frame or chunk ends it, what has been done
  by then, and which close frame the client is sent.
 */
module WsFarewell {
  import opened WsFrame
  import opened WsStream
  import opened WsLayout
  import opened WsAgreement
  import opened Options
  import Endpoint = WsEndpoint

  const EIGHT_MIB: nat := 8_388_608

  /** The session goes on, or ends with a close frame that gives a code and a reason. */
  datatype End = Goes | Says(code: nat, reason: Bytes)

  /** The close frame: final, unmasked, opcode 8, the code in network byte order, at most 123 bytes of reason. */
  function Goodbye(code: nat, reason: Bytes): Bytes {
    var clipped := if |reason| > 123 then reason[..123] else reason;
    Layout(Fields(true, false, false, false, 8, None, Seven, Digits(code, 2) + clipped))
  }

  /** The code that a client's own close frame carries, if any. */
  function CodeIn(payload: Bytes): nat {
    if |payload| < 2 then 1000 else Number(payload[..2])
  }

  /** The fragmented message under way, with this frame, is over 8 MiB or takes more than 4096 frames. */
  predicate Endless(asm: Assembly, f: Frame) {
    && !f.IsControl() && f.Op() == CONTINUATION && asm.Collecting?
    && (|Joined(asm.parts)| + |f.payload| > EIGHT_MIB || |asm.parts| + 1 > 4096)
  }

  /** What the first frame of some bytes, perhaps only begun, means for the session. */
  function HeadEnd(asm: Assembly, b: Bytes): End {
    if |b| >= 2 && !Masked(b[1]) && Opcode(b[0]) < 8 then Says(1002, Endpoint.UNMASKED_REASON)
    else
      match ParseFrame(b, EIGHT_MIB)
      case Incomplete => Goes
      case Oversized => Says(1009, Endpoint.TOO_BIG_REASON)
      case Parsed(f) =>
        if f.HasRsv1() then Says(1002, Endpoint.RSV1_REASON)
        else if f.Op() == CLOSE then Says(CodeIn(f.payload), [])
        else if Endless(asm, f) then Says(1009, Endpoint.TOO_BIG_REASON)
        else Goes
  }

  /** The decoder as it stands where the session ends, or after all complete frames. */
  function Reach(d: Decoder): (r: Decoder)
    decreases |d.rest|
  {
    if HeadEnd(d.asm, d.rest).Says? then d
    else
      match ParseFrame(d.rest, NO_LIMIT)
      case Parsed(f) => Reach(Feed(d, f).(rest := d.rest[|f.wire|..]))
      case _ => d
  }

  function EndOf(d: Decoder): End {
    HeadEnd(Reach(d).asm, Reach(d).rest)
  }

  /** Control frames carry the mask bit, as section 5.1 of RFC 6455 demands; data frames may lack it. */
  predicate ControlsMasked(b: Bytes)
    decreases |b|
  {
    |b| >= 2 && (Masked(b[1]) || Opcode(b[0]) >= 8) ==>
      && Masked(b[1])
      && match ParseFrame(b, NO_LIMIT)
         case Parsed(f) => ControlsMasked(b[|f.wire|..])
         case _ => true
  }

  /** How a session ends that receives these chunks, and what it has received by then. */
  function Outcome(chunks: seq<Bytes>): (End, Decoder) {
    if chunks == [] then (Goes, FRESH)
    else
      var init, chunk := chunks[..|chunks| - 1], chunks[|chunks| - 1];
      var (end, d) := Outcome(init);
      if end.Says? || chunk == [] then (end, d)
      else if |d.rest| + |chunk| > EIGHT_MIB + 14 then (Says(1009, Endpoint.TOO_BIG_REASON), d)
      else
        var whole := FRESH.(rest := Joined(chunks));
        (EndOf(whole), Reach(whole))
  }

  /** The effects of a session that ends so. */
  function Farewell(env: Endpoint.Environment, t: Trace, end: End): seq<Endpoint.Effect>
    requires end.Says?
  {
    (if env.socket(t.writes).Accepted? then t.log + [Endpoint.Wrote(Goodbye(end.code, end.reason))] else t.log)
    + [Endpoint.ClosedCallback]
  }

  // ---- The close frame ----

  lemma GoodbyeIsWritten(code: nat, reason: Bytes)
    requires code < 0x1_0000
    ensures Endpoint.EncodeClose(code, reason) == Goodbye(code, reason)
  {
    hide Layout, EncodeFrame, Digits;
    TwoDigits(code);
    EncodersFollowLayout(8, Endpoint.ClosePayload(code, reason), true, [0, 0, 0, 0]);
  }

  /** The client reads the close frame as what it is. */
  lemma GoodbyeReads(code: nat, reason: Bytes, suffix: Bytes)
    requires code < 0x1_0000
    ensures var p := ParseFrame(Goodbye(code, reason) + suffix, NO_LIMIT);
            && p.Parsed? && p.frame.wire == Goodbye(code, reason) && p.frame.IsFin() && !p.frame.masked
            && p.frame.Op() == CLOSE && Rsv(p.frame.b0) == 0 && CodeIn(p.frame.payload) == code
            && (|reason| <= 123 ==> p.frame.payload[2..] == reason)
  {
    hide Layout, Digits, Number;
    var clipped := if |reason| > 123 then reason[..123] else reason;
    var h := Fields(true, false, false, false, 8, None, Seven, Digits(code, 2) + clipped);
    LayoutParses(h, suffix, NO_LIMIT);
    FirstBits(h);
    Powers();
    NumberOfDigits(code, 2, 0x1_0000);
    assert (Digits(code, 2) + clipped)[..2] == Digits(code, 2);
  }

  lemma CodeIsTwoBytes(payload: Bytes)
    ensures CodeIn(payload) == Endpoint.CloseCode(payload) && CodeIn(payload) < 0x1_0000
  {
    hide Number;
    if |payload| >= 2 {
      NumberOfTwo(payload, 0);
      assert payload[0..2] == payload[..2];
    }
  }

  lemma EndlessIsTooMuch(asm: Assembly, f: Frame)
    ensures Endless(asm, f) <==> Endpoint.TooMuch(asm, f)
  {
    if asm.Collecting? { JoinedAppend(asm.parts, f.payload); }
  }

  // ---- Cutting ----

  /** The endpoint looks at its buffer as `HeadEnd` does. */
  lemma CutsByHead(b: Bytes)
    requires ControlsMasked(b)
    ensures if |b| >= 2 && !Masked(b[1]) then Endpoint.CutFrame(b).Unmasked? && Opcode(b[0]) < 8
            else match ParseFrame(b, EIGHT_MIB)
                 case Incomplete => Endpoint.CutFrame(b).Wait?
                 case Oversized => Endpoint.CutFrame(b).TooBig?
                 case Parsed(f) => Endpoint.CutFrame(b) == Endpoint.Cut(f) && ControlsMasked(b[|f.wire|..])
  {
    hide ParseFrame, Mask;
    ParseLimits(b, EIGHT_MIB, NO_LIMIT);
    if |b| < 2 || Masked(b[1]) {
      CutsTheSame(b);
      assert ParseFrame(b, EIGHT_MIB).Parsed? ==> ParseFrame(b, NO_LIMIT) == ParseFrame(b, EIGHT_MIB) && |b| >= 2;
    }
  }

  lemma ReachUnfolds(d: Decoder)
    ensures var p := ParseFrame(d.rest, NO_LIMIT);
            Reach(d) == if HeadEnd(d.asm, d.rest).Goes? && p.Parsed?
                        then Reach(Feed(d, p.frame).(rest := d.rest[|p.frame.wire|..])) else d
  {
    hide ParseFrame, HeadEnd, Feed;
  }

  // ---- Effects ----

  /** Closing an open session that has done what a trace says. */
  lemma ClosingSays(env: Endpoint.Environment, s: Endpoint.State, t: Trace, code: nat, reason: Bytes)
    requires Records(s, t) && code < 0x1_0000 && !env.socket(s.writes).Raises?
    ensures var s' := Endpoint.CloseWith(env, s, code, reason);
            s'.closed && s'.log == Farewell(env, t, Says(code, reason))
  {
    hide Goodbye, Endpoint.EncodeClose;
    GoodbyeIsWritten(code, reason);
  }

  lemma HandleSays(env: Endpoint.Environment, s: Endpoint.State, d: Decoder, f: Frame)
    requires Calm(env) && Follows(env, s, d) && |f.payload| < FOUR_GIB
    ensures var end := if f.HasRsv1() then Says(1002, Endpoint.RSV1_REASON)
                       else if f.Op() == CLOSE then Says(CodeIn(f.payload), [])
                       else if Endless(d.asm, f) then Says(1009, Endpoint.TOO_BIG_REASON)
                       else Goes;
            var s' := Endpoint.Handle(env, s, f);
            && (s'.closed <==> end.Says?)
            && (end.Goes? ==> Follows(env, s', Feed(d, f)))
            && (end.Says? ==> s'.log == Farewell(env, AnswerAll(env, d.events), end))
  {
    hide Endpoint.CloseWith, Endpoint.EncodeClose, Endpoint.Deliver, Endpoint.TooMuch, Endless, CodeIn, AnswerAll,
         Goodbye, EncodeFrame, Joined, Feed, Endpoint.TextOf;
    var t := AnswerAll(env, d.events);
    HandleFollows(env, s, d, f);
    EndlessIsTooMuch(d.asm, f);
    CodeIsTwoBytes(f.payload);
    assert Records(s, t) && Records(s.(asm := Idle), t) && !env.socket(s.writes).Raises?;
    ClosingSays(env, s, t, 1002, Endpoint.RSV1_REASON);
    ClosingSays(env, s.(asm := Idle), t, 1009, Endpoint.TOO_BIG_REASON);
    ClosingSays(env, s, t, CodeIn(f.payload), []);
    CloseShape(env, s, CodeIn(f.payload));
  }

  lemma CloseShape(env: Endpoint.Environment, s: Endpoint.State, code: nat)
    ensures Endpoint.CloseWith(env, s, code, [])
         == Endpoint.SettleClose(Endpoint.SendRaw(env, s, Endpoint.EncodeClose(code, [])))
  {
  }

  lemma {:induction false} DrainSays(env: Endpoint.Environment, s: Endpoint.State, d: Decoder)
    requires Calm(env) && Follows(env, s, d) && ControlsMasked(s.buffer)
    ensures var s' := Endpoint.Drain(env, s);
            && (s'.closed <==> EndOf(d).Says?)
            && (EndOf(d).Goes? ==> Follows(env, s', Reach(d)))
            && (EndOf(d).Says? ==> s'.log == Farewell(env, AnswerAll(env, Reach(d).events), EndOf(d)))
    decreases |s.buffer|
  {
    hide ParseFrame, Endpoint.CutFrame, Endpoint.Handle, Endpoint.CloseWith, Endless, CodeIn, AnswerAll, Farewell,
         Reach, ControlsMasked, Endpoint.Drain;
    CutsByHead(s.buffer);
    ParseLimits(s.buffer, EIGHT_MIB, NO_LIMIT);
    ReachUnfolds(d);
    DrainUnfolds(env, s);
    var t := AnswerAll(env, d.events);
    assert Records(s, t) && !env.socket(s.writes).Raises?;
    ClosingSays(env, s, t, 1002, Endpoint.UNMASKED_REASON);
    ClosingSays(env, s, t, 1009, Endpoint.TOO_BIG_REASON);
    var cut := Endpoint.CutFrame(s.buffer);
    if cut.Cut? {
      var f := cut.frame;
      var rest := s.buffer[|f.wire|..];
      var s1, d1 := s.(buffer := rest), d.(rest := rest);
      HandleSays(env, s1, d1, f);
      FeedRest(d, f, rest);
      var s2 := Endpoint.Handle(env, s1, f);
      if s2.closed {
        ClosedDrain(env, s2);
      } else {
        DrainSays(env, s2, Feed(d1, f));
      }
    }
  }

  lemma FeedRest(d: Decoder, f: Frame, rest: Bytes)
    ensures Feed(d.(rest := rest), f) == Feed(d, f).(rest := rest) && d.(rest := rest).asm == d.asm
  {
  }

  lemma DrainUnfolds(env: Endpoint.Environment, s: Endpoint.State)
    requires !s.closed
    ensures var cut := Endpoint.CutFrame(s.buffer);
            Endpoint.Drain(env, s)
            == if cut.Wait? then s
               else if cut.Unmasked? then Endpoint.CloseWith(env, s, 1002, Endpoint.UNMASKED_REASON)
               else if cut.TooBig? then Endpoint.CloseWith(env, s, 1009, Endpoint.TOO_BIG_REASON)
               else Endpoint.Drain(env, Endpoint.Handle(env, s.(buffer := s.buffer[|cut.frame.wire|..]), cut.frame))
  {
    hide Endpoint.CutFrame, Endpoint.Handle, Endpoint.CloseWith;
  }

  lemma ClosedDrain(env: Endpoint.Environment, s: Endpoint.State)
    requires s.closed
    ensures Endpoint.Drain(env, s) == s
  {
  }

  // ---- Streams cut in two ----

  /** A frame that is complete means the same whatever follows it. */
  lemma HeadStays(asm: Assembly, b: Bytes, more: Bytes)
    requires ParseFrame(b, NO_LIMIT).Parsed? && HeadEnd(asm, b).Goes?
    ensures HeadEnd(asm, b + more).Goes?
    ensures ParseFrame(b + more, NO_LIMIT) == ParseFrame(b, NO_LIMIT)
  {
    hide ParseHead, Mask, Endless, CodeIn;
    ParseLimits(b, EIGHT_MIB, NO_LIMIT);
    ParseExtends(b, more, NO_LIMIT);
    ParseExtends(b, more, EIGHT_MIB);
    assert (b + more)[0] == b[0] && (b + more)[1] == b[1];
    hide ParseFrame;
  }

  lemma {:induction false} ReachSplit(d: Decoder, more: Bytes)
    requires EndOf(d).Goes?
    ensures Reach(d) == Run(d)
    ensures Reach(d.(rest := d.rest + more)) == Reach(Run(d).(rest := Run(d).rest + more))
    decreases |d.rest|
  {
    hide ParseFrame, HeadEnd, Reach, Run, Feed;
    var whole := d.(rest := d.rest + more);
    ReachUnfolds(d);
    RunStep(d);
    var p := ParseFrame(d.rest, NO_LIMIT);
    if p.Parsed? && HeadEnd(d.asm, d.rest).Goes? {
      var f := p.frame;
      HeadStays(d.asm, d.rest, more);
      ReachUnfolds(whole);
      var next := Feed(d, f).(rest := d.rest[|f.wire|..]);
      FeedRest(d, f, d.rest + more);
      assert (d.rest + more)[|f.wire|..] == d.rest[|f.wire|..] + more;
      ReachSplit(next, more);
    }
  }

  lemma RunStep(d: Decoder)
    ensures var p := ParseFrame(d.rest, NO_LIMIT);
            Run(d) == if p.Parsed? then Run(Feed(d, p.frame).(rest := d.rest[|p.frame.wire|..])) else d
  {
    hide ParseFrame, Feed;
  }

  lemma {:induction false} MaskedControlsSplit(d: Decoder, more: Bytes)
    requires ControlsMasked(d.rest + more) && EndOf(d).Goes?
    ensures ControlsMasked(d.rest) && ControlsMasked(Run(d).rest + more)
    decreases |d.rest|
  {
    hide ParseFrame, Reach, Run, Feed;
    ReachUnfolds(d);
    RunStep(d);
    NeverOversized(d.rest);
    if |d.rest| >= 2 { assert (d.rest + more)[1] == d.rest[1] && (d.rest + more)[0] == d.rest[0]; }
    if ParseFrame(d.rest, NO_LIMIT).Parsed? {
      var f := ParseFrame(d.rest, NO_LIMIT).frame;
      ParseExtends(d.rest, more, NO_LIMIT);
      assert (d.rest + more)[|f.wire|..] == d.rest[|f.wire|..] + more;
      MaskedControlsSplit(Feed(d, f).(rest := d.rest[|f.wire|..]), more);
    }
    hide HeadEnd;
  }

  /**
    How every session ends.  With a socket and a handler that do not end it themselves, for every stream
    whose control frames are masked and every chunking: the session is closed exactly when the outcome says
    so; as long as it is open it has done what the decoded events call for; and once it is closed it has done
    just that up to the frame or chunk that ended it, then sent, if the socket takes it, one close frame with
    the code and reason that this frame or chunk calls for, and run the close callback.
   */
  lemma {:induction false} EveryEnd(env: Endpoint.Environment, chunks: seq<Bytes>)
    requires Calm(env) && ControlsMasked(Joined(chunks))
    ensures var (end, d) := Outcome(chunks);
            var s := Endpoint.Execute(env, Chunks(chunks));
            && (s.closed <==> end.Says?)
            && (end.Goes? ==>
                  Follows(env, s, d) && d == Decode(Joined(chunks)) && EndOf(FRESH.(rest := Joined(chunks))).Goes?)
            && (end.Says? ==> s.log == Farewell(env, AnswerAll(env, d.events), end))
  {
    hide Endpoint.Drain, Endpoint.CloseWith, AnswerAll, Farewell, Reach, HeadEnd, ControlsMasked, Run, OnlySends,
         Endpoint.Act, CalmReaction;
    if chunks == [] {
      NothingEnds(env);
    } else {
      var init, chunk := chunks[..|chunks| - 1], chunks[|chunks| - 1];
      assert Chunks(chunks)[..|init|] == Chunks(init);
      var w := Joined(init);
      var before, whole := FRESH.(rest := w), FRESH.(rest := w + chunk);
      assert [] + w == w && [] + (w + chunk) == w + chunk;
      BeginningMasked(before, chunk);
      EveryEnd(env, init);
      var s := Endpoint.Execute(env, Chunks(init));
      var (end, d) := Outcome(init);
      if end.Says? || chunk == [] {
        assert w + [] == w;
      } else {
        ReachSplit(before, chunk);
        MaskedControlsSplit(before, chunk);
        var s1, d1 := s.(buffer := s.buffer + chunk), d.(rest := d.rest + chunk);
        if |d.rest| + |chunk| > EIGHT_MIB + 14 {
          ClosingSays(env, s1, AnswerAll(env, d.events), 1009, Endpoint.TOO_BIG_REASON);
        } else {
          DrainSays(env, s1, d1);
          WholeReach(whole);
        }
      }
    }
  }

  lemma NothingEnds(env: Endpoint.Environment)
    ensures EndOf(FRESH).Goes? && Follows(env, Endpoint.INITIAL, FRESH) && Decode([]) == FRESH
  {
    assert ParseFrame([], NO_LIMIT).Incomplete? && ParseFrame([], EIGHT_MIB).Incomplete?;
    assert [] + [] == FRESH.rest;
  }

  /** Masked controls at the beginning of a stream, too. */
  lemma {:induction false} BeginningMasked(d: Decoder, more: Bytes)
    requires ControlsMasked(d.rest + more)
    ensures ControlsMasked(d.rest)
    decreases |d.rest|
  {
    hide ParseFrame;
    NeverOversized(d.rest);
    if |d.rest| >= 2 { assert (d.rest + more)[1] == d.rest[1] && (d.rest + more)[0] == d.rest[0]; }
    if ParseFrame(d.rest, NO_LIMIT).Parsed? {
      var f := ParseFrame(d.rest, NO_LIMIT).frame;
      ParseExtends(d.rest, more, NO_LIMIT);
      assert (d.rest + more)[|f.wire|..] == d.rest[|f.wire|..] + more;
      if Masked(d.rest[1]) { BeginningMasked(d.(rest := d.rest[|f.wire|..]), more); }
    }
  }

  lemma WholeReach(d: Decoder)
    ensures EndOf(d).Goes? ==> Reach(d) == Run(d)
  {
    if EndOf(d).Goes? { ReachSplit(d, []); }
  }

  /** What the session itself can ask of an open endpoint with a writable socket. */
  lemma AsksAreDone(env: Endpoint.Environment, s: Endpoint.State, a: Endpoint.Action)
    requires !s.closed && env.socket(s.writes).Accepted?
    ensures var s' := Endpoint.Act(env, s, a);
            match a
            case SendText(text) =>
              |text| < FOUR_GIB ==>
                var h := Fields(true, false, false, false, 1, None, Shortest(|text|), text);
                !s'.closed && s'.log == s.log + [Endpoint.Wrote(Layout(h))]
            case Close(code, reason) =>
              if code < 0x1_0000 then
                s'.closed && s'.log == s.log + [Endpoint.Wrote(Goodbye(code, reason)), Endpoint.ClosedCallback]
              else s' == s
            case Destroy => s'.closed && s'.log == s.log + [Endpoint.ClosedCallback]
  {
    hide Layout, EncodeFrame, Goodbye, Endpoint.EncodeClose;
    match a
    case SendText(text) => if |text| < FOUR_GIB { EncodersFollowLayout(1, text, true, [0, 0, 0, 0]); }
    case Close(code, reason) => if code < 0x1_0000 { GoodbyeIsWritten(code, reason); }
    case Destroy =>
  }
}
