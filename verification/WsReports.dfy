/**
  What the sniffer's callbacks are told, in terms of the messages and control frames of the stream alone, and
  the sizes at which it gives up.
 */
module WsReports {
  import opened WsFrame
  import opened WsStream
  import opened WsSniffer

  /** Without the reports of failing handlers. */
  function Seen(log: seq<Observation>): seq<Observation> {
    if log == [] then []
    else if log[0].HandlerFailed? then Seen(log[1..])
    else [log[0]] + Seen(log[1..])
  }

  /** Plain texts, pings and close frames; everything else is passed over. */
  function ToldOf(events: seq<Event>): seq<Observation> {
    if events == [] then []
    else
      ToldOf(events[..|events| - 1]) +
      (match events[|events| - 1]
       case Message(opcode, compressed, payload) => if opcode == 1 && !compressed then [Text(payload)] else []
       case Control(b0, payload) =>
         if b0 % 16 == 8 then [CloseFrame(payload)] else if b0 % 16 == 9 then [Ping(payload)] else [])
  }

  function TextsSeen(log: seq<Observation>): seq<Bytes> {
    if log == [] then []
    else TextsSeen(log[..|log| - 1]) + if log[|log| - 1].Text? then [log[|log| - 1].payload] else []
  }

  /** An entry is a failure exactly when it stands behind a text on which the callback throws. */
  ghost predicate FitsAt(log: seq<Observation>, i: nat, fails: Handler)
    requires i < |log|
  {
    log[i].HandlerFailed? <==>
      i > 0 && log[i - 1].Text? && fails(|TextsSeen(log[..i - 1])|, log[i - 1].payload)
  }

  /** A text is followed by a failure exactly when the callback throws on it; nothing else is. */
  ghost predicate FailuresFit(log: seq<Observation>, fails: Handler) {
    forall i :: 0 <= i < |log| ==> FitsAt(log, i, fails)
  }

  lemma {:induction false} SeenConcat(a: seq<Observation>, b: seq<Observation>)
    ensures Seen(a + b) == Seen(a) + Seen(b)
  {
    if a == [] {
      assert a + b == b;
    } else {
      assert (a + b)[1..] == a[1..] + b;
      SeenConcat(a[1..], b);
    }
  }

  lemma SeenOfOne(e: Event, n: nat, fails: Handler)
    ensures var more := Reported(e, n, fails);
            Seen(more) == match e
                          case Message(opcode, compressed, payload) =>
                            if opcode == 1 && !compressed then [Text(payload)] else []
                          case Control(b0, payload) =>
                            if b0 % 16 == 8 then [CloseFrame(payload)] else if b0 % 16 == 9 then [Ping(payload)] else []
  {
    var more := Reported(e, n, fails);
    if |more| == 1 {
      SeenOne(more[0]);
      assert more == [more[0]];
    } else if |more| == 2 {
      SeenOne(more[0]);
      SeenOne(more[1]);
      SeenConcat([more[0]], [more[1]]);
      assert more == [more[0]] + [more[1]];
    }
  }

  lemma SeenOne(o: Observation)
    ensures Seen([o]) == if o.HandlerFailed? then [] else [o]
  {
    assert [o][1..] == [];
  }

  /** The callbacks see exactly the plain texts, pings and close frames of the events, in order. */
  lemma {:induction false} ToldExactly(events: seq<Event>, fails: Handler)
    ensures Seen(ReportedAll(events, fails)) == ToldOf(events)
  {
    hide Reported, Seen;
    if events == [] {
      NothingSeen();
    } else {
      var init := events[..|events| - 1];
      ToldExactly(init, fails);
      var more := Reported(events[|events| - 1], ReportCount(init), fails);
      SeenConcat(ReportedAll(init, fails), more);
      SeenOfOne(events[|events| - 1], ReportCount(init), fails);
    }
  }

  lemma NothingSeen()
    ensures Seen([]) == []
  {
  }

  // ---- Failing callbacks ----

  lemma OneMore(log: seq<Observation>, o: Observation)
    ensures TextsSeen(log + [o]) == TextsSeen(log) + if o.Text? then [o.payload] else []
  {
    assert (log + [o])[..|log|] == log;
  }

  lemma FitsBefore(log: seq<Observation>, o: Observation, i: nat, fails: Handler)
    requires i < |log|
    ensures FitsAt(log + [o], i, fails) <==> FitsAt(log, i, fails)
  {
    hide TextsSeen;
    if i > 0 { assert (log + [o])[..i - 1] == log[..i - 1]; }
  }

  /** The last text, if the log ends with one, makes the callback throw. */
  ghost predicate Throwing(log: seq<Observation>, fails: Handler) {
    log != [] && log[|log| - 1].Text? && fails(|TextsSeen(log[..|log| - 1])|, log[|log| - 1].payload)
  }

  lemma FitMore(log: seq<Observation>, o: Observation, fails: Handler)
    requires FailuresFit(log, fails) && (o.HandlerFailed? <==> Throwing(log, fails))
    ensures FailuresFit(log + [o], fails)
  {
    hide TextsSeen, FitsAt;
    forall i | 0 <= i < |log + [o]| ensures FitsAt(log + [o], i, fails) {
      if i < |log| {
        FitsBefore(log, o, i, fails);
      } else {
        FitsLast(log, o, fails);
      }
    }
  }

  lemma FitsLast(log: seq<Observation>, o: Observation, fails: Handler)
    requires o.HandlerFailed? <==> Throwing(log, fails)
    ensures FitsAt(log + [o], |log|, fails)
  {
    hide TextsSeen;
    if |log| > 0 { assert (log + [o])[..|log| - 1] == log[..|log| - 1]; }
  }

  lemma ThrowingNext(log: seq<Observation>, o: Observation, fails: Handler)
    ensures Throwing(log + [o], fails) <==> o.Text? && fails(|TextsSeen(log)|, o.payload)
  {
    hide TextsSeen;
    assert (log + [o])[..|log|] == log;
  }

  lemma ReportedShape(e: Event, n: nat, fails: Handler)
    ensures var more := Reported(e, n, fails);
            if IsReport(e) then
              more == [Text(e.payload)] + if fails(n, e.payload) then [HandlerFailed] else []
            else |more| <= 1 && forall o <- more :: !o.Text? && !o.HandlerFailed?
  {
  }

  lemma ReportFits(log: seq<Observation>, e: Event, fails: Handler)
    requires FailuresFit(log, fails) && !Throwing(log, fails)
    ensures var all := log + Reported(e, |TextsSeen(log)|, fails);
            && FailuresFit(all, fails) && !Throwing(all, fails)
            && |TextsSeen(all)| == |TextsSeen(log)| + if IsReport(e) then 1 else 0
  {
    hide FailuresFit, Throwing, Reported, IsReport, TextsSeen;
    var n := |TextsSeen(log)|;
    var more := Reported(e, n, fails);
    ReportedShape(e, n, fails);
    if more == [] {
      assert log + more == log;
    } else {
      FitMore(log, more[0], fails);
      OneMore(log, more[0]);
      ThrowingNext(log, more[0], fails);
      var all := log + [more[0]];
      if |more| == 2 {
        FitMore(all, more[1], fails);
        OneMore(all, more[1]);
        ThrowingNext(all, more[1], fails);
        assert log + more == all + [more[1]];
      } else {
        assert log + more == all;
      }
    }
  }

  lemma {:induction false} FailuresFollow(events: seq<Event>, fails: Handler)
    ensures var log := ReportedAll(events, fails);
            FailuresFit(log, fails) && !Throwing(log, fails) && |TextsSeen(log)| == ReportCount(events)
  {
    hide Reported, FailuresFit, Throwing, TextsSeen, IsReport;
    if events == [] {
      NothingFails(fails);
    } else {
      FailuresFollow(events[..|events| - 1], fails);
      ReportFits(ReportedAll(events[..|events| - 1], fails), events[|events| - 1], fails);
    }
  }

  lemma NothingFails(fails: Handler)
    ensures FailuresFit([], fails) && !Throwing([], fails) && TextsSeen([]) == []
  {
  }

  // ---- Sizes ----

  /** A message is too much exactly over 16 MiB, or over 4096 frames. */
  lemma TooMuchMeans(asm: Assembly, f: Frame)
    ensures TooMuch(asm, f) <==>
              && !f.IsControl() && f.Op() == 0 && asm.Collecting?
              && (|Joined(asm.parts)| + |f.payload| > 16_777_216 || |asm.parts| + 1 > 4096)
  {
    if asm.Collecting? { JoinedAppend(asm.parts, f.payload); }
  }

  /**
    What a sniffer reports.  For every stream within the limits, every chunking that keeps the buffer cap and
    every text callback: plain texts, pings and close frames of the whole stream, each once and in order; and
    right behind each text on which the callback throws, that failure.
   */
  lemma SnifferTells(chunks: seq<Bytes>, fails: Handler)
    requires BufferKept(chunks) && Fits(Idle, Joined(chunks))
    ensures var log := PushAll(chunks, fails).log;
            Seen(log) == ToldOf(Decode(Joined(chunks)).events) && FailuresFit(log, fails)
  {
    SnifferRefinesDecoder(chunks, fails);
    ToldExactly(Decode(Joined(chunks)).events, fails);
    FailuresFollow(Decode(Joined(chunks)).events, fails);
    hide *;
  }

  // ---- Overflow and what follows it ----

  const SIXTEEN_MIB: nat := 16_777_216

  /** The first frame is announced over 16 MiB, or makes its message too much. */
  predicate GivesUp(asm: Assembly, b: Bytes) {
    match ParseFrame(b, SIXTEEN_MIB)
    case Incomplete => false
    case Oversized => true
    case Parsed(f) =>
      && !f.IsControl() && f.Op() == 0 && asm.Collecting?
      && (|Joined(asm.parts)| + |f.payload| > SIXTEEN_MIB || |asm.parts| + 1 > 4096)
  }

  /** The decoder as it stands before the first such frame, or after all complete ones. */
  function Reach(d: Decoder): (r: Decoder)
    decreases |d.rest|
  {
    if GivesUp(d.asm, d.rest) then d
    else
      match ParseFrame(d.rest, NO_LIMIT)
      case Parsed(f) => Reach(Feed(d, f).(rest := d.rest[|f.wire|..]))
      case _ => d
  }

  /** The callback as it looks from the text on that is number `n`. */
  function Later(fails: Handler, n: nat): Handler { (k: nat, text: Bytes) => fails(n + k, text) }

  /** What has been told, how many texts, and where the decoder stands that has received nothing else since. */
  datatype Told = Told(log: seq<Observation>, texts: nat, d: Decoder)

  /** A session, chunk by chunk: whenever a limit is broken that is told, and all that was received is forgotten. */
  function Account(chunks: seq<Bytes>, fails: Handler): Told {
    if chunks == [] then Told([], 0, FRESH)
    else
      var t, chunk := Account(chunks[..|chunks| - 1], fails), chunks[|chunks| - 1];
      if chunk == [] then t
      else if |t.d.rest| + |chunk| > SIXTEEN_MIB + 14 then Told(t.log + [Overflow], t.texts, FRESH)
      else
        var r := Reach(Decoder(t.d.asm, t.d.rest + chunk, []));
        var log, texts := t.log + ReportedAll(r.events, Later(fails, t.texts)), t.texts + ReportCount(r.events);
        if GivesUp(r.asm, r.rest) then Told(log + [Overflow], texts, FRESH)
        else Told(log, texts, Decoder(r.asm, r.rest, []))
  }

  ghost predicate Agreed(s: State, d: Decoder, log: seq<Observation>, n: nat, fails: Handler) {
    && s.buffer == d.rest && s.asm == d.asm
    && s.log == log + ReportedAll(d.events, Later(fails, n)) && s.texts == n + ReportCount(d.events)
  }

  lemma LaterReports(e: Event, k: nat, n: nat, fails: Handler)
    ensures Reported(e, k, Later(fails, n)) == Reported(e, n + k, fails)
  {
  }

  lemma AfterAgreed(s: State, d: Decoder, f: Frame, log: seq<Observation>, n: nat, fails: Handler)
    requires Agreed(s, d, log, n, fails) && |f.wire| <= |s.buffer|
    ensures Agreed(After(s, f, fails), Feed(d, f).(rest := d.rest[|f.wire|..]), log, n, fails)
  {
    hide ReportedAll, ReportCount, Joined, Reported;
    var done := Completed(d.asm, f);
    ReportedNext(d.events, done, Later(fails, n));
    if done != [] { LaterReports(done[0], ReportCount(d.events), n, fails); }
    hide NextAssembly, Completed;
    var told := ReportedAll(d.events, Later(fails, n));
    if done != [] {
      var more := Reported(done[0], s.texts, fails);
      assert log + told + more == log + (told + more);
    } else {
      assert told + [] == told;
    }
  }

  lemma ReachUnfolds(d: Decoder)
    ensures var p := ParseFrame(d.rest, NO_LIMIT);
            Reach(d) == if !GivesUp(d.asm, d.rest) && p.Parsed?
                        then Reach(Feed(d, p.frame).(rest := d.rest[|p.frame.wire|..])) else d
  {
    hide ParseFrame, GivesUp, Feed;
  }

  lemma DrainUnfolds(s: State, fails: Handler)
    ensures var p := ParseFrame(s.buffer, MAX_MESSAGE);
            Drain(s, fails) == if p.Incomplete? then s
                               else if p.Oversized? || TooMuch(s.asm, p.frame) then Overflowed(s)
                               else Drain(After(s, p.frame, fails), fails)
  {
    hide ParseFrame, TooMuch, After;
  }

  lemma GivesUpMeans(asm: Assembly, b: Bytes)
    ensures var p := ParseFrame(b, SIXTEEN_MIB);
            GivesUp(asm, b) <==> p.Oversized? || (p.Parsed? && TooMuch(asm, p.frame))
  {
    hide ParseFrame, TooMuch;
    match ParseFrame(b, SIXTEEN_MIB)
    case Parsed(f) => TooMuchMeans(asm, f);
    case _ =>
  }

  lemma {:induction false} DrainTells(s: State, d: Decoder, log: seq<Observation>, n: nat, fails: Handler)
    requires Agreed(s, d, log, n, fails)
    ensures var r, s' := Reach(d), Drain(s, fails);
            var told, texts := log + ReportedAll(r.events, Later(fails, n)), n + ReportCount(r.events);
            s' == if GivesUp(r.asm, r.rest) then State([], Idle, texts, told + [Overflow])
                  else State(r.rest, r.asm, texts, told)
    decreases |s.buffer|
  {
    hide ParseFrame, TooMuch, After, GivesUp, Reach, Drain, Feed, ReportedAll, ReportCount;
    ReachUnfolds(d);
    DrainUnfolds(s, fails);
    GivesUpMeans(s.asm, s.buffer);
    ParseLimits(s.buffer, MAX_MESSAGE, NO_LIMIT);
    if !GivesUp(d.asm, d.rest) && ParseFrame(d.rest, NO_LIMIT).Parsed? {
      var f := ParseFrame(d.rest, NO_LIMIT).frame;
      AfterAgreed(s, d, f, log, n, fails);
      DrainTells(After(s, f, fails), Feed(d, f).(rest := d.rest[|f.wire|..]), log, n, fails);
    }
  }

  /**
    Every session of the sniffer, over limits or not: for all chunks and every text callback it has told, at
    any moment, what the account says, and holds exactly what the account still has to receive. After an
    overflow it starts afresh with the next chunk; what was told before stays, and the texts go on counting.
   */
  lemma {:induction false} EverySession(chunks: seq<Bytes>, fails: Handler)
    ensures var s, t := PushAll(chunks, fails), Account(chunks, fails);
            s.log == t.log && s.texts == t.texts && s.buffer == t.d.rest && s.asm == t.d.asm && t.d.events == []
  {
    hide Drain, Reach, GivesUp, ReportedAll, ReportCount, Later;
    if chunks != [] {
      var init, chunk := chunks[..|chunks| - 1], chunks[|chunks| - 1];
      EverySession(init, fails);
      var s, t := PushAll(init, fails), Account(init, fails);
      if chunk != [] && |s.buffer| + |chunk| <= SIXTEEN_MIB + 14 {
        var s1, d1 := s.(buffer := s.buffer + chunk), Decoder(t.d.asm, t.d.rest + chunk, []);
        NothingReported(fails, t.texts);
        assert t.log + [] == t.log;
        DrainTells(s1, d1, t.log, t.texts, fails);
      }
    }
  }

  lemma NothingReported(fails: Handler, n: nat)
    ensures ReportedAll([], Later(fails, n)) == [] && ReportCount([]) == 0
  {
  }
}
