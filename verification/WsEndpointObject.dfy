/** The endpoint as the object a session holds: parser buffers, close state and effects in one place. */
module WsEndpointObject {
  import opened WsFrame
  import opened WsStream
  import opened WsEndpoint
  import opened WsEncoders
  import opened Options

  class EndpointSession {
    const env: Environment
    var closed: bool
    var buffer: Bytes
    var fragmentedOpcode: Option<nat>
    var fragmentedChunks: seq<Bytes>
    var fragmentedBytes: nat
    var writes: nat
    var delivered: nat
    var log: seq<Effect>

    ghost predicate Valid()
      reads this
    {
      fragmentedBytes == |Joined(fragmentedChunks)| && (fragmentedOpcode.None? ==> fragmentedChunks == [])
    }

    ghost function Model(): State
      reads this
    {
      State(buffer,
            if fragmentedOpcode.None? then Idle else Collecting(fragmentedOpcode.value, false, fragmentedChunks),
            closed, writes, delivered, log)
    }

    constructor (env: Environment)
      ensures Valid() && Model() == INITIAL && this.env == env
    {
      this.env := env;
      closed, buffer, writes, delivered, log := false, [], 0, 0, [];
      fragmentedOpcode, fragmentedChunks, fragmentedBytes := None, [], 0;
    }

    method ResetFragment()
      modifies this`fragmentedOpcode, this`fragmentedChunks, this`fragmentedBytes
      ensures Valid() && Model() == old(Model()).(asm := Idle)
    {
      fragmentedOpcode, fragmentedChunks, fragmentedBytes := None, [], 0;
    }

    method Settle()
      modifies this`closed, this`log
      ensures Model() == SettleClose(old(Model()))
    {
      if closed { return; }
      closed := true;
      log := log + [ClosedCallback];
    }

    method Send(frame: Bytes)
      modifies this`closed, this`log, this`writes
      ensures Model() == SendRaw(env, old(Model()), frame)
    {
      if closed { return; }
      var outcome := env.socket(writes);
      writes := writes + 1;
      match outcome {
        case NotWritable =>
        case Accepted => log := log + [Wrote(frame)];
        case Raises => Settle();
      }
    }

    method SendText(text: Bytes)
      requires |text| < FOUR_GIB
      modifies this`closed, this`log, this`writes
      ensures Model() == SendRaw(env, old(Model()), EncodeFrame(TEXT, text, true))
    {
      var frame := EncodeWsFrame(TEXT, text, true);
      Send(frame);
    }

    method Close(code: nat, reason: Bytes)
      modifies this`closed, this`log, this`writes
      ensures Model() == CloseWith(env, old(Model()), code, reason)
    {
      var payload := U16Bytes(code % 0x1_0000) + (if |reason| <= 123 then reason else reason[..123]);
      var frame := EncodeWsFrame(CLOSE, payload, true);
      Send(frame);
      Settle();
    }

    /** The session's own calls, one after the other. */
    method Run(actions: seq<Action>)
      modifies this`closed, this`log, this`writes
      ensures Model() == ActAll(env, old(Model()), actions)
    {
      hide SendRaw, CloseWith, SettleClose, EncodeFrame;
      for i := 0 to |actions|
        invariant Model() == ActAll(env, old(Model()), actions[..i])
      {
        assert actions[..i + 1][..i] == actions[..i];
        match actions[i] {
          case SendText(text) => if |text| < FOUR_GIB { SendText(text); }
          case Close(code, reason) => if code < 0x1_0000 { Close(code, reason); }
          case Destroy => Settle();
        }
      }
      assert actions[..|actions|] == actions;
    }

    method EmitText(text: Bytes)
      modifies this`closed, this`log, this`writes, this`delivered
      ensures Model() == Deliver(env, old(Model()), text)
    {
      hide ActAll;
      var reaction := env.react(delivered, text);
      delivered, log := delivered + 1, log + [Delivered(text)];
      Run(reaction.actions);
      if reaction.onError.Some? {
        log := log + [Errored];
        Run(reaction.onError.value);
      }
    }

    method Push(chunk: Bytes)
      requires Valid()
      modifies this
      ensures Valid() && Model() == WsEndpoint.Push(env, old(Model()), chunk)
    {
      if |chunk| == 0 || closed { return; }
      buffer := buffer + chunk;
      if |buffer| > MAX_MESSAGE + 14 {
        Close(TOO_BIG, TOO_BIG_REASON);
        return;
      }
      ghost var target := Drain(env, Model());
      while !closed
        invariant Valid() && Drain(env, Model()) == target
        decreases |buffer|
      {
        hide Handle, CloseWith;
        var cut := NextFrame();
        hide CutFrame;
        match cut {
          case Wait => return;
          case Unmasked =>
            Close(PROTOCOL_ERROR, UNMASKED_REASON);
            return;
          case TooBig =>
            Close(TOO_BIG, TOO_BIG_REASON);
            return;
          case Cut(f) =>
            buffer := buffer[|f.wire|..];
            HandleFrame(f);
        }
      }
    }

    /** The head of the loop: the mask check comes before the length is complete. */
    method NextFrame() returns (cut: Cut)
      ensures cut == CutFrame(buffer)
    {
      if |buffer| < 2 { return Wait; }
      var b0, b1 := buffer[0], buffer[1];
      if !Masked(b1) && Opcode(b0) < 0x8 { return Unmasked; }
      var payloadLen: nat, offset := Length7(b1), 2;
      if payloadLen == 126 {
        if |buffer| < 4 { return Wait; }
        payloadLen, offset := U16(buffer, 2), 4;
      } else if payloadLen == 127 {
        if |buffer| < 10 { return Wait; }
        var high, low := U32(buffer, 2), U32(buffer, 6);
        if high != 0 || low > MAX_MESSAGE { return Cut.TooBig; }
        payloadLen, offset := low, 10;
      }
      assert ParseHead(buffer, MAX_MESSAGE) == Head(payloadLen, offset);
      hide ParseHead, U16, U32, Length7;
      var total := offset + 4 + payloadLen;
      if |buffer| < total { return Wait; }
      var payload := ApplyMask(buffer[offset + 4..total], buffer[offset..offset + 4]);
      cut := Cut(Frame(b0, Masked(b1), payload, buffer[..total]));
    }

    method HandleFrame(f: Frame)
      requires Valid() && !closed && |f.payload| <= MAX_MESSAGE
      modifies this
      ensures Valid() && Model() == Handle(env, old(Model()), f)
    {
      hide EncodeFrame, EncodeClose, Deliver, CloseWith, SendRaw;
      if f.HasRsv1() {
        Close(PROTOCOL_ERROR, RSV1_REASON);
      } else if f.Op() == CLOSE {
        AnswerClose(f.payload);
      } else if f.Op() == PING {
        var pong := EncodeWsFrame(PONG, f.payload, true);
        Send(pong);
      } else if f.Op() >= 0x8 {
      } else if f.Op() == CONTINUATION {
        if fragmentedOpcode.Some? {
          ghost var asm := Model().asm;
          JoinedAppend(fragmentedChunks, f.payload);
          fragmentedChunks := fragmentedChunks + [f.payload];
          fragmentedBytes := fragmentedBytes + |f.payload|;
          if fragmentedBytes > MAX_MESSAGE || |fragmentedChunks| > MAX_FRAGMENTS {
            ResetFragment();
            Close(TOO_BIG, TOO_BIG_REASON);
          } else if f.IsFin() {
            var full, op := Joined(fragmentedChunks), fragmentedOpcode.value;
            ResetFragment();
            if op == TEXT { EmitText(full); }
          }
        }
      } else if !f.IsFin() {
        fragmentedOpcode, fragmentedChunks, fragmentedBytes := Some(f.Op()), [f.payload], |f.payload|;
        assert fragmentedChunks[..0] == [] && Joined(fragmentedChunks) == [] + f.payload;
      } else if f.Op() == TEXT {
        EmitText(f.payload);
      }
    }

    method AnswerClose(payload: Bytes)
      modifies this`closed, this`log, this`writes
      ensures Model() == SettleClose(SendRaw(env, old(Model()), EncodeClose(CloseCode(payload), [])))
    {
      var code := 1000;
      if |payload| >= 2 { code := U16(payload, 0); }
      var frame := EncodeWsFrame(CLOSE, U16Bytes(code) + [], true);
      assert frame == EncodeClose(CloseCode(payload), []);
      Send(frame);
      Settle();
    }
  }
}
