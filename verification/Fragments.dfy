/**
 The echo loop against fragmented messages (section 5.4 of RFC 6455): when answering frame by frame
 amounts to answering message by message, and when it does not.
 */
module Fragments {
  import opened Outcome
  import opened WebSocket

  predicate IsData(opcode: nat) {
    opcode == 1 || opcode == 2
  }

  // The final bit is the highest of the four flags; the other three are reserved.
  predicate IsFinal(f: Sent) {
    f.flags >= 8
  }

  lemma FinalBitOnWire(f: Sent)
    requires ValidSent(f)
    ensures OnWire(f)[0] >= 128 <==> IsFinal(f)
  {}

  /** A message of which some fragments have arrived. */
  datatype Partial = Partial(opcode: nat, payload: Bytes)

  /**
   What an endpoint sends that puts messages together: a data frame opens a message, continuations
   extend it, the final one completes it and it is echoed. Pings are answered in between; a close, an
   unknown opcode, and a data frame or continuation out of place end the connection.
   */
  ghost function Messages(fs: seq<Sent>, open: Option<Partial>): seq<Bytes>
    requires AllValid(fs) && (open.Some? ==> IsData(open.value.opcode))
    decreases |fs|
  {
    if |fs| == 0 then []
    else
      var f := fs[0];
      if f.opcode == 8 then [ServerFrame(8, f.payload)]
      else if f.opcode == 9 then [ServerFrame(10, f.payload)] + Messages(fs[1..], open)
      else if f.opcode == 10 then Messages(fs[1..], open)
      else if IsData(f.opcode) && open.None? then Collect(fs, Partial(f.opcode, f.payload))
      else if f.opcode == 0 && open.Some? then
        Collect(fs, Partial(open.value.opcode, open.value.payload + f.payload))
      else []
  }

  /** Go on behind fs[0], with which m has arrived. */
  ghost function Collect(fs: seq<Sent>, m: Partial): seq<Bytes>
    requires AllValid(fs) && |fs| > 0 && IsData(m.opcode)
    decreases |fs|, 0
  {
    if IsFinal(fs[0]) then [ServerFrame(m.opcode, m.payload)] + Messages(fs[1..], None)
    else Messages(fs[1..], Some(m))
  }

  ghost predicate IsContinuation(fs: seq<Sent>) {
    |fs| > 0 && fs[0].opcode == 0 && if |fs| == 1 then IsFinal(fs[0]) else !IsFinal(fs[0]) && IsContinuation(fs[1..])
  }

  ghost function Payloads(fs: seq<Sent>): Bytes {
    if fs == [] then [] else fs[0].payload + Payloads(fs[1..])
  }

  // However a message is cut into fragments, it is echoed as one.
  lemma {:induction false} FragmentsJoin(fs: seq<Sent>, rest: seq<Sent>, opcode: nat, s: Bytes)
    requires AllValid(fs + rest) && AllValid(rest) && IsContinuation(fs) && IsData(opcode)
    ensures Messages(fs + rest, Some(Partial(opcode, s)))
      == [ServerFrame(opcode, s + Payloads(fs))] + Messages(rest, None)
    decreases |fs|
  {
    assert (fs + rest)[1..] == fs[1..] + rest;
    if |fs| == 1 {
      assert fs[1..] + rest == rest && s + Payloads(fs) == s + fs[0].payload;
    } else {
      FragmentsJoin(fs[1..], rest, opcode, s + fs[0].payload);
      assert s + fs[0].payload + Payloads(fs[1..]) == s + Payloads(fs);
    }
  }

  // Every data frame that the loop reaches is final.
  ghost predicate AllFinal(fs: seq<Sent>) {
    |fs| > 0 ==>
      && (IsData(fs[0].opcode) ==> IsFinal(fs[0]))
      && (GoesOn(fs[0].opcode) ==> AllFinal(fs[1..]))
  }

  // The first data frame reached that is not final is the whole message, and the last one answered.
  ghost predicate OnlyEmptyFragments(fs: seq<Sent>) {
    |fs| > 0 &&
    if IsData(fs[0].opcode) && !IsFinal(fs[0]) then EmptyRest(fs[1..])
    else GoesOn(fs[0].opcode) && OnlyEmptyFragments(fs[1..])
  }

  // Nothing in these frames is to be answered: pongs and a message that stays unfinished, up to a frame
  // out of place; inside tells whether a message is open.
  ghost predicate Unanswered(fs: seq<Sent>, inside: bool) {
    |fs| > 0 ==>
      var f := fs[0];
      if f.opcode == 10 then Unanswered(fs[1..], inside)
      else if if inside then f.opcode == 0 else IsData(f.opcode) then !IsFinal(f) && Unanswered(fs[1..], true)
      else f.opcode != 8 && f.opcode != 9
  }

  lemma {:induction false} UnansweredIff(fs: seq<Sent>, open: Option<Partial>)
    requires AllValid(fs) && (open.Some? ==> IsData(open.value.opcode))
    ensures Messages(fs, open) == [] <==> Unanswered(fs, open.Some?)
    decreases |fs|
  {
    if |fs| > 0 {
      var f := fs[0];
      if f.opcode == 10 {
        UnansweredIff(fs[1..], open);
      } else if IsData(f.opcode) && open.None? {
        UnansweredIff(fs[1..], Some(Partial(f.opcode, f.payload)));
      } else if f.opcode == 0 && open.Some? {
        UnansweredIff(fs[1..], Some(Partial(open.value.opcode, open.value.payload + f.payload)));
      }
    }
  }

  // Empty continuations and pongs, up to a final continuation behind which nothing is to be answered.
  ghost predicate EmptyRest(fs: seq<Sent>) {
    |fs| > 0 &&
    if fs[0].opcode == 10 then EmptyRest(fs[1..])
    else
      && fs[0].opcode == 0 && fs[0].payload == []
      && if IsFinal(fs[0]) then Unanswered(fs[1..], false) else EmptyRest(fs[1..])
  }

  // --- frames are told apart ---

  lemma ServerFramesDiffer(opcode: nat, payload: Bytes, opcode': nat, payload': Bytes)
    requires opcode < 16 && opcode' < 16
    ensures ServerFrame(opcode, payload) == ServerFrame(opcode', payload') <==> opcode == opcode' && payload == payload'
  {
    var x, y := ServerFrame(opcode, payload), ServerFrame(opcode', payload');
    FrameParts(opcode, payload);
    FrameParts(opcode', payload');
  }

  lemma FrameParts(opcode: nat, payload: Bytes)
    requires opcode < 16
    ensures var x := ServerFrame(opcode, payload);
      |x| >= PayloadStart(x) && x[0] == 128 + opcode && x[PayloadStart(x)..] == payload
  {}

  lemma FirstDiffers(opcode: nat, payload: Bytes, xs: seq<Bytes>, opcode': nat, payload': Bytes,
      ys: seq<Bytes>)
    requires opcode < 16 && opcode' < 16
    ensures [ServerFrame(opcode, payload)] + xs == [ServerFrame(opcode', payload')] + ys <==>
      opcode == opcode' && payload == payload' && xs == ys
  {
    ServerFramesDiffer(opcode, payload, opcode', payload');
    SameHead(ServerFrame(opcode, payload), xs, ServerFrame(opcode', payload'), ys);
  }

  lemma SameHead(x: Bytes, xs: seq<Bytes>, y: Bytes, ys: seq<Bytes>)
    ensures [x] + xs == [y] + ys <==> x == y && xs == ys
  {
    assert ([x] + xs)[1..] == xs && ([y] + ys)[1..] == ys;
  }

  // --- when frames are messages ---

  // A message of which s has arrived ends up as the single answer a exactly when s is a already, and
  // the rest adds nothing.
  lemma {:induction false} OneAnswer(fs: seq<Sent>, opcode: nat, s: Bytes, a: Bytes)
    requires AllValid(fs) && IsData(opcode) && |s| >= |a|
    ensures Messages(fs, Some(Partial(opcode, s))) == [ServerFrame(opcode, a)] <==> s == a && EmptyRest(fs)
    decreases |fs|
  {
    if |fs| > 0 {
      var f := fs[0];
      assert [ServerFrame(opcode, a)] == [ServerFrame(opcode, a)] + [];
      if f.opcode == 8 {
        ServerFramesDiffer(8, f.payload, opcode, a);
      } else if f.opcode == 9 {
        FirstDiffers(10, f.payload, Messages(fs[1..], Some(Partial(opcode, s))), opcode, a, []);
      } else if f.opcode == 10 {
        OneAnswer(fs[1..], opcode, s, a);
      } else if f.opcode == 0 {
        Extended(s, f.payload, a);
        if IsFinal(f) {
          FirstDiffers(opcode, s + f.payload, Messages(fs[1..], None), opcode, a, []);
          UnansweredIff(fs[1..], None);
        } else {
          OneAnswer(fs[1..], opcode, s + f.payload, a);
        }
      }
    }
  }

  lemma Extended(s: Bytes, more: Bytes, a: Bytes)
    requires |s| >= |a|
    ensures s + more == a <==> s == a && more == []
  {}

  // Behind a first fragment that has been echoed, the loop and the message-level endpoint never agree,
  // save for that one coincidence.
  lemma {:induction false} AfterFragment(fs: seq<Sent>, opcode: nat, a: Bytes)
    requires AllValid(fs) && IsData(opcode)
    ensures [ServerFrame(opcode, a)] + Answers(fs) == Messages(fs, Some(Partial(opcode, a))) <==> EmptyRest(fs)
    decreases |fs|
  {
    if |fs| > 0 {
      var f := fs[0];
      if f.opcode == 8 {
        ServerFramesDiffer(opcode, a, 8, f.payload);
      } else if f.opcode == 9 {
        FirstDiffers(opcode, a, Answers(fs), 10, f.payload, Messages(fs[1..], Some(Partial(opcode, a))));
      } else if f.opcode == 10 {
        AfterFragment(fs[1..], opcode, a);
        assert Answers(fs) == Answers(fs[1..]);
      } else if f.opcode == 0 {
        assert Answers(fs) == [];
        OneAnswer(fs, opcode, a, a);
      }
    }
  }

  lemma {:induction false} AnswersAreMessagesIff(fs: seq<Sent>)
    requires AllValid(fs)
    ensures Answers(fs) == Messages(fs, None) <==> AllFinal(fs) || OnlyEmptyFragments(fs)
    decreases |fs|
  {
    if |fs| > 0 {
      var f := fs[0];
      if GoesOn(f.opcode) {
        AnswersAreMessagesIff(fs[1..]);
        SameTail(Answer(f.opcode, f.payload), Answers(fs[1..]), Messages(fs[1..], None));
        if IsData(f.opcode) {
          AfterFragment(fs[1..], f.opcode, f.payload);
        }
      }
    }
  }

  // For every stream of frames, answering them one by one is answering its messages exactly when every
  // data frame reached is final, save for a fragmented message whose later fragments are all empty and
  // behind which nothing is to be answered.
  lemma {:induction false} FramesAreMessagesIff(fs: seq<Sent>)
    requires AllValid(fs)
    ensures Replies(Wire(fs)) == Messages(fs, None) <==> AllFinal(fs) || OnlyEmptyFragments(fs)
  {
    FramesAreAnswered(fs);
    AnswersAreMessagesIff(fs);
  }

  // Whatever the reserved bits: a first fragment that its continuation extends is enough to differ,
  // wherever the loop reaches it.
  lemma {:induction false} ExtendedFragmentDiffers(fs: seq<Sent>, i: nat)
    requires AllValid(fs) && i + 1 < |fs| && forall k :: 0 <= k < i ==> GoesOn(fs[k].opcode)
    requires IsData(fs[i].opcode) && !IsFinal(fs[i]) && fs[i + 1].opcode == 0 && fs[i + 1].payload != []
    ensures Replies(Wire(fs)) != Messages(fs, None)
  {
    FragmentIsReached(fs, i);
    FramesAreMessagesIff(fs);
  }

  lemma {:induction false} FragmentIsReached(fs: seq<Sent>, i: nat)
    requires AllValid(fs) && i + 1 < |fs| && forall k :: 0 <= k < i ==> GoesOn(fs[k].opcode)
    requires IsData(fs[i].opcode) && !IsFinal(fs[i]) && fs[i + 1].opcode == 0 && fs[i + 1].payload != []
    ensures !AllFinal(fs) && !OnlyEmptyFragments(fs)
    decreases i
  {
    if i > 0 {
      FragmentIsReached(fs[1..], i - 1);
      if IsData(fs[0].opcode) && !IsFinal(fs[0]) {
        DataEndsRest(fs[1..], i - 1);
      }
    } else {
      assert fs[1..][0] == fs[1];
    }
  }

  lemma {:induction false} DataEndsRest(fs: seq<Sent>, i: nat)
    requires AllValid(fs) && i < |fs| && IsData(fs[i].opcode) && forall k :: 0 <= k < i ==> GoesOn(fs[k].opcode)
    ensures !EmptyRest(fs)
    decreases i
  {
    if i > 0 {
      DataEndsRest(fs[1..], i - 1);
    }
  }

  // What the loop does with such a message: its first fragment is echoed as if it were the whole, and
  // the continuation ends the connection.
  lemma {:induction false} FragmentsAreCut(first: Sent, more: Sent, coming: Bytes)
    requires ValidSent(first) && ValidSent(more) && IsData(first.opcode) && !IsFinal(first) && more.opcode == 0
    ensures Replies(OnWire(first) + (OnWire(more) + coming)) == [ServerFrame(first.opcode, first.payload)]
  {
    FirstFrame(first, OnWire(more) + coming);
    FirstFrame(more, coming);
  }

  // --- what the client may still send ---

  // The client has not closed, and has put no frame where section 5.4 does not allow it; inside tells
  // whether a message is open.
  ghost predicate Conforms(fs: seq<Sent>, inside: bool) {
    |fs| > 0 ==>
      var f := fs[0];
      if f.opcode == 9 || f.opcode == 10 then Conforms(fs[1..], inside)
      else (if inside then f.opcode == 0 else IsData(f.opcode)) && Conforms(fs[1..], !IsFinal(f))
  }

  lemma {:induction false} FinalThenFinal(fs: seq<Sent>, gs: seq<Sent>)
    requires Conforms(fs, false)
    ensures AllFinal(fs + gs) <==> AllFinal(fs) && AllFinal(gs)
  {
    if fs == [] {
      assert fs + gs == gs;
    } else {
      assert (fs + gs)[1..] == fs[1..] + gs;
      if !IsData(fs[0].opcode) || IsFinal(fs[0]) {
        FinalThenFinal(fs[1..], gs);
      }
    }
  }

  lemma {:induction false} PingIsAnswered(fs: seq<Sent>, ping: Sent, open: Option<Partial>)
    requires AllValid(fs + [ping]) && ping.opcode == 9 && (open.Some? ==> IsData(open.value.opcode))
    requires Conforms(fs, open.Some?)
    ensures Messages(fs + [ping], open) != []
  {
    if fs != [] {
      var f := fs[0];
      assert (fs + [ping])[1..] == fs[1..] + [ping];
      if f.opcode != 9 && f.opcode != 10 && !IsFinal(f) {
        var m := if open.None? then Partial(f.opcode, f.payload)
                 else Partial(open.value.opcode, open.value.payload + f.payload);
        PingIsAnswered(fs[1..], ping, Some(m));
      } else if f.opcode == 10 {
        PingIsAnswered(fs[1..], ping, open);
      }
    }
  }

  lemma {:induction false} PingEndsRest(fs: seq<Sent>, ping: Sent)
    requires AllValid(fs + [ping]) && ping.opcode == 9 && Conforms(fs, true)
    ensures !EmptyRest(fs + [ping])
  {
    if fs != [] {
      assert (fs + [ping])[1..] == fs[1..] + [ping];
      if fs[0].opcode == 10 || !IsFinal(fs[0]) {
        if fs[0].opcode != 9 {
          PingEndsRest(fs[1..], ping);
        }
      } else if fs[0].opcode != 9 {
        PingIsAnswered(fs[1..], ping, None);
        UnansweredIff(fs[1..] + [ping], None);
      }
    }
  }

  lemma {:induction false} PingTells(fs: seq<Sent>, ping: Sent)
    requires AllValid(fs + [ping]) && ping.opcode == 9 && Conforms(fs, false)
    ensures !OnlyEmptyFragments(fs + [ping])
  {
    assert (fs + [ping])[|fs|] == ping;
    if fs != [] {
      assert (fs + [ping])[1..] == fs[1..] + [ping];
      if IsData(fs[0].opcode) && !IsFinal(fs[0]) {
        PingEndsRest(fs[1..], ping);
      } else {
        PingTells(fs[1..], ping);
      }
    }
  }

  // While a client conforms and has not closed: whatever frames it sends later, with final data only,
  // the loop answers its messages exactly when all data frames so far were final.
  lemma {:induction false} LaterFramesTell(fs: seq<Sent>)
    requires Conforms(fs, false) && AllValid(fs)
    ensures (forall gs :: AllFinal(gs) && AllValid(fs + gs) ==> Replies(Wire(fs + gs)) == Messages(fs + gs, None))
      <==> AllFinal(fs)
  {
    var ping := Sent(8, 9, Length7, [0, 0, 0, 0], []);
    ValidThenValid(fs, [ping]);
    assert AllFinal([ping]);
    FinalThenFinal(fs, [ping]);
    PingTells(fs, ping);
    FramesAreMessagesIff(fs + [ping]);
    if AllFinal(fs) {
      forall gs | AllFinal(gs) && AllValid(fs + gs)
        ensures Replies(Wire(fs + gs)) == Messages(fs + gs, None)
      {
        FinalThenFinal(fs, gs);
        FramesAreMessagesIff(fs + gs);
      }
    }
  }

  lemma {:induction false} ValidThenValid(fs: seq<Sent>, gs: seq<Sent>)
    requires AllValid(fs) && AllValid(gs)
    ensures AllValid(fs + gs)
  {
    if fs == [] {
      assert fs + gs == gs;
    } else {
      assert (fs + gs)[1..] == fs[1..] + gs;
      ValidThenValid(fs[1..], gs);
    }
  }
}
