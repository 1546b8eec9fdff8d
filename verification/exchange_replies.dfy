/** What the replies carry in every interleaving of the two threads' semaphore, mutex and ring operations. */
module ExchangeReplies {
  import opened Wrappers
  import opened UnsafeFifo
  import opened Orders
  import opened ActiveMarkets
  import opened FifoExchange
  import PtrFifo
  import MarketExchange

  /** When the calls that pop a response returned with one: how many actions came before each. */
  function Pops(actions: seq<Action>): seq<nat> {
    if actions == [] then []
    else
      var n := |actions| - 1;
      Pops(actions[..n]) + if actions[n] == PopReturns && GiveUp !in actions[..n] then [n] else []
  }

  predicate WaitFailed(s: State) {
    s.h.Popping? && |s.response.threads| == 2 && HasFailed(s.response.threads[HISTORIES])
  }

  lemma {:induction false} StepFails(s: State, a: Action)
    requires Inv(s) && Enabled(s, a) && WaitFailed(Do(s, a))
    ensures WaitFailed(s) || a == GiveUp
  {
    hide Consistent, Contents, PtrFifo.CountInv, PtrFifo.MutexInv, PtrFifo.QueueStep, PtrFifo.Do, PtrFifo.Enabled, HasFailed;
    match a
    case CallPop => CallFails(s);
    case ResponseStep(t, c) => ResponseFails(s, t, c);
    case _ =>
  }

  lemma {:induction false} CallFails(s: State)
    requires Inv(s) && Enabled(s, CallPop)
    ensures !WaitFailed(Do(s, CallPop))
  {
    hide Consistent, Contents, PtrFifo.CountInv, PtrFifo.MutexInv, HasFailed, Call;
    FifoCall(s.response, None, AnswerCall(s.o), HISTORIES, PtrFifo.Pop);
    JustCalled(Do(s, CallPop).response.threads[HISTORIES], PtrFifo.Pop);
  }

  lemma {:induction false} ResponseFails(s: State, t: nat, c: PtrFifo.Choice)
    requires Inv(s) && Enabled(s, ResponseStep(t, c)) && WaitFailed(Do(s, ResponseStep(t, c)))
    ensures WaitFailed(s) || (t == HISTORIES && c.Fail?)
  {
    hide Consistent, Contents, PtrFifo.CountInv, PtrFifo.MutexInv, PtrFifo.QueueStep, PtrFifo.Do, PtrFifo.Enabled, HasFailed;
    hide HasTaken;
    OneOfTwo(s, t, c);
    OtherStays(s.response, t, c);
    if t == HISTORIES {
      FifoStep(s.response, PopCall(s.h), AnswerCall(s.o), t, c);
      Moving(s.response, t, c, PopCall(s.h));
      PopMoves(s.response, t, c, PtrFifo.Pop);
    }
  }

  lemma {:induction false} RunFails(actions: seq<Action>)
    requires Run(actions).Some?
    ensures Inv(Run(actions).value)
    ensures WaitFailed(Run(actions).value) ==> GiveUp in actions
  {
    RunRefines(actions);
    if actions != [] && WaitFailed(Run(actions).value) {
      hide Inv, Do, Enabled, WaitFailed;
      var n := |actions| - 1;
      RunFails(actions[..n]);
      StepFails(Run(actions[..n]).value, actions[n]);
    }
  }

  lemma {:induction false} PopOutcome(s: State)
    requires Inv(s) && Enabled(s, PopReturns)
    ensures var rs, rs' := s.replies, Do(s, PopReturns).replies;
      if WaitFailed(s) then Abs(s).h.Quit? && rs' == rs
      else Abs(s).h.Working? && Abs(s).replies == rs' && |rs'| == |rs| + 1 && rs'[..|rs|] == rs
  {
    hide Consistent, Contents, PtrFifo.CountInv, PtrFifo.MutexInv;
    JustReturned(s.response.threads[HISTORIES], PtrFifo.Pop);
    hide HasPut, HasTaken, HasFailed;
  }

  /** The wait failed, or the response is the right one. */
  lemma {:induction false} PopAnswers(actions: seq<Action>)
    requires Run(actions).Some? && Enabled(Run(actions).value, PopReturns)
    ensures var rs, rs' := Run(actions).value.replies, Do(Run(actions).value, PopReturns).replies;
      if GiveUp in actions then rs' == rs
      else |rs'| == |rs| + 1 && rs'[..|rs|] == rs && MarketExchange.Answers(rs'[|rs|], Seen(actions))
  {
    hide Run, Do, Inv, Abs, Enabled, WaitFailed, Seen, MarketExchange.Run, MarketExchange.Answers, MarketExchange.Visible;
    RunFails(actions);
    RunRefines(actions);
    var s := Run(actions).value;
    var outer :| Matches(outer, Abs(s), Seen(actions));
    PopOutcome(s);
    MarketExchange.WhoQuits(outer);
    MarketExchange.VisibleIsEnough(outer);
    GiveUpIsSeen(actions);
    if GiveUp !in actions {
      MarketExchange.LastReplyAnswers(outer);
      SameAnswers(Abs(s).replies[|s.replies|], outer);
    }
  }

  lemma {:induction false} SameAnswers(r: MarketExchange.Reply, outer: seq<MarketExchange.Action>)
    requires MarketExchange.Answers(r, outer)
    ensures MarketExchange.Answers(r, MarketExchange.Visible(outer))
  {
    hide AreActive;
    MarketExchange.VisibleIsEnough(outer);
  }

  ghost predicate AllAnswer(rs: seq<MarketExchange.Reply>, pops: seq<nat>, actions: seq<Action>) {
    && |rs| == |pops|
    && forall i :: 0 <= i < |pops| ==>
         pops[i] <= |actions| && MarketExchange.Answers(rs[i], Seen(actions[..pops[i]]))
  }

  lemma {:induction false} AnswersStay(rs: seq<MarketExchange.Reply>, pops: seq<nat>, actions: seq<Action>, a: Action)
    requires AllAnswer(rs, pops, actions)
    ensures AllAnswer(rs, pops, actions + [a])
  {
    hide MarketExchange.Answers, Seen;
    forall i | 0 <= i < |pops|
      ensures (actions + [a])[..pops[i]] == actions[..pops[i]]
    {
    }
  }

  lemma {:induction false} AnswersOneMore(rs: seq<MarketExchange.Reply>, pops: seq<nat>, actions: seq<Action>,
                                          rs': seq<MarketExchange.Reply>)
    requires AllAnswer(rs, pops, actions)
    requires |rs'| == |rs| + 1 && rs'[..|rs|] == rs && MarketExchange.Answers(rs'[|rs|], Seen(actions))
    ensures AllAnswer(rs', pops + [|actions|], actions)
  {
    hide MarketExchange.Answers, Seen;
    assert actions[..|actions|] == actions;
    assert forall i :: 0 <= i < |rs| ==> rs'[i] == rs[i];
  }

  lemma {:induction false} NoReply(s: State, a: Action)
    requires Enabled(s, a) && a != PopReturns
    ensures Do(s, a).replies == s.replies
  {
    hide PtrFifo.Do, PtrFifo.Enabled, Distinct, Markets;
  }

  /** In every interleaving each response returned is the right answer to the request under way, told
      from the vectors made and the orders filled in by then. */
  lemma {:induction false} RepliesExactly(actions: seq<Action>)
    requires Run(actions).Some?
    ensures AllAnswer(Run(actions).value.replies, Pops(actions), actions)
  {
    if actions != [] {
      hide AllAnswer, MarketExchange.Answers, Do, Enabled, Seen;
      var n := |actions| - 1;
      var s, pops, a := Run(actions[..n]).value, Pops(actions[..n]), actions[n];
      RepliesExactly(actions[..n]);
      assert actions == actions[..n] + [a];
      assert pops + [] == pops;
      if a == PopReturns {
        PopAnswers(actions[..n]);
        if GiveUp !in actions[..n] {
          AnswersOneMore(s.replies, pops, actions[..n], Do(s, a).replies);
        }
      } else {
        NoReply(s, a);
      }
      AnswersStay(Do(s, a).replies, Pops(actions), actions[..n], a);
    }
  }
}
