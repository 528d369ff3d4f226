/** A refused device token: when the answer to a request drops a pairing other than the one it was sent with. */
module LocalAiRefusals {
  import opened Wrappers
  import opened LocalAiSpec
  import opened LocalAiProofs
  import LocalAiStop

  predicate Refusal(r: LoopResume) {
    (r.HeartbeatAnswered? && r.refused) || (r.ClaimAnswered? && r.claim.Unauthorized?)
  }

  /** A request that carries the token is under way. */
  predicate Requesting(pc: Pc) {
    pc.Heartbeat? || pc.Claiming?
  }

  /** What an event does to the token: an unpairing or a refusal drops it, a complete approval sets it. */
  datatype Change = Unchanged | Dropped | Approved(token: string)

  function ChangeOf(e: Event): Change {
    match e
    case User(Unpair) => Dropped
    case OfPair(_, PairPolled(answer, _)) => if Complete(answer) then Change.Approved(answer.deviceToken) else Unchanged
    case OfLoop(_, r) => if Refusal(r) then Dropped else Unchanged
    case _ => Unchanged
  }

  /** The last change of the token that happens in a run. */
  function LastChange(s: State, es: seq<Event>): Change
    decreases |es|
  {
    if es == [] then Unchanged
    else
      var own := if Enabled(s, es[0]) then ChangeOf(es[0]) else Unchanged;
      var later := LastChange(if Enabled(s, es[0]) then Step(s, es[0]) else s, es[1..]);
      if later.Unchanged? then own else later
  }

  function Applied(token: Option<string>, c: Change): Option<string> {
    match c
    case Unchanged => token
    case Dropped => None
    case Approved(t) => Some(t)
  }

  lemma LoopStepToken(sh: Shared, l: Loop, r: LoopResume)
    requires LoopReady(l.pc, r)
    ensures LoopStep(sh, l, r).sh.config.deviceToken == if Refusal(r) then None else sh.config.deviceToken
    ensures var t := LoopStep(sh, l, r);
            Requesting(t.loop.pc) && t.loop.pc != l.pc ==> t.loop.pc.sent == t.sh.config.deviceToken
  {
    hide Budget, Truthy, ChatOutcome, Belongs;
  }

  lemma StepToken(s: State, e: Event)
    requires Enabled(s, e)
    ensures Step(s, e).sh.config.deviceToken == Applied(s.sh.config.deviceToken, ChangeOf(e))
  {
    hide LoopStep, PairMove, PairReady, HasToken, Refusal;
    if e.OfLoop? { LoopStepToken(s.sh, s.loops[e.id], e.resume); }
  }

  /** The token a run ends with is what its last change made it. */
  lemma {:induction false} TokenIsTheLastChange(s: State, es: seq<Event>)
    ensures Run(s, es).sh.config.deviceToken == Applied(s.sh.config.deviceToken, LastChange(s, es))
    decreases |es|
  {
    hide Step, Enabled, ChangeOf;
    if es != [] {
      if Enabled(s, es[0]) { StepToken(s, es[0]); }
      TokenIsTheLastChange(if Enabled(s, es[0]) then Step(s, es[0]) else s, es[1..]);
    }
  }

  /** A request leaves with the token of that moment. */
  lemma RequestCarriesTheToken(s: State, e: Event, id: nat)
    requires OneLoop(s) && Enabled(s, e) && id in Step(s, e).loops && Requesting(Step(s, e).loops[id].pc)
    requires id in s.loops ==> s.loops[id].pc != Step(s, e).loops[id].pc
    ensures Step(s, e).loops[id].pc.sent == Step(s, e).sh.config.deviceToken
  {
    hide LoopStep, PairMove, PairReady, HasToken, Refusal;
    if e.OfLoop? { LoopStepToken(s.sh, s.loops[e.id], e.resume); }
  }

  /** Until its answer comes, nothing else moves the loop that waits for it. */
  lemma {:induction false} RequestWaits(s: State, es: seq<Event>, id: nat)
    requires OneLoop(s) && id in s.loops && Requesting(s.loops[id].pc)
    requires forall e :: e in es ==> !(e.OfLoop? && e.id == id)
    ensures var t := Run(s, es); OneLoop(t) && id in t.loops && t.loops[id] == s.loops[id]
    decreases |es|
  {
    hide LoopStep, PairMove, PairReady, HasToken;
    if es != [] {
      var e := es[0];
      assert e in es && s.loop == Some(id);
      if Enabled(s, e) {
        StepKeepsOneLoop(s, e);
        assert id in Step(s, e).loops && Step(s, e).loops[id] == s.loops[id];
      }
      RequestWaits(if Enabled(s, e) then Step(s, e) else s, es[1..], id);
    }
  }

  /**
   * From the moment a request leaves until its refusal comes back: the refusal drops a pairing other than
   * the one the request was sent with exactly when the last change of the token in between is a complete
   * approval with another token. Else it drops that very pairing, or there is none left to drop.
   */
  lemma RefusalDropsAnotherPairingIff(s: State, es: seq<Event>, id: nat, r: LoopResume)
    requires Reachable(s) && id in s.loops && Requesting(s.loops[id].pc)
    requires s.loops[id].pc.sent == s.sh.config.deviceToken
    requires forall e :: e in es ==> !(e.OfLoop? && e.id == id)
    requires Enabled(Run(s, es), OfLoop(id, r)) && Refusal(r)
    ensures var sent, before := s.sh.config.deviceToken, Run(s, es).sh.config.deviceToken;
            var after := Step(Run(s, es), OfLoop(id, r)).sh.config.deviceToken;
            && Run(s, es).loops[id].pc.sent == sent && after == None
            && (before.Some? && before != sent <==>
                  LastChange(s, es).Approved? && Some(LastChange(s, es).token) != sent)
            && (!(LastChange(s, es).Approved? && Some(LastChange(s, es).token) != sent) ==> before in {sent, None})
  {
    hide LastChange, Run, Refusal;
    ReachableInv(s);
    RequestWaits(s, es, id);
    TokenIsTheLastChange(s, es);
    LoopStepToken(Run(s, es).sh, Run(s, es).loops[id], r);
    hide Core, NoLostWake, LoopStep;
  }

  // ----- The token a report goes out with -----------------------------------------------------

  lemma LoopActsCarryTokens(sh: Shared, l: Loop, r: LoopResume)
    requires LoopReady(l.pc, r)
    ensures forall a :: a in LoopStep(sh, l, r).acts ==>
              && (a.Reported? || a.LeaseChecked? ==> a.token == sh.config.deviceToken)
              && (a.Claimed? ==> l.pc.Claiming? && a.token == l.pc.sent)
  {
    hide Budget, Truthy, ChatOutcome, Belongs;
  }

  /** A report or a lease check leaves with the token of that moment; a claim is noted with the one it was sent with. */
  lemma ActsCarryTokens(s: State, e: Event, i: nat)
    requires Enabled(s, e) && |s.log| <= i < |Step(s, e).log|
    ensures var a := Step(s, e).log[i];
            && e.OfLoop? && (a.Reported? || a.LeaseChecked? ==> a.token == s.sh.config.deviceToken)
            && (a.Claimed? ==> s.loops[e.id].pc.Claiming? && a.token == s.loops[e.id].pc.sent)
  {
    hide LoopStep, PairMove, PairReady, HasToken;
    if e.OfLoop? {
      LoopActsCarryTokens(s.sh, s.loops[e.id], e.resume);
      var acts := LoopStep(s.sh, s.loops[e.id], e.resume).acts;
      assert Step(s, e).log[i] == acts[i - |s.log|];
    }
  }

  /**
   * From the moment a claim leaves: a report that leaves later carries the token the claim was sent with
   * exactly when the token has not been changed since, or was last changed to that very one.
   */
  lemma ReportUnderTheClaimingPairingIff(s: State, es: seq<Event>, id: nat, e: Event, i: nat)
    requires id in s.loops && s.loops[id].pc.Claiming? && s.loops[id].pc.sent == s.sh.config.deviceToken
    requires Enabled(Run(s, es), e) && |Run(s, es).log| <= i < |Step(Run(s, es), e).log|
    requires Step(Run(s, es), e).log[i].Reported?
    ensures var sent, last := s.loops[id].pc.sent, LastChange(s, es);
            Step(Run(s, es), e).log[i].token == sent <==>
              || last.Unchanged?
              || (last.Approved? && sent == Some(last.token))
              || (last.Dropped? && sent == None)
  {
    hide Run, Step, LastChange;
    TokenIsTheLastChange(s, es);
    ActsCarryTokens(Run(s, es), e, i);
  }

  // ----- A late refusal -----------------------------------------------------------------------

  /** A run in which a fresh, never refused pairing is dropped by the answer to a request of the old one. */
  lemma LateRefusalDropsNewPairing(model: string, approved: PollAnswer)
    requires model != "" && Complete(approved)
    ensures var saved := Config(true, Some(model), Some("old"), None, None, Some("user"));
            var s := Started(saved, true, true, None, 1_000);
            var paired := Run(s, [User(Pair), OfPair(1, PairStarted(true, 1_000)), OfPair(1, PairWoke),
                                  OfPair(1, PairPolled(approved, 4_000))]);
            && paired.sh.config.deviceToken == Some(approved.deviceToken)
            && Run(paired, [OfLoop(0, ClaimAnswered(Unauthorized))]).sh.config.deviceToken == None
  {
    var s := Started(Config(true, Some(model), Some("old"), None, None, Some("user")), true, true, None, 1_000);
    var e2, e3, e4 := OfPair(1, PairStarted(true, 1_000)), OfPair(1, PairWoke), OfPair(1, PairPolled(approved, 4_000));
    assert s.loops == map[0 := Loop(Claiming(Some("old")), 0, 0)];
    LocalAiStop.RunFirst(s, User(Pair), [e2, e3, e4]);
    var s1 := Step(s, User(Pair));
    assert s1.pairing == Pairing(false, 1, map[1 := Starting], [NewRun(1)]);
    LocalAiStop.RunFirst(s1, e2, [e3, e4]);
    LocalAiStop.RunFirst(Step(s1, e2), e3, [e4]);
    var s3 := Step(Step(s1, e2), e3);
    LocalAiStop.RunFirst(s3, e4, []);
    LocalAiStop.RunFirst(Step(s3, e4), OfLoop(0, ClaimAnswered(Unauthorized)), []);
  }
}
