/**
 * Where the loop goes, what the settings become and how long a pairing asks: exactly, step by step and over
 * every run.
 */
module LocalAiRounds {
  import opened Wrappers
  import opened LocalAiSpec
  import opened LocalAiProofs
  import opened LocalAiStop

  lemma {:induction false} RunLast(s: State, es: seq<Event>, e: Event)
    ensures Run(s, es + [e]) == (if Enabled(Run(s, es), e) then Step(Run(s, es), e) else Run(s, es))
    decreases |es|
  {
    hide Step, Enabled;
    if es == [] {
      assert [] + [e] == [e] && [e][1..] == [];
    } else {
      assert (es + [e])[1..] == es[1..] + [e];
      RunLast(if Enabled(s, es[0]) then Step(s, es[0]) else s, es[1..], e);
    }
  }

  // ----- Rounds of the loop -------------------------------------------------------------------

  /** A heartbeat goes out in a round whose model list is fresh, and one or the other only when it is due. */
  ghost predicate Due(l: Loop) {
    && (l.pc.ModelCheck? ==> l.pc.now - l.lastModelCheck >= 20_000)
    && (l.pc.ModelSave? ==> l.pc.now - l.lastModelCheck >= 20_000)
    && (l.pc.Heartbeat? ==> l.pc.now - l.lastModelCheck < 20_000 && l.pc.now - l.lastHeartbeat >= 30_000)
  }

  ghost predicate AllDue(s: State) {
    forall id :: id in s.loops ==> Due(s.loops[id])
  }

  lemma RoundIsDue(sh: Shared, l: Loop, now: int)
    ensures Due(Iterate(sh, l, now)) && Due(AfterRefresh(sh, l, now))
  {
  }

  lemma LoopStepKeepsDue(sh: Shared, l: Loop, r: LoopResume)
    requires LoopReady(l.pc, r) && Due(l)
    ensures Due(LoopStep(sh, l, r).loop)
  {
    hide HasToken, Truthy, Iterate, AfterRefresh, Budget, Belongs, ChatOutcome, TakeModels;
    forall t, k, now { RoundIsDue(t, k, now); }
  }

  lemma StepKeepsDue(s: State, e: Event)
    requires AllDue(s) && Enabled(s, e)
    ensures AllDue(Step(s, e))
  {
    hide PairMove, PairReady, Paired, HasToken, Truthy, Iterate, LoopStep, LoopReady, Due, TakeModels;
    forall sh, l, now { RoundIsDue(sh, l, now); }
    if e.OfLoop? { LoopStepKeepsDue(s.sh, s.loops[e.id], e.resume); }
  }

  lemma {:induction false} RunKeepsDue(s: State, es: seq<Event>)
    requires AllDue(s)
    ensures AllDue(Run(s, es))
    decreases |es|
  {
    hide AllDue, Step, Enabled;
    if es != [] {
      if Enabled(s, es[0]) { StepKeepsDue(s, es[0]); }
      RunKeepsDue(if Enabled(s, es[0]) then Step(s, es[0]) else s, es[1..]);
    }
  }

  lemma ReachableDue(s: State)
    requires Reachable(s)
    ensures AllDue(s)
  {
    var saved, ok, reachable, pick, now, es :| s == Run(Started(saved, ok, reachable, pick, now), es);
    hide Run, AllDue;
    StartedDue(saved, ok, reachable, pick, now);
    RunKeepsDue(Started(saved, ok, reachable, pick, now), es);
  }

  lemma StartedDue(saved: Config, ok: bool, reachable: bool, pick: Option<string>, now: int)
    ensures AllDue(Started(saved, ok, reachable, pick, now))
  {
    hide Iterate, HasToken, Truthy;
    forall sh, l { RoundIsDue(sh, l, now); }
  }

  /** The clock reading of the round that a resumption begins or goes on with. */
  function Reading(pc: Pc, r: LoopResume): int
    requires LoopReady(pc, r)
  {
    match r
    case Slept(now) => now
    case ReportSettled(now) => now
    case ModelsAnswered(_, _) => pc.now
    case ModelsSaved => pc.now
    case HeartbeatAnswered(_) => pc.now
    case _ => 0
  }

  predicate BeginsRound(r: LoopResume) {
    r.Slept? || r.ReportSettled?
  }

  /** The model list of this round is in, and saved where it changed the settings. */
  predicate Listed(c: Config, d: Config, r: LoopResume) {
    r.ModelsSaved? || (r.ModelsAnswered? && c == d)
  }

  /**
   * Where the loop goes from any state some interleaving reaches: a round is gone into exactly while no
   * stop is asked for and answering is wanted, and else the loop leaves; the models are listed when the
   * last list is 20 seconds old, a heartbeat goes out when the last one is 30 seconds old, and a job is
   * claimed with both fresh, a model at hand and its server reachable. A refusal ends the loop.
   */
  lemma LoopGoesIff(s: State, id: nat, r: LoopResume)
    requires Reachable(s) && Enabled(s, OfLoop(id, r)) && !r.ClaimAnswered? && !Serving(s.loops[id].pc)
    ensures id in Step(s, OfLoop(id, r)).loops
    ensures var t := Step(s, OfLoop(id, r));
            var l, pc, now := s.loops[id], t.loops[id].pc, Reading(s.loops[id].pc, r);
            var goesOn := BeginsRound(r) && !s.sh.stopRequested && s.sh.config.enabled && HasToken(s.sh.config);
            var listed := (goesOn && now - l.lastModelCheck < 20_000) || Listed(s.sh.config, t.sh.config, r);
            var beaten := (listed && now - l.lastHeartbeat < 30_000) || (r.HeartbeatAnswered? && !r.refused);
            && (pc.ModelCheck? <==> goesOn && now - l.lastModelCheck >= 20_000)
            && (pc.ModelSave? <==> r.ModelsAnswered? && !listed)
            && (pc.Heartbeat? <==> listed && now - l.lastHeartbeat >= 30_000)
            && (pc.Claiming? <==> beaten && t.sh.reachable && Truthy(t.sh.config.model))
            && (pc.Unready? <==> beaten && !(t.sh.reachable && Truthy(t.sh.config.model)))
            && (pc.HeartbeatRevoking? <==> r.HeartbeatAnswered? && r.refused)
            && (pc.Exited? <==> r.RevokeSaved? || (BeginsRound(r) && !goesOn))
  {
    ReachableDue(s);
    hide Reachable;
  }

  /**
   * What the loop remembers: the reading of the round its last model list came in, and of its last heartbeat
   * that was not refused.
   */
  lemma LoopRemembers(s: State, id: nat, r: LoopResume)
    requires Enabled(s, OfLoop(id, r))
    ensures id in Step(s, OfLoop(id, r)).loops
    ensures var t, l := Step(s, OfLoop(id, r)), s.loops[id];
            && t.loops[id].lastHeartbeat == (if r.HeartbeatAnswered? && !r.refused then l.pc.now else l.lastHeartbeat)
            && t.loops[id].lastModelCheck == (if Listed(s.sh.config, t.sh.config, r) then l.pc.now else l.lastModelCheck)
            && (t.loops[id].pc.ModelCheck? || t.loops[id].pc.ModelSave? || t.loops[id].pc.Heartbeat? ==>
                  t.loops[id].pc.now == Reading(l.pc, r))
  {
    hide Budget, Belongs, ChatOutcome, HasToken;
  }

  /** A loop that has left is followed by another exactly when no stop is asked for and answering is wanted. */
  lemma LoopFollowedIff(s: State, id: nat, now: int)
    requires Reachable(s) && Enabled(s, LoopEnded(id, now))
    ensures var t := Step(s, LoopEnded(id, now));
            t.loops != map[] <==> !s.sh.stopRequested && s.sh.config.enabled && HasToken(s.sh.config)
  {
    ReachableInv(s);
    hide NoLostWake, JobsInOrder, PairsInOrder, Iterate, Reachable;
    var t := Step(s, LoopEnded(id, now));
    assert forall k :: k in s.loops ==> k == id;
    assert s.loops - {id} == map[];
    if t.loop.Some? { assert t.loop.value in t.loops; }
  }

  /** The event asks for a loop: the end of switching on, a pairing saved while answering is on. */
  predicate AsksForLoop(s: State, e: Event) {
    && HasToken(s.sh.config)
    && match e
       case User(SetEnabledSaved(_)) => s.toggling == Some(true)
       case OfPair(_, PairSaved(_)) => s.sh.config.enabled
       case _ => false
  }

  /** The event asks for a stop: the end of switching off, an unpairing. */
  predicate AsksForStop(s: State, e: Event) {
    match e
    case User(SetEnabledSaved(_)) => s.toggling == Some(false)
    case User(Unpair) => true
    case _ => false
  }

  function TimeOf(e: Event): int {
    match e
    case User(SetEnabledSaved(now)) => now
    case OfPair(_, PairSaved(now)) => now
    case LoopEnded(_, now) => now
    case _ => 0
  }

  /**
   * A loop is started exactly when one is asked for and there is none, or when one has ended while
   * answering is wanted and no stop is asked for; a stop is asked for from such an event until a loop is.
   */
  lemma LoopStartsIff(s: State, e: Event)
    requires OneLoop(s) && Enabled(s, e)
    ensures var t := Step(s, e);
            && (t.nextLoop != s.nextLoop <==>
                  || (AsksForLoop(s, e) && s.loops == map[])
                  || (e.LoopEnded? && !s.sh.stopRequested && s.sh.config.enabled && HasToken(s.sh.config)))
            && (t.sh.stopRequested <==> if AsksForLoop(s, e) then false else if AsksForStop(s, e) then true else s.sh.stopRequested)
  {
    hide Iterate, Truthy, PairMove, PairReady;
    match e
    case OfLoop(id, r) =>
      LoopStepKeepsStop(s.sh, s.loops[id], r);
      hide LoopStep;
    case LoopEnded(id, _) => hide LoopStep;
    case _ =>
      hide LoopStep;
      if s.loop.Some? { assert s.loop.value in s.loops; }
  }

  /** A loop that is started has no heartbeat or model list behind it: it lists the models first. */
  lemma NewLoopListsFirst(s: State, e: Event)
    requires Enabled(s, e) && Step(s, e).nextLoop != s.nextLoop && TimeOf(e) >= 20_000
    ensures var t := Step(s, e);
            && t.loop == Some(s.nextLoop) && s.nextLoop in t.loops
            && t.loops[s.nextLoop] == Loop(if Wanted(t.sh.config) then ModelCheck(TimeOf(e)) else Exited, 0, 0)
  {
    hide Truthy, PairMove, PairReady, LoopStep, HasToken;
  }

  /** A loop is never stuck: it can end, or go on with any answer to what it waits for. */
  lemma LoopCanGoOn(s: State, id: nat)
    requires id in s.loops
    ensures var pc := s.loops[id].pc;
            match pc
            case Exited => forall now :: Enabled(s, LoopEnded(id, now))
            case ModelCheck(_) => forall ok, pick :: Enabled(s, OfLoop(id, ModelsAnswered(ok, pick)))
            case ModelSave(_) => Enabled(s, OfLoop(id, ModelsSaved))
            case Heartbeat(_, _) => forall refused :: Enabled(s, OfLoop(id, HeartbeatAnswered(refused)))
            case HeartbeatRevoking => Enabled(s, OfLoop(id, RevokeSaved))
            case ClaimRevoking => Enabled(s, OfLoop(id, RevokeSaved))
            case Unready => forall now :: Enabled(s, OfLoop(id, Slept(now)))
            case Idle => forall now :: Enabled(s, OfLoop(id, Slept(now)))
            case Claiming(_) => forall claim :: Enabled(s, OfLoop(id, ClaimAnswered(claim)))
            case Chatting(_, _, _) => forall reply :: Enabled(s, OfLoop(id, ChatAnswered(reply)))
            case Draining(_, _, watcher, _) => watcher.Ended? ==> Enabled(s, OfLoop(id, LeaseSettled))
            case Reporting(_, _) => forall now :: Enabled(s, OfLoop(id, ReportSettled(now)))
    ensures Serving(s.loops[id].pc) ==>
              && (s.loops[id].pc.watcher.Sleeping? ==> Enabled(s, OfLoop(id, WatchWoke)))
              && (s.loops[id].pc.watcher.Checking? ==> forall active :: Enabled(s, OfLoop(id, WatchAnswered(active))))
  {
  }

  // ----- The settings -------------------------------------------------------------------------

  /** What an event makes of the settings. */
  function Edited(c: Config, e: Event, requirementsOk: bool): Config {
    match e
    case User(SetEnabled(on)) => if on && !requirementsOk then c else c.(enabled := on)
    case User(SetModel(model)) => c.(model := Some(model))
    case User(RefreshAnswered(_, pick)) => if Truthy(pick) then c.(model := pick) else c
    case OfLoop(_, ModelsAnswered(_, pick)) => if Truthy(pick) then c.(model := pick) else c
    case User(Unpair) => Config(false, c.model, None, None, None, None)
    case OfPair(_, PairPolled(Approved(token, device, org, user), _)) =>
      if token != "" && user != "" then Config(c.enabled, c.model, Some(token), device, org, Some(user)) else c
    case OfLoop(_, HeartbeatAnswered(true)) => Config(false, c.model, None, None, c.orgId, c.userId)
    case OfLoop(_, ClaimAnswered(Unauthorized)) => Config(false, c.model, None, None, c.orgId, c.userId)
    case _ => c
  }

  function Edits(s: State, es: seq<Event>): Config
    decreases |es|
  {
    if es == [] then s.sh.config
    else
      var n := |es| - 1;
      var most := es[..n];
      if Enabled(Run(s, most), es[n]) then Edited(Edits(s, most), es[n], s.requirementsOk) else Edits(s, most)
  }

  lemma LoopStepEdits(s: State, id: nat, r: LoopResume)
    requires Enabled(s, OfLoop(id, r))
    ensures LoopStep(s.sh, s.loops[id], r).sh.config == Edited(s.sh.config, OfLoop(id, r), s.requirementsOk)
  {
    hide HasToken, Iterate, Budget, Belongs, ChatOutcome, AfterRefresh, AfterHeartbeat, Truthy;
  }

  lemma PairStepEdits(s: State, run: nat, r: PairResume)
    requires Enabled(s, OfPair(run, r))
    ensures PairStep(s, run, r).sh.config == Edited(s.sh.config, OfPair(run, r), s.requirementsOk)
    ensures PairStep(s, run, r).requirementsOk == s.requirementsOk
  {
    hide PairMove, HasToken, Iterate;
  }

  lemma CallStepEdits(s: State, call: Call)
    requires Enabled(s, User(call))
    ensures CallStep(s, call).sh.config == Edited(s.sh.config, User(call), s.requirementsOk)
    ensures CallStep(s, call).requirementsOk == s.requirementsOk
  {
    hide HasToken, Iterate, Truthy;
  }

  lemma StepEdits(s: State, e: Event)
    requires Enabled(s, e)
    ensures Step(s, e).sh.config == Edited(s.sh.config, e, s.requirementsOk) && Step(s, e).requirementsOk == s.requirementsOk
  {
    match e
    case OfLoop(id, r) =>
      LoopStepEdits(s, id, r);
      hide LoopStep, Edited;
    case OfPair(run, r) =>
      PairStepEdits(s, run, r);
      hide PairStep, Edited;
    case User(call) =>
      CallStepEdits(s, call);
      hide CallStep, Edited;
    case LoopEnded(_, _) => hide HasToken, Iterate;
  }

  /** Over a run the settings are the ones it began with, edited by its events in turn and by nothing else. */
  lemma {:induction false} SettingsFollowTheEvents(s: State, es: seq<Event>)
    ensures Run(s, es).sh.config == Edits(s, es) && Run(s, es).requirementsOk == s.requirementsOk
    decreases |es|
  {
    hide Step, Enabled, Edited;
    if es != [] {
      var n := |es| - 1;
      assert es == es[..n] + [es[n]];
      RunLast(s, es[..n], es[n]);
      SettingsFollowTheEvents(s, es[..n]);
      if Enabled(Run(s, es[..n]), es[n]) { StepEdits(Run(s, es[..n]), es[n]); }
    }
  }

  /** The model server counts as reachable as its last answer had it, whoever asked. */
  lemma ServerSeen(s: State, e: Event)
    requires Enabled(s, e)
    ensures Step(s, e).sh.reachable ==
              match e
              case User(RefreshAnswered(reachable, _)) => reachable
              case OfLoop(_, ModelsAnswered(reachable, _)) => reachable
              case _ => s.sh.reachable
  {
    match e
    case OfLoop(_, _) => hide HasToken, Iterate, Budget, Belongs, ChatOutcome, AfterRefresh, AfterHeartbeat, Truthy;
    case _ => hide LoopStep, PairMove, PairReady, HasToken, Iterate, Truthy;
  }

  /** A switch is under way exactly from the call, when it is let in, to the end of its save. */
  lemma SwitchUnderWay(s: State, e: Event)
    requires Enabled(s, e)
    ensures Step(s, e).toggling ==
              if e.User? && e.call.SetEnabled? && !(e.call.on && !s.requirementsOk) then Some(e.call.on)
              else if e.User? && e.call.SetEnabledSaved? then None
              else s.toggling
  {
    hide PairMove, PairReady, HasToken, Iterate, LoopStep;
  }

  // ----- How long a pairing asks --------------------------------------------------------------

  /** Pairings are moved by pair(), by a cancel and by their own answers. */
  lemma PairingMoves(s: State, e: Event)
    requires Enabled(s, e)
    ensures Step(s, e).pairing ==
              match e
              case OfPair(run, r) => PairMove(s.pairing, run, r)
              case User(Pair) => NextRun(s.pairing).(calls := s.pairing.calls[s.pairing.run + 1 := Starting])
              case User(CancelPairing) => NextRun(s.pairing).(shown := false)
              case _ => s.pairing
  {
    match e
    case OfPair(_, _) => hide PairMove, PairReady, HasToken, Iterate;
    case OfLoop(_, _) => hide LoopStep;
    case _ => hide HasToken, Iterate, Truthy, NextRun;
  }

  /** The call is between its start answer and the end of its polling. */
  predicate Asking(p: Pairing, run: nat) {
    run in p.calls && (p.calls[run].Waiting? || p.calls[run].Polling?)
  }

  /** The call hears the event and goes on asking after it. */
  predicate GoesOn(p: Pairing, run: nat, r: PairResume, deadline: int) {
    run == p.run &&
    match r
    case PairWoke => true
    case PairPolled(answer, now) => answer.Pending? && now < deadline
    case _ => false
  }

  lemma StepKeepsAskingIff(s: State, e: Event, run: nat)
    requires Enabled(s, e) && PairsInOrder(s.pairing) && Asking(s.pairing, run)
    ensures var p, q := s.pairing, Step(s, e).pairing;
            && (Asking(q, run) <==> (e.OfPair? && e.run == run ==> GoesOn(p, run, e.pair, p.calls[run].deadline)))
            && (Asking(q, run) ==> q.calls[run].deadline == p.calls[run].deadline)
  {
    PairingMoves(s, e);
    hide Step, PollsNewest, Newest;
  }

  lemma StepNeverAsksAgain(s: State, e: Event, run: nat)
    requires Enabled(s, e) && PairsInOrder(s.pairing) && Gone(s.pairing, run)
    ensures Gone(Step(s, e).pairing, run)
  {
    PairingMoves(s, e);
    hide Step, PollsNewest, Newest;
  }

  /** The call has asked for the last time. */
  ghost predicate Gone(p: Pairing, run: nat) {
    run <= p.run && (run in p.calls ==> p.calls[run].Saving?)
  }

  /** The i-th event of a run takes place, is the call's own, and ends its asking. */
  ghost predicate EndsAskingAt(s: State, es: seq<Event>, i: nat, run: nat, deadline: int)
    requires i < |es|
  {
    var before := Run(s, es[..i]);
    && Enabled(before, es[i]) && es[i].OfPair? && es[i].run == run
    && Asking(before.pairing, run) && !GoesOn(before.pairing, run, es[i].pair, deadline)
  }

  /**
   * A pairing still asks, under the deadline it began with, exactly while it is the newest whenever it
   * wakes or hears an answer, and every answer says pending and comes before that deadline.
   */
  lemma {:induction false} StillAskingIff(s: State, es: seq<Event>, run: nat)
    requires Core(s) && Asking(s.pairing, run)
    ensures var p, deadline := Run(s, es).pairing, s.pairing.calls[run].deadline;
            && (Asking(p, run) <==> forall i :: 0 <= i < |es| ==> !EndsAskingAt(s, es, i, run, deadline))
            && (Asking(p, run) ==> p.calls[run].deadline == deadline)
            && (!Asking(p, run) ==> Gone(p, run))
    decreases |es|
  {
    hide Step, Enabled, PairsInOrder, OneLoop, JobsInOrder, Gone, GoesOn;
    if es != [] {
      var n, deadline := |es| - 1, s.pairing.calls[run].deadline;
      var most, last := es[..n], es[n];
      assert es == most + [last];
      RunLast(s, most, last);
      StillAskingIff(s, most, run);
      RunKeepsCore(s, most);
      var u := Run(s, most);
      if Enabled(u, last) {
        if Asking(u.pairing, run) {
          StepKeepsAskingIff(u, last, run);
          if !Asking(Step(u, last).pairing, run) { EndedIsGone(u, last, run); }
        } else {
          StepNeverAsksAgain(u, last, run);
          GoneIsNotAsking(Step(u, last).pairing, run);
        }
      }
      forall i | 0 <= i < n ensures EndsAskingAt(s, most, i, run, deadline) <==> EndsAskingAt(s, es, i, run, deadline) {
        assert most[..i] == es[..i];
      }
      assert EndsAskingAt(s, es, n, run, deadline) <==>
          && Enabled(u, last) && last.OfPair? && last.run == run
          && Asking(u.pairing, run) && !GoesOn(u.pairing, run, last.pair, deadline);
    }
  }

  lemma GoneIsNotAsking(p: Pairing, run: nat)
    requires Gone(p, run)
    ensures !Asking(p, run)
  {
  }

  lemma EndedIsGone(s: State, e: Event, run: nat)
    requires Enabled(s, e) && PairsInOrder(s.pairing) && Asking(s.pairing, run) && !Asking(Step(s, e).pairing, run)
    ensures Gone(Step(s, e).pairing, run)
  {
    PairingMoves(s, e);
    hide Step, PollsNewest, Newest;
  }

  /**
   * What the answers do: a start answered well begins ten minutes of asking, for the newest call; a
   * complete approval is kept, whichever call it answers, and starts a loop once it is saved and answering
   * is wanted; and every other end of a call leaves no trace of it.
   */
  lemma PairAnswers(s: State, run: nat, r: PairResume)
    requires Core(s) && Enabled(s, OfPair(run, r))
    ensures var t := Step(s, OfPair(run, r));
            && (r.PairStarted? ==>
                  (run in t.pairing.calls <==> r.ok && run == s.pairing.run)
                  && (run in t.pairing.calls ==> t.pairing.calls[run] == Waiting(r.now + 600_000)))
            && (r.PairWoke? ==>
                  (run in t.pairing.calls <==> run == s.pairing.run)
                  && (run in t.pairing.calls ==>
                        t.pairing.calls[run].Polling? && t.pairing.log == s.pairing.log + [Polled(run)]))
            && (r.PairPolled? ==>
                  (run in t.pairing.calls && t.pairing.calls[run].Saving? <==>
                     r.answer.Approved? && r.answer.deviceToken != "" && r.answer.userId != "")
                  && (run in t.pairing.calls && t.pairing.calls[run].Waiting? <==>
                        r.answer.Pending? && r.now < s.pairing.calls[run].deadline && run == s.pairing.run))
            && (r.PairSaved? ==>
                  run !in t.pairing.calls && (Wanted(s.sh.config) ==> !t.sh.stopRequested && t.loops != map[]))
            && forall k :: k != run ==> (k in t.pairing.calls <==> k in s.pairing.calls)
                                         && (k in s.pairing.calls ==> t.pairing.calls[k] == s.pairing.calls[k])
  {
    hide PhaseOf, DoneReports, PollsNewest, Newest, Iterate;
    var t := Step(s, OfPair(run, r));
    if r.PairSaved? && Wanted(s.sh.config) { assert t.loop.value in t.loops; }
  }

  /** The code is on show from a good start on, until it is cancelled, approved, or the newest call fails. */
  lemma CodeShownIff(s: State, e: Event)
    requires Enabled(s, e)
    ensures var p, q := s.pairing, Step(s, e).pairing;
            var began := e.OfPair? && e.pair.PairStarted? && e.pair.ok;
            var cancelled := e.User? && e.call.CancelPairing?;
            var approved := e.OfPair? && e.pair.PairPolled? && Complete(e.pair.answer);
            var failed := e.OfPair? && e.run == p.run && !began && !approved
                          && (e.pair.PairStarted? || (e.pair.PairPolled? && !GoesOn(p, e.run, e.pair, p.calls[e.run].deadline)));
            q.shown <==> began || (p.shown && !cancelled && !approved && !failed)
  {
    PairingMoves(s, e);
    hide Step;
  }
}
