/**
 * The Local AI service as the object whose fields its calls and its loop update in place. Every method
 * is one step of `LocalAiSpec`: the code from a call, or from an await, up to the next await.
 */
module LocalAiService {
  import opened Wrappers
  import opened LocalAiSpec
  import opened LocalAiProofs
  import LocalAiStop

  /** What every call keeps: one loop, jobs and pairings in order, and, until stop(), no lost wake-up. */
  ghost predicate Lawful(s: State, stopped: bool) {
    Core(s) && (!stopped ==> NoLostWake(s))
  }

  lemma LawfulStep(s: State, stopped: bool, e: Event)
    requires Lawful(s, stopped) && Enabled(s, e)
    ensures Lawful(Step(s, e), stopped)
  {
    hide Core, NoLostWake, Step, Enabled;
    StepKeepsCore(s, e);
    if !stopped { StepKeepsInv(s, e); }
  }

  /** What a caller can read off a lawful state: of the loop, and of the jobs. */
  lemma LoopFacts(s: State, stopped: bool)
    requires Lawful(s, stopped)
    ensures forall a, b :: a in s.loops && b in s.loops ==> a == b
    ensures forall id :: id in s.loops && Serving(s.loops[id].pc) ==> s.sh.current == Some(s.loops[id].pc.ctl)
    ensures forall run :: run in s.pairing.calls ==> run <= s.pairing.run
    ensures s.loop.Some? ==> s.loop.value in s.loops
  {
    hide PhaseOf, DoneReports, PollsNewest;
  }

  lemma JobFacts(s: State, stopped: bool)
    requires Lawful(s, stopped)
    ensures |Claims(s.log)| <= |Reports(s.log)| + 1
    ensures s.sh.current.None? ==> Reports(s.log) == Claims(s.log)
    ensures (forall id :: id in s.loops ==> !s.loops[id].pc.Reporting?) ==> s.sh.jobsServed == DoneReports(s.log)
  {
    hide Core, Claims, Reports, DoneReports;
    JobsAddUp(s);
  }

  /** Once its report is settled the counter is the number of answers reported. */
  lemma ReportCounts(s: State, stopped: bool, id: nat, now: int)
    requires Lawful(s, stopped) && Enabled(s, OfLoop(id, ReportSettled(now)))
    ensures var t := Step(s, OfLoop(id, ReportSettled(now))); t.sh.jobsServed == DoneReports(t.log)
  {
    var e := OfLoop(id, ReportSettled(now));
    LawfulStep(s, stopped, e);
    LoopFacts(Step(s, e), stopped);
    hide Lawful, Core, Claims, Reports, DoneReports;
    assert forall k :: k in Step(s, e).loops ==> k == id && !Step(s, e).loops[k].pc.Reporting?;
    JobFacts(Step(s, e), stopped);
  }

  /** A loop that ends leaves one at most, and a live one when answering is wanted and no stop was asked for. */
  lemma EndedIsReplaced(s: State, stopped: bool, id: nat, now: int)
    requires Lawful(s, stopped) && Enabled(s, LoopEnded(id, now))
    ensures var t := Step(s, LoopEnded(id, now));
            && (forall a, b :: a in t.loops && b in t.loops ==> a == b)
            && (!s.sh.stopRequested && Wanted(t.sh.config) ==>
                  t.loop.Some? && t.loop.value in t.loops && !t.loops[t.loop.value].pc.Exited?)
  {
    LawfulStep(s, stopped, LoopEnded(id, now));
    LoopFacts(Step(s, LoopEnded(id, now)), stopped);
    hide Lawful, Core;
  }

  class Service {
    var config: Config
    var requirementsOk: bool
    var reachable: bool
    var pairing: bool
    var pairingRun: nat
    var running: bool
    var stopRequested: bool
    var jobsServed: nat
    var loop: Option<nat>
    var current: Option<nat>
    // The suspended calls, the controllers handed out and the ones that fired.
    var toggling: Option<bool>
    var pairs: map<nat, PairPc>
    var loops: map<nat, Loop>
    var nextLoop: nat
    var nextCtl: nat
    var aborted: set<nat>
    ghost var log: seq<Act>
    ghost var pairLog: seq<PairAct>
    // stop() was called: from then on a wanted loop may be missing.
    ghost var stopped: bool

    ghost predicate Valid()
      reads this
    {
      Lawful(View(), stopped)
    }

    ghost function View(): State
      reads this
    {
      State(Shared(config, reachable, stopRequested, jobsServed, current, nextCtl, aborted),
            Pairing(pairing, pairingRun, pairs, pairLog), requirementsOk, toggling,
            running, loop, loops, nextLoop, log)
    }

    constructor Start(saved: Config, requirementsOk: bool, reachable: bool, pick: Option<string>, now: int)
      ensures View() == Started(saved, requirementsOk, reachable, pick, now)
      ensures Valid() && !stopped
    {
      StartedInv(saved, requirementsOk, reachable, pick, now);
      hide Core, NoLostWake;
      stopped := false;
      config, this.requirementsOk, this.reachable := saved, requirementsOk, false;
      pairing, pairingRun, pairs, pairLog := false, 0, map[], [];
      running, stopRequested, jobsServed, loop, current := false, false, 0, None, None;
      toggling, loops, nextLoop, nextCtl, aborted, log := None, map[], 0, 0, {}, [];
      new;
      RefreshModels(reachable, pick);
      if config.enabled { EnsureLoop(now); }
    }

    /** The model list is in: keep it, and the pick when it differs from the saved choice. */
    method RefreshModels(answered: bool, pick: Option<string>)
      modifies this`reachable, this`config
      ensures View() == old(View()).(sh := TakeModels(old(View()).sh, answered, pick))
      ensures old(Valid()) ==> Valid()
      ensures reachable == answered && config.deviceToken == old(config.deviceToken) && config.enabled == old(config.enabled)
      ensures config.model == if Truthy(pick) then pick else old(config.model)
    {
      ghost var before := View();
      if Valid() { LawfulStep(before, stopped, User(RefreshAnswered(answered, pick))); }
      hide Lawful;
      reachable := answered;
      if pick != config.model && Truthy(pick) {
        config := config.(model := pick);
      }
    }

    /** If the loop is serving a job, that job's controller has fired. */
    ghost predicate Cancelled(id: nat)
      reads this
    {
      id in loops && Serving(loops[id].pc) ==> loops[id].pc.ctl in aborted
    }

    /** stop(): what is being served is cancelled, and no later resumption but a wake-up starts a loop. */
    method Stop()
      requires Valid()
      modifies this`stopRequested, this`aborted, this`stopped
      ensures View() == LocalAiStop.Stop(old(View()))
      ensures Valid() && stopped && stopRequested && forall id :: Cancelled(id)
    {
      LocalAiStop.StopKeepsCore(View());
      hide Core, NoLostWake;
      stopped := true;
      StopLoop();
    }

    // ----- Calls --------------------------------------------------------------------------------

    method SetEnabled(on: bool)
      requires Valid()
      requires Enabled(View(), User(Call.SetEnabled(on)))
      modifies this`config, this`toggling
      ensures View() == Step(old(View()), User(Call.SetEnabled(on)))
      ensures Valid() && stopped == old(stopped)
      ensures config.enabled == if on && !requirementsOk then old(config.enabled) else on
    {
      hide Lawful;
      LawfulStep(View(), stopped, User(Call.SetEnabled(on)));
      if on && !requirementsOk { return; }
      config := config.(enabled := on);
      toggling := Some(on);
    }

    method SetEnabledSaved(now: int)
      requires Valid()
      requires Enabled(View(), User(Call.SetEnabledSaved(now)))
      modifies this
      ensures View() == Step(old(View()), User(Call.SetEnabledSaved(now)))
      ensures Valid() && stopped == old(stopped)
      ensures old(toggling) == Some(true) && Wanted(config) ==> !stopRequested && loop.Some? && loop.value in loops
      ensures old(toggling) == Some(false) ==> stopRequested && forall id :: Cancelled(id)
    {
      hide Lawful;
      LawfulStep(View(), stopped, User(Call.SetEnabledSaved(now)));
      LoopFacts(View(), stopped);
      LoopFacts(Step(View(), User(Call.SetEnabledSaved(now))), stopped);
      var on := toggling.value;
      toggling := None;
      if on { EnsureLoop(now); } else { StopLoop(); }
    }

    method SetModel(model: string)
      requires Valid()
      modifies this`config
      ensures View() == Step(old(View()), User(Call.SetModel(model)))
      ensures Valid() && stopped == old(stopped)
      ensures config.model == Some(model)
    {
      hide Lawful;
      LawfulStep(View(), stopped, User(Call.SetModel(model)));
      config := config.(model := Some(model));
    }

    method Unpair()
      requires Valid()
      modifies this`config, this`stopRequested, this`aborted
      ensures View() == Step(old(View()), User(Call.Unpair))
      ensures Valid() && stopped == old(stopped)
      ensures !Wanted(config) && !HasToken(config) && stopRequested && forall id :: Cancelled(id)
    {
      hide Lawful;
      LawfulStep(View(), stopped, User(Call.Unpair));
      LoopFacts(View(), stopped);
      LoopFacts(Step(View(), User(Call.Unpair)), stopped);
      StopLoop();
      config := config.(enabled := false, deviceToken := None, deviceId := None, orgId := None, userId := None);
    }

    method CancelPairing()
      requires Valid()
      modifies this`pairing, this`pairingRun, this`pairLog
      ensures View() == Step(old(View()), User(Call.CancelPairing))
      ensures Valid() && stopped == old(stopped)
      ensures forall run :: run in pairs ==> run < pairingRun
    {
      hide Lawful;
      LawfulStep(View(), stopped, User(Call.CancelPairing));
      LoopFacts(View(), stopped);
      LoopFacts(Step(View(), User(Call.CancelPairing)), stopped);
      pairingRun := pairingRun + 1;
      pairing := false;
      pairLog := pairLog + [NewRun(pairingRun)];
    }

    method EnsureLoop(now: int)
      modifies this`stopRequested, this`running, this`loop, this`loops, this`nextLoop
      ensures View() == LocalAiSpec.EnsureLoop(old(View()), now)
      ensures HasToken(config) ==> !stopRequested && loop.Some?
      ensures old(loop.Some?) ==> loop == old(loop) && loops == old(loops)
    {
      hide Iterate, HasToken;
      if !HasToken(config) { return; }
      stopRequested := false;
      if loop.Some? { return; }
      RunLoop(now);
    }

    /** The loop starts: its first round, up to the await it reaches. */
    method RunLoop(now: int)
      modifies this`running, this`loop, this`loops, this`nextLoop
      ensures var s := old(View());
              View() == s.(running := true, loop := Some(s.nextLoop), nextLoop := s.nextLoop + 1,
                           loops := s.loops[s.nextLoop := Iterate(s.sh, Loop(Exited, 0, 0), now)])
    {
      var first := Round(Loop(Exited, 0, 0), now);
      running, loop := true, Some(nextLoop);
      loops, nextLoop := loops[nextLoop := first], nextLoop + 1;
    }

    method StopLoop()
      modifies this`stopRequested, this`aborted
      ensures View() == old(View()).(sh := LocalAiSpec.StopLoop(old(View()).sh))
      ensures stopRequested && (old(Valid()) ==> forall id :: Cancelled(id))
    {
      ghost var before := View();
      if Valid() { LoopFacts(before, stopped); }
      hide Lawful;
      stopRequested := true;
      if current.Some? { aborted := aborted + {current.value}; }
    }

    // ----- pair() -------------------------------------------------------------------------------

    method Pair()
      requires Valid()
      modifies this`pairingRun, this`pairs, this`pairLog
      ensures View() == Step(old(View()), User(Call.Pair))
      ensures Valid() && stopped == old(stopped)
      ensures pairingRun in pairs && forall run :: run in old(pairs) ==> run < pairingRun
    {
      hide Lawful;
      LawfulStep(View(), stopped, User(Call.Pair));
      LoopFacts(View(), stopped);
      LoopFacts(Step(View(), User(Call.Pair)), stopped);
      pairingRun := pairingRun + 1;
      pairs := pairs[pairingRun := Starting];
      pairLog := pairLog + [NewRun(pairingRun)];
    }

    method PairFailed(run: nat)
      modifies this`pairing, this`pairs
      ensures View() == old(View()).(pairing := LocalAiSpec.PairFailed(old(View()).pairing, run))
    {
      if run == pairingRun { pairing := false; }
      pairs := pairs - {run};
    }

    method PairRound(run: nat, deadline: int, now: int)
      modifies this`pairing, this`pairs
      ensures View() == old(View()).(pairing := LocalAiSpec.PairRound(old(View()).pairing, run, deadline, now))
    {
      if now < deadline && run == pairingRun {
        pairs := pairs[run := Waiting(deadline)];
      } else {
        PairFailed(run);
      }
    }

    method PairStarted(run: nat, ok: bool, now: int)
      requires Valid()
      requires Enabled(View(), OfPair(run, PairResume.PairStarted(ok, now)))
      modifies this`pairing, this`pairs
      ensures View() == Step(old(View()), OfPair(run, PairResume.PairStarted(ok, now)))
      ensures Valid() && stopped == old(stopped)
    {
      hide Lawful;
      LawfulStep(View(), stopped, OfPair(run, PairResume.PairStarted(ok, now)));
      if !ok {
        PairFailed(run);
      } else {
        pairing := true;
        PairRound(run, now + PAIRING_MS, now);
      }
    }

    method PairWoke(run: nat)
      requires Valid()
      requires Enabled(View(), OfPair(run, PairResume.PairWoke))
      modifies this`pairs, this`pairLog
      ensures View() == Step(old(View()), OfPair(run, PairResume.PairWoke))
      ensures Valid() && stopped == old(stopped)
      ensures pairLog != old(pairLog) ==> run == pairingRun
    {
      hide Lawful;
      LawfulStep(View(), stopped, OfPair(run, PairResume.PairWoke));
      if run != pairingRun {
        pairs := pairs - {run};
      } else {
        pairs := pairs[run := Polling(pairs[run].deadline)];
        pairLog := pairLog + [Polled(run)];
      }
    }

    method PairPolled(run: nat, answer: PollAnswer, now: int)
      requires Valid()
      requires Enabled(View(), OfPair(run, PairResume.PairPolled(answer, now)))
      modifies this`config, this`pairing, this`pairs
      ensures View() == Step(old(View()), OfPair(run, PairResume.PairPolled(answer, now)))
      ensures Valid() && stopped == old(stopped)
      ensures config.deviceToken != old(config.deviceToken) ==> Complete(answer) && config.deviceToken == Some(answer.deviceToken)
    {
      hide Lawful;
      LawfulStep(View(), stopped, OfPair(run, PairResume.PairPolled(answer, now)));
      if answer.Pending? {
        PairRound(run, pairs[run].deadline, now);
      } else if answer.Approved? && answer.deviceToken != "" && answer.userId != "" {
        config := config.(deviceToken := Some(answer.deviceToken), deviceId := answer.deviceId,
                          orgId := answer.orgId, userId := Some(answer.userId));
        pairing := false;
        pairs := pairs[run := Saving];
      } else {
        PairFailed(run);
      }
    }

    method PairSaved(run: nat, now: int)
      requires Valid()
      requires Enabled(View(), OfPair(run, PairResume.PairSaved(now)))
      modifies this
      ensures View() == Step(old(View()), OfPair(run, PairResume.PairSaved(now)))
      ensures Valid() && stopped == old(stopped)
      ensures Wanted(config) ==> !stopRequested && loop.Some? && loop.value in loops
    {
      hide Lawful;
      LawfulStep(View(), stopped, OfPair(run, PairResume.PairSaved(now)));
      LoopFacts(View(), stopped);
      LoopFacts(Step(View(), OfPair(run, PairResume.PairSaved(now))), stopped);
      pairs := pairs - {run};
      if config.enabled { EnsureLoop(now); }
    }

    // ----- runLoop ------------------------------------------------------------------------------

    /** From the top of the while loop to the await it reaches. */
    method Round(l: Loop, now: int) returns (l': Loop)
      ensures l' == Iterate(View().sh, l, now)
    {
      l' := l;
      if stopRequested || !config.enabled || !HasToken(config) { l' := l'.(pc := Exited); return; }
      if now - l'.lastModelCheck >= MODEL_CHECK_MS { l' := l'.(pc := ModelCheck(now)); return; }
      l' := FromHeartbeat(l', now);
    }

    method FromHeartbeat(l: Loop, now: int) returns (l': Loop)
      ensures l' == AfterModelCheck(View().sh, l, now)
    {
      if now - l.lastHeartbeat >= HEARTBEAT_MS { l' := l.(pc := Heartbeat(now, config.deviceToken)); return; }
      l' := FromClaim(l);
    }

    method FromClaim(l: Loop) returns (l': Loop)
      ensures l' == AfterHeartbeat(View().sh, l)
    {
      if !reachable || !Truthy(config.model) { l' := l.(pc := Unready); return; }
      l' := l.(pc := Claiming(config.deviceToken));
    }

    method Revoked()
      modifies this`config
      ensures View() == old(View()).(sh := LocalAiSpec.Revoked(old(View()).sh))
    {
      config := config.(enabled := false, deviceToken := None, deviceId := None);
    }

    method ModelsAnswered(id: nat, answered: bool, pick: Option<string>)
      requires Valid()
      requires Enabled(View(), OfLoop(id, LoopResume.ModelsAnswered(answered, pick)))
      modifies this`reachable, this`config, this`loops
      ensures View() == Step(old(View()), OfLoop(id, LoopResume.ModelsAnswered(answered, pick)))
      ensures Valid() && stopped == old(stopped)
    {
      hide Lawful;
      LawfulStep(View(), stopped, OfLoop(id, LoopResume.ModelsAnswered(answered, pick)));
      var l, was := loops[id], config;
      RefreshModels(answered, pick);
      if config != was {
        l := l.(pc := ModelSave(l.pc.now));
      } else {
        l := FromHeartbeat(l.(lastModelCheck := l.pc.now), l.pc.now);
      }
      loops := loops[id := l];
    }

    method ModelsSaved(id: nat)
      requires Valid()
      requires Enabled(View(), OfLoop(id, LoopResume.ModelsSaved))
      modifies this`loops
      ensures View() == Step(old(View()), OfLoop(id, LoopResume.ModelsSaved))
      ensures Valid() && stopped == old(stopped)
    {
      hide Lawful;
      LawfulStep(View(), stopped, OfLoop(id, LoopResume.ModelsSaved));
      var l := loops[id];
      l := FromHeartbeat(l.(lastModelCheck := l.pc.now), l.pc.now);
      loops := loops[id := l];
    }

    method HeartbeatAnswered(id: nat, refused: bool)
      requires Valid()
      requires Enabled(View(), OfLoop(id, LoopResume.HeartbeatAnswered(refused)))
      modifies this`config, this`loops
      ensures View() == Step(old(View()), OfLoop(id, LoopResume.HeartbeatAnswered(refused)))
      ensures Valid() && stopped == old(stopped)
      ensures refused ==> !HasToken(config)
    {
      hide Lawful;
      LawfulStep(View(), stopped, OfLoop(id, LoopResume.HeartbeatAnswered(refused)));
      var l := loops[id];
      if refused {
        Revoked();
        l := l.(pc := HeartbeatRevoking);
      } else {
        l := FromClaim(l.(lastHeartbeat := l.pc.now));
      }
      loops := loops[id := l];
    }

    method RevokeSaved(id: nat)
      requires Valid()
      requires Enabled(View(), OfLoop(id, LoopResume.RevokeSaved))
      modifies this`loops
      ensures View() == Step(old(View()), OfLoop(id, LoopResume.RevokeSaved))
      ensures Valid() && stopped == old(stopped)
    {
      hide Lawful;
      LawfulStep(View(), stopped, OfLoop(id, LoopResume.RevokeSaved));
      loops := loops[id := loops[id].(pc := Exited)];
    }

    method Slept(id: nat, now: int)
      requires Valid()
      requires Enabled(View(), OfLoop(id, LoopResume.Slept(now)))
      modifies this`loops
      ensures View() == Step(old(View()), OfLoop(id, LoopResume.Slept(now)))
      ensures Valid() && stopped == old(stopped)
    {
      hide Lawful;
      LawfulStep(View(), stopped, OfLoop(id, LoopResume.Slept(now)));
      var l := Round(loops[id], now);
      loops := loops[id := l];
    }

    method ClaimAnswered(id: nat, claim: ClaimAnswer)
      requires Valid()
      requires Enabled(View(), OfLoop(id, LoopResume.ClaimAnswered(claim)))
      modifies this`config, this`loops, this`current, this`nextCtl, this`log
      ensures View() == Step(old(View()), OfLoop(id, LoopResume.ClaimAnswered(claim)))
      ensures Valid() && stopped == old(stopped)
      ensures claim.Unauthorized? ==> !HasToken(config)
      ensures |Claims(log)| <= |Reports(log)| + 1
    {
      hide Lawful;
      LawfulStep(View(), stopped, OfLoop(id, LoopResume.ClaimAnswered(claim)));
      JobFacts(Step(View(), OfLoop(id, LoopResume.ClaimAnswered(claim))), stopped);
      if claim.Unauthorized? {
        Revoked();
        loops := loops[id := loops[id].(pc := ClaimRevoking)];
      } else if claim.Given? && claim.job.jobId != "" {
        Serve(id, claim.job);
      } else {
        loops := loops[id := loops[id].(pc := Idle)];
      }
    }

    method LoopEnded(id: nat, now: int)
      requires Valid()
      requires Enabled(View(), Event.LoopEnded(id, now))
      modifies this
      ensures View() == Step(old(View()), Event.LoopEnded(id, now))
      ensures Valid() && stopped == old(stopped)
      ensures forall a, b :: a in loops && b in loops ==> a == b
      ensures !old(stopRequested) && Wanted(config) ==> loop.Some? && loop.value in loops && !loops[loop.value].pc.Exited?
    {
      hide Lawful;
      LawfulStep(View(), stopped, Event.LoopEnded(id, now));
      EndedIsReplaced(View(), stopped, id, now);
      loop := None;
      running := false;
      loops := loops - {id};
      if !stopRequested && config.enabled && HasToken(config) { EnsureLoop(now); }
    }

    // ----- serve() and watchLease() ---------------------------------------------------------------

    method Serve(id: nat, job: Job)
      requires id in loops && loops[id].pc.Claiming?
      modifies this`loops, this`current, this`nextCtl, this`log
      ensures var f := LocalAiSpec.Serve(old(View()).sh, old(loops)[id], job);
              View() == old(View()).(sh := f.sh, loops := old(loops)[id := f.loop], log := old(log) + f.acts)
    {
      hide Budget, Truthy;
      log := log + [Claimed(job, config.userId, config.orgId, loops[id].pc.sent)];
      if Some(job.userId) != config.userId || (Truthy(config.orgId) && Some(job.orgId) != config.orgId) {
        Report(id, job, Failed(CliError));
      } else {
        Ask(id, job);
      }
    }

    /** A job of the paired person's own: a fresh controller, the lease watch and the chat call. */
    method Ask(id: nat, job: Job)
      requires id in loops
      modifies this`loops, this`current, this`nextCtl, this`log
      ensures var s := old(View());
              View() == s.(sh := s.sh.(current := Some(s.sh.nextCtl), nextCtl := s.sh.nextCtl + 1),
                           loops := s.loops[id := s.loops[id].(pc := Chatting(job, s.sh.nextCtl, Sleeping))],
                           log := s.log + [Asked(job.jobId, Budget(job))])
    {
      var controller := nextCtl;
      nextCtl, current := nextCtl + 1, Some(controller);
      loops := loops[id := loops[id].(pc := Chatting(job, controller, Sleeping))];
      log := log + [Asked(job.jobId, Budget(job))];
    }

    method Report(id: nat, job: Job, outcome: Outcome)
      requires id in loops
      modifies this`loops, this`log
      ensures var f := LocalAiSpec.Report(old(View()).sh, old(loops)[id], job, outcome);
              View() == old(View()).(loops := old(loops)[id := f.loop], log := old(log) + f.acts)
    {
      loops := loops[id := loops[id].(pc := Reporting(job, outcome))];
      log := log + [Reported(job.jobId, job.leaseToken, outcome.Answered?, config.deviceToken)];
    }

    method WatchWoke(id: nat)
      requires Valid()
      requires Enabled(View(), OfLoop(id, LoopResume.WatchWoke))
      modifies this`loops, this`log
      ensures View() == Step(old(View()), OfLoop(id, LoopResume.WatchWoke))
      ensures Valid() && stopped == old(stopped)
    {
      hide Lawful;
      LawfulStep(View(), stopped, OfLoop(id, LoopResume.WatchWoke));
      var pc := loops[id].pc;
      if pc.ctl in aborted {
        EndWatch(id);
      } else {
        loops := loops[id := loops[id].(pc := pc.(watcher := Checking))];
        log := log + [LeaseChecked(pc.job.jobId, pc.job.leaseToken, config.deviceToken)];
      }
    }

    method WatchAnswered(id: nat, active: bool)
      requires Valid()
      requires Enabled(View(), OfLoop(id, LoopResume.WatchAnswered(active)))
      modifies this`loops, this`aborted, this`log
      ensures View() == Step(old(View()), OfLoop(id, LoopResume.WatchAnswered(active)))
      ensures Valid() && stopped == old(stopped)
      ensures old(loops)[id].pc.ctl in aborted <==> !active || old(loops[id].pc.ctl in aborted)
      ensures old(loops)[id].pc.ctl !in aborted ==>
                aborted == old(aborted) && log == old(log) && Serving(loops[id].pc) && loops[id].pc.watcher.Sleeping?
    {
      hide Lawful;
      LawfulStep(View(), stopped, OfLoop(id, LoopResume.WatchAnswered(active)));
      var pc := loops[id].pc;
      if !active { aborted := aborted + {pc.ctl}; }
      if pc.ctl in aborted {
        EndWatch(id);
      } else {
        loops := loops[id := loops[id].(pc := pc.(watcher := Sleeping))];
      }
    }

    method EndWatch(id: nat)
      requires id in loops && (loops[id].pc.Chatting? || loops[id].pc.Draining?)
      modifies this`loops, this`log
      ensures loops == old(loops)[id := old(loops)[id].(pc := old(loops)[id].pc.(watcher := Ended))]
      ensures log == old(log) + [WatchEnded(old(loops)[id].pc.job.jobId)]
    {
      log := log + [WatchEnded(loops[id].pc.job.jobId)];
      loops := loops[id := loops[id].(pc := loops[id].pc.(watcher := Ended))];
    }

    method ChatAnswered(id: nat, reply: ChatReply)
      requires Valid()
      requires Enabled(View(), OfLoop(id, LoopResume.ChatAnswered(reply)))
      modifies this`loops, this`aborted
      ensures View() == Step(old(View()), OfLoop(id, LoopResume.ChatAnswered(reply)))
      ensures Valid() && stopped == old(stopped)
      ensures Cancelled(id)
    {
      hide Lawful;
      LawfulStep(View(), stopped, OfLoop(id, LoopResume.ChatAnswered(reply)));
      var pc := loops[id].pc;
      var outcome := ChatOutcome(reply, pc.ctl in aborted);
      aborted := aborted + {pc.ctl};
      loops := loops[id := loops[id].(pc := Draining(pc.job, pc.ctl, pc.watcher, outcome))];
    }

    method LeaseSettled(id: nat)
      requires Valid()
      requires Enabled(View(), OfLoop(id, LoopResume.LeaseSettled))
      modifies this`loops, this`current, this`log
      ensures View() == Step(old(View()), OfLoop(id, LoopResume.LeaseSettled))
      ensures Valid() && stopped == old(stopped)
      ensures Reports(log) == Claims(log)
    {
      hide Lawful;
      LawfulStep(View(), stopped, OfLoop(id, LoopResume.LeaseSettled));
      JobFacts(Step(View(), OfLoop(id, LoopResume.LeaseSettled)), stopped);
      current := None;
      Report(id, loops[id].pc.job, loops[id].pc.outcome);
    }

    method ReportSettled(id: nat, now: int)
      requires Valid()
      requires Enabled(View(), OfLoop(id, LoopResume.ReportSettled(now)))
      modifies this`loops, this`jobsServed
      ensures View() == Step(old(View()), OfLoop(id, LoopResume.ReportSettled(now)))
      ensures Valid() && stopped == old(stopped)
      ensures jobsServed == DoneReports(log)
    {
      hide Lawful, Iterate, DoneReports;
      LawfulStep(View(), stopped, OfLoop(id, LoopResume.ReportSettled(now)));
      ReportCounts(View(), stopped, id, now);
      if loops[id].pc.outcome.Answered? { jobsServed := jobsServed + 1; }
      var l := Round(loops[id], now);
      loops := loops[id := l];
    }
  }
}
