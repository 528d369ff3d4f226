/** What switching off, unpairing and stop() leave running: no new loop, and at most one more job. */
module LocalAiStop {
  import opened Wrappers
  import opened LocalAiSpec
  import opened LocalAiProofs

  /** stop(), which the shell calls when it quits: no save, and no switch is turned. */
  function Stop(s: State): State {
    s.(sh := StopLoop(s.sh))
  }

  /** The only resumptions that may ask for a loop. */
  predicate Wakes(e: Event) {
    (e.User? && e.call.SetEnabledSaved?) || (e.OfPair? && e.pair.PairSaved?)
  }

  /** stop() keeps the one loop, the order of the jobs and that of the pairings, and fires the current controller. */
  lemma StopKeepsCore(s: State)
    requires Core(s)
    ensures Core(Stop(s)) && Stop(s).sh.stopRequested
    ensures forall id :: id in s.loops && Serving(s.loops[id].pc) ==> s.loops[id].pc.ctl in Stop(s).sh.aborted
  {
    hide PhaseOf, DoneReports, PairsInOrder;
  }

  // ----- No further loop ----------------------------------------------------------------------

  lemma LoopStepKeepsStop(sh: Shared, l: Loop, r: LoopResume)
    requires LoopReady(l.pc, r)
    ensures LoopStep(sh, l, r).sh.stopRequested == sh.stopRequested
  {
    hide Budget, Truthy, ChatOutcome, Iterate, AfterRefresh, AfterHeartbeat;
  }

  lemma OthersDoNotWake(s: State, e: Event)
    requires s.sh.stopRequested && Enabled(s, e) && !Wakes(e)
    ensures var t := Step(s, e);
            t.sh.stopRequested && t.nextLoop == s.nextLoop && t.loops.Keys <= s.loops.Keys
  {
    hide LoopStep, PairMove, PairReady, HasToken;
    if e.OfLoop? { LoopStepKeepsStop(s.sh, s.loops[e.id], e.resume); }
  }

  /** With a stop asked for and no such resumption left, no loop is started again, whatever else happens. */
  lemma {:induction false} StopIsFinal(s: State, es: seq<Event>)
    requires s.sh.stopRequested && forall e :: e in es ==> !Wakes(e)
    ensures Run(s, es).sh.stopRequested && Run(s, es).nextLoop == s.nextLoop
    ensures Run(s, es).loops.Keys <= s.loops.Keys
    decreases |es|
  {
    if es != [] {
      assert es[0] in es;
      if Enabled(s, es[0]) { OthersDoNotWake(s, es[0]); }
      StopIsFinal(if Enabled(s, es[0]) then Step(s, es[0]) else s, es[1..]);
    }
  }

  // ----- At most one more job -----------------------------------------------------------------

  /** The loop is past its test and has not claimed yet: the one place from which a job may still come. */
  predicate PastItsTest(pc: Pc) {
    pc.ModelCheck? || pc.ModelSave? || pc.Heartbeat? || pc.Claiming?
  }

  /** How many jobs a stopped service may still claim. */
  ghost function Chance(s: State): nat {
    if s.loop.Some? && s.loop.value in s.loops && PastItsTest(s.loops[s.loop.value].pc) then 1 else 0
  }

  ghost function Asks(log: seq<Act>): nat {
    if log == [] then 0 else (if log[0].Asked? then 1 else 0) + Asks(log[1..])
  }

  lemma {:induction false} CountsAppend(log: seq<Act>, acts: seq<Act>)
    ensures |Claims(log + acts)| == |Claims(log)| + |Claims(acts)|
    ensures Asks(log + acts) == Asks(log) + Asks(acts)
    decreases |log|
  {
    if log == [] {
      assert log + acts == acts;
    } else {
      assert (log + acts)[1..] == log[1..] + acts;
      CountsAppend(log[1..], acts);
    }
  }

  lemma ShortCounts(acts: seq<Act>)
    requires |acts| <= 2
    ensures |Claims(acts)| == (if |acts| >= 1 && acts[0].Claimed? then 1 else 0) + (if |acts| == 2 && acts[1].Claimed? then 1 else 0)
    ensures Asks(acts) == (if |acts| >= 1 && acts[0].Asked? then 1 else 0) + (if |acts| == 2 && acts[1].Asked? then 1 else 0)
  {
    if |acts| == 1 { assert acts[1..] == []; }
    if |acts| == 2 { assert acts[1..] == [acts[1]] && [acts[1]][1..] == []; }
  }

  /** A step of a stopped loop that claims uses up its chance, and none gains one. */
  lemma LoopStepSpendsChance(sh: Shared, l: Loop, r: LoopResume)
    requires sh.stopRequested && LoopReady(l.pc, r)
    ensures var f := LoopStep(sh, l, r);
            && |Claims(f.acts)| + (if PastItsTest(f.loop.pc) then 1 else 0) <= (if PastItsTest(l.pc) then 1 else 0)
            && Asks(f.acts) <= |Claims(f.acts)|
  {
    hide Claims, Asks, Budget, ChatOutcome, Truthy;
    ShortCounts(LoopStep(sh, l, r).acts);
  }

  lemma StepSpendsChance(s: State, e: Event)
    requires Core(s) && s.sh.stopRequested && Enabled(s, e) && !Wakes(e)
    ensures var t := Step(s, e);
            && |Claims(t.log)| + Chance(t) <= |Claims(s.log)| + Chance(s)
            && Asks(t.log) - Asks(s.log) <= |Claims(t.log)| - |Claims(s.log)|
  {
    hide JobsInOrder, PairsInOrder, LoopStep, PairMove, Claims, Asks, HasToken;
    if e.OfLoop? {
      LoopStepSpendsChance(s.sh, s.loops[e.id], e.resume);
      CountsAppend(s.log, LoopStep(s.sh, s.loops[e.id], e.resume).acts);
    }
  }

  /**
   * After a stop at most one more job is claimed, and none unless the loop was past its test; the model is
   * asked no more often than that. So it goes on for every interleaving without a call that asks for a loop.
   */
  lemma {:induction false} AtMostOneMoreJob(s: State, es: seq<Event>)
    requires Core(s) && s.sh.stopRequested && forall e :: e in es ==> !Wakes(e)
    ensures var t := Run(s, es);
            && |Claims(t.log)| <= |Claims(s.log)| + Chance(s)
            && Asks(t.log) - Asks(s.log) <= |Claims(t.log)| - |Claims(s.log)|
    decreases |es|
  {
    hide Core, Step, Enabled, Claims, Asks, Chance;
    if es != [] {
      assert es[0] in es;
      if Enabled(s, es[0]) {
        StepSpendsChance(s, es[0]);
        StepKeepsCore(s, es[0]);
        OthersDoNotWake(s, es[0]);
      }
      AtMostOneMoreJob(if Enabled(s, es[0]) then Step(s, es[0]) else s, es[1..]);
    }
  }

  /** stop() itself: what was being served is cancelled, and then the same bound holds. */
  lemma StopLeavesOneJob(s: State, es: seq<Event>)
    requires Reachable(s) && forall e :: e in es ==> !Wakes(e)
    ensures var t := Run(Stop(s), es);
            && t.sh.stopRequested && t.nextLoop == s.nextLoop && Core(t)
            && |Claims(t.log)| <= |Claims(s.log)| + Chance(s)
            && Asks(t.log) - Asks(s.log) <= |Claims(t.log)| - |Claims(s.log)|
    ensures forall id :: id in s.loops && Serving(s.loops[id].pc) ==> s.loops[id].pc.ctl in Stop(s).sh.aborted
  {
    ReachableInv(s);
    StopKeepsCore(s);
    hide Core, Claims, Asks, Run;
    AtMostOneMoreJob(Stop(s), es);
    StopIsFinal(Stop(s), es);
    RunKeepsCore(Stop(s), es);
  }

  /** How many resumptions a loop past its test is from its claim at most. */
  function Stage(pc: Pc): nat {
    if pc.ModelCheck? || pc.ModelSave? then 2 else if pc.Heartbeat? then 1 else 0
  }

  /** The resumption that takes a loop past its test on to its claim, and then answers that with a job. */
  function Onward(pc: Pc, model: string, job: Job): LoopResume
    requires PastItsTest(pc)
  {
    match pc
    case ModelCheck(_) => ModelsAnswered(true, Some(model))
    case ModelSave(_) => ModelsSaved
    case Heartbeat(_, _) => HeartbeatAnswered(false)
    case _ => ClaimAnswered(Given(job))
  }

  lemma OnwardStep(s: State, id: nat, model: string, job: Job)
    requires id in s.loops && PastItsTest(s.loops[id].pc) && s.sh.reachable && s.sh.config.model == Some(model)
    requires model != "" && job.jobId != ""
    ensures var e := OfLoop(id, Onward(s.loops[id].pc, model, job));
            && Enabled(s, e)
            && var t := Step(s, e);
               if s.loops[id].pc.Claiming? then |Claims(t.log)| == |Claims(s.log)| + 1
               else && id in t.loops && PastItsTest(t.loops[id].pc) && Stage(t.loops[id].pc) < Stage(s.loops[id].pc)
                    && t.sh.reachable && t.sh.config.model == Some(model) && t.log == s.log
  {
    hide Claims, Asks, Budget;
    var f := LoopStep(s.sh, s.loops[id], Onward(s.loops[id].pc, model, job));
    CountsAppend(s.log, f.acts);
    if s.loops[id].pc.Claiming? {
      ShortCounts(f.acts);
    } else {
      assert s.log + [] == s.log;
    }
  }

  /** From there a job can be claimed, with no call that asks for a loop. */
  lemma {:induction false} ClaimsOneMore(s: State, id: nat, model: string, job: Job) returns (es: seq<Event>)
    requires id in s.loops && PastItsTest(s.loops[id].pc) && s.sh.reachable && s.sh.config.model == Some(model)
    requires model != "" && job.jobId != ""
    ensures (forall e :: e in es ==> !Wakes(e)) && |Claims(Run(s, es).log)| == |Claims(s.log)| + 1
    decreases Stage(s.loops[id].pc)
  {
    hide Step, Enabled, Claims;
    var e := OfLoop(id, Onward(s.loops[id].pc, model, job));
    OnwardStep(s, id, model, job);
    var rest: seq<Event> := [];
    if !s.loops[id].pc.Claiming? { rest := ClaimsOneMore(Step(s, e), id, model, job); }
    es := [e] + rest;
    RunFirst(s, e, rest);
  }

  /** A model at hand, and then a job. */
  lemma AJobCanCome(s: State, job: Job) returns (es: seq<Event>)
    requires Chance(s) == 1 && job.jobId != ""
    ensures (forall e :: e in es ==> !Wakes(e)) && |Claims(Run(s, es).log)| == |Claims(s.log)| + 1
  {
    var e := User(RefreshAnswered(true, Some("m")));
    hide Claims, Run;
    var rest := ClaimsOneMore(Step(s, e), s.loop.value, "m", job);
    es := [e] + rest;
    RunFirst(s, e, rest);
  }

  /**
   * A stopped service takes no more jobs, whatever happens but a call that asks for a loop, exactly when no
   * loop is past its test with its claim still to come.
   */
  lemma NoMoreJobsIff(s: State)
    requires Core(s) && s.sh.stopRequested
    ensures (forall es :: (forall e :: e in es ==> !Wakes(e)) ==> |Claims(Run(s, es).log)| <= |Claims(s.log)|) <==> Chance(s) == 0
  {
    hide Core, Claims, Asks, Run;
    if Chance(s) == 0 {
      forall es: seq<Event> | forall e :: e in es ==> !Wakes(e) ensures |Claims(Run(s, es).log)| <= |Claims(s.log)| {
        AtMostOneMoreJob(s, es);
      }
    } else {
      var es := AJobCanCome(s, Job("job", "", "", "", None));
      assert |Claims(Run(s, es).log)| > |Claims(s.log)|;
    }
  }

  // ----- Which jobs a stop cancels ------------------------------------------------------------

  /** Every controller heard of was handed out. */
  predicate Known(sh: Shared) {
    (forall c :: c in sh.aborted ==> c < sh.nextCtl) && (sh.current.Some? ==> sh.current.value < sh.nextCtl)
  }

  ghost predicate HandedOut(sh: Shared, pc: Pc) {
    Serving(pc) ==> pc.ctl < sh.nextCtl
  }

  ghost predicate ControllersKnown(s: State) {
    Known(s.sh) && forall id :: id in s.loops ==> HandedOut(s.sh, s.loops[id].pc)
  }

  /** A loop's controller stays the same while it serves, and a new one comes after all others. */
  lemma LoopStepControllers(sh: Shared, l: Loop, r: LoopResume)
    requires LoopReady(l.pc, r) && Known(sh) && HandedOut(sh, l.pc)
    ensures var f := LoopStep(sh, l, r);
            && Known(f.sh) && HandedOut(f.sh, f.loop.pc) && sh.nextCtl <= f.sh.nextCtl
            && (Serving(f.loop.pc) ==> (Serving(l.pc) && f.loop.pc.ctl == l.pc.ctl) || f.loop.pc.ctl >= sh.nextCtl)
  {
    hide Budget, Truthy, ChatOutcome, Belongs, HasToken;
  }

  /** Controllers stay known, and what is served in the second state was served in the first or came later. */
  ghost predicate Onwards(s: State, t: State) {
    && ControllersKnown(t) && s.sh.nextCtl <= t.sh.nextCtl
    && forall id :: id in t.loops && Serving(t.loops[id].pc) ==>
         || (id in s.loops && Serving(s.loops[id].pc) && t.loops[id].pc.ctl == s.loops[id].pc.ctl)
         || t.loops[id].pc.ctl >= s.sh.nextCtl
  }

  lemma NewRoundServesNothing(sh: Shared, l: Loop, now: int)
    ensures !Serving(Iterate(sh, l, now).pc)
  {
  }

  lemma EnsureLoopOnwards(s: State, now: int)
    requires ControllersKnown(s)
    ensures Onwards(s, EnsureLoop(s, now))
  {
    hide Iterate, HasToken;
    NewRoundServesNothing(s.sh.(stopRequested := false), Loop(Exited, 0, 0), now);
  }

  lemma CallOnwards(s: State, call: Call)
    requires ControllersKnown(s) && Enabled(s, User(call))
    ensures Onwards(s, CallStep(s, call))
  {
    hide EnsureLoop, HasToken, Truthy;
    if call.SetEnabledSaved? { EnsureLoopOnwards(s.(toggling := None), call.now); }
  }

  lemma PairOnwards(s: State, run: nat, r: PairResume)
    requires ControllersKnown(s) && Enabled(s, OfPair(run, r))
    ensures Onwards(s, PairStep(s, run, r))
  {
    var t := s.(pairing := PairMove(s.pairing, run, r), sh := s.sh.(config := Paired(s.sh.config, r)));
    hide EnsureLoop, PairMove, Paired, HasToken, Serving;
    if r.PairSaved? { EnsureLoopOnwards(t, r.now); }
  }

  lemma EndOnwards(s: State, id: nat, now: int)
    requires ControllersKnown(s) && Enabled(s, LoopEnded(id, now))
    ensures Onwards(s, LoopSettled(s, id, now))
  {
    hide EnsureLoop, HasToken, Serving;
    EnsureLoopOnwards(s.(running := false, loop := None, loops := s.loops - {id}), now);
  }

  lemma StepControllers(s: State, e: Event)
    requires ControllersKnown(s) && Enabled(s, e)
    ensures Onwards(s, Step(s, e))
  {
    match e
    case User(call) => CallOnwards(s, call);
    case OfPair(run, r) => PairOnwards(s, run, r);
    case LoopEnded(id, now) => EndOnwards(s, id, now);
    case OfLoop(id, r) =>
      hide LoopStep, Known;
      LoopStepControllers(s.sh, s.loops[id], r);
  }

  lemma {:induction false} RunControllers(s: State, es: seq<Event>)
    requires ControllersKnown(s)
    ensures ControllersKnown(Run(s, es))
    decreases |es|
  {
    hide ControllersKnown, Step, Enabled;
    if es != [] {
      if Enabled(s, es[0]) { StepControllers(s, es[0]); }
      RunControllers(if Enabled(s, es[0]) then Step(s, es[0]) else s, es[1..]);
    }
  }

  lemma ReachableControllers(s: State)
    requires Reachable(s)
    ensures ControllersKnown(s)
  {
    var saved, ok, reachable, pick, now, es :| s == Run(Started(saved, ok, reachable, pick, now), es);
    hide Run, ControllersKnown;
    StartedControllers(saved, ok, reachable, pick, now);
    RunControllers(Started(saved, ok, reachable, pick, now), es);
  }

  lemma StartedControllers(saved: Config, ok: bool, reachable: bool, pick: Option<string>, now: int)
    ensures ControllersKnown(Started(saved, ok, reachable, pick, now))
  {
    var sh := TakeModels(Shared(saved, false, false, 0, None, 0, {}), reachable, pick);
    hide EnsureLoop, Truthy, HasToken;
    EnsureLoopOnwards(State(sh, Pairing(false, 0, map[], []), ok, None, false, None, map[], 0, []), now);
  }

  /** What is served keeps to the controllers of a moment before, or has a later one. */
  ghost predicate Since(z: State, u: State) {
    && ControllersKnown(u) && z.sh.nextCtl <= u.sh.nextCtl
    && forall id :: id in u.loops && Serving(u.loops[id].pc) && u.loops[id].pc.ctl < z.sh.nextCtl ==>
         u.loops[id].pc.ctl in z.sh.aborted
  }

  lemma {:induction false} RunSince(z: State, u: State, es: seq<Event>)
    requires Since(z, u)
    ensures Since(z, Run(u, es))
    decreases |es|
  {
    hide ControllersKnown, Step, Enabled;
    if es != [] {
      if Enabled(u, es[0]) { StepControllers(u, es[0]); }
      RunSince(z, if Enabled(u, es[0]) then Step(u, es[0]) else u, es[1..]);
    }
  }

  /** The three ways to stop: stop() itself, an unpairing, and the end of switching off. */
  ghost predicate Stops(s: State, z: State) {
    || z == Stop(s)
    || z == Step(s, User(Unpair))
    || (s.toggling == Some(false) && exists now :: z == Step(s, User(SetEnabledSaved(now))))
  }

  /**
   * Whatever is served at any moment after a stop: the stop cancelled it exactly when its controller was
   * handed out before, that is when the model had been asked already.
   */
  lemma StopCancelsWhatWasAskedBefore(s: State, z: State, es: seq<Event>, id: nat)
    requires Reachable(s) && Stops(s, z) && id in Run(z, es).loops && Serving(Run(z, es).loops[id].pc)
    ensures var ctl := Run(z, es).loops[id].pc.ctl;
            ctl in z.sh.aborted <==> ctl < s.sh.nextCtl
  {
    ReachableInv(s);
    ReachableControllers(s);
    StopKeepsCore(s);
    assert z.loops == s.loops && z.sh.aborted == Stop(s).sh.aborted && z.sh.nextCtl == s.sh.nextCtl;
    hide Core, NoLostWake, Run, Step;
    assert Since(z, z);
    RunSince(z, z, es);
  }

  /** The bound is reached: switched off while its claim is under way, the service still asks the model, uncancelled. */
  lemma AnswersAfterSwitchingOff(model: string, job: Job)
    requires model != "" && job.jobId != "" && job.userId == "user"
    ensures var saved := Config(true, Some(model), Some("token"), None, None, Some("user"));
            var off := Run(Started(saved, true, true, None, 1_000), [User(SetEnabled(false)), User(SetEnabledSaved(2_000))]);
            var t := Run(off, [OfLoop(0, ClaimAnswered(Given(job)))]);
            && off.sh.stopRequested && !off.sh.config.enabled && off.log == []
            && |Claims(t.log)| == 1 && Asks(t.log) == 1
            && 0 in t.loops && t.loops[0].pc.Chatting? && t.loops[0].pc.ctl !in t.sh.aborted
  {
    var s := Started(Config(true, Some(model), Some("token"), None, None, Some("user")), true, true, None, 1_000);
    assert s.loops == map[0 := Loop(Claiming(Some("token")), 0, 0)];
    RunFirst(s, User(SetEnabled(false)), [User(SetEnabledSaved(2_000))]);
    RunFirst(Step(s, User(SetEnabled(false))), User(SetEnabledSaved(2_000)), []);
    var off := Step(Step(s, User(SetEnabled(false))), User(SetEnabledSaved(2_000)));
    RunFirst(off, OfLoop(0, ClaimAnswered(Given(job))), []);
    var t := Step(off, OfLoop(0, ClaimAnswered(Given(job))));
    assert t.log == [Claimed(job, Some("user"), None, Some("token")), Asked(job.jobId, Budget(job))];
    ShortCounts(t.log);
  }

  lemma RunFirst(s: State, e: Event, es: seq<Event>)
    requires Enabled(s, e)
    ensures Run(s, [e] + es) == Run(Step(s, e), es)
  {
    assert ([e] + es)[1..] == es;
  }
}
