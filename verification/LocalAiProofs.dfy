/** What every run of the Local AI service keeps. */
module LocalAiProofs {
  import opened Wrappers
  import opened LocalAiSpec

  // ----- One loop, never a lost wake-up -------------------------------------------------------

  /** `loop` names the one runLoop that is alive, and `running` says whether there is one. */
  ghost predicate OneLoop(s: State) {
    && (forall k :: k in s.loops <==> s.loop == Some(k))
    && s.running == s.loop.Some?
  }

  /** A pairing has been approved and its save has not finished. */
  ghost predicate PairSaving(p: Pairing) {
    exists r :: r in p.calls && p.calls[r].Saving?
  }

  /** No call is between changing the settings and telling the loop about it. */
  ghost predicate Settled(s: State) {
    s.toggling.None? && !PairSaving(s.pairing)
  }

  ghost predicate NoLostWake(s: State) {
    && (s.toggling == Some(false) ==> !s.sh.config.enabled)
    && (Wanted(s.sh.config) ==>
          s.toggling == Some(true) || PairSaving(s.pairing) || (!s.sh.stopRequested && s.loop.Some?))
  }

  lemma StepKeepsOneLoop(s: State, e: Event)
    requires OneLoop(s) && Enabled(s, e)
    ensures OneLoop(Step(s, e))
  {
  }

  lemma CallKeepsNoLostWake(s: State, call: Call)
    requires NoLostWake(s) && Enabled(s, User(call))
    requires forall r :: r in s.pairing.calls ==> r <= s.pairing.run
    ensures NoLostWake(CallStep(s, call))
  {
    var t := CallStep(s, call);
    if PairSaving(s.pairing) {
      var r :| r in s.pairing.calls && s.pairing.calls[r].Saving?;
      assert r in t.pairing.calls && t.pairing.calls[r].Saving?;
    }
  }

  lemma PairKeepsNoLostWake(s: State, run: nat, r: PairResume)
    requires NoLostWake(s) && Enabled(s, OfPair(run, r))
    ensures NoLostWake(PairStep(s, run, r))
  {
    var t := PairStep(s, run, r);
    if run in t.pairing.calls && t.pairing.calls[run].Saving? {
      assert PairSaving(t.pairing);
    } else if !r.PairSaved? && PairSaving(s.pairing) {
      var k :| k in s.pairing.calls && s.pairing.calls[k].Saving?;
      assert k in t.pairing.calls && t.pairing.calls[k].Saving?;
    }
  }

  lemma LoopKeepsNoLostWake(s: State, id: nat, r: LoopResume)
    requires NoLostWake(s) && Enabled(s, OfLoop(id, r))
    ensures NoLostWake(Step(s, OfLoop(id, r)))
  {
  }

  lemma LoopEndKeepsNoLostWake(s: State, id: nat, now: int)
    requires NoLostWake(s) && Enabled(s, LoopEnded(id, now))
    ensures NoLostWake(Step(s, LoopEnded(id, now)))
  {
  }

  // ----- One report per claimed job -----------------------------------------------------------

  /** The order in which one job may be handled, read off the log alone. */
  datatype Phase = Free | Held(job: Job, own: bool) | Asking(job: Job) | Watched(job: Job) | Broken

  ghost function After(p: Phase, a: Act): Phase {
    match a
    case Claimed(job, userId, orgId, _) => if p.Free? then Held(job, Belongs(job, userId, orgId)) else Broken
    case Asked(jobId, budget) =>
      if p.Held? && p.own && jobId == p.job.jobId && MIN_JOB_MS <= budget <= MAX_JOB_MS then Asking(p.job) else Broken
    case LeaseChecked(jobId, leaseToken, _) =>
      if p.Asking? && jobId == p.job.jobId && leaseToken == p.job.leaseToken then p else Broken
    case WatchEnded(jobId) => if p.Asking? && jobId == p.job.jobId then Watched(p.job) else Broken
    case Reported(jobId, leaseToken, done, _) =>
      if (p.Watched? || (p.Held? && !p.own && !done)) && jobId == p.job.jobId && leaseToken == p.job.leaseToken
      then Free else Broken
  }

  ghost function PhaseOf(from: Phase, log: seq<Act>): Phase
    decreases |log|
  {
    if log == [] then from else PhaseOf(After(from, log[0]), log[1..])
  }

  ghost function DoneReports(log: seq<Act>): nat {
    if log == [] then 0 else (if log[0].Reported? && log[0].done then 1 else 0) + DoneReports(log[1..])
  }

  /** Job and lease of every claim, and of every report, in order. */
  ghost function Claims(log: seq<Act>): seq<(string, string)> {
    if log == [] then []
    else (if log[0].Claimed? then [(log[0].job.jobId, log[0].job.leaseToken)] else []) + Claims(log[1..])
  }

  ghost function Reports(log: seq<Act>): seq<(string, string)> {
    if log == [] then []
    else (if log[0].Reported? then [(log[0].jobId, log[0].leaseToken)] else []) + Reports(log[1..])
  }

  lemma {:induction false} LogAppend(from: Phase, log: seq<Act>, acts: seq<Act>)
    ensures PhaseOf(from, log + acts) == PhaseOf(PhaseOf(from, log), acts)
    ensures DoneReports(log + acts) == DoneReports(log) + DoneReports(acts)
    decreases |log|
  {
    if log == [] {
      assert log + acts == acts;
    } else {
      assert (log + acts)[1..] == log[1..] + acts;
      LogAppend(After(from, log[0]), log[1..], acts);
    }
  }

  /** The job a phase has in hand. */
  ghost function InHand(p: Phase): seq<(string, string)> {
    if p.Free? || p.Broken? then [] else [(p.job.jobId, p.job.leaseToken)]
  }

  lemma {:induction false} BrokenStays(log: seq<Act>)
    ensures PhaseOf(Broken, log) == Broken
  {
    if log != [] { BrokenStays(log[1..]); }
  }

  /** A log in order: the reports answer the claims one for one, but for the job in hand. */
  lemma {:induction false} InOrderReports(from: Phase, log: seq<Act>)
    requires !PhaseOf(from, log).Broken?
    ensures InHand(from) + Claims(log) == Reports(log) + InHand(PhaseOf(from, log))
    decreases |log|
  {
    if log != [] {
      var a, last := log[0], InHand(PhaseOf(from, log));
      var next := After(from, a);
      if next.Broken? { BrokenStays(log[1..]); }
      InOrderReports(next, log[1..]);
      var claims, reports := Claims(log[1..]), Reports(log[1..]);
      if a.Reported? {
        assert Claims(log) == [] + claims == claims;
        OneInFront((a.jobId, a.leaseToken), claims, reports, last);
      } else if a.Claimed? {
        assert Claims(log) == InHand(next) + claims && InHand(from) == [];
        assert InHand(from) + Claims(log) == Claims(log);
        assert Reports(log) == [] + reports == reports;
      } else {
        assert Claims(log) == [] + claims == claims;
        assert Reports(log) == [] + reports == reports;
        assert InHand(from) == InHand(next);
      }
    }
  }

  lemma OneInFront<T>(x: T, claims: seq<T>, reports: seq<T>, last: seq<T>)
    requires [] + claims == reports + last
    ensures [x] + claims == ([x] + reports) + last
  {
    assert claims == [] + claims;
    assert [x] + (reports + last) == ([x] + reports) + last;
  }

  /**
   * What must come right before an ask and a report: the chat is asked straight after the claim of the
   * paired person's own job, within the budget; a report follows the end of that job's lease watch, or
   * straight the claim of somebody else's job, which is refused.
   */
  ghost predicate RightAfter(before: Act, a: Act) {
    && (a.Asked? ==>
          && before.Claimed? && before.job.jobId == a.jobId && Belongs(before.job, before.userId, before.orgId)
          && MIN_JOB_MS <= a.budget <= MAX_JOB_MS)
    && (a.Reported? ==>
          || (before.WatchEnded? && before.jobId == a.jobId)
          || (before.Claimed? && before.job.jobId == a.jobId && before.job.leaseToken == a.leaseToken && !a.done
              && !Belongs(before.job, before.userId, before.orgId)))
  }

  lemma {:induction false} InOrderNeighbours(from: Phase, log: seq<Act>)
    requires !PhaseOf(from, log).Broken?
    ensures forall i :: 0 < i < |log| ==> RightAfter(log[i - 1], log[i])
    decreases |log|
  {
    if |log| > 1 {
      var next := After(from, log[0]);
      if next.Broken? { BrokenStays(log[1..]); }
      InOrderNeighbours(next, log[1..]);
      if After(next, log[1]).Broken? {
        BrokenStays(log[1..][1..]);
      }
      forall i | 0 < i < |log| ensures RightAfter(log[i - 1], log[i]) {
        if i > 1 {
          assert RightAfter(log[1..][i - 2], log[1..][i - 1]);
        }
      }
    }
  }

  /** How far the job in hand is, by where the loop is suspended. */
  ghost function PhaseAt(pc: Pc): Phase {
    match pc
    case Chatting(job, _, w) => if w.Ended? then Watched(job) else Asking(job)
    case Draining(job, _, w, _) => if w.Ended? then Watched(job) else Asking(job)
    case _ => Free
  }

  /** A report already logged whose answer has not come back yet. */
  ghost function Owed(pc: Pc): nat {
    if pc.Reporting? && pc.outcome.Answered? then 1 else 0
  }

  ghost predicate Serving(pc: Pc) {
    pc.Chatting? || pc.Draining?
  }

  /**
   * The log so far, at phase `p` with `done` answers reported, agrees with the loop; `current` is the served
   * job's controller.
   */
  ghost predicate Agrees(sh: Shared, pc: Pc, p: Phase, done: nat) {
    && p == PhaseAt(pc)
    && sh.jobsServed + Owed(pc) == done
    && sh.current == (if Serving(pc) then Some(pc.ctl) else None)
    && (Serving(pc) && (pc.Draining? || pc.watcher.Ended?) ==> pc.ctl in sh.aborted)
  }

  ghost predicate JobsAt(s: State, p: Phase, done: nat) {
    && (s.loop.Some? ==> s.loop.value in s.loops)
    && Agrees(s.sh, if s.loop.Some? then s.loops[s.loop.value].pc else Exited, p, done)
  }

  ghost predicate JobsInOrder(s: State) {
    JobsAt(s, PhaseOf(Free, s.log), DoneReports(s.log))
  }

  lemma ServeAgrees(sh: Shared, l: Loop, job: Job, done: nat)
    requires l.pc.Claiming? && Agrees(sh, l.pc, Free, done)
    ensures var f := Serve(sh, l, job);
            Agrees(f.sh, f.loop.pc, PhaseOf(Free, f.acts), done + DoneReports(f.acts))
  {
    var claim := Claimed(job, sh.config.userId, sh.config.orgId, l.pc.sent);
    var next := if Belongs(job, sh.config.userId, sh.config.orgId) then Asked(job.jobId, Budget(job))
                else Reported(job.jobId, job.leaseToken, false, sh.config.deviceToken);
    assert Serve(sh, l, job).acts == [claim, next] && [claim, next][1..] == [next];
    var held := After(Free, claim);
    assert PhaseOf(Free, [claim, next]) == PhaseOf(held, [next]) == After(held, next);
    assert DoneReports([claim, next]) == DoneReports([next]) == 0;
  }

  lemma LoopStepAgrees(sh: Shared, l: Loop, r: LoopResume, p: Phase, done: nat)
    requires LoopReady(l.pc, r) && Agrees(sh, l.pc, p, done)
    ensures var f := LoopStep(sh, l, r);
            Agrees(f.sh, f.loop.pc, PhaseOf(p, f.acts), done + DoneReports(f.acts))
  {
    if r.ClaimAnswered? && r.claim.Given? && r.claim.job.jobId != "" {
      ServeAgrees(sh, l, r.claim.job, done);
    }
  }

  lemma EnsureLoopKeepsJobs(s: State, now: int, p: Phase, done: nat)
    requires JobsAt(s, p, done)
    ensures JobsAt(EnsureLoop(s, now), p, done) && EnsureLoop(s, now).log == s.log
  {
  }

  lemma CallKeepsJobs(s: State, call: Call, p: Phase, done: nat)
    requires JobsAt(s, p, done) && Enabled(s, User(call))
    ensures JobsAt(CallStep(s, call), p, done) && CallStep(s, call).log == s.log
  {
    if call.SetEnabledSaved? {
      EnsureLoopKeepsJobs(s.(toggling := None), call.now, p, done);
    } else {
      var t := CallStep(s, call);
      assert t.loop == s.loop && t.loops == s.loops;
    }
  }

  lemma PairKeepsJobs(s: State, run: nat, r: PairResume, p: Phase, done: nat)
    requires JobsAt(s, p, done) && Enabled(s, OfPair(run, r))
    ensures JobsAt(PairStep(s, run, r), p, done) && PairStep(s, run, r).log == s.log
  {
    var t := s.(pairing := PairMove(s.pairing, run, r), sh := s.sh.(config := Paired(s.sh.config, r)));
    assert JobsAt(t, p, done);
    if r.PairSaved? { EnsureLoopKeepsJobs(t, r.now, p, done); }
  }

  lemma LoopEndKeepsJobs(s: State, id: nat, now: int, p: Phase, done: nat)
    requires OneLoop(s) && JobsAt(s, p, done) && Enabled(s, LoopEnded(id, now))
    ensures JobsAt(LoopSettled(s, id, now), p, done) && LoopSettled(s, id, now).log == s.log
  {
    EnsureLoopKeepsJobs(s.(running := false, loop := None, loops := s.loops - {id}), now, p, done);
  }

  lemma StepKeepsJobsInOrder(s: State, e: Event)
    requires OneLoop(s) && JobsInOrder(s) && Enabled(s, e)
    ensures JobsInOrder(Step(s, e))
  {
    var p, done := PhaseOf(Free, s.log), DoneReports(s.log);
    match e
    case User(call) => CallKeepsJobs(s, call, p, done);
    case OfPair(run, r) => PairKeepsJobs(s, run, r, p, done);
    case LoopEnded(id, now) => LoopEndKeepsJobs(s, id, now, p, done);
    case OfLoop(id, r) =>
      LoopStepAgrees(s.sh, s.loops[id], r, p, done);
      LogAppend(Free, s.log, LoopStep(s.sh, s.loops[id], r).acts);
  }

  // ----- Only the newest pairing polls --------------------------------------------------------

  ghost function Newest(from: nat, log: seq<PairAct>): nat
    decreases |log|
  {
    if log == [] then from else Newest(if log[0].NewRun? then log[0].run else from, log[1..])
  }

  /** Every poll was sent by the newest run of its time: none follows a later pair() or a cancel. */
  ghost predicate PollsNewest(from: nat, log: seq<PairAct>)
    decreases |log|
  {
    log == [] ||
    (if log[0].NewRun? then PollsNewest(log[0].run, log[1..]) else log[0].run == from && PollsNewest(from, log[1..]))
  }

  ghost predicate PairsInOrder(p: Pairing) {
    && p.run == Newest(0, p.log)
    && PollsNewest(0, p.log)
    && (forall r :: r in p.calls ==> r <= p.run)
  }

  lemma {:induction false} PairLogAppend(from: nat, log: seq<PairAct>, a: PairAct)
    requires PollsNewest(from, log) && (a.Polled? ==> a.run == Newest(from, log))
    ensures PollsNewest(from, log + [a])
    ensures Newest(from, log + [a]) == if a.NewRun? then a.run else Newest(from, log)
    decreases |log|
  {
    if log != [] {
      assert (log + [a])[1..] == log[1..] + [a];
      PairLogAppend(if log[0].NewRun? then log[0].run else from, log[1..], a);
    } else {
      assert [a][1..] == [];
    }
  }

  lemma PairMoveInOrder(p: Pairing, run: nat, r: PairResume)
    requires PairsInOrder(p) && run in p.calls && PairReady(p.calls[run], r)
    ensures PairsInOrder(PairMove(p, run, r))
  {
    if r.PairWoke? && run == p.run {
      PairLogAppend(0, p.log, Polled(run));
    } else {
      var q := PairMove(p, run, r);
      assert q.log == p.log && q.run == p.run;
    }
  }

  lemma StepKeepsPairsInOrder(s: State, e: Event)
    requires PairsInOrder(s.pairing) && Enabled(s, e)
    ensures PairsInOrder(Step(s, e).pairing)
  {
    if e.OfPair? {
      PairMoveInOrder(s.pairing, e.run, e.pair);
    } else if e.User? && (e.call.Pair? || e.call.CancelPairing?) {
      PairLogAppend(0, s.pairing.log, NewRun(s.pairing.run + 1));
    } else {
      assert Step(s, e).pairing == s.pairing;
    }
  }

  // ----- Every run ----------------------------------------------------------------------------

  /** What holds whether or not stop() was called. */
  ghost predicate Core(s: State) {
    OneLoop(s) && JobsInOrder(s) && PairsInOrder(s.pairing)
  }

  ghost predicate Inv(s: State) {
    Core(s) && NoLostWake(s)
  }

  lemma StepKeepsCore(s: State, e: Event)
    requires Core(s) && Enabled(s, e)
    ensures Core(Step(s, e))
  {
    hide OneLoop, JobsInOrder, PairsInOrder, Step;
    StepKeepsOneLoop(s, e);
    StepKeepsJobsInOrder(s, e);
    StepKeepsPairsInOrder(s, e);
  }

  lemma StepKeepsInv(s: State, e: Event)
    requires Inv(s) && Enabled(s, e)
    ensures Inv(Step(s, e))
  {
    StepKeepsCore(s, e);
    match e
    case User(call) => CallKeepsNoLostWake(s, call);
    case OfPair(run, r) => PairKeepsNoLostWake(s, run, r);
    case OfLoop(id, r) => LoopKeepsNoLostWake(s, id, r);
    case LoopEnded(id, now) => LoopEndKeepsNoLostWake(s, id, now);
  }

  lemma {:induction false} RunKeepsCore(s: State, es: seq<Event>)
    requires Core(s)
    ensures Core(Run(s, es))
    decreases |es|
  {
    hide Core, Step, Enabled;
    if es != [] {
      if Enabled(s, es[0]) { StepKeepsCore(s, es[0]); }
      RunKeepsCore(if Enabled(s, es[0]) then Step(s, es[0]) else s, es[1..]);
    }
  }

  lemma {:induction false} RunKeepsInv(s: State, es: seq<Event>)
    requires Inv(s)
    ensures Inv(Run(s, es))
    decreases |es|
  {
    if es != [] {
      if Enabled(s, es[0]) {
        StepKeepsInv(s, es[0]);
        RunKeepsInv(Step(s, es[0]), es[1..]);
      } else {
        RunKeepsInv(s, es[1..]);
      }
    }
  }

  lemma StartedInv(saved: Config, ok: bool, reachable: bool, pick: Option<string>, now: int)
    ensures Inv(Started(saved, ok, reachable, pick, now))
  {
  }

  /** A state some interleaving reaches after start(). */
  ghost predicate Reachable(s: State) {
    exists saved, ok, reachable, pick, now, es {:trigger Run(Started(saved, ok, reachable, pick, now), es)} ::
      s == Run(Started(saved, ok, reachable, pick, now), es)
  }

  lemma ReachableInv(s: State)
    requires Reachable(s)
    ensures Inv(s)
  {
    var saved, ok, reachable, pick, now, es :| s == Run(Started(saved, ok, reachable, pick, now), es);
    StartedInv(saved, ok, reachable, pick, now);
    RunKeepsInv(Started(saved, ok, reachable, pick, now), es);
  }

  /** Two loops are never alive together; once the calls have settled, answering that is wanted has its loop. */
  lemma OneLoopNeverLost(s: State)
    requires Reachable(s)
    ensures forall a, b :: a in s.loops && b in s.loops ==> a == b
    ensures s.running <==> s.loops != map[]
    ensures Settled(s) && Wanted(s.sh.config) ==> !s.sh.stopRequested && exists id :: id in s.loops
  {
    ReachableInv(s);
    if s.loop.Some? {
      assert s.loop.value in s.loops;
    }
  }

  /** A loop that has already left when answering is wanted again is replaced by a live one when it settles. */
  lemma LeavingLoopIsReplaced(s: State, id: nat, now: int)
    requires Reachable(s) && Settled(s) && Wanted(s.sh.config)
    requires Enabled(s, LoopEnded(id, now))
    ensures var t := Step(s, LoopEnded(id, now));
            t.loop == Some(s.nextLoop) && s.nextLoop in t.loops && !t.loops[s.nextLoop].pc.Exited?
  {
    ReachableInv(s);
  }

  /**
   * Every claimed job is reported once, with its own id and lease, before the next claim; the log never
   * leaves the order of `After`; and the counter is the number of answers, but for one report under way.
   */
  lemma OneReportPerJob(s: State)
    requires Reachable(s)
    ensures !PhaseOf(Free, s.log).Broken?
    ensures Reports(s.log) == Claims(s.log) || exists job :: Claims(s.log) == Reports(s.log) + [job]
    ensures s.sh.current.None? ==> Reports(s.log) == Claims(s.log)
    ensures s.sh.jobsServed <= DoneReports(s.log) <= s.sh.jobsServed + 1
    ensures s.loop.None? ==> s.sh.jobsServed == DoneReports(s.log)
    ensures forall i :: 0 < i < |s.log| ==> RightAfter(s.log[i - 1], s.log[i])
  {
    ReachableInv(s);
    JobsAddUp(s);
  }

  lemma JobsAddUp(s: State)
    requires Core(s)
    ensures !PhaseOf(Free, s.log).Broken?
    ensures Reports(s.log) == Claims(s.log) || exists job :: Claims(s.log) == Reports(s.log) + [job]
    ensures s.sh.current.None? ==> Reports(s.log) == Claims(s.log)
    ensures s.sh.jobsServed <= DoneReports(s.log) <= s.sh.jobsServed + 1
    ensures (forall id :: id in s.loops ==> !s.loops[id].pc.Reporting?) ==> s.sh.jobsServed == DoneReports(s.log)
    ensures forall i :: 0 < i < |s.log| ==> RightAfter(s.log[i - 1], s.log[i])
  {
    InOrderReports(Free, s.log);
    InOrderNeighbours(Free, s.log);
    var p := PhaseOf(Free, s.log);
    assert Claims(s.log) == Reports(s.log) + InHand(p);
    if p.Free? {
      assert Reports(s.log) + [] == Reports(s.log);
    } else {
      assert Claims(s.log) == Reports(s.log) + [(p.job.jobId, p.job.leaseToken)];
    }
  }

  /** Switching off or unpairing cancels the job being served, whoever is serving it. */
  lemma StopReachesTheJob(s: State, id: nat)
    requires Reachable(s) && id in s.loops && Serving(s.loops[id].pc)
    ensures s.loops[id].pc.ctl in Step(s, User(Unpair)).sh.aborted
    ensures s.toggling == Some(false) ==> s.loops[id].pc.ctl in Step(s, User(SetEnabledSaved(0))).sh.aborted
  {
    ReachableInv(s);
  }

  lemma OnlyTheNewestPairingPolls(s: State)
    requires Reachable(s)
    ensures PollsNewest(0, s.pairing.log)
  {
    ReachableInv(s);
  }
}
