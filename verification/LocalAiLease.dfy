/** When a job is cancelled, when its lease watch ends and what its report says: exactly, over every run. */
module LocalAiLease {
  import opened Wrappers
  import opened LocalAiSpec
  import opened LocalAiProofs
  import opened LocalAiStop

  // ----- Runs with stop() ---------------------------------------------------------------------

  /** A step of the machine, or stop() at any moment. */
  datatype Move = Happens(event: Event) | StopCalled

  function Moved(s: State, m: Move): State {
    match m
    case StopCalled => Stop(s)
    case Happens(e) => if Enabled(s, e) then Step(s, e) else s
  }

  function Play(s: State, ms: seq<Move>): State
    decreases |ms|
  {
    if ms == [] then s else Play(Moved(s, ms[0]), ms[1..])
  }

  lemma MovedKeepsCore(s: State, m: Move)
    requires Core(s)
    ensures Core(Moved(s, m))
  {
    hide Core, Step, Enabled;
    StopKeepsCore(s);
    if m.Happens? && Enabled(s, m.event) { StepKeepsCore(s, m.event); }
  }

  lemma {:induction false} PlayKeepsCore(s: State, ms: seq<Move>)
    requires Core(s)
    ensures Core(Play(s, ms))
    decreases |ms|
  {
    hide Core, Moved;
    if ms != [] {
      MovedKeepsCore(s, ms[0]);
      PlayKeepsCore(Moved(s, ms[0]), ms[1..]);
    }
  }

  lemma {:induction false} PlayLast(s: State, ms: seq<Move>, m: Move)
    ensures Play(s, ms + [m]) == Moved(Play(s, ms), m)
    decreases |ms|
  {
    hide Moved;
    if ms == [] {
      assert [] + [m] == [m] && [m][1..] == [];
    } else {
      assert (ms + [m])[1..] == ms[1..] + [m];
      PlayLast(Moved(s, ms[0]), ms[1..], m);
    }
  }

  // ----- When a controller fires --------------------------------------------------------------

  /** The loop serves the job of this controller. */
  ghost predicate Served(s: State, c: nat) {
    exists id :: id in s.loops && Serving(s.loops[id].pc) && s.loops[id].pc.ctl == c
  }

  /** The resumption is one that the loop waits for while it serves the job of this controller. */
  ghost predicate OfJob(s: State, id: nat, r: LoopResume, c: nat) {
    Enabled(s, OfLoop(id, r)) && Serving(s.loops[id].pc) && s.loops[id].pc.ctl == c
  }

  /**
   * What cancels a job: stop(), an unpairing or the end of switching off while it is served, its chat
   * coming back, or a lease check that finds it inactive.
   */
  ghost predicate Cancels(s: State, m: Move, c: nat) {
    match m
    case StopCalled => Served(s, c)
    case Happens(User(Unpair)) => Served(s, c)
    case Happens(User(SetEnabledSaved(_))) => s.toggling == Some(false) && Served(s, c)
    case Happens(OfLoop(id, ChatAnswered(reply))) => OfJob(s, id, ChatAnswered(reply), c)
    case Happens(OfLoop(id, WatchAnswered(active))) => !active && OfJob(s, id, WatchAnswered(active), c)
    case Happens(_) => false
  }

  lemma CurrentIsServed(s: State)
    requires Core(s)
    ensures forall c: nat :: s.sh.current == Some(c) <==> Served(s, c)
  {
    hide PhaseOf, DoneReports, PairsInOrder;
    if s.loop.Some? && Serving(s.loops[s.loop.value].pc) { assert Served(s, s.loops[s.loop.value].pc.ctl); }
  }

  lemma LoopStepCancels(s: State, id: nat, r: LoopResume, c: nat)
    requires Enabled(s, OfLoop(id, r))
    ensures c in LoopStep(s.sh, s.loops[id], r).sh.aborted <==> c in s.sh.aborted || Cancels(s, Happens(OfLoop(id, r)), c)
  {
    hide Budget, Truthy, ChatOutcome, Belongs, HasToken, Iterate, AfterRefresh, AfterHeartbeat;
  }

  lemma PairStepCancelsNothing(s: State, run: nat, r: PairResume)
    requires Enabled(s, OfPair(run, r))
    ensures PairStep(s, run, r).sh.aborted == s.sh.aborted
  {
    hide PairMove, Paired, HasToken, Iterate;
  }

  lemma CallCancels(s: State, call: Call, c: nat)
    requires Core(s) && Enabled(s, User(call))
    ensures c in CallStep(s, call).sh.aborted <==> c in s.sh.aborted || Cancels(s, Happens(User(call)), c)
  {
    CurrentIsServed(s);
    hide Core, Served, HasToken, Iterate, Truthy;
  }

  lemma MoveCancels(s: State, m: Move, c: nat)
    requires Core(s)
    ensures c in Moved(s, m).sh.aborted <==>
              c in s.sh.aborted || ((m.Happens? ==> Enabled(s, m.event)) && Cancels(s, m, c))
  {
    CurrentIsServed(s);
    hide Core, Served, OfJob, LoopStep, PairStep, CallStep, PairReady, LoopReady, HasToken, Iterate;
    match m
    case Happens(User(call)) => if Enabled(s, m.event) { CallCancels(s, call, c); }
    case Happens(OfLoop(id, r)) => if Enabled(s, m.event) { LoopStepCancels(s, id, r, c); }
    case Happens(OfPair(run, r)) => if Enabled(s, m.event) { PairStepCancelsNothing(s, run, r); }
    case _ =>
  }

  /** The i-th move of a run takes place and cancels the job. */
  ghost predicate CancelsAt(s: State, ms: seq<Move>, i: nat, c: nat)
    requires i < |ms|
  {
    var before := Play(s, ms[..i]);
    (ms[i].Happens? ==> Enabled(before, ms[i].event)) && Cancels(before, ms[i], c)
  }

  lemma {:induction false} FiredIff(s: State, ms: seq<Move>, c: nat)
    requires Core(s)
    ensures c in Play(s, ms).sh.aborted <==> c in s.sh.aborted || exists i :: 0 <= i < |ms| && CancelsAt(s, ms, i, c)
    decreases |ms|
  {
    hide Core, Moved, Cancels, Enabled;
    if ms != [] {
      var n := |ms| - 1;
      var most, last := ms[..n], ms[n];
      assert ms == most + [last];
      PlayLast(s, most, last);
      FiredIff(s, most, c);
      PlayKeepsCore(s, most);
      MoveCancels(Play(s, most), last, c);
      forall i | 0 <= i < n ensures CancelsAt(s, most, i, c) <==> CancelsAt(s, ms, i, c) {
        assert most[..i] == ms[..i];
      }
      assert CancelsAt(s, ms, n, c) <==>
          (last.Happens? ==> Enabled(Play(s, most), last.event)) && Cancels(Play(s, most), last, c);
    }
  }

  /**
   * From any state some interleaving reaches, whatever follows, stop() at any moment included: a job whose
   * controller is handed out on the way is cancelled exactly when, while it was served, one of the five
   * things happened that `Cancels` names.
   */
  lemma CancelledIff(s: State, ms: seq<Move>, c: nat)
    requires Reachable(s) && c >= s.sh.nextCtl
    ensures c in Play(s, ms).sh.aborted <==> exists i :: 0 <= i < |ms| && CancelsAt(s, ms, i, c)
  {
    ReachableInv(s);
    ReachableControllers(s);
    hide Core, NoLostWake, Play, CancelsAt;
    FiredIff(s, ms, c);
  }

  // ----- The lease watch ----------------------------------------------------------------------

  /** A lease found active changes nothing but that the watch sleeps again. */
  lemma ActiveLeaseGoesOn(s: State, id: nat)
    requires Enabled(s, OfLoop(id, WatchAnswered(true))) && s.loops[id].pc.ctl !in s.sh.aborted
    ensures var t := Step(s, OfLoop(id, WatchAnswered(true)));
            && t.sh == s.sh && t.log == s.log
            && t.loops == s.loops[id := s.loops[id].(pc := s.loops[id].pc.(watcher := Sleeping))]
  {
    assert s.log + [] == s.log;
  }

  /** The watch ends exactly when it looks and finds the job cancelled; else it checks the lease, or sleeps again. */
  lemma WatchEndsIff(s: State, id: nat, r: LoopResume)
    requires Enabled(s, OfLoop(id, r)) && (r.WatchWoke? || r.WatchAnswered?)
    ensures var t, pc := Step(s, OfLoop(id, r)), s.loops[id].pc;
            && id in t.loops && Serving(t.loops[id].pc) && t.loops[id].pc == pc.(watcher := t.loops[id].pc.watcher)
            && (t.loops[id].pc.watcher.Ended? <==> pc.ctl in t.sh.aborted)
            && (pc.ctl in t.sh.aborted <==> pc.ctl in s.sh.aborted || (r.WatchAnswered? && !r.active))
            && (pc.ctl in t.sh.aborted ==> t.log == s.log + [WatchEnded(pc.job.jobId)])
            && (pc.ctl !in t.sh.aborted && r.WatchWoke? ==>
                  && t.loops[id].pc.watcher.Checking?
                  && t.log == s.log + [LeaseChecked(pc.job.jobId, pc.job.leaseToken, s.sh.config.deviceToken)])
            && (pc.ctl !in t.sh.aborted && r.WatchAnswered? ==> t.loops[id].pc.watcher.Sleeping? && t.log == s.log)
  {
    assert s.log + [] == s.log;
  }

  // ----- The claim and the report -------------------------------------------------------------

  /** Milliseconds allowed for a job: its own figure brought into range, the longest when it names none or 0. */
  ghost predicate BudgetFor(job: Job, ms: int) {
    && 30_000 <= ms <= 300_000
    && (job.timeoutMs.None? || job.timeoutMs == Some(0) ==> ms == 300_000)
    && (forall own :: job.timeoutMs == Some(own) && own != 0 ==>
          && (own < 30_000 ==> ms == 30_000) && (300_000 < own ==> ms == 300_000)
          && (30_000 <= own <= 300_000 ==> ms == own))
  }

  /**
   * A claim answered with a job: the paired person's own, in the paired team when one is set, is asked of
   * the model under a controller not handed out before; any other is reported as failed at once. An answer
   * with no job, or one without an id, leaves nothing but a sleep.
   */
  lemma ClaimComesToIff(s: State, id: nat, claim: ClaimAnswer)
    requires Enabled(s, OfLoop(id, ClaimAnswered(claim)))
    ensures var t, c, pc := Step(s, OfLoop(id, ClaimAnswered(claim))), s.sh.config, s.loops[id].pc;
            id in t.loops &&
            match claim
            case Given(job) =>
              var own := c.userId == Some(job.userId) && (c.orgId.None? || c.orgId == Some("") || c.orgId == Some(job.orgId));
              var claimed := Claimed(job, c.userId, c.orgId, pc.sent);
              if job.jobId == "" then t.loops[id].pc == Idle && t.sh == s.sh && t.log == s.log
              else if own then
                && t.loops[id].pc == Chatting(job, s.sh.nextCtl, Sleeping)
                && t.sh == s.sh.(current := Some(s.sh.nextCtl), nextCtl := s.sh.nextCtl + 1)
                && exists ms :: BudgetFor(job, ms) && t.log == s.log + [claimed, Asked(job.jobId, ms)]
              else
                && t.loops[id].pc == Reporting(job, Failed(CliError)) && t.sh == s.sh
                && t.log == s.log + [claimed, Reported(job.jobId, job.leaseToken, false, c.deviceToken)]
            case Unauthorized => t.loops[id].pc == ClaimRevoking && t.log == s.log
            case Nothing => t.loops[id].pc == Idle && t.sh == s.sh && t.log == s.log
  {
    assert s.log + [] == s.log;
    if claim.Given? { assert BudgetFor(claim.job, Budget(claim.job)); }
  }

  /** A chat that has come back keeps its job and its outcome until its lease watch is over. */
  lemma {:induction false} OutcomeKept(s: State, es: seq<Event>, id: nat)
    requires OneLoop(s) && id in s.loops && s.loops[id].pc.Draining?
    requires OfLoop(id, LeaseSettled) !in es
    ensures var t := Run(s, es);
            && OneLoop(t) && id in t.loops && t.loops[id].pc.Draining?
            && t.loops[id].pc == s.loops[id].pc.(watcher := t.loops[id].pc.watcher)
    decreases |es|
  {
    hide PairMove, PairReady, HasToken, Iterate, Truthy, Budget;
    if es != [] {
      assert es[0] in es && s.loop == Some(id);
      if Enabled(s, es[0]) { StepKeepsOneLoop(s, es[0]); }
      OutcomeKept(if Enabled(s, es[0]) then Step(s, es[0]) else s, es[1..], id);
    }
  }

  /** The report of a job says done exactly when its chat came back with a text that is not empty. */
  lemma ReportTellsTheAnswer(s: State, id: nat, reply: ChatReply, es: seq<Event>)
    requires OneLoop(s) && Enabled(s, OfLoop(id, ChatAnswered(reply))) && OfLoop(id, LeaseSettled) !in es
    ensures var u := Run(Step(s, OfLoop(id, ChatAnswered(reply))), es);
            var job := s.loops[id].pc.job;
            Enabled(u, OfLoop(id, LeaseSettled)) ==>
              Step(u, OfLoop(id, LeaseSettled)).log
              == u.log + [Reported(job.jobId, job.leaseToken, reply.Body? && reply.text != "", u.sh.config.deviceToken)]
  {
    var z := Step(s, OfLoop(id, ChatAnswered(reply)));
    StepKeepsOneLoop(s, OfLoop(id, ChatAnswered(reply)));
    OutcomeKept(z, es, id);
    hide Run, OneLoop;
  }
}
