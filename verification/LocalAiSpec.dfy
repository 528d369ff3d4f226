/**
 * The desktop Local AI service as a state machine. A step is the code between two awaits: a public
 * call up to its first await, or the resumption of a suspended call. `Run` interleaves steps in any
 * order the suspended calls allow, so a statement about every `Run` covers every interleaving.
 */
module LocalAiSpec {
  import opened Wrappers

  // ----- Requests, answers and the one chat call ---------------------------------------------

  const HEARTBEAT_MS := 30_000
  const MODEL_CHECK_MS := 20_000
  const MIN_JOB_MS := 30_000
  const MAX_JOB_MS := 300_000
  const PAIRING_MS := 600_000

  datatype Config = Config(
    enabled: bool, model: Option<string>, deviceToken: Option<string>,
    deviceId: Option<string>, orgId: Option<string>, userId: Option<string>)

  predicate HasToken(c: Config) {
    Truthy(c.deviceToken)
  }

  /** Answering is wanted: switched on, and there is a pairing to answer for. */
  predicate Wanted(c: Config) {
    c.enabled && HasToken(c)
  }

  datatype Job = Job(jobId: string, orgId: string, userId: string, leaseToken: string, timeoutMs: Option<int>)

  datatype ErrorClass = LocalModelUnavailable | Timeout | CliError
  datatype Outcome = Answered(text: string) | Failed(error: ErrorClass)

  /** What the model server did with the one chat request; `text` is the answer with its reasoning stripped. */
  datatype ChatReply = Threw(timedOut: bool) | Refused(status: int) | Body(text: string)

  /** The chat call always comes back with an outcome; a thrown fetch is one too. */
  function ChatOutcome(reply: ChatReply, cancelled: bool): (o: Outcome)
    ensures o.Answered? <==> reply.Body? && reply.text != ""
    ensures o.Answered? ==> o.text == reply.text
    ensures o == Failed(Timeout) <==> reply == Threw(true)
    ensures o == Failed(LocalModelUnavailable) <==> reply == Refused(404) || (reply == Threw(false) && !cancelled)
  {
    match reply
    case Threw(timedOut) =>
      if timedOut then Failed(Timeout) else if cancelled then Failed(CliError) else Failed(LocalModelUnavailable)
    case Refused(status) => if status == 404 then Failed(LocalModelUnavailable) else Failed(CliError)
    case Body(text) => if text == "" then Failed(CliError) else Answered(text)
  }

  /** Milliseconds allowed for a job: the job's own figure (0 and absent mean the longest), kept in range. */
  function Budget(job: Job): int {
    var asked := if job.timeoutMs.Some? && job.timeoutMs.value != 0 then job.timeoutMs.value else MAX_JOB_MS;
    var floored := if asked < MIN_JOB_MS then MIN_JOB_MS else asked;
    if MAX_JOB_MS < floored then MAX_JOB_MS else floored
  }

  /** The job is the paired person's own, in the paired team when one is set. */
  predicate Belongs(job: Job, userId: Option<string>, orgId: Option<string>) {
    userId == Some(job.userId) && (Truthy(orgId) ==> orgId == Some(job.orgId))
  }

  // ----- What the service does to the outside -------------------------------------------------

  /** `token` is the device token the request carries. */
  datatype Act =
    | Claimed(job: Job, userId: Option<string>, orgId: Option<string>, token: Option<string>)
    | Asked(jobId: string, budget: int)
    | LeaseChecked(jobId: string, leaseToken: string, token: Option<string>)
    | WatchEnded(jobId: string)
    | Reported(jobId: string, leaseToken: string, done: bool, token: Option<string>)

  // ----- Suspended calls ----------------------------------------------------------------------

  datatype Watcher = Sleeping | Checking | Ended

  /**
   * Where a runLoop is suspended. `now` is the clock reading its current round started with, `sent`
   * the device token the request under way carries, `ctl` the number of the job's abort controller.
   */
  datatype Pc =
    | ModelCheck(now: int) | ModelSave(now: int)
    | Heartbeat(now: int, sent: Option<string>) | HeartbeatRevoking
    | Unready | Claiming(sent: Option<string>) | ClaimRevoking | Idle
    | Chatting(job: Job, ctl: nat, watcher: Watcher)
    | Draining(job: Job, ctl: nat, watcher: Watcher, outcome: Outcome)
    | Reporting(job: Job, outcome: Outcome)
    | Exited

  datatype Loop = Loop(pc: Pc, lastHeartbeat: int, lastModelCheck: int)

  datatype PairPc = Starting | Waiting(deadline: int) | Polling(deadline: int) | Saving

  /** Poll requests and the run numbers handed out, in order. */
  datatype PairAct = NewRun(run: nat) | Polled(run: nat)

  /** What a runLoop reads and writes besides its own locals. `aborted` are the controllers that fired. */
  datatype Shared = Shared(
    config: Config, reachable: bool, stopRequested: bool, jobsServed: nat,
    current: Option<nat>, nextCtl: nat, aborted: set<nat>)

  /** Pairing: the code on show, the newest run number, and the pair() calls under way. */
  datatype Pairing = Pairing(shown: bool, run: nat, calls: map<nat, PairPc>, log: seq<PairAct>)

  datatype State = State(
    sh: Shared, pairing: Pairing, requirementsOk: bool, toggling: Option<bool>,
    running: bool, loop: Option<nat>, loops: map<nat, Loop>, nextLoop: nat, log: seq<Act>)

  /** What a step inside a runLoop leaves, and what it did to the outside. */
  datatype Effect = Effect(sh: Shared, loop: Loop, acts: seq<Act>)

  // ----- The loop -----------------------------------------------------------------------------

  /** Top of the while loop. */
  function Iterate(sh: Shared, l: Loop, now: int): Loop {
    if sh.stopRequested || !Wanted(sh.config) then l.(pc := Exited)
    else if now - l.lastModelCheck >= MODEL_CHECK_MS then l.(pc := ModelCheck(now))
    else AfterModelCheck(sh, l, now)
  }

  function AfterModelCheck(sh: Shared, l: Loop, now: int): Loop {
    if now - l.lastHeartbeat >= HEARTBEAT_MS then l.(pc := Heartbeat(now, sh.config.deviceToken)) else AfterHeartbeat(sh, l)
  }

  function AfterHeartbeat(sh: Shared, l: Loop): Loop {
    l.(pc := if !sh.reachable || !Truthy(sh.config.model) then Unready else Claiming(sh.config.deviceToken))
  }

  function AfterRefresh(sh: Shared, l: Loop, now: int): Loop {
    AfterModelCheck(sh, l.(lastModelCheck := now), now)
  }

  function EnsureLoop(s: State, now: int): State {
    if !HasToken(s.sh.config) then s
    else
      var sh := s.sh.(stopRequested := false);
      if s.loop.Some? then s.(sh := sh)
      else
        s.(sh := sh, running := true, loop := Some(s.nextLoop), nextLoop := s.nextLoop + 1,
           loops := s.loops[s.nextLoop := Iterate(sh, Loop(Exited, 0, 0), now)])
  }

  function StopLoop(sh: Shared): Shared {
    sh.(stopRequested := true, aborted := if sh.current.Some? then sh.aborted + {sh.current.value} else sh.aborted)
  }

  function Revoked(sh: Shared): Shared {
    sh.(config := sh.config.(enabled := false, deviceToken := None, deviceId := None))
  }

  /** The runLoop promise settles: the field is cleared, and a loop wanted again is started again. */
  function LoopSettled(s: State, id: nat, now: int): State {
    var t := s.(running := false, loop := None, loops := s.loops - {id});
    if !t.sh.stopRequested && Wanted(t.sh.config) then EnsureLoop(t, now) else t
  }

  /** The model list came back: remember it, and keep `pick` when it differs from the saved choice. */
  function TakeModels(sh: Shared, reachable: bool, pick: Option<string>): Shared {
    var t := sh.(reachable := reachable);
    if Truthy(pick) && pick != sh.config.model then t.(config := sh.config.(model := pick)) else t
  }

  // ----- Serving a job ------------------------------------------------------------------------

  /** A claimed job up to its first await: the chat call, or straight to the report when it is somebody else's. */
  function Serve(sh: Shared, l: Loop, job: Job): Effect
    requires l.pc.Claiming?
  {
    var claimed := Claimed(job, sh.config.userId, sh.config.orgId, l.pc.sent);
    if !Belongs(job, sh.config.userId, sh.config.orgId) then
      var refused := Report(sh, l, job, Failed(CliError));
      refused.(acts := [claimed] + refused.acts)
    else
      Effect(sh.(current := Some(sh.nextCtl), nextCtl := sh.nextCtl + 1),
             l.(pc := Chatting(job, sh.nextCtl, Sleeping)),
             [claimed, Asked(job.jobId, Budget(job))])
  }

  function Report(sh: Shared, l: Loop, job: Job, outcome: Outcome): Effect {
    Effect(sh, l.(pc := Reporting(job, outcome)), [Reported(job.jobId, job.leaseToken, outcome.Answered?, sh.config.deviceToken)])
  }

  // ----- Steps --------------------------------------------------------------------------------

  datatype PollAnswer =
    | Pending
    | Approved(deviceToken: string, deviceId: Option<string>, orgId: Option<string>, userId: string)
    | Denied
  datatype ClaimAnswer = Unauthorized | Given(job: Job) | Nothing

  /** Public calls, and the end of the save a setEnabled waits for. */
  datatype Call =
    | SetEnabled(on: bool) | SetEnabledSaved(now: int)
    | SetModel(model: string) | RefreshAnswered(reachable: bool, pick: Option<string>)
    | Unpair | Pair | CancelPairing

  /** What a suspended pair() resumes with. */
  datatype PairResume =
    | PairStarted(ok: bool, now: int) | PairWoke
    | PairPolled(answer: PollAnswer, now: int) | PairSaved(now: int)

  /** What a suspended runLoop, or the lease watcher of the job it serves, resumes with. */
  datatype LoopResume =
    | ModelsAnswered(reachable: bool, pick: Option<string>) | ModelsSaved
    | HeartbeatAnswered(refused: bool) | RevokeSaved
    | Slept(now: int) | ClaimAnswered(claim: ClaimAnswer)
    | WatchWoke | WatchAnswered(active: bool)
    | ChatAnswered(reply: ChatReply) | LeaseSettled | ReportSettled(now: int)

  /** `LoopEnded` is the `finally` of a runLoop whose body is over. */
  datatype Event =
    | User(call: Call)
    | OfPair(run: nat, pair: PairResume)
    | OfLoop(id: nat, resume: LoopResume)
    | LoopEnded(id: nat, now: int)

  predicate PairReady(pc: PairPc, r: PairResume) {
    match r
    case PairStarted(_, _) => pc.Starting?
    case PairWoke => pc.Waiting?
    case PairPolled(_, _) => pc.Polling?
    case PairSaved(_) => pc.Saving?
  }

  predicate LoopReady(pc: Pc, r: LoopResume) {
    match r
    case ModelsAnswered(_, _) => pc.ModelCheck?
    case ModelsSaved => pc.ModelSave?
    case HeartbeatAnswered(_) => pc.Heartbeat?
    case RevokeSaved => pc.HeartbeatRevoking? || pc.ClaimRevoking?
    case Slept(_) => pc.Unready? || pc.Idle?
    case ClaimAnswered(_) => pc.Claiming?
    case WatchWoke => (pc.Chatting? || pc.Draining?) && pc.watcher.Sleeping?
    case WatchAnswered(_) => (pc.Chatting? || pc.Draining?) && pc.watcher.Checking?
    case ChatAnswered(_) => pc.Chatting?
    case LeaseSettled => pc.Draining? && pc.watcher.Ended?
    case ReportSettled(_) => pc.Reporting?
  }

  /** The step can happen: the call it resumes is suspended there. One setEnabled at a time. */
  predicate Enabled(s: State, e: Event) {
    match e
    case User(call) => (call.SetEnabled? ==> s.toggling.None?) && (call.SetEnabledSaved? ==> s.toggling.Some?)
    case OfPair(run, r) => run in s.pairing.calls && PairReady(s.pairing.calls[run], r)
    case OfLoop(id, r) => id in s.loops && LoopReady(s.loops[id].pc, r)
    case LoopEnded(id, _) => id in s.loops && s.loops[id].pc.Exited?
  }

  function EndPair(p: Pairing, run: nat): Pairing {
    p.(calls := p.calls - {run})
  }

  /** pair() leaves by its catch: only the newest run touches what the window shows. */
  function PairFailed(p: Pairing, run: nat): Pairing {
    EndPair(if run == p.run then p.(shown := false) else p, run)
  }

  /** The pairing loop's test, then its sleep or the expiry error. */
  function PairRound(p: Pairing, run: nat, deadline: int, now: int): Pairing {
    if now < deadline && run == p.run then p.(calls := p.calls[run := Waiting(deadline)]) else PairFailed(p, run)
  }

  function NextRun(p: Pairing): Pairing {
    p.(run := p.run + 1, log := p.log + [NewRun(p.run + 1)])
  }

  function CallStep(s: State, call: Call): State
    requires Enabled(s, User(call))
  {
    match call
    case SetEnabled(on) =>
      if on && !s.requirementsOk then s
      else s.(sh := s.sh.(config := s.sh.config.(enabled := on)), toggling := Some(on))
    case SetEnabledSaved(now) =>
      if s.toggling.value then EnsureLoop(s.(toggling := None), now) else s.(toggling := None, sh := StopLoop(s.sh))
    case SetModel(model) => s.(sh := s.sh.(config := s.sh.config.(model := Some(model))))
    case RefreshAnswered(reachable, pick) => s.(sh := TakeModels(s.sh, reachable, pick))
    case Unpair =>
      s.(sh := StopLoop(s.sh).(config := Config(false, s.sh.config.model, None, None, None, None)))
    case Pair =>
      s.(pairing := NextRun(s.pairing).(calls := s.pairing.calls[s.pairing.run + 1 := Starting]))
    case CancelPairing => s.(pairing := NextRun(s.pairing).(shown := false))
  }

  function PairMove(p: Pairing, run: nat, r: PairResume): Pairing
    requires run in p.calls && PairReady(p.calls[run], r)
  {
    match r
    case PairStarted(ok, now) =>
      if ok then PairRound(p.(shown := true), run, now + PAIRING_MS, now) else PairFailed(p, run)
    case PairWoke =>
      if run != p.run then EndPair(p, run)
      else p.(calls := p.calls[run := Polling(p.calls[run].deadline)], log := p.log + [Polled(run)])
    case PairPolled(answer, now) =>
      if answer.Pending? then PairRound(p, run, p.calls[run].deadline, now)
      else if Complete(answer) then p.(shown := false, calls := p.calls[run := Saving])
      else PairFailed(p, run)
    case PairSaved(_) => EndPair(p, run)
  }

  predicate Complete(answer: PollAnswer) {
    answer.Approved? && answer.deviceToken != "" && answer.userId != ""
  }

  /** The settings once a poll answer is in: an approval replaces the whole pairing. */
  function Paired(c: Config, r: PairResume): Config {
    if r.PairPolled? && Complete(r.answer) then
      Config(c.enabled, c.model, Some(r.answer.deviceToken), r.answer.deviceId, r.answer.orgId, Some(r.answer.userId))
    else c
  }

  function PairStep(s: State, run: nat, r: PairResume): State
    requires Enabled(s, OfPair(run, r))
  {
    var t := s.(pairing := PairMove(s.pairing, run, r), sh := s.sh.(config := Paired(s.sh.config, r)));
    if r.PairSaved? && s.sh.config.enabled then EnsureLoop(t, r.now) else t
  }

  function Quietly(sh: Shared, l: Loop): Effect {
    Effect(sh, l, [])
  }

  function LoopStep(sh: Shared, l: Loop, r: LoopResume): Effect
    requires LoopReady(l.pc, r)
  {
    var pc := l.pc;
    match r
    case ModelsAnswered(reachable, pick) =>
      var t := TakeModels(sh, reachable, pick);
      Quietly(t, if t.config != sh.config then l.(pc := ModelSave(pc.now)) else AfterRefresh(t, l, pc.now))
    case ModelsSaved => Quietly(sh, AfterRefresh(sh, l, pc.now))
    case HeartbeatAnswered(refused) =>
      if refused then Quietly(Revoked(sh), l.(pc := HeartbeatRevoking))
      else Quietly(sh, AfterHeartbeat(sh, l.(lastHeartbeat := pc.now)))
    case RevokeSaved => Quietly(sh, l.(pc := Exited))
    case Slept(now) => Quietly(sh, Iterate(sh, l, now))
    case ClaimAnswered(claim) =>
      (match claim
       case Unauthorized => Quietly(Revoked(sh), l.(pc := ClaimRevoking))
       case Given(job) => if job.jobId == "" then Quietly(sh, l.(pc := Idle)) else Serve(sh, l, job)
       case Nothing => Quietly(sh, l.(pc := Idle)))
    case WatchWoke =>
      if pc.ctl in sh.aborted then Effect(sh, l.(pc := pc.(watcher := Ended)), [WatchEnded(pc.job.jobId)])
      else Effect(sh, l.(pc := pc.(watcher := Checking)), [LeaseChecked(pc.job.jobId, pc.job.leaseToken, sh.config.deviceToken)])
    case WatchAnswered(active) =>
      var t := if active then sh else sh.(aborted := sh.aborted + {pc.ctl});
      if pc.ctl in t.aborted then Effect(t, l.(pc := pc.(watcher := Ended)), [WatchEnded(pc.job.jobId)])
      else Quietly(t, l.(pc := pc.(watcher := Sleeping)))
    case ChatAnswered(reply) =>
      Quietly(sh.(aborted := sh.aborted + {pc.ctl}),
              l.(pc := Draining(pc.job, pc.ctl, pc.watcher, ChatOutcome(reply, pc.ctl in sh.aborted))))
    case LeaseSettled => Report(sh.(current := None), l, pc.job, pc.outcome)
    case ReportSettled(now) =>
      var t := if pc.outcome.Answered? then sh.(jobsServed := sh.jobsServed + 1) else sh;
      Quietly(t, Iterate(t, l, now))
  }

  function Step(s: State, e: Event): State
    requires Enabled(s, e)
  {
    match e
    case User(call) => CallStep(s, call)
    case OfPair(run, r) => PairStep(s, run, r)
    case OfLoop(id, r) =>
      var f := LoopStep(s.sh, s.loops[id], r);
      s.(sh := f.sh, loops := s.loops[id := f.loop], log := s.log + f.acts)
    case LoopEnded(id, now) => LoopSettled(s, id, now)
  }

  /** The service after start(): saved settings read, the machine checked, the models listed once. */
  function Started(saved: Config, requirementsOk: bool, reachable: bool, pick: Option<string>, now: int): State {
    var sh := TakeModels(Shared(saved, false, false, 0, None, 0, {}), reachable, pick);
    var s := State(sh, Pairing(false, 0, map[], []), requirementsOk, None, false, None, map[], 0, []);
    if sh.config.enabled then EnsureLoop(s, now) else s
  }

  /** Any interleaving: each event either happens or, when nothing is suspended there, is passed over. */
  function Run(s: State, es: seq<Event>): State
    decreases |es|
  {
    if es == [] then s else Run(if Enabled(s, es[0]) then Step(s, es[0]) else s, es[1..])
  }
}
