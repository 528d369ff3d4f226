/**
 * One browser-link sign-in: start, wait for the approval by polling, exchange the code, install the
 * session cookie. The answers, the clock readings and the moments a cancel is seen are the world's; what
 * the flow does with them is the trace.
 */
module LinkFlow {
  import opened Wrappers
  import opened Json

  // ----- Answers ------------------------------------------------------------------------------

  /** What a request came to: it threw, or was answered with a status and a body. */
  datatype Reply = Threw | Answer(status: int, body: Json)

  datatype StartResponse =
    StartResponse(userCode: string, pollToken: string, verificationUri: string, expiresIn: real, interval: real)

  datatype Poll = Pending | Approved(authCode: string) | Expired | Consumed

  datatype Cookie = Cookie(name: string, value: string)

  function TextOf(row: map<string, Json>, key: string): Option<string> {
    match Get(row, key)
    case Str(s) => if s != "" then Some(s) else None
    case _ => None
  }

  predicate CodeChar(c: char) {
    'A' <= c <= 'Z' || '2' <= c <= '9'
  }

  predicate UserCode(s: string) {
    |s| == 9 && s[4] == '-' && forall i :: 0 <= i < 9 && i != 4 ==> CodeChar(s[i])
  }

  predicate TokenChar(c: char) {
    'A' <= c <= 'Z' || 'a' <= c <= 'z' || '0' <= c <= '9' || c == '_' || c == '-'
  }

  predicate AuthCode(s: string) {
    20 <= |s| <= 200 && forall i :: 0 <= i < |s| ==> TokenChar(s[i])
  }

  /** Printable ASCII that cannot end or split a cookie. */
  predicate CookieChar(c: char) {
    '!' <= c <= '~' && c != ';' && c != ',' && c != '"' && c != '\\'
  }

  predicate CookieValue(s: string) {
    1 <= |s| <= 4096 && forall i :: 0 <= i < |s| ==> CookieChar(s[i])
  }

  /** The record says what the start has: five fields, within their bounds. */
  predicate Starts(row: map<string, Json>, s: StartResponse) {
    && TextOf(row, "userCode") == Some(s.userCode) && TextOf(row, "pollToken") == Some(s.pollToken)
    && TextOf(row, "verificationUri") == Some(s.verificationUri)
    && Get(row, "expiresIn") == Num(s.expiresIn) && Get(row, "interval") == Num(s.interval)
    && UserCode(s.userCode) && 30.0 <= s.expiresIn <= 3600.0 && 1.0 <= s.interval <= 30.0
  }

  function ParseStartResponse(json: Json): (r: Option<StartResponse>)
    ensures forall s :: r == Some(s) <==> AsRecord(json).Some? && Starts(AsRecord(json).value, s)
  {
    if AsRecord(json).None? then None
    else
      var row := AsRecord(json).value;
      var userCode, pollToken, uri := TextOf(row, "userCode"), TextOf(row, "pollToken"), TextOf(row, "verificationUri");
      if userCode.None? || pollToken.None? || uri.None? || !UserCode(userCode.value) then None
      else
        match (Get(row, "expiresIn"), Get(row, "interval"))
        case (Num(expiresIn), Num(interval)) =>
          if 30.0 <= expiresIn <= 3600.0 && 1.0 <= interval <= 30.0
          then Some(StartResponse(userCode.value, pollToken.value, uri.value, expiresIn, interval))
          else None
        case _ => None
  }

  function ParsePollResponse(json: Json): (r: Option<Poll>)
    ensures r.Some? ==> AsRecord(json).Some?
    ensures AsRecord(json).Some? ==>
              var row := AsRecord(json).value;
              && (r == Some(Pending) <==> Get(row, "status") == Str("pending"))
              && (r == Some(Expired) <==> Get(row, "status") == Str("expired"))
              && (r == Some(Consumed) <==> Get(row, "status") == Str("consumed"))
              && forall code :: r == Some(Approved(code)) <==>
                   Get(row, "status") == Str("approved") && TextOf(row, "authCode") == Some(code) && AuthCode(code)
  {
    if AsRecord(json).None? then None
    else
      var row := AsRecord(json).value;
      var status := Get(row, "status");
      if status == Str("pending") then Some(Pending)
      else if status == Str("expired") then Some(Expired)
      else if status == Str("consumed") then Some(Consumed)
      else if status == Str("approved") && TextOf(row, "authCode").Some? && AuthCode(TextOf(row, "authCode").value)
      then Some(Approved(TextOf(row, "authCode").value))
      else None
  }

  /** The answer's `cookie` is this one, a session cookie whose value cannot end or split a header. */
  predicate Carries(json: Json, sessionName: string -> bool, c: Cookie) {
    && AsRecord(json).Some? && AsRecord(Get(AsRecord(json).value, "cookie")).Some?
    && var row := AsRecord(Get(AsRecord(json).value, "cookie")).value;
       TextOf(row, "name") == Some(c.name) && TextOf(row, "value") == Some(c.value) && sessionName(c.name) && CookieValue(c.value)
  }

  function ParseExchangeResponse(json: Json, sessionName: string -> bool): (r: Option<Cookie>)
    ensures forall c :: r == Some(c) <==> Carries(json, sessionName, c)
  {
    if AsRecord(json).None? || AsRecord(Get(AsRecord(json).value, "cookie")).None? then None
    else
      var row := AsRecord(Get(AsRecord(json).value, "cookie")).value;
      var name, value := TextOf(row, "name"), TextOf(row, "value");
      if name.None? || !sessionName(name.value) || value.None? || !CookieValue(value.value) then None
      else Some(Cookie(name.value, value.value))
  }

  // ----- The world and the trace --------------------------------------------------------------

  /** One turn of the polling loop: the clock before it, a cancel seen after the delay, the poll's answer. */
  datatype Tick = Tick(now: real, cancelled: bool, reply: Reply)

  /**
   * `startedAt` is the clock when the start was answered, `launched` says the browser could be opened.
   * `cancelledAtEnd` is what the check behind the loop sees. `trusted` and `sessionName` are the app
   * origin's approval page and the names a session cookie may have.
   */
  datatype World = World(
    start: Reply, startedAt: real, launched: bool, ticks: seq<Tick>, cancelledAtEnd: bool, exchange: Reply, saved: bool,
    trusted: string -> bool, sessionName: string -> bool)

  datatype Failure = RateLimited | Unreachable | Unexpected | CodeExpired | CodeUsed | NotCompleted | NotSaved

  datatype LinkState =
    | Starting
    | Waiting(userCode: string, verificationUri: string, expiresAt: real)
    | Exchanging
    | Success
    | Cancelled
    | Error(failure: Failure)

  datatype Effect =
    | Report(state: LinkState)
    | Open(uri: string)
    | Delay(seconds: real)
    | Polled(token: string, reply: Reply)
    | Exchanged(authCode: string)
    | Installed(cookie: Cookie, saved: bool)

  /** `StillWaiting` when the ticks run out inside the loop; `Rejected` when the promise itself fails. */
  datatype Outcome = Ended(state: LinkState) | StillWaiting | Rejected

  predicate Terminal(s: LinkState) {
    s.Success? || s.Cancelled? || s.Error?
  }

  // ----- What the loop comes to ---------------------------------------------------------------

  /** Why the loop is left. */
  datatype Verdict = TimedOut | SeenCancelled | Answered(poll: Poll)

  /** A poll's final answer: a throw, a 429, an unreadable body and "pending" all mean another turn. */
  function Final(reply: Reply): Option<Poll> {
    if reply.Threw? || reply.status == 429 then None
    else
      var poll := ParsePollResponse(reply.body);
      if poll == Some(Pending) then None else poll
  }

  function Judge(t: Tick, expiresAt: real): Option<Verdict> {
    if t.now >= expiresAt then Some(TimedOut)
    else if t.cancelled then Some(SeenCancelled)
    else if Final(t.reply).Some? then Some(Answered(Final(t.reply).value))
    else None
  }

  /** The verdict of the first tick that has one. */
  function VerdictOf(ticks: seq<Tick>, expiresAt: real): Option<Verdict> {
    if ticks == [] then None
    else if Judge(ticks[0], expiresAt).Some? then Judge(ticks[0], expiresAt)
    else VerdictOf(ticks[1..], expiresAt)
  }

  function TickTrace(t: Tick, start: StartResponse, expiresAt: real): seq<Effect> {
    if t.now >= expiresAt then []
    else if t.cancelled then [Delay(start.interval)]
    else [Delay(start.interval), Polled(start.pollToken, t.reply)]
  }

  function LoopTrace(ticks: seq<Tick>, start: StartResponse, expiresAt: real): seq<Effect> {
    if ticks == [] then []
    else
      TickTrace(ticks[0], start, expiresAt)
      + if Judge(ticks[0], expiresAt).Some? then [] else LoopTrace(ticks[1..], start, expiresAt)
  }

  /** The start's answer: what to poll with, or why the flow ends before it. */
  datatype Begun = Refused(failure: Failure) | Begun(start: StartResponse)

  function Begin(w: World): Begun {
    if w.start.Answer? && w.start.status == 429 then Refused(RateLimited)
    else
      var start := if w.start.Answer? && w.start.status == 200 then ParseStartResponse(w.start.body) else None;
      if start.None? then Refused(Unreachable)
      else if !w.trusted(start.value.verificationUri) then Refused(Unexpected)
      else Begun(start.value)
  }

  function Deadline(w: World, start: StartResponse): real {
    w.startedAt + start.expiresIn * 1000.0
  }

  function CookieOf(w: World): Option<Cookie> {
    if w.exchange.Answer? && w.exchange.status == 200 then ParseExchangeResponse(w.exchange.body, w.sessionName) else None
  }

  /** The code that gets exchanged, if any: the approved one, unless a cancel is seen behind the loop. */
  function CodeToExchange(w: World, start: StartResponse): Option<string> {
    match VerdictOf(w.ticks, Deadline(w, start))
    case Some(Answered(Approved(code))) => if w.cancelledAtEnd then None else Some(code)
    case _ => None
  }

  function OutcomeOf(w: World): Outcome {
    match Begin(w)
    case Refused(failure) => Ended(Error(failure))
    case Begun(start) =>
      if !w.launched then Rejected
      else
        match VerdictOf(w.ticks, Deadline(w, start))
        case None => StillWaiting
        case Some(SeenCancelled) => Ended(Cancelled)
        case Some(Answered(Expired)) => Ended(Error(CodeExpired))
        case Some(Answered(Consumed)) => Ended(Error(CodeUsed))
        case Some(_) =>
          if w.cancelledAtEnd then Ended(Cancelled)
          else if CodeToExchange(w, start).None? then Ended(Error(CodeExpired))
          else if CookieOf(w).None? then Ended(Error(NotCompleted))
          else if !w.saved then Ended(Error(NotSaved))
          else Ended(Success)
  }

  function TailTrace(w: World, start: StartResponse): seq<Effect> {
    var code := CodeToExchange(w, start);
    if code.None? then []
    else
      [Report(Exchanging), Exchanged(code.value)]
      + if CookieOf(w).Some? then [Installed(CookieOf(w).value, w.saved)] else []
  }

  function WaitTrace(w: World, start: StartResponse): seq<Effect> {
    [Report(Waiting(start.userCode, start.verificationUri, Deadline(w, start))), Open(start.verificationUri)]
    + if w.launched then LoopTrace(w.ticks, start, Deadline(w, start)) + TailTrace(w, start) else []
  }

  function Trace(w: World): seq<Effect> {
    [Report(Starting)]
    + (if Begin(w).Begun? then WaitTrace(w, Begin(w).start) else [])
    + (if OutcomeOf(w).Ended? then [Report(OutcomeOf(w).state)] else [])
  }

  // ----- The flow -----------------------------------------------------------------------------

  method RunLinkFlow(w: World) returns (trace: seq<Effect>, outcome: Outcome)
    ensures trace == Trace(w) && outcome == OutcomeOf(w)
  {
    hide Begin, VerdictOf, LoopTrace, CookieOf, Deadline, CodeToExchange;
    trace := [Report(Starting)];
    var begun := AskToStart(w);
    if begun.Refused? {
      return trace + [Report(Error(begun.failure))], Ended(Error(begun.failure));
    }
    var start := begun.start;
    var expiresAt := Deadline(w, start);
    trace := trace + [Report(Waiting(start.userCode, start.verificationUri, expiresAt)), Open(start.verificationUri)];
    if !w.launched { return trace, Rejected; }
    var polling, rest, ended := WaitAndExchange(w, start);
    trace := trace + polling + rest;
    if ended.Ended? { trace := trace + [Report(ended.state)]; }
    assert trace == Trace(w);
    return trace, ended;
  }

  /** From the polling loop on. */
  method WaitAndExchange(w: World, start: StartResponse) returns (polling: seq<Effect>, rest: seq<Effect>, ended: Outcome)
    requires Begin(w) == Begun(start) && w.launched
    ensures polling == LoopTrace(w.ticks, start, Deadline(w, start)) && rest == TailTrace(w, start)
    ensures ended == OutcomeOf(w)
  {
    hide Begin, VerdictOf, LoopTrace, CookieOf, Deadline;
    var authCode;
    polling, authCode, ended := Wait(w.ticks, start, Deadline(w, start));
    rest := [];
    if !ended.Rejected? { return; }
    if w.cancelledAtEnd { ended := Ended(Cancelled); return; }
    if authCode.None? { ended := Ended(Error(CodeExpired)); return; }
    var state;
    rest, state := Exchange(w, authCode.value);
    ended := Ended(state);
  }

  /** With the approved code: exchange it, and install the cookie that comes back. */
  method Exchange(w: World, authCode: string) returns (trace: seq<Effect>, state: LinkState)
    ensures trace == [Report(Exchanging), Exchanged(authCode)]
                     + if CookieOf(w).Some? then [Installed(CookieOf(w).value, w.saved)] else []
    ensures state == if CookieOf(w).None? then Error(NotCompleted) else if w.saved then Success else Error(NotSaved)
  {
    hide CookieOf;
    trace := [Report(Exchanging), Exchanged(authCode)];
    var cookie := CookieOf(w);
    if cookie.None? { return trace, Error(NotCompleted); }
    trace := trace + [Installed(cookie.value, w.saved)];
    if !w.saved { return trace, Error(NotSaved); }
    return trace, Success;
  }

  method AskToStart(w: World) returns (begun: Begun)
    ensures begun == Begin(w)
  {
    if w.start.Threw? { return Refused(Unreachable); }
    if w.start.status == 429 { return Refused(RateLimited); }
    var start := if w.start.status == 200 then ParseStartResponse(w.start.body) else None;
    if start.None? { return Refused(Unreachable); }
    if !w.trusted(start.value.verificationUri) { return Refused(Unexpected); }
    return Begun(start.value);
  }

  /** The loop one turn further. */
  lemma Unroll(ticks: seq<Tick>, i: nat, start: StartResponse, expiresAt: real, trace: seq<Effect>)
    requires i <= |ticks|
    ensures i < |ticks| ==>
              && trace + LoopTrace(ticks[i..], start, expiresAt)
                 == trace + TickTrace(ticks[i], start, expiresAt)
                    + (if Judge(ticks[i], expiresAt).Some? then [] else LoopTrace(ticks[i + 1..], start, expiresAt))
              && VerdictOf(ticks[i..], expiresAt)
                 == (if Judge(ticks[i], expiresAt).Some? then Judge(ticks[i], expiresAt) else VerdictOf(ticks[i + 1..], expiresAt))
    ensures i == |ticks| ==> trace + LoopTrace(ticks[i..], start, expiresAt) == trace && VerdictOf(ticks[i..], expiresAt).None?
  {
    if i < |ticks| { assert ticks[i..][1..] == ticks[i + 1..]; }
  }

  /** The polling loop. `Rejected` stands for falling out of it, to the checks behind the loop. */
  method Wait(ticks: seq<Tick>, start: StartResponse, expiresAt: real)
    returns (trace: seq<Effect>, authCode: Option<string>, ended: Outcome)
    ensures trace == LoopTrace(ticks, start, expiresAt)
    ensures authCode == match VerdictOf(ticks, expiresAt) { case Some(Answered(Approved(code))) => Some(code) case _ => None }
    ensures ended == match VerdictOf(ticks, expiresAt)
                     case None => StillWaiting
                     case Some(SeenCancelled) => Ended(Cancelled)
                     case Some(Answered(Expired)) => Ended(Error(CodeExpired))
                     case Some(Answered(Consumed)) => Ended(Error(CodeUsed))
                     case Some(_) => Rejected
  {
    hide ParsePollResponse, LoopTrace, VerdictOf;
    trace, authCode := [], None;
    var i := 0;
    while i < |ticks| && ticks[i].now < expiresAt
      invariant i <= |ticks|
      invariant LoopTrace(ticks, start, expiresAt) == trace + LoopTrace(ticks[i..], start, expiresAt)
      invariant VerdictOf(ticks, expiresAt) == VerdictOf(ticks[i..], expiresAt)
      decreases |ticks| - i
    {
      var t := ticks[i];
      Unroll(ticks, i, start, expiresAt, trace);
      i := i + 1;
      trace := trace + [Delay(start.interval)];
      if t.cancelled { return trace, None, Ended(Cancelled); }
      trace := trace + [Polled(start.pollToken, t.reply)];
      if t.reply.Threw? || t.reply.status == 429 { continue; }
      var poll := ParsePollResponse(t.reply.body);
      if poll.None? || poll.value.Pending? { continue; }
      if poll.value.Expired? { return trace, None, Ended(Error(CodeExpired)); }
      if poll.value.Consumed? { return trace, None, Ended(Error(CodeUsed)); }
      return trace, Some(poll.value.authCode), Rejected;
    }
    Unroll(ticks, i, start, expiresAt, trace);
    ended := if i == |ticks| then StillWaiting else Rejected;
  }
}
