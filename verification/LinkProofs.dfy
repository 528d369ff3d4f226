/** What holds of every sign-in, whatever the answers, the clock and the cancels. */
module LinkProofs {
  import opened Wrappers
  import opened LinkFlow
  import opened Rounding

  // ----- Reading a trace ----------------------------------------------------------------------

  /** What a trace shows, kind by kind: the states reported, the polls' answers, the codes and the cookies. */
  datatype Seen = Seen(reports: seq<LinkState>, polls: seq<Reply>, codes: seq<string>, cookies: seq<(Cookie, bool)>)

  const NOTHING := Seen([], [], [], [])

  function One(e: Effect): Seen {
    match e
    case Report(state) => Seen([state], [], [], [])
    case Polled(_, reply) => Seen([], [reply], [], [])
    case Exchanged(code) => Seen([], [], [code], [])
    case Installed(cookie, saved) => Seen([], [], [], [(cookie, saved)])
    case _ => NOTHING
  }

  function Join(a: Seen, b: Seen): Seen {
    Seen(a.reports + b.reports, a.polls + b.polls, a.codes + b.codes, a.cookies + b.cookies)
  }

  function Read(es: seq<Effect>): Seen {
    if es == [] then NOTHING else Join(One(es[0]), Read(es[1..]))
  }

  lemma JoinAssociates(a: Seen, b: Seen, c: Seen)
    ensures Join(Join(a, b), c) == Join(a, Join(b, c)) && Join(NOTHING, c) == c == Join(c, NOTHING)
  {
  }

  lemma {:induction false} ReadAppend(a: seq<Effect>, b: seq<Effect>)
    ensures Read(a + b) == Join(Read(a), Read(b))
  {
    hide One, Join;
    if a == [] {
      assert a + b == b;
      JoinAssociates(NOTHING, NOTHING, Read(b));
    } else {
      assert (a + b)[1..] == a[1..] + b;
      ReadAppend(a[1..], b);
      JoinAssociates(One(a[0]), Read(a[1..]), Read(b));
    }
  }

  lemma ReadOne(e: Effect)
    ensures Read([e]) == One(e)
  {
    assert [e][1..] == [];
  }

  lemma ReadTwo(d: Effect, e: Effect)
    ensures Read([d, e]) == Join(One(d), One(e))
  {
    hide Read, One;
    assert [d, e] == [d] + [e];
    ReadAppend([d], [e]);
    ReadOne(d);
    ReadOne(e);
  }

  /** The answers of the polls the loop sends. */
  function Polls(ticks: seq<Tick>, expiresAt: real): seq<Reply> {
    if ticks == [] || ticks[0].now >= expiresAt || ticks[0].cancelled then []
    else [ticks[0].reply] + if Final(ticks[0].reply).Some? then [] else Polls(ticks[1..], expiresAt)
  }

  lemma ReadTick(t: Tick, start: StartResponse, expiresAt: real)
    ensures Read(TickTrace(t, start, expiresAt))
         == Seen([], if t.now >= expiresAt || t.cancelled then [] else [t.reply], [], [])
  {
    hide Read;
    ReadNothing();
    ReadOne(Delay(start.interval));
    ReadTwo(Delay(start.interval), Polled(start.pollToken, t.reply));
  }

  lemma {:induction false} LoopOnlyPolls(ticks: seq<Tick>, start: StartResponse, expiresAt: real)
    ensures Read(LoopTrace(ticks, start, expiresAt)) == Seen([], Polls(ticks, expiresAt), [], [])
    ensures forall e :: e in LoopTrace(ticks, start, expiresAt) ==> e.Delay? || e.Polled?
  {
    hide Final, Read;
    ReadNothing();
    if ticks != [] {
      var first := TickTrace(ticks[0], start, expiresAt);
      var rest := if Judge(ticks[0], expiresAt).Some? then [] else LoopTrace(ticks[1..], start, expiresAt);
      LoopOnlyPolls(ticks[1..], start, expiresAt);
      ReadTick(ticks[0], start, expiresAt);
      ReadAppend(first, rest);
    }
  }

  lemma ReadNothing()
    ensures Read([]) == NOTHING
  {
  }

  // ----- The parts of a trace -----------------------------------------------------------------

  /** Up to the end of the loop, for a flow that gets there. */
  function Before(w: World, start: StartResponse): seq<Effect> {
    [Report(Starting)]
    + [Report(Waiting(start.userCode, start.verificationUri, Deadline(w, start))), Open(start.verificationUri)]
    + LoopTrace(w.ticks, start, Deadline(w, start))
  }

  lemma ReadBefore(w: World, start: StartResponse)
    ensures Read(Before(w, start))
         == Seen([Starting, Waiting(start.userCode, start.verificationUri, Deadline(w, start))],
                 Polls(w.ticks, Deadline(w, start)), [], [])
    ensures forall e :: e in Before(w, start) ==> !e.Exchanged?
  {
    hide Read, LoopTrace, Polls, Deadline;
    var waiting := Report(Waiting(start.userCode, start.verificationUri, Deadline(w, start)));
    var loop := LoopTrace(w.ticks, start, Deadline(w, start));
    ReadOne(Report(Starting));
    ReadTwo(waiting, Open(start.verificationUri));
    ReadAppend([Report(Starting)], [waiting, Open(start.verificationUri)]);
    ReadAppend([Report(Starting)] + [waiting, Open(start.verificationUri)], loop);
    LoopOnlyPolls(w.ticks, start, Deadline(w, start));
  }

  function Last(w: World): seq<Effect> {
    if OutcomeOf(w).Ended? then [Report(OutcomeOf(w).state)] else []
  }

  lemma TraceParts(w: World)
    requires Begin(w).Begun? && w.launched
    ensures Trace(w) == Before(w, Begin(w).start) + (TailTrace(w, Begin(w).start) + Last(w))
  {
    hide Begin, OutcomeOf, TailTrace, Deadline, LoopTrace;
  }

  lemma ReadTail(w: World, start: StartResponse)
    ensures var code := CodeToExchange(w, start);
            var cookies := if CookieOf(w).None? then [] else [(CookieOf(w).value, w.saved)];
            Read(TailTrace(w, start)) == if code.None? then NOTHING else Seen([Exchanging], [], [code.value], cookies)
  {
    hide Read, CodeToExchange, CookieOf;
    var code := CodeToExchange(w, start);
    ReadNothing();
    if code.Some? {
      ReadTwo(Report(Exchanging), Exchanged(code.value));
      if CookieOf(w).Some? {
        ReadOne(Installed(CookieOf(w).value, w.saved));
        ReadAppend([Report(Exchanging), Exchanged(code.value)], [Installed(CookieOf(w).value, w.saved)]);
      } else {
        ReadAppend([Report(Exchanging), Exchanged(code.value)], []);
      }
    }
  }

  /** All there is to see in a flow that reaches its loop. */
  function SeenOf(w: World, start: StartResponse): Seen {
    var code := CodeToExchange(w, start);
    Seen([Starting, Waiting(start.userCode, start.verificationUri, Deadline(w, start))]
         + (if code.Some? then [Exchanging] else []) + (if OutcomeOf(w).Ended? then [OutcomeOf(w).state] else []),
         Polls(w.ticks, Deadline(w, start)),
         if code.Some? then [code.value] else [],
         if code.Some? && CookieOf(w).Some? then [(CookieOf(w).value, w.saved)] else [])
  }

  lemma ReadTrace(w: World)
    requires Begin(w).Begun? && w.launched
    ensures Read(Trace(w)) == SeenOf(w, Begin(w).start)
  {
    hide Begin, Read, CodeToExchange, OutcomeOf, CookieOf, Before, TailTrace, Deadline, Polls, Trace;
    var start := Begin(w).start;
    TraceParts(w);
    ReadBefore(w, start);
    ReadTail(w, start);
    ReadNothing();
    if OutcomeOf(w).Ended? { ReadOne(Report(OutcomeOf(w).state)); }
    ReadAppend(TailTrace(w, start), Last(w));
    ReadAppend(Before(w, start), TailTrace(w, start) + Last(w));
  }

  lemma ReadShortTrace(w: World)
    requires !(Begin(w).Begun? && w.launched)
    ensures Read(Trace(w)).polls == [] && Read(Trace(w)).codes == [] && Read(Trace(w)).cookies == []
    ensures Read(Trace(w)).reports
         == [Starting] + if Begin(w).Refused? then [Error(Begin(w).failure)]
                         else [Waiting(Begin(w).start.userCode, Begin(w).start.verificationUri, Deadline(w, Begin(w).start))]
  {
    hide Begin, Read, Deadline;
    if Begin(w).Refused? {
      assert Trace(w) == [Report(Starting), Report(Error(Begin(w).failure))];
      ReadTwo(Report(Starting), Report(Error(Begin(w).failure)));
    } else {
      var start := Begin(w).start;
      var waiting := Report(Waiting(start.userCode, start.verificationUri, Deadline(w, start)));
      assert Trace(w) == [Report(Starting)] + [waiting, Open(start.verificationUri)];
      ReadOne(Report(Starting));
      ReadTwo(waiting, Open(start.verificationUri));
      ReadAppend([Report(Starting)], [waiting, Open(start.verificationUri)]);
    }
  }

  // ----- The states reported ------------------------------------------------------------------

  /** Starting, then optionally waiting, then optionally exchanging, then the one terminal state returned. */
  predicate InOrder(reports: seq<LinkState>, outcome: Outcome) {
    && |reports| >= 1 && reports[0] == Starting
    && (outcome.Ended? ==> |reports| >= 2 && Terminal(outcome.state) && reports[|reports| - 1] == outcome.state)
    && var middle := if outcome.Ended? then reports[1..|reports| - 1] else reports[1..];
       && |middle| <= 2
       && (|middle| >= 1 ==> middle[0].Waiting?)
       && (|middle| == 2 ==> middle[1] == Exchanging)
  }

  lemma ReportsInOrder(w: World)
    ensures InOrder(Read(Trace(w)).reports, OutcomeOf(w))
  {
    hide Begin, Read, Trace, VerdictOf, CookieOf, Deadline, Polls;
    if Begin(w).Begun? && w.launched { ReadTrace(w); } else { ReadShortTrace(w); }
  }

  // ----- Exchange and installation ------------------------------------------------------------

  /** Success means exactly one cookie was installed, and nothing but a sound session cookie ever is. */
  lemma SuccessIsOneInstalledCookie(w: World)
    ensures var cookies := Read(Trace(w)).cookies;
            && |cookies| <= 1
            && (OutcomeOf(w) == Ended(Success) <==> |cookies| == 1 && cookies[0].1)
            && (|cookies| == 1 ==> w.sessionName(cookies[0].0.name) && CookieValue(cookies[0].0.value))
  {
    hide Begin, Read, Trace, VerdictOf, Deadline, Polls, ParseExchangeResponse;
    if Begin(w).Begun? && w.launched { ReadTrace(w); } else { ReadShortTrace(w); }
  }

  /** The loop ends with an answer exactly when its last poll brought it. */
  lemma {:induction false} AnswerIsTheLastPoll(ticks: seq<Tick>, expiresAt: real, poll: Poll)
    requires VerdictOf(ticks, expiresAt) == Some(Answered(poll))
    ensures var polls := Polls(ticks, expiresAt); |polls| >= 1 && Final(polls[|polls| - 1]) == Some(poll)
  {
    hide Final;
    if Judge(ticks[0], expiresAt).None? { AnswerIsTheLastPoll(ticks[1..], expiresAt, poll); }
  }

  /** Whatever is exchanged is exchanged once, is the code the last poll approved, and comes after every poll. */
  lemma ExchangeNeedsApproval(w: World, k: nat)
    requires k < |Trace(w)| && Trace(w)[k].Exchanged?
    ensures var code, polls := Trace(w)[k].authCode, Read(Trace(w)).polls;
            && Read(Trace(w)).codes == [code] && AuthCode(code)
            && |polls| >= 1 && Final(polls[|polls| - 1]) == Some(Approved(code))
            && Read(Trace(w)[..k]).polls == polls
  {
    hide Begin, Read, LoopTrace, Before, VerdictOf, CookieOf, Deadline, Final, Polls, OutcomeOf, Trace;
    if !(Begin(w).Begun? && w.launched) {
      ShortTraceEffects(w);
      assert Trace(w)[k] in Trace(w);
    }
    var start := Begin(w).start;
    TraceParts(w);
    ReadTrace(w);
    ReadBefore(w, start);
    var before, tail := Before(w, start), TailTrace(w, start) + Last(w);
    assert forall j :: 0 <= j < |before| ==> Trace(w)[j] == before[j];
    assert Trace(w)[k] == tail[k - |before|];
    var code := CodeToExchange(w, start).value;
    AnswerIsTheLastPoll(w.ticks, Deadline(w, start), Approved(code));
    var polls := Polls(w.ticks, Deadline(w, start));
    FinalIsSound(polls[|polls| - 1]);
    assert Trace(w)[..k] == before + [Report(Exchanging)];
    ReadAppend(before, [Report(Exchanging)]);
    ReadOne(Report(Exchanging));
  }

  lemma ShortTraceEffects(w: World)
    requires !(Begin(w).Begun? && w.launched)
    ensures forall e :: e in Trace(w) ==> e.Report? || (Begin(w).Begun? && e == Open(Begin(w).start.verificationUri))
  {
    hide Begin, VerdictOf, Deadline, CookieOf;
  }

  lemma TailEffects(w: World, start: StartResponse)
    ensures forall e :: e in TailTrace(w, start) + Last(w) ==> !e.Polled? && !e.Open?
  {
    hide OutcomeOf, CodeToExchange, CookieOf;
  }

  lemma FinalIsSound(reply: Reply)
    ensures Final(reply).Some? && Final(reply).value.Approved? ==> AuthCode(Final(reply).value.authCode)
  {
  }

  // ----- Why a flow fails ---------------------------------------------------------------------

  /** Each failure has one cause, in the start's answer, the loop's verdict, the exchange or the installation. */
  lemma EachFailureHasItsCause(w: World)
    ensures var o, limited := OutcomeOf(w), w.start.Answer? && w.start.status == 429;
            var start := if w.start.Answer? && w.start.status == 200 then ParseStartResponse(w.start.body) else None;
            && (o == Ended(Error(RateLimited)) <==> limited)
            && (o == Ended(Error(Unreachable)) <==> !limited && start.None?)
            && (o == Ended(Error(Unexpected)) <==> start.Some? && !w.trusted(start.value.verificationUri))
    ensures Begin(w).Begun? && w.launched ==>
              var o, verdict := OutcomeOf(w), VerdictOf(w.ticks, Deadline(w, Begin(w).start));
              && (o == Ended(Error(CodeUsed)) <==> verdict == Some(Answered(Consumed)))
              && (o == Ended(Error(CodeExpired)) <==>
                    verdict == Some(Answered(Expired)) || (verdict == Some(TimedOut) && !w.cancelledAtEnd))
              && (o == Ended(Error(NotCompleted)) <==> CodeToExchange(w, Begin(w).start).Some? && CookieOf(w).None?)
              && (o == Ended(Error(NotSaved)) <==>
                    CodeToExchange(w, Begin(w).start).Some? && CookieOf(w).Some? && !w.saved)
  {
    hide ParseStartResponse, VerdictOf, Deadline, CookieOf;
    if Begin(w).Begun? { VerdictIsFinal(w.ticks, Deadline(w, Begin(w).start)); }
  }

  // ----- Pace and address ---------------------------------------------------------------------

  lemma {:induction false} LoopWaits(ticks: seq<Tick>, start: StartResponse, expiresAt: real, k: nat)
    requires k < |LoopTrace(ticks, start, expiresAt)| && LoopTrace(ticks, start, expiresAt)[k].Polled?
    ensures var loop := LoopTrace(ticks, start, expiresAt);
            loop[k].token == start.pollToken && k >= 1 && loop[k - 1] == Delay(start.interval)
  {
    hide Final;
    var first := TickTrace(ticks[0], start, expiresAt);
    if k >= |first| { LoopWaits(ticks[1..], start, expiresAt, k - |first|); }
  }

  lemma BeforeWaits(w: World, start: StartResponse, k: nat)
    requires k < |Before(w, start)| && Before(w, start)[k].Polled?
    ensures Before(w, start)[k].token == start.pollToken && k >= 1 && Before(w, start)[k - 1] == Delay(start.interval)
  {
    hide LoopTrace, Deadline;
    LoopWaits(w.ticks, start, Deadline(w, start), k - 3);
  }

  /** Every poll carries the start's token and follows a delay of the start's interval. */
  lemma EveryPollWaits(w: World, k: nat)
    requires Begin(w).Begun? && k < |Trace(w)| && Trace(w)[k].Polled?
    ensures var start := Begin(w).start;
            Trace(w)[k].token == start.pollToken && k >= 1 && Trace(w)[k - 1] == Delay(start.interval)
  {
    hide Begin, Before, TailTrace, Last, Trace;
    assert Trace(w)[k] in Trace(w);
    if w.launched {
      var start := Begin(w).start;
      var before, tail := Before(w, start), TailTrace(w, start) + Last(w);
      TraceParts(w);
      assert k >= |before| ==> Trace(w)[k] == tail[k - |before|] && tail[k - |before|] in tail;
      TailEffects(w, start);
      BeforeWaits(w, start, k);
    } else {
      ShortTraceEffects(w);
    }
  }

  /** The browser is sent to the start's address, which is a trusted approval page, or nowhere. */
  lemma OpensOnlyTrusted(w: World)
    ensures forall e :: e in Trace(w) && e.Open? ==> Begin(w).Begun? && e.uri == Begin(w).start.verificationUri && w.trusted(e.uri)
  {
    hide Begin, LoopTrace, VerdictOf, CookieOf, Deadline, TailTrace, Last, Trace, OutcomeOf;
    StartIsSound(w);
    if Begin(w).Begun? && w.launched {
      var start := Begin(w).start;
      TraceParts(w);
      LoopOnlyPolls(w.ticks, start, Deadline(w, start));
      TailEffects(w, start);
    } else {
      ShortTraceEffects(w);
    }
  }

  // ----- Cancelling ---------------------------------------------------------------------------

  /** Exactly when the flow ends cancelled: seen after a delay, or behind the loop unless that answered otherwise. */
  lemma CancelledIff(w: World)
    ensures OutcomeOf(w) == Ended(Cancelled) <==>
              && Begin(w).Begun? && w.launched
              && var verdict := VerdictOf(w.ticks, Deadline(w, Begin(w).start));
                 && verdict.Some?
                 && (|| verdict.value.SeenCancelled?
                     || (w.cancelledAtEnd && (verdict.value.TimedOut? || verdict.value.poll.Approved?)))
  {
    hide Begin, Deadline, CookieOf;
    VerdictIsFinal(w.ticks, if Begin(w).Begun? then Deadline(w, Begin(w).start) else 0.0);
  }

  lemma {:induction false} VerdictIsFinal(ticks: seq<Tick>, expiresAt: real)
    ensures VerdictOf(ticks, expiresAt).Some? && VerdictOf(ticks, expiresAt).value.Answered? ==>
              !VerdictOf(ticks, expiresAt).value.poll.Pending?
  {
    hide ParsePollResponse;
    if ticks != [] { VerdictIsFinal(ticks[1..], expiresAt); }
  }

  /**
   * A cancel that comes before the k-th turn's check, and stays, ends the flow as cancelled once it ends:
   * at most the first k turns poll, and nothing is exchanged.
   */
  lemma CancelBeforeTheAnswer(w: World, k: nat)
    requires Begin(w).Begun? && w.launched && k <= |w.ticks| && w.cancelledAtEnd
    requires forall j :: k <= j < |w.ticks| ==> w.ticks[j].cancelled
    requires VerdictOf(w.ticks[..k], Deadline(w, Begin(w).start)).None?
    ensures OutcomeOf(w) in {StillWaiting, Ended(Cancelled)}
    ensures |Read(Trace(w)).polls| <= k && Read(Trace(w)).codes == []
  {
    hide Begin, Read, Trace, Deadline, CookieOf, VerdictOf, Polls;
    CancelledLoop(w.ticks, k, Deadline(w, Begin(w).start));
    ReadTrace(w);
  }

  lemma {:induction false} CancelledLoop(ticks: seq<Tick>, k: nat, expiresAt: real)
    requires k <= |ticks| && VerdictOf(ticks[..k], expiresAt).None?
    requires forall j :: k <= j < |ticks| ==> ticks[j].cancelled
    ensures VerdictOf(ticks, expiresAt) in {None, Some(TimedOut), Some(SeenCancelled)}
    ensures |Polls(ticks, expiresAt)| <= k
    decreases |ticks|
  {
    hide Final;
    if ticks != [] && k > 0 {
      assert ticks[..k][0] == ticks[0];
      assert ticks[..k][1..] == ticks[1..][..k - 1];
      CancelledLoop(ticks[1..], k - 1, expiresAt);
    }
  }

  /**
   * An approved attempt whose exchange brings a cookie installs none exactly when the check behind the loop
   * sees a cancel: one that comes later, during the exchange, is not seen at all.
   */
  lemma CancelBeforeTheExchangeIff(w: World, code: string)
    requires Begin(w).Begun? && w.launched && CookieOf(w).Some?
    requires VerdictOf(w.ticks, Deadline(w, Begin(w).start)) == Some(Answered(Approved(code)))
    ensures Read(Trace(w)).cookies == [] <==> w.cancelledAtEnd
    ensures Read(Trace(w)).codes == [] <==> w.cancelledAtEnd
  {
    hide Begin, Read, Trace, Deadline, CookieOf, VerdictOf, Polls;
    ReadTrace(w);
  }

  /** The promise itself fails in one case only: the browser could not be opened. */
  lemma OnlyTheBrowserFails(w: World)
    ensures OutcomeOf(w) == Rejected <==> Begin(w).Begun? && !w.launched
  {
  }

  // ----- How often it polls -------------------------------------------------------------------

  /** Every delay takes at least its interval on the clock that is read. */
  ghost predicate ClockAdvances(ticks: seq<Tick>, interval: real) {
    forall i :: 0 <= i < |ticks| - 1 ==> ticks[i].now + interval * 1000.0 <= ticks[i + 1].now
  }

  lemma {:induction false} LoopPollsBounded(ticks: seq<Tick>, step: real, expiresAt: real)
    requires forall i :: 0 <= i < |ticks| - 1 ==> ticks[i].now + step <= ticks[i + 1].now
    ensures var n := |Polls(ticks, expiresAt)|; n >= 1 ==> ticks[0].now + (n - 1) as real * step < expiresAt
    ensures VerdictOf(ticks, expiresAt).None? && ticks != [] ==>
              ticks[0].now + (|ticks| - 1) as real * step < expiresAt
  {
    hide Final;
    if ticks != [] {
      var n, rest := |Polls(ticks, expiresAt)|, |Polls(ticks[1..], expiresAt)|;
      LoopPollsBounded(ticks[1..], step, expiresAt);
      assert n <= 1 || n == rest + 1;
      assert (1 - 1) as real * step == 0.0;
      if |ticks| > 1 {
        OneMoreStep(ticks[0].now, ticks[1].now, step, rest);
        OneMoreStep(ticks[0].now, ticks[1].now, step, |ticks| - 1);
      }
    }
  }

  lemma OneMoreStep(now: real, next: real, step: real, n: nat)
    requires now + step <= next
    ensures now + n as real * step <= next + (n - 1) as real * step
  {
    assert n as real * step == (n - 1) as real * step + step;
  }

  lemma DivideOut(a: real, b: real, c: real)
    requires c > 0.0
    ensures a * c < b * c ==> a < b
    ensures a * c <= b * c ==> a <= b
  {
    assert (b - a) * c == b * c - a * c;
  }

  lemma WithinCeil(n: nat, expiresIn: real, interval: real)
    requires interval >= 1.0 && 0.0 < expiresIn <= 3600.0 && (n - 1) as real * interval < expiresIn
    ensures n <= Ceil(expiresIn / interval) <= 3600
  {
    var q := expiresIn / interval;
    assert q * interval == expiresIn;
    DivideOut(q, 3600.0, interval);
    DivideOut((n - 1) as real, q, interval);
    CeilIsLeast(q, 3600);
    CeilIsLeast(q, n - 1);
  }

  /** There are at most ceil(expiresIn / interval) polls, so at most 3600, and no later turn is waited for. */
  lemma PollsBounded(w: World)
    requires Begin(w).Begun? && ClockAdvances(w.ticks, Begin(w).start.interval)
    requires w.ticks != [] ==> w.startedAt <= w.ticks[0].now
    ensures var start := Begin(w).start;
            var most := Ceil(start.expiresIn / start.interval);
            && |Read(Trace(w)).polls| <= most <= 3600
            && (|w.ticks| > most ==> OutcomeOf(w) != StillWaiting)
  {
    hide Begin, Read, Trace, VerdictOf, CookieOf, Ceil, Polls;
    var start := Begin(w).start;
    StartIsSound(w);
    LoopPollsBounded(w.ticks, start.interval * 1000.0, Deadline(w, start));
    if w.launched { ReadTrace(w); } else { ReadShortTrace(w); }
    var n := |Polls(w.ticks, Deadline(w, start))|;
    EmptyLoop(w.ticks, Deadline(w, start));
    FitsTheDeadline(w.startedAt, start, if w.ticks == [] then w.startedAt else w.ticks[0].now, if n >= 1 then n else 1);
    if VerdictOf(w.ticks, Deadline(w, start)).None? && w.ticks != [] {
      FitsTheDeadline(w.startedAt, start, w.ticks[0].now, |w.ticks|);
    }
  }

  lemma FitsTheDeadline(startedAt: real, start: StartResponse, first: real, n: nat)
    requires start.interval >= 1.0 && 30.0 <= start.expiresIn <= 3600.0 && n >= 1 && startedAt <= first
    requires first + (n - 1) as real * (start.interval * 1000.0) < startedAt + start.expiresIn * 1000.0 || n == 1
    ensures n <= Ceil(start.expiresIn / start.interval) <= 3600
  {
    hide Ceil;
    assert (n - 1) as real * (start.interval * 1000.0) == ((n - 1) as real * start.interval) * 1000.0;
    WithinCeil(n, start.expiresIn, start.interval);
  }

  lemma EmptyLoop(ticks: seq<Tick>, expiresAt: real)
    ensures ticks == [] ==> Polls(ticks, expiresAt) == []
  {
  }

  lemma StartIsSound(w: World)
    ensures Begin(w).Begun? ==>
              1.0 <= Begin(w).start.interval <= 30.0 && 30.0 <= Begin(w).start.expiresIn <= 3600.0
              && w.trusted(Begin(w).start.verificationUri)
  {
  }

  /** Turns at the given pace from the start on, none of them answered. */
  function Unanswered(startedAt: real, interval: real, n: nat): seq<Tick> {
    seq(n, i requires 0 <= i < n => Tick(startedAt + i as real * (interval * 1000.0), false, Threw))
  }

  /** As many turns as the bound allows fit: they keep the pace and begin before the deadline. */
  lemma UnansweredFit(startedAt: real, start: StartResponse, n: nat)
    requires start.interval >= 1.0 && n <= Ceil(start.expiresIn / start.interval)
    ensures var ticks := Unanswered(startedAt, start.interval, n);
            && ClockAdvances(ticks, start.interval)
            && forall t :: t in ticks ==> t.now < startedAt + start.expiresIn * 1000.0 && !t.cancelled && t.reply.Threw?
  {
    hide Ceil;
    var ticks := Unanswered(startedAt, start.interval, n);
    forall i | 0 <= i < n ensures ticks[i].now < startedAt + start.expiresIn * 1000.0 {
      CeilIsLeast(start.expiresIn / start.interval, i);
      TurnInTime(startedAt, start, i);
    }
    forall i | 0 <= i < n - 1 ensures ticks[i].now + start.interval * 1000.0 <= ticks[i + 1].now {
      assert (i + 1) as real * (start.interval * 1000.0) == i as real * (start.interval * 1000.0) + start.interval * 1000.0;
    }
  }

  /** The bound is reached: every started flow has turns at its pace in which it polls exactly that often. */
  lemma BoundIsReached(w: World)
    requires Begin(w).Begun? && w.launched
    ensures var start := Begin(w).start;
            var most := Ceil(start.expiresIn / start.interval);
            && most >= 0
            && var v := w.(ticks := Unanswered(w.startedAt, start.interval, most));
               Begin(v) == Begin(w) && ClockAdvances(v.ticks, start.interval) && |Read(Trace(v)).polls| == most
  {
    hide VerdictOf, CookieOf, Ceil, Polls, ParseStartResponse, Trace, Read, Unanswered, ClockAdvances;
    StartIsSound(w);
    var start := Begin(w).start;
    var q := start.expiresIn / start.interval;
    QuotientIsPositive(start.expiresIn, start.interval);
    CeilIsLeast(q, -1);
    var most := Ceil(q);
    var v := w.(ticks := Unanswered(w.startedAt, start.interval, most));
    assert Begin(v) == Begin(w);
    hide Begin;
    UnansweredFit(w.startedAt, start, most);
    UnansweredPoll(v.ticks, Deadline(v, start));
    assert |v.ticks| == most by { UnansweredLength(w.startedAt, start.interval, most); }
    ReadTrace(v);
  }

  lemma UnansweredLength(startedAt: real, interval: real, n: nat)
    ensures |Unanswered(startedAt, interval, n)| == n
  {
  }

  lemma QuotientIsPositive(a: real, b: real)
    requires a > 0.0 && b > 0.0
    ensures a / b > 0.0
  {
  }

  lemma TurnInTime(startedAt: real, start: StartResponse, i: nat)
    requires start.interval >= 1.0 && (i as real) < start.expiresIn / start.interval
    ensures startedAt + i as real * (start.interval * 1000.0) < startedAt + start.expiresIn * 1000.0
  {
    var q := start.expiresIn / start.interval;
    assert q * start.interval == start.expiresIn;
    assert (q - i as real) * start.interval > 0.0;
    assert (q - i as real) * start.interval == q * start.interval - i as real * start.interval;
    assert i as real * (start.interval * 1000.0) == (i as real * start.interval) * 1000.0;
  }

  /** Turns before the deadline all poll while no poll brings an answer. */
  lemma {:induction false} UnansweredPoll(ticks: seq<Tick>, expiresAt: real)
    requires forall t :: t in ticks ==> t.now < expiresAt && !t.cancelled && Final(t.reply).None?
    ensures |Polls(ticks, expiresAt)| == |ticks| && VerdictOf(ticks, expiresAt).None?
  {
    hide Final;
    if ticks != [] {
      assert ticks[0] in ticks;
      UnansweredPoll(ticks[1..], expiresAt);
    }
  }
}
