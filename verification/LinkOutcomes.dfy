/** What every sign-in comes to, read off the answers, the clock and the cancels alone. */
module LinkOutcomes {
  import opened Wrappers
  import opened Json
  import opened LinkFlow
  import opened LinkProofs

  // ----- What a turn says ---------------------------------------------------------------------

  /** An answer that is not a 429 and is a record with this status. */
  predicate Says(reply: Reply, status: string) {
    reply.Answer? && reply.status != 429 && AsRecord(reply.body).Some? && Get(AsRecord(reply.body).value, "status") == Str(status)
  }

  /** It says approved, with a well-formed code. */
  predicate Approves(reply: Reply, code: string) {
    Says(reply, "approved") && TextOf(AsRecord(reply.body).value, "authCode") == Some(code) && AuthCode(code)
  }

  /** It threw, was a 429, cannot be read, or says pending: none of the three answers that end the wait. */
  ghost predicate SaysNothing(reply: Reply) {
    !Says(reply, "expired") && !Says(reply, "consumed") && forall code :: !Approves(reply, code)
  }

  /** The turn begins before the deadline and no cancel is seen after its delay. */
  predicate InTime(t: Tick, deadline: real) {
    t.now < deadline && !t.cancelled
  }

  /** The loop gets to this turn: every earlier one polled and heard nothing. */
  ghost predicate Reaches(ticks: seq<Tick>, deadline: real, k: nat) {
    k < |ticks| && forall j :: 0 <= j < k ==> InTime(ticks[j], deadline) && SaysNothing(ticks[j].reply)
  }

  lemma FinalSays(reply: Reply)
    ensures Final(reply).None? <==> SaysNothing(reply)
    ensures Final(reply) == Some(Expired) <==> Says(reply, "expired")
    ensures Final(reply) == Some(Consumed) <==> Says(reply, "consumed")
    ensures forall code :: Final(reply) == Some(Approved(code)) <==> Approves(reply, code)
  {
    hide AuthCode;
    if Final(reply).Some? && Final(reply).value.Approved? {
      assert Approves(reply, Final(reply).value.authCode);
    }
  }

  /** The turn the loop gets to gives its verdict, if it has one. */
  lemma {:induction false} VerdictAt(ticks: seq<Tick>, deadline: real, k: nat)
    requires Reaches(ticks, deadline, k) && !(InTime(ticks[k], deadline) && SaysNothing(ticks[k].reply))
    ensures VerdictOf(ticks, deadline) == Judge(ticks[k], deadline)
  {
    hide Final, SaysNothing;
    FinalSays(ticks[0].reply);
    if k > 0 {
      assert InTime(ticks[0], deadline) && SaysNothing(ticks[0].reply);
      assert Reaches(ticks[1..], deadline, k - 1) by {
        forall j | 0 <= j < k - 1 ensures InTime(ticks[1..][j], deadline) && SaysNothing(ticks[1..][j].reply) {
          assert ticks[1..][j] == ticks[j + 1];
        }
      }
      VerdictAt(ticks[1..], deadline, k - 1);
    }
  }

  /** The first turn with a verdict, or none in the whole loop. */
  lemma {:induction false} FirstVerdict(ticks: seq<Tick>, deadline: real) returns (k: nat)
    ensures VerdictOf(ticks, deadline).None? <==> forall t :: t in ticks ==> InTime(t, deadline) && SaysNothing(t.reply)
    ensures VerdictOf(ticks, deadline).Some? ==> Reaches(ticks, deadline, k) && VerdictOf(ticks, deadline) == Judge(ticks[k], deadline)
  {
    hide Final, SaysNothing;
    k := 0;
    if ticks != [] {
      FinalSays(ticks[0].reply);
      assert ticks[0] in ticks;
      if Judge(ticks[0], deadline).None? {
        k := FirstVerdict(ticks[1..], deadline);
        forall t | t in ticks ensures t == ticks[0] || t in ticks[1..] {
          assert ticks == [ticks[0]] + ticks[1..];
        }
        if VerdictOf(ticks[1..], deadline).Some? {
          forall j | 0 <= j < k + 1 ensures InTime(ticks[j], deadline) && SaysNothing(ticks[j].reply) {
            if j > 0 { assert ticks[1..][j - 1] == ticks[j]; }
          }
          k := k + 1;
        }
      }
    }
  }

  // ----- What the loop comes to ---------------------------------------------------------------

  ghost predicate HearsApproval(ticks: seq<Tick>, deadline: real, code: string) {
    exists k: nat :: Reaches(ticks, deadline, k) && InTime(ticks[k], deadline) && Approves(ticks[k].reply, code)
  }

  ghost predicate Hears(ticks: seq<Tick>, deadline: real, status: string) {
    exists k: nat :: Reaches(ticks, deadline, k) && InTime(ticks[k], deadline) && Says(ticks[k].reply, status)
  }

  /** A turn is reached at which the deadline is over. */
  ghost predicate RunsOut(ticks: seq<Tick>, deadline: real) {
    exists k: nat :: Reaches(ticks, deadline, k) && ticks[k].now >= deadline
  }

  /** A turn is reached that begins in time and sees a cancel. */
  ghost predicate SeesCancel(ticks: seq<Tick>, deadline: real) {
    exists k: nat :: Reaches(ticks, deadline, k) && ticks[k].now < deadline && ticks[k].cancelled
  }

  ghost predicate Unheard(ticks: seq<Tick>, deadline: real) {
    forall t :: t in ticks ==> InTime(t, deadline) && SaysNothing(t.reply)
  }

  lemma JudgeSays(t: Tick, deadline: real)
    ensures Judge(t, deadline).None? <==> InTime(t, deadline) && SaysNothing(t.reply)
    ensures Judge(t, deadline) == Some(TimedOut) <==> t.now >= deadline
    ensures Judge(t, deadline) == Some(SeenCancelled) <==> t.now < deadline && t.cancelled
    ensures Judge(t, deadline) == Some(Answered(Expired)) <==> InTime(t, deadline) && Says(t.reply, "expired")
    ensures Judge(t, deadline) == Some(Answered(Consumed)) <==> InTime(t, deadline) && Says(t.reply, "consumed")
    ensures forall code :: Judge(t, deadline) == Some(Answered(Approved(code))) <==> InTime(t, deadline) && Approves(t.reply, code)
  {
    hide Final, SaysNothing, Says, Approves;
    FinalSays(t.reply);
  }

  /** A turn reached gives this verdict. */
  ghost predicate Gives(ticks: seq<Tick>, deadline: real, k: nat, v: Verdict) {
    Reaches(ticks, deadline, k) && Judge(ticks[k], deadline) == Some(v)
  }

  /** The loop's verdict is that of a turn reached, whichever it is. */
  lemma VerdictIff(ticks: seq<Tick>, deadline: real, v: Verdict)
    ensures VerdictOf(ticks, deadline) == Some(v) <==> exists k: nat :: Gives(ticks, deadline, k, v)
    ensures VerdictOf(ticks, deadline).None? <==> Unheard(ticks, deadline)
  {
    hide VerdictOf, Judge, SaysNothing;
    var first := FirstVerdict(ticks, deadline);
    if VerdictOf(ticks, deadline) == Some(v) { assert Gives(ticks, deadline, first, v); }
    forall k: nat | Gives(ticks, deadline, k, v) ensures VerdictOf(ticks, deadline) == Some(v) {
      JudgeSays(ticks[k], deadline);
      VerdictAt(ticks, deadline, k);
    }
  }

  lemma TurnsSay(ticks: seq<Tick>, deadline: real, k: nat)
    requires Reaches(ticks, deadline, k)
    ensures Gives(ticks, deadline, k, TimedOut) <==> ticks[k].now >= deadline
    ensures Gives(ticks, deadline, k, SeenCancelled) <==> ticks[k].now < deadline && ticks[k].cancelled
    ensures Gives(ticks, deadline, k, Answered(Expired)) <==> InTime(ticks[k], deadline) && Says(ticks[k].reply, "expired")
    ensures Gives(ticks, deadline, k, Answered(Consumed)) <==> InTime(ticks[k], deadline) && Says(ticks[k].reply, "consumed")
    ensures forall code :: Gives(ticks, deadline, k, Answered(Approved(code))) <==> InTime(ticks[k], deadline) && Approves(ticks[k].reply, code)
  {
    hide Judge, SaysNothing, Says, Approves;
    JudgeSays(ticks[k], deadline);
  }

  lemma ClockAndCancelIff(ticks: seq<Tick>, deadline: real)
    ensures VerdictOf(ticks, deadline) == Some(TimedOut) <==> RunsOut(ticks, deadline)
    ensures VerdictOf(ticks, deadline) == Some(SeenCancelled) <==> SeesCancel(ticks, deadline)
  {
    VerdictIff(ticks, deadline, TimedOut);
    VerdictIff(ticks, deadline, SeenCancelled);
    hide VerdictOf, Judge, Says, Approves, SaysNothing, Unheard;
    forall k: nat | Reaches(ticks, deadline, k)
      ensures Gives(ticks, deadline, k, TimedOut) <==> ticks[k].now >= deadline
      ensures Gives(ticks, deadline, k, SeenCancelled) <==> ticks[k].now < deadline && ticks[k].cancelled
    {
      TurnsSay(ticks, deadline, k);
    }
  }

  lemma RefusalIff(ticks: seq<Tick>, deadline: real)
    ensures VerdictOf(ticks, deadline) == Some(Answered(Expired)) <==> Hears(ticks, deadline, "expired")
    ensures VerdictOf(ticks, deadline) == Some(Answered(Consumed)) <==> Hears(ticks, deadline, "consumed")
  {
    VerdictIff(ticks, deadline, Answered(Expired));
    VerdictIff(ticks, deadline, Answered(Consumed));
    hide VerdictOf, Judge, Says, Approves, SaysNothing, Unheard;
    forall k: nat | Reaches(ticks, deadline, k)
      ensures Gives(ticks, deadline, k, Answered(Expired)) <==> InTime(ticks[k], deadline) && Says(ticks[k].reply, "expired")
      ensures Gives(ticks, deadline, k, Answered(Consumed)) <==> InTime(ticks[k], deadline) && Says(ticks[k].reply, "consumed")
    {
      TurnsSay(ticks, deadline, k);
    }
  }

  lemma ApprovalIff(ticks: seq<Tick>, deadline: real, code: string)
    ensures VerdictOf(ticks, deadline) == Some(Answered(Approved(code))) <==> HearsApproval(ticks, deadline, code)
  {
    VerdictIff(ticks, deadline, Answered(Approved(code)));
    hide VerdictOf, Judge, Says, Approves, SaysNothing, Unheard;
    forall k: nat | Reaches(ticks, deadline, k)
      ensures Gives(ticks, deadline, k, Answered(Approved(code))) <==> InTime(ticks[k], deadline) && Approves(ticks[k].reply, code)
    {
      TurnsSay(ticks, deadline, k);
    }
  }

  // ----- What the flow comes to ---------------------------------------------------------------

  /** The start was answered with 200 and a sound body, whose page is a trusted one. */
  predicate Started(w: World, start: StartResponse) {
    w.start.Answer? && w.start.status == 200 && AsRecord(w.start.body).Some? && Starts(AsRecord(w.start.body).value, start)
    && w.trusted(start.verificationUri)
  }

  /** The exchange was answered with 200 and carries this cookie. */
  predicate Brings(w: World, c: Cookie) {
    w.exchange.Answer? && w.exchange.status == 200 && Carries(w.exchange.body, w.sessionName, c)
  }

  /** When the code runs out. */
  function RunsUntil(w: World, start: StartResponse): real {
    w.startedAt + start.expiresIn * 1000.0
  }

  /** The code a flow has to exchange: the loop hears its approval, and no cancel is seen behind the loop. */
  ghost predicate GetsCode(w: World, start: StartResponse, code: string) {
    HearsApproval(w.ticks, RunsUntil(w, start), code) && !w.cancelledAtEnd
  }

  lemma BegunIff(w: World, start: StartResponse)
    ensures Begin(w) == Begun(start) <==> Started(w, start)
  {
    hide Starts;
  }

  lemma CookieIff(w: World)
    ensures forall c :: CookieOf(w) == Some(c) <==> Brings(w, c)
    ensures CookieOf(w).Some? <==> exists c :: Brings(w, c)
  {
    hide Carries;
    if CookieOf(w).Some? { assert Brings(w, CookieOf(w).value); }
  }

  lemma CodeIff(w: World, start: StartResponse)
    requires Started(w, start)
    ensures var v := VerdictOf(w.ticks, RunsUntil(w, start));
            && (v.Some? && v.value.Answered? && v.value.poll.Approved? <==>
                  exists code :: HearsApproval(w.ticks, RunsUntil(w, start), code))
            && (CodeToExchange(w, start).Some? <==> exists code :: GetsCode(w, start, code))
            && (forall code :: CodeToExchange(w, start) == Some(code) <==> GetsCode(w, start, code))
  {
    hide Started, HearsApproval, VerdictOf;
    var v := VerdictOf(w.ticks, RunsUntil(w, start));
    forall code ensures v == Some(Answered(Approved(code))) <==> HearsApproval(w.ticks, RunsUntil(w, start), code) {
      ApprovalIff(w.ticks, RunsUntil(w, start), code);
    }
    if v.Some? && v.value.Answered? && v.value.poll.Approved? {
      assert HearsApproval(w.ticks, RunsUntil(w, start), v.value.poll.authCode);
      assert !w.cancelledAtEnd ==> GetsCode(w, start, v.value.poll.authCode);
    }
  }

  lemma OutcomeByVerdict(w: World, start: StartResponse)
    requires Begin(w) == Begun(start) && w.launched
    ensures var o, v, code := OutcomeOf(w), VerdictOf(w.ticks, RunsUntil(w, start)), CodeToExchange(w, start);
            && (o == StillWaiting <==> v.None?)
            && (o == Ended(Error(CodeUsed)) <==> v == Some(Answered(Consumed)))
            && (o == Ended(Error(CodeExpired)) <==> v == Some(Answered(Expired)) || (v == Some(TimedOut) && !w.cancelledAtEnd))
            && (o == Ended(Cancelled) <==>
                  || v == Some(SeenCancelled)
                  || (w.cancelledAtEnd && (v == Some(TimedOut) || (v.Some? && v.value.Answered? && v.value.poll.Approved?))))
            && (o == Ended(Error(NotCompleted)) <==> code.Some? && CookieOf(w).None?)
            && (o == Ended(Error(NotSaved)) <==> code.Some? && CookieOf(w).Some? && !w.saved)
            && (o == Ended(Success) <==> code.Some? && CookieOf(w).Some? && w.saved)
  {
    hide Begin, VerdictOf, CookieOf;
    VerdictIsFinal(w.ticks, RunsUntil(w, start));
  }

  /**
   * A started flow's end, exactly: it waits on while every turn polls and hears nothing; "used" and
   * "expired" are heard, the latter also when the time runs out; cancelled is a cancel seen in the loop or,
   * once that is over without a refusal, behind it; an approved code brings a cookie or not; and success is
   * that cookie saved.
   */
  lemma OutcomeIff(w: World, start: StartResponse)
    requires Started(w, start) && w.launched
    ensures var o, until := OutcomeOf(w), RunsUntil(w, start);
            && (o == StillWaiting <==> Unheard(w.ticks, until))
            && (o == Ended(Error(CodeUsed)) <==> Hears(w.ticks, until, "consumed"))
            && (o == Ended(Error(CodeExpired)) <==>
                  Hears(w.ticks, until, "expired") || (RunsOut(w.ticks, until) && !w.cancelledAtEnd))
            && (o == Ended(Cancelled) <==>
                  || SeesCancel(w.ticks, until)
                  || (w.cancelledAtEnd && (RunsOut(w.ticks, until) || exists code :: HearsApproval(w.ticks, until, code))))
            && (o == Ended(Error(NotCompleted)) <==> (exists code :: GetsCode(w, start, code)) && forall c :: !Brings(w, c))
            && (o == Ended(Error(NotSaved)) <==> (exists code :: GetsCode(w, start, code)) && (exists c :: Brings(w, c)) && !w.saved)
            && (o == Ended(Success) <==> (exists code :: GetsCode(w, start, code)) && (exists c :: Brings(w, c)) && w.saved)
  {
    BegunIff(w, start);
    ClockAndCancelIff(w.ticks, RunsUntil(w, start));
    RefusalIff(w.ticks, RunsUntil(w, start));
    VerdictIff(w.ticks, RunsUntil(w, start), TimedOut);
    OutcomeByVerdict(w, start);
    CodeIff(w, start);
    CookieIff(w);
    hide *;
  }

  /** A code is exchanged exactly when a flow that started hears its approval and sees no cancel behind the loop. */
  lemma ExchangesIff(w: World, code: string)
    ensures Read(Trace(w)).codes == [code] <==> w.launched && exists start :: Started(w, start) && GetsCode(w, start, code)
  {
    hide CodeToExchange, CookieOf, GetsCode, Read, Trace, Polls, Begin, Started, OutcomeOf;
    forall start ensures Begin(w) == Begun(start) <==> Started(w, start) { BegunIff(w, start); }
    if Begin(w).Begun? && w.launched {
      CodeIff(w, Begin(w).start);
      ReadTrace(w);
    } else {
      ReadShortTrace(w);
    }
  }

  /** A cookie is installed exactly when a code is exchanged and brings it. */
  lemma InstallsIff(w: World, c: Cookie)
    ensures Read(Trace(w)).cookies == [(c, w.saved)] <==>
              && w.launched && Brings(w, c)
              && exists start, code :: Started(w, start) && GetsCode(w, start, code)
  {
    hide CodeToExchange, CookieOf, GetsCode, Read, Trace, Polls, Begin, Started, OutcomeOf, Brings;
    forall start ensures Begin(w) == Begun(start) <==> Started(w, start) { BegunIff(w, start); }
    CookieIff(w);
    if Begin(w).Begun? && w.launched {
      CodeIff(w, Begin(w).start);
      ReadTrace(w);
      if CodeToExchange(w, Begin(w).start).Some? {
        assert Started(w, Begin(w).start) && GetsCode(w, Begin(w).start, CodeToExchange(w, Begin(w).start).value);
      }
    } else {
      ReadShortTrace(w);
    }
  }

  /** A flow that starts shows its code, address and end first and then opens that address; no other flow opens any. */
  lemma ShowsAndOpensIff(w: World, start: StartResponse)
    ensures Started(w, start) ==>
              && |Trace(w)| >= 3
              && Trace(w)[1] == Report(Waiting(start.userCode, start.verificationUri, RunsUntil(w, start)))
              && Trace(w)[2] == Open(start.verificationUri)
    ensures Open(start.verificationUri) in Trace(w) <==> exists s :: Started(w, s) && s.verificationUri == start.verificationUri
  {
    hide Begin, Started, LoopTrace, VerdictOf, CookieOf;
    forall s ensures Begin(w) == Begun(s) <==> Started(w, s) { BegunIff(w, s); }
    OpensOnlyTrusted(w);
    if Begin(w).Begun? {
      assert Trace(w)[2] == Open(Begin(w).start.verificationUri) && Trace(w)[2] in Trace(w);
    }
  }

  /**
   * Signing in succeeds exactly when a flow that started gets a code, the exchange brings a cookie, and that is
   * saved.
   */
  lemma SuccessIff(w: World)
    ensures OutcomeOf(w) == Ended(Success) <==>
              && w.launched && w.saved
              && (exists start, code :: Started(w, start) && GetsCode(w, start, code))
              && exists c :: Brings(w, c)
  {
    hide Started, GetsCode, Brings, OutcomeOf, Begin;
    forall s ensures Begin(w) == Begun(s) <==> Started(w, s) { BegunIff(w, s); }
    if Begin(w).Begun? && w.launched {
      OutcomeIff(w, Begin(w).start);
    } else {
      NoSuccess(w);
    }
  }

  lemma NoSuccess(w: World)
    requires !(Begin(w).Begun? && w.launched)
    ensures OutcomeOf(w) != Ended(Success)
  {
  }

  function Replies(ticks: seq<Tick>): seq<Reply> {
    seq(|ticks|, i requires 0 <= i < |ticks| => ticks[i].reply)
  }

  /**
   * The polls sent are those of the turns gone through, and of the turn that ends the loop if it begins in time
   * and sees no cancel.
   */
  lemma {:induction false} PollsAre(ticks: seq<Tick>, deadline: real, k: nat)
    requires Reaches(ticks, deadline, k) && !(InTime(ticks[k], deadline) && SaysNothing(ticks[k].reply))
    ensures Polls(ticks, deadline) == Replies(if InTime(ticks[k], deadline) then ticks[..k + 1] else ticks[..k])
  {
    hide Final, SaysNothing;
    FinalSays(ticks[0].reply);
    var gone := if InTime(ticks[k], deadline) then ticks[..k + 1] else ticks[..k];
    if k > 0 {
      assert InTime(ticks[0], deadline) && SaysNothing(ticks[0].reply);
      assert Reaches(ticks[1..], deadline, k - 1) by {
        forall j | 0 <= j < k - 1 ensures InTime(ticks[1..][j], deadline) && SaysNothing(ticks[1..][j].reply) {
          assert ticks[1..][j] == ticks[j + 1];
        }
      }
      PollsAre(ticks[1..], deadline, k - 1);
      assert Replies(gone) == [ticks[0].reply] + Replies(gone[1..]);
      assert ticks[..k + 1][1..] == ticks[1..][..k] && ticks[..k][1..] == ticks[1..][..k - 1];
    } else if InTime(ticks[0], deadline) {
      assert gone == [ticks[0]];
    } else {
      assert gone == [];
    }
  }

  function Delays(es: seq<Effect>): nat {
    if es == [] then 0 else (if es[0].Delay? then 1 else 0) + Delays(es[1..])
  }

  lemma {:induction false} DelaysAppend(a: seq<Effect>, b: seq<Effect>)
    ensures Delays(a + b) == Delays(a) + Delays(b)
  {
    if a == [] {
      assert a + b == b;
    } else {
      assert (a + b)[1..] == a[1..] + b;
      DelaysAppend(a[1..], b);
    }
  }

  lemma TickDelays(t: Tick, start: StartResponse, deadline: real)
    ensures Delays(TickTrace(t, start, deadline)) == if t.now < deadline then 1 else 0
  {
    var delay, poll := Delay(start.interval), Polled(start.pollToken, t.reply);
    NoDelays();
    assert [delay][1..] == [] && [poll][1..] == [];
    assert Delays([delay]) == 1 && Delays([poll]) == 0;
    DelaysAppend([delay], [poll]);
    assert [delay] + [poll] == [delay, poll];
  }

  /** Every turn that begins in time waits once, before it looks for a cancel. */
  lemma {:induction false} DelaysAre(ticks: seq<Tick>, start: StartResponse, deadline: real, k: nat)
    requires Reaches(ticks, deadline, k) && !(InTime(ticks[k], deadline) && SaysNothing(ticks[k].reply))
    ensures Delays(LoopTrace(ticks, start, deadline)) == k + if ticks[k].now < deadline then 1 else 0
  {
    hide Final, SaysNothing, Delays, TickTrace;
    FinalSays(ticks[0].reply);
    TickDelays(ticks[0], start, deadline);
    var rest := if Judge(ticks[0], deadline).Some? then [] else LoopTrace(ticks[1..], start, deadline);
    DelaysAppend(TickTrace(ticks[0], start, deadline), rest);
    if k > 0 {
      assert InTime(ticks[0], deadline) && SaysNothing(ticks[0].reply);
      assert Reaches(ticks[1..], deadline, k - 1) by {
        forall j | 0 <= j < k - 1 ensures InTime(ticks[1..][j], deadline) && SaysNothing(ticks[1..][j].reply) {
          assert ticks[1..][j] == ticks[j + 1];
        }
      }
      DelaysAre(ticks[1..], start, deadline, k - 1);
    } else {
      NoDelays();
    }
  }

  lemma NoDelays()
    ensures Delays([]) == 0
  {
  }
}
