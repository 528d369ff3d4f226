/**
 * Sign-in attempts as the shell starts, supersedes and cancels them. Attempts go on beside each other:
 * a superseded one is only told to stop, and what it still reports must not reach the window.
 */
module LinkRuns {
  import opened Wrappers
  import opened LinkFlow
  import opened LinkProofs

  /** What the window is sent: a run's state, or "idle" after a cancel. */
  datatype Message = FromRun(run: nat, state: LinkState) | Idle

  /** `reported` keeps every state each run reported, sent on or not. */
  datatype Shell = Shell(linkRun: Option<nat>, counter: nat, cancelled: set<nat>, sent: seq<Message>,
                         reported: map<nat, seq<LinkState>>)

  const FRESH := Shell(None, 0, {}, [], map[])

  datatype Event = Start | Cancel | OnState(run: nat, state: LinkState)

  predicate Enabled(s: Shell, e: Event) {
    e.OnState? ==> e.run in s.reported
  }

  function CancelCurrent(s: Shell): set<nat> {
    if s.linkRun.Some? then s.cancelled + {s.linkRun.value} else s.cancelled
  }

  function Step(s: Shell, e: Event): Shell
    requires Enabled(s, e)
  {
    match e
    case Start =>
      s.(cancelled := CancelCurrent(s), counter := s.counter + 1, linkRun := Some(s.counter + 1),
         reported := s.reported[s.counter + 1 := []])
    case Cancel => s.(cancelled := CancelCurrent(s), sent := s.sent + [Idle])
    case OnState(run, state) =>
      var t := s.(reported := s.reported[run := s.reported[run] + [state]]);
      if s.linkRun != Some(run) || run in s.cancelled then t else t.(sent := s.sent + [FromRun(run, state)])
  }

  function Run(s: Shell, es: seq<Event>): Shell
    decreases |es|
  {
    if es == [] then s else Run(if Enabled(s, es[0]) then Step(s, es[0]) else s, es[1..])
  }

  /** The module variables, updated in place by the callbacks. */
  class Callbacks {
    var linkRun: Option<nat>
    var linkRunCounter: nat
    var cancelled: set<nat>
    ghost var sent: seq<Message>
    ghost var reported: map<nat, seq<LinkState>>

    ghost function View(): Shell
      reads this
    {
      Shell(linkRun, linkRunCounter, cancelled, sent, reported)
    }

    constructor ()
      ensures View() == FRESH
    {
      linkRun, linkRunCounter, cancelled, sent, reported := None, 0, {}, [], map[];
    }

    method StartLinkFlow()
      modifies this
      ensures View() == Step(old(View()), Start)
    {
      if linkRun.Some? { cancelled := cancelled + {linkRun.value}; }
      linkRunCounter := linkRunCounter + 1;
      linkRun := Some(linkRunCounter);
      reported := reported[linkRunCounter := []];
    }

    method OnState(run: nat, state: LinkState)
      requires Enabled(View(), Event.OnState(run, state))
      modifies this`sent, this`reported
      ensures View() == Step(old(View()), Event.OnState(run, state))
    {
      reported := reported[run := reported[run] + [state]];
      if linkRun != Some(run) || run in cancelled { return; }
      sent := sent + [FromRun(run, state)];
    }

    method Cancel()
      modifies this`cancelled, this`sent
      ensures View() == Step(old(View()), Event.Cancel)
    {
      if linkRun.Some? { cancelled := cancelled + {linkRun.value}; }
      sent := sent + [Idle];
    }
  }

  // ----- What reaches the window --------------------------------------------------------------

  /** The states of one run among the messages, in order. */
  function Shown(sent: seq<Message>, run: nat): seq<LinkState> {
    if sent == [] then []
    else
      var last := sent[|sent| - 1];
      Shown(sent[..|sent| - 1], run) + if last.FromRun? && last.run == run then [last.state] else []
  }

  lemma ShownAppend(sent: seq<Message>, m: Message, run: nat)
    ensures Shown(sent + [m], run) == Shown(sent, run) + if m.FromRun? && m.run == run then [m.state] else []
  {
    assert (sent + [m])[..|sent|] == sent;
  }

  /** Every message of a run comes after those of the runs before it. */
  predicate Ordered(sent: seq<Message>) {
    forall i, j :: 0 <= i < j < |sent| && sent[i].FromRun? && sent[j].FromRun? ==> sent[i].run <= sent[j].run
  }

  ghost predicate Inv(s: Shell) {
    && s.linkRun == (if s.counter == 0 then None else Some(s.counter))
    && (forall r :: r in s.reported <==> 1 <= r <= s.counter)
    && (forall r :: 1 <= r < s.counter ==> r in s.cancelled)
    && (forall r :: r in s.cancelled ==> 1 <= r <= s.counter)
    && (forall i :: 0 <= i < |s.sent| && s.sent[i].FromRun? ==> s.sent[i].run <= s.counter)
    && Ordered(s.sent)
    && (forall r :: r in s.reported ==> Shown(s.sent, r) <= s.reported[r])
    && (forall r :: r in s.reported && r !in s.cancelled ==> Shown(s.sent, r) == s.reported[r])
  }

  lemma {:induction false} ShownNothing(sent: seq<Message>, run: nat)
    requires forall i :: 0 <= i < |sent| && sent[i].FromRun? ==> sent[i].run < run
    ensures Shown(sent, run) == []
  {
    if sent != [] { ShownNothing(sent[..|sent| - 1], run); }
  }

  lemma StepKeepsInv(s: Shell, e: Event)
    requires Inv(s) && Enabled(s, e)
    ensures Inv(Step(s, e))
  {
    hide Shown;
    match e
    case Start => ShownNothing(s.sent, s.counter + 1);
    case Cancel => forall r ensures Shown(s.sent + [Idle], r) == Shown(s.sent, r) { ShownAppend(s.sent, Idle, r); }
    case OnState(run, state) =>
      forall r ensures Shown(s.sent + [FromRun(run, state)], r) == Shown(s.sent, r) + if r == run then [state] else [] {
        ShownAppend(s.sent, FromRun(run, state), r);
      }
  }

  lemma {:induction false} RunKeepsInv(s: Shell, es: seq<Event>)
    requires Inv(s)
    ensures Inv(Run(s, es))
    decreases |es|
  {
    hide Inv, Step;
    if es != [] {
      if Enabled(s, es[0]) { StepKeepsInv(s, es[0]); }
      RunKeepsInv(if Enabled(s, es[0]) then Step(s, es[0]) else s, es[1..]);
    }
  }

  /** In every run of the shell only the newest attempt can be uncancelled, and attempts reach the window in turn. */
  lemma OnlyTheNewestIsLive(es: seq<Event>)
    ensures var s := Run(FRESH, es);
            && (forall r :: r in s.reported && r !in s.cancelled ==> s.linkRun == Some(r))
            && Ordered(s.sent)
  {
    RunKeepsInv(FRESH, es);
  }

  /** What the window sees of an attempt is the beginning of what it reported, and all of it while it is live. */
  lemma WindowSeesTheBeginning(es: seq<Event>, r: nat)
    requires r in Run(FRESH, es).reported
    ensures var s := Run(FRESH, es);
            && Shown(s.sent, r) <= s.reported[r]
            && (r !in s.cancelled ==> Shown(s.sent, r) == s.reported[r])
  {
    RunKeepsInv(FRESH, es);
  }

  /** The attempt under way is cancelled exactly by the next start or cancel of the shell. */
  lemma {:induction false} CancelledIff(s: Shell, es: seq<Event>, r: nat)
    requires s.linkRun == Some(r) && r !in s.cancelled
    ensures r in Run(s, es).cancelled <==> exists e :: e in es && !e.OnState?
    decreases |es|
  {
    hide Shown;
    if es != [] {
      var e := es[0];
      assert e in es && forall x :: x in es ==> x == e || x in es[1..];
      var t := if Enabled(s, e) then Step(s, e) else s;
      if e.OnState? {
        CancelledIff(t, es[1..], r);
      } else {
        StaysCancelled(t, es[1..], r);
      }
    }
  }

  lemma {:induction false} StaysCancelled(s: Shell, es: seq<Event>, r: nat)
    requires r in s.cancelled
    ensures r in Run(s, es).cancelled
    decreases |es|
  {
    if es != [] { StaysCancelled(if Enabled(s, es[0]) then Step(s, es[0]) else s, es[1..], r); }
  }

  /** What the window is sent: a cancel's "idle", and what the newest attempt reports while it is not cancelled. */
  lemma WindowIsTold(s: Shell, e: Event)
    requires Enabled(s, e)
    ensures Step(s, e).sent == s.sent +
              match e
              case Start => []
              case Cancel => [Idle]
              case OnState(run, state) => if s.linkRun == Some(run) && run !in s.cancelled then [FromRun(run, state)] else []
    ensures Step(s, e).linkRun == (if e.Start? then Some(s.counter + 1) else s.linkRun)
    ensures Step(s, e).counter == s.counter + if e.Start? then 1 else 0
  {
    assert s.sent + [] == s.sent;
  }

  /** Once cancelled or superseded, an attempt stays so and shows nothing more. */
  lemma {:induction false} CancelledStaysSilent(s: Shell, es: seq<Event>, r: nat)
    requires r in s.cancelled
    ensures var t := Run(s, es); r in t.cancelled && Shown(t.sent, r) == Shown(s.sent, r)
    decreases |es|
  {
    hide Shown;
    if es != [] {
      var e := es[0];
      var t := if Enabled(s, e) then Step(s, e) else s;
      ShownAppend(s.sent, Idle, r);
      if e.OnState? { ShownAppend(s.sent, FromRun(e.run, e.state), r); }
      CancelledStaysSilent(t, es[1..], r);
    }
  }

  /**
   * Of an attempt that reports what its flow does, the window sees a proper order too: at most the last
   * state shown is a terminal one, and an attempt shown to its end shows the flow's outcome.
   */
  lemma WindowSeesOneTerminal(es: seq<Event>, r: nat, w: World)
    requires r in Run(FRESH, es).reported && Run(FRESH, es).reported[r] <= Read(Trace(w)).reports
    ensures var shown := Shown(Run(FRESH, es).sent, r);
            && (forall i :: 0 <= i < |shown| - 1 ==> !Terminal(shown[i]))
            && (shown != [] && Terminal(shown[|shown| - 1]) ==> OutcomeOf(w) == Ended(shown[|shown| - 1]))
  {
    hide Read, Trace, OutcomeOf, Run;
    WindowSeesTheBeginning(es, r);
    ReportsInOrder(w);
    var shown, reports := Shown(Run(FRESH, es).sent, r), Read(Trace(w)).reports;
    TerminalIsLast(reports, OutcomeOf(w));
    assert forall i :: 0 <= i < |shown| ==> shown[i] == reports[i];
  }

  lemma TerminalIsLast(reports: seq<LinkState>, outcome: Outcome)
    requires InOrder(reports, outcome)
    ensures forall i :: 0 <= i < |reports| && Terminal(reports[i]) ==> i == |reports| - 1 && outcome == Ended(reports[i])
  {
    var middle := if outcome.Ended? then reports[1..|reports| - 1] else reports[1..];
    assert reports == [reports[0]] + middle + if outcome.Ended? then [outcome.state] else [];
  }
}
