/**
 * Offering a new web release: which release the open page belongs to, and when to ask. Page loads, the
 * answers to their release requests, checks and dialogs interleave in any order. A release is its id.
 */
module WebRelease {
  import opened Wrappers
  import opened UpdatePolicy

  datatype Dismissal = Dismissal(id: string, until: int)

  /**
   * `pageRelease` is the baseline. `loads` are the page loads whose request is unanswered, `checks` the
   * checks waiting for theirs, `dialogs` the releases asked about right now.
   */
  datatype Web = Web(
    pageRelease: Option<string>, dismissed: Option<Dismissal>, promptOpen: bool, loadSeq: nat, loadPending: bool,
    loads: set<nat>, checks: nat, dialogs: multiset<string>)

  const FRESH := Web(None, None, false, 0, false, {}, 0, multiset{})

  datatype Event =
    | PageLoaded
    | LoadAnswered(load: nat, release: Option<string>)
    | CheckStarted(windowOpen: bool)
    | CheckAnswered(release: Option<string>, now: int, inMatch: bool)
    | DialogAnswered(id: string, accept: bool, now: int)

  predicate Enabled(w: Web, e: Event) {
    match e
    case LoadAnswered(load, _) => load in w.loads
    case CheckAnswered(_, _, _) => w.checks > 0
    case DialogAnswered(id, _, _) => id in w.dialogs
    case _ => true
  }

  /** Ask about `latest`? Not about the page's own release, not before a "Later" runs out, not during a match. */
  predicate ShouldPrompt(page: string, latest: string, dismissed: Option<Dismissal>, now: int, inMatch: bool) {
    && latest != page
    && !(dismissed.Some? && dismissed.value.id == latest && dismissed.value.until > now)
    && !inMatch
  }

  function Step(w: Web, e: Event): Web
    requires Enabled(w, e)
  {
    match e
    case PageLoaded =>
      w.(loadSeq := w.loadSeq + 1, pageRelease := None, loadPending := true, loads := w.loads + {w.loadSeq + 1})
    case LoadAnswered(load, release) =>
      var t := w.(loads := w.loads - {load});
      if load != w.loadSeq then t
      else t.(loadPending := false, pageRelease := if release.Some? then release else w.pageRelease)
    case CheckStarted(windowOpen) =>
      if w.promptOpen || w.loadPending || !windowOpen then w else w.(checks := w.checks + 1)
    case CheckAnswered(release, now, inMatch) =>
      var t := w.(checks := w.checks - 1);
      if release.None? then t
      else if w.pageRelease.None? then (if w.loadPending then t else t.(pageRelease := release))
      else if !ShouldPrompt(w.pageRelease.value, release.value, w.dismissed, now, inMatch) then t
      else t.(promptOpen := true, dialogs := w.dialogs + multiset{release.value})
    case DialogAnswered(id, accept, now) =>
      var t := w.(promptOpen := false, dialogs := w.dialogs - multiset{id});
      if accept then t.(pageRelease := Some(id), dismissed := None)
      else t.(dismissed := Some(Dismissal(id, now + WEB_RELEASE_LATER_MS)))
  }

  function Run(w: Web, es: seq<Event>): Web
    decreases |es|
  {
    if es == [] then w else Run(if Enabled(w, es[0]) then Step(w, es[0]) else w, es[1..])
  }

  // ----- The newest load decides --------------------------------------------------------------

  ghost predicate NewestPending(w: Web) {
    && (w.loadPending <==> w.loadSeq in w.loads)
    && (forall k :: k in w.loads ==> 0 < k <= w.loadSeq)
  }

  lemma StepKeepsNewestPending(w: Web, e: Event)
    requires NewestPending(w) && Enabled(w, e)
    ensures NewestPending(Step(w, e))
  {
    hide ShouldPrompt;
  }

  lemma {:induction false} RunKeepsNewestPending(w: Web, es: seq<Event>)
    requires NewestPending(w)
    ensures NewestPending(Run(w, es))
    decreases |es|
  {
    hide NewestPending, Step, Enabled;
    if es != [] {
      if Enabled(w, es[0]) { StepKeepsNewestPending(w, es[0]); }
      RunKeepsNewestPending(if Enabled(w, es[0]) then Step(w, es[0]) else w, es[1..]);
    }
  }

  /** In every run, a load is pending exactly while the newest one is unanswered. */
  lemma PendingIffNewestUnanswered(es: seq<Event>)
    ensures var w := Run(FRESH, es); w.loadPending <==> w.loadSeq in w.loads
  {
    RunKeepsNewestPending(FRESH, es);
  }

  /** The answer to an older load only ceases to be awaited. */
  lemma OlderAnswerChangesNothing(w: Web, load: nat, release: Option<string>)
    requires load in w.loads && load != w.loadSeq
    ensures Step(w, LoadAnswered(load, release)) == w.(loads := w.loads - {load})
  {
  }

  /**
   * What the baseline is after an event: none after a page load; the release brought by the newest load's
   * answer, or by a check's while there is none and no load is unanswered; the release accepted; else what
   * it was.
   */
  lemma BaselineMoves(w: Web, e: Event)
    requires NewestPending(w) && Enabled(w, e)
    ensures Step(w, e).pageRelease ==
              if e.PageLoaded? then None
              else if e.LoadAnswered? && e.load == w.loadSeq && e.release.Some? then e.release
              else if e.CheckAnswered? && e.release.Some? && w.pageRelease.None? && w.loadSeq !in w.loads then e.release
              else if e.DialogAnswered? && e.accept then Some(e.id)
              else w.pageRelease
  {
  }

  /** From a page load until its own answer, nothing but an acceptance gives the page a release. */
  lemma {:induction false} PendingPageHasNoRelease(w: Web, es: seq<Event>)
    requires w.loadPending && w.pageRelease.None?
    requires forall e :: e in es ==> !(e.DialogAnswered? && e.accept) && (e.LoadAnswered? ==> e.load < w.loadSeq)
    ensures Run(w, es).loadPending && Run(w, es).pageRelease.None?
    decreases |es|
  {
    if es != [] {
      assert es[0] in es;
      PendingPageHasNoRelease(if Enabled(w, es[0]) then Step(w, es[0]) else w, es[1..]);
    }
  }

  // ----- Dialogs ------------------------------------------------------------------------------

  /**
   * A dialog opens exactly when the page has a release, the answer brings another, no "Later" for that one
   * still runs and no match is on; and it is for the release brought.
   */
  lemma DialogOpensIff(w: Web, e: Event)
    requires Enabled(w, e) && !e.DialogAnswered?
    ensures var t := Step(w, e);
            var opens := && e.CheckAnswered? && e.release.Some? && w.pageRelease.Some? && e.release != w.pageRelease && !e.inMatch
                         && !(w.dismissed.Some? && Some(w.dismissed.value.id) == e.release && e.now < w.dismissed.value.until);
            && (t.dialogs == if opens then w.dialogs + multiset{e.release.value} else w.dialogs)
            && (t.promptOpen <==> opens || w.promptOpen)
            && t.dismissed == w.dismissed
  {
  }

  /** A check asks for the release exactly when a window is open, no dialog is and no load is unanswered. */
  lemma CheckAsksIff(w: Web, e: Event)
    requires NewestPending(w) && Enabled(w, e)
    ensures var starts := e.CheckStarted? && e.windowOpen && !w.promptOpen && w.loadSeq !in w.loads;
            Step(w, e).checks == w.checks + (if starts then 1 else 0) - (if e.CheckAnswered? then 1 else 0)
  {
    hide ShouldPrompt;
  }

  /** A check's answer moves the baseline only while no load is unanswered, and opens a dialog only then not. */
  lemma AnswerOpensOrMoves(w: Web, release: Option<string>, now: int, inMatch: bool)
    requires NewestPending(w) && w.checks > 0
    ensures var t := Step(w, CheckAnswered(release, now, inMatch));
            && (t.pageRelease != w.pageRelease ==> t.loadSeq !in t.loads && t.dialogs == w.dialogs)
            && (t.dialogs != w.dialogs ==> t.pageRelease.Some? && release != t.pageRelease && !inMatch)
  {
  }

  /** "Later" keeps the release from being asked about again until it runs out. */
  lemma LaterHolds(w: Web, id: string, accept: bool, now: int)
    requires id in w.dialogs
    ensures var t := Step(w, DialogAnswered(id, accept, now));
            && t.pageRelease == (if accept then Some(id) else w.pageRelease)
            && t.dismissed == (if accept then None else Some(Dismissal(id, now + 7_200_000)))
            && !t.promptOpen && t.dialogs == w.dialogs - multiset{id}
            && (!accept && t.pageRelease.Some? ==>
                  forall at :: at < now + WEB_RELEASE_LATER_MS ==>
                    !ShouldPrompt(t.pageRelease.value, id, t.dismissed, at, false))
  {
  }

  lemma {:induction false} DismissalStands(w: Web, es: seq<Event>)
    requires forall e :: e in es ==> !e.DialogAnswered?
    ensures Run(w, es).dismissed == w.dismissed
    decreases |es|
  {
    hide Step, Enabled;
    if es != [] {
      assert es[0] in es;
      if Enabled(w, es[0]) { DialogOpensIff(w, es[0]); }
      DismissalStands(Next(w, es[0]), es[1..]);
    }
  }

  /** Put off, the release is asked about again, whatever happened since, exactly two hours on at the earliest. */
  lemma AskedAgainIff(w: Web, id: string, now: int, es: seq<Event>, at: int, inMatch: bool)
    requires id in w.dialogs && forall e :: e in es ==> !e.DialogAnswered?
    requires Run(Step(w, DialogAnswered(id, false, now)), es).checks > 0
    ensures var t := Run(Step(w, DialogAnswered(id, false, now)), es);
            Step(t, CheckAnswered(Some(id), at, inMatch)).dialogs != t.dialogs <==>
              t.pageRelease.Some? && t.pageRelease != Some(id) && !inMatch && at >= now + 7_200_000
  {
    LaterHolds(w, id, false, now);
    DismissalStands(Step(w, DialogAnswered(id, false, now)), es);
    var t := Run(Step(w, DialogAnswered(id, false, now)), es);
    DialogOpensIff(t, CheckAnswered(Some(id), at, inMatch));
    hide Step, Run;
    OneMore(t.dialogs, id);
  }

  lemma OneMore(dialogs: multiset<string>, id: string)
    ensures dialogs + multiset{id} != dialogs
  {
    assert (dialogs + multiset{id})[id] == dialogs[id] + 1;
  }

  /** One dialog at most, and the flag says whether it is there. */
  predicate OneDialog(w: Web) {
    |w.dialogs| <= 1 && (w.promptOpen <==> |w.dialogs| == 1)
  }

  /** A check is answered with a release to ask about while a dialog is already open: the flag is not read again. */
  predicate AsksOverDialog(w: Web, e: Event) {
    && Enabled(w, e) && e.CheckAnswered? && w.promptOpen && w.pageRelease.Some? && e.release.Some?
    && ShouldPrompt(w.pageRelease.value, e.release.value, w.dismissed, e.now, e.inMatch)
  }

  function Next(w: Web, e: Event): Web {
    if Enabled(w, e) then Step(w, e) else w
  }

  /** An event leaves one dialog at most exactly when it does not ask over an open one. */
  lemma OneDialogIff(w: Web, e: Event)
    requires OneDialog(w)
    ensures OneDialog(Next(w, e)) <==> !AsksOverDialog(w, e)
    ensures |Next(w, e).dialogs| <= 1 <==> !AsksOverDialog(w, e)
  {
    hide ShouldPrompt;
    if Enabled(w, e) && e.DialogAnswered? {
      assert |w.dialogs - multiset{e.id}| == |w.dialogs| - 1;
    }
  }

  ghost predicate NeverAsksOver(w: Web, es: seq<Event>)
    decreases |es|
  {
    es == [] || (!AsksOverDialog(w, es[0]) && NeverAsksOver(Next(w, es[0]), es[1..]))
  }

  /** Over a run there is one dialog at most, at every moment, exactly when no check asks over an open one. */
  lemma {:induction false} AlwaysOneDialogIff(w: Web, es: seq<Event>)
    requires OneDialog(w)
    ensures (forall k :: 0 <= k <= |es| ==> |Run(w, es[..k]).dialogs| <= 1) <==> NeverAsksOver(w, es)
    decreases |es|
  {
    hide Next, OneDialog, AsksOverDialog;
    assert es[..0] == [] && Run(w, es[..0]) == w;
    assert |w.dialogs| <= 1 by { OneDialogBounds(w); }
    if es != [] {
      var t := Next(w, es[0]);
      OneDialogIff(w, es[0]);
      forall k | 1 <= k <= |es| ensures Run(w, es[..k]) == Run(t, es[1..][..k - 1]) {
        RunTail(w, es, k);
      }
      assert es[1..][..0] == [] && Run(t, es[1..][..0]) == t;
      assert Run(w, es[..1]) == t;
      if |t.dialogs| <= 1 {
        AlwaysOneDialogIff(t, es[1..]);
        assert forall k :: 0 <= k <= |es[1..]| ==> Run(t, es[1..][..k]) == Run(w, es[..k + 1]);
      }
    }
  }

  lemma OneDialogBounds(w: Web)
    requires OneDialog(w)
    ensures |w.dialogs| <= 1
  {
  }

  lemma RunTail(w: Web, es: seq<Event>, k: nat)
    requires 1 <= k <= |es|
    ensures Run(w, es[..k]) == Run(Next(w, es[0]), es[1..][..k - 1])
  {
    assert es[..k][0] == es[0] && es[..k][1..] == es[1..][..k - 1];
  }

  /**
   * While a check waits for its answer nothing keeps another from starting, and then some answers open two
   * dialogs: whatever page release, whatever was put off until when.
   */
  lemma SecondCheckMayOpenTwo(w: Web)
    requires w.checks >= 1 && w.pageRelease.Some? && !w.promptOpen && !w.loadPending && w.dialogs == multiset{}
    ensures exists release, now ::
              Run(w, [CheckStarted(true), CheckAnswered(Some(release), now, false), CheckAnswered(Some(release), now, false)]).dialogs
              == multiset{release, release}
  {
    var release := w.pageRelease.value + "+";
    var now := if w.dismissed.Some? then w.dismissed.value.until else 0;
    assert |release| != |w.pageRelease.value|;
    TwoAnswers(w, release, now);
  }

  lemma TwoAnswers(w: Web, release: string, now: int)
    requires w.checks >= 1 && w.pageRelease.Some? && !w.promptOpen && !w.loadPending && w.dialogs == multiset{}
    requires ShouldPrompt(w.pageRelease.value, release, w.dismissed, now, false)
    ensures Run(w, [CheckStarted(true), CheckAnswered(Some(release), now, false), CheckAnswered(Some(release), now, false)]).dialogs
         == multiset{release, release}
  {
    hide ShouldPrompt;
    var started, answered := CheckStarted(true), CheckAnswered(Some(release), now, false);
    var one := Step(w, started);
    RunFirst(w, started, [answered, answered]);
    RunFirst(one, answered, [answered]);
    RunFirst(Step(one, answered), answered, []);
    assert Step(one, answered).dialogs == multiset{release};
    assert Step(Step(one, answered), answered).dialogs == multiset{release, release};
  }

  /** Such a run from the start: a page is loaded, two checks overlap, and both answers bring a newer release. */
  lemma OverlappingChecksOpenTwo(page: string, newer: string)
    requires page != newer
    ensures var answered := CheckAnswered(Some(newer), 0, false);
            var es := [PageLoaded, LoadAnswered(1, Some(page)), CheckStarted(true), CheckStarted(true), answered, answered];
            Run(FRESH, es).dialogs == multiset{newer, newer}
  {
    var started, answered := CheckStarted(true), CheckAnswered(Some(newer), 0, false);
    var loaded := LoadAnswered(1, Some(page));
    RunFirst(FRESH, PageLoaded, [loaded, started, started, answered, answered]);
    RunFirst(Step(FRESH, PageLoaded), loaded, [started, started, answered, answered]);
    var w := Step(Step(FRESH, PageLoaded), loaded);
    assert w.loads == {};
    RunFirst(w, started, [started, answered, answered]);
    TwoAnswers(Step(w, started), newer, 0);
  }

  /** A check never starts while another waits for its answer. */
  ghost predicate ChecksApart(w: Web, es: seq<Event>)
    decreases |es|
  {
    es == [] || ((es[0].CheckStarted? ==> w.checks == 0) && ChecksApart(Next(w, es[0]), es[1..]))
  }

  /** Checks kept apart are one way never to ask over an open dialog. */
  lemma {:induction false} OneDialogWhenChecksApart(w: Web, es: seq<Event>)
    requires OneDialog(w) && w.checks + |w.dialogs| <= 1 && ChecksApart(w, es)
    ensures NeverAsksOver(w, es) && OneDialog(Run(w, es))
    decreases |es|
  {
    hide Step, OneDialog, ShouldPrompt;
    if es != [] {
      ApartStep(w, es[0]);
      OneDialogWhenChecksApart(Next(w, es[0]), es[1..]);
    }
  }

  lemma ApartStep(w: Web, e: Event)
    requires OneDialog(w) && w.checks + |w.dialogs| <= 1 && (e.CheckStarted? ==> w.checks == 0)
    ensures !AsksOverDialog(w, e)
    ensures OneDialog(Next(w, e)) && Next(w, e).checks + |Next(w, e).dialogs| <= 1
  {
    hide ShouldPrompt;
    OneDialogIff(w, e);
    if Enabled(w, e) && e.DialogAnswered? {
      assert |w.dialogs - multiset{e.id}| == |w.dialogs| - 1;
    }
  }

  lemma RunFirst(w: Web, e: Event, es: seq<Event>)
    requires Enabled(w, e)
    ensures Run(w, [e] + es) == Run(Step(w, e), es)
  {
    assert ([e] + es)[1..] == es;
  }
}
