/**
 * Typed-in sessions: which are let in, and that a member's sessions then never cover the same time
 * twice. A member's log grows by clocking in and out, by typed-in and corrected ranges, and by deletions.
 */
module HourRanges {
  import opened Wrappers
  import opened Stamps
  import opened BuildHours

  const MIN_SESSION_MS := 300_000
  const MAX_SESSION_MS := 86_400_000
  const FUTURE_SLACK_MS := 300_000

  datatype Refusal = EndNotAfterStart | NotYet | TooShort | TooLong

  /** Comparisons as JavaScript makes them: none holds of a time that could not be read. */
  predicate Before(a: Stamp, b: Stamp) {
    a.At? && b.At? && a.ms < b.ms
  }

  function ValidateManualRange(clockIn: Stamp, clockOut: Stamp, now: int): Option<Refusal> {
    if clockIn.At? && clockOut.At? && clockOut.ms <= clockIn.ms then Some(EndNotAfterStart)
    else if Before(At(now + FUTURE_SLACK_MS), clockIn) || Before(At(now + FUTURE_SLACK_MS), clockOut) then Some(NotYet)
    else if clockIn.At? && clockOut.At? && clockOut.ms - clockIn.ms < MIN_SESSION_MS then Some(TooShort)
    else if clockIn.At? && clockOut.At? && clockOut.ms - clockIn.ms > MAX_SESSION_MS then Some(TooLong)
    else None
  }

  /** Read times are let in exactly when they span 5 minutes to a day and end at most 5 minutes from now. */
  lemma LetInIff(start: int, end: int, now: int)
    ensures ValidateManualRange(At(start), At(end), now).None? <==>
              300_000 <= end - start <= 86_400_000 && end <= now + 300_000
  {
  }

  /** And a range that is not is told the first of these that is wrong with it. */
  lemma RefusedIff(start: int, end: int, now: int)
    ensures var refusal := ValidateManualRange(At(start), At(end), now);
            && (refusal == Some(EndNotAfterStart) <==> end <= start)
            && (refusal == Some(NotYet) <==> start < end && now + 300_000 < end)
            && (refusal == Some(TooShort) <==> start < end < start + 300_000 && end <= now + 300_000)
            && (refusal == Some(TooLong) <==> start + 86_400_000 < end <= now + 300_000)
  {
  }

  predicate Clashes(r: HourLog, clockIn: Stamp, clockOut: Stamp, exclude: Option<string>, now: int) {
    var otherEnd := if r.clockOut.Absent? then At(now) else r.clockOut;
    Some(r.id) != exclude && Before(r.clockIn, clockOut) && Before(clockIn, otherEnd)
  }

  method OverlappingRecord(records: seq<HourLog>, clockIn: Stamp, clockOut: Stamp, exclude: Option<string>, now: int)
    returns (found: Option<HourLog>)
    ensures found.None? <==> forall r :: r in records ==> !Clashes(r, clockIn, clockOut, exclude, now)
    ensures found.Some? ==> exists i :: 0 <= i < |records| && records[i] == found.value
                              && Clashes(records[i], clockIn, clockOut, exclude, now)
                              && forall j :: 0 <= j < i ==> !Clashes(records[j], clockIn, clockOut, exclude, now)
  {
    for i := 0 to |records|
      invariant forall j :: 0 <= j < i ==> !Clashes(records[j], clockIn, clockOut, exclude, now)
    {
      var record := records[i];
      if Some(record.id) == exclude { continue; }
      var otherEnd := if record.clockOut.Absent? then At(now) else record.clockOut;
      if Before(record.clockIn, clockOut) && Before(clockIn, otherEnd) {
        assert Clashes(record, clockIn, clockOut, exclude, now);
        return Some(record);
      }
    }
    return None;
  }

  // ----- A member's log -----------------------------------------------------------------------

  datatype Action =
    | ClockIn(id: string)
    | ClockOut
    | Add(id: string, start: int, end: int)
    | Correct(id: string, start: int, end: int)
    | Delete(id: string)

  datatype Event = Event(now: int, action: Action)

  predicate HasId(log: seq<HourLog>, id: string) {
    exists r :: r in log && r.id == id
  }

  predicate HasOpen(log: seq<HourLog>) {
    exists r :: r in log && r.clockOut.Absent?
  }

  predicate LetIn(log: seq<HourLog>, start: int, end: int, exclude: Option<string>, now: int) {
    && ValidateManualRange(At(start), At(end), now).None?
    && forall r :: r in log ==> !Clashes(r, At(start), At(end), exclude, now)
  }

  function Without(log: seq<HourLog>, id: string): (rest: seq<HourLog>)
    ensures forall r :: r in rest <==> r in log && r.id != id
  {
    if log == [] then [] else (if log[0].id == id then [] else [log[0]]) + Without(log[1..], id)
  }

  function CloseOpen(log: seq<HourLog>, now: int): seq<HourLog> {
    seq(|log|, i requires 0 <= i < |log| => if log[i].clockOut.Absent? then log[i].(clockOut := At(now)) else log[i])
  }

  function Revise(log: seq<HourLog>, id: string, start: int, end: int): seq<HourLog> {
    seq(|log|, i requires 0 <= i < |log| => if log[i].id == id then log[i].(clockIn := At(start), clockOut := At(end)) else log[i])
  }

  /** Ids are handed out fresh. */
  predicate Enabled(log: seq<HourLog>, e: Event) {
    (e.action.ClockIn? || e.action.Add?) ==> !HasId(log, e.action.id)
  }

  function Step(log: seq<HourLog>, user: string, e: Event): seq<HourLog> {
    match e.action
    case ClockIn(id) => if HasOpen(log) then log else log + [HourLog(id, user, None, At(e.now), Absent)]
    case ClockOut => CloseOpen(log, e.now)
    case Add(id, start, end) =>
      if LetIn(log, start, end, None, e.now) then log + [HourLog(id, user, None, At(start), At(end))] else log
    case Correct(id, start, end) =>
      if HasId(log, id) && LetIn(log, start, end, Some(id), e.now) then Revise(log, id, start, end) else log
    case Delete(id) => Without(log, id)
  }

  function Run(log: seq<HourLog>, user: string, es: seq<Event>): seq<HourLog>
    decreases |es|
  {
    if es == [] then log else Run(if Enabled(log, es[0]) then Step(log, user, es[0]) else log, user, es[1..])
  }

  /**
   * A range is let in, typed in or as a correction, exactly when it is well-formed and shares no time with
   * another session, an open one counting up to now.
   */
  lemma LetInBesideIff(log: seq<HourLog>, start: int, end: int, exclude: Option<string>, now: int)
    requires forall r :: r in log ==> Sound(r)
    ensures LetIn(log, start, end, exclude, now) <==>
              && 300_000 <= end - start <= 86_400_000 && end <= now + 300_000
              && forall r :: r in log && Sound(r) && Some(r.id) != exclude ==>
                   end <= r.clockIn.ms || (if r.clockOut.At? then r.clockOut.ms else now) <= start
  {
    LetInIff(start, end, now);
    hide ValidateManualRange;
    forall r | r in log && Some(r.id) != exclude
      ensures !Clashes(r, At(start), At(end), exclude, now) <==>
                end <= r.clockIn.ms || (if r.clockOut.At? then r.clockOut.ms else now) <= start
    {
    }
  }

  /** What a step makes of a member's sessions: one more, one revised, one gone, the open ones closed, or nothing. */
  lemma StepDoes(log: seq<HourLog>, user: string, e: Event)
    ensures var t := Step(log, user, e);
            match e.action
            case ClockIn(id) =>
              t == if exists r :: r in log && r.clockOut.Absent? then log else log + [HourLog(id, user, None, At(e.now), Absent)]
            case ClockOut =>
              |t| == |log| && forall i :: 0 <= i < |t| ==>
                if log[i].clockOut.Absent? then t[i] == log[i].(clockOut := At(e.now)) else t[i] == log[i]
            case Add(id, start, end) =>
              t == if LetIn(log, start, end, None, e.now) then log + [HourLog(id, user, None, At(start), At(end))] else log
            case Correct(id, start, end) =>
              |t| == |log| && forall i :: 0 <= i < |t| ==>
                if log[i].id == id && LetIn(log, start, end, Some(id), e.now)
                then t[i] == log[i].(clockIn := At(start), clockOut := At(end)) else t[i] == log[i]
            case Delete(id) => forall r :: r in t <==> r in log && r.id != id
  {
    hide LetIn;
  }

  // ----- No time twice ------------------------------------------------------------------------

  predicate Sound(r: HourLog) {
    r.clockIn.At? && !r.clockOut.Unreadable? && (r.clockOut.At? ==> r.clockIn.ms <= r.clockOut.ms)
  }

  /** Neither reaches into the other, an open one reaching on forever. */
  predicate Apart(a: HourLog, b: HourLog)
    requires Sound(a) && Sound(b)
  {
    (a.clockOut.At? && a.clockOut.ms <= b.clockIn.ms) || (b.clockOut.At? && b.clockOut.ms <= a.clockIn.ms)
  }

  ghost predicate Tidy(log: seq<HourLog>) {
    && (forall r :: r in log ==> Sound(r))
    && (forall i, j :: 0 <= i < j < |log| ==> log[i].id != log[j].id)
    && (forall i, j :: 0 <= i < j < |log| ==> Apart(log[i], log[j]))
  }

  predicate AllClosed(log: seq<HourLog>) {
    forall r :: r in log ==> !r.clockOut.Absent?
  }

  ghost predicate UpTo(log: seq<HourLog>, now: int) {
    forall r :: r in log && Sound(r) ==> r.clockIn.ms <= now && (r.clockOut.At? ==> r.clockOut.ms <= now)
  }

  /** A range let in keeps apart from every closed session, and from an open one when it ends by now. */
  lemma LetInIsApart(log: seq<HourLog>, r: HourLog, added: HourLog, exclude: Option<string>, now: int)
    requires Tidy(log) && r in log && Some(r.id) != exclude && Sound(added) && added.clockOut.At?
    requires LetIn(log, added.clockIn.ms, added.clockOut.ms, exclude, now)
    requires !r.clockOut.Absent? || added.clockOut.ms <= now
    ensures Apart(r, added) && Apart(added, r)
  {
  }

  lemma AddKeepsTidy(log: seq<HourLog>, added: HourLog, now: int)
    requires Tidy(log) && !HasId(log, added.id) && added.clockIn.At? && added.clockOut.At?
    requires LetIn(log, added.clockIn.ms, added.clockOut.ms, None, now)
    requires AllClosed(log) || added.clockOut.ms <= now
    ensures Tidy(log + [added])
  {
    forall i | 0 <= i < |log| ensures Apart(log[i], added) && log[i].id != added.id {
      LetInIsApart(log, log[i], added, None, now);
      assert log[i] in log;
    }
    hide LetIn;
  }

  lemma CorrectKeepsTidy(log: seq<HourLog>, id: string, start: int, end: int, now: int)
    requires Tidy(log) && LetIn(log, start, end, Some(id), now)
    requires AllClosed(log) || end <= now
    ensures Tidy(Revise(log, id, start, end))
  {
    var t := Revise(log, id, start, end);
    forall i | 0 <= i < |log| ensures Sound(t[i]) && t[i].id == log[i].id {
      assert log[i] in log;
    }
    forall i, j | 0 <= i < j < |log| ensures Apart(t[i], t[j]) {
      if log[i].id == id {
        LetInIsApart(log, log[j], t[i], Some(id), now);
      } else if log[j].id == id {
        LetInIsApart(log, log[i], t[j], Some(id), now);
      }
    }
    hide LetIn;
  }

  lemma CloseKeepsTidy(log: seq<HourLog>, now: int)
    requires Tidy(log) && UpTo(log, now)
    ensures Tidy(CloseOpen(log, now)) && UpTo(CloseOpen(log, now), now)
  {
    var t := CloseOpen(log, now);
    forall i | 0 <= i < |log| ensures Sound(t[i]) && t[i].id == log[i].id && t[i].clockIn == log[i].clockIn {
      assert log[i] in log;
    }
  }

  lemma ClockInKeepsTidy(log: seq<HourLog>, added: HourLog, now: int)
    requires Tidy(log) && UpTo(log, now) && !HasOpen(log) && !HasId(log, added.id)
    requires added.clockIn == At(now) && added.clockOut.Absent?
    ensures Tidy(log + [added]) && UpTo(log + [added], now)
  {
    forall i | 0 <= i < |log| ensures Apart(log[i], added) && log[i].id != added.id {
      assert log[i] in log;
    }
  }

  lemma FirstKeepsTidy(first: HourLog, rest: seq<HourLog>)
    requires Tidy(rest) && Sound(first) && forall r :: r in rest ==> r.id != first.id && Apart(first, r)
    ensures Tidy([first] + rest)
  {
  }

  lemma {:induction false} WithoutKeepsTidy(log: seq<HourLog>, id: string)
    requires Tidy(log)
    ensures Tidy(Without(log, id))
  {
    if log != [] {
      assert Tidy(log[1..]);
      WithoutKeepsTidy(log[1..], id);
      var rest := Without(log[1..], id);
      assert Without(log, id) == (if log[0].id == id then [] else [log[0]]) + rest;
      forall r | r in rest ensures Sound(r) && r.id != log[0].id && Apart(log[0], r) {
        var k :| 0 <= k < |log| - 1 && log[1..][k] == r;
        assert log[k + 1] == r;
      }
      FirstKeepsTidy(log[0], rest);
    }
  }

  /**
   * A log of closed sessions grown, corrected and cut only through the checks keeps its sessions apart,
   * whatever the clock shows.
   */
  lemma {:induction false} ClosedLogStaysApart(log: seq<HourLog>, user: string, es: seq<Event>)
    requires Tidy(log) && AllClosed(log)
    requires forall e :: e in es ==> !e.action.ClockIn?
    ensures Tidy(Run(log, user, es)) && AllClosed(Run(log, user, es))
    decreases |es|
  {
    hide LetIn, Tidy;
    if es != [] {
      var e := es[0];
      assert e in es;
      if Enabled(log, e) { ClosedStep(log, user, e); }
      ClosedLogStaysApart(if Enabled(log, e) then Step(log, user, e) else log, user, es[1..]);
    }
  }

  lemma ClosedStep(log: seq<HourLog>, user: string, e: Event)
    requires Tidy(log) && AllClosed(log) && Enabled(log, e) && !e.action.ClockIn?
    ensures Tidy(Step(log, user, e)) && AllClosed(Step(log, user, e))
  {
    hide LetIn, Tidy;
    match e.action
    case ClockOut => assert CloseOpen(log, e.now) == log;
    case Add(id, start, end) =>
      if LetIn(log, start, end, None, e.now) { AddKeepsTidy(log, HourLog(id, user, None, At(start), At(end)), e.now); }
    case Correct(id, start, end) =>
      if LetIn(log, start, end, Some(id), e.now) { CorrectKeepsTidy(log, id, start, end, e.now); }
    case Delete(id) => WithoutKeepsTidy(log, id);
  }

  /** The clock never runs back, and no typed-in range reaches past the moment it is typed in. */
  ghost predicate InThePast(es: seq<Event>) {
    && (forall i, j :: 0 <= i < j < |es| ==> es[i].now <= es[j].now)
    && (forall e :: e in es && (e.action.Add? || e.action.Correct?) ==> e.action.end <= e.now)
  }

  /** With clocking in and out beside it, time is covered once as long as the typed-in ranges lie in the past. */
  lemma {:induction false} PastRangesCoverTimeOnce(log: seq<HourLog>, user: string, es: seq<Event>)
    requires Tidy(log) && InThePast(es) && (es != [] ==> UpTo(log, es[0].now))
    ensures Tidy(Run(log, user, es))
    decreases |es|
  {
    hide LetIn, Tidy, UpTo;
    if es != [] {
      var e := es[0];
      assert e in es;
      var t := if Enabled(log, e) then Step(log, user, e) else log;
      if Enabled(log, e) { PastStep(log, user, e); }
      if |es| > 1 { LaterUpTo(t, e.now, es[1].now); }
      PastRangesCoverTimeOnce(t, user, es[1..]);
    }
  }

  lemma LaterUpTo(log: seq<HourLog>, now: int, later: int)
    requires UpTo(log, now) && now <= later
    ensures UpTo(log, later)
  {
  }

  lemma PastStep(log: seq<HourLog>, user: string, e: Event)
    requires Tidy(log) && UpTo(log, e.now) && Enabled(log, e)
    requires (e.action.Add? || e.action.Correct?) ==> e.action.end <= e.now
    ensures Tidy(Step(log, user, e)) && UpTo(Step(log, user, e), e.now)
  {
    hide LetIn, Tidy;
    match e.action
    case ClockIn(id) =>
      if !HasOpen(log) { ClockInKeepsTidy(log, HourLog(id, user, None, At(e.now), Absent), e.now); }
    case ClockOut => CloseKeepsTidy(log, e.now);
    case Add(id, start, end) =>
      if LetIn(log, start, end, None, e.now) { AddKeepsTidy(log, HourLog(id, user, None, At(start), At(end)), e.now); }
    case Correct(id, start, end) =>
      if LetIn(log, start, end, Some(id), e.now) { CorrectKeepsTidy(log, id, start, end, e.now); }
    case Delete(id) => WithoutKeepsTidy(log, id);
  }

  // ----- The slack ----------------------------------------------------------------------------

  /**
   * A range let in beside an open session stays clear of it, however late that is closed, exactly when it
   * does not start this very moment: only a five-minute range from now to the end of the slack slips by.
   */
  lemma ClearOfTheOpenSessionIff(log: seq<HourLog>, running: HourLog, added: HourLog, exclude: Option<string>, now: int)
    requires running in log && Some(running.id) != exclude
    requires Sound(running) && running.clockOut.Absent? && running.clockIn.ms <= now
    requires Sound(added) && added.clockOut.At? && LetIn(log, added.clockIn.ms, added.clockOut.ms, exclude, now)
    ensures Apart(running, added) <==> added.clockIn.ms != now
  {
    assert !Clashes(running, added.clockIn, added.clockOut, exclude, now);
  }

  // ----- Exactly when time is covered once ----------------------------------------------------

  /** Somebody else's record of the log, as seen from the one with this id, is open. */
  predicate OpenBeside(log: seq<HourLog>, id: string) {
    exists r :: r in log && r.id != id && r.clockOut.Absent?
  }

  /**
   * What a step must meet: nobody clocks in before a closed session has ended, and no range that starts this
   * very moment is let in beside an open session, typed in or as a correction.
   */
  predicate Clear(log: seq<HourLog>, e: Event) {
    match e.action
    case ClockIn(_) => HasOpen(log) || forall r :: r in log && r.clockOut.At? ==> r.clockOut.ms <= e.now
    case Add(_, start, end) => LetIn(log, start, end, None, e.now) && start == e.now ==> !HasOpen(log)
    case Correct(id, start, end) =>
      HasId(log, id) && LetIn(log, start, end, Some(id), e.now) && start == e.now ==> !OpenBeside(log, id)
    case _ => true
  }

  /** Whoever is clocked in did so by now. */
  ghost predicate OpenBy(log: seq<HourLog>, now: int) {
    forall r :: r in log && r.clockOut.Absent? && r.clockIn.At? ==> r.clockIn.ms <= now
  }

  /** One more session keeps a tidy log tidy exactly when it is apart from all of it. */
  lemma AddedTidyIff(log: seq<HourLog>, added: HourLog)
    requires Tidy(log) && Sound(added) && !HasId(log, added.id)
    ensures Tidy(log + [added]) <==> forall r :: r in log ==> Apart(r, added)
  {
    var t := log + [added];
    forall i | 0 <= i < |log| ensures t[i] == log[i] && log[i] in log && log[i].id != added.id {}
    if Tidy(t) {
      forall r | r in log ensures Apart(r, added) {
        var i :| 0 <= i < |log| && log[i] == r;
        assert Apart(t[i], t[|log|]);
      }
    }
  }

  /** And a changed session, exactly when it is apart from the others. */
  lemma RevisedTidyIff(log: seq<HourLog>, k: nat, start: int, end: int)
    requires Tidy(log) && k < |log| && start <= end
    ensures var revised := log[k].(clockIn := At(start), clockOut := At(end));
            Tidy(Revise(log, log[k].id, start, end)) <==>
              forall r :: r in log && r.id != log[k].id ==> Apart(r, revised)
  {
    var id, t := log[k].id, Revise(log, log[k].id, start, end);
    var revised := log[k].(clockIn := At(start), clockOut := At(end));
    forall i | 0 <= i < |log| ensures log[i] in log && t[i].id == log[i].id && t[i] == if i == k then revised else log[i] {
      assert i != k ==> log[i].id != id;
    }
    if Tidy(t) {
      forall r | r in log && r.id != id ensures Apart(r, revised) {
        var i :| 0 <= i < |log| && log[i] == r;
        if i < k { assert Apart(t[i], t[k]); } else { assert Apart(t[k], t[i]); }
      }
    } else if forall r :: r in log && r.id != id ==> Apart(r, revised) {
      RevisedIsTidy(log, k, start, end);
    }
  }

  lemma RevisedIsTidy(log: seq<HourLog>, k: nat, start: int, end: int)
    requires Tidy(log) && k < |log| && start <= end
    requires forall r :: r in log && r.id != log[k].id ==> Apart(r, log[k].(clockIn := At(start), clockOut := At(end)))
    ensures Tidy(Revise(log, log[k].id, start, end))
  {
    var t := Revise(log, log[k].id, start, end);
    forall i | 0 <= i < |log| ensures Sound(t[i]) && t[i].id == log[i].id && (i != k ==> t[i] == log[i] && log[i].id != log[k].id) {
      assert log[i] in log;
    }
  }

  /** A range let in is apart from all others exactly when it does not start now beside an open one. */
  lemma LetInApartIff(log: seq<HourLog>, added: HourLog, exclude: Option<string>, now: int)
    requires Tidy(log) && OpenBy(log, now) && Sound(added) && added.clockOut.At?
    requires LetIn(log, added.clockIn.ms, added.clockOut.ms, exclude, now)
    ensures (forall r :: r in log && Some(r.id) != exclude ==> Apart(r, added)) <==>
              (added.clockIn.ms == now ==> !exists r :: r in log && Some(r.id) != exclude && r.clockOut.Absent?)
  {
    forall r | r in log && Some(r.id) != exclude
      ensures Apart(r, added) <==> !(r.clockOut.Absent? && added.clockIn.ms == now)
    {
      if r.clockOut.Absent? {
        ClearOfTheOpenSessionIff(log, r, added, exclude, now);
      } else {
        LetInIsApart(log, r, added, exclude, now);
      }
    }
    hide LetIn, Tidy;
  }

  lemma ClockInTidyIff(log: seq<HourLog>, added: HourLog, now: int)
    requires Tidy(log) && !HasOpen(log) && !HasId(log, added.id)
    requires added.clockIn == At(now) && added.clockOut.Absent?
    ensures Tidy(log + [added]) <==> forall r :: r in log && r.clockOut.At? ==> r.clockOut.ms <= now
  {
    AddedTidyIff(log, added);
    assert forall r :: r in log ==> Sound(r) && r.clockOut.At?;
    hide Tidy;
  }

  lemma AddTidyIff(log: seq<HourLog>, added: HourLog, now: int)
    requires Tidy(log) && OpenBy(log, now) && !HasId(log, added.id) && added.clockIn.At? && added.clockOut.At?
    requires LetIn(log, added.clockIn.ms, added.clockOut.ms, None, now)
    ensures Tidy(log + [added]) <==> (added.clockIn.ms == now ==> !HasOpen(log))
  {
    LetInIff(added.clockIn.ms, added.clockOut.ms, now);
    AddedTidyIff(log, added);
    LetInApartIff(log, added, None, now);
    hide Tidy, LetIn;
  }

  lemma CorrectTidyIff(log: seq<HourLog>, id: string, start: int, end: int, now: int)
    requires Tidy(log) && OpenBy(log, now) && HasId(log, id) && LetIn(log, start, end, Some(id), now)
    ensures Tidy(Revise(log, id, start, end)) <==> (start == now ==> !OpenBeside(log, id))
  {
    LetInIff(start, end, now);
    var r :| r in log && r.id == id;
    var k :| 0 <= k < |log| && log[k] == r;
    RevisedTidyIff(log, k, start, end);
    LetInApartIff(log, log[k].(clockIn := At(start), clockOut := At(end)), Some(id), now);
    hide Tidy, LetIn, Revise;
    assert forall q :: q in log ==> (Some(q.id) != Some(id) <==> q.id != id);
  }

  lemma CloseOpenKeepsTidy(log: seq<HourLog>, now: int)
    requires Tidy(log) && OpenBy(log, now)
    ensures Tidy(CloseOpen(log, now))
  {
    var t := CloseOpen(log, now);
    forall i | 0 <= i < |log| ensures Sound(t[i]) && t[i].id == log[i].id && t[i].clockIn == log[i].clockIn {
      assert log[i] in log;
    }
  }

  /** A step keeps a member's time covered once exactly when it is clear. */
  lemma TidyIffClear(log: seq<HourLog>, user: string, e: Event)
    requires Tidy(log) && OpenBy(log, e.now) && Enabled(log, e)
    ensures Tidy(Step(log, user, e)) <==> Clear(log, e)
  {
    hide Tidy, OpenBy, LetIn, HasId, HasOpen, OpenBeside;
    match e.action
    case ClockIn(id) =>
      if !HasOpen(log) { ClockInTidyIff(log, HourLog(id, user, None, At(e.now), Absent), e.now); }
    case ClockOut => CloseOpenKeepsTidy(log, e.now);
    case Add(id, start, end) =>
      if LetIn(log, start, end, None, e.now) { AddTidyIff(log, HourLog(id, user, None, At(start), At(end)), e.now); }
    case Correct(id, start, end) =>
      if HasId(log, id) && LetIn(log, start, end, Some(id), e.now) { CorrectTidyIff(log, id, start, end, e.now); }
    case Delete(id) => WithoutKeepsTidy(log, id);
  }

  function Next(log: seq<HourLog>, user: string, e: Event): seq<HourLog> {
    if Enabled(log, e) then Step(log, user, e) else log
  }

  lemma NextOpenBy(log: seq<HourLog>, user: string, e: Event, later: int)
    requires OpenBy(log, e.now) && e.now <= later
    ensures OpenBy(Next(log, user, e), later)
  {
    hide LetIn, HasId;
    var t := Next(log, user, e);
    if Enabled(log, e) && (e.action.ClockOut? || e.action.Correct?) {
      forall i | 0 <= i < |t| && |t| == |log| ensures t[i].clockOut.Absent? ==> t[i] == log[i] && log[i] in log {}
    }
  }

  /** The clock never runs back. */
  predicate ClockRunsOn(es: seq<Event>) {
    forall i, j :: 0 <= i < j < |es| ==> es[i].now <= es[j].now
  }

  ghost predicate AlwaysClear(log: seq<HourLog>, user: string, es: seq<Event>)
    decreases |es|
  {
    es == [] || ((Enabled(log, es[0]) ==> Clear(log, es[0])) && AlwaysClear(Next(log, user, es[0]), user, es[1..]))
  }

  /**
   * Over a run, with clocking in and out, typed-in and corrected ranges and deletions, a member's time is
   * covered once at every moment exactly when every step is clear.
   */
  lemma {:induction false} TimeCoveredOnceIff(log: seq<HourLog>, user: string, es: seq<Event>)
    requires Tidy(log) && ClockRunsOn(es) && (es != [] ==> OpenBy(log, es[0].now))
    ensures (forall k :: 0 <= k <= |es| ==> Tidy(Run(log, user, es[..k]))) <==> AlwaysClear(log, user, es)
    decreases |es|
  {
    hide Tidy, OpenBy, Step, Enabled, Clear;
    assert es[..0] == [] && Run(log, user, es[..0]) == log;
    if es != [] {
      var e, t := es[0], Next(log, user, es[0]);
      if Enabled(log, e) { TidyIffClear(log, user, e); }
      forall k | 1 <= k <= |es| ensures Run(log, user, es[..k]) == Run(t, user, es[1..][..k - 1]) {
        assert es[..k][0] == e && es[..k][1..] == es[1..][..k - 1];
      }
      assert es[1..][..0] == [] && Run(t, user, es[1..][..0]) == t;
      assert Run(log, user, es[..1]) == t;
      if Tidy(t) {
        if |es| > 1 { NextOpenBy(log, user, e, es[1].now); }
        TimeCoveredOnceIff(t, user, es[1..]);
        assert forall k :: 0 <= k <= |es[1..]| ==> Run(t, user, es[1..][..k]) == Run(log, user, es[..k + 1]);
      }
    }
  }

  /** Such a range beside a running session, and one into which somebody clocks in: both cover time twice. */
  lemma SlackCoversTimeTwice(user: string)
    ensures var minute := 60_000;
            var beside := [Event(0, ClockIn("a")), Event(minute, Add("b", minute, 6 * minute)), Event(7 * minute, ClockOut)];
            var ahead := [Event(0, Add("a", -minute, 4 * minute)), Event(minute, ClockIn("b")), Event(3 * minute, ClockOut)];
            !Tidy(Run([], user, beside)) && !Tidy(Run([], user, ahead))
  {
    var minute := 60_000;
    var a, b := HourLog("a", user, None, At(0), Absent), HourLog("b", user, None, At(minute), At(6 * minute));
    var beside := [Event(0, ClockIn("a")), Event(minute, Add("b", minute, 6 * minute)), Event(7 * minute, ClockOut)];
    ThreeSteps([], user, beside, [a], [a, b], [a.(clockOut := At(7 * minute)), b]);
    var c, d := HourLog("a", user, None, At(-minute), At(4 * minute)), HourLog("b", user, None, At(minute), Absent);
    var ahead := [Event(0, Add("a", -minute, 4 * minute)), Event(minute, ClockIn("b")), Event(3 * minute, ClockOut)];
    ThreeSteps([], user, ahead, [c], [c, d], [c, d.(clockOut := At(3 * minute))]);
    OverlapIsUntidy(a.(clockOut := At(7 * minute)), b);
    OverlapIsUntidy(c, d.(clockOut := At(3 * minute)));
  }

  lemma OverlapIsUntidy(a: HourLog, b: HourLog)
    requires Sound(a) && Sound(b) && !Apart(a, b)
    ensures !Tidy([a, b])
  {
    var log := [a, b];
    assert !Apart(log[0], log[1]);
  }

  lemma ThreeSteps(log: seq<HourLog>, user: string, es: seq<Event>, one: seq<HourLog>, two: seq<HourLog>, three: seq<HourLog>)
    requires |es| == 3
    requires Enabled(log, es[0]) && Step(log, user, es[0]) == one
    requires Enabled(one, es[1]) && Step(one, user, es[1]) == two
    requires Enabled(two, es[2]) && Step(two, user, es[2]) == three
    ensures Run(log, user, es) == three
  {
    hide Step, Enabled;
    assert es[1..][1..] == es[2..] && es[2..][1..] == [];
    assert Run(two, user, es[2..]) == Run(three, user, []);
  }
}
