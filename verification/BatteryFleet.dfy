/** The pack logs rolled up, the fleet's match-ready gate, and the order in which packs are handed out. */
module BatteryFleet {
  import opened Wrappers
  import Rounding
  import opened Sorting
  import opened Stamps
  import opened Battery

  // ----- Logs ---------------------------------------------------------------------------------

  datatype LogKind = Charge | StorageCharge | Match | Practice | ResistanceTest | Note | RetireLog | ReturnToService

  /** `createdAt` is the place of the timestamp text in the collation order. */
  datatype Log = Log(kind: LogKind, voltage: Option<real>, resistance: Option<real>, createdAt: int)

  predicate IsCycle(l: Log) { l.kind.Match? || l.kind.Practice? }
  predicate IsCharge(l: Log) { l.kind.Charge? || l.kind.StorageCharge? }
  predicate HasResistance(l: Log) { l.resistance.Some? }
  predicate HasVoltage(l: Log) { l.voltage.Some? }

  predicate NewerFirst(a: Log, b: Log) { a.createdAt >= b.createdAt }

  datatype Summary = Summary(cycleCount: nat, resistance: Option<real>, voltage: Option<real>,
                             lastUsedAt: Option<int>, lastChargedAt: Option<int>)

  function Find(logs: seq<Log>, p: Log -> bool): Option<Log> {
    if logs == [] then None else if p(logs[0]) then Some(logs[0]) else Find(logs[1..], p)
  }

  function Count(logs: seq<Log>, p: Log -> bool): nat {
    if logs == [] then 0 else (if p(logs[0]) then 1 else 0) + Count(logs[1..], p)
  }

  function SummarizeLogs(logs: seq<Log>): Summary {
    var sorted := Sort(logs, NewerFirst);
    var resistance, voltage := Find(sorted, HasResistance), Find(sorted, HasVoltage);
    var used, charged := Find(sorted, IsCycle), Find(sorted, IsCharge);
    Summary(Count(sorted, IsCycle),
            if resistance.Some? then resistance.value.resistance else None,
            if voltage.Some? then voltage.value.voltage else None,
            if used.Some? then Some(used.value.createdAt) else None,
            if charged.Some? then Some(charged.value.createdAt) else None)
  }

  ghost predicate DistinctTimes(logs: seq<Log>) {
    forall i, j :: 0 <= i < j < |logs| ==> logs[i].createdAt != logs[j].createdAt
  }

  /** However the logs are listed, they add up to the same: only their times and contents count. */
  lemma OrderOfLogsDoesNotMatter(a: seq<Log>, b: seq<Log>)
    requires multiset(a) == multiset(b) && DistinctTimes(a)
    ensures SummarizeLogs(a) == SummarizeLogs(b)
  {
    var s, t := Sort(a, NewerFirst), Sort(b, NewerFirst);
    SortSorts(a, NewerFirst);
    SortSorts(b, NewerFirst);
    SameElements(s, a);
    forall x, y | x in s && y in s && NewerFirst(x, y) && NewerFirst(y, x) ensures x == y {
      var i :| 0 <= i < |a| && a[i] == x;
      var j :| 0 <= j < |a| && a[j] == y;
    }
    SortedIsUnique(s, t, NewerFirst);
  }

  /** `found` is the newest of the logs that p picks, and None when it picks none. */
  ghost predicate Newest(logs: seq<Log>, p: Log -> bool, found: Option<Log>) {
    match found
    case None => forall l :: l in logs ==> !p(l)
    case Some(f) => f in logs && p(f) && forall l :: l in logs && p(l) ==> l.createdAt <= f.createdAt
  }

  lemma {:induction false} FindFirst(sorted: seq<Log>, p: Log -> bool)
    requires Sorted(sorted, NewerFirst)
    ensures Newest(sorted, p, Find(sorted, p))
  {
    if sorted != [] && !p(sorted[0]) {
      assert forall l :: l in sorted <==> l == sorted[0] || l in sorted[1..];
      FindFirst(sorted[1..], p);
    }
  }

  lemma FindInSorted(logs: seq<Log>, p: Log -> bool)
    ensures Newest(logs, p, Find(Sort(logs, NewerFirst), p))
  {
    SortSorts(logs, NewerFirst);
    SameElements(Sort(logs, NewerFirst), logs);
    FindFirst(Sort(logs, NewerFirst), p);
  }

  lemma {:induction false} CountInserted(l: Log, logs: seq<Log>, p: Log -> bool)
    ensures Count(Insert(l, logs, NewerFirst), p) == Count(logs, p) + if p(l) then 1 else 0
  {
    if logs == [] || NewerFirst(l, logs[0]) {
      assert ([l] + logs)[1..] == logs;
    } else {
      CountInserted(l, logs[1..], p);
      assert ([logs[0]] + Insert(l, logs[1..], NewerFirst))[1..] == Insert(l, logs[1..], NewerFirst);
    }
  }

  lemma {:induction false} CountSorted(logs: seq<Log>, p: Log -> bool)
    ensures Count(Sort(logs, NewerFirst), p) == Count(logs, p)
  {
    if logs != [] {
      CountSorted(logs[1..], p);
      CountInserted(logs[0], Sort(logs[1..], NewerFirst), p);
    }
  }

  lemma {:induction false} SameCount(logs: seq<Log>, p: Log -> bool, q: Log -> bool)
    requires forall l :: p(l) <==> q(l)
    ensures Count(logs, p) == Count(logs, q)
  {
    if logs != [] { SameCount(logs[1..], p, q); }
  }

  /** The summary says how many runs there were, and repeats the newest log of each sort that has one. */
  lemma SummaryIsOfTheNewest(logs: seq<Log>)
    ensures var s := SummarizeLogs(logs);
            && s.cycleCount == Count(logs, (l: Log) => l.kind == Match || l.kind == Practice)
            && (exists f :: Newest(logs, HasResistance, f) && s.resistance == if f.Some? then f.value.resistance else None)
            && (exists f :: Newest(logs, HasVoltage, f) && s.voltage == if f.Some? then f.value.voltage else None)
            && (exists f :: Newest(logs, IsCycle, f) && s.lastUsedAt == if f.Some? then Some(f.value.createdAt) else None)
            && (exists f :: Newest(logs, IsCharge, f) && s.lastChargedAt == if f.Some? then Some(f.value.createdAt) else None)
    ensures forall l :: (IsCycle(l) <==> l.kind in {Match, Practice}) && (IsCharge(l) <==> l.kind in {Charge, StorageCharge})
    ensures forall l :: (HasResistance(l) <==> l.resistance.Some?) && (HasVoltage(l) <==> l.voltage.Some?)
  {
    SameCount(logs, IsCycle, (l: Log) => l.kind == Match || l.kind == Practice);
    hide Sort, Newest, Find, Count;
    CountSorted(logs, IsCycle);
    FindInSorted(logs, HasResistance);
    FindInSorted(logs, HasVoltage);
    FindInSorted(logs, IsCycle);
    FindInSorted(logs, IsCharge);
  }

  // ----- Rotation -----------------------------------------------------------------------------

  /** `lastUsedAt` is the place of the text in the collation order; 0 stands for "" and for no use at all. */
  datatype Pack = Pack(id: string, status: PackStatus, health: HealthStatus, score: Option<int>, lastUsedAt: nat)

  predicate Eligible(p: Pack) {
    p.status == Active && p.health != Retire
  }

  /** The comparator: negative when a comes first. */
  function Compare(a: Pack, b: Pack): int {
    if (a.score.None? || b.score.None?) && a.score.Some? then -1
    else if (a.score.None? || b.score.None?) && b.score.Some? then 1
    else if a.score.Some? && b.score.Some? && a.score.value != b.score.value then b.score.value - a.score.value
    else a.lastUsedAt - b.lastUsedAt
  }

  predicate NotAfter(a: Pack, b: Pack) {
    Compare(a, b) <= 0
  }

  function Chosen(packs: seq<Pack>): seq<Pack> {
    if packs == [] then [] else (if Eligible(packs[0]) then [packs[0]] else []) + Chosen(packs[1..])
  }

  function RankForRotation(packs: seq<Pack>): seq<Pack> {
    Sort(Chosen(packs), NotAfter)
  }

  /** The comparator is a total preorder even with unmeasured packs, so the sort is well defined. */
  lemma ComparatorIsAPreorder()
    ensures TotalPreorder(NotAfter)
    ensures forall a, b :: Compare(a, b) < 0 <==> Compare(b, a) > 0
  {
  }

  lemma {:induction false} ChosenCounts(packs: seq<Pack>, p: Pack)
    ensures multiset(Chosen(packs))[p] == if Eligible(p) then multiset(packs)[p] else 0
  {
    if packs != [] {
      assert packs == [packs[0]] + packs[1..];
      ChosenCounts(packs[1..], p);
    }
  }

  /**
   * The rotation holds each active pack that is not to be retired exactly as often as it was listed, and
   * nothing else: measured packs first, the healthiest first, among equals the one used longest ago, and
   * what is still tied in its old order.
   */
  lemma RotationOrder(packs: seq<Pack>, x: Pack)
    ensures var r := RankForRotation(packs);
            && (forall p :: multiset(r)[p] == if p.status == Active && p.health != Retire then multiset(packs)[p] else 0)
            && (forall i, j :: 0 <= i < j < |r| ==>
                  && (r[j].score.Some? ==> r[i].score.Some? && r[i].score.value >= r[j].score.value)
                  && (r[i].score == r[j].score ==> r[i].lastUsedAt <= r[j].lastUsedAt))
            && Tied(r, x, NotAfter) == Tied(Chosen(packs), x, NotAfter)
  {
    hide Chosen, Tied, Sort;
    ComparatorIsAPreorder();
    SortSorts(Chosen(packs), NotAfter);
    SortIsStable(Chosen(packs), x, NotAfter);
    forall p { ChosenCounts(packs, p); }
    var r := RankForRotation(packs);
    assert forall i, j :: 0 <= i < j < |r| ==> NotAfter(r[i], r[j]);
    hide TotalPreorder, Sorted;
  }

  /** Chosen packs are packs of the list, in its order. */
  lemma {:induction false} ChosenInOrder(packs: seq<Pack>, k: nat, l: nat) returns (p: nat, q: nat)
    requires k < l < |Chosen(packs)|
    ensures p < q < |packs| && packs[p] == Chosen(packs)[k] && packs[q] == Chosen(packs)[l]
  {
    if !Eligible(packs[0]) {
      p, q := ChosenInOrder(packs[1..], k, l);
      p, q := p + 1, q + 1;
    } else if k > 0 {
      p, q := ChosenInOrder(packs[1..], k - 1, l - 1);
      p, q := p + 1, q + 1;
    } else {
      q := ChosenPlace(packs[1..], l - 1);
      p, q := 0, q + 1;
    }
  }

  lemma {:induction false} ChosenPlace(packs: seq<Pack>, l: nat) returns (q: nat)
    requires l < |Chosen(packs)|
    ensures q < |packs| && packs[q] == Chosen(packs)[l]
  {
    if !Eligible(packs[0]) {
      q := ChosenPlace(packs[1..], l);
      q := q + 1;
    } else if l == 0 {
      q := 0;
    } else {
      q := ChosenPlace(packs[1..], l - 1);
      q := q + 1;
    }
  }

  /** Packs with the same score that were last used at the same time come in the order they were listed. */
  lemma RotationKeepsTies(packs: seq<Pack>, i: nat, j: nat)
    requires var r := RankForRotation(packs); i < j < |r| && r[i].score == r[j].score && r[i].lastUsedAt == r[j].lastUsedAt
    ensures var r := RankForRotation(packs); exists p, q :: 0 <= p < q < |packs| && packs[p] == r[i] && packs[q] == r[j]
  {
    ComparatorIsAPreorder();
    hide Sort, Chosen;
    var k, l := TiesKeepPlaces(Chosen(packs), NotAfter, i, j);
    var p, q := ChosenInOrder(packs, k, l);
  }

  // ----- The fleet ----------------------------------------------------------------------------

  datatype PitStatus = PitActive | Service | PitRetired
  datatype Gate = GateReady | Review | Unread

  datatype FleetPack = FleetPack(
    status: string, reading: Reading, measuredAt: Stamp,
    charged: Option<Stamp>, used: Option<Stamp>, tested: Option<Stamp>, now: int)

  datatype View = View(pack: FleetPack, pit: PitStatus, gate: Gate, health: HealthStatus, score: Option<int>)

  function PackStatusToPit(status: string): PitStatus {
    if status == "quarantine" || status == "service" then Service
    else if status == "retired" then PitRetired
    else PitActive
  }

  /** A pack seen as a candidate for a match, with a given health grade. */
  function CandidateOf(p: FleetPack, health: HealthStatus): Candidate {
    Candidate(Active, health, p.measuredAt, p.reading.voltage, p.reading.resistance, p.charged, p.used, p.tested)
  }

  function ClassifyMatchReady(p: FleetPack, health: Option<HealthStatus>): Gate {
    if PackStatusToPit(p.status) != PitActive then Unread
    else if p.reading.voltage.None? && p.reading.resistance.None? then Unread
    else
      var grade := health.GetOr(Grade(Reading(p.reading.resistance, p.reading.voltage, None, None)));
      if EventReady(CandidateOf(p, grade), p.now, READINESS_MAX_RESISTANCE) then GateReady else Review
  }

  function ViewOf(p: FleetPack): View {
    View(p, PackStatusToPit(p.status), ClassifyMatchReady(p, Some(Grade(p.reading))), Grade(p.reading), Score(p.reading))
  }

  function Views(packs: seq<FleetPack>): (r: seq<View>)
    ensures |r| == |packs| && forall i :: 0 <= i < |r| ==> r[i] == ViewOf(packs[i])
  {
    seq(|packs|, i requires 0 <= i < |packs| => ViewOf(packs[i]))
  }

  function Tally(views: seq<View>, p: View -> bool): nat {
    if views == [] then 0 else (if p(views[0]) then 1 else 0) + Tally(views[1..], p)
  }

  datatype Fleet = Fleet(active: nat, ready: nat, service: nat, retired: nat, aging: nat, retire: nat, unread: nat)

  function SummarizeFleet(packs: seq<FleetPack>): Fleet {
    var views := Views(packs);
    Fleet(Tally(views, (v: View) => v.pit == PitActive), Tally(views, (v: View) => v.gate == GateReady),
          Tally(views, (v: View) => v.pit == Service), Tally(views, (v: View) => v.pit == PitRetired),
          Tally(views, (v: View) => v.health == Aging), Tally(views, (v: View) => v.health == Retire),
          Tally(views, (v: View) => v.pit == PitActive && v.gate == Unread))
  }

  /** The part of the views that p picks splits into what q and r pick, when those never pick the same. */
  lemma {:induction false} TallySplits(views: seq<View>, p: View -> bool, q: View -> bool, r: View -> bool)
    requires forall v :: v in views ==> (p(v) <==> q(v) || r(v)) && !(q(v) && r(v))
    ensures Tally(views, p) == Tally(views, q) + Tally(views, r)
  {
    if views != [] {
      assert views[0] in views;
      TallySplits(views[1..], p, q, r);
    }
  }

  /**
   * Every pack is counted as active, in service or retired, and every active one as ready, to be
   * reviewed or unread. No pack out of service is ready, and nothing ready is aging or to be retired.
   */
  lemma FleetAddsUp(packs: seq<FleetPack>)
    ensures var f := SummarizeFleet(packs);
            && f.active + f.service + f.retired == |packs|
            && f.active == f.ready + f.unread + Tally(Views(packs), (v: View) => v.gate == Review)
            && f.ready + f.aging + f.retire <= |packs|
  {
    var views := Views(packs);
    var all := (v: View) => true;
    var active, service, retired :=
      (v: View) => v.pit == PitActive, (v: View) => v.pit == Service, (v: View) => v.pit == PitRetired;
    var ready, review, unread :=
      (v: View) => v.gate == GateReady, (v: View) => v.gate == Review, (v: View) => v.pit == PitActive && v.gate == Unread;
    var aging, retire := (v: View) => v.health == Aging, (v: View) => v.health == Retire;
    TallyAll(views);
    var out := (v: View) => v.pit != PitActive;
    TallySplits(views, all, active, out);
    TallySplits(views, out, service, retired);
    var answered := (v: View) => v.gate != Unread;
    TallySplits(views, active, answered, unread);
    TallySplits(views, answered, ready, review);
    var worn, rest := (v: View) => v.health != Good, (v: View) => v.health == Good && v.gate != GateReady;
    var good := (v: View) => v.health == Good;
    TallySplits(views, all, good, worn);
    TallySplits(views, worn, aging, retire);
    TallySplits(views, good, ready, rest);
  }

  lemma {:induction false} TallyAll(views: seq<View>)
    ensures Tally(views, (v: View) => true) == |views|
  {
    if views != [] { TallyAll(views[1..]); }
  }

  /**
   * The gate of a fleet pack: unread out of service or without any measurement; else ready exactly when it
   * is graded good and fit for an event, and to be reviewed when not.
   */
  lemma GateIff(p: FleetPack)
    ensures var v := ViewOf(p);
            var out := p.status in {"quarantine", "service", "retired"};
            var unread := out || (p.reading.voltage.None? && p.reading.resistance.None?);
            && (v.gate == Unread <==> unread)
            && (v.gate == GateReady <==> !unread && Grade(p.reading) == Good && EventReady(CandidateOf(p, Good), p.now, 25.0))
            && (v.pit == Service <==> p.status in {"quarantine", "service"}) && (v.pit == PitRetired <==> p.status == "retired")
            && v.health == Grade(p.reading) && v.score == Score(p.reading)
  {
    hide Grade, Score, SlotOf;
  }

  /** A pack the fleet gate lets through scores at least 57. */
  lemma ReadyScoresHigh(p: FleetPack)
    requires ViewOf(p).gate == GateReady
    ensures ViewOf(p).score.Some? && 57 <= ViewOf(p).score.value <= 100
  {
  }

  /** With whole counters, as the fleet's packs have them, at least 58. */
  lemma ReadyScoresHigher(p: FleetPack)
    requires ViewOf(p).gate == GateReady && WholeCounters(p.reading)
    ensures ViewOf(p).score.Some? && ViewOf(p).score.value >= 58
  {
    var i := p.reading;
    if i.cycles.Some? { WholeBelow(i.cycles.value, 300); }
    if i.months.Some? { WholeBelow(i.months.value, 48); }
    hide Rounding.Whole;
  }

  /** A pack the gate lets through with that score. */
  lemma ReadyBoundIsReached()
    ensures var p := FleetPack("active", Reading(Some(14.99), Some(12.5), Some(299.0), Some(47.0)), At(0), None, None, None, 0);
            WholeCounters(p.reading) && ViewOf(p).gate == GateReady && ViewOf(p).score == Some(58)
  {
    Rounding.FloorIs(299.0, 299);
    Rounding.FloorIs(47.0, 47);
  }

  /** The 25 mOhm limit decides nothing for a graded pack: any limit from 15 mOhm up lets the same packs through. */
  lemma ResistanceLimitNeverDecides(p: FleetPack, most: real)
    requires most >= RESISTANCE_AGING
    ensures var c := CandidateOf(p, Grade(p.reading));
            EventReady(c, p.now, READINESS_MAX_RESISTANCE) <==> EventReady(c, p.now, most)
  {
  }
}
