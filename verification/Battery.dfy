/**
 * The rules for a team's robot batteries: how worn a pack is, where it stands on the competition cart,
 * whether it may go to a match, and which pack comes next. Measurements are reals, times milliseconds.
 */
module Battery {
  import opened Wrappers
  import opened Rounding
  import opened Stamps

  datatype PackStatus = Active | Quarantine | Retired

  // ----- Wear ---------------------------------------------------------------------------------

  datatype HealthStatus = Good | Aging | Retire

  datatype Reading = Reading(resistance: Option<real>, voltage: Option<real>, cycles: Option<real>, months: Option<real>)

  datatype Reason =
    | PastRetire(mohm: real)
    | Elevated(mohm: real)
    | LowVoltage(volts: real)
    | Old(years: int)
    | ManyCycles(cycles: real)
    | LowComposite
    | Unmeasured

  datatype Health = Health(status: HealthStatus, score: Option<int>, reasons: seq<Reason>)

  const RESISTANCE_AGING := 15.0
  const RESISTANCE_RETIRE := 20.0
  const VOLTAGE_LOW := 12.0
  const VOLTAGE_FULL := 12.8
  const AGE_AGING_MONTHS := 48.0
  const CYCLES_AGING := 300.0

  function Rank(s: HealthStatus): int {
    match s case Good => 0 case Aging => 1 case Retire => 2
  }

  function Clamp(v: real, lo: real, hi: real): real {
    Min(hi, Max(lo, v))
  }

  predicate Measured(i: Reading) {
    i.resistance.Some? || i.voltage.Some?
  }

  function Drop(v: Option<real>, factor: real, from: real, most: real): real {
    if v.Some? then Clamp((v.value - from) * factor, 0.0, most) else 0.0
  }

  function Raw(i: Reading): real {
    100.0 - Drop(i.resistance, 5.0, 12.0, 60.0) - Drop(i.voltage, -10.0, VOLTAGE_FULL, 25.0)
    - Drop(i.cycles, 0.05, 0.0, 15.0) - Drop(i.months, 0.2, 0.0, 15.0)
  }

  function Score(i: Reading): Option<int> {
    if !Measured(i) then None
    else
      var rounded := Round(Raw(i));
      Some(if rounded < 0 then 0 else if rounded > 100 then 100 else rounded)
  }

  /** A pack is as bad as its worst sign. */
  function Grade(i: Reading): HealthStatus {
    if i.resistance.Some? && i.resistance.value >= RESISTANCE_RETIRE then Retire
    else if (i.resistance.Some? && i.resistance.value >= RESISTANCE_AGING)
            || (i.voltage.Some? && i.voltage.value < VOLTAGE_LOW)
            || (i.months.Some? && i.months.value >= AGE_AGING_MONTHS)
            || (i.cycles.Some? && i.cycles.value >= CYCLES_AGING) then Aging
    else Good
  }

  /** When a reason is given. The composite score is never one. */
  predicate Holds(r: Reason, i: Reading) {
    match r
    case PastRetire(mohm) => i.resistance == Some(mohm) && mohm >= RESISTANCE_RETIRE
    case Elevated(mohm) => i.resistance == Some(mohm) && RESISTANCE_AGING <= mohm < RESISTANCE_RETIRE
    case LowVoltage(volts) => i.voltage == Some(volts) && volts < VOLTAGE_LOW
    case Old(years) => i.months.Some? && i.months.value >= AGE_AGING_MONTHS && years == Round(i.months.value / 12.0)
    case ManyCycles(cycles) => i.cycles == Some(cycles) && cycles >= CYCLES_AGING
    case LowComposite => false
    case Unmeasured => !Measured(i)
  }

  function Escalate(status: HealthStatus, next: HealthStatus): HealthStatus {
    if Rank(next) > Rank(status) then next else status
  }

  method BatteryHealth(i: Reading) returns (h: Health)
    ensures h.status == Grade(i) && h.score == Score(i)
    ensures forall r :: r in h.reasons <==> Holds(r, i)
  {
    hide Grade, Score;
    var status, reasons := Signs(i);
    var score: Option<int> := None;
    if Measured(i) {
      var raw := Composite(i);
      score := Some(raw);
      GoodScoresHigh(i);
      if status == Good && score.value < 50 {
        status := Escalate(status, Aging);
        reasons := reasons + [LowComposite];
      }
    } else {
      reasons := reasons + [Unmeasured];
    }
    ScoreRange(i);
    h := Health(status, score, reasons);
  }

  /** The first half: the wear signs, each of which can only worsen the status. */
  method Signs(i: Reading) returns (status: HealthStatus, reasons: seq<Reason>)
    ensures status == Grade(i)
    ensures forall r :: r in reasons <==> Holds(r, i) && !r.Unmeasured?
  {
    status, reasons := Good, [];
    if i.resistance.Some? {
      if i.resistance.value >= RESISTANCE_RETIRE {
        status := Escalate(status, Retire);
        reasons := reasons + [PastRetire(i.resistance.value)];
      } else if i.resistance.value >= RESISTANCE_AGING {
        status := Escalate(status, Aging);
        reasons := reasons + [Elevated(i.resistance.value)];
      }
    }
    assert forall r :: r in reasons <==> Holds(r, i) && (r.PastRetire? || r.Elevated?);
    if i.voltage.Some? && i.voltage.value < VOLTAGE_LOW {
      status := Escalate(status, Aging);
      reasons := reasons + [LowVoltage(i.voltage.value)];
    }
    assert forall r :: r in reasons <==> Holds(r, i) && (r.PastRetire? || r.Elevated? || r.LowVoltage?);
    if i.months.Some? && i.months.value >= AGE_AGING_MONTHS {
      status := Escalate(status, Aging);
      reasons := reasons + [Old(Round(i.months.value / 12.0))];
    }
    if i.cycles.Some? && i.cycles.value >= CYCLES_AGING {
      status := Escalate(status, Aging);
      reasons := reasons + [ManyCycles(i.cycles.value)];
    }
  }

  /** The second half: 100 less what each measurement and counter takes off. */
  method Composite(i: Reading) returns (score: int)
    requires Measured(i)
    ensures Score(i) == Some(score)
  {
    var raw := 100.0;
    if i.resistance.Some? { raw := raw - Clamp((i.resistance.value - 12.0) * 5.0, 0.0, 60.0); }
    if i.voltage.Some? { raw := raw - Clamp((VOLTAGE_FULL - i.voltage.value) * 10.0, 0.0, 25.0); }
    if i.cycles.Some? { raw := raw - Clamp(i.cycles.value * 0.05, 0.0, 15.0); }
    if i.months.Some? { raw := raw - Clamp(i.months.value * 0.2, 0.0, 15.0); }
    var rounded := Round(raw);
    score := if rounded < 0 then 0 else if rounded > 100 then 100 else rounded;
  }

  /** A pack graded good scores at least 52, so the rule for a low composite score never fires. */
  lemma GoodScoresHigh(i: Reading)
    ensures Grade(i) == Good && Measured(i) ==> 52 <= Score(i).value <= 100
  {
  }

  /** The grade by the measurements: to be retired from 20 mOhm, aging from any lesser sign of wear. */
  lemma GradeIff(i: Reading)
    ensures var retire := i.resistance.Some? && i.resistance.value >= 20.0;
            var aging := || (i.resistance.Some? && i.resistance.value >= 15.0) || (i.voltage.Some? && i.voltage.value < 12.0)
                         || (i.months.Some? && i.months.value >= 48.0) || (i.cycles.Some? && i.cycles.value >= 300.0);
            && (Grade(i) == Retire <==> retire) && (Grade(i) == Aging <==> aging && !retire)
            && (Grade(i) == Good <==> !aging)
  {
  }

  /** Nothing is taken off at `free`, everything at `full`, and in proportion between; nothing for what is unknown. */
  ghost predicate TakesOff(x: Option<real>, free: real, full: real, most: real, off: real)
    requires free != full
  {
    match x
    case None => off == 0.0
    case Some(v) =>
      var part := (v - free) / (full - free);
      off == if part <= 0.0 then 0.0 else if part >= 1.0 then most else part * most
  }

  lemma DropTakesOff(i: Reading)
    ensures TakesOff(i.resistance, 12.0, 24.0, 60.0, Drop(i.resistance, 5.0, 12.0, 60.0))
    ensures TakesOff(i.voltage, 12.8, 10.3, 25.0, Drop(i.voltage, -10.0, 12.8, 25.0))
    ensures TakesOff(i.cycles, 0.0, 300.0, 15.0, Drop(i.cycles, 0.05, 0.0, 15.0))
    ensures TakesOff(i.months, 0.0, 75.0, 15.0, Drop(i.months, 0.2, 0.0, 15.0))
  {
  }

  /**
   * The score is the nearest whole number to 100 less what each measurement and counter takes off, and 0 at the
   * least.
   */
  lemma ScoreIs(i: Reading)
    requires i.resistance.Some? || i.voltage.Some?
    ensures exists r, v, c, m ::
              && TakesOff(i.resistance, 12.0, 24.0, 60.0, r) && TakesOff(i.voltage, 12.8, 10.3, 25.0, v)
              && TakesOff(i.cycles, 0.0, 300.0, 15.0, c) && TakesOff(i.months, 0.0, 75.0, 15.0, m)
              && Score(i).Some?
              && if 100.0 - r - v - c - m < 0.0 then Score(i).value == 0
                 else (100.0 - r - v - c - m) - 0.5 < Score(i).value as real <= (100.0 - r - v - c - m) + 0.5
  {
    DropTakesOff(i);
    DropsArePositive(i);
    hide TakesOff, Drop;
    RoundIsNearest(Raw(i));
    var rounded := Round(Raw(i));
    assert rounded > 100 ==> rounded as real >= 101.0;
    assert rounded < 0 ==> rounded as real <= -1.0;
    assert rounded > 0 ==> rounded as real >= 1.0;
  }

  lemma DropsArePositive(i: Reading)
    ensures Raw(i) <= 100.0
  {
  }

  /** The counters as they come from the logs and the calendar: whole numbers. */
  predicate WholeCounters(i: Reading) {
    (i.cycles.Some? ==> Whole(i.cycles.value)) && (i.months.Some? ==> Whole(i.months.value))
  }

  /** With whole counters a good pack scores at least 53. */
  lemma GoodScoresHigher(i: Reading)
    requires WholeCounters(i)
    ensures Grade(i) == Good && Measured(i) ==> Score(i).value >= 53
  {
    if i.cycles.Some? { WholeBelow(i.cycles.value, 300); }
    if i.months.Some? { WholeBelow(i.months.value, 48); }
    hide Whole;
  }

  lemma WholeBelow(x: real, n: int)
    requires Whole(x)
    ensures x < n as real ==> x <= n as real - 1.0
  {
    var d := n - x.Floor;
    assert d as real == n as real - x.Floor as real;
  }

  /** Both bounds are reached: 52 by a good pack with any counters, 53 by one with whole ones. */
  lemma GoodBoundIsReached()
    ensures var i := Reading(Some(14.99), Some(12.0), Some(299.9), Some(47.9)); Grade(i) == Good && Score(i) == Some(52)
    ensures var i := Reading(Some(14.99), Some(12.0), Some(299.0), Some(47.0));
            WholeCounters(i) && Grade(i) == Good && Score(i) == Some(53)
  {
    FloorIs(299.0, 299);
    FloorIs(47.0, 47);
  }

  lemma ScoreRange(i: Reading)
    ensures Score(i).Some? <==> i.resistance.Some? || i.voltage.Some?
    ensures Score(i).Some? ==> 0 <= Score(i).value <= 100
  {
  }

  /** Both measured, the second no better; or neither. */
  predicate NoBetter(a: Option<real>, b: Option<real>) {
    (a.None? <==> b.None?) && (a.Some? ==> a.value <= b.value)
  }

  /** A counter that grew, or came to be known. */
  predicate NoLess(a: Option<real>, b: Option<real>) {
    a.None? || (b.Some? && a.value <= b.value)
  }

  /** More resistance, less voltage, more age or more cycles never raises the score nor improves the grade. */
  lemma WearOnlyLowers(a: Reading, b: Reading)
    requires NoBetter(a.resistance, b.resistance) && NoBetter(b.voltage, a.voltage)
    requires NoLess(a.cycles, b.cycles) && NoLess(a.months, b.months)
    ensures Rank(Grade(a)) <= Rank(Grade(b))
    ensures Score(a).Some? <==> Score(b).Some?
    ensures Score(a).Some? ==> Score(b).value <= Score(a).value
  {
    hide Clamp;
    if a.resistance.Some? { ClampGrows((a.resistance.value - 12.0) * 5.0, (b.resistance.value - 12.0) * 5.0, 60.0); }
    if a.voltage.Some? {
      ClampGrows((a.voltage.value - VOLTAGE_FULL) * -10.0, (b.voltage.value - VOLTAGE_FULL) * -10.0, 25.0);
    }
    if a.cycles.Some? { ClampGrows((a.cycles.value - 0.0) * 0.05, (b.cycles.value - 0.0) * 0.05, 15.0); }
    if b.cycles.Some? { ClampGrows(0.0, (b.cycles.value - 0.0) * 0.05, 15.0); }
    if a.months.Some? { ClampGrows((a.months.value - 0.0) * 0.2, (b.months.value - 0.0) * 0.2, 15.0); }
    if b.months.Some? { ClampGrows(0.0, (b.months.value - 0.0) * 0.2, 15.0); }
    assert Raw(b) <= Raw(a);
    hide Raw, Drop;
  }

  lemma ClampGrows(x: real, y: real, most: real)
    requires most >= 0.0
    ensures 0.0 <= Clamp(y, 0.0, most) <= most
    ensures x <= y ==> Clamp(x, 0.0, most) <= Clamp(y, 0.0, most)
  {
  }

  // ----- The competition cart -----------------------------------------------------------------

  const COOLDOWN_MINUTES := 15
  const MINUTE_MS := 60_000

  datatype SlotKind = Parked | NeedsCharge | Cooling | ReadyToTest | Ready
  datatype Slot = Slot(kind: SlotKind, minutesRemaining: Option<int>)
  datatype History = History(charged: Stamp, used: Stamp, tested: Stamp)

  function CartSlot(status: PackStatus, h: History, now: Stamp): Slot {
    if status != Active then Slot(Parked, None)
    else if h.used.At? && (!h.charged.At? || h.used.ms > h.charged.ms) then Slot(NeedsCharge, None)
    else if !h.charged.At? then Slot(NeedsCharge, None)
    else if !now.At? then Slot(Cooling, Some(COOLDOWN_MINUTES))
    else
      var elapsed := (now.ms - h.charged.ms) as real / 60_000.0;
      if elapsed < COOLDOWN_MINUTES as real then
        var remaining := Ceil(COOLDOWN_MINUTES as real - elapsed);
        Slot(Cooling, Some(if remaining < 0 then 0 else remaining))
      else if !h.tested.At? || h.tested.ms < h.charged.ms + COOLDOWN_MINUTES * MINUTE_MS || h.tested.ms > now.ms then
        Slot(ReadyToTest, Some(0))
      else Slot(Ready, Some(0))
  }

  /** The other slots, by the log's times alone. */
  lemma SlotIff(status: PackStatus, h: History, now: int)
    ensures var kind := CartSlot(status, h, At(now)).kind;
            var charged := h.charged.At? && (h.used.At? ==> h.used.ms <= h.charged.ms);
            && (kind == Parked <==> status != Active)
            && (kind == NeedsCharge <==> status == Active && !charged)
            && (kind == Cooling <==> status == Active && charged && now < h.charged.ms + 900_000)
  {
  }

  /** Ready means: charged after the last use, at least 15 minutes ago, and tested after those 15 minutes. */
  lemma ReadyIff(status: PackStatus, h: History, now: int)
    ensures CartSlot(status, h, At(now)).kind == Ready <==>
              && status == Active && h.charged.At? && h.tested.At?
              && (h.used.At? ==> h.used.ms <= h.charged.ms)
              && h.charged.ms + 900_000 <= h.tested.ms <= now
  {
  }

  /** While cooling, the minutes shown are the least whole number after which the pack no longer cools. */
  lemma RemainingIsLeast(status: PackStatus, h: History, now: int, k: nat)
    requires CartSlot(status, h, At(now)).kind == Cooling
    ensures CartSlot(status, h, At(now)).minutesRemaining.value > 0
    ensures CartSlot(status, h, At(now + k * 60_000)).kind == Cooling
       <==> k < CartSlot(status, h, At(now)).minutesRemaining.value
  {
    var gone := (now - h.charged.ms) as real / 60_000.0;
    assert (now + k * 60_000 - h.charged.ms) as real / 60_000.0 == gone + k as real;
  }

  function Stage(k: SlotKind): int {
    match k case Parked => 0 case NeedsCharge => 0 case Cooling => 1 case ReadyToTest => 2 case Ready => 3
  }

  /** With nothing new logged, a pack only moves on as time passes: cooling, cool, ready. */
  lemma SlotMovesOn(status: PackStatus, h: History, now: int, later: int)
    requires now <= later
    ensures Stage(CartSlot(status, h, At(now)).kind) <= Stage(CartSlot(status, h, At(later)).kind)
  {
    assert h.charged.At? ==> (now - h.charged.ms) as real / 60_000.0 <= (later - h.charged.ms) as real / 60_000.0;
  }

  // ----- Event readiness ----------------------------------------------------------------------

  const READINESS_MAX_AGE_MS := 64_800_000
  const READINESS_MIN_VOLTAGE := 12.5
  const READINESS_MAX_RESISTANCE := 25.0

  /** `charged`, `used` and `tested` are None when the caller does not pass them at all. */
  datatype Candidate = Candidate(
    status: PackStatus, health: HealthStatus, measuredAt: Stamp, voltage: Option<real>, resistance: Option<real>,
    charged: Option<Stamp>, used: Option<Stamp>, tested: Option<Stamp>)

  datatype Blocker =
    | NotActive(status: PackStatus)
    | HealthRetire
    | HealthAging
    | NoVoltage
    | NoResistance
    | ReadingTimeInvalid
    | ReadingTooOld
    | ReadingTimeUnknown
    | VoltageBelow(volts: real)
    | ResistanceAbove(mohm: real)
    | NotOnCart(slot: SlotKind)

  predicate LogsGiven(c: Candidate) {
    c.charged.Some? || c.used.Some? || c.tested.Some?
  }

  function SlotOf(c: Candidate, now: int): SlotKind {
    CartSlot(c.status, History(c.charged.GetOr(Absent), c.used.GetOr(Absent), c.tested.GetOr(Absent)), At(now)).kind
  }

  predicate Blocks(b: Blocker, c: Candidate, now: int) {
    match b
    case NotActive(status) => c.status == status != Active
    case HealthRetire => c.health == Retire
    case HealthAging => c.health == Aging
    case NoVoltage => c.voltage.None?
    case NoResistance => c.resistance.None?
    case ReadingTimeUnknown => c.measuredAt.Absent?
    case ReadingTimeInvalid => c.measuredAt.Unreadable? || (c.measuredAt.At? && c.measuredAt.ms > now)
    case ReadingTooOld => c.measuredAt.At? && now - c.measuredAt.ms > READINESS_MAX_AGE_MS
    case VoltageBelow(volts) => c.voltage == Some(volts) && volts < READINESS_MIN_VOLTAGE
    case ResistanceAbove(mohm) => c.resistance == Some(mohm) && mohm > READINESS_MAX_RESISTANCE
    case NotOnCart(slot) => LogsGiven(c) && slot == SlotOf(c, now) != Ready
  }

  /** Ready for an event, with `most` as the highest resistance let through. */
  predicate EventReady(c: Candidate, now: int, most: real) {
    && c.status == Active && c.health == Good
    && c.voltage.Some? && c.voltage.value >= READINESS_MIN_VOLTAGE
    && c.resistance.Some? && c.resistance.value <= most
    && c.measuredAt.At? && 0 <= now - c.measuredAt.ms <= READINESS_MAX_AGE_MS
    && (LogsGiven(c) ==> SlotOf(c, now) == Ready)
  }

  method CompetitionReadiness(c: Candidate, now: int) returns (ready: bool, reasons: seq<Blocker>)
    ensures ready <==> EventReady(c, now, READINESS_MAX_RESISTANCE)
    ensures forall b :: b in reasons <==> Blocks(b, c, now)
  {
    hide Blocks, EventReady, SlotOf;
    var standing := StandingBlockers(c, now);
    var reading := ReadingBlockers(c, now);
    reasons := standing + reading;
    if LogsGiven(c) && SlotOf(c, now) != Ready { reasons := reasons + [NotOnCart(SlotOf(c, now))]; }
    CartBlocks(c, now);
    ready := reasons == [];
    assert ready <==> forall b :: b !in reasons by {
      assert !ready ==> reasons[0] in reasons;
    }
    ReadyIffUnblocked(c, now);
  }

  lemma CartBlocks(c: Candidate, now: int)
    ensures forall slot :: Blocks(NotOnCart(slot), c, now) <==> LogsGiven(c) && slot == SlotOf(c, now) && slot != Ready
  {
  }

  predicate OfStanding(b: Blocker) {
    b.NotActive? || b.HealthRetire? || b.HealthAging? || b.NoVoltage? || b.NoResistance?
  }

  method StandingBlockers(c: Candidate, now: int) returns (reasons: seq<Blocker>)
    ensures forall b :: b in reasons <==> Blocks(b, c, now) && OfStanding(b)
  {
    reasons := [];
    if c.status != Active { reasons := reasons + [NotActive(c.status)]; }
    if c.health == Retire {
      reasons := reasons + [HealthRetire];
    } else if c.health == Aging {
      reasons := reasons + [HealthAging];
    }
    assert forall b :: b in reasons <==> Blocks(b, c, now) && (b.NotActive? || b.HealthRetire? || b.HealthAging?);
    if c.voltage.None? { reasons := reasons + [NoVoltage]; }
    if c.resistance.None? { reasons := reasons + [NoResistance]; }
  }

  method ReadingBlockers(c: Candidate, now: int) returns (reasons: seq<Blocker>)
    ensures forall b :: b in reasons <==> Blocks(b, c, now) && !OfStanding(b) && !b.NotOnCart?
  {
    reasons := [];
    if !c.measuredAt.Absent? {
      if c.measuredAt.Unreadable? || now - c.measuredAt.ms < 0 {
        reasons := reasons + [ReadingTimeInvalid];
      } else if now - c.measuredAt.ms > READINESS_MAX_AGE_MS {
        reasons := reasons + [ReadingTooOld];
      }
    } else {
      reasons := reasons + [ReadingTimeUnknown];
    }
    assert forall b :: b in reasons <==>
      Blocks(b, c, now) && (b.ReadingTimeInvalid? || b.ReadingTooOld? || b.ReadingTimeUnknown?);
    if c.voltage.Some? && c.voltage.value < READINESS_MIN_VOLTAGE {
      reasons := reasons + [VoltageBelow(c.voltage.value)];
    }
    if c.resistance.Some? && c.resistance.value > READINESS_MAX_RESISTANCE {
      reasons := reasons + [ResistanceAbove(c.resistance.value)];
    }
  }

  lemma ReadyIffUnblocked(c: Candidate, now: int)
    ensures EventReady(c, now, READINESS_MAX_RESISTANCE) <==> forall b :: !Blocks(b, c, now)
  {
    hide CartSlot;
    if !EventReady(c, now, READINESS_MAX_RESISTANCE) {
      assert || Blocks(NotActive(c.status), c, now) || Blocks(HealthRetire, c, now) || Blocks(HealthAging, c, now)
             || Blocks(NoVoltage, c, now) || Blocks(NoResistance, c, now) || Blocks(ReadingTimeUnknown, c, now)
             || Blocks(ReadingTimeInvalid, c, now) || Blocks(ReadingTooOld, c, now)
             || (c.voltage.Some? && Blocks(VoltageBelow(c.voltage.value), c, now))
             || (c.resistance.Some? && Blocks(ResistanceAbove(c.resistance.value), c, now))
             || Blocks(NotOnCart(SlotOf(c, now)), c, now);
    }
  }

  /**
   * Fit for an event, by the figures: graded good, at least 12.5 V, at most 25 mOhm, read within 18 hours, and
   * off the cart's rest.
   */
  lemma EventReadyIff(c: Candidate, now: int)
    ensures EventReady(c, now, READINESS_MAX_RESISTANCE) <==>
              && c.status == Active && c.health == Good
              && c.voltage.Some? && c.voltage.value >= 12.5 && c.resistance.Some? && c.resistance.value <= 25.0
              && c.measuredAt.At? && now - 64_800_000 <= c.measuredAt.ms <= now
              && (c.charged.Some? || c.used.Some? || c.tested.Some? ==>
                    var charged, used, tested := c.charged.GetOr(Absent), c.used.GetOr(Absent), c.tested.GetOr(Absent);
                    && charged.At? && tested.At? && (used.At? ==> used.ms <= charged.ms)
                    && charged.ms + 900_000 <= tested.ms <= now)
  {
    hide CartSlot;
    ReadyIff(c.status, History(c.charged.GetOr(Absent), c.used.GetOr(Absent), c.tested.GetOr(Absent)), now);
  }
}
