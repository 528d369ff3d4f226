/** The calendar feed writer, and a reader that follows RFC 5545. */
module Ics {
  import opened Wrappers
  import opened Numerals
  import opened Gregorian
  import opened IcsText

  const DEFAULT_DURATION_MS := 3_600_000
  const DAY_MS := 86_400_000

  datatype Event = Event(
    id: string, title: string, kind: string, location: string, description: string,
    startsAt: string, endsAt: Option<string>, updatedAt: string, allDay: bool)

  datatype Feed = Feed(orgName: Option<string>, teamNumber: Option<int>, scope: Option<string>, events: seq<Event>)

  /** What the JavaScript runtime decides: the instant a text names, if any, and upper case. */
  datatype Runtime = Runtime(parse: string -> Option<int>, upper: string -> string)

  datatype Prop = Prop(name: string, value: string)

  // ----- Times --------------------------------------------------------------------------------

  /** Milliseconds since 1970 as a UTC stamp. */
  function Stamp(ms: int): string {
    var d, rest := Civil(ms / DAY_MS), (ms % DAY_MS) / 1_000;
    IntToString(d.year) + Pad2(d.month) + Pad2(d.day) + "T"
      + Pad2(rest / 3_600) + Pad2(rest / 60 % 60) + Pad2(rest % 60) + "Z"
  }

  function FormatUtc(rt: Runtime, value: string): Option<string> {
    var ms := rt.parse(value);
    if ms.Some? then Some(Stamp(ms.value)) else None
  }

  /** Four digits, two and two, with hyphens between. */
  predicate DateShaped(value: string) {
    && |value| >= 10 && value[4] == '-' && value[7] == '-'
    && AllDigits(value[..4]) && AllDigits(value[5..7]) && AllDigits(value[8..10])
  }

  predicate DateValue(s: string) {
    |s| == 8 && AllDigits(s)
  }

  function FormatDateValue(value: string): (r: Option<string>)
    ensures r.Some? <==> DateShaped(value)
    ensures r.Some? ==> DateValue(r.value)
    ensures r.Some? ==> r.value[..4] + "-" + r.value[4..6] + "-" + r.value[6..] == value[..10]
  {
    if DateShaped(value) then Some(value[..4] + value[5..7] + value[8..10]) else None
  }

  function ExclusiveDateAfter(s: string): string
    requires DateValue(s)
  {
    var d := Civil(DateUTC(ReadNat(s[..4]), ReadNat(s[4..6]) - 1, ReadNat(s[6..8]) + 1));
    IntToString(d.year) + Pad2(d.month) + Pad2(d.day)
  }

  /** The date an eight-digit DATE value stands for. */
  function ReadDate(s: string): Date
    requires DateValue(s)
  {
    Date(ReadNat(s[..4]), ReadNat(s[4..6]), ReadNat(s[6..8]))
  }

  // ----- One event ----------------------------------------------------------------------------

  function EventStamp(ev: Event, rt: Runtime): Option<string> {
    var updated, starts := FormatUtc(rt, ev.updatedAt), FormatUtc(rt, ev.startsAt);
    if updated.Some? then updated else if starts.Some? then starts else FormatUtc(rt, "1970-01-01T00:00:00.000Z")
  }

  /** DTSTART and DTEND, or nothing when the start cannot be read. */
  function Times(ev: Event, rt: Runtime): Option<seq<Prop>> {
    if ev.allDay then
      var start := FormatDateValue(ev.startsAt);
      if start.None? then None
      else
        var end := FormatDateValue(ev.endsAt.GetOr(ev.startsAt)).GetOr(start.value);
        Some([Prop("DTSTART;VALUE=DATE", start.value), Prop("DTEND;VALUE=DATE", ExclusiveDateAfter(end))])
    else
      var start := rt.parse(ev.startsAt);
      if start.None? then None
      else
        var end := if ev.endsAt.Some? then FormatUtc(rt, ev.endsAt.value) else Some(Stamp(start.value + DEFAULT_DURATION_MS));
        Some([Prop("DTSTART", Stamp(start.value)), Prop("DTEND", end.GetOr(Stamp(start.value)))])
  }

  function TextProp(name: string, text: string): seq<Prop> {
    if text == "" then [] else [Prop(name, EscapeText(text))]
  }

  /** The properties of an event, in the order written; nothing when the event is left out. */
  function EventProps(ev: Event, domain: string, rt: Runtime): Option<seq<Prop>> {
    var stamp, times := EventStamp(ev, rt), Times(ev, rt);
    if stamp.None? || times.None? then None
    else
      Some(StampProps(ev, domain, stamp.value) + times.value
           + [Prop("SUMMARY", EscapeText(ev.title))] + TextProp("LOCATION", ev.location)
           + TextProp("DESCRIPTION", ev.description) + KindProp(ev, rt))
  }

  function StampProps(ev: Event, domain: string, stamp: string): seq<Prop> {
    [Prop("UID", ev.id + "@" + domain), Prop("DTSTAMP", stamp)]
  }

  function KindProp(ev: Event, rt: Runtime): seq<Prop> {
    if ev.kind == "" then [] else [Prop("CATEGORIES", EscapeText(rt.upper(ev.kind)))]
  }

  const BEGIN := ["BEGIN:VEVENT"]
  const END := ["END:VEVENT"]

  function Content(p: Prop): string {
    p.name + ":" + p.value
  }

  function Contents(ps: seq<Prop>): seq<string> {
    seq(|ps|, i requires 0 <= i < |ps| => Content(ps[i]))
  }

  /** The content lines of a VEVENT. */
  function Block(ps: seq<Prop>): seq<string> {
    BEGIN + Contents(ps) + END
  }

  /** Each content line folded into one text. */
  function Folded(lines: seq<string>): seq<string> {
    if lines == [] then [] else [FoldText(lines[0])] + Folded(lines[1..])
  }

  lemma {:induction false} FoldedAppend(a: seq<string>, b: seq<string>)
    ensures Folded(a + b) == Folded(a) + Folded(b)
  {
    if a == [] {
      assert a + b == b;
    } else {
      assert (a + b)[1..] == a[1..] + b;
      FoldedAppend(a[1..], b);
    }
  }

  lemma ContentsAppend(a: seq<Prop>, b: seq<Prop>)
    ensures Contents(a + b) == Contents(a) + Contents(b)
  {
  }

  /** One more property on an event under construction. */
  lemma PushProp(head: seq<string>, ps: seq<Prop>, p: Prop)
    ensures Folded(head + Contents(ps + [p])) == Folded(head + Contents(ps)) + [FoldText(Content(p))]
  {
    assert head + Contents(ps + [p]) == (head + Contents(ps)) + [Content(p)];
    FoldedAppend(head + Contents(ps), [Content(p)]);
    assert [Content(p)][1..] == [];
  }

  method PropLine(name: string, value: string) returns (line: string)
    ensures line == FoldText(Content(Prop(name, value)))
  {
    line := FoldLine(name + ":" + value);
  }

  lemma BracketText()
    ensures Folded(BEGIN) == BEGIN && Folded(END) == END
  {
    ShortFold("BEGIN:VEVENT");
    ShortFold("END:VEVENT");
  }

  /** A line of 75 or fewer is written as it is. */
  lemma ShortFold(line: string)
    requires |line| <= FIRST
    ensures FoldText(line) == line && Folded([line]) == [line]
  {
  }

  method PushText(lines: seq<string>, name: string, text: string, ghost ps: seq<Prop>) returns (out: seq<string>)
    requires lines == Folded(BEGIN + Contents(ps))
    ensures out == Folded(BEGIN + Contents(ps + TextProp(name, text)))
  {
    out := lines;
    if text != "" {
      var line := PropLine(name, EscapeText(text));
      out := out + [line];
      PushProp(BEGIN, ps, Prop(name, EscapeText(text)));
    } else {
      assert ps + [] == ps;
    }
  }

  method PushTimes(lines: seq<string>, ev: Event, rt: Runtime, ghost ps: seq<Prop>) returns (out: Option<seq<string>>)
    requires lines == Folded(BEGIN + Contents(ps))
    ensures var times := Times(ev, rt);
            out == if times.None? then None else Some(Folded(BEGIN + Contents(ps + times.value)))
  {
    hide Stamp, ExclusiveDateAfter, FormatDateValue, EscapeText, FoldText;
    var start, end;
    if ev.allDay {
      var startDay := FormatDateValue(ev.startsAt);
      if startDay.None? { return None; }
      var endDay := FormatDateValue(if ev.endsAt.Some? then ev.endsAt.value else ev.startsAt);
      start := PropLine("DTSTART;VALUE=DATE", startDay.value);
      end := PropLine("DTEND;VALUE=DATE", ExclusiveDateAfter(if endDay.Some? then endDay.value else startDay.value));
    } else {
      var from := rt.parse(ev.startsAt);
      if from.None? { return None; }
      var to := if ev.endsAt.Some? then FormatUtc(rt, ev.endsAt.value) else Some(Stamp(from.value + DEFAULT_DURATION_MS));
      start := PropLine("DTSTART", Stamp(from.value));
      end := PropLine("DTEND", if to.Some? then to.value else Stamp(from.value));
    }
    ghost var times := Times(ev, rt).value;
    PushProp(BEGIN, ps, times[0]);
    PushProp(BEGIN, ps + [times[0]], times[1]);
    assert ps + [times[0]] + [times[1]] == ps + times;
    out := Some(lines + [start] + [end]);
  }

  method BuildEventLines(ev: Event, domain: string, rt: Runtime) returns (out: Option<seq<string>>)
    ensures out == (var ps := EventProps(ev, domain, rt); if ps.None? then None else Some(Folded(Block(ps.value))))
  {
    hide EventStamp, Times, EscapeText, FoldText;
    var stamp := EventStamp(ev, rt);
    if stamp.None? { return None; }
    var uid := PropLine("UID", ev.id + "@" + domain);
    var dtstamp := PropLine("DTSTAMP", stamp.value);
    var lines := BEGIN + [uid, dtstamp];
    ghost var ps := StampProps(ev, domain, stamp.value);
    PushProp(BEGIN, [], ps[0]);
    PushProp(BEGIN, [ps[0]], ps[1]);
    BracketText();
    assert [] + [ps[0]] == [ps[0]] && [ps[0]] + [ps[1]] == ps && BEGIN + Contents([]) == BEGIN;

    var timed := PushTimes(lines, ev, rt, ps);
    if timed.None? { return None; }
    ps := ps + Times(ev, rt).value;
    var summary := PropLine("SUMMARY", EscapeText(ev.title));
    lines := timed.value + [summary];
    PushProp(BEGIN, ps, Prop("SUMMARY", EscapeText(ev.title)));
    ps := ps + [Prop("SUMMARY", EscapeText(ev.title))];
    lines := PushText(lines, "LOCATION", ev.location, ps);
    ps := ps + TextProp("LOCATION", ev.location);
    lines := PushText(lines, "DESCRIPTION", ev.description, ps);
    ps := ps + TextProp("DESCRIPTION", ev.description);
    if ev.kind != "" {
      var line := PropLine("CATEGORIES", EscapeText(rt.upper(ev.kind)));
      lines := lines + [line];
      PushProp(BEGIN, ps, Prop("CATEGORIES", EscapeText(rt.upper(ev.kind))));
    } else {
      assert ps + [] == ps;
    }
    ps := ps + KindProp(ev, rt);
    FoldedAppend(BEGIN + Contents(ps), END);
    assert EventProps(ev, domain, rt) == Some(ps);
    out := Some(lines + END);
  }

  // ----- The document -------------------------------------------------------------------------

  predicate DomainChar(c: char) {
    'a' <= c <= 'z' || 'A' <= c <= 'Z' || '0' <= c <= '9' || c == '.' || c == '-'
  }

  function KeepDomain(s: string): string {
    if s == "" then "" else (if DomainChar(s[0]) then [s[0]] else []) + KeepDomain(s[1..])
  }

  function Domain(raw: string): string {
    if KeepDomain(raw) == "" then "vantagefrc" else KeepDomain(raw)
  }

  function CalendarName(feed: Feed): string {
    var team :=
      if feed.teamNumber.Some? && feed.teamNumber.value != 0 then "Team " + IntToString(feed.teamNumber.value)
      else feed.orgName.GetOr("Team");
    var scope :=
      if feed.scope == Some("org") then " (team)" else if feed.scope == Some("subteam") then " (subteam)" else " (personal)";
    team + " \U{2014} Vantage" + scope
  }

  const START := ["BEGIN:VCALENDAR", "VERSION:2.0", "PRODID:-//Vantage FRC//Team Calendar//EN",
                  "CALSCALE:GREGORIAN", "METHOD:PUBLISH"]
  const ZONE := "X-WR-TIMEZONE:UTC"
  const CLOSE := "END:VCALENDAR"

  function Header(feed: Feed): seq<string> {
    START + [Content(Prop("X-WR-CALNAME", EscapeText(CalendarName(feed)))), ZONE]
  }

  /** The properties of the events that are written. */
  function Accepted(events: seq<Event>, domain: string, rt: Runtime): seq<seq<Prop>> {
    if events == [] then []
    else
      var ps := EventProps(events[0], domain, rt);
      (if ps.Some? then [ps.value] else []) + Accepted(events[1..], domain, rt)
  }

  function Blocks(events: seq<seq<Prop>>): seq<string> {
    if events == [] then [] else Block(events[0]) + Blocks(events[1..])
  }

  /** The content lines of the whole document. */
  function CalendarLines(feed: Feed, domain: string, rt: Runtime): seq<string> {
    Header(feed) + Blocks(Accepted(feed.events, domain, rt)) + [CLOSE]
  }

  lemma {:induction false} FoldedText(lines: seq<string>)
    ensures Terminated(Folded(lines)) == Terminated(Physical(lines))
  {
    if lines != [] {
      FoldedText(lines[1..]);
      JoinTerminated(FoldParts(lines[0]));
      PhysicalText(lines);
      assert Folded(lines)[1..] == Folded(lines[1..]);
    }
  }

  lemma HeaderText(feed: Feed)
    ensures Folded(Header(feed))
         == START + [FoldText(Content(Prop("X-WR-CALNAME", EscapeText(CalendarName(feed))))), ZONE]
  {
    var name := Content(Prop("X-WR-CALNAME", EscapeText(CalendarName(feed))));
    FoldedAppend(START, [name, ZONE]);
    FoldedAppend([name], [ZONE]);
    assert [name] + [ZONE] == [name, ZONE] && [name][1..] == [];
    ShortFold(ZONE);
    StartText();
  }

  lemma StartText()
    ensures Folded(START) == START
  {
    ShortLines(START);
  }

  lemma {:induction false} ShortLines(lines: seq<string>)
    requires forall l :: l in lines ==> |l| <= FIRST
    ensures Folded(lines) == lines
  {
    if lines != [] { ShortLines(lines[1..]); }
  }

  lemma PushBlock(head: seq<string>, blocks: seq<string>, block: seq<string>)
    ensures Folded(head + (blocks + block)) == Folded(head + blocks) + Folded(block)
  {
    hide Folded;
    assert head + (blocks + block) == (head + blocks) + block;
    FoldedAppend(head + blocks, block);
  }

  lemma {:induction false} AcceptedAppend(a: seq<Event>, ev: Event, domain: string, rt: Runtime)
    ensures var ps := EventProps(ev, domain, rt);
            Blocks(Accepted(a + [ev], domain, rt))
            == Blocks(Accepted(a, domain, rt)) + (if ps.Some? then Block(ps.value) else [])
  {
    hide EventProps, Block;
    if a == [] {
      assert [ev][1..] == [] && a + [ev] == [ev];
      var ps := EventProps(ev, domain, rt);
      if ps.Some? {
        assert Accepted([ev], domain, rt) == [ps.value] && [ps.value][1..] == [];
      }
    } else {
      assert (a + [ev])[1..] == a[1..] + [ev];
      AcceptedAppend(a[1..], ev, domain, rt);
      var first, rest := EventProps(a[0], domain, rt), Accepted(a[1..], domain, rt);
      var more := Accepted(a[1..] + [ev], domain, rt);
      if first.Some? {
        assert ([first.value] + rest)[1..] == rest && ([first.value] + more)[1..] == more;
      } else {
        assert [] + rest == rest && [] + more == more;
      }
    }
  }

  lemma NoBlocks(domain: string, rt: Runtime)
    ensures Blocks(Accepted([], domain, rt)) == []
  {
  }

  method BuildCalendar(feed: Feed, rawDomain: string, rt: Runtime) returns (doc: string)
    ensures doc == Terminated(Physical(CalendarLines(feed, Domain(rawDomain), rt)))
  {
    hide Block, EventProps, EscapeText, FoldText, CalendarName, Domain, Blocks, Accepted;
    var domain := Domain(rawDomain);
    var name := PropLine("X-WR-CALNAME", EscapeText(CalendarName(feed)));
    var lines := START + [name, ZONE];
    HeaderText(feed);
    ghost var head := Header(feed);
    NoBlocks(domain, rt);
    assert head + [] == head;
    for i := 0 to |feed.events|
      invariant lines == Folded(head + Blocks(Accepted(feed.events[..i], domain, rt)))
    {
      var eventLines := BuildEventLines(feed.events[i], domain, rt);
      assert feed.events[..i + 1] == feed.events[..i] + [feed.events[i]];
      AcceptedAppend(feed.events[..i], feed.events[i], domain, rt);
      ghost var before := Blocks(Accepted(feed.events[..i], domain, rt));
      assert before + [] == before;
      if eventLines.Some? {
        PushBlock(head, before, Block(EventProps(feed.events[i], domain, rt).value));
        lines := lines + eventLines.value;
      }
    }
    assert feed.events[..|feed.events|] == feed.events;
    ghost var all := head + Blocks(Accepted(feed.events, domain, rt));
    FoldedAppend(all, [CLOSE]);
    ShortFold(CLOSE);
    lines := lines + [CLOSE];
    JoinTerminated(lines);
    FoldedText(all + [CLOSE]);
    doc := Join(lines) + "\r\n";
  }
}
