/** What a reader of the calendar feed gets back. */
module IcsProofs {
  import opened Wrappers
  import opened Numerals
  import opened Gregorian
  import opened IcsText
  import opened Ics

  // ----- The reader ---------------------------------------------------------------------------

  /** Name and value of a content line, cut at its first colon. */
  function SplitColon(line: string): Prop {
    if line == "" then Prop("", "")
    else if line[0] == ':' then Prop("", line[1..])
    else var p := SplitColon(line[1..]); Prop([line[0]] + p.name, p.value)
  }

  /**
   * The events between BEGIN:VEVENT and END:VEVENT, `open` being the one under way. Nothing comes of
   * lines in which the two do not alternate.
   */
  function ReadEvents(open: Option<seq<Prop>>, lines: seq<string>): Option<seq<seq<Prop>>>
    decreases |lines|
  {
    if lines == [] then (if open.None? then Some([]) else None)
    else if lines[0] == BEGIN[0] then (if open.None? then ReadEvents(Some([]), lines[1..]) else None)
    else if lines[0] == END[0] then
      if open.None? then None
      else
        var rest := ReadEvents(None, lines[1..]);
        if rest.None? then None else Some([open.value] + rest.value)
    else ReadEvents(if open.None? then None else Some(open.value + [SplitColon(lines[0])]), lines[1..])
  }

  /** Unfold, cut into lines, collect the events. */
  function ReadCalendar(doc: string): Option<seq<seq<Prop>>> {
    ReadEvents(None, SplitLines("", Unfold(doc)))
  }

  function Field(ps: seq<Prop>, name: string): Option<string> {
    if ps == [] then None else if ps[0].name == name then Some(ps[0].value) else Field(ps[1..], name)
  }

  /** A TEXT property, unescaped. */
  function Text(ps: seq<Prop>, name: string): Option<string> {
    var f := Field(ps, name);
    if f.Some? then Some(Unescape(f.value)) else None
  }

  // ----- Lines without breaks -----------------------------------------------------------------

  predicate NoBreaks(s: string) {
    forall i :: 0 <= i < |s| ==> !IsBreak(s[i])
  }

  lemma DigitsHaveNoBreaks(s: string)
    requires AllDigits(s)
    ensures NoBreaks(s)
  {
    forall i | 0 <= i < |s| ensures !IsBreak(s[i]) { assert IsDigit(s[i]); }
  }

  lemma {:induction false} EscapedHasNoBreaks(s: string)
    requires Escaped(s)
    ensures NoBreaks(s)
    decreases |s|
  {
    if s != "" {
      var width := if s[0] == '\\' then 2 else 1;
      EscapedHasNoBreaks(s[width..]);
      forall i | 0 <= i < |s| ensures !IsBreak(s[i]) {
        if i >= width { assert s[i] == s[width..][i - width]; }
      }
    }
  }

  lemma StampHasNoBreaks(ms: int)
    ensures NoBreaks(Stamp(ms))
  {
    var d, rest := Civil(ms / DAY_MS), (ms % DAY_MS) / 1_000;
    var year := IntToString(d.year);
    assert NoBreaks(year) by { DigitsHaveNoBreaks(NatToString(if d.year < 0 then -d.year else d.year)); }
    DigitsHaveNoBreaks(Pad2(d.month));
    DigitsHaveNoBreaks(Pad2(d.day));
    DigitsHaveNoBreaks(Pad2(rest / 3_600));
    DigitsHaveNoBreaks(Pad2(rest / 60 % 60));
    DigitsHaveNoBreaks(Pad2(rest % 60));
    hide Civil, IntToString, Pad2;
    StampParts(year, Pad2(d.month), Pad2(d.day), Pad2(rest / 3_600), Pad2(rest / 60 % 60), Pad2(rest % 60));
  }

  lemma StampParts(a: string, b: string, c: string, d: string, e: string, f: string)
    requires NoBreaks(a) && NoBreaks(b) && NoBreaks(c) && NoBreaks(d) && NoBreaks(e) && NoBreaks(f)
    ensures NoBreaks(a + b + c + "T" + d + e + f + "Z")
  {
    assert NoBreaks(a + b + c + "T");
    assert NoBreaks(a + b + c + "T" + d + e + f);
  }

  lemma DateHasNoBreaks(s: string)
    requires DateValue(s)
    ensures NoBreaks(s) && NoBreaks(ExclusiveDateAfter(s))
  {
    DigitsHaveNoBreaks(s);
    var d := Civil(DateUTC(ReadNat(s[..4]), ReadNat(s[4..6]) - 1, ReadNat(s[6..8]) + 1));
    DigitsHaveNoBreaks(NatToString(if d.year < 0 then -d.year else d.year));
    DigitsHaveNoBreaks(Pad2(d.month));
    DigitsHaveNoBreaks(Pad2(d.day));
  }

  // ----- Content lines ------------------------------------------------------------------------

  /** A name no reader mistakes for a bracket, a continuation or two names, and a value on one line. */
  predicate Sound(p: Prop) {
    SoundName(p.name) && NoCrlf(p.value)
  }

  predicate SoundName(name: string) {
    name != "" && name[0] !in "BE \t" && ':' !in name && NoBreaks(name)
  }

  /** The characters of property names and of their VALUE parameter. */
  predicate NameChar(c: char) {
    'A' <= c <= 'Z' || c == ';' || c == '=' || c == '-'
  }

  lemma NameIsSound(name: string)
    requires name != "" && name[0] != 'B' && name[0] != 'E' && forall i :: 0 <= i < |name| ==> NameChar(name[i])
    ensures SoundName(name)
  {
  }

  predicate AllSound(ps: seq<Prop>) {
    forall i :: 0 <= i < |ps| ==> Sound(ps[i])
  }

  lemma {:induction false} SplitContent(p: Prop)
    requires ':' !in p.name
    ensures SplitColon(Content(p)) == p
    decreases |p.name|
  {
    var line := Content(p);
    if p.name == "" {
      assert line == ":" + p.value && line[1..] == p.value;
    } else {
      var q := Prop(p.name[1..], p.value);
      assert line[1..] == Content(q) && line[0] == p.name[0];
      SplitContent(q);
      assert [p.name[0]] + q.name == p.name;
    }
  }

  lemma SoundContent(p: Prop)
    requires Sound(p)
    ensures NoCrlf(Content(p)) && !StartsBlank(Content(p))
    ensures Content(p) != BEGIN[0] && Content(p) != END[0]
  {
    var line, n := Content(p), |p.name|;
    forall i | 0 < i < |line| ensures !(line[i - 1] == '\r' && line[i] == '\n') {
      if i - 1 < n {
        assert line[i - 1] == p.name[i - 1];
      } else if i - 1 > n {
        assert line[i] == p.value[i - n - 1] && line[i - 1] == p.value[i - n - 2];
      }
    }
    assert line[0] == p.name[0];
  }

  lemma {:induction false} ReadSkips(lines: seq<string>, rest: seq<string>)
    requires forall l :: l in lines ==> l != BEGIN[0] && l != END[0]
    ensures ReadEvents(None, lines + rest) == ReadEvents(None, rest)
  {
    if lines == [] {
      assert lines + rest == rest;
    } else {
      assert (lines + rest)[1..] == lines[1..] + rest && lines[0] in lines;
      assert forall l :: l in lines[1..] ==> l in lines;
      ReadSkips(lines[1..], rest);
    }
  }

  lemma {:induction false} ReadProps(done: seq<Prop>, ps: seq<Prop>, rest: seq<string>)
    requires AllSound(ps)
    ensures ReadEvents(Some(done), Contents(ps) + (END + rest))
         == (var more := ReadEvents(None, rest); if more.None? then None else Some([done + ps] + more.value))
    decreases |ps|
  {
    var lines := Contents(ps) + (END + rest);
    if ps == [] {
      assert lines == END + rest && lines[1..] == rest && done + ps == done && END[0] != BEGIN[0];
    } else {
      assert lines[0] == Content(ps[0]) && lines[1..] == Contents(ps[1..]) + (END + rest);
      SoundContent(ps[0]);
      SplitContent(ps[0]);
      ReadProps(done + [ps[0]], ps[1..], rest);
      assert done + [ps[0]] + ps[1..] == done + ps;
    }
  }

  lemma ReadBlock(ps: seq<Prop>, tail: seq<string>)
    requires AllSound(ps)
    ensures ReadEvents(None, Block(ps) + tail)
         == (var more := ReadEvents(None, tail); if more.None? then None else Some([ps] + more.value))
  {
    hide AllSound;
    var lines := Block(ps) + tail;
    assert lines[0] == BEGIN[0] && lines[1..] == Contents(ps) + (END + tail);
    ReadProps([], ps, tail);
    assert [] + ps == ps;
  }

  lemma {:induction false} ReadBlocks(events: seq<seq<Prop>>, rest: seq<string>)
    requires forall ps :: ps in events ==> AllSound(ps)
    requires ReadEvents(None, rest) == Some([])
    ensures ReadEvents(None, Blocks(events) + rest) == Some(events)
  {
    hide ReadEvents, Block, AllSound;
    if events == [] {
      assert Blocks(events) + rest == rest;
    } else {
      ReadBlocks(events[1..], rest);
      ReadBlock(events[0], Blocks(events[1..]) + rest);
      assert Blocks(events) + rest == Block(events[0]) + (Blocks(events[1..]) + rest);
      assert [events[0]] + events[1..] == events;
    }
  }

  // ----- What an event is written as ----------------------------------------------------------

  lemma EscapedValue(text: string)
    ensures NoCrlf(EscapeText(text))
  {
    EscapeRoundTrip(text);
    EscapedHasNoBreaks(EscapeText(text));
  }

  lemma TimesSound(ev: Event, rt: Runtime)
    requires Times(ev, rt).Some?
    ensures AllSound(Times(ev, rt).value)
  {
    hide Stamp, ExclusiveDateAfter, SoundName, NoCrlf;
    var times := Times(ev, rt).value;
    TimeNamesSound();
    if ev.allDay {
      var start := FormatDateValue(ev.startsAt).value;
      DateHasNoBreaks(start);
      DateHasNoBreaks(FormatDateValue(ev.endsAt.GetOr(ev.startsAt)).GetOr(start));
    } else {
      var start := rt.parse(ev.startsAt).value;
      StampHasNoBreaks(start);
      StampHasNoBreaks(start + DEFAULT_DURATION_MS);
      if ev.endsAt.Some? && rt.parse(ev.endsAt.value).Some? { StampHasNoBreaks(rt.parse(ev.endsAt.value).value); }
    }
    WithoutBreaks(times[0].value);
    WithoutBreaks(times[1].value);
  }

  lemma WithoutBreaks(s: string)
    requires NoBreaks(s)
    ensures NoCrlf(s)
  {
  }

  lemma StampSound(ev: Event, rt: Runtime)
    requires EventStamp(ev, rt).Some?
    ensures NoCrlf(EventStamp(ev, rt).value)
  {
    hide Stamp;
    forall ms: int ensures NoBreaks(Stamp(ms)) { StampHasNoBreaks(ms); }
  }

  lemma DomainHasNoBreaks(raw: string)
    ensures NoBreaks(Domain(raw))
  {
    KeepDomainHasNoBreaks(raw);
  }

  lemma {:induction false} KeepDomainHasNoBreaks(raw: string)
    ensures NoBreaks(KeepDomain(raw))
  {
    if raw != "" { KeepDomainHasNoBreaks(raw[1..]); }
  }

  lemma UidClean(id: string, domain: string)
    requires NoBreaks(domain)
    ensures NoCrlf(id + "@" + domain) <==> NoCrlf(id)
  {
    var uid := id + "@" + domain;
    if NoCrlf(uid) {
      SliceNoCrlf(uid, 0, |id|);
      assert uid[0..|id|] == id;
    }
    if NoCrlf(id) {
      forall i | 0 < i < |uid| ensures !(uid[i - 1] == '\r' && uid[i] == '\n') {
        if i < |id| {
          assert uid[i - 1] == id[i - 1] && uid[i] == id[i];
        } else if i > |id| {
          assert uid[i] == domain[i - |id| - 1];
        }
      }
    }
  }

  lemma PropsSound(ev: Event, domain: string, rt: Runtime)
    requires EventProps(ev, domain, rt).Some? && NoBreaks(domain) && NoCrlf(ev.id)
    ensures AllSound(EventProps(ev, domain, rt).value)
  {
    hide EscapeText, EventStamp, Times, Escaped, NoCrlf, NoBreaks;
    UidClean(ev.id, domain);
    StampSound(ev, rt);
    TimesSound(ev, rt);
    EscapedValue(ev.title);
    EscapedValue(ev.location);
    EscapedValue(ev.description);
    EscapedValue(rt.upper(ev.kind));
    NamesSound();
  }

  lemma NamesSound()
    ensures SoundName("UID") && SoundName("DTSTAMP") && SoundName("SUMMARY")
    ensures SoundName("LOCATION") && SoundName("DESCRIPTION") && SoundName("CATEGORIES")
  {
    hide SoundName;
    NameIsSound("UID");
    NameIsSound("DTSTAMP");
    NameIsSound("SUMMARY");
    NameIsSound("LOCATION");
    NameIsSound("DESCRIPTION");
    NameIsSound("CATEGORIES");
  }

  lemma TimeNamesSound()
    ensures SoundName("DTSTART") && SoundName("DTEND")
    ensures SoundName("DTSTART;VALUE=DATE") && SoundName("DTEND;VALUE=DATE")
  {
    hide SoundName;
    NameIsSound("DTSTART");
    NameIsSound("DTEND");
    NameIsSound("DTSTART;VALUE=DATE");
    NameIsSound("DTEND;VALUE=DATE");
  }

  // ----- The whole document -------------------------------------------------------------------

  /** The ids of the events written hold no CRLF. */
  ghost predicate CleanIds(events: seq<Event>, domain: string, rt: Runtime) {
    forall i :: 0 <= i < |events| && EventProps(events[i], domain, rt).Some? ==> NoCrlf(events[i].id)
  }

  predicate Fit(lines: seq<string>) {
    forall l :: l in lines ==> NoCrlf(l) && !StartsBlank(l)
  }

  lemma {:induction false} AcceptedSound(events: seq<Event>, domain: string, rt: Runtime)
    requires NoBreaks(domain) && CleanIds(events, domain, rt)
    ensures forall ps :: ps in Accepted(events, domain, rt) ==> AllSound(ps)
  {
    hide EventProps, AllSound;
    if events != [] {
      assert forall i :: 0 <= i < |events[1..]| ==> events[1..][i] == events[i + 1];
      AcceptedSound(events[1..], domain, rt);
      if EventProps(events[0], domain, rt).Some? { PropsSound(events[0], domain, rt); }
    }
  }

  lemma {:induction false} BlocksFit(events: seq<seq<Prop>>)
    requires forall ps :: ps in events ==> AllSound(ps)
    ensures Fit(Blocks(events))
  {
    hide AllSound, Block, Fit;
    if events == [] {
      NothingFits();
    } else {
      BlocksFit(events[1..]);
      assert events[0] in events;
      BlockFits(events[0]);
      FitTogether(Block(events[0]), Blocks(events[1..]));
    }
  }

  lemma NothingFits()
    ensures Fit([])
  {
  }

  lemma FitTogether(a: seq<string>, b: seq<string>)
    requires Fit(a) && Fit(b)
    ensures Fit(a + b)
  {
  }

  lemma BlockFits(ps: seq<Prop>)
    requires AllSound(ps)
    ensures Fit(Block(ps))
  {
    hide NoCrlf, StartsBlank, Sound, Content;
    forall i | 0 <= i < |ps| ensures NoCrlf(Content(ps[i])) && !StartsBlank(Content(ps[i])) { SoundContent(ps[i]); }
    FixedLine("BEGIN:VEVENT");
    FixedLine("END:VEVENT");
  }

  /** The lines before the first event hold no bracket of an event. */
  lemma HeaderPlain(feed: Feed)
    ensures Fit(Header(feed)) && forall l :: l in Header(feed) ==> l != BEGIN[0] && l != END[0]
  {
    hide EscapeText, CalendarName;
    var name := Prop("X-WR-CALNAME", EscapeText(CalendarName(feed)));
    EscapedValue(CalendarName(feed));
    SoundContent(name);
    StartPlain();
  }

  lemma FixedLine(s: string)
    requires '\r' !in s && s != "" && s[0] !in " \t"
    ensures NoCrlf(s) && !StartsBlank(s)
  {
  }

  lemma StartPlain()
    ensures Fit(START) && Fit([ZONE]) && Fit([CLOSE])
    ensures forall l :: l in START ==> l != BEGIN[0] && l != END[0]
    ensures ZONE != BEGIN[0] && ZONE != END[0] && CLOSE != BEGIN[0] && CLOSE != END[0]
  {
    hide NoCrlf, StartsBlank;
    forall l | l in START + [ZONE, CLOSE] ensures '\r' !in l && l != "" && l[0] !in " \t" {}
    forall l | l in START + [ZONE, CLOSE] ensures NoCrlf(l) && !StartsBlank(l) { FixedLine(l); }
  }

  lemma LinesFit(feed: Feed, domain: string, rt: Runtime)
    requires NoBreaks(domain) && CleanIds(feed.events, domain, rt)
    ensures Fit(CalendarLines(feed, domain, rt))
  {
    hide Header, Blocks, Accepted, NoCrlf, StartsBlank, EventProps;
    AcceptedSound(feed.events, domain, rt);
    BlocksFit(Accepted(feed.events, domain, rt));
    HeaderPlain(feed);
    StartPlain();
  }

  lemma UidInBlock(ev: Event, domain: string, rt: Runtime)
    requires EventProps(ev, domain, rt).Some?
    ensures Content(Prop("UID", ev.id + "@" + domain)) in Block(EventProps(ev, domain, rt).value)
  {
    hide EventStamp, Times, EscapeText;
    var ps := EventProps(ev, domain, rt).value;
    assert ps[0] == Prop("UID", ev.id + "@" + domain);
    assert Block(ps)[1] == Contents(ps)[0];
  }

  lemma {:induction false} UidInBlocks(events: seq<Event>, k: nat, domain: string, rt: Runtime)
    requires k < |events| && EventProps(events[k], domain, rt).Some?
    ensures Content(Prop("UID", events[k].id + "@" + domain)) in Blocks(Accepted(events, domain, rt))
  {
    hide EventProps, Block, Content;
    var rest := Accepted(events[1..], domain, rt);
    if EventProps(events[0], domain, rt).Some? {
      var ps := EventProps(events[0], domain, rt).value;
      assert ([ps] + rest)[1..] == rest;
    } else {
      assert [] + rest == rest;
    }
    if k > 0 {
      assert events[1..][k - 1] == events[k];
      UidInBlocks(events[1..], k - 1, domain, rt);
    } else {
      UidInBlock(events[0], domain, rt);
    }
  }

  /**
   * Unfolding the document and cutting it at the line ends gives back exactly the content lines if and
   * only if no written event has a CRLF in its id. No physical line is longer than 75.
   */
  lemma DocumentUnfolds(feed: Feed, rawDomain: string, rt: Runtime)
    ensures var domain := Domain(rawDomain);
            var lines := CalendarLines(feed, domain, rt);
            && (SplitLines("", Unfold(Terminated(Physical(lines)))) == lines <==> CleanIds(feed.events, domain, rt))
            && (forall p :: p in Physical(lines) ==> |p| <= 75)
  {
    hide Unfold, Terminated, Physical, Header, Blocks, Accepted, EventProps, SplitLines, NoBreaks, NoCrlf, StartsBlank;
    var domain := Domain(rawDomain);
    var lines := CalendarLines(feed, domain, rt);
    DomainHasNoBreaks(rawDomain);
    PhysicalShort(lines);
    if CleanIds(feed.events, domain, rt) {
      LinesFit(feed, domain, rt);
      UnfoldPhysical(lines);
      SplitTerminated(lines);
    }
    CutsAreClean(Unfold(Terminated(Physical(lines))));
    if SplitLines("", Unfold(Terminated(Physical(lines)))) == lines {
      forall k | 0 <= k < |feed.events| && EventProps(feed.events[k], domain, rt).Some? ensures NoCrlf(feed.events[k].id) {
        UidInBlocks(feed.events, k, domain, rt);
        assert Content(Prop("UID", feed.events[k].id + "@" + domain)) in lines;
        UidLineClean(feed.events[k].id, domain);
      }
    }
  }

  lemma CutsAreClean(s: string)
    ensures forall l :: l in SplitLines("", s) ==> NoCrlf(l)
  {
    SplitHasNoCrlf("", s);
  }

  lemma UidLineClean(id: string, domain: string)
    requires NoBreaks(domain) && NoCrlf(Content(Prop("UID", id + "@" + domain)))
    ensures NoCrlf(id)
  {
    var uid := id + "@" + domain;
    var line := Content(Prop("UID", uid));
    SliceNoCrlf(line, 4, |line|);
    assert line[4..|line|] == uid;
    UidClean(id, domain);
  }

  // ----- The events come back -----------------------------------------------------------------

  /** The last day of an all-day event, as a DATE. */
  function LastDay(ev: Event): string
    requires DateShaped(ev.startsAt)
  {
    FormatDateValue(ev.endsAt.GetOr(ev.startsAt)).GetOr(FormatDateValue(ev.startsAt).value)
  }

  /** When a timed event ends: where its end can be read, an hour after its start without one, else at its start. */
  function EndMs(ev: Event, rt: Runtime): int
    requires rt.parse(ev.startsAt).Some?
  {
    var start := rt.parse(ev.startsAt).value;
    if ev.endsAt.None? then start + DEFAULT_DURATION_MS else rt.parse(ev.endsAt.value).GetOr(start)
  }

  /** The times of an event: DATE fields for an all-day one, UTC stamps for a timed one, and never both. */
  ghost predicate TimesRead(ps: seq<Prop>, ev: Event, rt: Runtime) {
    if ev.allDay then
      && DateShaped(ev.startsAt)
      && Field(ps, "DTSTART;VALUE=DATE") == FormatDateValue(ev.startsAt)
      && Field(ps, "DTEND;VALUE=DATE") == Some(ExclusiveDateAfter(LastDay(ev)))
      && Field(ps, "DTSTART").None? && Field(ps, "DTEND").None?
    else
      && rt.parse(ev.startsAt).Some?
      && Field(ps, "DTSTART") == Some(Stamp(rt.parse(ev.startsAt).value))
      && Field(ps, "DTEND") == Some(Stamp(EndMs(ev, rt)))
      && Field(ps, "DTSTART;VALUE=DATE").None? && Field(ps, "DTEND;VALUE=DATE").None?
  }

  /** The stamp is the time of the last update; where that cannot be read the start, and else 1970-01-01. */
  ghost predicate StampRead(field: Option<string>, ev: Event, rt: Runtime) {
    var updated, starts, epoch := rt.parse(ev.updatedAt), rt.parse(ev.startsAt), rt.parse("1970-01-01T00:00:00.000Z");
    && (updated.Some? ==> field == Some(Stamp(updated.value)))
    && (updated.None? && starts.Some? ==> field == Some(Stamp(starts.value)))
    && (updated.None? && starts.None? ==> epoch.Some? && field == Some(Stamp(epoch.value)))
  }

  /** What a reader sees of an event: each field it was made of, texts with their line breaks as LF. */
  ghost predicate Describes(ps: seq<Prop>, ev: Event, domain: string, rt: Runtime) {
    && Field(ps, "UID") == Some(ev.id + "@" + domain)
    && StampRead(Field(ps, "DTSTAMP"), ev, rt)
    && TimesRead(ps, ev, rt)
    && Text(ps, "SUMMARY") == Some(Normalise(ev.title))
    && Text(ps, "LOCATION") == (if ev.location == "" then None else Some(Normalise(ev.location)))
    && Text(ps, "DESCRIPTION") == (if ev.description == "" then None else Some(Normalise(ev.description)))
    && Text(ps, "CATEGORIES") == (if ev.kind == "" then None else Some(Normalise(rt.upper(ev.kind))))
  }

  lemma {:induction false} FieldAppend(a: seq<Prop>, b: seq<Prop>, name: string)
    ensures Field(a + b, name) == (if Field(a, name).Some? then Field(a, name) else Field(b, name))
  {
    if a == [] {
      assert a + b == b;
    } else {
      assert (a + b)[1..] == a[1..] + b;
      FieldAppend(a[1..], b, name);
    }
  }

  /** The first of the six groups that has the field decides. */
  lemma FieldOfGroups(a: seq<Prop>, b: seq<Prop>, c: seq<Prop>, d: seq<Prop>, e: seq<Prop>, f: seq<Prop>, name: string)
    ensures Field(a + b + c + d + e + f, name)
         == (if Field(a, name).Some? then Field(a, name) else if Field(b, name).Some? then Field(b, name)
             else if Field(c, name).Some? then Field(c, name)
             else if Field(d, name).Some? then Field(d, name) else if Field(e, name).Some? then Field(e, name)
             else Field(f, name))
  {
    hide Field;
    FieldAppend(a, b, name);
    FieldAppend(a + b, c, name);
    FieldAppend(a + b + c, d, name);
    FieldAppend(a + b + c + d, e, name);
    FieldAppend(a + b + c + d + e, f, name);
  }

  lemma FieldOfOne(own: string, value: string, name: string)
    ensures Field([Prop(own, value)], name) == if own == name then Some(value) else None
  {
    assert [Prop(own, value)][1..] == [];
  }

  lemma FieldOfTwo(p: Prop, q: Prop, name: string)
    ensures Field([p, q], name) == if p.name == name then Some(p.value) else if q.name == name then Some(q.value) else None
  {
    assert [p, q] == [p] + [q];
    FieldAppend([p], [q], name);
    FieldOfOne(p.name, p.value, name);
    FieldOfOne(q.name, q.value, name);
  }

  predicate TimeName(name: string) {
    name == "DTSTART" || name == "DTEND" || name == "DTSTART;VALUE=DATE" || name == "DTEND;VALUE=DATE"
  }

  lemma TimeFields(ev: Event, rt: Runtime, name: string)
    requires Times(ev, rt).Some?
    ensures Field(Times(ev, rt).value, name).Some? ==> TimeName(name)
    ensures TimesRead(Times(ev, rt).value, ev, rt)
  {
    hide Stamp, ExclusiveDateAfter, Field;
    var t := Times(ev, rt).value;
    assert t == [t[0], t[1]] && TimeName(t[0].name) && TimeName(t[1].name);
    forall field { FieldOfTwo(t[0], t[1], field); }
  }

  /** The groups of an event's properties, the times second. */
  lemma FieldOfEvent(ev: Event, domain: string, rt: Runtime, name: string)
    requires EventProps(ev, domain, rt).Some?
    ensures var a, c := StampProps(ev, domain, EventStamp(ev, rt).value), [Prop("SUMMARY", EscapeText(ev.title))];
            var d, e, f := TextProp("LOCATION", ev.location), TextProp("DESCRIPTION", ev.description), KindProp(ev, rt);
            var b := Times(ev, rt).value;
            var first := if Field(a, name).Some? then Field(a, name) else Field(b, name);
            var second := if Field(c, name).Some? then Field(c, name) else Field(d, name);
            var third := if Field(e, name).Some? then Field(e, name) else Field(f, name);
            Field(EventProps(ev, domain, rt).value, name)
              == if first.Some? then first else if second.Some? then second else third
  {
    hide EventStamp, Times, EscapeText, Field, StampProps, TextProp, KindProp;
    var a, c := StampProps(ev, domain, EventStamp(ev, rt).value), [Prop("SUMMARY", EscapeText(ev.title))];
    var d, e, f := TextProp("LOCATION", ev.location), TextProp("DESCRIPTION", ev.description), KindProp(ev, rt);
    FieldOfGroups(a, Times(ev, rt).value, c, d, e, f, name);
    assert EventProps(ev, domain, rt).value == a + Times(ev, rt).value + c + d + e + f;
  }

  /** The fields other than the times, by name. */
  lemma FieldByName(ev: Event, domain: string, rt: Runtime, name: string)
    requires EventProps(ev, domain, rt).Some? && !TimeName(name)
    ensures Field(EventProps(ev, domain, rt).value, name)
         == (if name == "UID" then Some(ev.id + "@" + domain)
             else if name == "DTSTAMP" then EventStamp(ev, rt)
             else if name == "SUMMARY" then Some(EscapeText(ev.title))
             else if name == "LOCATION" && ev.location != "" then Some(EscapeText(ev.location))
             else if name == "DESCRIPTION" && ev.description != "" then Some(EscapeText(ev.description))
             else if name == "CATEGORIES" && ev.kind != "" then Some(EscapeText(rt.upper(ev.kind)))
             else None)
  {
    hide EventStamp, Times, EscapeText, TimeName, Field, TimesRead;
    var a := StampProps(ev, domain, EventStamp(ev, rt).value);
    TimeFields(ev, rt, name);
    FieldOfTwo(a[0], a[1], name);
    FieldOfOne("SUMMARY", EscapeText(ev.title), name);
    FieldOfOne("LOCATION", EscapeText(ev.location), name);
    FieldOfOne("DESCRIPTION", EscapeText(ev.description), name);
    FieldOfOne("CATEGORIES", EscapeText(rt.upper(ev.kind)), name);
    NoFields(name);
    FieldOfEvent(ev, domain, rt, name);
    hide EventProps;
  }

  /** The time fields, as `Times` lists them. */
  lemma TimeByName(ev: Event, domain: string, rt: Runtime, name: string)
    requires EventProps(ev, domain, rt).Some? && TimeName(name)
    ensures Field(EventProps(ev, domain, rt).value, name) == Field(Times(ev, rt).value, name)
  {
    hide EventStamp, Times, EscapeText, Field;
    var a := StampProps(ev, domain, EventStamp(ev, rt).value);
    assert name[0] == 'D' && (name[2] == 'S' ==> name[4] == 'A' && name[5] == 'R');
    FieldOfTwo(a[0], a[1], name);
    FieldOfOne("SUMMARY", EscapeText(ev.title), name);
    FieldOfOne("LOCATION", EscapeText(ev.location), name);
    FieldOfOne("DESCRIPTION", EscapeText(ev.description), name);
    FieldOfOne("CATEGORIES", EscapeText(rt.upper(ev.kind)), name);
    NoFields(name);
    FieldOfEvent(ev, domain, rt, name);
    hide EventProps;
  }

  lemma NoFields(name: string)
    ensures Field([], name) == None
  {
  }

  lemma PropsDescribe(ev: Event, domain: string, rt: Runtime)
    requires EventProps(ev, domain, rt).Some?
    ensures Describes(EventProps(ev, domain, rt).value, ev, domain, rt)
  {
    FieldNames(ev, domain, rt);
    TimesInPlace(ev, domain, rt);
    WrittenStamp(ev, rt);
    hide TimesRead, StampRead, EventProps, EventStamp, EscapeText, Unescape, Normalise, Escaped, Field;
    EscapeRoundTrip(ev.title);
    EscapeRoundTrip(ev.location);
    EscapeRoundTrip(ev.description);
    EscapeRoundTrip(rt.upper(ev.kind));
  }

  lemma WrittenStamp(ev: Event, rt: Runtime)
    requires EventStamp(ev, rt).Some?
    ensures StampRead(EventStamp(ev, rt), ev, rt)
  {
    hide Stamp;
  }

  /** The times read from the event's properties are those of `Times`. */
  lemma TimesInPlace(ev: Event, domain: string, rt: Runtime)
    requires EventProps(ev, domain, rt).Some?
    ensures TimesRead(EventProps(ev, domain, rt).value, ev, rt)
  {
    TimeFields(ev, rt, "");
    hide EventProps, EventStamp, EscapeText, Field, Stamp, ExclusiveDateAfter, Times, FormatDateValue, LastDay;
    TimeByName(ev, domain, rt, "DTSTART");
    TimeByName(ev, domain, rt, "DTEND");
    TimeByName(ev, domain, rt, "DTSTART;VALUE=DATE");
    TimeByName(ev, domain, rt, "DTEND;VALUE=DATE");
  }

  lemma FieldNames(ev: Event, domain: string, rt: Runtime)
    requires EventProps(ev, domain, rt).Some?
    ensures var ps := EventProps(ev, domain, rt).value;
            && Field(ps, "UID") == Some(ev.id + "@" + domain)
            && Field(ps, "DTSTAMP") == EventStamp(ev, rt)
            && Field(ps, "SUMMARY") == Some(EscapeText(ev.title))
            && Field(ps, "LOCATION") == (if ev.location != "" then Some(EscapeText(ev.location)) else None)
            && Field(ps, "DESCRIPTION") == (if ev.description != "" then Some(EscapeText(ev.description)) else None)
            && Field(ps, "CATEGORIES") == (if ev.kind != "" then Some(EscapeText(rt.upper(ev.kind))) else None)
  {
    hide EventProps, EventStamp, EscapeText, Field;
    FieldByName(ev, domain, rt, "UID");
    FieldByName(ev, domain, rt, "DTSTAMP");
    FieldByName(ev, domain, rt, "SUMMARY");
    FieldByName(ev, domain, rt, "LOCATION");
    FieldByName(ev, domain, rt, "DESCRIPTION");
    FieldByName(ev, domain, rt, "CATEGORIES");
  }

  // ----- Which events, and how many -----------------------------------------------------------

  /** An event is written when its start can be read, as a date or an instant, and it has some stamp. */
  predicate Written(ev: Event, rt: Runtime) {
    && (if ev.allDay then DateShaped(ev.startsAt) else rt.parse(ev.startsAt).Some?)
    && (rt.parse(ev.updatedAt).Some? || rt.parse(ev.startsAt).Some? || rt.parse("1970-01-01T00:00:00.000Z").Some?)
  }

  function WrittenEvents(events: seq<Event>, rt: Runtime): seq<Event> {
    if events == [] then []
    else (if Written(events[0], rt) then [events[0]] else []) + WrittenEvents(events[1..], rt)
  }

  lemma WrittenIffProps(ev: Event, domain: string, rt: Runtime)
    ensures Written(ev, rt) <==> EventProps(ev, domain, rt).Some?
  {
    hide Stamp, ExclusiveDateAfter, EscapeText;
  }

  lemma {:induction false} AcceptedDescribe(events: seq<Event>, domain: string, rt: Runtime)
    ensures var got, sent := Accepted(events, domain, rt), WrittenEvents(events, rt);
            |got| == |sent| && forall i :: 0 <= i < |got| ==> Describes(got[i], sent[i], domain, rt)
  {
    hide EventProps, Written, Describes;
    if events != [] {
      AcceptedDescribe(events[1..], domain, rt);
      WrittenIffProps(events[0], domain, rt);
      if Written(events[0], rt) { PropsDescribe(events[0], domain, rt); }
    }
  }

  lemma ReadLines(feed: Feed, domain: string, rt: Runtime)
    requires NoBreaks(domain) && CleanIds(feed.events, domain, rt)
    ensures ReadEvents(None, CalendarLines(feed, domain, rt)) == Some(Accepted(feed.events, domain, rt))
  {
    hide Header, Accepted, NoBreaks, Blocks, AllSound, EventProps;
    var events := Accepted(feed.events, domain, rt);
    AcceptedSound(feed.events, domain, rt);
    HeaderPlain(feed);
    ClosingRead();
    ReadBlocks(events, [CLOSE]);
    ReadSkips(Header(feed), Blocks(events) + [CLOSE]);
    assert CalendarLines(feed, domain, rt) == Header(feed) + (Blocks(events) + [CLOSE]);
  }

  lemma ClosingRead()
    ensures ReadEvents(None, [CLOSE]) == Some([])
  {
    StartPlain();
    assert [CLOSE][1..] == [];
  }

  /**
   * The document reads back: the very properties of the events written, in order, and so every field each
   * event was made of, its times among them. The brackets balance, or nothing would have been read.
   */
  lemma CalendarReadsBack(feed: Feed, rawDomain: string, rt: Runtime)
    requires CleanIds(feed.events, Domain(rawDomain), rt)
    ensures var domain := Domain(rawDomain);
            var got := ReadCalendar(Terminated(Physical(CalendarLines(feed, domain, rt))));
            var sent := WrittenEvents(feed.events, rt);
            && got == Some(Accepted(feed.events, domain, rt)) && |got.value| == |sent|
            && (forall i :: 0 <= i < |sent| ==> Describes(got.value[i], sent[i], domain, rt))
  {
    hide NoBreaks, CalendarLines, Terminated, Physical, Unfold, SplitLines, ReadEvents, Describes, Accepted, WrittenEvents;
    var domain := Domain(rawDomain);
    DocumentUnfolds(feed, rawDomain, rt);
    DomainHasNoBreaks(rawDomain);
    ReadLines(feed, domain, rt);
    AcceptedDescribe(feed.events, domain, rt);
  }

  // ----- The head of the document -------------------------------------------------------------

  /** The team by number, or by name, or neither; and whose calendar it is. */
  ghost predicate Names(title: string, feed: Feed) {
    var numbered := exists n :: feed.teamNumber == Some(n) && n != 0;
    && (forall n :: feed.teamNumber == Some(n) && n != 0 ==> "Team " + IntToString(n) + " \U{2014} Vantage" <= title)
    && (!numbered && feed.orgName.Some? ==> feed.orgName.value + " \U{2014} Vantage" <= title)
    && (!numbered && feed.orgName.None? ==> "Team \U{2014} Vantage" <= title)
    && var scope := if feed.scope == Some("org") then " (team)" else if feed.scope == Some("subteam") then " (subteam)" else " (personal)";
       |title| >= |scope| && title[|title| - |scope|..] == scope
  }

  lemma CalendarNameNames(feed: Feed)
    ensures Names(CalendarName(feed), feed)
  {
  }

  /** The lines begin and end as RFC 5545 (section 3.4) has it, and the name in them is one of the calendar. */
  ghost predicate Headed(lines: seq<string>, feed: Feed) {
    && |lines| >= 8 && lines[0] == "BEGIN:VCALENDAR" && lines[|lines| - 1] == "END:VCALENDAR"
    && lines[1] == "VERSION:2.0" && lines[2] == "PRODID:-//Vantage FRC//Team Calendar//EN"
    && lines[3] == "CALSCALE:GREGORIAN" && lines[4] == "METHOD:PUBLISH" && lines[6] == "X-WR-TIMEZONE:UTC"
    && SplitColon(lines[5]).name == "X-WR-CALNAME"
    && exists title :: Names(title, feed) && Unescape(SplitColon(lines[5]).value) == Normalise(title)
  }

  lemma NameLine(feed: Feed)
    ensures var p := SplitColon(Content(Prop("X-WR-CALNAME", EscapeText(CalendarName(feed)))));
            p.name == "X-WR-CALNAME" && Unescape(p.value) == Normalise(CalendarName(feed))
  {
    hide CalendarName, EscapeText, Unescape, Normalise, Escaped;
    SplitContent(Prop("X-WR-CALNAME", EscapeText(CalendarName(feed))));
    EscapeRoundTrip(CalendarName(feed));
  }

  lemma HeaderLines(feed: Feed)
    ensures var h := Header(feed);
            && |h| == 7 && h[0] == "BEGIN:VCALENDAR" && h[1] == "VERSION:2.0"
            && h[2] == "PRODID:-//Vantage FRC//Team Calendar//EN" && h[3] == "CALSCALE:GREGORIAN"
            && h[4] == "METHOD:PUBLISH" && h[6] == "X-WR-TIMEZONE:UTC"
            && h[5] == Content(Prop("X-WR-CALNAME", EscapeText(CalendarName(feed))))
  {
    hide CalendarName, EscapeText, Content;
  }

  lemma LinesHeaded(feed: Feed, domain: string, rt: Runtime)
    ensures Headed(CalendarLines(feed, domain, rt), feed)
  {
    hide CalendarName, EscapeText, Unescape, Normalise, SplitColon, Content, Blocks, Accepted, Names, Header;
    NameLine(feed);
    CalendarNameNames(feed);
    HeaderLines(feed);
    var lines, blocks := CalendarLines(feed, domain, rt), Blocks(Accepted(feed.events, domain, rt));
    HeadAndClose(Header(feed), blocks);
    var title := CalendarName(feed);
    assert Names(title, feed) && Unescape(SplitColon(lines[5]).value) == Normalise(title);
  }

  lemma HeadAndClose(head: seq<string>, blocks: seq<string>)
    requires |head| == 7
    ensures var lines := head + blocks + [CLOSE];
            |lines| >= 8 && lines[|lines| - 1] == "END:VCALENDAR" && forall i :: 0 <= i < 7 ==> lines[i] == head[i]
  {
  }

  /** And so the document reads, the calendar's name with its line breaks as LF. */
  lemma HeadReadsBack(feed: Feed, rawDomain: string, rt: Runtime)
    requires CleanIds(feed.events, Domain(rawDomain), rt)
    ensures Headed(SplitLines("", Unfold(Terminated(Physical(CalendarLines(feed, Domain(rawDomain), rt))))), feed)
  {
    hide CleanIds, Unfold, Terminated, Physical, SplitLines, Headed, CalendarLines;
    DocumentUnfolds(feed, rawDomain, rt);
    LinesHeaded(feed, Domain(rawDomain), rt);
  }

  lemma {:induction false} KeepDomainAppend(a: string, b: string)
    ensures KeepDomain(a + b) == KeepDomain(a) + KeepDomain(b)
  {
    hide DomainChar;
    if a == "" {
      assert a + b == b;
    } else {
      KeepDomainAppend(a[1..], b);
      KeepOne(a[0], a[1..]);
      KeepOne(a[0], a[1..] + b);
      hide KeepDomain;
      assert a == [a[0]] + a[1..];
      assert a + b == [a[0]] + (a[1..] + b);
    }
  }

  lemma KeepOne(c: char, s: string)
    ensures KeepDomain([c] + s) == (if DomainChar(c) then [c] else []) + KeepDomain(s)
  {
    hide DomainChar;
    assert ([c] + s)[1..] == s;
  }

  /**
   * The domain in the ids keeps its letters, digits, dots and hyphens, whatever stands around them, and
   * drops everything else; with nothing left it is a fixed one.
   */
  lemma DomainKeeps(a: string, c: char, b: string)
    ensures KeepDomain(a + [c] + b) == KeepDomain(a) + (if DomainChar(c) then [c] else []) + KeepDomain(b)
    ensures Domain(a) == "vantagefrc" <== forall x :: x in a ==> !DomainChar(x)
    ensures DomainChar(c) ==> Domain(a + [c] + b) == KeepDomain(a) + [c] + KeepDomain(b)
    ensures DomainChar(c) <==> 'a' <= c <= 'z' || 'A' <= c <= 'Z' || IsDigit(c) || c == '.' || c == '-'
  {
    KeepAround(a, c, b);
    if forall x :: x in a ==> !DomainChar(x) { NothingKept(a); }
    hide KeepDomain;
  }

  lemma KeepAround(a: string, c: char, b: string)
    ensures KeepDomain(a + [c] + b) == KeepDomain(a) + (if DomainChar(c) then [c] else []) + KeepDomain(b)
  {
    KeepDomainAppend(a + [c], b);
    KeepDomainAppend(a, [c]);
    KeepOne(c, "");
    assert [c] + "" == [c];
    assert KeepDomain("") == "";
    hide KeepDomain, DomainChar;
  }

  lemma {:induction false} NothingKept(s: string)
    requires forall x :: x in s ==> !DomainChar(x)
    ensures KeepDomain(s) == ""
  {
    if s != "" {
      assert s[0] in s;
      NothingKept(s[1..]);
    }
  }

  // ----- All-day events -----------------------------------------------------------------------

  /**
   * The DATE after a DATE is written as the calendar's next day exactly when that day's year has four
   * digits and does not begin with 0. Years below 100 are taken for the 1900s, years below 1000 come out
   * a digit short, and the day after 31 December 9999 a digit long.
   */
  lemma ExclusiveDateIsNextDay(s: string)
    requires DateValue(s) && Valid(ReadDate(s))
    ensures var next, r := Next(ReadDate(s)), ExclusiveDateAfter(s);
            (DateValue(r) && ReadDate(r) == next) <==> 1_000 <= next.year <= 9_999
  {
    hide Civil, DateUTC, IntToString, Pad2, ReadDate, DateValue, Valid, Next;
    var d := ReadDate(s);
    WrittenAsCivil(s);
    CivilOfUTC(d);
    WrittenDate(Civil(DateUTC(d.year, d.month - 1, d.day + 1)));
  }

  lemma WrittenAsCivil(s: string)
    requires DateValue(s)
    ensures var d := ReadDate(s);
            var c := Civil(DateUTC(d.year, d.month - 1, d.day + 1));
            && 0 <= d.year <= 9_999
            && ExclusiveDateAfter(s) == IntToString(c.year) + Pad2(c.month) + Pad2(c.day)
  {
    hide Civil, DateUTC, IntToString, Pad2;
    FourDigits(s[..4]);
  }

  /** What the runtime makes of the day after a date: the years below 100 are moved into the 1900s. */
  lemma CivilOfUTC(d: Date)
    requires Valid(d) && 0 <= d.year
    ensures var c := Civil(DateUTC(d.year, d.month - 1, d.day + 1));
            (if d.year <= 99 then 1900 <= c.year <= 2000 else c == Next(d)) && d.year <= Next(d).year <= d.year + 1
  {
    hide Civil, MakeDay;
    if d.year <= 99 {
      MovedYear(d, 1900 + d.year);
    } else {
      NextDate(d.year, d.month - 1, d.day);
      CivilAfter(d, DateUTC(d.year, d.month - 1, d.day + 1));
    }
  }

  lemma FourDigits(s: string)
    requires |s| == 4 && AllDigits(s)
    ensures 0 <= ReadNat(s) <= 9_999
  {
    hide ReadNat;
    ReadPrefix(s, 0);
    ReadPrefix(s, 1);
    ReadPrefix(s, 2);
    ReadPrefix(s, 3);
    assert s[..4] == s;
  }

  /** One digit more: ten times the value before, and the digit. */
  lemma ReadPrefix(s: string, k: nat)
    requires k < |s| && AllDigits(s)
    ensures ReadNat(s[..k + 1]) == 10 * ReadNat(s[..k]) + (s[k] as int - '0' as int)
    ensures 0 <= s[k] as int - '0' as int <= 9 && (k == 0 ==> ReadNat(s[..k]) == 0)
  {
    assert s[..k + 1][..k] == s[..k] && s[..k + 1][k] == s[k];
  }

  /** A date of the years 0 to 99999 as it is written: eight digits read as itself just when the year has four. */
  lemma WrittenDate(c: Date)
    requires Valid(c) && 0 <= c.year < 100_000
    ensures var r := IntToString(c.year) + Pad2(c.month) + Pad2(c.day);
            && (DateValue(r) <==> 1_000 <= c.year <= 9_999)
            && (DateValue(r) ==> ReadDate(r) == c)
  {
    NumeralLength(c.year);
    ReadBack(c.year);
    Pad2ReadBack(c.month);
    Pad2ReadBack(c.day);
    var r := IntToString(c.year) + Pad2(c.month) + Pad2(c.day);
    if 1_000 <= c.year <= 9_999 {
      assert r[..4] == NatToString(c.year) && r[4..6] == Pad2(c.month) && r[6..8] == Pad2(c.day);
    }
  }

  /** A UTC stamp with a year of four digits, of a date there is. */
  predicate StampValue(s: string) {
    && |s| == 16 && s[8] == 'T' && s[15] == 'Z'
    && DateValue(s[..8]) && AllDigits(s[9..11]) && AllDigits(s[11..13]) && AllDigits(s[13..15])
    && Valid(ReadDate(s[..8]))
  }

  /** The second since 1970 a stamp stands for. */
  function ReadStamp(s: string): int
    requires StampValue(s)
  {
    DayNumber(ReadDate(s[..8])) * 86_400 + ReadNat(s[9..11]) * 3_600 + ReadNat(s[11..13]) * 60 + ReadNat(s[13..15])
  }

  /**
   * A reader of a stamp gets the instant back to the second, and there is a stamp to read exactly when its year
   * has four digits.
   */
  lemma StampReadsBack(ms: int)
    ensures StampValue(Stamp(ms)) <==> 1_000 <= Civil(ms / DAY_MS).year <= 9_999
    ensures StampValue(Stamp(ms)) ==> ReadStamp(Stamp(ms)) == ms / 1_000
  {
    var year := Civil(ms / DAY_MS).year;
    if 1_000 <= year <= 9_999 {
      FourDigitStamp(ms);
    } else {
      OtherStamp(ms);
    }
  }

  lemma FourDigitStamp(ms: int)
    requires 1_000 <= Civil(ms / DAY_MS).year <= 9_999
    ensures StampValue(Stamp(ms)) && ReadStamp(Stamp(ms)) == ms / 1_000
  {
    hide Civil, IntToString, Pad2, ReadNat, DayNumber, Valid;
    var d, rest := Civil(ms / DAY_MS), (ms % DAY_MS) / 1_000;
    var h, m, sec := rest / 3_600, rest / 60 % 60, rest % 60;
    WrittenDate(d);
    SecondsOfDay(ms);
    Pad2ReadBack(h);
    Pad2ReadBack(m);
    Pad2ReadBack(sec);
    var date := IntToString(d.year) + Pad2(d.month) + Pad2(d.day);
    StampLayout(date, Pad2(h), Pad2(m), Pad2(sec));
  }

  /** A stamp of another year begins with a sign, or has not sixteen characters. */
  lemma OtherStamp(ms: int)
    requires !(1_000 <= Civil(ms / DAY_MS).year <= 9_999)
    ensures !StampValue(Stamp(ms))
  {
    hide Civil, Pad2, NatToString;
    var d, rest := Civil(ms / DAY_MS), (ms % DAY_MS) / 1_000;
    SecondsOfDay(ms);
    Pad2ReadBack(d.month);
    Pad2ReadBack(d.day);
    Pad2ReadBack(rest / 3_600);
    Pad2ReadBack(rest / 60 % 60);
    Pad2ReadBack(rest % 60);
    var year := IntToString(d.year);
    assert |Stamp(ms)| == |year| + 12;
    if d.year < 0 {
      assert year[0] == '-' && Stamp(ms)[0] == year[0];
      assert Stamp(ms)[..8][0] == '-' || |Stamp(ms)| < 16;
    } else {
      NumeralLength(d.year);
      LongNumeral(d.year);
    }
  }

  lemma StampLayout(date: string, h: string, m: string, sec: string)
    requires |date| == 8 && |h| == 2 && |m| == 2 && |sec| == 2
    ensures var s := date + "T" + h + m + sec + "Z";
            |s| == 16 && s[..8] == date && s[8] == 'T' && s[9..11] == h && s[11..13] == m && s[13..15] == sec && s[15] == 'Z'
  {
  }

  lemma SecondsOfDay(ms: int)
    ensures var rest := (ms % DAY_MS) / 1_000;
            && 0 <= rest < 86_400
            && rest / 3_600 < 24 && rest / 60 % 60 < 60 && rest % 60 < 60
            && ms / DAY_MS * 86_400 + rest / 3_600 * 3_600 + rest / 60 % 60 * 60 + rest % 60 == ms / 1_000
  {
    var day, inDay := ms / DAY_MS, ms % DAY_MS;
    var rest := inDay / 1_000;
    assert ms == day * 86_400 * 1_000 + inDay;
    assert ms / 1_000 == day * 86_400 + rest;
    var minutes := rest / 60;
    assert rest / 3_600 == minutes / 60;
  }

  /** The field is a stamp that reads as this instant, to the second, whenever that is in a year of four digits. */
  ghost predicate ReadsAs(field: Option<string>, ms: int) {
    field.Some? && (1_000 <= Civil(ms / DAY_MS).year <= 9_999 ==> StampValue(field.value) && ReadStamp(field.value) == ms / 1_000)
  }

  lemma StampReadsAs(ms: int)
    ensures ReadsAs(Some(Stamp(ms)), ms)
  {
    hide Stamp, StampValue, ReadStamp, Civil;
    StampReadsBack(ms);
  }

  /**
   * The instants a reader gets for an event: when it was last updated, or the start where that cannot be
   * read, or 1970-01-01; and for a timed event its start and its end.
   */
  ghost predicate InstantsRead(ps: seq<Prop>, ev: Event, rt: Runtime) {
    var updated, starts, epoch := rt.parse(ev.updatedAt), rt.parse(ev.startsAt), rt.parse("1970-01-01T00:00:00.000Z");
    && (updated.Some? ==> ReadsAs(Field(ps, "DTSTAMP"), updated.value))
    && (updated.None? && starts.Some? ==> ReadsAs(Field(ps, "DTSTAMP"), starts.value))
    && (updated.None? && starts.None? ==> epoch.Some? && ReadsAs(Field(ps, "DTSTAMP"), epoch.value))
    && (!ev.allDay ==>
          && starts.Some? && ReadsAs(Field(ps, "DTSTART"), starts.value)
          && ReadsAs(Field(ps, "DTEND"), if ev.endsAt.None? then starts.value + 3_600_000
                                         else rt.parse(ev.endsAt.value).GetOr(starts.value)))
  }

  lemma DescribedInstants(ps: seq<Prop>, ev: Event, domain: string, rt: Runtime)
    requires Describes(ps, ev, domain, rt)
    ensures InstantsRead(ps, ev, rt)
  {
    hide Field, Stamp, ReadsAs, Unescape, Normalise, Civil, FormatDateValue, ExclusiveDateAfter;
    forall ms { StampReadsAs(ms); }
  }

  lemma InstantsReadBack(feed: Feed, rawDomain: string, rt: Runtime)
    requires CleanIds(feed.events, Domain(rawDomain), rt)
    ensures var got := ReadCalendar(Terminated(Physical(CalendarLines(feed, Domain(rawDomain), rt))));
            var sent := WrittenEvents(feed.events, rt);
            && got.Some? && |got.value| == |sent|
            && forall i :: 0 <= i < |sent| ==> InstantsRead(got.value[i], sent[i], rt)
  {
    CalendarReadsBack(feed, rawDomain, rt);
    var sent := WrittenEvents(feed.events, rt);
    hide CleanIds, Domain, CalendarLines, Terminated, Physical, ReadCalendar, Accepted, WrittenEvents, Describes, InstantsRead;
    var got := ReadCalendar(Terminated(Physical(CalendarLines(feed, Domain(rawDomain), rt))));
    forall i | 0 <= i < |sent| ensures InstantsRead(got.value[i], sent[i], rt) {
      DescribedInstants(got.value[i], sent[i], Domain(rawDomain), rt);
    }
  }

  /**
   * A timed event ends, to the second, where its end can be read, an hour after its start without one, and
   * else at its start. DTEND is after DTSTART exactly when the second it ends in is after the one it starts in.
   */
  lemma TimedSpan(ev: Event, rt: Runtime)
    requires !ev.allDay && rt.parse(ev.startsAt).Some?
    requires StampValue(Stamp(rt.parse(ev.startsAt).value)) && StampValue(Stamp(EndMs(ev, rt)))
    ensures Times(ev, rt).Some?
    ensures var start, end := Times(ev, rt).value[0].value, Times(ev, rt).value[1].value;
            var from, to := rt.parse(ev.startsAt).value, EndMs(ev, rt);
            && StampValue(start) && StampValue(end)
            && ReadStamp(start) == from / 1_000 && ReadStamp(end) == to / 1_000
            && (ReadStamp(end) > ReadStamp(start) <==> to / 1_000 > from / 1_000)
            && (ev.endsAt.None? ==> ReadStamp(end) == ReadStamp(start) + 3_600)
            && (ev.endsAt.Some? && rt.parse(ev.endsAt.value).None? ==> ReadStamp(end) == ReadStamp(start))
  {
    hide Stamp, StampValue, ReadStamp;
    StampReadsBack(rt.parse(ev.startsAt).value);
    StampReadsBack(EndMs(ev, rt));
    hide Civil;
  }

  /**
   * An all-day event covers its days, first and last included: DTEND is the day after the last. It lies
   * after DTSTART exactly when the last day is not before the first.
   */
  lemma AllDaySpan(ev: Event, rt: Runtime)
    requires ev.allDay && DateShaped(ev.startsAt)
    requires var first, last := ReadDate(FormatDateValue(ev.startsAt).value), ReadDate(LastDay(ev));
             Valid(first) && Valid(last) && 1_000 <= Next(last).year <= 9_999
    ensures Times(ev, rt).Some?
    ensures var start, end := Times(ev, rt).value[0].value, Times(ev, rt).value[1].value;
            var first, last := ReadDate(FormatDateValue(ev.startsAt).value), ReadDate(LastDay(ev));
            && DateValue(start) && ReadDate(start) == first
            && DateValue(end) && ReadDate(end) == Next(last)
            && DayNumber(ReadDate(end)) - DayNumber(first) == DayNumber(last) - DayNumber(first) + 1
            && (DayNumber(ReadDate(end)) > DayNumber(first) <==> DayNumber(last) >= DayNumber(first))
  {
    hide ExclusiveDateAfter, ReadDate, DayNumber, Next, FormatDateValue;
    ExclusiveDateIsNextDay(LastDay(ev));
    NextDayNumber(ReadDate(LastDay(ev)));
  }
}
