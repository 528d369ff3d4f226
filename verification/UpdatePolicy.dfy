/** What the desktop shell decides about updates: reading a manifest, what is owed, and when to install. */
module UpdatePolicy {
  import opened Wrappers
  import opened Json
  import opened Versions

  const UPDATE_DEADLINE_MS := 172_800_000
  const IDLE_BEFORE_INSTALL_MS := 300_000
  const WEB_RELEASE_LATER_MS := 7_200_000

  // ----- The manifest -------------------------------------------------------------------------

  datatype Manifest = Manifest(version: string, minimumVersion: string, url: string, sha256: string)

  predicate IsSpace(c: char) {
    c in " \t\n\r\U{B}\U{C}\U{A0}\U{1680}\U{2000}\U{2001}\U{2002}\U{2003}\U{2004}\U{2005}\U{2006}\U{2007}\U{2008}\U{2009}\U{200A}\U{2028}\U{2029}\U{202F}\U{205F}\U{3000}\U{FEFF}"
  }

  function TrimStart(s: string): string {
    if s != "" && IsSpace(s[0]) then TrimStart(s[1..]) else s
  }

  function TrimEnd(s: string): string {
    if s != "" && IsSpace(s[|s| - 1]) then TrimEnd(s[..|s| - 1]) else s
  }

  function Trim(s: string): string {
    TrimEnd(TrimStart(s))
  }

  /** Lower case of the letters a digest can hold. */
  function LowerChar(c: char): char {
    if 'A' <= c <= 'Z' then (c as int + 32) as char else c
  }

  function Lower(s: string): string {
    seq(|s|, i requires 0 <= i < |s| => LowerChar(s[i]))
  }

  predicate HexDigit(c: char) {
    '0' <= c <= '9' || 'a' <= c <= 'f'
  }

  predicate Digest(s: string) {
    |s| == 64 && forall i :: 0 <= i < 64 ==> HexDigit(s[i])
  }

  /** The downloads that suit a platform, best first. */
  function DownloadKeys(platform: string, arch: string): seq<string> {
    if platform == "darwin" then
      ["mac_dmg", "mac_zip"]
      + (if arch == "arm64" then ["mac_zip_arm64"] else if arch == "x64" then ["mac_zip_x64"] else [])
    else if platform == "win32" then ["win_nsis", "win_msi", "win_portable"]
    else if platform == "linux" then ["linux_appimage", "linux_deb"]
    else []
  }

  /** A field when it is text, else nothing. */
  function TextField(row: map<string, Json>, key: string): Option<string> {
    if Get(row, key).Str? then Some(Get(row, key).s) else None
  }

  function DigestOf(row: map<string, Json>, key: Option<string>): string {
    var scoped :=
      if AsRecord(Get(row, "sha256ByDownload")).Some? then AsRecord(Get(row, "sha256ByDownload"))
      else AsRecord(Get(row, "sha256"));
    if scoped.Some? && key.Some? && TextField(scoped.value, key.value).Some? then
      Lower(Trim(TextField(scoped.value, key.value).value))
    else if key.Some? && key.value != "win_nsis" then ""
    else Lower(Trim(TextField(row, "sha256").GetOr("")))
  }

  /** The text is on a host an installer may come from, over https. */
  type Allowed = string -> bool

  predicate Offers(downloads: map<string, Json>, key: string, allowed: Allowed) {
    TextField(downloads, key).Some? && allowed(TextField(downloads, key).value)
  }

  /** The first of the keys whose download is allowed. */
  function FirstOffered(downloads: map<string, Json>, keys: seq<string>, allowed: Allowed): (k: Option<string>)
    ensures k.Some? ==>
              exists i :: 0 <= i < |keys| && keys[i] == k.value && Offers(downloads, keys[i], allowed)
                && forall j :: 0 <= j < i ==> !Offers(downloads, keys[j], allowed)
    ensures k.None? ==> forall key :: key in keys ==> !Offers(downloads, key, allowed)
  {
    if keys == [] then None
    else if Offers(downloads, keys[0], allowed) then Some(keys[0])
    else
      var rest := FirstOffered(downloads, keys[1..], allowed);
      assert forall j :: 1 <= j < |keys| ==> keys[1..][j - 1] == keys[j];
      assert rest.Some? ==> exists i :: 1 <= i < |keys| && keys[i] == rest.value && Offers(downloads, keys[i], allowed)
                                         && forall j :: 0 <= j < i ==> !Offers(downloads, keys[j], allowed) by {
        if rest.Some? {
          var i :| 0 <= i < |keys[1..]| && keys[1..][i] == rest.value && Offers(downloads, keys[1..][i], allowed)
                   && forall j :: 0 <= j < i ==> !Offers(downloads, keys[1..][j], allowed);
          assert keys[i + 1] == rest.value;
        }
      }
      rest
  }

  function Minimum(row: map<string, Json>): string {
    var raw :=
      if TextField(row, "minimumSupported").Some? then Trim(TextField(row, "minimumSupported").value)
      else Trim(TextField(row, "minimumVersion").GetOr(""));
    if Parseable(raw) then raw else "0.0.0"
  }

  /** A floor above the offered version is brought down to it. */
  function Clamp(minimum: string, version: string): string {
    if Compare(minimum, version) > 0 then version else minimum
  }

  method ParseManifest(raw: Json, platform: string, arch: string, allowed: Allowed) returns (m: Option<Manifest>)
    ensures m.Some? ==> WellFormed(m.value) && allowed(m.value.url) && DescribedBy(raw, platform, arch, allowed, m.value)
    ensures m.None? <==> Rejected(raw, platform, arch, allowed)
  {
    var record := AsRecord(raw);
    if record.None? { return None; }
    var row := record.value;
    var version := Trim(TextField(row, "version").GetOr(""));
    if !Parseable(version) { return None; }
    var downloads := AsRecord(Get(row, "downloads")).GetOr(map[]);
    var url: Option<string>, digestKey: Option<string> := None, None;
    var keys := DownloadKeys(platform, arch);
    for i := 0 to |keys|
      invariant url.None? && digestKey.None?
      invariant FirstOffered(downloads, keys, allowed) == FirstOffered(downloads, keys[i..], allowed)
    {
      if Offers(downloads, keys[i], allowed) {
        url, digestKey := TextField(downloads, keys[i]), Some(keys[i]);
        break;
      }
    }
    if url.None? && platform == "win32" && Offers(row, "url", allowed) {
      url := TextField(row, "url");
    }
    if url.None? { return None; }
    var sha256 := DigestOf(row, digestKey);
    if !Digest(sha256) { return None; }
    var minimum := Minimum(row);
    ClampedMinimum(minimum, version);
    m := Some(Manifest(version, Clamp(minimum, version), url.value, sha256));
  }

  /** What every accepted manifest is: versions that can be read, a floor not above the offer, a hex digest. */
  predicate WellFormed(m: Manifest) {
    && Parseable(m.version) && Parseable(m.minimumVersion)
    && Compare(m.minimumVersion, m.version) <= 0
    && Digest(m.sha256)
  }

  /** Which download a manifest is for: the first allowed one, or on Windows a bare url when there is none. */
  function Chosen(row: map<string, Json>, platform: string, arch: string, allowed: Allowed): Option<string> {
    FirstOffered(AsRecord(Get(row, "downloads")).GetOr(map[]), DownloadKeys(platform, arch), allowed)
  }

  /**
   * The manifest is the record's own: its version, its floor brought down to that, and address and digest
   * of one entry. A key's digest is its own, only win_nsis may use the bare one.
   */
  predicate DescribedBy(raw: Json, platform: string, arch: string, allowed: Allowed, m: Manifest) {
    AsRecord(raw).Some? &&
    var row := AsRecord(raw).value;
    var key := Chosen(row, platform, arch, allowed);
    && m.version == Trim(TextField(row, "version").GetOr(""))
    && m.minimumVersion == Clamp(Minimum(row), m.version)
    && m.sha256 == DigestOf(row, key)
    && (if key.Some? then TextField(AsRecord(Get(row, "downloads")).GetOr(map[]), key.value) == Some(m.url)
        else platform == "win32" && TextField(row, "url") == Some(m.url))
  }

  predicate Rejected(raw: Json, platform: string, arch: string, allowed: Allowed) {
    AsRecord(raw).None? ||
    var row := AsRecord(raw).value;
    var key := Chosen(row, platform, arch, allowed);
    || !Parseable(Trim(TextField(row, "version").GetOr("")))
    || (key.None? && !(platform == "win32" && Offers(row, "url", allowed)))
    || !Digest(DigestOf(row, key))
  }

  lemma ClampedMinimum(minimum: string, version: string)
    requires Parseable(version) && Parseable(minimum)
    ensures Parseable(Clamp(minimum, version)) && Compare(Clamp(minimum, version), version) <= 0
  {
    CompareAntisymmetric(version, version);
  }

  /** A usable digest for any key but the Windows installer's was listed under that very key. */
  lemma DigestIsTheKeysOwn(row: map<string, Json>, key: string)
    requires key != "win_nsis" && Digest(DigestOf(row, Some(key)))
    ensures exists field :: field in {"sha256ByDownload", "sha256"} && AsRecord(Get(row, field)).Some? &&
              var scoped := AsRecord(Get(row, field)).value;
              TextField(scoped, key).Some? && DigestOf(row, Some(key)) == Lower(Trim(TextField(scoped, key).value))
  {
    var field := if AsRecord(Get(row, "sha256ByDownload")).Some? then "sha256ByDownload" else "sha256";
    assert AsRecord(Get(row, field)).Some?;
  }

  // ----- What is owed -------------------------------------------------------------------------

  datatype Clock = Clock(firstSeenAt: Option<int>, deferredVersion: Option<string>, deferredUntil: Option<int>)

  const NO_CLOCK := Clock(None, None, None)

  datatype Plan =
    | UpToDate
    | Optional(version: string, deadlineAt: int)
    | Overdue(version: string, deadlineAt: int)
    | Required(version: string, deadlineAt: int)

  predicate Started(c: Clock) {
    c.firstSeenAt.Some? && c.firstSeenAt.value > 0
  }

  predicate Deferred(c: Clock, version: string, now: int) {
    c.deferredVersion == Some(version) && c.deferredUntil.Some? && c.deferredUntil.value > now
  }

  function DecideUpdate(current: string, manifest: Option<Manifest>, now: int, clock: Clock): Plan {
    if manifest.None? || Compare(current, manifest.value.version) >= 0 then UpToDate
    else
      var m := manifest.value;
      var deadlineAt := (if Started(clock) then clock.firstSeenAt.value else now) + UPDATE_DEADLINE_MS;
      if Compare(current, m.minimumVersion) < 0 then Required(m.version, deadlineAt)
      else if Deferred(clock, m.version, now) then Optional(m.version, deadlineAt)
      else if now >= deadlineAt then Overdue(m.version, deadlineAt)
      else Optional(m.version, deadlineAt)
  }

  /** Both can be read, and the one is below the other once padded with zeros. */
  ghost predicate OlderThan(a: string, b: string) {
    Parseable(a) && Parseable(b) && Less(ParseVersion(a).value, ParseVersion(b).value)
  }

  /** The two days since the version was first seen are over. */
  predicate TwoDaysOver(c: Clock, now: int) {
    c.firstSeenAt.Some? && c.firstSeenAt.value > 0 && now >= c.firstSeenAt.value + 172_800_000
  }

  /** A deferral of this very version still runs. */
  ghost predicate PutOff(c: Clock, version: string, now: int) {
    c.deferredVersion == Some(version) && exists until :: c.deferredUntil == Some(until) && until > now
  }

  lemma CompareIsOlder(a: string, b: string)
    ensures Compare(a, b) < 0 <==> OlderThan(a, b)
  {
    CompareOrder(a, b);
  }

  /**
   * Exactly when each plan is made, on the padded order of the versions: nothing is owed unless the
   * installed version is older than the offer; below the floor the update is required; between the two it
   * is overdue once the two days are over and no deferral of that version runs, and optional until then.
   */
  lemma PlanIff(current: string, m: Manifest, now: int, clock: Clock)
    requires WellFormed(m)
    ensures var p := DecideUpdate(current, Some(m), now, clock);
            var older, below := OlderThan(current, m.version), OlderThan(current, m.minimumVersion);
            var pressing := TwoDaysOver(clock, now) && !PutOff(clock, m.version, now);
            && (p.UpToDate? <==> !older)
            && (p.Required? <==> below)
            && (p.Overdue? <==> older && !below && pressing)
            && (p.Optional? <==> older && !below && !pressing)
            && (!p.UpToDate? ==>
                  && p.version == m.version
                  && p.deadlineAt == 172_800_000 + if clock.firstSeenAt.Some? && clock.firstSeenAt.value > 0
                                                   then clock.firstSeenAt.value else now)
    ensures DecideUpdate(current, None, now, clock) == UpToDate
  {
    hide ParseVersion, Less;
    CompareIsOlder(current, m.version);
    CompareIsOlder(current, m.minimumVersion);
    if Compare(current, m.minimumVersion) < 0 { CompareTransitive(current, m.minimumVersion, m.version); }
    if Deferred(clock, m.version, now) { assert clock.deferredUntil == Some(clock.deferredUntil.value); }
  }

  function Urgency(p: Plan): nat {
    match p
    case UpToDate => 0
    case Optional(_, _) => 1
    case Overdue(_, _) => 2
    case Required(_, _) => 3
  }

  /** Installing what is offered settles the matter. */
  lemma OfferedVersionOwesNothing(m: Manifest, now: int, clock: Clock)
    ensures DecideUpdate(m.version, Some(m), now, clock) == UpToDate
  {
    CompareAntisymmetric(m.version, m.version);
  }

  /** A newer installed version is never owed a more urgent update. */
  lemma NewerIsNeverMoreUrgent(older: string, newer: string, m: Manifest, now: int, clock: Clock)
    requires Parseable(older) && Parseable(newer) && WellFormed(m) && Compare(older, newer) <= 0
    ensures Urgency(DecideUpdate(newer, Some(m), now, clock)) <= Urgency(DecideUpdate(older, Some(m), now, clock))
  {
    if Compare(newer, m.version) < 0 { CompareTransitive(older, newer, m.version); }
    if Compare(newer, m.minimumVersion) < 0 { CompareTransitive(older, newer, m.minimumVersion); }
  }

  /** Bringing the floor down to the offer changes no plan: below the offer is below either floor. */
  lemma ClampChangesNoPlan(current: string, m: Manifest, now: int, clock: Clock)
    requires Parseable(m.version) && Parseable(m.minimumVersion)
    ensures DecideUpdate(current, Some(m.(minimumVersion := Clamp(m.minimumVersion, m.version))), now, clock)
         == DecideUpdate(current, Some(m), now, clock)
  {
    if Compare(m.minimumVersion, m.version) > 0 && Compare(current, m.version) < 0 {
      CompareAntisymmetric(m.minimumVersion, m.version);
      CompareTransitive(current, m.version, m.minimumVersion);
      CompareParses(current, m.version);
    }
  }

  lemma CompareParses(a: string, b: string)
    ensures Compare(a, b) != 0 ==> Parseable(a) && Parseable(b)
  {
  }

  /** As time passes the plan only grows more urgent, the deadline standing still once the clock runs. */
  lemma TimeOnlyPresses(current: string, manifest: Option<Manifest>, clock: Clock, now: int, later: int)
    requires now <= later
    ensures var p, q := DecideUpdate(current, manifest, now, clock), DecideUpdate(current, manifest, later, clock);
            && Urgency(p) <= Urgency(q)
            && (Urgency(p) != Urgency(q) ==> p.Optional? && q.Overdue?)
            && (Started(clock) && !p.UpToDate? ==> q.deadlineAt == p.deadlineAt == clock.firstSeenAt.value + UPDATE_DEADLINE_MS)
  {
  }

  /** A deferral only ever holds an overdue update at optional, until it runs out; a required one it leaves alone. */
  lemma DeferralOnlyHoldsBack(current: string, manifest: Option<Manifest>, clock: Clock, now: int)
    ensures var p := DecideUpdate(current, manifest, now, clock);
            var q := DecideUpdate(current, manifest, now, clock.(deferredVersion := None, deferredUntil := None));
            && (p == q || (p.Optional? && q.Overdue?))
            && (p != q <==> q.Overdue? && Deferred(clock, q.version, now))
  {
  }

  // ----- When to install ----------------------------------------------------------------------

  /** The moment, as the shell sees it. `live` says the page shown is one used during a match. */
  datatype Moment = Moment(now: int, idleMs: int, focused: bool, live: bool, online: bool)

  function InstallWindow(plan: Plan, downloadReady: bool, portable: bool, at: Moment, userRequested: bool): bool {
    if plan.UpToDate? || !downloadReady || portable || !at.online then false
    else if userRequested then true
    else if plan.Optional? then false
    else !at.live && !at.focused && at.idleMs >= IDLE_BEFORE_INSTALL_MS
  }

  /** What it takes to install: online with a verified download to run, and either the user's word or a quiet moment. */
  lemma InstallsInAQuietMoment(plan: Plan, ready: bool, portable: bool, at: Moment, userRequested: bool)
    ensures InstallWindow(plan, ready, portable, at, userRequested) <==>
              && Urgency(plan) >= 1 && ready && !portable && at.online
              && (userRequested || (Urgency(plan) >= 2 && !at.live && !at.focused && at.idleMs >= IDLE_BEFORE_INSTALL_MS))
  {
  }

  function ShouldInstallOnQuit(plan: Plan, downloadReady: bool, portable: bool): bool {
    if portable || !downloadReady then false else !plan.UpToDate?
  }
}
