/** What an accepted manifest takes from the record it was read from, field by field. */
module ManifestLaws {
  import opened Wrappers
  import opened Json
  import opened Numerals
  import opened Versions
  import opened UpdatePolicy

  // ----- Texts --------------------------------------------------------------------------------

  /** From `i` to `j` lies the text without the spaces at its ends, all of them. */
  predicate Cut(s: string, i: int, j: int) {
    && 0 <= i <= j <= |s|
    && (forall k :: 0 <= k < |s| && (k < i || j <= k) ==> IsSpace(s[k]))
    && (i < j ==> !IsSpace(s[i]) && !IsSpace(s[j - 1]))
  }

  ghost predicate Trimmed(s: string, t: string) {
    exists i, j :: Cut(s, i, j) && t == s[i..j]
  }

  lemma {:induction false} TrimStartCuts(s: string) returns (i: nat)
    ensures i <= |s| && TrimStart(s) == s[i..] && forall k :: 0 <= k < i ==> IsSpace(s[k])
    ensures i < |s| ==> !IsSpace(s[i])
  {
    hide IsSpace;
    i := 0;
    if s != "" && IsSpace(s[0]) {
      i := TrimStartCuts(s[1..]);
      assert forall k :: 0 < k < i + 1 ==> s[k] == s[1..][k - 1];
      i := i + 1;
    }
  }

  lemma {:induction false} TrimEndCuts(s: string) returns (j: nat)
    ensures j <= |s| && TrimEnd(s) == s[..j] && forall k :: j <= k < |s| ==> IsSpace(s[k])
    ensures j > 0 ==> !IsSpace(s[j - 1])
  {
    hide IsSpace;
    j := |s|;
    if s != "" && IsSpace(s[|s| - 1]) {
      j := TrimEndCuts(s[..|s| - 1]);
    }
  }

  lemma TrimCuts(s: string)
    ensures Trimmed(s, Trim(s))
  {
    hide IsSpace, TrimStart, TrimEnd;
    var i := TrimStartCuts(s);
    var rest := TrimStart(s);
    var j := TrimEndCuts(rest);
    assert forall k :: 0 <= k < |rest| ==> rest[k] == s[i + k];
    assert forall k :: i + j <= k < |s| ==> s[k] == rest[k - i];
    assert Cut(s, i, i + j) && Trim(s) == s[i..i + j];
  }

  lemma SameCut(s: string, i: int, j: int, k: int, l: int)
    requires Cut(s, i, j) && Cut(s, k, l)
    ensures s[i..j] == s[k..l]
  {
    hide IsSpace;
  }

  /** There is only one such text. */
  lemma TrimmedIsUnique(s: string, t: string, u: string)
    requires Trimmed(s, t) && Trimmed(s, u)
    ensures t == u
  {
    hide IsSpace;
    var i, j :| Cut(s, i, j) && t == s[i..j];
    var k, l :| Cut(s, k, l) && u == s[k..l];
    SameCut(s, i, j, k, l);
  }

  /** The digest a text gives: without the spaces at its ends, capitals as small letters. */
  ghost predicate WrittenAs(text: string, digest: string) {
    exists t :: Trimmed(text, t) && |t| == |digest| &&
                forall i :: 0 <= i < |t| ==>
                  digest[i] as int == t[i] as int + if 'A' <= t[i] <= 'Z' then 'a' as int - 'A' as int else 0
  }

  lemma LowerTrimIsWritten(text: string)
    ensures WrittenAs(text, Lower(Trim(text)))
  {
    hide IsSpace, Trim;
    TrimCuts(text);
    var t := Trim(text);
    assert |t| == |Lower(t)|;
  }

  // ----- The parts of a manifest ----------------------------------------------------------------

  /** The key names a download for this machine: its platform's, and on a Mac the chip's own or one for all. */
  predicate Suits(key: string, platform: string, arch: string) {
    || (platform == "darwin" && (key in {"mac_dmg", "mac_zip"} || (key == "mac_zip_" + arch && arch in {"arm64", "x64"})))
    || (platform == "win32" && key in {"win_nsis", "win_msi", "win_portable"})
    || (platform == "linux" && key in {"linux_appimage", "linux_deb"})
  }

  /** How a download ranks among those that suit: an installer first, one for any chip before the chip's own. */
  function Rank(key: string): nat {
    if key in {"mac_dmg", "win_nsis", "linux_appimage"} then 0
    else if key in {"mac_zip", "win_msi", "linux_deb"} then 1
    else 2
  }

  lemma KeysSuit(platform: string, arch: string)
    ensures forall key :: key in DownloadKeys(platform, arch) <==> Suits(key, platform, arch)
    ensures var keys := DownloadKeys(platform, arch); forall i, j :: 0 <= i < j < |keys| ==> Rank(keys[i]) < Rank(keys[j])
  {
    assert "mac_zip_" + "arm64" == "mac_zip_arm64" && "mac_zip_" + "x64" == "mac_zip_x64";
  }

  /** The best download on offer that suits: its address is allowed, and no better one's is. */
  ghost predicate Best(downloads: map<string, Json>, platform: string, arch: string, allowed: Allowed, key: string) {
    && Suits(key, platform, arch) && Offers(downloads, key, allowed)
    && forall other :: Suits(other, platform, arch) && Offers(downloads, other, allowed) ==> Rank(key) <= Rank(other)
  }

  lemma ChosenIsBest(row: map<string, Json>, platform: string, arch: string, allowed: Allowed)
    ensures var downloads, key := AsRecord(Get(row, "downloads")).GetOr(map[]), Chosen(row, platform, arch, allowed);
            && (key.Some? ==> Best(downloads, platform, arch, allowed, key.value))
            && (key.None? ==> forall k :: Suits(k, platform, arch) ==> !Offers(downloads, k, allowed))
  {
    var downloads, keys := AsRecord(Get(row, "downloads")).GetOr(map[]), DownloadKeys(platform, arch);
    var key := Chosen(row, platform, arch, allowed);
    KeysSuit(platform, arch);
    hide DownloadKeys, Suits, Offers, FirstOffered, Rank;
    if key.Some? {
      var i :| 0 <= i < |keys| && keys[i] == key.value && Offers(downloads, keys[i], allowed)
               && forall j :: 0 <= j < i ==> !Offers(downloads, keys[j], allowed);
      forall other | Suits(other, platform, arch) && Offers(downloads, other, allowed) ensures Rank(key.value) <= Rank(other) {
        var j :| 0 <= j < |keys| && keys[j] == other;
      }
    }
  }

  /** The text the digest is read from: the key's own entry, or for win_nsis, and without a key, the bare one. */
  ghost predicate DigestText(row: map<string, Json>, key: Option<string>, text: string) {
    var byDownload, bare := AsRecord(Get(row, "sha256ByDownload")), Get(row, "sha256");
    var table := if byDownload.Some? then byDownload else AsRecord(bare);
    if key.Some? && table.Some? && Get(table.value, key.value).Str? then Get(table.value, key.value) == Str(text)
    else (key.None? || key.value == "win_nsis") && bare == Str(text)
  }

  lemma DigestIsRead(row: map<string, Json>, key: Option<string>)
    ensures forall text :: DigestText(row, key, text) ==> WrittenAs(text, DigestOf(row, key))
    ensures (forall text :: !DigestText(row, key, text)) ==> DigestOf(row, key) == ""
  {
    hide IsSpace, Trim, WrittenAs;
    forall text | DigestText(row, key, text) ensures WrittenAs(text, DigestOf(row, key)) {
      LowerTrimIsWritten(text);
    }
    if forall text :: !DigestText(row, key, text) { NoDigestText(row, key); }
  }

  lemma NoDigestText(row: map<string, Json>, key: Option<string>)
    requires forall text :: !DigestText(row, key, text)
    ensures DigestOf(row, key) == ""
  {
    var byDownload, bare := AsRecord(Get(row, "sha256ByDownload")), Get(row, "sha256");
    var table := if byDownload.Some? then byDownload else AsRecord(bare);
    if key.Some? && table.Some? && Get(table.value, key.value).Str? {
      assert DigestText(row, key, Get(table.value, key.value).s);
    } else if bare.Str? && (key.None? || key.value == "win_nsis") {
      assert DigestText(row, key, bare.s);
    } else {
      assert Lower(Trim("")) == "";
    }
  }

  /** The text the floor is read from: `minimumSupported`, or where that is no text `minimumVersion`. */
  ghost predicate FloorText(row: map<string, Json>, text: string) {
    if Get(row, "minimumSupported").Str? then Get(row, "minimumSupported") == Str(text)
    else Get(row, "minimumVersion") == Str(text)
  }

  /**
   * The floor of a manifest: the one the record names when it can be read and is not above the version
   * offered, that version when it is above, and 0.0.0 when none can be read.
   */
  ghost predicate Floor(row: map<string, Json>, version: string, floor: string) {
    && (forall text, t :: FloorText(row, text) && Trimmed(text, t) && Parseable(t) ==>
          floor == if OlderThan(version, t) then version else t)
    && ((forall text, t :: FloorText(row, text) && Trimmed(text, t) ==> !Parseable(t)) ==> floor == "0.0.0")
  }

  lemma MinimumIsFloor(row: map<string, Json>, version: string)
    requires Parseable(version)
    ensures Floor(row, version, Clamp(Minimum(row), version))
  {
    hide IsSpace, Trim, ParseVersion, Less, Trimmed;
    var floor := Clamp(Minimum(row), version);
    forall text, t | FloorText(row, text) && Trimmed(text, t) && Parseable(t)
      ensures floor == if OlderThan(version, t) then version else t
    {
      TrimCuts(text);
      TrimmedIsUnique(text, t, Trim(text));
      CompareIsOlder(version, t);
      CompareAntisymmetric(version, t);
    }
    if forall text, t :: FloorText(row, text) && Trimmed(text, t) ==> !Parseable(t) {
      NoFloorText(row);
      NothingIsOlderThanZero(version);
    }
  }

  lemma NoFloorText(row: map<string, Json>)
    requires forall text, t :: FloorText(row, text) && Trimmed(text, t) ==> !Parseable(t)
    ensures Minimum(row) == "0.0.0"
  {
    hide IsSpace, Trimmed;
    if Get(row, "minimumSupported").Str? {
      assert FloorText(row, Get(row, "minimumSupported").s);
      TrimCuts(Get(row, "minimumSupported").s);
    } else if Get(row, "minimumVersion").Str? {
      assert FloorText(row, Get(row, "minimumVersion").s);
      TrimCuts(Get(row, "minimumVersion").s);
    } else {
      assert Trim("") == "" && !Parseable("");
    }
  }

  lemma NothingIsOlderThanZero(version: string)
    ensures Compare("0.0.0", version) <= 0
  {
    ZeroReads();
    hide ParseVersion;
    CompareOrder("0.0.0", version);
    if Parseable(version) {
      var zero, v := ParseVersion("0.0.0").value, ParseVersion(version).value;
      CompareIsPaddedOrder(zero, v, 0);
    }
  }

  lemma ZeroReads()
    ensures ParseVersion("0.0.0") == Some([0, 0, 0])
  {
    var s := "0.0.0";
    OneNumber(s);
    assert s[1..] == ".0.0" && s[1..][1..] == "0.0";
    OneNumber("0.0");
    assert "0.0"[1..] == ".0" && "0.0"[1..][1..] == "0";
    OneNumber("0");
    assert "0"[1..] == "";
    assert Numbers("0") == [0];
    assert Numbers("0.0") == [0] + Numbers("0");
    assert Numbers(s) == [0] + Numbers("0.0");
    assert [0] + ([0] + [0]) == [0, 0, 0];
    assert s[0] == '0';
  }

  lemma OneNumber(s: string)
    requires s != "" && s[0] == '0' && (|s| == 1 || s[1] == '.')
    ensures DigitRun(s) == 1 && s[..1] == "0" && AllDigits("0") && ReadNat("0") == 0
  {
    assert |s| > 1 ==> s[1..][0] == '.';
    assert DigitRun(s[1..]) == 0;
    assert "0"[..0] == "";
  }

  // ----- The whole manifest -------------------------------------------------------------------

  /**
   * The download a record offers this machine: its best key with that key's address, or on Windows, with none,
   * the bare address.
   */
  ghost predicate OffersAt(row: map<string, Json>, platform: string, arch: string, allowed: Allowed, key: Option<string>, url: string) {
    var downloads := AsRecord(Get(row, "downloads")).GetOr(map[]);
    if key.Some? then Best(downloads, platform, arch, allowed, key.value) && Get(downloads, key.value) == Str(url)
    else
      && (forall k :: Suits(k, platform, arch) ==> !Offers(downloads, k, allowed))
      && platform == "win32" && Get(row, "url") == Str(url) && allowed(url)
  }

  ghost predicate VersionText(row: map<string, Json>, version: string) {
    exists text :: Get(row, "version") == Str(text) && Trimmed(text, version)
  }

  ghost predicate DigestFor(row: map<string, Json>, key: Option<string>, digest: string) {
    exists text :: DigestText(row, key, text) && WrittenAs(text, digest)
  }

  /** The record says each field of the manifest. */
  ghost predicate ReadFrom(raw: Json, platform: string, arch: string, allowed: Allowed, m: Manifest) {
    AsRecord(raw).Some? &&
    var row := AsRecord(raw).value;
    && VersionText(row, m.version) && Floor(row, m.version, m.minimumVersion)
    && exists key :: OffersAt(row, platform, arch, allowed, key, m.url) && DigestFor(row, key, m.sha256)
  }

  lemma VersionIff(row: map<string, Json>, version: string)
    requires Parseable(version)
    ensures VersionText(row, version) <==> version == Trim(TextField(row, "version").GetOr(""))
  {
    hide IsSpace, Trimmed, ParseVersion;
    if Get(row, "version").Str? {
      var text := Get(row, "version").s;
      TrimCuts(text);
      if Trimmed(text, version) { TrimmedIsUnique(text, version, Trim(text)); }
    } else {
      EmptyReadsNothing();
    }
  }

  lemma EmptyReadsNothing()
    ensures Trim("") == "" && !Parseable("")
  {
  }

  lemma FloorIsUnique(row: map<string, Json>, version: string, floor: string)
    requires Parseable(version)
    ensures Floor(row, version, floor) <==> floor == Clamp(Minimum(row), version)
  {
    hide FloorText, Trimmed, ParseVersion, Minimum, Clamp, OlderThan;
    MinimumIsFloor(row, version);
  }

  lemma OneBest(downloads: map<string, Json>, platform: string, arch: string, allowed: Allowed, a: string, b: string)
    requires Best(downloads, platform, arch, allowed, a) && Best(downloads, platform, arch, allowed, b)
    ensures a == b
  {
    hide Offers;
    assert Rank(a) == Rank(b);
  }

  lemma OffersIff(row: map<string, Json>, platform: string, arch: string, allowed: Allowed, key: Option<string>, url: string)
    ensures OffersAt(row, platform, arch, allowed, key, url) <==>
              && key == Chosen(row, platform, arch, allowed)
              && (if key.Some? then TextField(AsRecord(Get(row, "downloads")).GetOr(map[]), key.value) == Some(url)
                  else platform == "win32" && Offers(row, "url", allowed) && TextField(row, "url") == Some(url))
  {
    var downloads, chosen := AsRecord(Get(row, "downloads")).GetOr(map[]), Chosen(row, platform, arch, allowed);
    ChosenIsBest(row, platform, arch, allowed);
    hide Chosen, Suits, Rank;
    if key.Some? && Best(downloads, platform, arch, allowed, key.value) {
      assert Suits(key.value, platform, arch) && Offers(downloads, key.value, allowed);
      OneBest(downloads, platform, arch, allowed, key.value, chosen.value);
    }
  }

  lemma OneWriting(text: string, d: string, e: string)
    requires WrittenAs(text, d) && WrittenAs(text, e)
    ensures d == e
  {
    hide IsSpace, Trimmed;
    var t :| Trimmed(text, t) && |t| == |d| && forall i :: 0 <= i < |t| ==>
               d[i] as int == t[i] as int + if 'A' <= t[i] <= 'Z' then 'a' as int - 'A' as int else 0;
    var u :| Trimmed(text, u) && |u| == |e| && forall i :: 0 <= i < |u| ==>
               e[i] as int == u[i] as int + if 'A' <= u[i] <= 'Z' then 'a' as int - 'A' as int else 0;
    TrimmedIsUnique(text, t, u);
    forall i | 0 <= i < |d| ensures d[i] == e[i] {
      assert d[i] as int == e[i] as int;
    }
  }

  lemma DigestIff(row: map<string, Json>, key: Option<string>, digest: string)
    requires digest != ""
    ensures DigestFor(row, key, digest) <==> digest == DigestOf(row, key)
  {
    hide DigestText, WrittenAs, DigestOf;
    DigestIsRead(row, key);
    if DigestFor(row, key, digest) {
      var text :| DigestText(row, key, text) && WrittenAs(text, digest);
      OneWriting(text, digest, DigestOf(row, key));
    }
  }

  /**
   * A record is accepted as a manifest exactly when it says every field of it, its version can be read and
   * its digest is 64 hex digits; and it says but one manifest.
   */
  lemma AcceptedIff(raw: Json, platform: string, arch: string, allowed: Allowed, m: Manifest)
    ensures ReadFrom(raw, platform, arch, allowed, m) && Parseable(m.version) && Digest(m.sha256) <==>
              !Rejected(raw, platform, arch, allowed) && DescribedBy(raw, platform, arch, allowed, m)
  {
    hide ParseVersion, Digest, VersionText, Floor, OffersAt, DigestFor, Offers, Chosen, DigestOf, Clamp, Minimum, Trim;
    if AsRecord(raw).Some? {
      var row := AsRecord(raw).value;
      var key := Chosen(row, platform, arch, allowed);
      if Parseable(m.version) && Digest(m.sha256) {
        VersionIff(row, m.version);
        FloorIsUnique(row, m.version, m.minimumVersion);
        forall k { OffersIff(row, platform, arch, allowed, k, m.url); }
        NotEmpty(m.sha256);
        DigestIff(row, key, m.sha256);
      }
    }
  }

  lemma NotEmpty(sha256: string)
    requires Digest(sha256)
    ensures sha256 != ""
  {
  }
}
