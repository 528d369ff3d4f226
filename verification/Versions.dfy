/** Version numbers of the desktop shell: reading them, and their order. */
module Versions {
  import opened Wrappers
  import opened Numerals

  function DigitRun(s: string): (n: nat)
    ensures n <= |s| && AllDigits(s[..n])
  {
    if s == "" || !IsDigit(s[0]) then 0 else
      var n := DigitRun(s[1..]);
      assert s[..n + 1] == [s[0]] + s[1..][..n];
      n + 1
  }

  /** Numbers parted by single dots, as far as they go. */
  function Numbers(s: string): (v: seq<nat>)
    requires s != "" && IsDigit(s[0])
    ensures v != []
    decreases |s|
  {
    var n := DigitRun(s);
    var rest := s[n..];
    [ReadNat(s[..n])] + (if |rest| >= 2 && rest[0] == '.' && IsDigit(rest[1]) then Numbers(rest[1..]) else [])
  }

  /** The numbers at the first digit of the text; nothing without a digit. */
  function ParseVersion(s: string): (v: Option<seq<nat>>)
    ensures v.Some? <==> exists i :: 0 <= i < |s| && IsDigit(s[i])
  {
    if s == "" then None
    else if IsDigit(s[0]) then Some(Numbers(s))
    else
      var v := ParseVersion(s[1..]);
      assert v.Some? ==> exists i :: 0 <= i < |s[1..]| && IsDigit(s[1..][i]) && IsDigit(s[i + 1]);
      assert forall i :: 0 < i < |s| ==> s[i] == s[1..][i - 1];
      v
  }

  predicate Parseable(s: string) {
    ParseVersion(s).Some?
  }

  /** The number at a place, zero past the end. */
  function At(v: seq<nat>, i: nat): nat {
    if i < |v| then v[i] else 0
  }

  /** A version as it is written. */
  function Print(v: seq<nat>): string
    requires v != []
  {
    NatToString(v[0]) + if |v| > 1 then "." + Print(v[1..]) else ""
  }

  /** The text neither goes on with the last number nor with a further one. */
  predicate EndsVersion(suffix: string) {
    suffix == "" || (!IsDigit(suffix[0]) && !(suffix[0] == '.' && |suffix| >= 2 && IsDigit(suffix[1])))
  }

  lemma {:induction false} RunOfDigits(digits: string, rest: string)
    requires AllDigits(digits) && (rest == "" || !IsDigit(rest[0]))
    ensures DigitRun(digits + rest) == |digits|
  {
    if digits == "" {
      assert digits + rest == rest;
    } else {
      assert (digits + rest)[1..] == digits[1..] + rest;
      RunOfDigits(digits[1..], rest);
    }
  }

  lemma {:induction false} NumbersReadBack(v: seq<nat>, suffix: string)
    requires v != [] && EndsVersion(suffix)
    ensures var s := Print(v) + suffix; s != "" && IsDigit(s[0]) && Numbers(s) == v
    decreases |v|
  {
    hide NatToString, ReadNat, DigitRun;
    var first := NatToString(v[0]);
    var s := Print(v) + suffix;
    var rest := (if |v| > 1 then "." + Print(v[1..]) else "") + suffix;
    assert s == first + rest;
    ReadBack(v[0]);
    if |v| > 1 {
      NumbersReadBack(v[1..], suffix);
      assert rest[1..] == Print(v[1..]) + suffix;
    } else {
      assert rest == suffix;
    }
    RunOfDigits(first, rest);
    assert s[..|first|] == first && s[|first|..] == rest;
    assert v == [v[0]] + v[1..];
  }

  lemma {:induction false} NoDigitsBefore(prefix: string, s: string)
    requires forall i :: 0 <= i < |prefix| ==> !IsDigit(prefix[i])
    ensures ParseVersion(prefix + s) == ParseVersion(s)
  {
    hide Numbers, IsDigit;
    if prefix == "" {
      assert prefix + s == s;
    } else {
      assert (prefix + s)[1..] == prefix[1..] + s;
      NoDigitsBefore(prefix[1..], s);
    }
  }

  /** A version is read back out of any text it stands first in, with nothing that goes on with it behind. */
  lemma VersionReadsBack(prefix: string, v: seq<nat>, suffix: string)
    requires v != [] && EndsVersion(suffix) && forall i :: 0 <= i < |prefix| ==> !IsDigit(prefix[i])
    ensures ParseVersion(prefix + (Print(v) + suffix)) == Some(v)
  {
    hide Print, Numbers, EndsVersion;
    NumbersReadBack(v, suffix);
    NoDigitsBefore(prefix, Print(v) + suffix);
  }

  // ----- The order ----------------------------------------------------------------------------

  /** Equal once both are padded with zeros. */
  ghost predicate Same(l: seq<nat>, r: seq<nat>) {
    forall k: nat :: At(l, k) == At(r, k)
  }

  /** Smaller at the first place where the padded sequences differ. */
  ghost predicate Less(l: seq<nat>, r: seq<nat>) {
    exists k: nat :: LessAt(l, r, k)
  }

  ghost predicate LessAt(l: seq<nat>, r: seq<nat>, k: nat) {
    At(l, k) < At(r, k) && forall j: nat :: j < k ==> At(l, j) == At(r, j)
  }

  function Max(a: nat, b: nat): nat {
    if a < b then b else a
  }

  function CompareFrom(l: seq<nat>, r: seq<nat>, i: nat): int
    decreases Max(|l|, |r|) - i
  {
    if i >= Max(|l|, |r|) then 0
    else if At(l, i) != At(r, i) then (if At(l, i) < At(r, i) then -1 else 1)
    else CompareFrom(l, r, i + 1)
  }

  /** -1, 0 or 1; a version that cannot be read compares equal to every other. */
  function Compare(a: string, b: string): int {
    var l, r := ParseVersion(a), ParseVersion(b);
    if l.None? || r.None? then 0 else CompareFrom(l.value, r.value, 0)
  }

  method CompareVersions(a: string, b: string) returns (c: int)
    ensures c == Compare(a, b)
    ensures Parseable(a) && Parseable(b) ==>
              var l, r := ParseVersion(a).value, ParseVersion(b).value;
              (c == -1 <==> Less(l, r)) && (c == 1 <==> Less(r, l)) && (c == 0 <==> Same(l, r))
  {
    var left, right := ParseVersion(a), ParseVersion(b);
    if left.None? || right.None? { return 0; }
    CompareIsPaddedOrder(left.value, right.value, 0);
    var length := Max(|left.value|, |right.value|);
    for i := 0 to length
      invariant CompareFrom(left.value, right.value, i) == CompareFrom(left.value, right.value, 0)
    {
      var l, r := At(left.value, i), At(right.value, i);
      if l != r { return if l < r then -1 else 1; }
    }
    return 0;
  }

  /** The comparison is the lexicographic order of the zero-padded sequences. */
  lemma {:induction false} CompareIsPaddedOrder(l: seq<nat>, r: seq<nat>, i: nat)
    requires forall j: nat :: j < i ==> At(l, j) == At(r, j)
    ensures var c := CompareFrom(l, r, i);
            (c == -1 <==> Less(l, r)) && (c == 1 <==> Less(r, l)) && (c == 0 <==> Same(l, r)) && -1 <= c <= 1
    decreases Max(|l|, |r|) - i
  {
    if i < Max(|l|, |r|) {
      if At(l, i) == At(r, i) {
        CompareIsPaddedOrder(l, r, i + 1);
      } else {
        assert LessAt(l, r, i) || LessAt(r, l, i);
        assert !Same(l, r);
        Asymmetric(l, r);
      }
    } else {
      assert Same(l, r);
    }
  }

  lemma NotBothWays(l: seq<nat>, r: seq<nat>, j: nat, k: nat)
    ensures !(LessAt(l, r, j) && LessAt(r, l, k))
  {
  }

  lemma Asymmetric(l: seq<nat>, r: seq<nat>)
    ensures !(Less(l, r) && Less(r, l))
  {
    forall j: nat, k: nat ensures !(LessAt(l, r, j) && LessAt(r, l, k)) {
      NotBothWays(l, r, j, k);
    }
  }

  /** Not greater, on the padded sequences. */
  ghost predicate AtMost(l: seq<nat>, r: seq<nat>) {
    Less(l, r) || Same(l, r)
  }

  lemma AtMostTransitive(a: seq<nat>, b: seq<nat>, c: seq<nat>)
    requires AtMost(a, b) && AtMost(b, c)
    ensures AtMost(a, c)
    ensures Less(a, b) || Less(b, c) ==> Less(a, c)
  {
    if Less(a, b) {
      var j: nat :| LessAt(a, b, j);
      if Less(b, c) {
        var k: nat :| LessAt(b, c, k);
        assert LessAt(a, c, if j < k then j else k);
      } else {
        assert LessAt(a, c, j);
      }
    } else if Less(b, c) {
      var k: nat :| LessAt(b, c, k);
      assert LessAt(a, c, k);
    }
  }

  lemma CompareOrder(a: string, b: string)
    ensures -1 <= Compare(a, b) <= 1
    ensures Parseable(a) && Parseable(b) ==>
              var l, r := ParseVersion(a).value, ParseVersion(b).value;
              (Compare(a, b) <= 0 <==> AtMost(l, r)) && (Compare(a, b) < 0 <==> Less(l, r))
  {
    if Parseable(a) && Parseable(b) {
      CompareIsPaddedOrder(ParseVersion(a).value, ParseVersion(b).value, 0);
    }
  }

  lemma CompareAntisymmetric(a: string, b: string)
    ensures Compare(a, b) == -Compare(b, a)
    ensures Compare(a, a) == 0
  {
    CompareOrder(a, b);
    CompareOrder(b, a);
    if Parseable(a) && Parseable(b) {
      CompareIsPaddedOrder(ParseVersion(a).value, ParseVersion(b).value, 0);
      CompareIsPaddedOrder(ParseVersion(b).value, ParseVersion(a).value, 0);
    }
    if Parseable(a) {
      CompareIsPaddedOrder(ParseVersion(a).value, ParseVersion(a).value, 0);
      assert Same(ParseVersion(a).value, ParseVersion(a).value);
    }
  }

  lemma CompareTransitive(a: string, b: string, c: string)
    requires Parseable(b) && Compare(a, b) <= 0 && Compare(b, c) <= 0
    ensures Compare(a, c) <= 0
    ensures Parseable(a) && Parseable(c) && (Compare(a, b) < 0 || Compare(b, c) < 0) ==> Compare(a, c) < 0
  {
    hide ParseVersion;
    CompareOrder(a, b);
    CompareOrder(b, c);
    CompareOrder(a, c);
    if Parseable(a) && Parseable(c) {
      AtMostTransitive(ParseVersion(a).value, ParseVersion(b).value, ParseVersion(c).value);
    }
  }

  /** The order carries through a version exactly when that version can be read. */
  lemma TransitiveThrough(b: string)
    ensures (forall a, c :: Compare(a, b) <= 0 && Compare(b, c) <= 0 ==> Compare(a, c) <= 0) <==> Parseable(b)
  {
    forall a, c | Parseable(b) && Compare(a, b) <= 0 && Compare(b, c) <= 0 ensures Compare(a, c) <= 0 {
      CompareTransitive(a, b, c);
    }
    OneAboveZero();
    assert !Parseable(b) ==> Compare("1", b) == 0 && Compare(b, "0") == 0;
  }

  lemma OneAboveZero()
    ensures Compare("1", "0") == 1
  {
    OneDigit('1');
    OneDigit('0');
  }

  lemma OneDigit(d: char)
    requires IsDigit(d)
    ensures ParseVersion([d]) == Some([d as int - '0' as int])
  {
    assert [d][1..] == "" && [d][..1] == [d] && [d][..0] == "";
    assert DigitRun([d]) == 1 && [d][1..] == "";
    assert ReadNat([d]) == 10 * ReadNat("") + (d as int - '0' as int);
    assert Numbers([d]) == [ReadNat([d])];
  }
}
