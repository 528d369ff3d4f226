/** Decimal numerals as JavaScript prints and reads them. */
module Numerals {
  function Digit(n: nat): char
    requires n < 10
  {
    ('0' as int + n) as char
  }

  predicate IsDigit(c: char) {
    '0' <= c <= '9'
  }

  predicate AllDigits(s: string) {
    forall i :: 0 <= i < |s| ==> IsDigit(s[i])
  }

  /** `String(n)`. */
  function NatToString(n: nat): (s: string)
    ensures s != "" && AllDigits(s)
  {
    if n < 10 then [Digit(n)] else NatToString(n / 10) + [Digit(n % 10)]
  }

  function IntToString(n: int): string {
    if n < 0 then "-" + NatToString(-n) else NatToString(n)
  }

  /** `String(n).padStart(2, "0")`. */
  function Pad2(n: nat): (s: string)
    ensures AllDigits(s)
  {
    if n < 10 then "0" + NatToString(n) else NatToString(n)
  }

  /** `Number(s)` of a string of digits. */
  function ReadNat(s: string): nat
    requires AllDigits(s)
  {
    if s == "" then 0 else 10 * ReadNat(s[..|s| - 1]) + (s[|s| - 1] as int - '0' as int)
  }

  lemma {:induction false} ReadBack(n: nat)
    ensures ReadNat(NatToString(n)) == n
  {
    if n >= 10 {
      ReadBack(n / 10);
      assert NatToString(n)[..|NatToString(n)| - 1] == NatToString(n / 10);
    } else {
      assert NatToString(n)[..0] == "";
    }
  }

  lemma NumeralLength(n: nat)
    ensures n < 10 ==> |NatToString(n)| == 1
    ensures 10 <= n < 100 ==> |NatToString(n)| == 2
    ensures 100 <= n < 1_000 ==> |NatToString(n)| == 3
    ensures 1_000 <= n < 10_000 ==> |NatToString(n)| == 4
    ensures 10_000 <= n < 100_000 ==> |NatToString(n)| == 5
  {
    if 10 <= n < 100_000 { NumeralLength(n / 10); }
  }

  lemma {:induction false} LongNumeral(n: nat)
    ensures n >= 10_000 ==> |NatToString(n)| >= 5
  {
    NumeralLength(n);
    if n >= 100_000 { LongNumeral(n / 10); }
  }

  lemma Pad2ReadBack(n: nat)
    requires n < 100
    ensures |Pad2(n)| == 2 && ReadNat(Pad2(n)) == n
  {
    ReadBack(n);
    NumeralLength(n);
    if n < 10 {
      assert Pad2(n)[..1] == "0" && "0"[..0] == "" && NatToString(n)[..0] == "";
    }
  }
}
