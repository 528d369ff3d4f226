/**
 * Text of an iCalendar file: TEXT escaping (RFC 5545 section 3.3.11) and line folding (section 3.1),
 * each with the reader the standard describes.
 */
module IcsText {
  const CRLF := "\r\n"

  // ----- Escaping -----------------------------------------------------------------------------

  /** A global replacement of one character. */
  function ReplaceChar(s: string, c: char, sub: string): string {
    if s == "" then "" else (if s[0] == c then sub else [s[0]]) + ReplaceChar(s[1..], c, sub)
  }

  predicate IsBreak(c: char) {
    c == '\r' || c == '\n'
  }

  predicate IsMark(c: char) {
    c == '\\' || c == ';' || c == ','
  }

  predicate StartsCrlf(s: string) {
    |s| >= 2 && s[0] == '\r' && s[1] == '\n'
  }

  /** A global replacement of CRLF, CR and LF, the longest match first. */
  function ReplaceBreaks(s: string, sub: string): string {
    if s == "" then ""
    else if StartsCrlf(s) then sub + ReplaceBreaks(s[2..], sub)
    else (if IsBreak(s[0]) then sub else [s[0]]) + ReplaceBreaks(s[1..], sub)
  }

  /** Backslash, semicolon and comma, one replacement after the other. */
  function EscapeMarks(s: string): string {
    ReplaceChar(ReplaceChar(ReplaceChar(s, '\\', "\\\\"), ';', "\\;"), ',', "\\,")
  }

  function EscapeText(s: string): string {
    ReplaceBreaks(EscapeMarks(s), "\\n")
  }

  /** The same text with every line break an LF. */
  function Normalise(s: string): string {
    ReplaceBreaks(s, "\n")
  }

  /** One left-to-right pass: what each character, or CRLF, is written as. */
  function Encode(s: string): string {
    if s == "" then ""
    else if StartsCrlf(s) then "\\n" + Encode(s[2..])
    else EncodeChar(s[0]) + Encode(s[1..])
  }

  function EncodeChar(c: char): string {
    if IsBreak(c) then "\\n" else if IsMark(c) then ['\\', c] else [c]
  }

  /** The reader of an escaped text; a backslash before anything else stays. */
  function Unescape(s: string): string {
    if s == "" then ""
    else if |s| >= 2 && s[0] == '\\' && (IsMark(s[1]) || s[1] in "nN") then
      [if IsMark(s[1]) then s[1] else '\n'] + Unescape(s[2..])
    else [s[0]] + Unescape(s[1..])
  }

  /** No raw line break, and no comma, semicolon or backslash outside an escape. */
  predicate Escaped(s: string) {
    if s == "" then true
    else if s[0] == '\\' then |s| >= 2 && (IsMark(s[1]) || s[1] == 'n') && Escaped(s[2..])
    else !IsBreak(s[0]) && !IsMark(s[0]) && Escaped(s[1..])
  }

  lemma {:induction false} ReplaceCharAppend(a: string, b: string, c: char, sub: string)
    ensures ReplaceChar(a + b, c, sub) == ReplaceChar(a, c, sub) + ReplaceChar(b, c, sub)
  {
    if a == "" {
      assert a + b == b;
    } else {
      assert (a + b)[1..] == a[1..] + b;
      ReplaceCharAppend(a[1..], b, c, sub);
    }
  }

  lemma EscapeMarksAppend(a: string, b: string)
    ensures EscapeMarks(a + b) == EscapeMarks(a) + EscapeMarks(b)
  {
    ReplaceCharAppend(a, b, '\\', "\\\\");
    var a1, b1 := ReplaceChar(a, '\\', "\\\\"), ReplaceChar(b, '\\', "\\\\");
    ReplaceCharAppend(a1, b1, ';', "\\;");
    ReplaceCharAppend(ReplaceChar(a1, ';', "\\;"), ReplaceChar(b1, ';', "\\;"), ',', "\\,");
  }

  lemma ReplaceOne(c: char, d: char, sub: string)
    ensures ReplaceChar([c], d, sub) == if c == d then sub else [c]
  {
    assert [c][1..] == "";
  }

  lemma ReplaceTwo(c: char, e: char, d: char, sub: string)
    requires c != d && e != d
    ensures ReplaceChar([c, e], d, sub) == [c, e]
  {
    assert [c, e] == [c] + [e];
    ReplaceCharAppend([c], [e], d, sub);
    ReplaceOne(c, d, sub);
    ReplaceOne(e, d, sub);
  }

  /** No replacement touches what an earlier one wrote. */
  lemma EscapeOneMark(c: char)
    ensures EscapeMarks([c]) == if IsMark(c) then ['\\', c] else [c]
  {
    ReplaceOne(c, '\\', "\\\\");
    ReplaceOne(c, ';', "\\;");
    ReplaceOne(c, ',', "\\,");
    if c == '\\' {
      ReplaceTwo('\\', '\\', ';', "\\;");
      ReplaceTwo('\\', '\\', ',', "\\,");
    } else if c == ';' {
      ReplaceTwo('\\', ';', ',', "\\,");
    }
  }

  lemma EscapeMarksStep(s: string)
    requires s != ""
    ensures EscapeMarks(s) == (if IsMark(s[0]) then ['\\', s[0]] else [s[0]]) + EscapeMarks(s[1..])
  {
    assert s == [s[0]] + s[1..];
    EscapeMarksAppend([s[0]], s[1..]);
    EscapeOneMark(s[0]);
  }

  lemma BreaksPass(c: char, rest: string)
    requires !IsBreak(c)
    ensures ReplaceBreaks([c] + rest, "\\n") == [c] + ReplaceBreaks(rest, "\\n")
  {
    assert ([c] + rest)[1..] == rest;
  }

  lemma BreaksTake(c: char, rest: string)
    requires IsBreak(c) && !(c == '\r' && rest != "" && rest[0] == '\n')
    ensures ReplaceBreaks([c] + rest, "\\n") == "\\n" + ReplaceBreaks(rest, "\\n")
  {
    assert ([c] + rest)[1..] == rest;
  }

  lemma BreaksTakePair(rest: string)
    ensures ReplaceBreaks("\r\n" + rest, "\\n") == "\\n" + ReplaceBreaks(rest, "\\n")
  {
    assert ("\r\n" + rest)[2..] == rest;
  }

  lemma EscapeMarksStart(s: string)
    ensures (s != "" && s[0] == '\n') <==> (EscapeMarks(s) != "" && EscapeMarks(s)[0] == '\n')
  {
    if s != "" { EscapeMarksStep(s); }
  }

  /** One character further: `rest` is what the marks of the text after it became. */
  lemma OnePassStep(s: string, rest: string)
    requires s != "" && !StartsCrlf(s)
    requires ReplaceBreaks(rest, "\\n") == Encode(s[1..])
    requires |s| > 1 && s[1] == '\n' <==> rest != "" && rest[0] == '\n'
    ensures ReplaceBreaks((if IsMark(s[0]) then ['\\', s[0]] else [s[0]]) + rest, "\\n") == Encode(s)
  {
    hide ReplaceBreaks, Encode;
    EncodeStep(s);
    if IsMark(s[0]) {
      MarkPasses(s[0], rest);
    } else if IsBreak(s[0]) {
      BreaksTake(s[0], rest);
    } else {
      BreaksPass(s[0], rest);
    }
  }

  lemma EncodeStep(s: string)
    requires s != "" && !StartsCrlf(s)
    ensures Encode(s) == EncodeChar(s[0]) + Encode(s[1..])
  {
  }

  lemma MarkPasses(c: char, rest: string)
    requires IsMark(c)
    ensures ReplaceBreaks(['\\', c] + rest, "\\n") == ['\\', c] + ReplaceBreaks(rest, "\\n")
  {
    hide ReplaceBreaks;
    assert ['\\', c] + rest == ['\\'] + ([c] + rest);
    BreaksPass('\\', [c] + rest);
    BreaksPass(c, rest);
    assert ['\\'] + ([c] + ReplaceBreaks(rest, "\\n")) == ['\\', c] + ReplaceBreaks(rest, "\\n");
  }

  /** The four replacements in turn are the one pass. */
  lemma {:induction false} EscapeIsOnePass(s: string)
    ensures EscapeText(s) == Encode(s)
    decreases |s|
  {
    if s == "" {
    } else if StartsCrlf(s) {
      EscapeIsOnePass(s[2..]);
      EscapeMarksStep(s);
      EscapeMarksStep(s[1..]);
      assert s[1..][1..] == s[2..];
      assert EscapeMarks(s) == "\r\n" + EscapeMarks(s[2..]);
      BreaksTakePair(EscapeMarks(s[2..]));
    } else {
      EscapeIsOnePass(s[1..]);
      EscapeMarksStep(s);
      EscapeMarksStart(s[1..]);
      OnePassStep(s, EscapeMarks(s[1..]));
    }
  }

  lemma {:induction false} EncodeIsEscaped(s: string)
    ensures Escaped(Encode(s))
    ensures Unescape(Encode(s)) == Normalise(s)
    decreases |s|
  {
    if s != "" {
      var width := if StartsCrlf(s) then 2 else 1;
      var head := if StartsCrlf(s) then "\\n" else EncodeChar(s[0]);
      EncodeIsEscaped(s[width..]);
      assert Encode(s) == head + Encode(s[width..]);
      assert Encode(s)[|head|..] == Encode(s[width..]);
    }
  }

  /** Escaping keeps a text to one line with its separators marked, and reading it gives the text back. */
  lemma EscapeRoundTrip(s: string)
    ensures Escaped(EscapeText(s))
    ensures Unescape(EscapeText(s)) == Normalise(s)
  {
    EscapeIsOnePass(s);
    EncodeIsEscaped(s);
  }

  /** Two texts are written alike exactly when they differ in their kind of line break only. */
  lemma EscapeInjective(a: string, b: string)
    ensures EscapeText(a) == EscapeText(b) <==> Normalise(a) == Normalise(b)
  {
    EscapeRoundTrip(a);
    EscapeRoundTrip(b);
    EscapeIsOnePass(a);
    EscapeIsOnePass(b);
    EncodeOfNormal(a);
    EncodeOfNormal(b);
  }

  lemma {:induction false} EncodeOfNormal(s: string)
    ensures Encode(Normalise(s)) == Encode(s)
    decreases |s|
  {
    if s != "" {
      var width := if StartsCrlf(s) then 2 else 1;
      EncodeOfNormal(s[width..]);
      assert Normalise(s)[1..] == Normalise(s[width..]);
      assert !StartsCrlf(Normalise(s));
    }
  }

  // ----- Lines --------------------------------------------------------------------------------

  /** Lines each ended by CRLF. */
  function Terminated(lines: seq<string>): string {
    if lines == [] then "" else lines[0] + CRLF + Terminated(lines[1..])
  }

  /** `lines.join("\r\n")`. */
  function Join(lines: seq<string>): string {
    if lines == [] then "" else if |lines| == 1 then lines[0] else lines[0] + CRLF + Join(lines[1..])
  }

  /** No CRLF inside the text. */
  predicate NoCrlf(s: string) {
    forall i :: 0 < i < |s| ==> !(s[i - 1] == '\r' && s[i] == '\n')
  }

  lemma SliceNoCrlf(s: string, lo: nat, hi: nat)
    requires lo <= hi <= |s| && NoCrlf(s)
    ensures NoCrlf(s[lo..hi])
  {
    forall i | 0 < i < hi - lo ensures !(s[lo..hi][i - 1] == '\r' && s[lo..hi][i] == '\n') {
      assert s[lo..hi][i] == s[lo + i];
    }
  }

  /** The reader's lines: cut at each CRLF, from the left. `line` is the part of a line read already. */
  function SplitLines(line: string, s: string): seq<string>
    decreases |s|
  {
    if s == "" then (if line == "" then [] else [line])
    else if StartsCrlf(s) then [line] + SplitLines("", s[2..])
    else SplitLines(line + [s[0]], s[1..])
  }

  lemma {:induction false} JoinTerminated(lines: seq<string>)
    requires lines != []
    ensures Join(lines) + CRLF == Terminated(lines)
  {
    if |lines| > 1 {
      JoinTerminated(lines[1..]);
    } else {
      assert lines[1..] == [];
    }
  }

  lemma {:induction false} TerminatedAppend(a: seq<string>, b: seq<string>)
    ensures Terminated(a + b) == Terminated(a) + Terminated(b)
  {
    if a == [] {
      assert a + b == b;
    } else {
      assert (a + b)[1..] == a[1..] + b;
      TerminatedAppend(a[1..], b);
    }
  }

  lemma {:induction false} SplitOneLine(line: string, t: string, u: string)
    requires NoCrlf(t)
    ensures SplitLines(line, t + CRLF + u) == [line + t] + SplitLines("", u)
    decreases |t|
  {
    var s := t + CRLF + u;
    if t == "" {
      assert s[2..] == u && line + t == line;
    } else {
      assert !StartsCrlf(s) by {
        if |t| > 1 { assert s[1] == t[1]; }
      }
      assert s[1..] == t[1..] + CRLF + u;
      SliceNoCrlf(t, 1, |t|);
      SplitOneLine(line + [s[0]], t[1..], u);
      assert line + [s[0]] + t[1..] == line + t;
    }
  }

  /** Lines without a CRLF are read back. */
  lemma {:induction false} SplitTerminated(lines: seq<string>)
    requires forall l :: l in lines ==> NoCrlf(l)
    ensures SplitLines("", Terminated(lines)) == lines
  {
    if lines != [] {
      SplitOneLine("", lines[0], Terminated(lines[1..]));
      SplitTerminated(lines[1..]);
      assert "" + lines[0] == lines[0];
    }
  }

  /** The reader never yields a line with a CRLF inside. */
  lemma {:induction false} SplitHasNoCrlf(line: string, s: string)
    requires NoCrlf(line) && !(line != "" && s != "" && line[|line| - 1] == '\r' && s[0] == '\n')
    ensures forall l :: l in SplitLines(line, s) ==> NoCrlf(l)
    decreases |s|
  {
    if s == "" {
    } else if StartsCrlf(s) {
      SplitHasNoCrlf("", s[2..]);
    } else {
      SplitHasNoCrlf(line + [s[0]], s[1..]);
    }
  }

  // ----- Folding ------------------------------------------------------------------------------

  const FIRST := 75
  const REST := 74

  /** The pieces after the first: a space and up to 74 more each. */
  function Continuations(rest: string): seq<string>
    decreases |rest|
  {
    if rest == "" then []
    else if |rest| <= REST then [" " + rest]
    else [" " + rest[..REST]] + Continuations(rest[REST..])
  }

  /** The physical lines of one content line. */
  function FoldParts(content: string): (parts: seq<string>)
    ensures parts != []
  {
    if |content| <= FIRST then [content] else [content[..FIRST]] + Continuations(content[FIRST..])
  }

  function Physical(lines: seq<string>): seq<string> {
    if lines == [] then [] else FoldParts(lines[0]) + Physical(lines[1..])
  }

  lemma {:induction false} ContinuationsShort(rest: string)
    ensures forall p :: p in Continuations(rest) ==> |p| <= FIRST
    decreases |rest|
  {
    if |rest| > REST { ContinuationsShort(rest[REST..]); }
  }

  /** Every piece but the last is full, and the last holds something. */
  ghost predicate Full(parts: seq<string>) {
    && (forall i :: 0 <= i < |parts| - 1 ==> |parts[i]| == 75)
    && (|parts| > 1 ==> 2 <= |parts[|parts| - 1]| <= 75)
  }

  lemma {:induction false} ContinuationsFull(rest: string)
    requires rest != ""
    ensures var parts := Continuations(rest);
            && parts != [] && 2 <= |parts[|parts| - 1]| <= 75
            && forall i :: 0 <= i < |parts| - 1 ==> |parts[i]| == 75
    decreases |rest|
  {
    if |rest| > REST {
      ContinuationsFull(rest[REST..]);
      var more := Continuations(rest[REST..]);
      assert Continuations(rest) == [" " + rest[..REST]] + more;
    }
  }

  /** A line is folded exactly when it is longer than 75, and then into as few physical lines as can be. */
  lemma FoldsFull(content: string)
    ensures Full(FoldParts(content)) && (|FoldParts(content)| == 1 <==> |content| <= 75)
  {
    if |content| > FIRST { ContinuationsFull(content[FIRST..]); }
  }

  /** No physical line is longer than 75. */
  lemma {:induction false} PhysicalShort(lines: seq<string>)
    ensures forall p :: p in Physical(lines) ==> |p| <= FIRST
  {
    if lines != [] {
      if |lines[0]| > FIRST { ContinuationsShort(lines[0][FIRST..]); }
      PhysicalShort(lines[1..]);
    }
  }

  /** A content line as it is written. */
  function FoldText(content: string): string {
    Join(FoldParts(content))
  }

  method FoldLine(content: string) returns (folded: string)
    ensures folded == FoldText(content)
  {
    if |content| <= FIRST {
      return content;
    }
    var parts: seq<string> := [content[..FIRST]];
    var rest := content[FIRST..];
    while |rest| > 0
      invariant parts != [] && parts + Continuations(rest) == FoldParts(content)
      decreases |rest|
    {
      var cut := if |rest| < REST then |rest| else REST;
      parts := parts + [" " + rest[..cut]];
      if cut == |rest| { assert rest[..cut] == rest; }
      rest := rest[cut..];
    }
    assert parts + [] == parts;
    folded := Join(parts);
  }

  /** The reader's unfolding: a CRLF and the space or tab after it go, in one pass. */
  function Unfold(s: string): string {
    if s == "" then ""
    else if StartsCrlf(s) && |s| >= 3 && s[2] in " \t" then Unfold(s[3..])
    else [s[0]] + Unfold(s[1..])
  }

  predicate StartsBlank(s: string) {
    s != "" && s[0] in " \t"
  }

  lemma {:induction false} UnfoldText(t: string, u: string)
    requires NoCrlf(t) && (t != "" && u != "" ==> !(t[|t| - 1] == '\r' && u[0] == '\n'))
    ensures Unfold(t + u) == t + Unfold(u)
    decreases |t|
  {
    if t == "" {
      assert t + u == u;
    } else {
      var s := t + u;
      assert !StartsCrlf(s) by {
        if |t| > 1 { assert s[1] == t[1]; }
      }
      assert s[1..] == t[1..] + u;
      SliceNoCrlf(t, 1, |t|);
      UnfoldText(t[1..], u);
    }
  }

  lemma UnfoldBreak(u: string)
    requires !StartsBlank(u)
    ensures Unfold(CRLF + u) == CRLF + Unfold(u)
  {
    var s := CRLF + u;
    assert s[1..] == "\n" + u && s[1..][1..] == u;
    assert Unfold(s[1..]) == "\n" + Unfold(u);
  }

  lemma UnfoldJoint(u: string)
    ensures Unfold(CRLF + " " + u) == Unfold(u)
  {
    assert (CRLF + " " + u)[3..] == u;
  }

  lemma ContinuationsStep(rest: string)
    requires rest != ""
    ensures var cut := if |rest| <= REST then |rest| else REST;
            Continuations(rest) == [" " + rest[..cut]] + Continuations(rest[cut..])
  {
    if |rest| <= REST {
      assert rest[..|rest|] == rest && rest[|rest|..] == "";
    }
  }

  lemma UnfoldPiece(piece: string, next: string)
    requires NoCrlf(piece) && next != "" && next[0] == '\r'
    ensures Unfold(CRLF + (" " + (piece + next))) == piece + Unfold(next)
  {
    assert CRLF + (" " + (piece + next)) == CRLF + " " + (piece + next);
    UnfoldJoint(piece + next);
    UnfoldText(piece, next);
  }

  lemma TerminatedPiece(piece: string, parts: seq<string>, u: string)
    ensures Terminated([piece] + parts) + u == piece + (CRLF + (Terminated(parts) + u))
  {
    assert ([piece] + parts)[1..] == parts;
  }

  lemma ContinuationText(rest: string, cut: nat, u: string)
    requires rest != "" && cut == if |rest| <= REST then |rest| else REST
    ensures CRLF + (Terminated(Continuations(rest)) + u)
         == CRLF + (" " + (rest[..cut] + (CRLF + (Terminated(Continuations(rest[cut..])) + u))))
  {
    ContinuationsStep(rest);
    TerminatedPiece(" " + rest[..cut], Continuations(rest[cut..]), u);
    Associate(" ", rest[..cut], CRLF + (Terminated(Continuations(rest[cut..])) + u));
  }

  lemma Associate(a: string, b: string, c: string)
    ensures a + b + c == a + (b + c)
  {
  }

  lemma Rejoin(t: string, cut: nat, u: string)
    requires cut <= |t|
    ensures t[..cut] + (t[cut..] + u) == t + u
  {
  }

  lemma {:induction false} UnfoldContinuations(rest: string, u: string)
    requires NoCrlf(rest) && !StartsBlank(u)
    ensures Unfold(CRLF + (Terminated(Continuations(rest)) + u)) == rest + (CRLF + Unfold(u))
    decreases |rest|
  {
    if rest == "" {
      assert Terminated(Continuations(rest)) + u == u;
      UnfoldBreak(u);
    } else {
      var cut := if |rest| <= REST then |rest| else REST;
      ContinuationText(rest, cut, u);
      SliceNoCrlf(rest, 0, cut);
      SliceNoCrlf(rest, cut, |rest|);
      UnfoldPiece(rest[..cut], CRLF + (Terminated(Continuations(rest[cut..])) + u));
      UnfoldContinuations(rest[cut..], u);
      Rejoin(rest, cut, CRLF + Unfold(u));
    }
  }

  lemma FirstPieceText(content: string, cut: nat, u: string)
    requires cut == if |content| <= FIRST then |content| else FIRST
    ensures Terminated(FoldParts(content)) + u
         == content[..cut] + (CRLF + (Terminated(Continuations(content[cut..])) + u))
  {
    if |content| <= FIRST {
      assert content[..cut] == content && content[cut..] == "";
    }
    assert FoldParts(content) == [content[..cut]] + Continuations(content[cut..]);
    TerminatedPiece(content[..cut], Continuations(content[cut..]), u);
  }

  lemma UnfoldOneLine(content: string, u: string)
    requires NoCrlf(content) && !StartsBlank(u)
    ensures Unfold(Terminated(FoldParts(content)) + u) == content + (CRLF + Unfold(u))
  {
    var cut := if |content| <= FIRST then |content| else FIRST;
    FirstPieceText(content, cut, u);
    SliceNoCrlf(content, 0, cut);
    SliceNoCrlf(content, cut, |content|);
    UnfoldText(content[..cut], CRLF + (Terminated(Continuations(content[cut..])) + u));
    UnfoldContinuations(content[cut..], u);
    Rejoin(content, cut, CRLF + Unfold(u));
  }

  lemma PhysicalText(lines: seq<string>)
    requires lines != []
    ensures Terminated(Physical(lines)) == Terminated(FoldParts(lines[0])) + Terminated(Physical(lines[1..]))
  {
    TerminatedAppend(FoldParts(lines[0]), Physical(lines[1..]));
  }

  lemma FoldKeepsStart(lines: seq<string>)
    requires lines != [] ==> !StartsBlank(lines[0])
    ensures !StartsBlank(Terminated(Physical(lines)))
  {
    if lines != [] {
      PhysicalText(lines);
    }
  }

  /** Unfolding undoes folding, for content lines with no CRLF inside and no blank in front. */
  lemma {:induction false} UnfoldPhysical(lines: seq<string>)
    requires forall l :: l in lines ==> NoCrlf(l) && !StartsBlank(l)
    ensures Unfold(Terminated(Physical(lines))) == Terminated(lines)
  {
    if lines != [] {
      UnfoldPhysical(lines[1..]);
      PhysicalText(lines);
      FoldKeepsStart(lines[1..]);
      UnfoldOneLine(lines[0], Terminated(Physical(lines[1..])));
      Associate(lines[0], CRLF, Terminated(lines[1..]));
    }
  }
}
