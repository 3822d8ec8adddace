/** The lines above a diff's edits as the reader takes them: paths in quotes or without prefixes, and hunk headers. */
module DiffHeaders {
  import opened Common
  import opened Decimal
  import opened DiffParser

  function Quote(quoted: bool): string {
    if quoted then "\"" else ""
  }

  /** A header line; either path may be in quotes, as git prints one with unusual characters. */
  function QuotedHeader(first: string, firstQuoted: bool, second: string, secondQuoted: bool): string {
    "diff --git " + Quote(firstQuoted) + "a/" + first + Quote(firstQuoted) +
    " " + Quote(secondQuoted) + "b/" + second + Quote(secondQuoted)
  }

  function Between(firstQuoted: bool, secondQuoted: bool): string {
    Quote(firstQuoted) + " " + Quote(secondQuoted) + "b/"
  }

  lemma BetweenIsJunction(firstQuoted: bool, secondQuoted: bool, rest: string)
    ensures AfterJunction(Between(firstQuoted, secondQuoted) + rest) == Some(rest)
  {
    var s := Between(firstQuoted, secondQuoted) + rest;
    var t := " " + Quote(secondQuoted) + "b/" + rest;
    assert DropQuote(s) == t;
    assert t[1..] == Quote(secondQuoted) + "b/" + rest;
    assert DropQuote(t[1..]) == "b/" + rest;
    assert ("b/" + rest)[2..] == rest;
  }

  lemma NoJunctionInside(first: string, firstQuoted: bool, secondQuoted: bool, rest: string)
    requires first != "" && !(" b/" <= first) && PlainPath(first)
    ensures AfterJunction(first + Between(firstQuoted, secondQuoted) + rest).None?
  {
    var s := first + Between(firstQuoted, secondQuoted) + rest;
    assert forall i :: 0 <= i < |first| ==> s[i] == first[i] && first[i] != '"';
    assert DropQuote(s) == s;
    assert s[|first|] == (if firstQuoted then '"' else ' ') && (firstQuoted ==> s[|first| + 1] == ' ');
    if s[0] == ' ' {
      var u := DropQuote(s[1..]);
      if |first| == 1 {
        assert u[0] == ' ';
      } else {
        assert u == s[1..] && u[0] == first[1];
        assert |first| == 2 ==> u[1] == s[|first|];
        assert |first| > 2 ==> u[1] == first[2];
      }
    }
  }

  lemma {:induction false} QuotedJunction(first: string, firstQuoted: bool, secondQuoted: bool, rest: string)
    requires NoMark(first) && PlainPath(first)
    ensures FindJunction(first + Between(firstQuoted, secondQuoted) + rest) == Some(rest)
  {
    hide AfterJunction, Between;
    var s := first + Between(firstQuoted, secondQuoted) + rest;
    if first == "" {
      assert s == Between(firstQuoted, secondQuoted) + rest;
      BetweenIsJunction(firstQuoted, secondQuoted, rest);
    } else {
      NoJunctionInside(first, firstQuoted, secondQuoted, rest);
      QuotedJunction(first[1..], firstQuoted, secondQuoted, rest);
      assert s[1..] == first[1..] + Between(firstQuoted, secondQuoted) + rest;
    }
  }

  lemma QuotedHeaderParts(first: string, firstQuoted: bool, second: string, secondQuoted: bool)
    ensures var raw, rest := QuotedHeader(first, firstQuoted, second, secondQuoted), second + Quote(secondQuoted);
            var junction := first + Between(firstQuoted, secondQuoted) + rest;
            HEADER <= raw && raw[|HEADER|..] == Quote(firstQuoted) + ("a/" + junction)
  {
    var raw, rest := QuotedHeader(first, firstQuoted, second, secondQuoted), second + Quote(secondQuoted);
    var junction := first + Between(firstQuoted, secondQuoted) + rest;
    assert raw == HEADER + (Quote(firstQuoted) + ("a/" + junction));
  }

  lemma PrefixRead(quoted: bool, junction: string)
    ensures var body := DropQuote(Quote(quoted) + ("a/" + junction)); "a/" <= body && body[2..] == junction
  {
    assert ("a/" + junction)[2..] == junction;
  }

  lemma ClosingQuoteDropped(second: string, quoted: bool)
    requires PlainPath(second)
    ensures DropLastQuote(second + Quote(quoted)) == second
  {
    assert second + "" == second;
  }

  /** A header gives its second path without the quotes, whichever of the two paths are quoted. */
  lemma QuotedHeaderReads(first: string, firstQuoted: bool, second: string, secondQuoted: bool)
    requires NoMark(first) && PlainPath(first) && PlainPath(second)
    ensures var raw := QuotedHeader(first, firstQuoted, second, secondQuoted);
            HEADER <= raw && HeaderPath(raw) == second
  {
    hide FindJunction, QuotedHeader, Between, DropQuote, DropLastQuote, Quote, NoMark, PlainPath;
    var rest := second + Quote(secondQuoted);
    QuotedHeaderParts(first, firstQuoted, second, secondQuoted);
    PrefixRead(firstQuoted, first + Between(firstQuoted, secondQuoted) + rest);
    QuotedJunction(first, firstQuoted, secondQuoted, rest);
    ClosingQuoteDropped(second, secondQuoted);
  }

  lemma {:induction false} MarkFound(first: string, second: string, whole: string)
    requires NoMark(first)
    ensures AfterMark(first + " b/" + second, whole) == second
  {
    var s := first + " b/" + second;
    if first == "" {
      assert s == " b/" + second;
    } else {
      if " b/" <= s { MarkOverlaps(first, second); }
      MarkFound(first[1..], second, whole);
      assert s[1..] == first[1..] + " b/" + second;
    }
  }

  lemma MarkOverlaps(first: string, second: string)
    requires first != "" && " b/" <= first + " b/" + second
    ensures " b/" <= first
  {
    var s := first + " b/" + second;
    assert s[0] == ' ' && s[1] == 'b' && s[2] == '/';
    assert s[|first|] == ' ';
    assert |first| >= 3;
    assert first == s[..|first|];
  }

  lemma UnprefixedSplits(first: string, second: string)
    ensures var raw := "diff --git " + first + " b/" + second;
            HEADER <= raw && raw[|HEADER|..] == first + " b/" + second
  {
    var raw := "diff --git " + first + " b/" + second;
    assert raw == HEADER + (first + " b/" + second);
  }

  /** A header whose first path lacks the a/ prefix gives all that follows the first " b/". */
  lemma UnprefixedHeaderReads(first: string, second: string)
    requires NoMark("diff --git " + first) && !("a/" <= DropQuote(first + " b/" + second))
    ensures var raw := "diff --git " + first + " b/" + second; HEADER <= raw && HeaderPath(raw) == second
  {
    hide NoMark, DropQuote, FindJunction, AfterMark;
    UnprefixedSplits(first, second);
    MarkFound("diff --git " + first, second, "diff --git " + first + " b/" + second);
  }

  /** A quoted new-file line is stripped of its quotes only: the prefix behind the quote stays. */
  lemma QuotedNewPathKeepsPrefix(p: string)
    requires PlainPath(p)
    ensures NewPath("\"b/" + p + "\"") == "b/" + p
  {
    var s := "\"b/" + p + "\"";
    assert forall i :: 0 <= i < |s| ==> s[i] != '\t';
    BeforeTabOf(s, "");
    assert s + "" == s;
    assert s[0] == '"' && s[1..] == "b/" + p + "\"";
    assert (s[1..])[0] == 'b' && (s[1..])[..|s| - 2] == "b/" + p;
    var t := "b/" + p;
    assert t[0] == 'b' && t[|t| - 1] != '"' && StripQuotes(t) == t;
    assert StripQuotes(s[1..]) == StripQuotes(t);
    assert BeforeTab(s) == s && !("b/" <= s);
  }

  /** A new one-line file, as git prints it when the path needs quotes. */
  function QuotedDiff(p: string, text: string): seq<string> {
    [QuotedHeader(p, true, p, true), "+++ \"b/" + p + "\"", "@@ -0,0 +1 @@", "+" + text]
  }

  lemma OneLineHunk()
    ensures HunkStart("@@ -0,0 +1 @@") == Some(1)
  {
    hide HunkStart, PrintRange;
    HunkStartReads(0, 0, false, 0, 1, true, "");
    OneLineRanges();
    assert "@@ -" + "0,0" + " +" + "1" + " @@" + "" == "@@ -0,0 +1 @@";
  }

  lemma OneLineRanges()
    ensures PrintRange(0, 0, false) == "0,0" && PrintRange(0, 1, true) == "1"
  {
  }

  lemma HunkLineReads(s: Files)
    requires s.path.Some?
    ensures ReadLine(s, "@@ -0,0 +1 @@") == s.(line := 1)
  {
    OneLineHunk();
    var raw := "@@ -0,0 +1 @@";
    assert raw[0] == '@';
  }

  lemma NewPathLineReads(s: Files, p: string)
    requires s.path.Some? && PlainPath(p)
    ensures ReadLine(s, "+++ \"b/" + p + "\"") == s.(added := Register(s.added, "b/" + p), path := Some("b/" + p))
  {
    hide NewPath, HunkStart, IsMetadata;
    var raw := "+++ \"b/" + p + "\"";
    assert raw == "+++ " + ("\"b/" + p + "\"") && raw[4..] == "\"b/" + p + "\"";
    assert raw[4] == '"' && raw != "+++ /dev/null";
    QuotedNewPathKeepsPrefix(p);
  }

  /**
   * Why recovery is stated for paths git prints as they are: under a quoted path the added lines are
   * reported for a file named with the prefix, and the file itself is reported to add nothing.
   */
  lemma QuotedPathMoves(p: string, text: string)
    requires NoMark(p) && PlainPath(p) && !("++ " <= text)
    ensures ReadLines(START, QuotedDiff(p, text)).added == map[p := [], "b/" + p := [Added(1, text)]]
  {
    hide ReadLine, ReadAll, NoMark, PlainPath, QuotedHeader;
    var begun := Files(map[p := []], Some(p), 0);
    var moved := Files(map[p := [], "b/" + p := []], Some("b/" + p), 0);
    HeaderLineReads(p);
    NewPathLineReads(begun, p);
    PrefixedDiffers(p);
    HunkLineReads(moved);
    AddReads(moved.(line := 1), text);
    assert [] + [Added(1, text)] == [Added(1, text)];
    FourLines(START, QuotedHeader(p, true, p, true), "+++ \"b/" + p + "\"", "@@ -0,0 +1 @@", "+" + text);
  }

  lemma FourLines(s: Files, a: string, b: string, c: string, d: string)
    ensures ReadLines(s, [a, b, c, d]) == ReadLine(ReadLine(ReadLine(ReadLine(s, a), b), c), d)
  {
    hide ReadLine;
    ReadOne(ReadLine, s, a, [b, c, d]);
    ReadOne(ReadLine, ReadLine(s, a), b, [c, d]);
    ReadOne(ReadLine, ReadLine(ReadLine(s, a), b), c, [d]);
    ReadOne(ReadLine, ReadLine(ReadLine(ReadLine(s, a), b), c), d, []);
    assert [a, b, c, d] == [a] + [b, c, d] && [b, c, d] == [b] + [c, d] && [c, d] == [c] + [d] && [d] == [d] + [];
  }

  lemma PrefixedDiffers(p: string)
    ensures "b/" + p != p
  {
    assert |"b/" + p| == |p| + 2;
  }

  lemma HeaderLineReads(p: string)
    requires NoMark(p) && PlainPath(p)
    ensures ReadLine(START, QuotedHeader(p, true, p, true)) == Files(map[p := []], Some(p), 0)
  {
    hide HeaderPath;
    QuotedHeaderReads(p, true, p, true);
  }

  // ----- Hunk headers -----

  /** A range that starts at these digits: the digits alone, or with a comma and the digits of a count. */
  function Range(start: string, count: string): string {
    start + (if count == "" then "" else "," + count)
  }

  predicate Figures(s: string) {
    s != "" && forall c :: c in s ==> '0' <= c <= '9'
  }

  lemma FiguresAreDigits(s: string)
    ensures Figures(s) <==> s != "" && AllDigits(s)
  {
    assert forall i :: 0 <= i < |s| ==> s[i] in s;
  }

  /** A range is taken as its start, and what is taken is a range, as long as a blank comes next. */
  lemma RangeTaken(start: string, count: string, rest: string)
    requires AllDigits(start) && start != "" && AllDigits(count) && rest != "" && rest[0] == ' '
    ensures TakeRange(Range(start, count) + rest) == Some((start, rest))
  {
    hide TakeDigits;
    var s := Range(start, count) + rest;
    if count == "" {
      assert s == start + rest;
      TakeDigitsExact(start, rest);
    } else {
      var tail := "," + (count + rest);
      assert s == start + tail && tail[1..] == count + rest;
      TakeDigitsExact(start, tail);
      TakeDigitsExact(count, rest);
    }
  }

  lemma TakenRange(s: string) returns (count: string)
    requires TakeRange(s).Some? && TakeRange(s).value.1 != "" && TakeRange(s).value.1[0] == ' '
    ensures var start := TakeRange(s).value.0;
            start != "" && AllDigits(start) && AllDigits(count) && s == Range(start, count) + TakeRange(s).value.1
  {
    var (d, rest) := TakeDigits(s);
    if rest == "" || rest[0] != ',' {
      count := "";
    } else {
      count := TakeDigits(rest[1..]).0;
      assert rest == "," + rest[1..];
      assert count + TakeDigits(rest[1..]).1 == rest[1..];
    }
  }

  /** A hunk header of these figures, whatever stands behind it. */
  function HunkHeader(was: string, wasCount: string, start: string, count: string, section: string): string {
    "@@ -" + Range(was, wasCount) + (" +" + Range(start, count) + (" @@" + section))
  }

  predicate AreRanges(was: string, wasCount: string, start: string, count: string) {
    Figures(was) && (wasCount == "" || Figures(wasCount)) && Figures(start) && (count == "" || Figures(count))
  }

  lemma HunkHeaderRead(was: string, wasCount: string, start: string, count: string, section: string)
    requires AreRanges(was, wasCount, start, count)
    ensures AllDigits(start) && HunkStart(HunkHeader(was, wasCount, start, count, section)) == Some(Value(start))
  {
    hide TakeRange, Range, Figures;
    var raw, tail := HunkHeader(was, wasCount, start, count, section), " @@" + section;
    var middle := " +" + Range(start, count) + tail;
    FiguresAreDigits(was);
    FiguresAreDigits(wasCount);
    FiguresAreDigits(start);
    FiguresAreDigits(count);
    assert raw == "@@ -" + (Range(was, wasCount) + middle) && raw[4..] == Range(was, wasCount) + middle;
    RangeTaken(was, wasCount, middle);
    assert middle[2..] == Range(start, count) + tail;
    RangeTaken(start, count, tail);
  }

  lemma HunkParts(raw: string) returns (was: string, wasCount: string, start: string, count: string, section: string)
    requires HunkStart(raw).Some?
    ensures AreRanges(was, wasCount, start, count) && raw == HunkHeader(was, wasCount, start, count, section)
  {
    hide TakeRange, Range, Figures;
    wasCount := TakenRange(raw[4..]);
    var (first, middle) := TakeRange(raw[4..]).value;
    count := TakenRange(middle[2..]);
    var (digits, rest) := TakeRange(middle[2..]).value;
    was, start, section := first, digits, rest[3..];
    FiguresAreDigits(was);
    FiguresAreDigits(wasCount);
    FiguresAreDigits(start);
    FiguresAreDigits(count);
    assert raw == "@@ -" + raw[4..] && middle == " +" + middle[2..] && rest == " @@" + rest[3..];
  }

  /** Which lines are hunk headers, and where in the new file they start. */
  lemma HunkStartExactly(raw: string, n: nat)
    ensures HunkStart(raw) == Some(n) <==>
      exists was: string, wasCount: string, start: string, count: string, section: string
        {:trigger HunkHeader(was, wasCount, start, count, section)} ::
        && AreRanges(was, wasCount, start, count) && raw == HunkHeader(was, wasCount, start, count, section)
        && AllDigits(start) && Value(start) == n
  {
    hide HunkStart, HunkHeader, AreRanges;
    if HunkStart(raw) == Some(n) {
      var was, wasCount, start, count, section := HunkParts(raw);
      HunkHeaderRead(was, wasCount, start, count, section);
    }
    if was: string, wasCount: string, start: string, count: string, section: string
      {:trigger HunkHeader(was, wasCount, start, count, section)} :|
      && AreRanges(was, wasCount, start, count) && raw == HunkHeader(was, wasCount, start, count, section)
      && AllDigits(start) && Value(start) == n
    {
      HunkHeaderRead(was, wasCount, start, count, section);
    }
  }
}
