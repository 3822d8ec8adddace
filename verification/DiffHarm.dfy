/**
 * Which lines of a diff do no harm, wherever they stand: a line that adds nothing leaves every diff to be
 * recovered exactly when it is quiet.
 */
module DiffHarm {
  import opened Common
  import opened DiffParser
  import opened TextLines

  // ----- A diff of one file by one hunk -----

  predicate Short(p: string) {
    p == "f" || p == "g"
  }

  /** A change of one file by one hunk that follows some unchanged lines. */
  function OneHunk(p: string, gap: seq<string>, section: string, edits: seq<Edit>): FileDiff {
    FileDiff(p, p, [], false, [Gap(gap), Hunk(edits, false, false, section)])
  }

  function Opened(p: string, line: nat): Files {
    Files(map[p := []], Some(p), line)
  }

  lemma {:induction false} KeptCounts(lines: seq<string>)
    ensures OldCount(Kept(lines)) == |lines| && NewCount(Kept(lines)) == |lines|
  {
    if lines != [] { KeptCounts(lines[1..]); }
  }

  lemma OneHunkPrinted(p: string, gap: seq<string>, section: string, edits: seq<Edit>)
    ensures var d := OneHunk(p, gap, section, edits);
            PrintFiles([d]) ==
            [PrintHeader(d)] + ([PrintNewPath(d)] +
              ([PrintHunkHeader(|gap|, |gap|, d.pieces[1])] + PrintEdits(edits)))
  {
    var d, body, n := OneHunk(p, gap, section, edits), PrintEdits(edits), |gap|;
    var h := d.pieces[1];
    hide PrintHeader, PrintNewPath, PrintHunkHeader, PrintEdits, Kept;
    KeptCounts(gap);
    assert d.pieces[1..] == [h] && [h][1..] == [];
    assert PrintPieces(PrintHunkHeader, n + OldIn(h), n + NewIn(h), []) == [] && body + [] == body;
    assert PrintPieces(PrintHunkHeader, n, n, [h]) == [PrintHunkHeader(n, n, h)] + body;
    assert d.metadata + PrintBody(d) == PrintBody(d);
    assert PrintFiles([d]) == PrintFile(d) + PrintFiles([d][1..]);
    assert PrintFile(d) + [] == PrintFile(d);
  }

  lemma OneHunkExpected(p: string, gap: seq<string>, section: string, edits: seq<Edit>)
    ensures Expected(map[], [OneHunk(p, gap, section, edits)]) == map[p := AddedIn(edits, |gap| + 1)]
  {
    var d := OneHunk(p, gap, section, edits);
    hide AddedIn, Kept, NewCount;
    KeptCounts(gap);
    KeptNothingAdded(gap, 1);
    assert [d][1..] == [] && d.pieces[1..][1..] == [];
    assert Alignment(d.pieces[1..]) == edits + [] == edits;
    AddedInSplit(Kept(gap), edits, 1);
    assert [] + AddedIn(edits, |gap| + 1) == AddedIn(edits, |gap| + 1);
  }

  lemma ShortPlain(p: string)
    requires Short(p)
    ensures PlainPath(p) && NoMark(p)
  {
    assert p[1..] == "";
  }

  lemma FileOpens(d: FileDiff)
    requires d.oldPath == d.newPath && Short(d.newPath)
    ensures ReadWhole(START, PrintHeader(d)) == Opened(d.newPath, 0)
    ensures ReadWhole(Opened(d.newPath, 0), PrintNewPath(d)) == Opened(d.newPath, 0)
  {
    ShortPlain(d.newPath);
    hide ReadWhole, PrintHeader, PrintNewPath, PlainPath, NoMark;
    HeaderLine(START, d);
    NewPathLine(Opened(d.newPath, 0), d);
  }

  /** The hunk's header sets the number, and then what is left over of its section title is read. */
  lemma OneHunkReads(p: string, gap: seq<string>, section: string, edits: seq<Edit>)
    requires Short(p) && NewCount(edits) > 0
    ensures Parsed(PrintDiff([], [OneHunk(p, gap, section, edits)]))
         == ReadAll(ReadWhole, ReadAll(ReadLine, Opened(p, |gap| + 1), Tail(section)), PrintEdits(edits)).added
  {
    var d, n := OneHunk(p, gap, section, edits), |gap|;
    var h, s, body := d.pieces[1], Opened(p, 0), PrintEdits(edits);
    OneHunkPrinted(p, gap, section, edits);
    FileOpens(d);
    HunkReads(s, n, n, h);
    assert HunkLine(n, h) == n + 1;
    ParsedLines([], [d]);
    hide ReadWhole, PrintFiles, PrintHeader, PrintNewPath, PrintHunkHeader, HunkLine, PrintDiff, Parsed, PrintEdits,
         Tail, ReadLine;
    ReadOne(ReadWhole, START, PrintHeader(d), [PrintNewPath(d)] + ([PrintHunkHeader(n, n, h)] + body));
    ReadOne(ReadWhole, s, PrintNewPath(d), [PrintHunkHeader(n, n, h)] + body);
    ReadOne(ReadWhole, s, PrintHunkHeader(n, n, h), body);
  }

  /** A hunk without a section title sets the number. */
  lemma UntitledReads(p: string, gap: seq<string>, edits: seq<Edit>)
    requires Short(p) && NewCount(edits) > 0
    ensures Parsed(PrintDiff([], [OneHunk(p, gap, "", edits)]))
         == ReadAll(ReadWhole, Opened(p, |gap| + 1), PrintEdits(edits)).added
  {
    UnbrokenFragments("");
    hide ReadWhole, ReadLine, Parsed, PrintDiff, PrintEdits, OneHunk, Tail, Fragments, First, Unbroken;
    OneHunkReads(p, gap, "", edits);
  }

  // ----- What a run of leftover lines does -----

  /** The path a line names, if it names one to a reader that has one already. */
  function Named(raw: string): Option<string> {
    if HEADER <= raw then Some(HeaderPath(raw))
    else if "+++ " <= raw && raw != "+++ /dev/null" then Some(NewPath(raw[4..]))
    else None
  }

  predicate Adds(raw: string) {
    "+" <= raw && !("+++ " <= raw)
  }

  lemma CalmExactly(raw: string)
    ensures Calm(raw) <==> Named(raw).None? && !Adds(raw)
  {
    hide HeaderPath, NewPath;
    assert "+++ " <= raw ==> raw[0] == '+';
  }

  lemma NamedRegisters(s: Files, raw: string)
    requires s.path.Some? && Named(raw).Some?
    ensures Named(raw).value in ReadLine(s, raw).added
  {
    hide HeaderPath, NewPath;
    if !(HEADER <= raw) { assert raw[0] == '+'; }
  }

  lemma AddsGrow(s: Files, raw: string)
    requires s.path.Some? && Adds(raw)
    ensures ReadLine(s, raw) == Files(Append(s.added, s.path.value, [Added(s.line, raw[1..])]), s.path, s.line + 1)
  {
    assert raw == "+" + raw[1..];
    AddReads(s, raw[1..]);
  }

  /** What was listed stays listed, and no list gets shorter. */
  ghost predicate Grows(a: map<string, seq<Added>>, b: map<string, seq<Added>>) {
    forall p :: p in a ==> p in b && |a[p]| <= |b[p]|
  }

  lemma LineGrows(s: Files, raw: string)
    requires s.path.Some?
    ensures ReadLine(s, raw).path.Some? && Grows(s.added, ReadLine(s, raw).added)
  {
    hide HeaderPath, NewPath, HunkStart, IsMetadata;
  }

  lemma {:induction false} ReadGrows(s: Files, lines: seq<string>)
    requires s.path.Some?
    ensures ReadAll(ReadLine, s, lines).path.Some? && Grows(s.added, ReadAll(ReadLine, s, lines).added)
    decreases |lines|
  {
    if lines != [] {
      LineGrows(s, lines[0]);
      ReadGrows(ReadLine(s, lines[0]), lines[1..]);
    }
  }

  /** A run that names a path leaves that path listed, whatever it is read after. */
  lemma {:induction false} NamingStays(s: Files, lines: seq<string>, k: nat)
    requires s.path.Some? && k < |lines| && Named(lines[k]).Some?
    ensures Named(lines[k]).value in ReadAll(ReadLine, s, lines).added
    decreases |lines|
  {
    hide Named, ReadLine;
    var t := ReadLine(s, lines[0]);
    LineGrows(s, lines[0]);
    if k == 0 {
      NamedRegisters(s, lines[0]);
      ReadGrows(t, lines[1..]);
    } else {
      NamingStays(t, lines[1..], k - 1);
    }
  }

  /** A run that names no path but adds lengthens the list of the path it is read under. */
  lemma {:induction false} AddingStays(s: Files, lines: seq<string>, k: nat)
    requires s.path.Some? && s.path.value in s.added && k < |lines| && Adds(lines[k])
    requires forall i :: 0 <= i < |lines| ==> Named(lines[i]).None?
    ensures var t, p := ReadAll(ReadLine, s, lines), s.path.value;
            t.path == s.path && p in t.added && |t.added[p]| > |s.added[p]|
    decreases |lines|
  {
    hide Named, ReadLine, Adds;
    var t := ReadLine(s, lines[0]);
    LineGrows(s, lines[0]);
    UnnamedKeepsPath(s, lines[0]);
    if k == 0 {
      AddsGrow(s, lines[0]);
      PathStays(t, lines[1..]);
      ReadGrows(t, lines[1..]);
    } else {
      AddingStays(t, lines[1..], k - 1);
    }
  }

  lemma UnnamedKeepsPath(s: Files, raw: string)
    requires Named(raw).None?
    ensures ReadLine(s, raw).path == s.path
  {
    hide HeaderPath, NewPath, HunkStart, IsMetadata;
  }

  lemma {:induction false} PathStays(s: Files, lines: seq<string>)
    requires forall i :: 0 <= i < |lines| ==> Named(lines[i]).None?
    ensures ReadAll(ReadLine, s, lines).path == s.path
    decreases |lines|
  {
    hide Named, ReadLine;
    if lines != [] {
      UnnamedKeepsPath(s, lines[0]);
      PathStays(ReadLine(s, lines[0]), lines[1..]);
    }
  }

  /** Where a calm run takes the line number. */
  function LineAfter(lines: seq<string>, n: nat): nat {
    if lines == [] then n else LineAfter(lines[1..], ReadLine(Opened("", n), lines[0]).line)
  }

  predicate SetsLine(lines: seq<string>) {
    lines != [] && (HunkStart(lines[0]).Some? || SetsLine(lines[1..]))
  }

  lemma CalmLine(s: Files, raw: string)
    requires s.path.Some? && Calm(raw)
    ensures ReadLine(s, raw) == s.(line := ReadLine(Opened("", s.line), raw).line)
    ensures ReadLine(s, raw).line ==
      if HunkStart(raw).Some? then HunkStart(raw).value else if " " <= raw then s.line + 1 else s.line
  {
    hide ReadLine, Calm, HunkStart;
    if HunkStart(raw).Some? {
      AtSignReads(s, raw);
      AtSignReads(Opened("", s.line), raw);
    } else {
      CalmMoves(s, raw);
      CalmMoves(Opened("", s.line), raw);
    }
  }

  lemma CalmMoves(s: Files, raw: string)
    requires s.path.Some? && Calm(raw) && HunkStart(raw).None?
    ensures ReadLine(s, raw) == s.(line := if " " <= raw then s.line + 1 else s.line)
  {
    hide ReadLine, Calm;
    if " " <= raw {
      assert raw == " " + raw[1..];
      BlankReads(s, raw[1..]);
    } else {
      CalmStays(s, raw);
    }
  }

  lemma CalmStays(s: Files, raw: string)
    requires s.path.Some? && Calm(raw) && HunkStart(raw).None? && !(" " <= raw)
    ensures ReadLine(s, raw) == s
  {
    hide HeaderPath, NewPath, HunkStart, IsMetadata;
    assert "+++ " <= raw ==> raw[0] == '+';
  }

  lemma {:induction false} CalmRun(s: Files, lines: seq<string>)
    requires s.path.Some? && AllCalm(lines)
    ensures ReadAll(ReadLine, s, lines) == s.(line := LineAfter(lines, s.line))
    decreases |lines|
  {
    hide Calm, ReadLine;
    if lines != [] {
      CalmLine(s, lines[0]);
      CalmRun(ReadLine(s, lines[0]), lines[1..]);
    }
  }

  /** A calm run with a hunk header in it comes to one number; without, it only counts on. */
  lemma {:induction false} CalmNumbers(lines: seq<string>, m: nat, n: nat)
    requires AllCalm(lines)
    ensures SetsLine(lines) ==> LineAfter(lines, m) == LineAfter(lines, n)
    ensures !SetsLine(lines) ==> LineAfter(lines, n) >= n
    ensures !SetsLine(lines) && LineAfter(lines, n) == n ==> AllInert(lines)
    decreases |lines|
  {
    hide ReadLine, HunkStart;
    if lines != [] {
      var first, rest := lines[0], lines[1..];
      assert Calm(first);
      CalmLine(Opened("", m), first);
      CalmLine(Opened("", n), first);
      CalmNumbers(lines[1..], ReadLine(Opened("", m), first).line, ReadLine(Opened("", n), first).line);
    }
  }

  /** Lines left over that are not all inert falsify what is read after them, at one of two paths and numbers. */
  lemma LeftoverTells(lines: seq<string>, m: nat) returns (p: string, n: nat)
    requires !AllInert(lines)
    ensures Short(p) && m <= n <= m + 1 && ReadLine(ReadAll(ReadLine, Opened(p, n), lines), "+y").added != OnlyY(p, n)
  {
    hide ReadLine, Named, Adds, Calm, Inert;
    p, n := "f", m;
    if k: nat :| k < |lines| && Named(lines[k]).Some? {
      if Named(lines[k]).value == "f" { p := "g"; }
      NamingStays(Opened(p, n), lines, k);
      ReadGrows(Opened(p, n), lines);
      LineGrows(ReadAll(ReadLine, Opened(p, n), lines), "+y");
    } else if k: nat :| k < |lines| && Adds(lines[k]) {
      AddingStays(Opened(p, n), lines, k);
      YListed(ReadAll(ReadLine, Opened(p, n), lines), p);
    } else {
      forall k | 0 <= k < |lines| ensures Calm(lines[k]) { CalmExactly(lines[k]); }
      CalmNumbers(lines, m, m);
      CalmNumbers(lines, m, m + 1);
      if LineAfter(lines, m) == m { n := m + 1; }
      CalmRun(Opened(p, n), lines);
      YListed(Opened(p, LineAfter(lines, n)), p);
      assert ReadLine(Opened(p, LineAfter(lines, n)), "+y").added[p][0].line == LineAfter(lines, n) != n;
    }
  }

  /** The next added line is the last of its path's list. */
  lemma YListed(s: Files, p: string)
    requires s.path == Some(p) && p in s.added
    ensures var files := ReadLine(s, "+y").added; p in files && files[p] == s.added[p] + [Added(s.line, "y")]
  {
    hide ReadLine;
    YReads(s);
  }

  function OnlyY(p: string, n: nat): map<string, seq<Added>> {
    map[p := [Added(n, "y")]]
  }

  lemma YReads(s: Files)
    requires s.path.Some?
    ensures ReadLine(s, "+y").added == Append(s.added, s.path.value, [Added(s.line, "y")])
  {
    assert "+y" == "+" + "y";
    AddReads(s, "y");
  }

  /** Lines left over change nothing, whatever they are read after, exactly when each is inert. */
  lemma LeftoverInertExactly(lines: seq<string>)
    ensures AllInert(lines) <==> forall s: Files | s.path.Some? :: ReadAll(ReadLine, s, lines) == s
  {
    if AllInert(lines) {
      forall s: Files | s.path.Some? ensures ReadAll(ReadLine, s, lines) == s { InertRead(s, lines); }
    } else {
      var p, n := LeftoverTells(lines, 0);
      YReads(Opened(p, n));
      assert [] + [Added(n, "y")] == [Added(n, "y")];
      assert ReadAll(ReadLine, Opened(p, n), lines) != Opened(p, n);
    }
  }

  // ----- Doing no harm -----

  /** Every line is quiet, but for one that may stand anywhere. */
  ghost function Sparing(u: Line): Choice {
    v => v == u || Quiet(v)
  }

  /** Every diff in which every other line is quiet, and every added one reportable, is recovered. */
  ghost predicate Harmless(u: Line) {
    forall preamble, ds ::
      PrintablePreamble(Sparing(u), preamble) && AllPrintable(Sparing(u), ds) && AllClear(ds) ==>
      Parsed(PrintDiff(preamble, ds)) == Expected(map[], ds)
  }

  lemma {:induction false} HunksAllowed(ok: Choice, every: Choice, pieces: seq<Piece>)
    requires PrintableHunks(ok, pieces) && forall v :: ok(v) ==> every(v)
    ensures PrintableHunks(every, pieces)
  {
    if pieces != [] {
      var h := pieces[0];
      if h.Hunk? {
        forall k | 0 <= k < |h.edits| ensures PrintableEdit(every, h.edits[k]) {
          assert PrintableEdit(ok, h.edits[k]);
        }
      }
      HunksAllowed(ok, every, pieces[1..]);
    }
  }

  lemma {:induction false} FilesAllowed(ok: Choice, every: Choice, ds: seq<FileDiff>)
    requires AllPrintable(ok, ds) && forall v :: ok(v) ==> every(v)
    ensures AllPrintable(every, ds)
  {
    hide PlainPath, NoMark;
    if ds != [] {
      HunksAllowed(ok, every, ds[0].pieces);
      FilesAllowed(ok, every, ds[1..]);
    }
  }

  lemma QuietHarmless(u: Line)
    requires Quiet(u)
    ensures Harmless(u)
  {
    hide Quiet;
    var ok := Sparing(u);
    forall preamble, ds | PrintablePreamble(ok, preamble) && AllPrintable(ok, ds) && AllClear(ds)
      ensures Parsed(PrintDiff(preamble, ds)) == Expected(map[], ds)
    {
      FilesAllowed(ok, Quiet, ds);
      AddedLinesRecovered(preamble, ds);
    }
  }

  /** A diff spoilt by one line: every other is as it should be, and yet it is not recovered. */
  ghost predicate Spoilt(u: Line, preamble: seq<string>, ds: seq<FileDiff>) {
    && PrintablePreamble(Sparing(u), preamble) && AllPrintable(Sparing(u), ds) && AllClear(ds)
    && Parsed(PrintDiff(preamble, ds)) != Expected(map[], ds)
  }

  lemma OneHunkPrintable(u: Line, p: string, gap: seq<string>, section: string, edits: seq<Edit>)
    requires Short(p) && (u == Section(section) || section == "")
    requires forall k :: 0 <= k < |edits| ==> PrintableEdit(Sparing(u), edits[k])
    ensures AllPrintable(Sparing(u), [OneHunk(p, gap, section, edits)])
  {
    ShortPlain(p);
    UnbrokenFragments("");
    hide PlainPath, NoMark, Tail, Fragments;
    var ok, d := Sparing(u), OneHunk(p, gap, section, edits);
    assert d.pieces[1..][1..] == [] && [d][1..] == [];
    assert PrintableHunk(ok, d.pieces[1]) && PrintableHunk(ok, d.pieces[0]);
    assert PrintableHunks(ok, d.pieces[1..]);
    assert Printable(ok, d);
  }

  lemma OneHunkClear(p: string, gap: seq<string>, section: string, edits: seq<Edit>)
    requires forall k :: 0 <= k < |edits| ==> edits[k] == Add("y") || !edits[k].Add?
    ensures AllClear([OneHunk(p, gap, section, edits)])
  {
    var d := OneHunk(p, gap, section, edits);
    assert d.pieces[1..][1..] == [] && [d][1..] == [];
    assert ClearHunk(d.pieces[1]) && HunksClear(d.pieces[1..]);
  }

  /** How many unchanged lines to put in front. */
  function Front(k: nat): seq<string> {
    if k == 0 then [] else ["c"]
  }

  lemma ReadY(s: Files)
    ensures ReadAll(ReadWhole, s, PrintEdits([Add("y")])) == ReadLine(s, "+y")
  {
    assert [Add("y")][1..] == [] && PrintEdit(Add("y")) == "+y" && Unbroken("+y");
    UnbrokenReads(s, "+y");
    ReadOne(ReadWhole, s, "+y", []);
  }

  lemma SectionPrintable(p: string, gap: seq<string>, t: string)
    requires Short(p)
    ensures var ds, ok := [OneHunk(p, gap, t, [Add("y")])], Sparing(Section(t));
            PrintablePreamble(ok, []) && AllPrintable(ok, ds) && AllClear(ds)
  {
    hide AllPrintable, AllClear;
    OneHunkPrintable(Section(t), p, gap, t, [Add("y")]);
    OneHunkClear(p, gap, t, [Add("y")]);
  }

  lemma OneHunkExpectsY(p: string, gap: seq<string>, section: string, edits: seq<Edit>)
    requires edits == [Add("y")] || (|edits| == 2 && !edits[0].Add? && edits[1] == Add("y"))
    ensures var n := |gap| + (if edits[0].Keep? then 2 else 1);
            Expected(map[], [OneHunk(p, gap, section, edits)]) == OnlyY(p, n)
  {
    var n := |gap| + (if edits[0].Keep? then 2 else 1);
    assert [Add("y")][1..] == [] && AddedIn([Add("y")], n) == [Added(n, "y")] + [] == [Added(n, "y")];
    if |edits| == 2 { assert edits[1..] == [Add("y")]; }
    assert AddedIn(edits, |gap| + 1) == [Added(n, "y")];
    hide AddedIn, Expected;
    OneHunkExpected(p, gap, section, edits);
  }

  lemma SectionSpoils(t: string) returns (d: FileDiff)
    requires !Quiet(Section(t))
    ensures Spoilt(Section(t), [], [d])
  {
    hide ReadLine, ReadWhole, Tail, Parsed, PrintDiff, PrintEdits, Expected, OneHunk, AllPrintable, AllClear,
         PrintablePreamble, Sparing, OnlyY, Opened;
    var p, n := LeftoverTells(Tail(t), 1);
    var gap := Front(n - 1);
    d := OneHunk(p, gap, t, [Add("y")]);
    OneHunkReads(p, gap, t, [Add("y")]);
    ReadY(ReadAll(ReadLine, Opened(p, n), Tail(t)));
    OneHunkExpectsY(p, gap, t, [Add("y")]);
    SectionPrintable(p, gap, t);
  }

  /** What is read of a hunk of one line and an addition. */
  lemma LineThenY(p: string, gap: seq<string>, e: Edit)
    requires Short(p)
    ensures Parsed(PrintDiff([], [OneHunk(p, gap, "", [e, Add("y")])]))
         == ReadLine(ReadWhole(Opened(p, |gap| + 1), PrintEdit(e)), "+y").added
  {
    var edits, s := [e, Add("y")], Opened(p, |gap| + 1);
    assert edits[1..] == [Add("y")] && edits[1..][1..] == [];
    assert PrintEdits(edits) == [PrintEdit(e)] + PrintEdits([Add("y")]);
    assert NewCount(edits) > 0;
    hide ReadLine, ReadWhole, PrintEdit, PrintEdits, NewCount, Parsed, PrintDiff;
    UntitledReads(p, gap, edits);
    ReadOne(ReadWhole, s, PrintEdit(e), PrintEdits([Add("y")]));
    ReadY(ReadWhole(s, PrintEdit(e)));
  }

  lemma LinePrintable(p: string, gap: seq<string>, e: Edit, u: Line)
    requires Short(p) && ((e == Keep(u.text) && u.Context?) || (e == Drop(u.text) && u.Dropped?))
    ensures var ds, ok := [OneHunk(p, gap, "", [e, Add("y")])], Sparing(u);
            PrintablePreamble(ok, []) && AllPrintable(ok, ds) && AllClear(ds)
  {
    hide AllPrintable, AllClear;
    OneHunkPrintable(u, p, gap, "", [e, Add("y")]);
    OneHunkClear(p, gap, "", [e, Add("y")]);
  }

  lemma LineSpoils(p: string, gap: seq<string>, e: Edit, u: Line) returns (d: FileDiff)
    requires Short(p) && ((e == Keep(u.text) && u.Context?) || (e == Drop(u.text) && u.Dropped?))
    requires var n := |gap| + (if e.Keep? then 2 else 1);
             ReadLine(ReadWhole(Opened(p, |gap| + 1), PrintEdit(e)), "+y").added != OnlyY(p, n)
    ensures Spoilt(u, [], [d])
  {
    hide ReadLine, ReadWhole, PrintEdit, Parsed, PrintDiff, Expected, OneHunk, AllPrintable, AllClear,
         PrintablePreamble, Sparing, OnlyY, Opened;
    d := OneHunk(p, gap, "", [e, Add("y")]);
    LineThenY(p, gap, e);
    OneHunkExpectsY(p, gap, "", [e, Add("y")]);
    LinePrintable(p, gap, e, u);
  }

  lemma DroppedSpoils(t: string) returns (d: FileDiff)
    requires !Quiet(Dropped(t))
    ensures Spoilt(Dropped(t), [], [d])
  {
    hide ReadLine, ReadWhole, Tail, Spoilt;
    var p, n := LeftoverTells(Tail(t), 1);
    DropReads(Opened(p, n), t);
    d := LineSpoils(p, Front(n - 1), Drop(t), Dropped(t));
  }

  lemma ContextSpoils(t: string) returns (d: FileDiff)
    requires !Quiet(Context(t))
    ensures Spoilt(Context(t), [], [d])
  {
    hide ReadLine, ReadWhole, Tail, Spoilt;
    var p, n := LeftoverTells(Tail(t), 2);
    KeepReads(Opened(p, n - 1), t);
    d := LineSpoils(p, Front(n - 2), Keep(t), Context(t));
  }

  /** A change that moves no line, but has metadata. */
  function Empty(p: string, metadata: string): FileDiff {
    FileDiff(p, p, [metadata], false, [])
  }

  lemma EmptyReads(p: string, m: string)
    requires Short(p)
    ensures Parsed(PrintDiff([], [Empty(p, m)])) == ReadAll(ReadLine, Opened(p, 0), Fragments(m)).added
    ensures Expected(map[], [Empty(p, m)]) == map[p := []]
  {
    var d := Empty(p, m);
    assert [d][1..] == [] && [] + AddedOf([], 1) == [];
    FileOpens(d);
    ParsedLines([], [d]);
    assert PrintFiles([d]) == [PrintHeader(d)] + [m];
    hide PrintHeader, ReadWhole, PrintFiles, Parsed, PrintDiff;
    ReadOne(ReadWhole, START, PrintHeader(d), [m]);
    assert [m] == [m] + [];
    ReadOne(ReadWhole, Opened(p, 0), m, []);
    WholeRead(Opened(p, 0), m);
  }

  lemma WholeRead(s: Files, raw: string)
    ensures ReadWhole(s, raw) == ReadAll(ReadLine, s, Fragments(raw))
  {
  }

  lemma EmptyPrintable(p: string, m: string)
    requires Short(p)
    ensures var ds, ok := [Empty(p, m)], Sparing(Metadata(m));
            PrintablePreamble(ok, []) && AllPrintable(ok, ds) && AllClear(ds)
  {
    ShortPlain(p);
    hide PlainPath, NoMark, Quiet;
    assert [Empty(p, m)][1..] == [];
    assert Printable(Sparing(Metadata(m)), Empty(p, m));
  }

  /** Lines that are not all calm list something that a file with no changes has not. */
  lemma MetadataTells(lines: seq<string>) returns (p: string)
    requires !AllCalm(lines)
    ensures Short(p) && ReadAll(ReadLine, Opened(p, 0), lines).added != map[p := []]
  {
    hide ReadLine, Named, Adds, Calm;
    p := "f";
    if k: nat :| k < |lines| && Named(lines[k]).Some? {
      if Named(lines[k]).value == "f" { p := "g"; }
      NamingStays(Opened(p, 0), lines, k);
    } else {
      var k: nat :| k < |lines| && !Calm(lines[k]);
      CalmExactly(lines[k]);
      AddingStays(Opened(p, 0), lines, k);
    }
  }

  lemma MetadataSpoils(m: string) returns (d: FileDiff)
    requires !Quiet(Metadata(m))
    ensures Spoilt(Metadata(m), [], [d])
  {
    hide ReadLine, Fragments, Parsed, PrintDiff, Expected, AllPrintable, AllClear, PrintablePreamble, Sparing, Empty;
    var p := MetadataTells(Fragments(m));
    d := Empty(p, m);
    EmptyReads(p, m);
    EmptyPrintable(p, m);
  }

  lemma PreambleSpoils(m: string)
    requires !Quiet(Preamble(m))
    ensures Spoilt(Preamble(m), [m], [])
  {
    hide ReadLine, Fragments;
    var lines := Fragments(m);
    HeaderRegisters(START, lines);
    SplitJoined([m] + PrintFiles([]));
    assert [m] + PrintFiles([]) == [m];
    assert [m][1..] == [] && AllFragments([m]) == lines + [] == lines;
  }

  lemma {:induction false} HeaderRegisters(s: Files, lines: seq<string>)
    requires !HeaderFree(lines) && s.path.None?
    ensures ReadAll(ReadLine, s, lines).added != map[]
    decreases |lines|
  {
    hide HeaderPath, NewPath, HunkStart, IsMetadata;
    var t := ReadLine(s, lines[0]);
    if HEADER <= lines[0] {
      assert HeaderPath(lines[0]) in t.added;
      ReadGrows(t, lines[1..]);
    } else {
      HeaderRegisters(t, lines[1..]);
    }
  }

  /**
   * A line that adds nothing leaves every diff to be recovered, whatever else is printed with it, exactly
   * when it is quiet: a condition on its own text.
   */
  lemma HarmlessExactly(u: Line)
    ensures Harmless(u) <==> Quiet(u)
  {
    hide Quiet, Harmless;
    if Quiet(u) {
      QuietHarmless(u);
    } else {
      Spoiler(u);
    }
  }

  lemma Spoiler(u: Line)
    requires !Quiet(u)
    ensures !Harmless(u)
  {
    hide Quiet, Parsed, PrintDiff, Expected, AllClear, AllPrintable, PrintablePreamble, Sparing;
    match u
    case Preamble(t) => PreambleSpoils(t); assert Spoilt(u, [t], []);
    case Metadata(t) => var d := MetadataSpoils(t); assert Spoilt(u, [], [d]);
    case Section(t) => var d := SectionSpoils(t); assert Spoilt(u, [], [d]);
    case Context(t) => var d := ContextSpoils(t); assert Spoilt(u, [], [d]);
    case Dropped(t) => var d := DroppedSpoils(t); assert Spoilt(u, [], [d]);
  }
}
