/**
 * The reader of unified diffs behind the recorded review: every added line, under
 * the path it lands in, with its line number in the new file.
 */
module DiffParser {
  import opened Common
  import opened Decimal
  import opened TextLines

  datatype Added = Added(line: nat, text: string)

  // ----- Reading one line -----

  function DropQuote(s: string): string {
    if s != [] && s[0] == '"' then s[1..] else s
  }

  function DropLastQuote(s: string): string {
    if s != [] && s[|s| - 1] == '"' then s[..|s| - 1] else s
  }

  /** What follows the junction between the two paths of a header, if it stands at the front of s. */
  function AfterJunction(s: string): Option<string> {
    var t := DropQuote(s);
    if t == [] || t[0] != ' ' then None
    else
      var u := DropQuote(t[1..]);
      if "b/" <= u then Some(u[2..]) else None
  }

  function FindJunction(s: string): Option<string> {
    if AfterJunction(s).Some? then AfterJunction(s)
    else if s == [] then None
    else FindJunction(s[1..])
  }

  /** What follows the first " b/", or all of s. */
  function AfterMark(s: string, whole: string): string {
    if " b/" <= s then s[3..] else if s == [] then whole else AfterMark(s[1..], whole)
  }

  const HEADER := "diff --git "

  /** The new path a header line names: the shortest first path, and the second without its quotes. */
  function HeaderPath(raw: string): string
    requires HEADER <= raw
  {
    var body := DropQuote(raw[|HEADER|..]);
    var found := if "a/" <= body then FindJunction(body[2..]) else None;
    match found
    case Some(second) => DropLastQuote(second)
    case None => AfterMark(raw, raw)
  }

  function BeforeTab(s: string): string {
    if s == [] || s[0] == '\t' then [] else [s[0]] + BeforeTab(s[1..])
  }

  function StripQuotes(s: string): string
    decreases |s|
  {
    if s != [] && s[0] == '"' then StripQuotes(s[1..])
    else if s != [] && s[|s| - 1] == '"' then StripQuotes(s[..|s| - 1])
    else s
  }

  /** The path a new-file line names, without its timestamp, its prefix and its quotes. */
  function NewPath(s: string): string {
    var path := BeforeTab(s);
    StripQuotes(if "b/" <= path then path[2..] else path)
  }

  function TakeDigits(s: string): (r: (string, string))
    ensures s == r.0 + r.1 && AllDigits(r.0)
  {
    if s == [] || !IsDigit(s[0]) then ("", s)
    else
      var (d, rest) := TakeDigits(s[1..]);
      ([s[0]] + d, rest)
  }

  /** A hunk range: digits, perhaps a comma and a count; the digits and what follows the range. */
  function TakeRange(s: string): (r: Option<(string, string)>)
    ensures r.Some? ==> AllDigits(r.value.0)
  {
    var (d, rest) := TakeDigits(s);
    if d == [] then None
    else if rest == [] || rest[0] != ',' then Some((d, rest))
    else
      var (count, after) := TakeDigits(rest[1..]);
      Some((d, if count == [] then rest else after))
  }

  /** The new-file line number a hunk header starts at. */
  function HunkStart(raw: string): Option<nat> {
    if !("@@ -" <= raw) then None
    else
      match TakeRange(raw[4..])
      case None => None
      case Some((_, middle)) =>
        if !(" +" <= middle) then None
        else
          match TakeRange(middle[2..])
          case None => None
          case Some((digits, rest)) => if " @@" <= rest then Some(Value(digits)) else None
  }

  datatype Files = Files(added: map<string, seq<Added>>, path: Option<string>, line: nat)

  function Register(files: map<string, seq<Added>>, path: string): map<string, seq<Added>> {
    if path in files then files else files[path := []]
  }

  function Append(files: map<string, seq<Added>>, path: string, more: seq<Added>): map<string, seq<Added>> {
    files[path := (if path in files then files[path] else []) + more]
  }

  predicate IsMetadata(raw: string) {
    || "--- " <= raw || "index " <= raw || "rename " <= raw || "similarity " <= raw || "new file" <= raw
    || "deleted file" <= raw || "Binary files" <= raw || "old mode" <= raw || "new mode" <= raw
  }

  function ReadLine(s: Files, raw: string): Files {
    if HEADER <= raw then
      s.(added := Register(s.added, HeaderPath(raw)), path := Some(HeaderPath(raw)))
    else if s.path.None? then s
    else if "+++ " <= raw then
      if raw == "+++ /dev/null" then s
      else s.(added := Register(s.added, NewPath(raw[4..])), path := Some(NewPath(raw[4..])))
    else if IsMetadata(raw) then s
    else if HunkStart(raw).Some? then s.(line := HunkStart(raw).value)
    else if "+" <= raw then
      s.(added := Append(s.added, s.path.value, [Added(s.line, raw[1..])]), line := s.line + 1)
    else if " " <= raw then s.(line := s.line + 1)
    else s
  }

  type LineReader = (Files, string) -> Files

  function ReadAll(read: LineReader, s: Files, lines: seq<string>): Files
    decreases |lines|
  {
    if lines == [] then s else ReadAll(read, read(s, lines[0]), lines[1..])
  }

  function ReadLines(s: Files, lines: seq<string>): Files {
    ReadAll(ReadLine, s, lines)
  }

  const START := Files(map[], None, 0)

  function Parsed(text: string): map<string, seq<Added>> {
    ReadLines(START, SplitLines(text)).added
  }

  method ParseDiff(text: string) returns (files: map<string, seq<Added>>)
    ensures files == Parsed(text)
  {
    files := map[];
    var path: Option<string>, newLine := None, 0;
    var lines := SplitLines(text);
    for i := 0 to |lines|
      invariant ReadAll(ReadLine, Files(files, path, newLine), lines[i..]) == ReadAll(ReadLine, START, lines)
    {
      ghost var s := Files(files, path, newLine);
      var raw := lines[i];
      assert lines[i..][0] == raw && lines[i..][1..] == lines[i + 1..];
      if HEADER <= raw {
        path := Some(HeaderPath(raw));
        files := Register(files, path.value);
      } else if path.Some? {
        if "+++ " <= raw {
          if raw != "+++ /dev/null" {
            path := Some(NewPath(raw[4..]));
            files := Register(files, path.value);
          }
        } else if !IsMetadata(raw) {
          var hunk := HunkStart(raw);
          if hunk.Some? {
            newLine := hunk.value;
          } else if "+" <= raw {
            files := Append(files, path.value, [Added(newLine, raw[1..])]);
            newLine := newLine + 1;
          } else if " " <= raw {
            newLine := newLine + 1;
          }
        }
      }
      assert Files(files, path, newLine) == ReadLine(s, raw);
    }
  }

  // ----- Diffs, and how they are printed -----

  /** One line of an alignment of an old file with a new one; Mark is the no-newline marker. */
  datatype Edit = Keep(text: string) | Drop(text: string) | Add(text: string) | Mark

  /**
   * A stretch of an alignment: unchanged lines the diff leaves out, or a hunk it prints, with
   * whatever context. A count of 1 may be left out of a hunk's header, and a section title follow it.
   */
  datatype Piece =
    | Gap(lines: seq<string>)
    | Hunk(edits: seq<Edit>, shortOld: bool, shortNew: bool, section: string)

  datatype FileDiff = FileDiff(
    oldPath: string,
    newPath: string,
    metadata: seq<string>,
    deleted: bool,
    pieces: seq<Piece>)

  function Kept(lines: seq<string>): seq<Edit> {
    if lines == [] then [] else [Keep(lines[0])] + Kept(lines[1..])
  }

  function EditsOf(p: Piece): seq<Edit> {
    match p
    case Gap(lines) => Kept(lines)
    case Hunk(edits, _, _, _) => edits
  }

  /** The whole alignment of the old file with the new. */
  function Alignment(pieces: seq<Piece>): seq<Edit> {
    if pieces == [] then [] else EditsOf(pieces[0]) + Alignment(pieces[1..])
  }

  function OldCount(edits: seq<Edit>): nat {
    if edits == [] then 0 else (if edits[0].Keep? || edits[0].Drop? then 1 else 0) + OldCount(edits[1..])
  }

  function NewCount(edits: seq<Edit>): nat {
    if edits == [] then 0 else (if edits[0].Keep? || edits[0].Add? then 1 else 0) + NewCount(edits[1..])
  }

  /** The lines of the new file. */
  function NewText(edits: seq<Edit>): seq<string> {
    if edits == [] then []
    else (if edits[0].Keep? || edits[0].Add? then [edits[0].text] else []) + NewText(edits[1..])
  }

  function OldIn(p: Piece): nat {
    OldCount(EditsOf(p))
  }

  function NewIn(p: Piece): nat {
    NewCount(EditsOf(p))
  }

  /** The added lines of an alignment whose first new line has this number. */
  function AddedIn(edits: seq<Edit>, line: nat): seq<Added> {
    if edits == [] then []
    else
      match edits[0]
      case Add(t) => [Added(line, t)] + AddedIn(edits[1..], line + 1)
      case Keep(_) => AddedIn(edits[1..], line + 1)
      case _ => AddedIn(edits[1..], line)
  }

  function PrintEdit(e: Edit): string {
    match e
    case Keep(t) => " " + t
    case Drop(t) => "-" + t
    case Add(t) => "+" + t
    case Mark => "\\ No newline at end of file"
  }

  function PrintEdits(edits: seq<Edit>): seq<string> {
    if edits == [] then [] else [PrintEdit(edits[0])] + PrintEdits(edits[1..])
  }

  /** A range starts one past the lines before it, or at them when it is empty. */
  function PrintRange(before: nat, count: nat, short: bool): string {
    Render(if count == 0 then before else before + 1) + (if short && count == 1 then "" else "," + Render(count))
  }

  /** A hunk's header, after so many old and new lines; a gap has none. */
  function PrintHunkHeader(oldBefore: nat, newBefore: nat, h: Piece): string {
    if h.Gap? then ""
    else
      "@@ -" + PrintRange(oldBefore, OldCount(h.edits), h.shortOld) +
      " +" + PrintRange(newBefore, NewCount(h.edits), h.shortNew) + " @@" + h.section
  }

  type HunkPrinter = (nat, nat, Piece) -> string

  /** The hunks among the pieces, after so many old and new lines. */
  function PrintPieces(header: HunkPrinter, oldBefore: nat, newBefore: nat, pieces: seq<Piece>): seq<string>
    decreases |pieces|
  {
    if pieces == [] then []
    else
      var piece := pieces[0];
      var rest := PrintPieces(header, oldBefore + OldIn(piece), newBefore + NewIn(piece), pieces[1..]);
      if piece.Gap? then rest else [header(oldBefore, newBefore, piece)] + (PrintEdits(piece.edits) + rest)
  }

  /** The new-file line; a path with a space is followed by a tab. */
  function PrintNewPath(d: FileDiff): string {
    if d.deleted then "+++ /dev/null"
    else "+++ b/" + d.newPath + (if ' ' in d.newPath then "\t" else "")
  }

  function PrintHeader(d: FileDiff): string {
    "diff --git a/" + d.oldPath + " b/" + d.newPath
  }

  function PrintBody(d: FileDiff): seq<string> {
    if d.pieces == [] then [] else [PrintNewPath(d)] + PrintPieces(PrintHunkHeader, 0, 0, d.pieces)
  }

  function PrintFile(d: FileDiff): seq<string> {
    [PrintHeader(d)] + (d.metadata + PrintBody(d))
  }

  function PrintFiles(ds: seq<FileDiff>): seq<string> {
    if ds == [] then [] else PrintFile(ds[0]) + PrintFiles(ds[1..])
  }

  // ----- What each printed line does -----

  /** A line that names no path and adds nothing: it can only move the line number. */
  predicate Calm(raw: string) {
    !("diff --git " <= raw) && ("+" <= raw ==> raw == "+++ /dev/null")
  }

  /** A line that is no header, no new path, no hunk, no addition and no context line. */
  predicate Inert(raw: string) {
    Calm(raw) && !(" " <= raw) && HunkStart(raw).None?
  }

  predicate HeaderFree(lines: seq<string>) {
    forall k :: 0 <= k < |lines| ==> !("diff --git " <= lines[k])
  }

  predicate AllCalm(lines: seq<string>) {
    forall k :: 0 <= k < |lines| ==> Calm(lines[k])
  }

  lemma CalmReads(s: Files, raw: string)
    requires Calm(raw)
    ensures ReadLine(s, raw).added == s.added && ReadLine(s, raw).path == s.path
  {
    hide HeaderPath, NewPath, HunkStart, IsMetadata;
    if "+++ " <= raw { assert raw[0] == '+'; }
  }

  lemma InertReads(s: Files, raw: string)
    requires Inert(raw)
    ensures ReadLine(s, raw) == s
  {
    hide HeaderPath, NewPath, HunkStart;
    if "+++ " <= raw { assert raw[0] == '+'; }
  }

  lemma OthersMove(raw: string) returns (s: Files)
    requires !Inert(raw)
    ensures ReadLine(s, raw) != s
  {
    hide HeaderPath, NewPath;
    if HEADER <= raw {
      s := Files(map[], None, 0);
      assert ReadLine(s, raw).path.Some?;
    } else if "+++ " <= raw {
      s := Files(map[], Some(NewPath(raw[4..]) + "x"), 0);
      assert raw[0] == '+' && raw != "+++ /dev/null";
      assert |NewPath(raw[4..]) + "x"| > |NewPath(raw[4..])|;
    } else if HunkStart(raw).Some? {
      s := Files(map[], Some(""), HunkStart(raw).value + 1);
      AtSignReads(s, raw);
    } else {
      s := Files(map[], Some(""), 0);
      assert raw[0] == '+' || raw[0] == ' ';
      assert !IsMetadata(raw);
      assert ReadLine(s, raw).line == 1;
    }
  }

  /** Inert lines are exactly those that change nothing, wherever they stand. */
  lemma InertExactly(raw: string)
    ensures Inert(raw) <==> forall s :: ReadLine(s, raw) == s
  {
    hide ReadLine, Inert;
    if Inert(raw) {
      forall s ensures ReadLine(s, raw) == s { InertReads(s, raw); }
    } else {
      var s := OthersMove(raw);
    }
  }

  /** A printed line whose every fragment is inert. */
  predicate AllInert(lines: seq<string>) {
    forall k :: 0 <= k < |lines| ==> Inert(lines[k])
  }

  lemma AddReads(s: Files, t: string)
    requires s.path.Some? && !("++ " <= t)
    ensures ReadLine(s, "+" + t)
         == Files(Append(s.added, s.path.value, [Added(s.line, t)]), s.path, s.line + 1)
  {
    var raw := "+" + t;
    assert raw[0] == '+' && raw[1..] == t;
  }

  lemma BlankReads(s: Files, t: string)
    requires s.path.Some?
    ensures ReadLine(s, " " + t) == s.(line := s.line + 1)
  {
    assert (" " + t)[0] == ' ';
  }

  lemma {:induction false} TakeDigitsExact(d: string, rest: string)
    requires AllDigits(d) && (rest == [] || !IsDigit(rest[0]))
    ensures TakeDigits(d + rest) == (d, rest)
  {
    if d == [] {
      assert d + rest == rest;
    } else {
      TakeDigitsExact(d[1..], rest);
      var all := d + rest;
      assert all[0] == d[0] && IsDigit(d[0]);
      assert all[1..] == d[1..] + rest && [d[0]] + d[1..] == d;
    }
  }

  /** A printed range reads back as its start, however its count is printed. */
  lemma RangeReads(before: nat, count: nat, short: bool, rest: string)
    requires rest != [] && rest[0] == ' '
    ensures TakeRange(PrintRange(before, count, short) + rest)
         == Some((Render(if count == 0 then before else before + 1), rest))
  {
    var d := Render(if count == 0 then before else before + 1);
    var raw := PrintRange(before, count, short) + rest;
    if short && count == 1 {
      assert raw == d + rest;
      TakeDigitsExact(d, rest);
    } else {
      var tail := "," + (Render(count) + rest);
      assert raw == d + tail;
      TakeDigitsExact(d, tail);
      assert tail[1..] == Render(count) + rest;
      TakeDigitsExact(Render(count), rest);
    }
  }

  lemma HunkStartReads(oldBefore: nat, olds: nat, shortOld: bool,
                       newBefore: nat, news: nat, shortNew: bool, section: string)
    ensures HunkStart("@@ -" + PrintRange(oldBefore, olds, shortOld) +
                      " +" + PrintRange(newBefore, news, shortNew) + " @@" + section)
         == Some(if news == 0 then newBefore else newBefore + 1)
  {
    hide PrintRange, TakeRange;
    var first, second := PrintRange(oldBefore, olds, shortOld), PrintRange(newBefore, news, shortNew);
    var raw := "@@ -" + first + " +" + second + " @@" + section;
    var tail := " @@" + section;
    var middle := " +" + (second + tail);
    assert raw == "@@ -" + (first + middle);
    assert raw[4..] == first + middle;
    RangeReads(oldBefore, olds, shortOld, middle);
    assert middle[2..] == second + tail;
    RangeReads(newBefore, news, shortNew, tail);
    ValueOfRender(if news == 0 then newBefore else newBefore + 1);
  }

  lemma AtSignReads(s: Files, raw: string)
    requires s.path.Some? && HunkStart(raw).Some?
    ensures ReadLine(s, raw) == s.(line := HunkStart(raw).value)
  {
    assert raw[0] == '@';
  }

  // ----- Paths -----

  /** A path git prints as it is: no quote, no tab, and, for the first path, no " b/" inside. */
  predicate PlainPath(p: string) {
    Unbroken(p) && forall i :: 0 <= i < |p| ==> p[i] != '"' && p[i] != '\t'
  }

  predicate NoMark(p: string) {
    !(" b/" <= p) && (p == [] || NoMark(p[1..]))
  }

  lemma NoEarlyJunction(first: string, second: string)
    requires first != [] && !(" b/" <= first) && PlainPath(first) && PlainPath(second)
    ensures AfterJunction(first + " b/" + second).None?
  {
    var s := first + " b/" + second;
    assert forall i :: 0 <= i < |first| ==> s[i] == first[i];
    assert s[|first|] == ' ' && s[|first| + 1] == 'b' && s[|first| + 2] == '/';
    assert s[0] != '"' && s[1] != '"' && s[1..][0] == s[1];
    assert s[1..][1] == s[2];
  }

  lemma {:induction false} JunctionFound(first: string, second: string)
    requires NoMark(first) && PlainPath(first) && PlainPath(second)
    ensures FindJunction(first + " b/" + second) == Some(second)
  {
    var s := first + " b/" + second;
    if first == [] {
      assert s[0] == ' ' && s[1..] == "b/" + second && s[1..][2..] == second;
    } else {
      NoEarlyJunction(first, second);
      JunctionFound(first[1..], second);
      assert s[1..] == first[1..] + " b/" + second;
    }
  }

  lemma SecondPathKept(first: string, second: string)
    requires NoMark(first) && PlainPath(first) && PlainPath(second)
    ensures var body := "a/" + (first + " b/" + second);
            && DropQuote(body) == body && "a/" <= body
            && FindJunction(body[2..]) == Some(second) && DropLastQuote(second) == second
  {
    var body := "a/" + (first + " b/" + second);
    assert body[0] == 'a' && body[2..] == first + " b/" + second;
    JunctionFound(first, second);
  }

  lemma HeaderSplits(first: string, second: string)
    ensures var raw := "diff --git a/" + first + " b/" + second;
            HEADER <= raw && raw[|HEADER|..] == "a/" + (first + " b/" + second)
  {
    var raw := "diff --git a/" + first + " b/" + second;
    assert raw == HEADER + ("a/" + (first + " b/" + second));
  }

  lemma HeaderReads(first: string, second: string)
    requires NoMark(first) && PlainPath(first) && PlainPath(second)
    ensures var raw := "diff --git a/" + first + " b/" + second; HEADER <= raw && HeaderPath(raw) == second
  {
    hide FindJunction, DropQuote, DropLastQuote, NoMark, PlainPath;
    HeaderSplits(first, second);
    SecondPathKept(first, second);
  }

  lemma {:induction false} BeforeTabOf(p: string, rest: string)
    requires (forall i :: 0 <= i < |p| ==> p[i] != '\t') && (rest == [] || rest[0] == '\t')
    ensures BeforeTab(p + rest) == p
  {
    if p == [] {
      assert p + rest == rest;
    } else {
      assert (p + rest)[1..] == p[1..] + rest;
      BeforeTabOf(p[1..], rest);
    }
  }

  lemma NewPathReads(p: string, tab: string)
    requires PlainPath(p) && (tab == "" || tab == "\t")
    ensures NewPath("b/" + p + tab) == p
  {
    assert forall i :: 0 <= i < |"b/" + p| ==> ("b/" + p)[i] != '\t';
    BeforeTabOf("b/" + p, tab);
    assert ("b/" + p)[2..] == p;
  }

  // ----- Runs of printed lines, for any reader that treats each line so -----

  ghost predicate TakesMetadata(read: LineReader) {
    forall s: Files, raw {:trigger read(s, raw)} ::
      AllCalm(Fragments(raw)) ==> read(s, raw).added == s.added && read(s, raw).path == s.path
  }

  /** An added text the reader can report: it breaks no line, and does not print as a new path. */
  predicate Reportable(t: string) {
    Unbroken(t) && !("++ " <= t)
  }

  /** A line that reads back as itself: what a break leaves over of a line not added is inert. */
  predicate Faithful(e: Edit) {
    match e
    case Add(t) => Reportable(t)
    case Keep(t) => AllInert(Tail(t))
    case Drop(t) => AllInert(Tail(t))
    case Mark => true
  }

  /** What reading one line of an alignment does. */
  ghost function Effect(s: Files, e: Edit): Files
    requires s.path.Some?
  {
    match e
    case Add(t) => Files(Append(s.added, s.path.value, [Added(s.line, t)]), s.path, s.line + 1)
    case Keep(_) => s.(line := s.line + 1)
    case _ => s
  }

  ghost predicate TakesEdits(read: LineReader) {
    forall s: Files, e {:trigger read(s, PrintEdit(e))} ::
      s.path.Some? && Faithful(e) ==> read(s, PrintEdit(e)) == Effect(s, e)
  }

  /** The line number a hunk sets: where its first new line stands, or the line it follows. */
  ghost function HunkLine(newBefore: nat, h: Piece): nat
    requires h.Hunk?
  {
    if NewCount(h.edits) == 0 then newBefore else newBefore + 1
  }

  ghost predicate TakesHunks(read: LineReader, header: HunkPrinter) {
    forall s: Files, oldBefore: nat, newBefore: nat, h: Piece {:trigger read(s, header(oldBefore, newBefore, h))} ::
      s.path.Some? && h.Hunk? && AllInert(Tail(h.section)) ==>
      read(s, header(oldBefore, newBefore, h)) == s.(line := HunkLine(newBefore, h))
  }

  ghost predicate TakesHeaders(read: LineReader) {
    forall s: Files, d: FileDiff {:trigger read(s, PrintHeader(d))} ::
      PlainPath(d.oldPath) && PlainPath(d.newPath) && NoMark(d.oldPath) ==>
      read(s, PrintHeader(d)) == Files(Register(s.added, d.newPath), Some(d.newPath), s.line)
  }

  ghost predicate TakesNewPaths(read: LineReader) {
    forall s: Files, d: FileDiff {:trigger read(s, PrintNewPath(d))} ::
      PlainPath(d.newPath) && s.path == Some(d.newPath) && d.newPath in s.added ==>
      read(s, PrintNewPath(d)) == s
  }

  ghost predicate TakesDiffs(read: LineReader) {
    && TakesMetadata(read) && TakesEdits(read) && TakesHunks(read, PrintHunkHeader)
    && TakesHeaders(read) && TakesNewPaths(read)
  }

  lemma {:induction false} ReadSplit(read: LineReader, s: Files, a: seq<string>, b: seq<string>)
    ensures ReadAll(read, s, a + b) == ReadAll(read, ReadAll(read, s, a), b)
    decreases |a|
  {
    if a == [] {
      assert a + b == b;
    } else {
      assert (a + b)[1..] == a[1..] + b;
      ReadSplit(read, read(s, a[0]), a[1..], b);
    }
  }

  lemma ReadOne(read: LineReader, s: Files, raw: string, rest: seq<string>)
    ensures ReadAll(read, s, [raw] + rest) == ReadAll(read, read(s, raw), rest)
  {
    assert ([raw] + rest)[1..] == rest;
  }

  lemma {:induction false} MetadataLines(read: LineReader, s: Files, lines: seq<string>)
    requires TakesMetadata(read) && forall i :: 0 <= i < |lines| ==> AllCalm(Fragments(lines[i]))
    ensures ReadAll(read, s, lines).added == s.added && ReadAll(read, s, lines).path == s.path
    decreases |lines|
  {
    if lines != [] {
      assert AllCalm(Fragments(lines[0]));
      MetadataLines(read, read(s, lines[0]), lines[1..]);
    }
  }

  lemma AppendTwice(files: map<string, seq<Added>>, p: string, x: seq<Added>, y: seq<Added>)
    ensures Append(Append(files, p, x), p, y) == Append(files, p, x + y)
  {
    var base := if p in files then files[p] else [];
    assert base + x + y == base + (x + y);
  }

  lemma AppendNothing(files: map<string, seq<Added>>, p: string)
    requires p in files
    ensures Append(files, p, []) == files
  {
    assert files[p] + [] == files[p];
  }

  lemma EffectThen(s: Files, e: Edit, rest: seq<Edit>)
    requires s.path.Some? && s.path.value in s.added
    ensures var t, p := Effect(s, e), s.path.value;
            && p in t.added && t.path == s.path
            && Append(t.added, p, AddedIn(rest, t.line)) == Append(s.added, p, AddedIn([e] + rest, s.line))
            && t.line + NewCount(rest) == s.line + NewCount([e] + rest)
  {
    assert ([e] + rest)[1..] == rest;
    if e.Add? {
      AppendTwice(s.added, s.path.value, [Added(s.line, e.text)], AddedIn(rest, s.line + 1));
    }
  }

  lemma {:induction false} EditLines(read: LineReader, s: Files, edits: seq<Edit>)
    requires TakesEdits(read) && s.path.Some? && s.path.value in s.added
    requires forall k :: 0 <= k < |edits| ==> Faithful(edits[k])
    ensures ReadAll(read, s, PrintEdits(edits))
         == Files(Append(s.added, s.path.value, AddedIn(edits, s.line)), s.path, s.line + NewCount(edits))
    decreases |edits|
  {
    if edits == [] {
      AppendNothing(s.added, s.path.value);
    } else {
      var e, rest := edits[0], edits[1..];
      EffectThen(s, e, rest);
      EditLines(read, Effect(s, e), rest);
      ReadOne(read, s, PrintEdit(e), PrintEdits(rest));
      assert edits == [e] + rest;
    }
  }

  lemma {:induction false} AddedInSplit(a: seq<Edit>, b: seq<Edit>, line: nat)
    ensures AddedIn(a + b, line) == AddedIn(a, line) + AddedIn(b, line + NewCount(a))
    ensures NewCount(a + b) == NewCount(a) + NewCount(b)
  {
    if a == [] {
      assert a + b == b;
    } else {
      assert (a + b)[1..] == a[1..] + b;
      AddedInSplit(a[1..], b, line);
      AddedInSplit(a[1..], b, line + 1);
    }
  }

  lemma {:induction false} NothingNewNothingAdded(edits: seq<Edit>, line: nat)
    requires NewCount(edits) == 0
    ensures AddedIn(edits, line) == []
  {
    if edits != [] {
      NothingNewNothingAdded(edits[1..], line);
    }
  }

  lemma {:induction false} KeptNothingAdded(lines: seq<string>, line: nat)
    ensures AddedIn(Kept(lines), line) == []
  {
    if lines != [] {
      KeptNothingAdded(lines[1..], line + 1);
    }
  }

  /** The added lines of a cut alignment, and of one piece of it. */
  function AddedOf(pieces: seq<Piece>, line: nat): seq<Added> {
    AddedIn(Alignment(pieces), line)
  }

  function AddedBy(p: Piece, line: nat): seq<Added> {
    AddedIn(EditsOf(p), line)
  }

  lemma AddedOfFirst(pieces: seq<Piece>, line: nat)
    requires pieces != []
    ensures AddedOf(pieces, line) == AddedBy(pieces[0], line) + AddedOf(pieces[1..], line + NewIn(pieces[0]))
  {
    AddedInSplit(EditsOf(pieces[0]), Alignment(pieces[1..]), line);
  }

  lemma HunkBody(read: LineReader, s: Files, newBefore: nat, h: Piece)
    requires h.Hunk? && TakesEdits(read) && s.path.Some? && s.path.value in s.added
    requires FaithfulHunk(h)
    ensures var t := s.(line := HunkLine(newBefore, h));
            ReadAll(read, t, PrintEdits(h.edits))
            == Files(Append(s.added, s.path.value, AddedBy(h, newBefore + 1)), s.path, t.line + NewCount(h.edits))
  {
    var t := s.(line := HunkLine(newBefore, h));
    EditLines(read, t, h.edits);
    if NewCount(h.edits) == 0 {
      NothingNewNothingAdded(h.edits, t.line);
      NothingNewNothingAdded(h.edits, newBefore + 1);
    }
  }

  lemma HunkPrinted(read: LineReader, header: HunkPrinter, s: Files, oldBefore: nat, newBefore: nat, h: Piece,
                    rest: seq<string>)
    returns (t: Files)
    requires h.Hunk? && TakesEdits(read) && TakesHunks(read, header) && s.path.Some? && s.path.value in s.added
    requires FaithfulHunk(h)
    ensures t.path == s.path && t.added == Append(s.added, s.path.value, AddedBy(h, newBefore + 1))
    ensures ReadAll(read, s, [header(oldBefore, newBefore, h)] + (PrintEdits(h.edits) + rest))
         == ReadAll(read, t, rest)
  {
    var raw := header(oldBefore, newBefore, h);
    ReadOne(read, s, raw, PrintEdits(h.edits) + rest);
    assert read(s, raw) == s.(line := HunkLine(newBefore, h));
    ReadSplit(read, read(s, raw), PrintEdits(h.edits), rest);
    HunkBody(read, s, newBefore, h);
    t := ReadAll(read, read(s, raw), PrintEdits(h.edits));
  }

  ghost predicate FaithfulHunk(p: Piece) {
    p.Hunk? ==> AllInert(Tail(p.section)) && forall k :: 0 <= k < |p.edits| ==> Faithful(p.edits[k])
  }

  ghost predicate HunksFaithful(pieces: seq<Piece>) {
    pieces == [] || (FaithfulHunk(pieces[0]) && HunksFaithful(pieces[1..]))
  }

  /** A piece is read, and the rest remain. */
  lemma FirstPiece(read: LineReader, header: HunkPrinter, s: Files, oldBefore: nat, newBefore: nat, pieces: seq<Piece>)
    returns (t: Files)
    requires TakesEdits(read) && TakesHunks(read, header) && s.path.Some? && s.path.value in s.added
    requires pieces != [] && FaithfulHunk(pieces[0])
    ensures t.path == s.path && t.added == Append(s.added, s.path.value, AddedBy(pieces[0], newBefore + 1))
    ensures ReadAll(read, s, PrintPieces(header, oldBefore, newBefore, pieces))
         == ReadAll(read, t,
                   PrintPieces(header, oldBefore + OldIn(pieces[0]), newBefore + NewIn(pieces[0]), pieces[1..]))
  {
    if pieces[0].Gap? {
      t := s;
      KeptNothingAdded(pieces[0].lines, newBefore + 1);
      AppendNothing(s.added, s.path.value);
    } else {
      var rest := PrintPieces(header, oldBefore + OldIn(pieces[0]), newBefore + NewIn(pieces[0]), pieces[1..]);
      t := HunkPrinted(read, header, s, oldBefore, newBefore, pieces[0], rest);
    }
  }

  lemma AppendPieces(files: map<string, seq<Added>>, p: string, pieces: seq<Piece>, line: nat)
    requires pieces != []
    ensures Append(Append(files, p, AddedBy(pieces[0], line)), p, AddedOf(pieces[1..], line + NewIn(pieces[0])))
         == Append(files, p, AddedOf(pieces, line))
  {
    AddedOfFirst(pieces, line);
    AppendTwice(files, p, AddedBy(pieces[0], line), AddedOf(pieces[1..], line + NewIn(pieces[0])));
  }

  lemma {:induction false} PieceLines(read: LineReader, header: HunkPrinter, s: Files,
                                      oldBefore: nat, newBefore: nat, pieces: seq<Piece>)
    requires TakesEdits(read) && TakesHunks(read, header)
    requires s.path.Some? && s.path.value in s.added && HunksFaithful(pieces)
    ensures ReadAll(read, s, PrintPieces(header, oldBefore, newBefore, pieces)).added
         == Append(s.added, s.path.value, AddedOf(pieces, newBefore + 1))
    decreases |pieces|
  {
    if pieces == [] {
      AppendNothing(s.added, s.path.value);
    } else {
      var t := FirstPiece(read, header, s, oldBefore, newBefore, pieces);
      PieceLines(read, header, t, oldBefore + OldIn(pieces[0]), newBefore + NewIn(pieces[0]), pieces[1..]);
      AppendPieces(s.added, s.path.value, pieces, newBefore + 1);
    }
  }

  // ----- Whole diffs -----

  /** A line of a diff that adds nothing, or the section title of a hunk. */
  datatype Line =
    | Preamble(text: string)
    | Metadata(text: string)
    | Section(text: string)
    | Context(text: string)
    | Dropped(text: string)

  /**
   * What such a line must be to do no harm: before the first header it names no path, among the metadata
   * it also adds nothing, and in a hunk what a break leaves over of it is inert.
   */
  predicate Quiet(u: Line) {
    match u
    case Preamble(t) => HeaderFree(Fragments(t))
    case Metadata(t) => AllCalm(Fragments(t))
    case Section(t) => AllInert(Tail(t))
    case Context(t) => AllInert(Tail(t))
    case Dropped(t) => AllInert(Tail(t))
  }

  type Choice = Line -> bool

  /** What a file of a diff must be: its paths are such as git prints unquoted, and its lines are allowed. */
  ghost predicate Printable(ok: Choice, d: FileDiff) {
    && PlainPath(d.oldPath) && PlainPath(d.newPath) && NoMark(d.oldPath)
    && (forall i :: 0 <= i < |d.metadata| ==> ok(Metadata(d.metadata[i])))
    && PrintableHunks(ok, d.pieces)
  }

  ghost predicate PrintableEdit(ok: Choice, e: Edit) {
    match e
    case Keep(t) => ok(Context(t))
    case Drop(t) => ok(Dropped(t))
    case _ => true
  }

  ghost predicate PrintableHunk(ok: Choice, h: Piece) {
    h.Hunk? ==> ok(Section(h.section)) && forall k :: 0 <= k < |h.edits| ==> PrintableEdit(ok, h.edits[k])
  }

  ghost predicate PrintableHunks(ok: Choice, pieces: seq<Piece>) {
    pieces == [] || (PrintableHunk(ok, pieces[0]) && PrintableHunks(ok, pieces[1..]))
  }

  ghost predicate AllPrintable(ok: Choice, ds: seq<FileDiff>) {
    ds == [] || (Printable(ok, ds[0]) && AllPrintable(ok, ds[1..]))
  }

  /** Every line the hunk adds can be reported. */
  ghost predicate ClearHunk(h: Piece) {
    h.Hunk? ==> forall k :: 0 <= k < |h.edits| && h.edits[k].Add? ==> Reportable(h.edits[k].text)
  }

  ghost predicate HunksClear(pieces: seq<Piece>) {
    pieces == [] || (ClearHunk(pieces[0]) && HunksClear(pieces[1..]))
  }

  /** No added line holds a break character or begins "++ ". */
  ghost predicate AllClear(ds: seq<FileDiff>) {
    ds == [] || (HunksClear(ds[0].pieces) && AllClear(ds[1..]))
  }

  lemma {:induction false} ClearIsFaithful(pieces: seq<Piece>)
    requires PrintableHunks(Quiet, pieces) && HunksClear(pieces)
    ensures HunksFaithful(pieces)
  {
    hide Reportable, Tail, AllInert;
    if pieces != [] {
      ClearIsFaithful(pieces[1..]);
      var h := pieces[0];
      if h.Hunk? {
        assert Quiet(Section(h.section));
        forall k | 0 <= k < |h.edits| ensures Faithful(h.edits[k]) {
          assert PrintableEdit(Quiet, h.edits[k]);
          if h.edits[k].Add? { assert Reportable(h.edits[k].text); }
        }
      }
    }
  }

  /** For each new path, the added lines of its files, under their new line numbers. */
  function Expected(files: map<string, seq<Added>>, ds: seq<FileDiff>): map<string, seq<Added>>
    decreases |ds|
  {
    if ds == [] then files
    else Expected(Append(files, ds[0].newPath, AddedOf(ds[0].pieces, 1)), ds[1..])
  }

  lemma BodyLines(read: LineReader, t: Files, d: FileDiff)
    requires TakesDiffs(read) && PlainPath(d.newPath) && HunksFaithful(d.pieces)
    requires t.path == Some(d.newPath) && d.newPath in t.added
    ensures ReadAll(read, t, PrintBody(d)).added == Append(t.added, d.newPath, AddedOf(d.pieces, 1))
  {
    hide PlainPath, PrintNewPath, Faithful, Inert, Tail, Fragments, PrintHunkHeader;
    if d.pieces == [] {
      AppendNothing(t.added, d.newPath);
    } else {
      ReadOne(read, t, PrintNewPath(d), PrintPieces(PrintHunkHeader, 0, 0, d.pieces));
      PieceLines(read, PrintHunkHeader, t, 0, 0, d.pieces);
    }
  }

  lemma PrintableParts(d: FileDiff)
    requires Printable(Quiet, d)
    ensures PlainPath(d.oldPath) && PlainPath(d.newPath) && NoMark(d.oldPath) && PrintableHunks(Quiet, d.pieces)
    ensures forall i :: 0 <= i < |d.metadata| ==> AllCalm(Fragments(d.metadata[i]))
  {
    hide PlainPath, NoMark, PrintableHunks, AllCalm, Fragments;
    forall i | 0 <= i < |d.metadata| ensures AllCalm(Fragments(d.metadata[i])) {
      assert Quiet(Metadata(d.metadata[i]));
    }
  }

  lemma FileLines(read: LineReader, s: Files, d: FileDiff)
    requires TakesDiffs(read) && Printable(Quiet, d) && HunksClear(d.pieces)
    ensures ReadAll(read, s, PrintFile(d)).added == Append(s.added, d.newPath, AddedOf(d.pieces, 1))
  {
    hide PlainPath, NoMark, AllCalm, Fragments, Printable, PrintableHunks, PrintHeader, PrintBody, TakesEdits,
         TakesHunks, TakesNewPaths, HunksClear, HunksFaithful;
    PrintableParts(d);
    var t := Files(Register(s.added, d.newPath), Some(d.newPath), s.line);
    ReadOne(read, s, PrintHeader(d), d.metadata + PrintBody(d));
    assert read(s, PrintHeader(d)) == t;
    ReadSplit(read, t, d.metadata, PrintBody(d));
    MetadataLines(read, t, d.metadata);
    ClearIsFaithful(d.pieces);
    BodyLines(read, ReadAll(read, t, d.metadata), d);
  }

  lemma {:induction false} FilesLines(read: LineReader, s: Files, ds: seq<FileDiff>)
    requires TakesDiffs(read) && AllPrintable(Quiet, ds) && AllClear(ds)
    ensures ReadAll(read, s, PrintFiles(ds)).added == Expected(s.added, ds)
    decreases |ds|
  {
    if ds != [] {
      FileLines(read, s, ds[0]);
      ReadSplit(read, s, PrintFile(ds[0]), PrintFiles(ds[1..]));
      FilesLines(read, ReadAll(read, s, PrintFile(ds[0])), ds[1..]);
    }
  }

  // ----- The parser is such a reader -----

  /** Reading a printed line, fragment by fragment. */
  function ReadWhole(s: Files, raw: string): Files {
    ReadAll(ReadLine, s, Fragments(raw))
  }

  lemma {:induction false} ReadFragments(s: Files, lines: seq<string>)
    ensures ReadAll(ReadLine, s, AllFragments(lines)) == ReadAll(ReadWhole, s, lines)
    decreases |lines|
  {
    if lines != [] {
      ReadSplit(ReadLine, s, Fragments(lines[0]), AllFragments(lines[1..]));
      ReadFragments(ReadWhole(s, lines[0]), lines[1..]);
    }
  }

  lemma {:induction false} InertRead(s: Files, lines: seq<string>)
    requires AllInert(lines)
    ensures ReadAll(ReadLine, s, lines) == s
    decreases |lines|
  {
    if lines != [] {
      InertReads(s, lines[0]);
      InertRead(s, lines[1..]);
    }
  }

  lemma {:induction false} CalmRead(s: Files, lines: seq<string>)
    requires AllCalm(lines)
    ensures ReadAll(ReadLine, s, lines).added == s.added && ReadAll(ReadLine, s, lines).path == s.path
    decreases |lines|
  {
    hide Calm, ReadLine;
    if lines != [] {
      CalmReads(s, lines[0]);
      CalmRead(ReadLine(s, lines[0]), lines[1..]);
    }
  }

  /** The first fragment of a line is read, and then what a break leaves over. */
  lemma FirstThenTail(s: Files, p: string, t: string)
    requires Unbroken(p)
    ensures ReadWhole(s, p + t) == ReadAll(ReadLine, ReadLine(s, p + First(t)), Tail(t))
  {
    FragmentsAfter(p, t);
    ReadOne(ReadLine, s, p + First(t), Tail(t));
  }

  lemma UnbrokenReads(s: Files, raw: string)
    requires Unbroken(raw)
    ensures ReadWhole(s, raw) == ReadLine(s, raw)
  {
    UnbrokenFragments(raw);
    ReadOne(ReadLine, s, raw, []);
    assert [raw] + [] == [raw];
  }

  /** A dropped line does what is left over of it. */
  lemma DropReads(s: Files, t: string)
    requires s.path.Some?
    ensures ReadWhole(s, "-" + t) == ReadAll(ReadLine, s, Tail(t))
  {
    FirstThenTail(s, "-", t);
    hide ReadWhole, Tail, First, ReadLine, HunkStart;
    var raw := "-" + First(t);
    assert raw[0] == '-';
    assert HunkStart(raw).None? by { NotHunk(raw); }
    InertReads(s, raw);
  }

  /** A context line advances the number, and then does what is left over of it. */
  lemma KeepReads(s: Files, t: string)
    requires s.path.Some?
    ensures ReadWhole(s, " " + t) == ReadAll(ReadLine, s.(line := s.line + 1), Tail(t))
  {
    FirstThenTail(s, " ", t);
    hide ReadWhole, Tail, First, ReadLine;
    BlankReads(s, First(t));
  }

  lemma NotHunk(raw: string)
    requires raw != [] && raw[0] != '@'
    ensures HunkStart(raw).None?
  {
  }

  lemma QuietReads(s: Files, raw: string)
    requires Unbroken(raw) && raw != [] && raw[0] !in {'+', ' ', '@', 'd'}
    ensures ReadWhole(s, raw) == s
  {
    UnbrokenReads(s, raw);
    hide ReadWhole, ReadLine, HunkStart, Unbroken;
    NotHunk(raw);
    InertReads(s, raw);
  }

  lemma EditReads(s: Files, e: Edit)
    requires s.path.Some? && Faithful(e)
    ensures ReadWhole(s, PrintEdit(e)) == Effect(s, e)
  {
    hide ReadWhole, ReadLine, Tail, First, AllInert;
    match e
    case Add(t) =>
      assert Unbroken("+" + t);
      UnbrokenReads(s, "+" + t);
      AddReads(s, t);
    case Keep(t) =>
      KeepReads(s, t);
      InertRead(s.(line := s.line + 1), Tail(t));
    case Drop(t) =>
      DropReads(s, t);
      InertRead(s, Tail(t));
    case Mark => QuietReads(s, PrintEdit(Mark));
  }

  lemma RangeUnbroken(before: nat, count: nat, short: bool)
    ensures Unbroken(PrintRange(before, count, short))
  {
    assert forall s: string {:trigger AllDigits(s)} :: AllDigits(s) ==> Unbroken(s);
    assert AllDigits(Render(count)) && AllDigits(Render(if count == 0 then before else before + 1));
  }

  /** A hunk's header up to its section title. */
  function HunkFront(oldBefore: nat, newBefore: nat, h: Piece): string
    requires h.Hunk?
  {
    "@@ -" + PrintRange(oldBefore, OldCount(h.edits), h.shortOld) +
    " +" + PrintRange(newBefore, NewCount(h.edits), h.shortNew) + " @@"
  }

  lemma FrontUnbroken(oldBefore: nat, newBefore: nat, h: Piece)
    requires h.Hunk?
    ensures Unbroken(HunkFront(oldBefore, newBefore, h))
    ensures PrintHunkHeader(oldBefore, newBefore, h) == HunkFront(oldBefore, newBefore, h) + h.section
  {
    RangeUnbroken(oldBefore, OldCount(h.edits), h.shortOld);
    RangeUnbroken(newBefore, NewCount(h.edits), h.shortNew);
  }

  /** A hunk's header sets the number, and then does what is left over of its section title. */
  lemma HunkReads(s: Files, oldBefore: nat, newBefore: nat, h: Piece)
    requires s.path.Some? && h.Hunk?
    ensures ReadWhole(s, PrintHunkHeader(oldBefore, newBefore, h))
         == ReadAll(ReadLine, s.(line := HunkLine(newBefore, h)), Tail(h.section))
  {
    var front, first := HunkFront(oldBefore, newBefore, h), First(h.section);
    FrontUnbroken(oldBefore, newBefore, h);
    HunkStartReads(oldBefore, OldCount(h.edits), h.shortOld, newBefore, NewCount(h.edits), h.shortNew, first);
    hide Unbroken, HunkStart, PrintHunkHeader, PrintRange, ReadWhole, Tail, First, AllInert;
    assert HunkStart(front + first) == Some(HunkLine(newBefore, h));
    hide HunkFront;
    FirstThenTail(s, front, h.section);
    AtSignReads(s, front + first);
  }

  lemma HeaderLine(s: Files, d: FileDiff)
    requires PlainPath(d.oldPath) && PlainPath(d.newPath) && NoMark(d.oldPath)
    ensures ReadWhole(s, PrintHeader(d)) == Files(Register(s.added, d.newPath), Some(d.newPath), s.line)
  {
    hide PrintHeader, ReadWhole, PlainPath, NoMark, Unbroken, HeaderPath, HunkStart, IsMetadata;
    HeaderUnbroken(d);
    UnbrokenReads(s, PrintHeader(d));
  }

  lemma HeaderUnbroken(d: FileDiff)
    requires PlainPath(d.oldPath) && PlainPath(d.newPath) && NoMark(d.oldPath)
    ensures Unbroken(PrintHeader(d)) && HEADER <= PrintHeader(d) && HeaderPath(PrintHeader(d)) == d.newPath
  {
    hide HeaderPath, NoMark;
    HeaderReads(d.oldPath, d.newPath);
    assert PrintHeader(d)[..|HEADER|] == HEADER;
  }

  lemma NewPathSkipped(s: Files, d: FileDiff)
    requires PlainPath(d.newPath) && s.path == Some(d.newPath) && d.newPath in s.added
    ensures ReadLine(s, PrintNewPath(d)) == s
  {
    var raw := PrintNewPath(d);
    assert raw[0] == '+';
    if d.deleted {
      assert raw[..4] == "+++ ";
    } else {
      var tab := if ' ' in d.newPath then "\t" else "";
      assert raw == "+++ " + ("b/" + d.newPath + tab);
      assert raw[..4] == "+++ " && raw[4..] == "b/" + d.newPath + tab && raw[4] == 'b';
      NewPathReads(d.newPath, tab);
    }
  }

  lemma NewPathLine(s: Files, d: FileDiff)
    requires PlainPath(d.newPath) && s.path == Some(d.newPath) && d.newPath in s.added
    ensures ReadWhole(s, PrintNewPath(d)) == s
  {
    assert Unbroken(PrintNewPath(d));
    hide PrintNewPath, ReadLine, ReadWhole, Unbroken, PlainPath;
    UnbrokenReads(s, PrintNewPath(d));
    NewPathSkipped(s, d);
  }

  lemma ParserTakesDiffs()
    ensures TakesDiffs(ReadWhole)
  {
    hide Inert, Calm, AllInert, AllCalm, Faithful, Tail, First, PlainPath, NoMark, ReadLine, PrintEdit,
         PrintHunkHeader, PrintHeader, PrintNewPath;
    forall s: Files, raw | AllCalm(Fragments(raw))
      ensures ReadWhole(s, raw).added == s.added && ReadWhole(s, raw).path == s.path
    {
      CalmRead(s, Fragments(raw));
    }
    forall s: Files, e | s.path.Some? && Faithful(e) ensures ReadWhole(s, PrintEdit(e)) == Effect(s, e) {
      EditReads(s, e);
    }
    forall s: Files, oldBefore: nat, newBefore: nat, h: Piece | s.path.Some? && h.Hunk? && AllInert(Tail(h.section))
      ensures ReadWhole(s, PrintHunkHeader(oldBefore, newBefore, h)) == s.(line := HunkLine(newBefore, h))
    {
      HunkReads(s, oldBefore, newBefore, h);
      InertRead(s.(line := HunkLine(newBefore, h)), Tail(h.section));
    }
    forall s: Files, d: FileDiff | PlainPath(d.oldPath) && PlainPath(d.newPath) && NoMark(d.oldPath)
      ensures ReadWhole(s, PrintHeader(d)) == Files(Register(s.added, d.newPath), Some(d.newPath), s.line)
    {
      HeaderLine(s, d);
    }
    forall s: Files, d: FileDiff | PlainPath(d.newPath) && s.path == Some(d.newPath) && d.newPath in s.added
      ensures ReadWhole(s, PrintNewPath(d)) == s
    {
      NewPathLine(s, d);
    }
  }

  // ----- Recovering the added lines -----

  lemma {:induction false} HeaderFreeSkipped(lines: seq<string>)
    requires HeaderFree(lines)
    ensures ReadAll(ReadLine, START, lines) == START
    decreases |lines|
  {
    if lines != [] {
      HeaderFreeSkipped(lines[1..]);
    }
  }

  /** The text of a diff: anything before its first header, then its files. */
  function PrintDiff(preamble: seq<string>, ds: seq<FileDiff>): string {
    JoinLines(preamble + PrintFiles(ds))
  }

  ghost predicate PrintablePreamble(ok: Choice, preamble: seq<string>) {
    forall i :: 0 <= i < |preamble| ==> ok(Preamble(preamble[i]))
  }

  lemma {:induction false} PreambleSkipped(preamble: seq<string>)
    requires PrintablePreamble(Quiet, preamble)
    ensures ReadAll(ReadWhole, START, preamble) == START
    decreases |preamble|
  {
    if preamble != [] {
      assert Quiet(Preamble(preamble[0]));
      HeaderFreeSkipped(Fragments(preamble[0]));
      PreambleSkipped(preamble[1..]);
    }
  }

  lemma ParsedLines(preamble: seq<string>, ds: seq<FileDiff>)
    requires PrintablePreamble(Quiet, preamble)
    ensures Parsed(PrintDiff(preamble, ds)) == ReadAll(ReadWhole, START, PrintFiles(ds)).added
  {
    SplitJoined(preamble + PrintFiles(ds));
    ReadFragments(START, preamble + PrintFiles(ds));
    PreambleSkipped(preamble);
    ReadSplit(ReadWhole, START, preamble, PrintFiles(ds));
  }

  /**
   * Reading back a printed diff of quiet lines: at any context, over several hunks and files, renames, new
   * and deleted files, each path gets exactly its added lines in order, under their new line numbers.
   */
  lemma AddedLinesRecovered(preamble: seq<string>, ds: seq<FileDiff>)
    requires PrintablePreamble(Quiet, preamble) && AllPrintable(Quiet, ds) && AllClear(ds)
    ensures Parsed(PrintDiff(preamble, ds)) == Expected(map[], ds)
  {
    ParsedLines(preamble, ds);
    ParserTakesDiffs();
    FilesLines(ReadWhole, START, ds);
  }

  /** The numbers are true: line n of the new file is the added line reported under n. */
  lemma {:induction false} AddedLinesTrue(edits: seq<Edit>, line: nat, a: Added)
    requires a in AddedIn(edits, line)
    ensures line <= a.line < line + |NewText(edits)| && NewText(edits)[a.line - line] == a.text
  {
    var rest := edits[1..];
    match edits[0]
    case Add(t) =>
      if a != Added(line, t) {
        AddedLinesTrue(rest, line + 1, a);
      }
    case Keep(_) => AddedLinesTrue(rest, line + 1, a);
    case _ => AddedLinesTrue(rest, line, a);
  }

  // ----- No fewer conditions would do -----

  ghost predicate AllReportable(files: map<string, seq<Added>>) {
    forall p, a :: p in files && a in files[p] ==> Reportable(a.text)
  }

  lemma {:induction false} ReadReportable(s: Files, lines: seq<string>)
    requires AllReportable(s.added) && forall k :: 0 <= k < |lines| ==> Unbroken(lines[k])
    ensures AllReportable(ReadAll(ReadLine, s, lines).added)
    decreases |lines|
  {
    if lines != [] {
      ReadLineReportable(s, lines[0]);
      ReadReportable(ReadLine(s, lines[0]), lines[1..]);
    }
  }

  lemma ReadLineReportable(s: Files, raw: string)
    requires AllReportable(s.added) && Unbroken(raw)
    ensures AllReportable(ReadLine(s, raw).added)
  {
    hide HeaderPath, NewPath, HunkStart, IsMetadata, IsBreak;
    if "+" <= raw && !("+++ " <= raw) {
      var t := raw[1..];
      assert raw == "+" + t;
      assert Unbroken(t);
    }
  }

  /** Of any text whatever, only texts that break no line and do not begin "++ " are reported as added. */
  lemma ParsedReportable(text: string)
    ensures AllReportable(Parsed(text))
  {
    SplitUnbroken(text);
    ReadReportable(START, SplitLines(text));
  }

  lemma {:induction false} AddIsExpected(edits: seq<Edit>, line: nat, k: nat) returns (a: Added)
    requires k < |edits| && edits[k].Add?
    ensures a in AddedIn(edits, line) && a.text == edits[k].text
  {
    if k == 0 {
      a := Added(line, edits[0].text);
    } else {
      a := AddIsExpected(edits[1..], if edits[0].Add? || edits[0].Keep? then line + 1 else line, k - 1);
    }
  }

  lemma UnclearHunk(h: Piece, line: nat) returns (a: Added)
    requires !ClearHunk(h)
    ensures a in AddedBy(h, line) && !Reportable(a.text)
  {
    hide Reportable, AddedIn;
    var k :| 0 <= k < |h.edits| && h.edits[k].Add? && !Reportable(h.edits[k].text);
    a := AddIsExpected(h.edits, line, k);
  }

  lemma {:induction false} UnclearPieces(pieces: seq<Piece>, line: nat) returns (a: Added)
    requires !HunksClear(pieces)
    ensures a in AddedOf(pieces, line) && !Reportable(a.text)
  {
    hide Reportable, AddedOf, AddedBy, NewIn, ClearHunk;
    var h := pieces[0];
    AddedOfFirst(pieces, line);
    if ClearHunk(h) {
      a := UnclearPieces(pieces[1..], line + NewIn(h));
    } else {
      a := UnclearHunk(h, line);
    }
  }

  lemma {:induction false} ExpectedKeeps(files: map<string, seq<Added>>, ds: seq<FileDiff>, p: string, a: Added)
    requires p in files && a in files[p]
    ensures p in Expected(files, ds) && a in Expected(files, ds)[p]
    decreases |ds|
  {
    if ds != [] {
      ExpectedKeeps(Append(files, ds[0].newPath, AddedOf(ds[0].pieces, 1)), ds[1..], p, a);
    }
  }

  lemma {:induction false} UnclearExpected(files: map<string, seq<Added>>, ds: seq<FileDiff>)
    requires !AllClear(ds)
    ensures !AllReportable(Expected(files, ds))
    decreases |ds|
  {
    hide Reportable;
    var d := ds[0];
    var more := Append(files, d.newPath, AddedOf(d.pieces, 1));
    if HunksClear(d.pieces) {
      UnclearExpected(more, ds[1..]);
    } else {
      var a := UnclearPieces(d.pieces, 1);
      ExpectedKeeps(more, ds[1..], d.newPath, a);
    }
  }

  /** Some added lines no text at all would be parsed into: those with a break character, or that begin "++ ". */
  lemma UnclearNeverRecovered(text: string, ds: seq<FileDiff>)
    requires !AllClear(ds)
    ensures Parsed(text) != Expected(map[], ds)
  {
    ParsedReportable(text);
    UnclearExpected(map[], ds);
  }

  /**
   * Where the lines that are not added are quiet, the reader recovers a printed diff exactly when no added
   * line holds a character at which splitlines breaks a text, and none begins "++ ". The first loses its
   * tail, or leaves it to be read as a line of its own; the second prints as a new-file line, is dropped,
   * and may redirect those after it.
   */
  lemma RecoveredExactly(preamble: seq<string>, ds: seq<FileDiff>)
    requires PrintablePreamble(Quiet, preamble) && AllPrintable(Quiet, ds)
    ensures Parsed(PrintDiff(preamble, ds)) == Expected(map[], ds) <==> AllClear(ds)
  {
    if AllClear(ds) {
      AddedLinesRecovered(preamble, ds);
    } else {
      UnclearNeverRecovered(PrintDiff(preamble, ds), ds);
    }
  }
}
