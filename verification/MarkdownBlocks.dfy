/** Markdown sectioned into headings, paragraphs and tables. */
module MarkdownBlocks {
  import opened Common
  import opened MarkdownCells
  import opened TableRules

  datatype Block =
    | Heading(text: string)
    | Paragraph(text: string)
    | Table(text: string, headers: seq<string>, rows: seq<seq<string>>)

  const MAX_ROWS := 2000

  // ----- Lines -----

  /** The pieces between newlines: one more than there are newlines. */
  function Split(s: string): (r: seq<string>)
    ensures r != []
  {
    if s == "" then [""]
    else if s[0] == '\n' then [""] + Split(s[1..])
    else Prefixed([s[0]], Split(s[1..]))
  }

  function Join(lines: seq<string>): string {
    if lines == [] then ""
    else if |lines| == 1 then lines[0]
    else lines[0] + "\n" + Join(lines[1..])
  }

  lemma {:induction false} SplitLine(line: string, rest: string)
    requires '\n' !in line
    ensures Split(line + "\n" + rest) == [line] + Split(rest)
    ensures Split(line) == [line]
  {
    if line == "" {
      assert "" + "\n" + rest == "\n" + rest && ("\n" + rest)[1..] == rest;
    } else {
      SplitLine(line[1..], rest);
      assert (line + "\n" + rest)[1..] == line[1..] + "\n" + rest;
      assert [line[0]] + line[1..] == line;
      assert line[0] in line && (line + "\n" + rest)[0] != '\n';
    }
  }

  predicate NewlineFree(lines: seq<string>) {
    forall k :: 0 <= k < |lines| ==> '\n' !in lines[k]
  }

  lemma {:induction false} SplitJoined(lines: seq<string>)
    requires lines != [] && NewlineFree(lines)
    ensures Split(Join(lines)) == lines
  {
    if |lines| == 1 {
      SplitLine(lines[0], "");
    } else {
      SplitJoined(lines[1..]);
      SplitLine(lines[0], Join(lines[1..]));
      assert lines == [lines[0]] + lines[1..];
    }
  }

  // ----- Frontmatter -----

  const OPEN := "---\n"
  const CLOSE := "\n---\n"
  const TRAILING_CLOSE := "\n---"

  predicate ClosesAt(s: string, i: nat) {
    i + |CLOSE| <= |s| && s[i..i + |CLOSE|] == CLOSE
  }

  function FindClose(s: string, from: nat): (r: Option<nat>)
    ensures r.Some? ==> from <= r.value && ClosesAt(s, r.value) && forall i :: from <= i < r.value ==> !ClosesAt(s, i)
    ensures r.None? ==> forall i :: from <= i ==> !ClosesAt(s, i)
    decreases |s| - from
  {
    if from + |CLOSE| > |s| then None
    else if ClosesAt(s, from) then Some(from)
    else FindClose(s, from + 1)
  }

  function StripFrontmatter(markdown: string): string {
    if OPEN <= markdown then
      var end := FindClose(markdown, |OPEN|);
      if end.Some? then markdown[end.value + |CLOSE|..]
      else
        var trimmed := TrimEnd(markdown);
        if |trimmed| >= |TRAILING_CLOSE| && trimmed[|trimmed| - |TRAILING_CLOSE|..] == TRAILING_CLOSE then ""
        else markdown
    else markdown
  }

  /** What follows the frontmatter survives exactly when the metadata does not itself close it early. */
  lemma FrontmatterStripped(meta: string, body: string)
    ensures StripFrontmatter("---\n" + meta + "\n---\n" + body) == body
       <==> forall i: nat :: i < |meta| ==> !ClosesAt(meta + "\n---\n", i)
  {
    var s, n := OPEN + meta + CLOSE + body, |OPEN|;
    assert s[..n] == OPEN;
    assert s[n + |meta|..n + |meta| + |CLOSE|] == CLOSE;
    assert ClosesAt(s, n + |meta|);
    assert s[n + |meta| + |CLOSE|..] == body;
    var end := FindClose(s, n);
    forall i: nat | i < |meta| ensures ClosesAt(meta + CLOSE, i) <==> ClosesAt(s, n + i) {
      assert s[n + i..n + i + |CLOSE|] == (meta + CLOSE)[i..i + |CLOSE|];
    }
    if end.value < n + |meta| {
      assert ClosesAt(meta + CLOSE, end.value - n);
    }
  }

  /** A document is left whole unless it opens with frontmatter that is closed, at the latest by its end. */
  lemma FrontmatterKept(markdown: string)
    ensures StripFrontmatter(markdown) == markdown <==>
      "---\n" <= markdown ==>
        && (forall i: nat :: 4 <= i ==> !ClosesAt(markdown, i))
        && !(|TrimEnd(markdown)| >= 4 && TrimEnd(markdown)[|TrimEnd(markdown)| - 4..] == "\n---")
  {
    if OPEN <= markdown {
      var end := FindClose(markdown, |OPEN|);
      assert end.Some? ==> |StripFrontmatter(markdown)| < |markdown|;
    }
  }

  // ----- Blocks -----

  const HEADING := "## "

  predicate IsRule(cell: string) {
    |Unruled(cell)| >= 3 && OnlyDashes(Unruled(cell))
  }

  /** A cell of a table's separator is three or more dashes, with a colon at either end or none. */
  lemma RuleExactly(cell: string)
    ensures IsRule(cell) <==> exists left: bool, n: nat, right: bool :: n >= 3 && cell == Ruled(left, n, right)
  {
    RuledExactly(cell, 3);
  }

  predicate AreRules(cells: seq<string>) {
    forall k :: 0 <= k < |cells| ==> IsRule(cells[k])
  }

  /** A header line over a separator line of as many columns. */
  predicate OpensTable(line: string, next: string) {
    && Cells(line).Some? && Cells(next).Some?
    && |Cells(next).value| == |Cells(line).value| && AreRules(Cells(next).value)
  }

  function Second(lines: seq<string>): string {
    if |lines| > 1 then lines[1] else ""
  }

  predicate TableAhead(lines: seq<string>)
    ensures TableAhead(lines) ==> |lines| > 1
  {
    lines != [] && OpensTable(lines[0], Second(lines))
  }

  /** The table rows at the front of some lines, up to a blank line or one that is no table line. */
  function Rows(lines: seq<string>): (r: seq<seq<string>>)
    ensures |r| <= |lines|
  {
    if lines == [] || Blank(lines[0]) || Cells(lines[0]).None? then []
    else [Cells(lines[0]).value] + Rows(lines[1..])
  }

  predicate Rectangular(rows: seq<seq<string>>, width: nat) {
    forall k :: 0 <= k < |rows| ==> |rows[k]| == width
  }

  function TableBlock(text: string, headers: seq<string>, rows: seq<seq<string>>): Block {
    if |rows| <= MAX_ROWS && Rectangular(rows, |headers|) then Table(text, headers, rows) else Paragraph(text)
  }

  function Flushed(paragraph: seq<string>): seq<Block> {
    var text := Trim(Join(paragraph));
    if text == "" then [] else [Paragraph(text)]
  }

  function HeadingBlock(line: string): seq<Block>
    requires HEADING <= line
  {
    var heading := Trim(line[|HEADING|..]);
    if heading == "" then [] else [Heading(heading)]
  }

  /** How many lines the table ahead takes. */
  function TableLength(lines: seq<string>): (n: nat)
    requires TableAhead(lines)
    ensures 2 <= n <= |lines|
  {
    2 + |Rows(lines[2..])|
  }

  function TableAtHead(lines: seq<string>): Block
    requires TableAhead(lines)
  {
    TableBlock(Join(lines[..TableLength(lines)]), Cells(lines[0]).value, Rows(lines[2..]))
  }

  /** The blocks of some lines, with a paragraph open before them. */
  function BlocksFrom(lines: seq<string>, paragraph: seq<string>): seq<Block>
    decreases |lines|
  {
    if lines == [] then Flushed(paragraph)
    else if TableAhead(lines) then
      Flushed(paragraph) + [TableAtHead(lines)] + BlocksFrom(lines[TableLength(lines)..], [])
    else if HEADING <= lines[0] then
      Flushed(paragraph) + HeadingBlock(lines[0]) + BlocksFrom(lines[1..], [])
    else if Blank(lines[0]) then
      Flushed(paragraph) + BlocksFrom(lines[1..], [])
    else BlocksFrom(lines[1..], paragraph + [lines[0]])
  }

  function Blocks(markdown: string): seq<Block> {
    BlocksFrom(Split(StripFrontmatter(markdown)), [])
  }

  /** What is still to come when some blocks are out and a paragraph is open. */
  function Resumed(blocks: seq<Block>, lines: seq<string>, paragraph: seq<string>): seq<Block> {
    blocks + BlocksFrom(lines, paragraph)
  }

  function NextLine(lines: seq<string>, i: nat): string {
    if i + 1 < |lines| then lines[i + 1] else ""
  }

  lemma TableAheadAt(lines: seq<string>, i: nat)
    requires i < |lines|
    ensures TableAhead(lines[i..]) <==> OpensTable(lines[i], NextLine(lines, i))
  {
  }

  lemma ResumeTable(lines: seq<string>, i: nat, end: nat, blocks: seq<Block>, paragraph: seq<string>)
    requires i < |lines| && OpensTable(lines[i], NextLine(lines, i))
    requires i + 2 <= |lines| && end == i + 2 + |Rows(lines[i + 2..])| <= |lines|
    ensures var block := TableBlock(Join(lines[i..end]), Cells(lines[i]).value, Rows(lines[i + 2..]));
            Resumed(blocks, lines[i..], paragraph) == Resumed(blocks + Flushed(paragraph) + [block], lines[end..], [])
  {
    hide Cells, Rows, Flushed, TableBlock;
    var rest := lines[i..];
    TableAheadAt(lines, i);
    assert rest[2..] == lines[i + 2..];
    assert rest[end - i..] == lines[end..] && rest[..end - i] == lines[i..end];
    var block := TableAtHead(rest);
    ConcatFour(blocks, Flushed(paragraph), [block], BlocksFrom(lines[end..], []));
  }

  lemma ConcatFour(a: seq<Block>, b: seq<Block>, c: seq<Block>, d: seq<Block>)
    ensures a + (b + c + d) == a + b + c + d
  {
  }

  lemma ResumeLine(lines: seq<string>, i: nat, blocks: seq<Block>, paragraph: seq<string>)
    requires i < |lines| && !OpensTable(lines[i], NextLine(lines, i))
    ensures Resumed(blocks, lines[i..], paragraph)
         == if HEADING <= lines[i] then
             Resumed(blocks + Flushed(paragraph) + HeadingBlock(lines[i]), lines[i + 1..], [])
            else if Blank(lines[i]) then Resumed(blocks + Flushed(paragraph), lines[i + 1..], [])
            else Resumed(blocks, lines[i + 1..], paragraph + [lines[i]])
  {
    hide OpensTable, NextLine, TableAhead, TableAtHead, Blank, Flushed, HeadingBlock;
    TableAheadAt(lines, i);
    assert lines[i..][1..] == lines[i + 1..];
  }

  predicate IsRow(line: string) {
    !Blank(line) && Cells(line).Some?
  }

  function RowsResumed(rows: seq<seq<string>>, lines: seq<string>): seq<seq<string>> {
    rows + Rows(lines)
  }

  lemma RowsResume(lines: seq<string>, i: nat, rows: seq<seq<string>>)
    requires i <= |lines|
    ensures i < |lines| && IsRow(lines[i]) ==>
      RowsResumed(rows, lines[i..]) == RowsResumed(rows + [Cells(lines[i]).value], lines[i + 1..])
    ensures i == |lines| || !IsRow(lines[i]) ==> RowsResumed(rows, lines[i..]) == rows
  {
    if i < |lines| {
      assert lines[i..][1..] == lines[i + 1..];
    }
  }

  /** The inner loop: the rows of a table from line `start`, and the line after them. */
  method TableRows(lines: seq<string>, start: nat) returns (rows: seq<seq<string>>, end: nat)
    requires start <= |lines|
    ensures rows == Rows(lines[start..]) && end == start + |rows| <= |lines|
  {
    hide Cells, Blank;
    rows, end := [], start;
    ghost var all := Rows(lines[start..]);
    while end < |lines| && !Blank(lines[end])
      invariant start <= end <= |lines| && end == start + |rows|
      invariant all == RowsResumed(rows, lines[end..])
      decreases |lines| - end
    {
      var cells := TableCells(lines[end]);
      if cells.None? {
        break;
      }
      RowsResume(lines, end, rows);
      rows := rows + [cells.value];
      end := end + 1;
    }
    RowsResume(lines, end, rows);
  }

  /** The loop over the lines. */
  method ReadBlocks(markdown: string) returns (blocks: seq<Block>)
    ensures blocks == Blocks(markdown)
  {
    hide Cells, Rows, Blank, TableBlock;
    blocks := [];
    var paragraph: seq<string>, index := [], 0;
    var lines := Split(StripFrontmatter(markdown));
    assert lines[0..] == lines;
    while index < |lines|
      invariant 0 <= index <= |lines|
      invariant Blocks(markdown) == Resumed(blocks, lines[index..], paragraph)
      decreases |lines| - index
    {
      var line := lines[index];
      var headers := TableCells(line);
      var separator := TableCells(NextLine(lines, index));
      if headers.Some? && separator.Some? && |separator.value| == |headers.value| && AreRules(separator.value) {
        var rows, end := TableRows(lines, index + 2);
        ResumeTable(lines, index, end, blocks, paragraph);
        blocks := blocks + Flushed(paragraph) + [TableBlock(Join(lines[index..end]), headers.value, rows)];
        paragraph := [];
        index := end;
        continue;
      }
      ResumeLine(lines, index, blocks, paragraph);
      if HEADING <= line {
        blocks := blocks + Flushed(paragraph) + HeadingBlock(line);
        paragraph := [];
      } else if Blank(line) {
        blocks := blocks + Flushed(paragraph);
        paragraph := [];
      } else {
        paragraph := paragraph + [line];
      }
      index := index + 1;
    }
    blocks := blocks + Flushed(paragraph);
  }

  // ----- What any markdown reads as -----

  predicate WellFormed(b: Block) {
    match b
    case Heading(text) => text != "" && Trimmed(text)
    case Paragraph(text) => !Blank(text)
    case Table(_, headers, rows) =>
      && 0 < |headers| <= 64 && AllTrimmed(headers)
      && |rows| <= 2000 && Rectangular(rows, |headers|)
      && forall k :: 0 <= k < |rows| ==> AllTrimmed(rows[k])
  }

  predicate AllWellFormed(blocks: seq<Block>) {
    forall k :: 0 <= k < |blocks| ==> WellFormed(blocks[k])
  }

  lemma FlushedWellFormed(paragraph: seq<string>)
    ensures AllWellFormed(Flushed(paragraph))
  {
    TrimForm(Join(paragraph));
    TrimForm(Trim(Join(paragraph)));
  }

  lemma HeadingWellFormed(line: string)
    requires HEADING <= line
    ensures AllWellFormed(HeadingBlock(line))
  {
    TrimForm(line[|HEADING|..]);
  }

  lemma {:induction false} RowsForm(lines: seq<string>)
    ensures forall k :: 0 <= k < |Rows(lines)| ==> AllTrimmed(Rows(lines)[k])
  {
    if lines != [] && !Blank(lines[0]) && Cells(lines[0]).Some? {
      CellsForm(lines[0]);
      RowsForm(lines[1..]);
    }
  }

  lemma FirstLineInJoin(lines: seq<string>, c: char)
    requires lines != [] && c in lines[0]
    ensures c in Join(lines)
  {
    if |lines| > 1 {
      assert Join(lines) == lines[0] + ("\n" + Join(lines[1..]));
    }
  }

  lemma TableWellFormed(lines: seq<string>)
    requires TableAhead(lines)
    ensures WellFormed(TableAtHead(lines))
  {
    CellsForm(lines[0]);
    RowsForm(lines[2..]);
    if '|' !in lines[0] { NoPipeOneCell(lines[0]); }
    FirstLineInJoin(lines[..TableLength(lines)], '|');
    TrimForm(Join(lines[..TableLength(lines)]));
  }

  lemma {:induction false} BlocksFromWellFormed(lines: seq<string>, paragraph: seq<string>)
    ensures AllWellFormed(BlocksFrom(lines, paragraph))
    decreases |lines|
  {
    hide Cells, Blank, Rows, WellFormed, TableBlock, HeadingBlock, Flushed, IsRule;
    FlushedWellFormed(paragraph);
    if lines == [] {
    } else if TableAhead(lines) {
      TableWellFormed(lines);
      BlocksFromWellFormed(lines[TableLength(lines)..], []);
    } else if HEADING <= lines[0] {
      HeadingWellFormed(lines[0]);
      BlocksFromWellFormed(lines[1..], []);
    } else if Blank(lines[0]) {
      BlocksFromWellFormed(lines[1..], []);
    } else {
      BlocksFromWellFormed(lines[1..], paragraph + [lines[0]]);
    }
  }

  /**
   * Whatever the markdown, every table handed to the page is rectangular, of one to sixty-four
   * columns and at most two thousand rows of trimmed cells, and no heading or paragraph is empty.
   */
  lemma BlocksWellFormed(markdown: string)
    ensures AllWellFormed(Blocks(markdown))
  {
    BlocksFromWellFormed(Split(StripFrontmatter(markdown)), []);
  }

  // ----- Nothing is lost -----

  predicate IsInk(c: char) {
    !IsSpace(c) && c != '#'
  }

  /** The characters of a text that are neither white space nor heading marks. */
  function Ink(s: string): string {
    if s == "" then "" else (if IsInk(s[0]) then [s[0]] else "") + Ink(s[1..])
  }

  function InkOf(blocks: seq<Block>): string {
    if blocks == [] then "" else Ink(blocks[0].text) + InkOf(blocks[1..])
  }

  lemma InkHead(c: char, rest: string)
    ensures Ink([c] + rest) == Ink([c]) + Ink(rest)
  {
    hide IsInk;
    assert ([c] + rest)[1..] == rest;
    assert [c][1..] == "";
  }

  lemma {:induction false} InkConcat(a: string, b: string)
    ensures Ink(a + b) == Ink(a) + Ink(b)
  {
    hide Ink, IsInk;
    if a == "" {
      InkNone();
      assert a + b == b;
    } else {
      var c, rest := a[0], a[1..];
      InkConcat(rest, b);
      InkHead(c, rest);
      InkHead(c, rest + b);
      assert a == [c] + rest && a + b == [c] + (rest + b);
      assert Ink([c]) + (Ink(rest) + Ink(b)) == Ink([c]) + Ink(rest) + Ink(b);
    }
  }

  lemma InkNone()
    ensures Ink("") == ""
  {
  }

  lemma {:induction false} InkOfConcat(a: seq<Block>, b: seq<Block>)
    ensures InkOf(a + b) == InkOf(a) + InkOf(b)
  {
    hide Ink;
    if a == [] {
      assert a + b == b;
    } else {
      InkOfConcat(a[1..], b);
      assert (a + b)[0] == a[0] && (a + b)[1..] == a[1..] + b;
    }
  }

  lemma {:induction false} TrimStartInk(s: string)
    ensures Ink(TrimStart(s)) == Ink(s)
  {
    if s != "" && IsSpace(s[0]) { TrimStartInk(s[1..]); }
  }

  lemma {:induction false} TrimEndInk(s: string)
    ensures Ink(TrimEnd(s)) == Ink(s)
  {
    if s != "" && IsSpace(s[|s| - 1]) {
      var last := [s[|s| - 1]];
      TrimEndInk(s[..|s| - 1]);
      InkConcat(s[..|s| - 1], last);
      assert s[..|s| - 1] + last == s;
      assert last[1..] == "" && Ink(last) == "";
    }
  }

  lemma TrimInk(s: string)
    ensures Ink(Trim(s)) == Ink(s)
  {
    TrimStartInk(s);
    TrimEndInk(TrimStart(s));
  }

  lemma {:induction false} JoinInk(a: seq<string>, b: seq<string>)
    ensures Ink(Join(a + b)) == Ink(Join(a)) + Ink(Join(b))
  {
    if a == [] {
      assert a + b == b;
    } else if b == [] {
      assert a + b == a;
    } else {
      JoinInk(a[1..], b);
      assert (a + b)[1..] == a[1..] + b;
      LineInk(a);
      LineInk(a + b);
    }
  }

  lemma LineInk(lines: seq<string>)
    requires lines != []
    ensures Ink(Join(lines)) == Ink(lines[0]) + Ink(Join(lines[1..]))
  {
    if |lines| > 1 {
      InkConcat(lines[0] + "\n", Join(lines[1..]));
      InkConcat(lines[0], "\n");
      assert "\n"[1..] == "" && Ink("\n") == "";
    }
  }

  lemma FlushedInk(paragraph: seq<string>)
    ensures InkOf(Flushed(paragraph)) == Ink(Join(paragraph))
  {
    TrimInk(Join(paragraph));
  }

  lemma HeadingInk(line: string)
    requires HEADING <= line
    ensures InkOf(HeadingBlock(line)) == Ink(Join([line]))
  {
    TrimInk(line[|HEADING|..]);
    InkConcat(HEADING, line[|HEADING|..]);
    assert HEADING + line[|HEADING|..] == line;
    assert HEADING[1..] == "# " && "# "[1..] == " " && " "[1..] == "";
    assert Ink(" ") == "" && Ink("# ") == "" && Ink(HEADING) == "";
  }

  lemma InkOfThree(a: seq<Block>, b: seq<Block>, c: seq<Block>)
    ensures InkOf(a + b + c) == InkOf(a) + (InkOf(b) + InkOf(c))
  {
    hide InkOf;
    InkOfConcat(a, b);
    InkOfConcat(a + b, c);
  }

  lemma JoinInkThree(a: seq<string>, b: seq<string>, c: seq<string>)
    ensures Ink(Join(a + (b + c))) == Ink(Join(a)) + (Ink(Join(b)) + Ink(Join(c)))
  {
    hide Ink, Join;
    JoinInk(a, b + c);
    JoinInk(b, c);
  }

  lemma InkStep(paragraph: seq<string>, lines: seq<string>, n: nat, mid: seq<Block>, after: seq<Block>)
    requires n <= |lines|
    requires InkOf(mid) == Ink(Join(lines[..n])) && InkOf(after) == Ink(Join([] + lines[n..]))
    ensures InkOf(Flushed(paragraph) + mid + after) == Ink(Join(paragraph + lines))
  {
    hide Ink, Join, InkOf, Flushed;
    FlushedInk(paragraph);
    InkOfThree(Flushed(paragraph), mid, after);
    assert lines[..n] + lines[n..] == lines && [] + lines[n..] == lines[n..];
    JoinInkThree(paragraph, lines[..n], lines[n..]);
  }

  /** A line that neither opens a table nor continues a paragraph. */
  lemma OtherLineInk(paragraph: seq<string>, lines: seq<string>, after: seq<Block>)
    requires lines != [] && !TableAhead(lines) && (HEADING <= lines[0] || Blank(lines[0]))
    requires InkOf(after) == Ink(Join([] + lines[1..]))
    ensures InkOf(Flushed(paragraph) + (if HEADING <= lines[0] then HeadingBlock(lines[0]) else []) + after)
         == Ink(Join(paragraph + lines))
  {
    hide Cells, Blank, Rows, TableBlock, HeadingBlock, Flushed, IsRule, Ink, InkOf, Join, TableAhead;
    assert lines[..1] == [lines[0]];
    if HEADING <= lines[0] {
      HeadingInk(lines[0]);
      InkStep(paragraph, lines, 1, HeadingBlock(lines[0]), after);
    } else {
      BlankInk(lines[0]);
      InkStep(paragraph, lines, 1, [], after);
    }
  }

  lemma {:induction false} BlocksFromInk(lines: seq<string>, paragraph: seq<string>)
    ensures InkOf(BlocksFrom(lines, paragraph)) == Ink(Join(paragraph + lines))
    decreases |lines|
  {
    hide Cells, Blank, Rows, TableBlock, HeadingBlock, Flushed, IsRule, Ink, InkOf, Join, TableAtHead;
    if lines == [] {
      FlushedInk(paragraph);
      assert paragraph + lines == paragraph;
    } else if TableAhead(lines) {
      var n := TableLength(lines);
      BlocksFromInk(lines[n..], []);
      TableInk(lines);
      InkStep(paragraph, lines, n, [TableAtHead(lines)], BlocksFrom(lines[n..], []));
    } else if HEADING <= lines[0] || Blank(lines[0]) {
      BlocksFromInk(lines[1..], []);
      OtherLineInk(paragraph, lines, BlocksFrom(lines[1..], []));
      assert Flushed(paragraph) + [] == Flushed(paragraph);
    } else {
      BlocksFromInk(lines[1..], paragraph + [lines[0]]);
      assert paragraph + [lines[0]] + lines[1..] == paragraph + lines;
    }
  }

  lemma TableInk(lines: seq<string>)
    requires TableAhead(lines)
    ensures InkOf([TableAtHead(lines)]) == Ink(Join(lines[..TableLength(lines)]))
  {
    hide Cells, Blank, Rows, Ink;
    var block := TableAtHead(lines);
    assert [block][1..] == [] && InkOf([]) == "";
  }

  lemma BlankInk(line: string)
    requires Blank(line)
    ensures InkOf([]) == Ink(Join([line]))
  {
    TrimInk(line);
  }

  lemma {:induction false} JoinSplit(s: string)
    ensures Join(Split(s)) == s
  {
    if s != "" {
      JoinSplit(s[1..]);
      assert [s[0]] + s[1..] == s;
      var rest := Split(s[1..]);
      if s[0] == '\n' {
        assert ([""] + rest)[1..] == rest;
        assert "" + "\n" + s[1..] == s;
      } else if |rest| > 1 {
        assert Prefixed([s[0]], rest)[1..] == rest[1..];
        assert [s[0]] + rest[0] + "\n" + Join(rest[1..]) == [s[0]] + Join(rest);
      }
    }
  }

  /**
   * Whatever the markdown, no character but white space and heading marks is dropped, doubled or
   * moved on its way into the blocks.
   */
  lemma InkConserved(markdown: string)
    ensures InkOf(Blocks(markdown)) == Ink(StripFrontmatter(markdown))
  {
    var lines := Split(StripFrontmatter(markdown));
    BlocksFromInk(lines, []);
    assert [] + lines == lines;
    JoinSplit(StripFrontmatter(markdown));
  }

  // ----- A blank line keeps what is before it apart from what is after -----

  lemma {:induction false} RowsStop(a: seq<string>, blank: string, b: seq<string>)
    requires Blank(blank)
    ensures Rows(a + [blank] + b) == Rows(a)
  {
    hide Cells;
    if a == [] {
      assert [] + [blank] + b == [blank] + b;
    } else {
      RowsStop(a[1..], blank, b);
      assert (a + [blank] + b)[0] == a[0] && (a + [blank] + b)[1..] == a[1..] + [blank] + b;
    }
  }

  lemma AheadBeforeBlank(a: seq<string>, blank: string, b: seq<string>)
    requires a != [] && Blank(blank)
    ensures TableAhead(a + [blank] + b) <==> TableAhead(a)
  {
    BlankNoCells(blank);
    BlankNoCells("");
    hide Cells, Blank, AreRules;
    var all := a + [blank] + b;
    assert all[0] == a[0] && Second(all) == if |a| > 1 then a[1] else blank;
  }

  lemma TableBeforeBlank(a: seq<string>, blank: string, b: seq<string>)
    requires Blank(blank) && TableAhead(a) && TableAhead(a + [blank] + b)
    ensures TableLength(a + [blank] + b) == TableLength(a) && TableAtHead(a + [blank] + b) == TableAtHead(a)
  {
    hide OpensTable, Blank, Rows, TableBlock, Join, Cells;
    var all := a + [blank] + b;
    assert all[2..] == a[2..] + [blank] + b;
    RowsStop(a[2..], blank, b);
    assert all[..TableLength(a)] == a[..TableLength(a)];
  }

  lemma BlankLine(blank: string, b: seq<string>, paragraph: seq<string>)
    requires Blank(blank)
    ensures BlocksFrom([blank] + b, paragraph) == Flushed(paragraph) + BlocksFrom(b, [])
  {
    BlankNoCells(blank);
    TrimForm(blank);
    if blank != "" { assert blank[0] in blank; }
    hide Cells, Blank, Flushed;
    assert ([blank] + b)[1..] == b;
  }

  lemma {:induction false} BlankLineSeparates(a: seq<string>, blank: string, b: seq<string>, paragraph: seq<string>)
    requires Blank(blank)
    ensures BlocksFrom(a + [blank] + b, paragraph) == BlocksFrom(a, paragraph) + BlocksFrom(b, [])
    decreases |a|
  {
    hide Cells, Rows, TableBlock, HeadingBlock, Flushed, OpensTable, IsRule, Trim;
    var all := a + [blank] + b;
    if a == [] {
      BlankLine(blank, b, paragraph);
      assert all == [blank] + b;
    } else {
      AheadBeforeBlank(a, blank, b);
      assert all[0] == a[0] && all[1..] == a[1..] + [blank] + b;
      if TableAhead(a) {
        TableBeforeBlank(a, blank, b);
        var n := TableLength(a);
        assert all[n..] == a[n..] + [blank] + b;
        BlankLineSeparates(a[n..], blank, b, []);
        AppendTwice(Flushed(paragraph), [TableAtHead(a)], BlocksFrom(a[n..], []), BlocksFrom(b, []));
      } else if HEADING <= a[0] {
        BlankLineSeparates(a[1..], blank, b, []);
        AppendTwice(Flushed(paragraph), HeadingBlock(a[0]), BlocksFrom(a[1..], []), BlocksFrom(b, []));
      } else if Blank(a[0]) {
        BlankLineSeparates(a[1..], blank, b, []);
        AppendTwice(Flushed(paragraph), [], BlocksFrom(a[1..], []), BlocksFrom(b, []));
      } else {
        BlankLineSeparates(a[1..], blank, b, paragraph + [a[0]]);
      }
    }
  }

  lemma AppendTwice(a: seq<Block>, b: seq<Block>, c: seq<Block>, d: seq<Block>)
    ensures a + b + (c + d) == a + b + c + d && a + [] == a
  {
  }

  // ----- Writing a document and reading it back -----

  /** What a document is made of. */
  datatype Part =
    | Title(heading: string)
    | Prose(lines: seq<string>)
    | Grid(headers: seq<string>, rows: seq<seq<string>>)

  function RuleRow(width: nat): seq<string> {
    seq(width, i => "---")
  }

  function WriteRows(rows: seq<seq<string>>): seq<string> {
    if rows == [] then [] else [WriteRow(rows[0])] + WriteRows(rows[1..])
  }

  function WriteGrid(headers: seq<string>, rows: seq<seq<string>>): seq<string> {
    [WriteRow(headers), WriteRow(RuleRow(|headers|))] + WriteRows(rows)
  }

  function Write(part: Part): seq<string> {
    match part
    case Title(heading) => ["## " + heading]
    case Prose(lines) => lines
    case Grid(headers, rows) => WriteGrid(headers, rows)
  }

  /** Each part, and a blank line after it. */
  function WriteAll(parts: seq<Part>): seq<string> {
    if parts == [] then [""] else Write(parts[0]) + [""] + WriteAll(parts[1..])
  }

  predicate GridFits(headers: seq<string>, rows: seq<seq<string>>) {
    && 0 < |headers| <= 64 && |rows| <= 2000 && Rectangular(rows, |headers|)
    && CellsFit(headers) && forall k :: 0 <= k < |rows| ==> CellsFit(rows[k])
  }

  /** Cells that may be written in a line: any text, empty too, with nothing to trim and no newline. */
  predicate CellsFit(cells: seq<string>) {
    AllTrimmed(cells) && NewlineFree(cells)
  }

  predicate PlainLine(line: string) {
    !Blank(line) && !("## " <= line)
  }

  /** Prose that is prose: no blank line, no heading, no table inside, and nothing to trim. */
  predicate ProseFits(lines: seq<string>) {
    && lines != [] && NewlineFree(lines) && Trimmed(Join(lines))
    && forall k :: 0 <= k < |lines| ==> PlainLine(lines[k]) && !TableAhead(lines[k..])
  }

  predicate Fits(part: Part) {
    match part
    case Title(heading) => heading != "" && Trimmed(heading) && '\n' !in heading
    case Prose(lines) => ProseFits(lines)
    case Grid(headers, rows) => GridFits(headers, rows)
  }

  /** The block a part is written to read back as. */
  function BlockOf(part: Part): Block {
    match part
    case Title(heading) => Heading(heading)
    case Prose(lines) => Paragraph(Join(lines))
    case Grid(headers, rows) => Table(Join(Write(part)), headers, rows)
  }

  function BlocksOf(parts: seq<Part>): seq<Block> {
    if parts == [] then [] else [BlockOf(parts[0])] + BlocksOf(parts[1..])
  }

  lemma RowNotBlank(cells: seq<string>)
    ensures !Blank(WriteRow(cells))
  {
    TrimForm(WriteRow(cells));
    assert WriteRow(cells)[0] == '|';
  }

  lemma {:induction false} RowsReadBack(rows: seq<seq<string>>, width: nat)
    requires 0 < width <= MAX_COLUMNS && Rectangular(rows, width)
    requires forall k :: 0 <= k < |rows| ==> CellsFit(rows[k])
    ensures Rows(WriteRows(rows)) == rows && |WriteRows(rows)| == |rows|
  {
    hide Cells, Blank, WriteRow, AllTrimmed, NewlineFree, Rows;
    if rows == [] {
      NoRows();
    } else {
      assert CellsFit(rows[0]);
      RowReadsBack(rows[0]);
      RowNotBlank(rows[0]);
      RowsReadBack(rows[1..], width);
      FirstRow(WriteRow(rows[0]), WriteRows(rows[1..]));
    }
  }

  lemma NoRows()
    ensures Rows([]) == []
  {
  }

  lemma FirstRow(line: string, rest: seq<string>)
    requires !Blank(line) && Cells(line).Some?
    ensures Rows([line] + rest) == [Cells(line).value] + Rows(rest)
  {
    hide Cells, Blank;
    assert ([line] + rest)[1..] == rest;
  }

  lemma RulesAreRules(width: nat)
    ensures AreRules(RuleRow(width)) && AllTrimmed(RuleRow(width))
  {
  }

  /** A written table reads back as one table block with exactly its headers and rows. */
  lemma GridReadsBack(headers: seq<string>, rows: seq<seq<string>>)
    requires GridFits(headers, rows)
    ensures BlocksFrom(WriteGrid(headers, rows), []) == [Table(Join(WriteGrid(headers, rows)), headers, rows)]
  {
    var lines, rules := WriteGrid(headers, rows), RuleRow(|headers|);
    RowReadsBack(headers);
    RulesAreRules(|headers|);
    RowReadsBack(rules);
    RowsReadBack(rows, |headers|);
    assert Flushed([]) == [];
    hide Cells, WriteRow, Trimmed, Blank, AreRules, Rows, Flushed;
    assert lines[0] == WriteRow(headers) && Second(lines) == WriteRow(rules) && lines[2..] == WriteRows(rows);
    assert TableAhead(lines);
    assert TableLength(lines) == |lines| && lines[..|lines|] == lines && lines[|lines|..] == [];
  }

  lemma TitleReadsBack(heading: string)
    requires heading != "" && Trimmed(heading)
    ensures BlocksFrom([HEADING + heading], []) == [Heading(heading)]
  {
    BlankNoCells("");
    TrimForm(heading);
    var line := HEADING + heading;
    var lines: seq<string> := [line];
    assert line[|HEADING|..] == heading;
    assert Second(lines) == "" && !TableAhead(lines);
    assert Flushed([]) == [] && HeadingBlock(line) == [Heading(heading)];
    hide Cells, Trim, Flushed, HeadingBlock;
    assert lines[1..] == [];
  }

  lemma {:induction false} ProseOpen(lines: seq<string>, k: nat)
    requires ProseFits(lines) && k <= |lines|
    ensures BlocksFrom(lines[k..], lines[..k]) == Flushed(lines)
    decreases |lines| - k
  {
    hide TableAhead, Trim, Flushed, Trimmed;
    if k == |lines| {
      assert lines[..k] == lines;
    } else {
      ProseOpen(lines, k + 1);
      assert PlainLine(lines[k]) && !TableAhead(lines[k..]);
      assert lines[k..][1..] == lines[k + 1..] && lines[..k] + [lines[k]] == lines[..k + 1];
    }
  }

  lemma ProseReadsBack(lines: seq<string>)
    requires ProseFits(lines)
    ensures BlocksFrom(lines, []) == [Paragraph(Join(lines))]
  {
    ProseOpen(lines, 0);
    assert lines[0..] == lines && lines[..0] == [];
    TrimForm(Join(lines));
    TrimForm(lines[0]);
    assert PlainLine(lines[0]);
    var c :| c in lines[0] && !IsSpace(c);
    FirstLineInJoin(lines, c);
  }

  lemma PartReadsBack(part: Part)
    requires Fits(part)
    ensures BlocksFrom(Write(part), []) == [BlockOf(part)]
  {
    match part
    case Title(heading) => TitleReadsBack(heading);
    case Prose(lines) => ProseReadsBack(lines);
    case Grid(headers, rows) => GridReadsBack(headers, rows);
  }

  predicate AllFit(parts: seq<Part>) {
    forall k :: 0 <= k < |parts| ==> Fits(parts[k])
  }

  lemma {:induction false} PartsReadBack(parts: seq<Part>)
    requires AllFit(parts)
    ensures BlocksFrom(WriteAll(parts), []) == BlocksOf(parts)
    ensures NewlineFree(WriteAll(parts)) && WriteAll(parts) != []
  {
    hide Fits, Write, BlockOf, Flushed;
    if parts == [] {
      BlankLine("", [], []);
      assert [""] + [] == [""];
      NothingOpen();
    } else {
      PartsReadBack(parts[1..]);
      PartReadsBack(parts[0]);
      BlankLineSeparates(Write(parts[0]), "", WriteAll(parts[1..]), []);
      assert Fits(parts[0]);
      FitsNewlineFree(parts[0]);
    }
  }

  lemma NothingOpen()
    ensures Flushed([]) == []
  {
  }

  lemma {:induction false} EscapeNewlineFree(cell: string)
    requires '\n' !in cell
    ensures '\n' !in Escape(cell)
  {
    if cell != "" { EscapeNewlineFree(cell[1..]); }
  }

  lemma {:induction false} CellsNewlineFree(cells: seq<string>)
    requires NewlineFree(cells)
    ensures '\n' !in WriteCells(cells) && '\n' !in WriteRow(cells)
  {
    if cells != [] {
      EscapeNewlineFree(cells[0]);
      CellsNewlineFree(cells[1..]);
    }
  }

  lemma {:induction false} RowsNewlineFree(rows: seq<seq<string>>)
    requires forall k :: 0 <= k < |rows| ==> CellsFit(rows[k])
    ensures NewlineFree(WriteRows(rows))
  {
    hide WriteRow, AllTrimmed;
    if rows != [] {
      assert CellsFit(rows[0]);
      CellsNewlineFree(rows[0]);
      RowsNewlineFree(rows[1..]);
    }
  }

  lemma GridNewlineFree(headers: seq<string>, rows: seq<seq<string>>)
    requires GridFits(headers, rows)
    ensures NewlineFree(WriteGrid(headers, rows))
  {
    CellsNewlineFree(headers);
    CellsNewlineFree(RuleRow(|headers|));
    RowsNewlineFree(rows);
  }

  lemma FitsNewlineFree(part: Part)
    requires Fits(part)
    ensures NewlineFree(Write(part))
  {
    if part.Grid? { GridNewlineFree(part.headers, part.rows); }
  }

  /**
   * A document of headings, paragraphs and tables, written with a blank line after each and put
   * behind any frontmatter that does not close itself early, reads back as exactly those blocks.
   */
  lemma DocumentReadsBack(meta: string, parts: seq<Part>)
    requires AllFit(parts)
    requires forall i: nat :: i < |meta| ==> !ClosesAt(meta + "\n---\n", i)
    ensures Blocks("---\n" + meta + "\n---\n" + Join(WriteAll(parts))) == BlocksOf(parts)
  {
    hide Fits, FindClose;
    FrontmatterStripped(meta, Join(WriteAll(parts)));
    PartsReadBack(parts);
    SplitJoined(WriteAll(parts));
  }

  /** And so does a table on its own, with nothing around it. */
  lemma TableReadsBack(headers: seq<string>, rows: seq<seq<string>>)
    requires GridFits(headers, rows)
    ensures var text := Join(WriteGrid(headers, rows));
            Blocks(text) == [Table(text, headers, rows)]
  {
    hide GridFits;
    var lines := WriteGrid(headers, rows);
    assert Join(lines) == lines[0] + ("\n" + Join(lines[1..]));
    assert Join(lines)[0] == lines[0][0] == '|';
    GridNewlineFree(headers, rows);
    SplitJoined(lines);
    GridReadsBack(headers, rows);
  }
}
