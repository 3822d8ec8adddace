/** One line of a markdown table: trimming, and splitting at unescaped pipes. */
module MarkdownCells {
  import opened Common

  // ----- Trimming -----

  /** The characters a JavaScript trim removes: white space and line terminators. */
  predicate IsSpace(c: char) {
    || '\t' <= c <= '\r' || c == ' ' || c == '\U{00A0}' || c == '\U{1680}' || '\U{2000}' <= c <= '\U{200A}'
    || c == '\U{2028}' || c == '\U{2029}' || c == '\U{202F}' || c == '\U{205F}' || c == '\U{3000}' || c == '\U{FEFF}'
  }

  function TrimStart(s: string): string {
    if s != [] && IsSpace(s[0]) then TrimStart(s[1..]) else s
  }

  function TrimEnd(s: string): string {
    if s != [] && IsSpace(s[|s| - 1]) then TrimEnd(s[..|s| - 1]) else s
  }

  function Trim(s: string): string {
    TrimEnd(TrimStart(s))
  }

  predicate Blank(s: string) {
    Trim(s) == ""
  }

  predicate Trimmed(s: string) {
    s != "" ==> !IsSpace(s[0]) && !IsSpace(s[|s| - 1])
  }

  lemma {:induction false} TrimEndKeepsStart(s: string)
    requires s != [] && !IsSpace(s[0])
    ensures TrimEnd(s) != [] && TrimEnd(s)[0] == s[0] && Trimmed(TrimEnd(s))
  {
    if IsSpace(s[|s| - 1]) { TrimEndKeepsStart(s[..|s| - 1]); }
  }

  lemma {:induction false} TrimStartForm(s: string)
    ensures TrimStart(s) != "" ==> !IsSpace(TrimStart(s)[0])
    ensures TrimStart(s) == "" <==> forall c :: c in s ==> IsSpace(c)
  {
    if s != [] && IsSpace(s[0]) {
      TrimStartForm(s[1..]);
      assert s == [s[0]] + s[1..];
    }
  }

  /** Trimming leaves no white space at the ends, and nothing at all exactly of white space. */
  lemma TrimForm(s: string)
    ensures Trimmed(Trim(s))
    ensures Blank(s) <==> forall c :: c in s ==> IsSpace(c)
    ensures Trimmed(s) ==> Trim(s) == s
  {
    TrimStartForm(s);
    if TrimStart(s) != "" { TrimEndKeepsStart(TrimStart(s)); }
  }

  lemma TrimPadded(s: string)
    requires Trimmed(s)
    ensures Trim(" " + s + " ") == s
  {
    assert (" " + s + " ")[1..] == s + " ";
    if s == "" {
      assert s + " " == " " && " "[1..] == "";
      assert TrimStart(" ") == "" && TrimStart(" " + s + " ") == "";
    } else {
      var t := s + " ";
      assert TrimStart(" " + s + " ") == t;
      assert t[..|t| - 1] == s;
      assert TrimEnd(t) == TrimEnd(s);
    }
  }

  // ----- Splitting at unescaped pipes -----

  predicate IsEscape(s: string, i: nat) {
    i + 1 < |s| && s[i] == '\\' && (s[i + 1] == '|' || s[i + 1] == '\\')
  }

  /** Put text in front of the first of some cells. */
  function Prefixed(text: string, cells: seq<string>): seq<string>
    requires cells != []
  {
    [text + cells[0]] + cells[1..]
  }

  /** The cells before trimming: one more than there are unescaped pipes. */
  function RawCells(s: string): (r: seq<string>)
    ensures r != []
  {
    if s == "" then [""]
    else if IsEscape(s, 0) then Prefixed([s[1]], RawCells(s[2..]))
    else if s[0] == '|' then [""] + RawCells(s[1..])
    else Prefixed([s[0]], RawCells(s[1..]))
  }

  function Trims(cells: seq<string>): (r: seq<string>) {
    seq(|cells|, i requires 0 <= i < |cells| => Trim(cells[i]))
  }

  const MAX_COLUMNS := 64

  /** An empty first cell is shifted off, then an empty last one popped: the outer pipes. */
  function WithoutOuter(cells: seq<string>): seq<string>
    requires cells != []
  {
    var inner := if cells[0] == "" then cells[1..] else cells;
    if inner != [] && inner[|inner| - 1] == "" then inner[..|inner| - 1] else inner
  }

  /** The cells of a table line: None for a line without an unescaped pipe, or with no or too many cells. */
  function Cells(line: string): Option<seq<string>> {
    var raw := RawCells(line);
    if |raw| == 1 then None
    else
      var cells := WithoutOuter(Trims(raw));
      if 0 < |cells| <= MAX_COLUMNS then Some(cells) else None
  }

  lemma ReadEscape(c: char, rest: string)
    requires c == '|' || c == '\\'
    ensures RawCells(['\\', c] + rest) == Prefixed([c], RawCells(rest))
  {
    assert (['\\', c] + rest)[2..] == rest;
  }

  lemma ReadPlain(c: char, rest: string)
    requires c != '|' && !IsEscape([c] + rest, 0)
    ensures RawCells([c] + rest) == Prefixed([c], RawCells(rest))
  {
    assert ([c] + rest)[1..] == rest;
  }

  lemma ReadPipe(rest: string)
    ensures RawCells("|" + rest) == [""] + RawCells(rest)
  {
    assert ("|" + rest)[1..] == rest;
  }

  lemma PrefixedNone(cells: seq<string>)
    requires cells != []
    ensures Prefixed("", cells) == cells
  {
    assert "" + cells[0] == cells[0];
  }

  lemma PrefixedPipe(text: string, cells: seq<string>)
    ensures Prefixed(text, [""] + cells) == [text] + cells
  {
    assert text + "" == text;
  }

  lemma PrefixedTwice(a: string, b: string, cells: seq<string>)
    requires cells != []
    ensures Prefixed(a, Prefixed(b, cells)) == Prefixed(a + b, cells)
  {
    assert a + (b + cells[0]) == a + b + cells[0];
  }

  /** How many characters the reader takes at i. */
  function Taken(line: string, i: nat): nat
    requires i < |line|
  {
    if IsEscape(line, i) then 2 else 1
  }

  /** The raw cells of a line, read so far as raw and the open cell, with rest still to read. */
  function Resumed(raw: seq<string>, cell: string, rest: string): seq<string> {
    raw + Prefixed(cell, RawCells(rest))
  }

  lemma CharacterReads(line: string, i: nat, raw: seq<string>, cell: string)
    requires i < |line| && (IsEscape(line, i) || line[i] != '|')
    ensures var n := Taken(line, i);
            i + n <= |line| &&
            Resumed(raw, cell, line[i..]) == Resumed(raw, cell + [line[i + n - 1]], line[i + n..])
  {
    var n := Taken(line, i);
    var c, rest := line[i + n - 1], line[i + n..];
    assert line[i..] == line[i..i + n] + rest;
    if n == 2 {
      assert line[i..i + 2] == ['\\', c];
      ReadEscape(c, rest);
    } else {
      assert line[i..i + 1] == [c];
      ReadPlain(c, rest);
    }
    PrefixedTwice(cell, [c], RawCells(rest));
  }

  lemma PipeReads(line: string, i: nat, raw: seq<string>, cell: string)
    requires i < |line| && line[i] == '|'
    ensures Resumed(raw, cell, line[i..]) == Resumed(raw + [cell], "", line[i + 1..])
    ensures Trims(raw + [cell]) == Trims(raw) + [Trim(cell)]
  {
    var rest := line[i + 1..];
    assert line[i..] == "|" + rest;
    ReadPipe(rest);
    PrefixedPipe(cell, RawCells(rest));
    PrefixedNone(RawCells(rest));
    assert raw + ([cell] + RawCells(rest)) == raw + [cell] + RawCells(rest);
  }

  lemma ReadThrough(line: string, raw: seq<string>, cell: string)
    ensures Resumed([], "", line) == RawCells(line) && Trims([]) == []
    ensures Resumed(raw, cell, "") == raw + [cell] && Trims(raw + [cell]) == Trims(raw) + [Trim(cell)]
  {
    PrefixedNone(RawCells(line));
    assert cell + "" == cell;
  }

  /** The loop over the characters of a line. */
  method TableCells(line: string) returns (r: Option<seq<string>>)
    ensures r == Cells(line)
  {
    hide RawCells, Prefixed, Resumed, Trims, Trim;
    var cells, cell, hasPipe, index := [], "", false, 0;
    ghost var raw := [];
    assert line[0..] == line;
    ReadThrough(line, raw, cell);
    while index < |line|
      invariant 0 <= index <= |line|
      invariant RawCells(line) == Resumed(raw, cell, line[index..])
      invariant cells == Trims(raw) && (hasPipe <==> raw != [])
      decreases |line| - index
    {
      if IsEscape(line, index) {
        CharacterReads(line, index, raw, cell);
        index := index + 1;
        cell := cell + [line[index]];
      } else if line[index] == '|' {
        PipeReads(line, index, raw, cell);
        cells := cells + [Trim(cell)];
        raw := raw + [cell];
        cell := "";
        hasPipe := true;
      } else {
        CharacterReads(line, index, raw, cell);
        cell := cell + [line[index]];
      }
      index := index + 1;
    }
    assert line[index..] == "";
    ReadThrough(line, raw, cell);
    cells := cells + [Trim(cell)];
    assert cells == Trims(RawCells(line));
    if !hasPipe {
      return None;
    }
    cells := WithoutOuter(cells);
    return if |cells| > 0 && |cells| <= MAX_COLUMNS then Some(cells) else None;
  }

  // ----- Writing a line -----

  function EscapeChar(c: char): string {
    if c == '|' || c == '\\' then ['\\', c] else [c]
  }

  function Escape(s: string): string {
    if s == "" then "" else EscapeChar(s[0]) + Escape(s[1..])
  }

  /** Every cell padded by a space and closed by a pipe. */
  function WriteCells(cells: seq<string>): string {
    if cells == [] then "" else " " + Escape(cells[0]) + " |" + WriteCells(cells[1..])
  }

  function WriteRow(cells: seq<string>): string {
    "|" + WriteCells(cells)
  }

  lemma EscapeCharReads(c: char, rest: string)
    ensures RawCells(EscapeChar(c) + rest) == Prefixed([c], RawCells(rest))
  {
    if c == '|' || c == '\\' { ReadEscape(c, rest); } else { ReadPlain(c, rest); }
  }

  lemma {:induction false} EscapeReads(s: string, rest: string)
    ensures RawCells(Escape(s) + rest) == Prefixed(s, RawCells(rest))
  {
    if s == "" {
      assert Escape(s) + rest == rest;
      PrefixedNone(RawCells(rest));
    } else {
      EscapeReads(s[1..], rest);
      assert Escape(s) + rest == EscapeChar(s[0]) + (Escape(s[1..]) + rest);
      EscapeCharReads(s[0], Escape(s[1..]) + rest);
      PrefixedTwice([s[0]], s[1..], RawCells(rest));
      assert [s[0]] + s[1..] == s;
    }
  }

  function Padded(cells: seq<string>): seq<string> {
    seq(|cells|, i requires 0 <= i < |cells| => " " + cells[i] + " ")
  }

  lemma CellReads(cell: string, rest: string)
    ensures RawCells(" " + Escape(cell) + " |" + rest) == [" " + cell + " "] + RawCells(rest)
  {
    var close := " " + ("|" + rest);
    ReadPipe(rest);
    ReadPlain(' ', "|" + rest);
    PrefixedPipe(" ", RawCells(rest));
    EscapeReads(cell, close);
    ReadPlain(' ', Escape(cell) + close);
    assert " " + Escape(cell) + " |" + rest == " " + (Escape(cell) + close);
    PrefixedTwice(" ", cell, RawCells(close));
  }

  lemma {:induction false} CellsRead(cells: seq<string>)
    ensures RawCells(WriteCells(cells)) == Padded(cells) + [""]
  {
    if cells != [] {
      CellReads(cells[0], WriteCells(cells[1..]));
      CellsRead(cells[1..]);
      assert Padded(cells) + [""] == [" " + cells[0] + " "] + (Padded(cells[1..]) + [""]);
    }
  }

  predicate AllTrimmed(cells: seq<string>) {
    forall k :: 0 <= k < |cells| ==> Trimmed(cells[k])
  }

  lemma TrimsPadded(cells: seq<string>)
    requires AllTrimmed(cells)
    ensures Trims(Padded(cells)) == cells
  {
    forall k | 0 <= k < |cells| ensures Trim(Padded(cells)[k]) == cells[k] {
      TrimPadded(cells[k]);
    }
  }

  /** A written row reads back as its cells, empty cells and cells with pipes or backslashes included. */
  lemma RowReadsBack(cells: seq<string>)
    requires 0 < |cells| <= 64 && AllTrimmed(cells)
    ensures Cells(WriteRow(cells)) == Some(cells)
  {
    var line := WriteRow(cells);
    CellsRead(cells);
    ReadPipe(WriteCells(cells));
    assert RawCells(line) == [""] + (Padded(cells) + [""]);
    TrimsPadded(cells);
    var trims := [""] + (cells + [""]);
    assert Trims(RawCells(line)) == trims;
    assert trims[1..] == cells + [""];
    assert (cells + [""])[..|cells|] == cells;
  }

  /** Only a line with a pipe is a table line. */
  lemma {:induction false} NoPipeOneCell(s: string)
    requires '|' !in s
    ensures |RawCells(s)| == 1
  {
    if s != "" {
      assert s[0] != '|';
      if IsEscape(s, 0) { assert s[1] in s && s[1] == '\\'; NoPipeOneCell(s[2..]); } else { NoPipeOneCell(s[1..]); }
    }
  }

  lemma BlankNoCells(s: string)
    requires Blank(s)
    ensures Cells(s).None?
  {
    TrimForm(s);
    NoPipeOneCell(s);
  }

  lemma TrimsTrimmed(cells: seq<string>)
    ensures AllTrimmed(Trims(cells))
  {
    forall k | 0 <= k < |cells| ensures Trimmed(Trims(cells)[k]) {
      TrimForm(cells[k]);
    }
  }

  /** What any line reads as: one to sixty-four trimmed cells, so that writing them reads back the same. */
  lemma CellsForm(line: string)
    requires Cells(line).Some?
    ensures 0 < |Cells(line).value| <= 64 && AllTrimmed(Cells(line).value)
    ensures Cells(WriteRow(Cells(line).value)) == Cells(line)
  {
    TrimsTrimmed(RawCells(line));
    RowReadsBack(Cells(line).value);
  }

  // ----- Lines with or without outer pipes -----

  /** Cells between pipes, with none around them. */
  function Piped(cells: seq<string>): string
    requires cells != []
  {
    Escape(cells[0]) + (if |cells| == 1 then "" else "|" + Piped(cells[1..]))
  }

  function Pipe(written: bool): string {
    if written then "|" else ""
  }

  /** The raw cell an outer pipe adds. */
  function Outer(written: bool): seq<string> {
    if written then [""] else []
  }

  lemma PipeEnds(right: bool)
    ensures RawCells(Pipe(right)) == [""] + Outer(right)
  {
  }

  lemma {:induction false} PipedReads(cells: seq<string>, right: bool)
    requires cells != []
    ensures RawCells(Piped(cells) + Pipe(right)) == cells + Outer(right)
  {
    hide RawCells, Escape, Prefixed;
    var rest := (if |cells| == 1 then "" else "|" + Piped(cells[1..])) + Pipe(right);
    assert Piped(cells) + Pipe(right) == Escape(cells[0]) + rest;
    EscapeReads(cells[0], rest);
    if |cells| == 1 {
      assert rest == Pipe(right);
      PipeEnds(right);
      PrefixedPipe(cells[0], Outer(right));
      assert cells == [cells[0]];
    } else {
      var next := Piped(cells[1..]) + Pipe(right);
      assert rest == "|" + next;
      ReadPipe(next);
      PipedReads(cells[1..], right);
      PrefixedPipe(cells[0], RawCells(next));
      assert cells == [cells[0]] + cells[1..];
    }
  }

  lemma OuterReads(cells: seq<string>, left: bool, right: bool)
    requires cells != []
    ensures RawCells(Pipe(left) + Piped(cells) + Pipe(right)) == Outer(left) + cells + Outer(right)
  {
    hide RawCells, Piped;
    var line := Piped(cells) + Pipe(right);
    PipedReads(cells, right);
    assert Pipe(left) + Piped(cells) + Pipe(right) == Pipe(left) + line;
    if left { ReadPipe(line); } else { assert Pipe(left) + line == line; }
  }

  lemma OuterTrims(cells: seq<string>, left: bool, right: bool)
    requires AllTrimmed(cells)
    ensures Trims(Outer(left) + cells + Outer(right)) == Outer(left) + cells + Outer(right)
  {
    assert Trim("") == "";
    forall k | 0 <= k < |cells| ensures Trim(cells[k]) == cells[k] {
      TrimForm(cells[k]);
    }
  }

  lemma OuterTaken(cells: seq<string>, left: bool, right: bool)
    requires cells != [] && (left || cells[0] != "") && (right || cells[|cells| - 1] != "")
    ensures WithoutOuter(Outer(left) + cells + Outer(right)) == cells
  {
    var all := Outer(left) + cells + Outer(right);
    var inner := cells + Outer(right);
    assert all[0] == (if left then "" else cells[0]);
    assert left ==> all[1..] == inner;
    assert !left ==> all == inner;
    assert right ==> inner[|inner| - 1] == "" && inner[..|inner| - 1] == cells;
    assert !right ==> inner == cells;
  }

  /** Both outer pipes, either or none: an outer pipe is needed only beside an empty cell, or about a single one. */
  lemma OuterPipesOptional(cells: seq<string>, left: bool, right: bool)
    requires cells != [] && AllTrimmed(cells)
    requires (left || cells[0] != "") && (right || cells[|cells| - 1] != "") && (left || right || |cells| > 1)
    ensures Cells(Pipe(left) + Piped(cells) + Pipe(right)) == if |cells| <= 64 then Some(cells) else None
  {
    hide RawCells, Trims, AllTrimmed, WithoutOuter, Piped;
    OuterReads(cells, left, right);
    OuterTrims(cells, left, right);
    OuterTaken(cells, left, right);
  }

  /** A line is no table line when every pipe in it is escaped. */
  lemma EscapedIsNoRow(text: string)
    ensures Cells(Escape(text)).None?
  {
    EscapeReads(text, "");
    assert Escape(text) + "" == Escape(text);
  }

  lemma {:induction false} UnpipedIsNoRow(line: string)
    requires '|' !in line
    ensures |RawCells(line)| == 1 && Cells(line).None?
  {
    if line != "" {
      assert line[0] in line && (forall i :: 0 <= i < |line| ==> line[i] in line);
      UnpipedIsNoRow(if IsEscape(line, 0) then line[2..] else line[1..]);
    }
  }
}
