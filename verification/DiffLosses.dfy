/** Diffs whose added lines the reader of diffs does not recover, and what it makes of them. */
module DiffLosses {
  import opened Common
  import opened DiffHarm
  import opened DiffParser
  import opened TextLines

  /** A change of one file f by one hunk at its start. */
  function Change(edits: seq<Edit>): FileDiff {
    OneHunk("f", [], "", edits)
  }

  lemma ChangeReads(edits: seq<Edit>)
    requires NewCount(edits) > 0
    ensures Parsed(PrintDiff([], [Change(edits)])) == ReadAll(ReadWhole, OPENED, PrintEdits(edits)).added
    ensures Expected(map[], [Change(edits)]) == map["f" := AddedIn(edits, 1)]
  {
    hide ReadWhole, ReadAll, Parsed, PrintDiff, PrintEdits, Expected, AddedIn, OneHunk, NewCount;
    UntitledReads("f", [], edits);
    OneHunkExpected("f", [], "", edits);
  }

  lemma BreakFirst(rest: string)
    ensures Fragments("\U{0C}" + rest) == [""] + Fragments(rest)
  {
    var own := "\U{0C}" + rest + "\n";
    assert LineEnd(own) == 0 && BreakEnd(own, 0) == 1 && own[1..] == rest + "\n";
  }

  /** "x", a form feed, and more text comes back as "x" and a line of that text. */
  lemma BrokenInTwo(x: string, rest: string)
    requires Unbroken(x) && Unbroken(rest)
    ensures Fragments(x + "\U{0C}" + rest) == [x, rest]
  {
    hide Unbroken;
    var t := "\U{0C}" + rest;
    assert x + "\U{0C}" + rest == x + t;
    BreakFirst(rest);
    hide LineEnd, AfterLine, SplitLines;
    FragmentsAfter(x, t);
    UnbrokenFragments(rest);
    assert x + "" == x;
  }

  lemma ReadTwo(s: Files, raw: string, first: string, second: string)
    requires Fragments(raw) == [first, second]
    ensures ReadWhole(s, raw) == ReadLine(ReadLine(s, first), second)
  {
    ReadOne(ReadLine, s, first, [second]);
    ReadOne(ReadLine, ReadLine(s, first), second, []);
    assert [first] + [second] == [first, second] && [second] + [] == [second];
  }

  lemma ReadPrinted(s: Files, edits: seq<Edit>)
    requires edits != []
    ensures ReadAll(ReadWhole, s, PrintEdits(edits))
         == ReadAll(ReadWhole, ReadWhole(s, PrintEdit(edits[0])), PrintEdits(edits[1..]))
  {
    ReadOne(ReadWhole, s, PrintEdit(edits[0]), PrintEdits(edits[1..]));
  }

  /** Nothing but the lines a hunk does not add can make it unprintable. */
  lemma AddsPrintable(edits: seq<Edit>)
    requires forall k :: 0 <= k < |edits| ==> edits[k].Add?
    ensures AllPrintable(Quiet, [Change(edits)])
  {
    UnbrokenFragments("");
    assert Quiet(Section(""));
    var spared := Sparing(Section(""));
    hide Quiet, AllPrintable, OneHunk;
    OneHunkPrintable(Section(""), "f", [], "", edits);
    FilesAllowed(spared, Quiet, [Change(edits)]);
  }

  /** What f holds when its first line has been read as adding this text. */
  function FirstAdded(text: string): Files {
    Files(map["f" := [Added(1, text)]], Some("f"), 2)
  }

  const OPENED := Opened("f", 1)

  lemma FirstAddReads(text: string)
    requires !("++ " <= text)
    ensures ReadLine(OPENED, "+" + text) == FirstAdded(text)
  {
    AddReads(OPENED, text);
    assert [] + [Added(1, text)] == [Added(1, text)];
  }

  lemma FormFeedLine()
    ensures ReadWhole(OPENED, PrintEdit(Add("a\U{0C}b"))) == FirstAdded("a")
  {
    var raw := PrintEdit(Add("a\U{0C}b"));
    BrokenInTwo("+a", "b");
    assert raw == "+a" + "\U{0C}" + "b";
    ReadTwo(OPENED, raw, "+a", "b");
    FirstAddReads("a");
    assert "+" + "a" == "+a";
    assert ReadLine(FirstAdded("a"), "b") == FirstAdded("a");
  }

  /** An added line with a form feed in it loses what follows the form feed. */
  lemma FormFeedLosesTail() returns (d: FileDiff)
    ensures d == Change([Add("a\U{0C}b")]) && AllPrintable(Quiet, [d])
    ensures Expected(map[], [d]) == map["f" := [Added(1, "a\U{0C}b")]]
    ensures Parsed(PrintDiff([], [d])) == map["f" := [Added(1, "a")]]
  {
    var edits := [Add("a\U{0C}b")];
    d := Change(edits);
    assert edits[1..] == [] && AddedIn(edits, 1) == [Added(1, "a\U{0C}b")];
    FormFeedLine();
    hide ReadWhole, PrintEdit, Expected, AllPrintable, Parsed, PrintDiff;
    ChangeReads(edits);
    AddsPrintable(edits);
    ReadPrinted(OPENED, edits);
  }

  const REDIRECTED := Files(map["f" := [], "x" := []], Some("x"), 1)

  lemma PlusesLine()
    ensures ReadWhole(OPENED, PrintEdit(Add("++ x"))) == REDIRECTED
  {
    assert PrintEdit(Add("++ x")) == "+++ x" && Unbroken("+++ x");
    UnbrokenReads(OPENED, "+++ x");
    assert "+++ x"[4..] == "x" && BeforeTab("x") == "x" && StripQuotes("x") == "x";
  }

  lemma LineAfterPluses()
    ensures ReadWhole(REDIRECTED, PrintEdit(Add("y"))).added == map["f" := [], "x" := [Added(1, "y")]]
  {
    assert Unbroken("+y") && PrintEdit(Add("y")) == "+" + "y" == "+y";
    hide ReadWhole, ReadLine, Unbroken;
    UnbrokenReads(REDIRECTED, "+y");
    AddReads(REDIRECTED, "y");
    assert [] + [Added(1, "y")] == [Added(1, "y")];
  }

  /** An added line that begins "++ " is dropped, and the line after it goes to a file that does not exist. */
  lemma PlusesRedirect() returns (d: FileDiff)
    ensures d == Change([Add("++ x"), Add("y")]) && AllPrintable(Quiet, [d])
    ensures Expected(map[], [d]) == map["f" := [Added(1, "++ x"), Added(2, "y")]]
    ensures Parsed(PrintDiff([], [d])) == map["f" := [], "x" := [Added(1, "y")]]
  {
    var edits := [Add("++ x"), Add("y")];
    d := Change(edits);
    assert edits[1..] == [Add("y")] && edits[1..][1..] == [];
    assert AddedIn(edits, 1) == [Added(1, "++ x"), Added(2, "y")];
    PlusesLine();
    LineAfterPluses();
    hide ReadWhole, PrintEdit, Expected, AllPrintable, Parsed, PrintDiff;
    ChangeReads(edits);
    AddsPrintable(edits);
    ReadPrinted(OPENED, edits);
    ReadPrinted(REDIRECTED, edits[1..]);
  }

  lemma DashReads()
    ensures ReadLine(OPENED, "-x") == OPENED
  {
    assert "-x"[0] == '-';
  }

  lemma DroppedLine()
    ensures ReadWhole(OPENED, PrintEdit(Drop("x\U{0C}+y"))) == FirstAdded("y")
  {
    hide ReadLine, ReadWhole;
    var raw := PrintEdit(Drop("x\U{0C}+y"));
    BrokenInTwo("-x", "+y");
    assert raw == "-x" + "\U{0C}" + "+y";
    ReadTwo(OPENED, raw, "-x", "+y");
    DashReads();
    FirstAddReads("y");
    assert "+" + "y" == "+y";
  }

  lemma LineAfterDropped()
    ensures ReadWhole(FirstAdded("y"), PrintEdit(Keep("z"))).added == map["f" := [Added(1, "y")]]
  {
    assert Unbroken(" z") && PrintEdit(Keep("z")) == " " + "z" == " z";
    hide ReadWhole, ReadLine, Unbroken;
    UnbrokenReads(FirstAdded("y"), " z");
    KeepReads(FirstAdded("y"), "z");
  }

  /**
   * Why what a break leaves over of a dropped line must be inert: here it reads as an addition that
   * the new file does not hold.
   */
  lemma DroppedTailAdds() returns (d: FileDiff)
    ensures d == Change([Drop("x\U{0C}+y"), Keep("z")]) && AllClear([d])
    ensures Expected(map[], [d]) == map["f" := []]
    ensures Parsed(PrintDiff([], [d])) == map["f" := [Added(1, "y")]]
  {
    var edits := [Drop("x\U{0C}+y"), Keep("z")];
    d := Change(edits);
    OneHunkClear("f", [], "", edits);
    assert edits[1..] == [Keep("z")] && edits[1..][1..] == [];
    assert AddedIn(edits, 1) == [];
    DroppedLine();
    LineAfterDropped();
    hide ReadWhole, PrintEdit, Expected, Parsed, PrintDiff, AllClear;
    ChangeReads(edits);
    ReadPrinted(OPENED, edits);
    ReadPrinted(FirstAdded("y"), edits[1..]);
  }
}
