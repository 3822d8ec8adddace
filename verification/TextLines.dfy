/**
 * How Python's splitlines breaks a text into lines: at more characters than the newline that ends
 * a line of a diff.
 */
module TextLines {
  /** The characters at which the source language's splitlines breaks a text. */
  predicate IsBreak(c: char) {
    || '\n' <= c <= '\r' || '\U{1C}' <= c <= '\U{1E}'
    || c == '\U{85}' || c == '\U{2028}' || c == '\U{2029}'
  }

  predicate Unbroken(s: string) {
    forall i :: 0 <= i < |s| ==> !IsBreak(s[i])
  }

  function LineEnd(s: string): (n: nat)
    ensures n <= |s| && Unbroken(s[..n]) && (n < |s| ==> IsBreak(s[n]))
  {
    if s == [] || IsBreak(s[0]) then 0 else 1 + LineEnd(s[1..])
  }

  /** Where the break at n ends, a carriage return and a newline being one break. */
  function BreakEnd(s: string, n: nat): (k: nat)
    requires n < |s|
    ensures n < k <= |s|
  {
    if n + 1 < |s| && s[n] == '\r' && s[n + 1] == '\n' then n + 2 else n + 1
  }

  /** What follows the first line and its break. */
  function AfterLine(s: string): (t: string)
    ensures s != [] ==> |t| < |s|
  {
    var n := LineEnd(s);
    if n == |s| then [] else s[BreakEnd(s, n)..]
  }

  function SplitLines(s: string): seq<string>
    decreases |s|
  {
    if s == [] then [] else [s[..LineEnd(s)]] + SplitLines(AfterLine(s))
  }

  function JoinLines(lines: seq<string>): string {
    if lines == [] then [] else lines[0] + "\n" + JoinLines(lines[1..])
  }

  /** What one printed line comes back as: a break character inside it breaks it further. */
  function Fragments(raw: string): (r: seq<string>)
    ensures r != []
  {
    SplitLines(raw + "\n")
  }

  function AllFragments(lines: seq<string>): seq<string> {
    if lines == [] then [] else Fragments(lines[0]) + AllFragments(lines[1..])
  }

  predicate Terminated(s: string) {
    s == [] || s[|s| - 1] == '\n'
  }

  lemma {:induction false} LineEndInside(s: string, t: string)
    requires s != [] && Terminated(s)
    ensures LineEnd(s) < |s| && LineEnd(s + t) == LineEnd(s)
  {
    if !IsBreak(s[0]) {
      LineEndInside(s[1..], t);
      assert (s + t)[1..] == s[1..] + t;
    }
  }

  lemma BreakEndInside(s: string, t: string, n: nat)
    requires Terminated(s) && n < |s|
    ensures BreakEnd(s + t, n) == BreakEnd(s, n)
  {
  }

  lemma SuffixOf(s: string, t: string, k: nat)
    requires Terminated(s) && k <= |s|
    ensures (s + t)[k..] == s[k..] + t && Terminated(s[k..])
  {
  }

  lemma AfterLineInside(s: string, t: string)
    requires s != [] && Terminated(s)
    ensures AfterLine(s + t) == AfterLine(s) + t && Terminated(AfterLine(s))
  {
    LineEndInside(s, t);
    hide LineEnd, Terminated, BreakEnd;
    BreakEndInside(s, t, LineEnd(s));
    SuffixOf(s, t, BreakEnd(s, LineEnd(s)));
  }

  /** Terminated text splits apart from what follows it. */
  lemma {:induction false} SplitApart(s: string, t: string)
    requires Terminated(s)
    ensures SplitLines(s + t) == SplitLines(s) + SplitLines(t)
    decreases |s|
  {
    hide LineEnd, AfterLine;
    if s == [] {
      assert s + t == t;
    } else {
      LineEndInside(s, t);
      AfterLineInside(s, t);
      SplitApart(AfterLine(s), t);
      assert (s + t)[..LineEnd(s)] == s[..LineEnd(s)];
      assert [s[..LineEnd(s)]] + (SplitLines(AfterLine(s)) + SplitLines(t)) == SplitLines(s) + SplitLines(t);
    }
  }

  /** A joined text splits into the fragments of its lines. */
  lemma {:induction false} SplitJoined(lines: seq<string>)
    ensures SplitLines(JoinLines(lines)) == AllFragments(lines)
  {
    if lines != [] {
      SplitJoined(lines[1..]);
      SplitApart(lines[0] + "\n", JoinLines(lines[1..]));
    }
  }

  lemma {:induction false} SplitUnbroken(s: string)
    ensures forall k :: 0 <= k < |SplitLines(s)| ==> Unbroken(SplitLines(s)[k])
    decreases |s|
  {
    hide AfterLine;
    if s != [] { SplitUnbroken(AfterLine(s)); }
  }

  lemma {:induction false} LineEndAfter(p: string, t: string)
    requires Unbroken(p)
    ensures LineEnd(p + t) == |p| + LineEnd(t)
  {
    if p == [] {
      assert p + t == t;
    } else {
      LineEndAfter(p[1..], t);
      assert (p + t)[1..] == p[1..] + t;
    }
  }

  /** The first fragment of a text, and what a break leaves over of it. */
  function First(t: string): string {
    Fragments(t)[0]
  }

  function Tail(t: string): seq<string> {
    Fragments(t)[1..]
  }

  lemma BreakEndAfter(p: string, t: string, n: nat)
    requires n < |t|
    ensures BreakEnd(p + t, |p| + n) == |p| + BreakEnd(t, n)
  {
  }

  lemma DropFront(p: string, t: string, k: nat)
    requires k <= |t|
    ensures (p + t)[|p| + k..] == t[k..]
  {
  }

  lemma AfterLineAt(s: string, n: nat)
    requires n == LineEnd(s)
    ensures AfterLine(s) == if n == |s| then [] else s[BreakEnd(s, n)..]
  {
  }

  lemma AfterLineAfter(p: string, t: string)
    requires Unbroken(p)
    ensures LineEnd(p + t) == |p| + LineEnd(t) && AfterLine(p + t) == AfterLine(t)
  {
    hide LineEnd, BreakEnd, Unbroken, AfterLine;
    LineEndAfter(p, t);
    var n := LineEnd(t);
    AfterLineAt(t, n);
    AfterLineAt(p + t, |p| + n);
    if n < |t| {
      BreakEndAfter(p, t, n);
      DropFront(p, t, BreakEnd(t, n));
    }
  }

  /** Unbroken text in front goes to the first fragment. */
  lemma FragmentsAfter(p: string, t: string)
    requires Unbroken(p)
    ensures Fragments(p + t) == [p + First(t)] + Tail(t)
  {
    var own := t + "\n";
    AfterLineAfter(p, own);
    hide LineEnd, AfterLine, Unbroken;
    assert p + t + "\n" == p + own;
    assert (p + own)[..|p| + LineEnd(own)] == p + own[..LineEnd(own)];
  }

  lemma UnbrokenFragments(t: string)
    requires Unbroken(t)
    ensures Fragments(t) == [t] && First(t) == t && Tail(t) == []
  {
    assert "" + "\n" == "\n" && LineEnd("\n") == 0 && AfterLine("\n") == "";
    assert Fragments("") == [""];
    FragmentsAfter(t, "");
    assert t + "" == t;
  }
}
