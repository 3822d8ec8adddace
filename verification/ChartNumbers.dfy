/**
 * The decimal normal form of chart values: a numeral's trailing zeros go, so that
 * one number has one spelling, the one the chart contract accepts.
 */
module ChartNumbers {
  import opened Common
  import opened Decimal

  const MAX_LENGTH := 128

  /** A cell's value: absent or boolean cells are no number, anything else is read from its text. */
  datatype CellValue = NoNumber | Text(text: string)

  /** A numeral taken apart: an optional minus, a whole part, and what follows the point, if any. */
  datatype Numeral = Numeral(negative: bool, whole: string, fraction: string)

  predicate WholeOk(s: string) {
    s != [] && AllDigits(s) && (s[0] == '0' ==> |s| == 1)
  }

  predicate Valid(n: Numeral) {
    WholeOk(n.whole) && AllDigits(n.fraction)
  }

  function Unsigned(n: Numeral): string {
    n.whole + (if n.fraction == [] then "" else "." + n.fraction)
  }

  function Spell(n: Numeral): string {
    (if n.negative then "-" else "") + Unsigned(n)
  }

  function DotAt(s: string): (i: nat)
    ensures i <= |s| && (i < |s| ==> s[i] == '.') && forall j :: 0 <= j < i ==> s[j] != '.'
  {
    if s == [] || s[0] == '.' then 0 else 1 + DotAt(s[1..])
  }

  /** The accepted syntax: -?(0|[1-9][0-9]*)(.[0-9]+)? */
  function Parse(text: string): Option<Numeral> {
    var negative := text != [] && text[0] == '-';
    ParseUnsigned(negative, if negative then text[1..] else text)
  }

  function ParseUnsigned(negative: bool, body: string): Option<Numeral> {
    var i := DotAt(body);
    var n := Numeral(negative, body[..i], if i < |body| then body[i + 1..] else []);
    if Valid(n) && (i < |body| ==> n.fraction != []) then Some(n) else None
  }

  function FractionValue(s: string): real
    requires AllDigits(s)
  {
    if s == [] then 0.0 else (DigitValue(s[0]) as real + FractionValue(s[1..])) / 10.0
  }

  function Magnitude(n: Numeral): real
    requires Valid(n)
  {
    Value(n.whole) as real + FractionValue(n.fraction)
  }

  /** The number a numeral denotes. */
  function Denotes(n: Numeral): real
    requires Valid(n)
  {
    if n.negative then -Magnitude(n) else Magnitude(n)
  }

  function StripRight(s: string, c: char): (t: string)
    ensures t <= s
    ensures t != [] ==> t[|t| - 1] != c
    ensures forall i :: |t| <= i < |s| ==> s[i] == c
  {
    if s != [] && s[|s| - 1] == c then StripRight(s[..|s| - 1], c) else s
  }

  /** Trailing zeros go from a text with a point, and then a trailing point. */
  function Stripped(text: string): string {
    if DotAt(text) < |text| then StripRight(StripRight(text, '0'), '.') else text
  }

  function Normalize(v: CellValue): Option<string> {
    if v.NoNumber? || |v.text| > MAX_LENGTH then None
    else
      match Parse(v.text)
      case None => None
      case Some(n) =>
        if Denotes(n) == 0.0 then Some("0") else Some(Stripped(v.text))
  }

  /** The chart contract: -?(0|[1-9][0-9]*)(.[0-9]*[1-9])?, never "-0". */
  predicate Canonical(n: Numeral) {
    && Valid(n)
    && (n.fraction != [] ==> n.fraction[|n.fraction| - 1] != '0')
    && !(n.negative && n.whole == "0" && n.fraction == [])
  }

  predicate IsChartNumber(s: string) {
    |s| <= MAX_LENGTH && Parse(s).Some? && Canonical(Parse(s).value)
  }

  // ----- Taking apart and spelling -----

  lemma ParseSpells(text: string)
    requires Parse(text).Some?
    ensures Valid(Parse(text).value) && Spell(Parse(text).value) == text
  {
    hide ParseUnsigned, Valid, Unsigned;
    var negative := text != [] && text[0] == '-';
    UnsignedSpells(negative, if negative then text[1..] else text);
  }

  lemma UnsignedSpells(negative: bool, body: string)
    requires ParseUnsigned(negative, body).Some?
    ensures var n := ParseUnsigned(negative, body).value; Valid(n) && n.negative == negative && Unsigned(n) == body
  {
    hide AllDigits, DotAt, WholeOk;
    var i := DotAt(body);
    assert i < |body| ==> body == body[..i] + ("." + body[i + 1..]);
  }

  lemma NoDots(s: string)
    requires AllDigits(s)
    ensures DotAt(s) == |s|
  {
    assert DotAt(s) < |s| ==> IsDigit(s[DotAt(s)]);
  }

  lemma {:induction false} DotAfter(s: string, t: string)
    requires AllDigits(s)
    ensures DotAt(s + "." + t) == |s|
  {
    var all := s + "." + t;
    assert all[|s|] == '.';
    assert forall i :: 0 <= i < |s| ==> all[i] == s[i] && IsDigit(s[i]);
  }

  lemma SpellParses(n: Numeral)
    requires Valid(n)
    ensures Parse(Spell(n)) == Some(n)
  {
    hide ParseUnsigned;
    assert Unsigned(n)[0] == n.whole[0] && IsDigit(n.whole[0]);
    UnsignedParses(n);
    assert n.negative ==> Spell(n)[1..] == Unsigned(n);
    assert !n.negative ==> Spell(n) == Unsigned(n);
  }

  lemma UnsignedParses(n: Numeral)
    requires Valid(n)
    ensures ParseUnsigned(n.negative, Unsigned(n)) == Some(n)
  {
    hide DotAt, AllDigits;
    var body := Unsigned(n);
    if n.fraction == [] {
      assert body == n.whole;
      NoDots(n.whole);
    } else {
      assert body == n.whole + "." + n.fraction;
      DotAfter(n.whole, n.fraction);
      assert body[|n.whole| + 1..] == n.fraction;
    }
    assert body[..|n.whole|] == n.whole;
  }

  // ----- The normal form of a numeral -----

  function Reduce(n: Numeral): Numeral
    requires Valid(n)
  {
    if Denotes(n) == 0.0 then Numeral(false, "0", "") else n.(fraction := StripRight(n.fraction, '0'))
  }

  lemma {:induction false} FractionRange(s: string)
    requires AllDigits(s)
    ensures 0.0 <= FractionValue(s) < 1.0
    ensures s != [] && s[|s| - 1] != '0' ==> FractionValue(s) > 0.0
  {
    if s != [] {
      FractionRange(s[1..]);
      if |s| > 1 { assert s[1..][|s| - 2] == s[|s| - 1]; }
    }
  }

  lemma {:induction false} FractionZeros(s: string, t: string)
    requires AllDigits(s) && AllDigits(t) && t <= s && forall i :: |t| <= i < |s| ==> s[i] == '0'
    ensures FractionValue(s) == FractionValue(t)
  {
    if s == [] {
    } else if t == [] {
      FractionZeros(s[1..], []);
    } else {
      FractionZeros(s[1..], t[1..]);
    }
  }

  lemma {:induction false} WholePositive(s: string)
    requires AllDigits(s) && s != [] && s[0] != '0'
    ensures Value(s) > 0
  {
    if |s| > 1 { WholePositive(s[..|s| - 1]); }
  }

  /** Only the numeral 0 is canonical for zero. */
  lemma CanonicalZero(n: Numeral)
    requires Canonical(n)
    ensures Magnitude(n) >= 0.0
    ensures Magnitude(n) == 0.0 <==> n.whole == "0" && n.fraction == []
  {
    FractionRange(n.fraction);
    if n.whole[0] != '0' {
      WholePositive(n.whole);
    } else {
      assert n.whole == "0" && n.whole[..0] == [];
      assert Value(n.whole) == 0;
    }
  }

  lemma ReduceCanonical(n: Numeral)
    requires Valid(n)
    ensures Canonical(Reduce(n)) && Denotes(Reduce(n)) == Denotes(n)
  {
    assert Value("0") == 0 by { assert "0"[..0] == []; }
    if Denotes(n) != 0.0 {
      var t := StripRight(n.fraction, '0');
      FractionZeros(n.fraction, t);
    }
  }

  lemma {:induction false} WholeUnique(a: string, b: string)
    requires WholeOk(a) && WholeOk(b) && Value(a) == Value(b)
    ensures a == b
  {
    var m, n := |a| - 1, |b| - 1;
    if m == 0 && n == 0 {
      assert a[..0] == [] && b[..0] == [];
      assert a == [a[0]] && b == [b[0]];
    } else if m == 0 || n == 0 {
      if m == 0 { assert a[..0] == []; WholePositive(b[..n]); }
      if n == 0 { assert b[..0] == []; WholePositive(a[..m]); }
      assert false;
    } else {
      WholeUnique(a[..m], b[..n]);
      assert a == a[..m] + [a[m]] && b == b[..n] + [b[n]];
    }
  }

  ghost predicate Trimmed(s: string) {
    s != [] ==> s[|s| - 1] != '0'
  }

  lemma HeadUnique(c: char, d: char, x: real, y: real)
    requires IsDigit(c) && IsDigit(d) && 0.0 <= x < 1.0 && 0.0 <= y < 1.0
    requires (DigitValue(c) as real + x) / 10.0 == (DigitValue(d) as real + y) / 10.0
    ensures c == d && x == y
  {
    assert DigitValue(c) as real + x == DigitValue(d) as real + y;
    assert DigitValue(c) == DigitValue(d);
  }

  lemma {:induction false} FractionUnique(a: string, b: string)
    requires AllDigits(a) && AllDigits(b) && Trimmed(a) && Trimmed(b)
    requires FractionValue(a) == FractionValue(b)
    ensures a == b
  {
    FractionRange(a);
    FractionRange(b);
    if a != [] && b != [] {
      FractionRange(a[1..]);
      FractionRange(b[1..]);
      HeadUnique(a[0], b[0], FractionValue(a[1..]), FractionValue(b[1..]));
      FractionUnique(a[1..], b[1..]);
      assert a == [a[0]] + a[1..] && b == [b[0]] + b[1..];
    }
  }

  /** Each number has at most one canonical numeral. */
  lemma CanonicalUnique(a: Numeral, b: Numeral)
    requires Canonical(a) && Canonical(b) && Denotes(a) == Denotes(b)
    ensures a == b
  {
    CanonicalZero(a);
    CanonicalZero(b);
    FractionRange(a.fraction);
    FractionRange(b.fraction);
    assert Magnitude(a) == Magnitude(b);
    assert Value(a.whole) == Value(b.whole);
    WholeUnique(a.whole, b.whole);
    FractionUnique(a.fraction, b.fraction);
  }

  // ----- The function on text -----

  lemma {:induction false} StripRightOf(s: string, t: string, c: char)
    ensures StripRight(s + t, c) == if StripRight(t, c) == [] then StripRight(s, c) else s + StripRight(t, c)
  {
    if t == [] {
      assert s + t == s;
    } else {
      var n := |t| - 1;
      assert (s + t)[..|s + t| - 1] == s + t[..n];
      if t[n] == c { StripRightOf(s, t[..n], c); }
    }
  }

  lemma FractionStrips(fraction: string)
    ensures StripRight("." + fraction, '0') == "." + StripRight(fraction, '0')
  {
    StripRightOf(".", fraction, '0');
    assert StripRight(".", '0') == ".";
    assert "." + "" == ".";
  }

  lemma PointStrips(t: string)
    requires AllDigits(t)
    ensures StripRight("." + t, '.') == if t == [] then "" else "." + t
  {
    if t == [] {
      assert "." + t == "." && "."[..0] == [];
    } else {
      assert IsDigit(("." + t)[|t|]);
    }
  }

  lemma StrippedDigits(fraction: string)
    requires AllDigits(fraction)
    ensures AllDigits(StripRight(fraction, '0'))
  {
  }

  lemma HeadStrips(head: string)
    requires head != [] && IsDigit(head[|head| - 1])
    ensures StripRight(head, '.') == head
  {
  }

  /** The two strips on a spelling with a point leave the spelling of the stripped fraction. */
  lemma StripsSpell(head: string, fraction: string)
    requires head != [] && IsDigit(head[|head| - 1]) && AllDigits(fraction)
    ensures var t := StripRight(fraction, '0');
            StripRight(StripRight(head + ("." + fraction), '0'), '.') == head + (if t == [] then "" else "." + t)
  {
    hide StripRight, AllDigits;
    var t := StripRight(fraction, '0');
    FractionStrips(fraction);
    StripRightOf(head, "." + fraction, '0');
    StrippedDigits(fraction);
    PointStrips(t);
    StripRightOf(head, "." + t, '.');
    HeadStrips(head);
    assert head + "" == head;
  }

  function Head(n: Numeral): string {
    (if n.negative then "-" else "") + n.whole
  }

  /** A spelling is its head, and a point and the fraction when there is one. */
  lemma SpellingParts(n: Numeral)
    requires Valid(n)
    ensures Head(n) != [] && IsDigit(Head(n)[|Head(n)| - 1])
    ensures Spell(n) == if n.fraction == [] then Head(n) else Head(n) + ("." + n.fraction)
    ensures DotAt(Spell(n)) < |Spell(n)| <==> n.fraction != []
  {
    var head := Head(n);
    assert forall i :: 0 <= i < |head| ==> head[i] != '.';
    if n.fraction == [] {
      assert Spell(n) == head;
    } else {
      assert Spell(n) == head + ("." + n.fraction) && Spell(n)[|head|] == '.';
    }
  }

  lemma ReducedParts(n: Numeral)
    requires Valid(n) && Denotes(n) != 0.0
    ensures Head(Reduce(n)) == Head(n) && Reduce(n).fraction == StripRight(n.fraction, '0') && Valid(Reduce(n))
  {
    hide Denotes, StripRight;
  }

  lemma StrippedReduces(n: Numeral)
    requires Valid(n) && Denotes(n) != 0.0
    ensures Stripped(Spell(n)) == Spell(Reduce(n))
  {
    hide Denotes, StripRight, Spell, DotAt, AllDigits, WholeOk, Head, Reduce;
    ReducedParts(n);
    SpellingParts(n);
    SpellingParts(Reduce(n));
    if n.fraction != [] {
      StripsSpell(Head(n), n.fraction);
      assert Head(n) + "" == Head(n);
    } else {
      assert StripRight(n.fraction, '0') == [];
    }
  }

  /** The two strips on the text are the reduction of the numeral. */
  lemma NormalizeReduces(text: string)
    requires |text| <= MAX_LENGTH && Parse(text).Some?
    ensures Normalize(Text(text)) == Some(Spell(Reduce(Parse(text).value)))
  {
    var n := Parse(text).value;
    ParseSpells(text);
    if Denotes(n) != 0.0 {
      StrippedReduces(n);
      hide Parse, StripRight, Denotes, Spell, Reduce, DotAt;
    } else {
      hide Parse, StripRight, Denotes, DotAt;
      assert Spell(Numeral(false, "0", "")) == "0";
    }
  }

  /**
   * Normalisation accepts exactly the numerals of at most 128 characters. Its result meets the
   * chart contract, denotes the same number, is no longer than the text, and normalises to itself.
   */
  lemma NormalForm(text: string)
    ensures Normalize(Text(text)).Some? <==> |text| <= MAX_LENGTH && Parse(text).Some?
    ensures Normalize(Text(text)).Some? ==>
      var out := Normalize(Text(text)).value;
      && IsChartNumber(out) && |out| <= |text|
      && Denotes(Parse(out).value) == Denotes(Parse(text).value)
      && Normalize(Text(out)) == Some(out)
  {
    if |text| <= MAX_LENGTH && Parse(text).Some? {
      var n := Parse(text).value;
      NormalizeReduces(text);
      ReduceCanonical(n);
      SpellParses(Reduce(n));
      ParseSpells(text);
      var out := Spell(Reduce(n));
      assert |out| <= |text|;
      ChartNumberFixed(out);
    }
  }

  /** Every chart number is its own normal form: nothing the contract accepts is out of reach. */
  lemma ChartNumberFixed(s: string)
    requires IsChartNumber(s)
    ensures Normalize(Text(s)) == Some(s)
  {
    var n := Parse(s).value;
    NormalizeReduces(s);
    ReduceCanonical(n);
    CanonicalUnique(Reduce(n), n);
    ParseSpells(s);
  }

  /** The normal form is the spelling of a canonical numeral that denotes the same number. */
  lemma NormalNumeral(text: string) returns (c: Numeral)
    requires Normalize(Text(text)).Some?
    ensures Parse(text).Some? && Valid(Parse(text).value) && Canonical(c) && Denotes(c) == Denotes(Parse(text).value)
    ensures Normalize(Text(text)) == Some(Spell(c)) && Parse(Spell(c)) == Some(c)
  {
    NormalizeReduces(text);
    ParseSpells(text);
    c := Reduce(Parse(text).value);
    ReduceCanonical(Parse(text).value);
    SpellParses(c);
  }

  /** Two accepted numerals get one spelling exactly when they denote one number. */
  lemma SameNumberSameSpelling(a: string, b: string)
    requires Normalize(Text(a)).Some? && Normalize(Text(b)).Some?
    ensures Parse(a).Some? && Valid(Parse(a).value) && Parse(b).Some? && Valid(Parse(b).value)
    ensures Normalize(Text(a)) == Normalize(Text(b)) <==> Denotes(Parse(a).value) == Denotes(Parse(b).value)
  {
    hide Normalize, Parse, Spell, Denotes;
    var c := NormalNumeral(a);
    var d := NormalNumeral(b);
    if Denotes(c) == Denotes(d) {
      CanonicalUnique(c, d);
    }
  }

  // ----- The accepted texts and their numbers, without the parser -----

  ghost predicate Figures(s: string) {
    forall i :: 0 <= i < |s| ==> '0' <= s[i] <= '9'
  }

  /** Zero alone, or figures that do not begin with zero. */
  ghost predicate WholePart(s: string) {
    s == "0" || (s != "" && Figures(s) && s[0] != '0')
  }

  function Sign(minus: bool): string {
    if minus then "-" else ""
  }

  /** A whole part behind a minus or none, and nothing more or a point and at least one figure. */
  ghost predicate Reads(text: string, minus: bool, whole: string, decimals: string) {
    && WholePart(whole) && Figures(decimals)
    && text == Sign(minus) + whole + (if decimals == "" then "" else "." + decimals)
  }

  lemma WholePartExactly(s: string)
    ensures WholeOk(s) <==> WholePart(s)
  {
    if WholeOk(s) && s[0] == '0' { assert s == ['0']; }
  }

  lemma ReadsSpells(text: string, n: Numeral)
    ensures Valid(n) && text == Spell(n) <==> Reads(text, n.negative, n.whole, n.fraction)
  {
    WholePartExactly(n.whole);
    assert Spell(n) == Sign(n.negative) + n.whole + (if n.fraction == "" then "" else "." + n.fraction);
  }

  /** The accepted texts are the written numerals of at most 128 characters, negative ones included. */
  lemma AcceptedExactly(text: string)
    ensures Normalize(Text(text)).Some? <==>
      |text| <= 128 && exists minus: bool, whole: string, decimals: string :: Reads(text, minus, whole, decimals)
  {
    hide Reads, Valid, Spell;
    if Parse(text).Some? {
      ParseSpells(text);
      var n := Parse(text).value;
      ReadsSpells(text, n);
    }
    if minus: bool, whole: string, decimals: string :| Reads(text, minus, whole, decimals) {
      var n := Numeral(minus, whole, decimals);
      ReadsSpells(text, n);
      SpellParses(n);
    }
  }

  lemma ScaleStep(d: int, p: int, v: int, e: int)
    ensures (d * p + v) * 10 + e == d * (10 * p) + (v * 10 + e)
  {
  }

  lemma PowerSteps(k: nat)
    ensures Power(0) == 1 && Power(k + 1) == 10 * Power(k)
  {
  }

  /** Reading two strings of figures as one: the first is moved up by the length of the second. */
  lemma {:induction false} ValueJoined(s: string, t: string)
    requires AllDigits(s) && AllDigits(t)
    ensures Value(s + t) == Value(s) * Power(|t|) + Value(t)
  {
    hide Power;
    var m := |t| - 1;
    if t == "" {
      assert s + t == s;
      PowerSteps(0);
    } else {
      ValueJoined(s, t[..m]);
      assert (s + t)[..|s + t| - 1] == s + t[..m] && (s + t)[|s + t| - 1] == t[m];
      ScaleStep(Value(s), Power(m), Value(t[..m]), DigitValue(t[m]));
      PowerSteps(m);
    }
  }

  lemma ProductAsReal(a: int, b: int)
    ensures (a * b) as real == a as real * b as real
  {
  }

  lemma TenthsScale(d: int, x: real, p: int, v: int)
    requires x * p as real == v as real
    ensures (d as real + x) / 10.0 * (10 * p) as real == (d * p + v) as real
  {
    var f, q := (d as real + x) / 10.0, p as real;
    ProductAsReal(d, p);
    assert f * 10.0 == d as real + x;
    assert f * (10.0 * q) == f * 10.0 * q;
    Distributes(d as real, x, q);
  }

  lemma {:induction false} FractionScaled(s: string)
    requires AllDigits(s)
    ensures FractionValue(s) * Power(|s|) as real == Value(s) as real
  {
    if s != "" {
      FractionScaled(s[1..]);
      FirstScaled(s);
    }
  }

  lemma FirstScaled(s: string)
    requires AllDigits(s) && s != ""
    requires FractionValue(s[1..]) * Power(|s| - 1) as real == Value(s[1..]) as real
    ensures FractionValue(s) * Power(|s|) as real == Value(s) as real
  {
    hide Power, Value, FractionValue;
    FirstFigure(s);
    TenthsScale(DigitValue(s[0]), FractionValue(s[1..]), Power(|s| - 1), Value(s[1..]));
  }

  lemma FirstFigure(s: string)
    requires AllDigits(s) && s != ""
    ensures Value(s) == DigitValue(s[0]) * Power(|s| - 1) + Value(s[1..])
    ensures FractionValue(s) == (DigitValue(s[0]) as real + FractionValue(s[1..])) / 10.0
    ensures Power(|s|) == 10 * Power(|s| - 1)
  {
    ValueJoined([s[0]], s[1..]);
    assert s == [s[0]] + s[1..] && [s[0]][..0] == "";
    assert Value([s[0]]) == DigitValue(s[0]);
  }

  lemma Distributes(w: real, x: real, p: real)
    ensures (w + x) * p == w * p + x * p && -(w + x) * p == -(w * p + x * p)
  {
  }

  /** The number of a numeral: all its figures read together, over ten for each decimal. */
  lemma DenotesScaled(n: Numeral)
    requires Valid(n)
    ensures AllDigits(n.whole + n.fraction)
    ensures var all := Value(n.whole + n.fraction) as real;
            Denotes(n) * Power(|n.fraction|) as real == if n.negative then -all else all
  {
    hide Power, Value, FractionValue;
    var p := Power(|n.fraction|);
    FractionScaled(n.fraction);
    ValueJoined(n.whole, n.fraction);
    ProductAsReal(Value(n.whole), p);
    Distributes(Value(n.whole) as real, FractionValue(n.fraction), p as real);
  }

  function Printed(z: int): string {
    if z < 0 then "-" + Render(-z) else Render(z)
  }

  lemma {:induction false} RenderWhole(n: nat)
    ensures WholeOk(Render(n))
  {
    if n >= 10 {
      RenderWhole(n / 10);
      assert Render(n)[0] == Render(n / 10)[0];
      ValueOfRender(n / 10);
      assert Value("0") == 0 by { assert "0"[..0] == ""; }
    }
  }

  /** Every integer that prints in 128 characters, negative ones included, is kept as it is printed. */
  lemma IntegersKept(z: int)
    requires |Printed(z)| <= 128
    ensures Normalize(Text(Printed(z))) == Some(Printed(z))
    ensures Parse(Printed(z)).Some? && Valid(Parse(Printed(z)).value) && Denotes(Parse(Printed(z)).value) == z as real
  {
    var m: nat := if z < 0 then -z else z;
    var n := Numeral(z < 0, Render(m), "");
    RenderWhole(m);
    ValueOfRender(m);
    SpellParses(n);
    assert Spell(n) == Printed(z);
    assert Denotes(n) == z as real;
    assert Canonical(n) by { assert "0"[..0] == ""; }
    ChartNumberFixed(Printed(z));
  }
}
