/**
 * Rows of a CP-3 loan workbook after cell normalisation, and the strict order
 * in which a reconciled universe is listed.
 */
module LoanRows {
  import opened Common
  import opened StringOrder
  import Decimal

  /** A present identifier is never empty: blank and N/A-like cells normalise to None. */
  type Id = s: string | |s| > 0 witness "-"

  /** A finite float. Negative zero compares equal to zero but is a different value. */
  datatype Number = NegativeZero | Finite(value: real)

  datatype Locator = Locator(sheet: string, row: nat)

  datatype Row = Row(
    figi: Option<Id>,
    bbg: Option<Id>,
    sector: string,
    borrower: Option<string>,
    texts: seq<Option<string>>,
    numbers: seq<Option<Number>>,
    key: string,
    locators: seq<Locator>)

  function Magnitude(n: Option<Number>): Option<Number> {
    if n == Some(NegativeZero) then Some(Finite(0.0)) else n
  }

  /**
   * What two rows are compared on: everything but the locators, with numbers
   * compared as the source language compares floats, so that -0.0 equals 0.0.
   */
  function Face(r: Row): Row {
    r.(numbers := seq(|r.numbers|, i requires 0 <= i < |r.numbers| => Magnitude(r.numbers[i])),
       locators := [])
  }

  /** The instrument key formed from a row's identifiers. */
  function KeyOf(r: Row): string
    requires r.locators != []
  {
    if r.figi.Some? then "FIGI:" + r.figi.value
    else if r.bbg.Some? then "BBG:" + r.bbg.value
    else "INVALID:" + r.sector + ":" + Decimal.Render(r.locators[0].row)
  }

  datatype Rank = Rank(sector: string, borrower: string, key: string)

  function RankOf(r: Row): Rank {
    Rank(r.sector, r.borrower.GetOr(""), r.key)
  }

  predicate RankLess(a: Rank, b: Rank) {
    || Less(a.sector, b.sector)
    || (a.sector == b.sector && Less(a.borrower, b.borrower))
    || (a.sector == b.sector && a.borrower == b.borrower && Less(a.key, b.key))
  }

  lemma RankOrder(a: Rank, b: Rank)
    ensures RankLess(a, b) || RankLess(b, a) <==> a != b
    ensures !(RankLess(a, b) && RankLess(b, a))
  {
    LessTotal(a.sector, b.sector);
    LessTotal(a.borrower, b.borrower);
    LessTotal(a.key, b.key);
    if Less(a.sector, b.sector) { LessAsymmetric(a.sector, b.sector); }
    if Less(a.borrower, b.borrower) { LessAsymmetric(a.borrower, b.borrower); }
    if Less(a.key, b.key) { LessAsymmetric(a.key, b.key); }
  }

  lemma RankTransitive(a: Rank, b: Rank, c: Rank)
    requires RankLess(a, b) && RankLess(b, c)
    ensures RankLess(a, c)
  {
    if Less(a.sector, b.sector) && Less(b.sector, c.sector) { LessTransitive(a.sector, b.sector, c.sector); }
    if Less(a.borrower, b.borrower) && Less(b.borrower, c.borrower) {
      LessTransitive(a.borrower, b.borrower, c.borrower);
    }
    if Less(a.key, b.key) && Less(b.key, c.key) { LessTransitive(a.key, b.key, c.key); }
  }

  ghost predicate Increasing(s: seq<Rank>) {
    forall i, j :: 0 <= i < j < |s| ==> RankLess(s[i], s[j])
  }

  lemma HasMember(x: seq<Rank>)
    ensures x != [] ==> exists r :: r in x
  {
    if x != [] { assert x[0] in x; }
  }

  /** A strictly increasing list is determined by its members. */
  lemma {:induction false} IncreasingUnique(x: seq<Rank>, y: seq<Rank>)
    requires Increasing(x) && Increasing(y)
    requires forall r :: r in x <==> r in y
    ensures x == y
  {
    HasMember(x);
    HasMember(y);
    if x != [] {
      assert x[0] in y;
      assert y[0] in x;
      if x[0] != y[0] {
        RankOrder(x[0], y[0]);
        assert false;
      }
      forall r ensures r in x[1..] <==> r in y[1..] {
        RankOrder(x[0], r);
        assert x == [x[0]] + x[1..] && y == [y[0]] + y[1..];
        if r in x[1..] { assert r in x; assert r in y; }
        if r in y[1..] { assert r in y; assert r in x; }
      }
      IncreasingUnique(x[1..], y[1..]);
      assert x == [x[0]] + x[1..] && y == [y[0]] + y[1..];
    }
  }

  /** The listing order: strictly increasing in sector, borrower and key. */
  ghost predicate Ordered(s: seq<Row>) {
    forall i, j :: 0 <= i < j < |s| ==> RankLess(RankOf(s[i]), RankOf(s[j]))
  }

  /** Insert after every row that does not follow r: the step of a stable sort. */
  function Insert(s: seq<Row>, r: Row): (t: seq<Row>)
    ensures multiset(t) == multiset(s) + multiset{r}
  {
    if s == [] then [r]
    else if RankLess(RankOf(r), RankOf(s[0])) then [r] + s
    else
      assert s == [s[0]] + s[1..];
      [s[0]] + Insert(s[1..], r)
  }

  function Sorted(s: seq<Row>): (t: seq<Row>)
    ensures multiset(t) == multiset(s)
  {
    if s == [] then []
    else
      assert s == s[..|s| - 1] + [s[|s| - 1]];
      Insert(Sorted(s[..|s| - 1]), s[|s| - 1])
  }

  ghost predicate DistinctKeys(s: seq<Row>) {
    forall i, j :: 0 <= i < j < |s| ==> s[i].key != s[j].key
  }

  lemma ConsOrdered(r: Row, s: seq<Row>)
    requires Ordered(s) && forall j :: 0 <= j < |s| ==> RankLess(RankOf(r), RankOf(s[j]))
    ensures Ordered([r] + s)
  {
    hide RankLess, RankOf;
  }

  lemma LeadsOrdered(r: Row, s: seq<Row>)
    requires Ordered(s) && s != [] && RankLess(RankOf(r), RankOf(s[0]))
    ensures Ordered([r] + s)
  {
    hide RankLess, RankOf;
    forall j | 0 < j < |s| ensures RankLess(RankOf(r), RankOf(s[j])) {
      RankTransitive(RankOf(r), RankOf(s[0]), RankOf(s[j]));
    }
    ConsOrdered(r, s);
  }

  lemma {:induction false} InsertOrdered(s: seq<Row>, r: Row)
    requires Ordered(s)
    requires forall i :: 0 <= i < |s| ==> s[i].key != r.key
    ensures Ordered(Insert(s, r))
  {
    hide RankLess;
    if s == [] {
    } else if RankLess(RankOf(r), RankOf(s[0])) {
      LeadsOrdered(r, s);
    } else {
      var u := Insert(s[1..], r);
      InsertOrdered(s[1..], r);
      forall j | 0 <= j < |u| ensures RankLess(RankOf(s[0]), RankOf(u[j])) {
        assert u[j] in multiset(u);
        if u[j] == r {
          RankOrder(RankOf(r), RankOf(s[0]));
        } else {
          assert u[j] in s[1..];
        }
      }
      ConsOrdered(s[0], u);
    }
  }

  lemma SameMembers(a: seq<Row>, b: seq<Row>)
    requires multiset(a) == multiset(b)
    ensures forall r :: r in a <==> r in b
    ensures |a| == |b|
  {
    forall r ensures r in a <==> r in b {
      assert r in a <==> r in multiset(a);
      assert r in b <==> r in multiset(b);
    }
    assert |multiset(a)| == |a| && |multiset(b)| == |b|;
  }

  /** Sorting rows with distinct keys yields a strictly increasing list of the same rows. */
  lemma {:induction false} SortedOrdered(s: seq<Row>)
    requires DistinctKeys(s)
    ensures Ordered(Sorted(s))
  {
    if s != [] {
      var front, r := s[..|s| - 1], s[|s| - 1];
      SortedOrdered(front);
      SameMembers(Sorted(front), front);
      forall i | 0 <= i < |front| ensures Sorted(front)[i].key != r.key {
        assert Sorted(front)[i] in front;
      }
      InsertOrdered(Sorted(front), r);
    }
  }

  lemma {:induction false} InsertLast(s: seq<Row>, r: Row)
    requires forall i :: 0 <= i < |s| ==> !RankLess(RankOf(r), RankOf(s[i]))
    ensures Insert(s, r) == s + [r]
  {
    if s != [] {
      InsertLast(s[1..], r);
      assert [s[0]] + (s[1..] + [r]) == s + [r];
    }
  }

  /** Sorting an increasing list leaves it alone. */
  lemma {:induction false} SortedFixed(s: seq<Row>)
    requires Ordered(s)
    ensures Sorted(s) == s
  {
    if s != [] {
      var front, r := s[..|s| - 1], s[|s| - 1];
      SortedFixed(front);
      forall i | 0 <= i < |front| ensures !RankLess(RankOf(r), RankOf(front[i])) {
        RankOrder(RankOf(front[i]), RankOf(r));
      }
      InsertLast(front, r);
    }
  }
}
