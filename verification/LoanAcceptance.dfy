/**
 * Reconciliation stated on the workbook's rows alone: which workbooks are accepted, what is listed for
 * which rows and in which order, and which findings are raised at which row.
 */
module LoanAcceptance {
  import opened Common
  import opened LoanRows
  import opened LoanReconciliation
  import opened LoanTheorems
  import opened StringOrder

  // ----- Rows, as the workbook states them -----

  /** A row with a borrower's name and some identifier. */
  predicate HasRequired(r: Row) {
    r.borrower.Some? && r.borrower.value != "" && (r.figi.Some? || r.bbg.Some?)
  }

  function ValueOf(n: Number): real {
    match n
    case NegativeZero => 0.0
    case Finite(value) => value
  }

  /** Equal as floats are compared: absent alike, or of one value, whatever the sign of a zero. */
  predicate SameNumber(a: Option<Number>, b: Option<Number>) {
    match (a, b)
    case (None, None) => true
    case (Some(x), Some(y)) => ValueOf(x) == ValueOf(y)
    case _ => false
  }

  /** The same values in every field but identifiers, key and locators. */
  predicate SameValues(r: Row, s: Row) {
    && r.sector == s.sector && r.borrower == s.borrower && r.texts == s.texts
    && |r.numbers| == |s.numbers| && forall i :: 0 <= i < |r.numbers| ==> SameNumber(r.numbers[i], s.numbers[i])
  }

  /** Some row states this FIGI and this Bloomberg id together. */
  ghost predicate Stated(rows: seq<Row>, f: Option<Id>, b: Option<Id>) {
    f.Some? && b.Some? && exists t :: t in rows && t.figi == f && t.bbg == b
  }

  /** Two rows name one instrument: by a common identifier, or by two that some row states together. */
  ghost predicate SameInstrument(rows: seq<Row>, r: Row, s: Row) {
    || (r.figi.Some? && r.figi == s.figi)
    || (r.bbg.Some? && r.bbg == s.bbg)
    || Stated(rows, r.figi, s.bbg)
    || Stated(rows, s.figi, r.bbg)
  }

  /** Each FIGI is stated with one Bloomberg id and each Bloomberg id with one FIGI. */
  ghost predicate OneToOne(rows: seq<Row>) {
    forall r, s :: r in rows && s in rows && r.figi.Some? && r.bbg.Some? && s.figi.Some? && s.bbg.Some? ==>
      (r.figi == s.figi <==> r.bbg == s.bbg)
  }

  // ----- The functions of the reconciliation, on those terms -----

  lemma CompleteRows(r: Row)
    requires r.locators != []
    ensures RowFindings(r) == [] <==> HasRequired(r)
  {
  }

  lemma OneToOneExactly(rows: seq<Row>)
    ensures OneToOne(rows) <==> Bijective(Pairs(rows))
  {
    if OneToOne(rows) {
      forall p, q | p in Pairs(rows) && q in Pairs(rows) ensures p.0 == q.0 <==> p.1 == q.1 {
        var r :| r in rows && Paired(r) && p == (r.figi.value, r.bbg.value);
        var s :| s in rows && Paired(s) && q == (s.figi.value, s.bbg.value);
      }
    }
    if Bijective(Pairs(rows)) {
      forall r, s | r in rows && s in rows && Paired(r) && Paired(s) ensures r.figi == s.figi <==> r.bbg == s.bbg {
        var p, q := (r.figi.value, r.bbg.value), (s.figi.value, s.bbg.value);
        assert p in Pairs(rows) && q in Pairs(rows);
      }
    }
  }

  lemma StatedExactly(rows: seq<Row>, f: Id, b: Id)
    ensures Stated(rows, Some(f), Some(b)) <==> (f, b) in Pairs(rows)
  {
    if Stated(rows, Some(f), Some(b)) {
      var t :| t in rows && t.figi == Some(f) && t.bbg == Some(b);
      assert Paired(t) && (f, b) == (t.figi.value, t.bbg.value);
    }
  }

  lemma NotStated(rows: seq<Row>, f: Option<Id>, b: Option<Id>)
    requires f.None? || b.None?
    ensures !Stated(rows, f, b)
  {
  }

  lemma SameNumberExactly(a: Option<Number>, b: Option<Number>)
    ensures SameNumber(a, b) <==> Magnitude(a) == Magnitude(b)
  {
  }

  /** Rows compare equal when identifiers and key agree and every other field does. */
  lemma FaceExactly(r: Row, s: Row)
    ensures Face(r) == Face(s) <==> r.figi == s.figi && r.bbg == s.bbg && r.key == s.key && SameValues(r, s)
  {
    forall i | 0 <= i < |r.numbers| && i < |s.numbers|
      ensures SameNumber(r.numbers[i], s.numbers[i]) <==> Magnitude(r.numbers[i]) == Magnitude(s.numbers[i])
    {
      SameNumberExactly(r.numbers[i], s.numbers[i]);
    }
    if Face(r) == Face(s) {
      FaceFields(r, s);
      assert r.texts == Face(r).texts && s.texts == Face(s).texts;
      assert r.sector == Face(r).sector && r.borrower == Face(r).borrower;
      assert Face(r).numbers == Face(s).numbers && |r.numbers| == |Face(r).numbers| && |s.numbers| == |Face(s).numbers|;
      forall i | 0 <= i < |r.numbers| ensures SameNumber(r.numbers[i], s.numbers[i]) {
        assert Face(r).numbers[i] == Magnitude(r.numbers[i]) && Face(s).numbers[i] == Magnitude(s.numbers[i]);
      }
    }
    if SameValues(r, s) {
      assert Face(r).numbers == Face(s).numbers;
    }
  }

  /** What completion does: an identifier is stated, or stated by some row with the one that is. */
  lemma CompletionStates(rows: seq<Row>, r: Row, f: Id, b: Id)
    requires Located(rows) && OneToOne(rows) && r in rows
    ensures var c := Completed(LinkAll(rows), r);
            && (c.figi == Some(f) <==> r.figi == Some(f) || (r.figi.None? && Stated(rows, Some(f), r.bbg)))
            && (c.bbg == Some(b) <==> r.bbg == Some(b) || (r.bbg.None? && Stated(rows, r.figi, Some(b))))
  {
    hide Pairs, LinkAll, LinkAllFindings, OneToOne, Bijective, Stated;
    OneToOneExactly(rows);
    LinksClean(rows);
    if r.bbg.Some? { StatedExactly(rows, f, r.bbg.value); } else { NotStated(rows, Some(f), r.bbg); }
    if r.figi.Some? { StatedExactly(rows, r.figi.value, b); } else { NotStated(rows, r.figi, Some(b)); }
  }

  lemma CompletionKeepsValues(m: Links, r: Row)
    requires r.locators != []
    ensures SameValues(Completed(m, r), r)
  {
  }

  lemma SameValuesJoin(r: Row, s: Row, c: Row, d: Row)
    requires SameValues(c, r) && SameValues(d, s)
    ensures SameValues(r, s) <==> SameValues(c, d)
  {
    if |r.numbers| == |s.numbers| {
      forall i | 0 <= i < |r.numbers|
        ensures SameNumber(r.numbers[i], s.numbers[i]) <==> SameNumber(c.numbers[i], d.numbers[i])
      {
        assert SameNumber(c.numbers[i], r.numbers[i]) && SameNumber(d.numbers[i], s.numbers[i]);
      }
    }
  }

  /** Row c is row r completed: each identifier is r's own or stated with r's other one. */
  ghost predicate Completes(rows: seq<Row>, r: Row, c: Row) {
    && (forall f: Id :: c.figi == Some(f) <==> r.figi == Some(f) || (r.figi.None? && Stated(rows, Some(f), r.bbg)))
    && (forall b: Id :: c.bbg == Some(b) <==> r.bbg == Some(b) || (r.bbg.None? && Stated(rows, r.figi, Some(b))))
  }

  lemma CompletionCompletes(rows: seq<Row>, r: Row)
    requires Located(rows) && OneToOne(rows) && r in rows
    ensures Completes(rows, r, Completed(LinkAll(rows), r)) && SameValues(Completed(LinkAll(rows), r), r)
  {
    hide LinkAll, Completed, SameValues, Stated, OneToOne;
    forall f: Id, b: Id
      ensures var c := Completed(LinkAll(rows), r);
              && (c.figi == Some(f) <==> r.figi == Some(f) || (r.figi.None? && Stated(rows, Some(f), r.bbg)))
              && (c.bbg == Some(b) <==> r.bbg == Some(b) || (r.bbg.None? && Stated(rows, r.figi, Some(b))))
    {
      CompletionStates(rows, r, f, b);
    }
    CompletionKeepsValues(LinkAll(rows), r);
  }

  lemma StatedOnce(rows: seq<Row>, f: Option<Id>, g: Option<Id>, b: Option<Id>, a: Option<Id>)
    requires OneToOne(rows) && Stated(rows, f, b) && Stated(rows, g, a)
    ensures f == g <==> b == a
  {
    var t :| t in rows && t.figi == f && t.bbg == b;
    var u :| u in rows && u.figi == g && u.bbg == a;
  }

  lemma SharedFigi(rows: seq<Row>, r: Row, s: Row, c: Row, d: Row, f: Id)
    requires OneToOne(rows) && Completes(rows, r, c) && Completes(rows, s, d)
    requires c.figi == Some(f) == d.figi
    ensures SameInstrument(rows, r, s)
  {
    hide OneToOne, Stated;
    if r.figi.None? && s.figi.None? {
      StatedOnce(rows, Some(f), Some(f), r.bbg, s.bbg);
      StatedHas(rows, Some(f), r.bbg);
    }
  }

  lemma SharedBbg(rows: seq<Row>, r: Row, s: Row, c: Row, d: Row, b: Id)
    requires OneToOne(rows) && Completes(rows, r, c) && Completes(rows, s, d)
    requires c.bbg == Some(b) == d.bbg
    ensures SameInstrument(rows, r, s)
  {
    hide OneToOne, Stated;
    if r.bbg.None? && s.bbg.None? {
      StatedOnce(rows, r.figi, s.figi, Some(b), Some(b));
      StatedHas(rows, r.figi, Some(b));
    }
  }

  lemma StatedHas(rows: seq<Row>, f: Option<Id>, b: Option<Id>)
    requires Stated(rows, f, b)
    ensures f.Some? && b.Some?
  {
  }

  lemma JoinedShare(rows: seq<Row>, r: Row, s: Row, c: Row, d: Row)
    requires OneToOne(rows) && s in rows && Completes(rows, r, c) && Completes(rows, s, d)
    requires Stated(rows, r.figi, s.bbg)
    ensures ShareIdentifier(c, d)
  {
    hide OneToOne, Stated;
    StatedHas(rows, r.figi, s.bbg);
    var f := r.figi.value;
    assert c.figi == Some(f);
    if s.figi.Some? {
      OwnStated(rows, s);
      StatedOnce(rows, r.figi, s.figi, s.bbg, s.bbg);
    }
    assert d.figi == Some(f);
  }

  lemma OwnStated(rows: seq<Row>, s: Row)
    requires s in rows && s.figi.Some? && s.bbg.Some?
    ensures Stated(rows, s.figi, s.bbg)
  {
  }

  /** Rows of one instrument share an identifier once they are completed, and no others do. */
  lemma SharedOnceCompleted(rows: seq<Row>, r: Row, s: Row, c: Row, d: Row)
    requires OneToOne(rows) && r in rows && s in rows && Completes(rows, r, c) && Completes(rows, s, d)
    ensures ShareIdentifier(c, d) <==> SameInstrument(rows, r, s)
  {
    hide OneToOne, Stated;
    if ShareIdentifier(c, d) {
      if c.figi.Some? && c.figi == d.figi {
        SharedFigi(rows, r, s, c, d, c.figi.value);
      } else {
        SharedBbg(rows, r, s, c, d, c.bbg.value);
      }
    }
    if r.figi.Some? && r.figi == s.figi {
      assert c.figi == Some(r.figi.value) == d.figi;
    } else if r.bbg.Some? && r.bbg == s.bbg {
      assert c.bbg == Some(r.bbg.value) == d.bbg;
    } else if Stated(rows, r.figi, s.bbg) {
      JoinedShare(rows, r, s, c, d);
    } else if Stated(rows, s.figi, r.bbg) {
      JoinedShare(rows, s, r, d, c);
    }
  }

  // ----- Acceptance -----

  /** Where identifiers are one-to-one, two rows end under one key exactly when they name one instrument. */
  lemma OneKeyOneInstrument(rows: seq<Row>, r: Row, s: Row)
    requires Located(rows) && OneToOne(rows) && r in rows && s in rows && HasRequired(r)
    ensures var c, d := Completed(LinkAll(rows), r), Completed(LinkAll(rows), s);
            && (c.key == d.key <==> SameInstrument(rows, r, s))
            && (c.key == d.key ==> (Face(c) == Face(d) <==> SameValues(r, s)))
  {
    hide LinkAll, Completed, OneToOne, SameInstrument, SameValues, Completes, Face, Bijective, Pairs, RowFindings,
         HasRequired;
    var c, d := Completed(LinkAll(rows), r), Completed(LinkAll(rows), s);
    OneToOneExactly(rows);
    CompleteRows(r);
    SharedIdentifierSharesKey(rows, r, s);
    CompletionCompletes(rows, r);
    CompletionCompletes(rows, s);
    SharedOnceCompleted(rows, r, s, c, d);
    if c.key == d.key {
      SameKeySameIds(rows, r, s);
      FaceExactly(c, d);
      SameValuesJoin(r, s, c, d);
    }
  }

  lemma AgreesByContent(rows: seq<Row>)
    requires Located(rows) && OneToOne(rows) && forall r :: r in rows ==> HasRequired(r)
    ensures Agree(CompletedAll(LinkAll(rows), rows)) <==>
      forall r, s :: r in rows && s in rows && SameInstrument(rows, r, s) ==> SameValues(r, s)
  {
    hide LinkAll, Completed, OneToOne, SameInstrument, SameValues, Face, HasRequired;
    var cs := CompletedAll(LinkAll(rows), rows);
    if Agree(cs) {
      forall r, s | r in rows && s in rows && SameInstrument(rows, r, s) ensures SameValues(r, s) {
        OneKeyOneInstrument(rows, r, s);
        var i :| 0 <= i < |rows| && rows[i] == r;
        var j :| 0 <= j < |rows| && rows[j] == s;
        assert cs[i] in cs && cs[j] in cs;
      }
    }
    if forall r, s :: r in rows && s in rows && SameInstrument(rows, r, s) ==> SameValues(r, s) {
      forall c, d | c in cs && d in cs && c.key == d.key ensures Face(c) == Face(d) {
        var i :| 0 <= i < |cs| && cs[i] == c;
        var j :| 0 <= j < |cs| && cs[j] == d;
        OneKeyOneInstrument(rows, rows[i], rows[j]);
      }
    }
  }

  /**
   * Which workbooks are accepted: nothing was found before, every row has a borrower and an identifier,
   * the identifiers stated together are one-to-one, and rows that name one instrument state the same.
   */
  lemma AcceptedByContent(rows: seq<Row>, prior: seq<Finding>)
    requires Located(rows)
    ensures Reconcile(rows, prior).Accepted? <==>
      && prior == []
      && (forall r :: r in rows ==> HasRequired(r))
      && OneToOne(rows)
      && (forall r, s :: r in rows && s in rows && SameInstrument(rows, r, s) ==> SameValues(r, s))
  {
    hide Reconcile, OneToOne, SameInstrument, SameValues, HasRequired, Agree, CompletedAll, LinkAll, RowFindings,
         Bijective;
    AcceptedExactly(rows, prior);
    OneToOneExactly(rows);
    forall r | r in rows ensures RowFindings(r) == [] <==> HasRequired(r) { CompleteRows(r); }
    if OneToOne(rows) && forall r :: r in rows ==> HasRequired(r) { AgreesByContent(rows); }
  }

  // ----- What is listed -----

  /** The listing order, field by field; an absent borrower sorts as an empty one. */
  predicate Before(o: Row, p: Row) {
    var x, y := o.borrower.GetOr(""), p.borrower.GetOr("");
    || Less(o.sector, p.sector)
    || (o.sector == p.sector && Less(x, y))
    || (o.sector == p.sector && x == y && Less(o.key, p.key))
  }

  /** A string comes before another where they first differ, or where it ends first. */
  lemma {:induction false} LessExactly(a: string, b: string)
    ensures Less(a, b) <==> exists k: nat :: k <= |a| && k < |b| && a[..k] == b[..k] && (k == |a| || a[k] < b[k])
  {
    if a != [] && b != [] && a[0] == b[0] {
      LessExactly(a[1..], b[1..]);
      if Less(a[1..], b[1..]) {
        var k: nat :|
          k <= |a| - 1 && k < |b| - 1 && a[1..][..k] == b[1..][..k] && (k == |a| - 1 || a[1..][k] < b[1..][k]);
        assert a[..k + 1] == [a[0]] + a[1..][..k] && b[..k + 1] == [b[0]] + b[1..][..k];
      }
      if k: nat :| k <= |a| && k < |b| && a[..k] == b[..k] && (k == |a| || a[k] < b[k]) {
        if k > 0 {
          assert a[1..][..k - 1] == a[..k][1..] && b[1..][..k - 1] == b[..k][1..];
        }
      }
    } else if a != [] && b != [] {
      forall k: nat | 0 < k && k <= |a| && k < |b| ensures a[..k] != b[..k] {
        assert a[..k][0] != b[..k][0];
      }
      assert a[..0] == b[..0];
    } else if b != [] {
      assert a[..0] == b[..0];
    }
  }

  /** A listed row states an input row: completed, its values to the letter, its locators among its own. */
  ghost predicate States(rows: seq<Row>, r: Row, o: Row) {
    Completes(rows, r, o) && SameValues(o, r) && multiset(r.locators) <= multiset(o.locators)
  }

  /** Every row is stated by a listed one, every listed row is some row completed, and the order is as listed. */
  lemma ListedByContent(rows: seq<Row>)
    requires Located(rows) && Reconcile(rows, []).Accepted?
    ensures var out := Reconcile(rows, []).rows;
            && (forall i, j :: 0 <= i < j < |out| ==> Before(out[i], out[j]))
            && (forall r :: r in rows ==> exists o :: o in out && States(rows, r, o))
            && (forall o :: o in out ==> exists r :: r in rows && Completes(rows, r, o) && SameValues(o, r)
                                                     && o.numbers == r.numbers)
  {
    hide LinkAll, Completed, OneToOne, Completes, SameValues, Reconcile, Less;
    var out := Reconcile(rows, []).rows;
    AcceptedByContent(rows, []);
    ListedInOrder(rows);
    forall i, j | 0 <= i < j < |out| ensures Before(out[i], out[j]) { assert RankLess(RankOf(out[i]), RankOf(out[j])); }
    forall r | r in rows ensures exists o :: o in out && States(rows, r, o) {
      var i :| 0 <= i < |rows| && rows[i] == r;
      var o := ListedRowOf(rows, i);
      CompletionCompletes(rows, r);
      StatedLike(rows, r, Completions(rows)[i], o);
    }
    forall o | o in out
      ensures exists r :: r in rows && Completes(rows, r, o) && SameValues(o, r) && o.numbers == r.numbers
    {
      var i := ListedRowOrigin(rows, o);
      CompletionCompletes(rows, rows[i]);
      StatedLike(rows, rows[i], Completions(rows)[i], o);
      CompletionKeepsNumbers(LinkAll(rows), rows[i]);
    }
  }

  lemma CompletionKeepsNumbers(m: Links, r: Row)
    requires r.locators != []
    ensures Completed(m, r).numbers == r.numbers
  {
  }

  lemma StatedLike(rows: seq<Row>, r: Row, c: Row, o: Row)
    requires Completes(rows, r, c) && SameValues(c, r) && Face(c) == Face(o)
    ensures Completes(rows, r, o) && SameValues(o, r)
  {
    FaceFields(c, o);
    FaceExactly(c, o);
    SameValuesJoin(r, r, c, o);
  }

  /** Listed rows are told apart by their instruments, and keyed by an identifier: the FIGI where there is one. */
  lemma ListedOncePerInstrument(rows: seq<Row>, r: Row, s: Row, o: Row, p: Row)
    requires Located(rows) && Reconcile(rows, []).Accepted? && r in rows && s in rows
    requires o in Reconcile(rows, []).rows && p in Reconcile(rows, []).rows
    requires Completes(rows, r, o) && Completes(rows, s, p)
    ensures o == p <==> SameInstrument(rows, r, s)
    ensures o.figi.Some? || o.bbg.Some?
    ensures o.key == if o.figi.Some? then "FIGI:" + o.figi.value else "BBG:" + o.bbg.value
  {
    hide LinkAll, OneToOne, SameInstrument, Completes, Reconcile, Bijective, Pairs, Completed;
    AcceptedByContent(rows, []);
    OneToOneExactly(rows);
    SharedOnceCompleted(rows, r, s, o, p);
    var i := ListedRowOrigin(rows, o);
    CompletedIds(rows, rows[i]);
    CompletionCompletes(rows, rows[i]);
    CompletedHasId(rows, rows[i], Completions(rows)[i]);
    if ShareIdentifier(o, p) { IdentifiersOneToOne(rows, o, p); }
  }

  lemma CompletedHasId(rows: seq<Row>, r: Row, c: Row)
    requires Completes(rows, r, c) && HasRequired(r)
    ensures c.figi.Some? || c.bbg.Some?
  {
    if r.figi.Some? { assert c.figi == Some(r.figi.value); } else { assert c.bbg == Some(r.bbg.value); }
  }

  // ----- What is found -----

  /** A row lacks a required field: which finding it raises, at its first locator. */
  ghost predicate LacksRequired(r: Row, f: Finding)
    requires r.locators != []
  {
    && f.at == Some(r.locators[0])
    && (|| (f.kind == BorrowerMissing && (r.borrower.None? || r.borrower.value == ""))
        || (f.kind == InstrumentIdMissing && r.figi.None? && r.bbg.None?))
  }

  lemma {:induction false} RequiredFound(rows: seq<Row>, f: Finding)
    requires Located(rows)
    ensures f in CheckRows(rows) <==> exists r :: r in rows && LacksRequired(r, f)
  {
    if rows != [] {
      var front, last := rows[..|rows| - 1], rows[|rows| - 1];
      RequiredFound(front, f);
      assert rows == front + [last] && last in rows;
      assert f in RowFindings(last) <==> LacksRequired(last, f);
    }
  }

  /** Row j is the last before n to state this FIGI with a Bloomberg id. */
  ghost predicate LatestFigi(rows: seq<Row>, n: nat, f: Id, j: nat) {
    && j < n <= |rows| && Paired(rows[j]) && rows[j].figi == Some(f)
    && forall k :: j < k < n && Paired(rows[k]) ==> rows[k].figi != Some(f)
  }

  ghost predicate LatestBbg(rows: seq<Row>, n: nat, b: Id, j: nat) {
    && j < n <= |rows| && Paired(rows[j]) && rows[j].bbg == Some(b)
    && forall k :: j < k < n && Paired(rows[k]) ==> rows[k].bbg != Some(b)
  }

  lemma LatestFigiStep(rows: seq<Row>, n: nat, x: Id, j: nat)
    requires 0 < n <= |rows|
    ensures LatestFigi(rows, n, x, j) <==>
      if Paired(rows[n - 1]) && rows[n - 1].figi == Some(x) then j == n - 1 else LatestFigi(rows, n - 1, x, j)
  {
  }

  lemma {:induction false} LinkedLatestFigi(rows: seq<Row>, n: nat, x: Id)
    requires n <= |rows|
    ensures var m := LinkAll(rows[..n]).bbgOf;
            && (forall j: nat :: LatestFigi(rows, n, x, j) ==> x in m && rows[j].bbg == Some(m[x]))
            && (x in m ==> exists j: nat :: LatestFigi(rows, n, x, j))
  {
    if n > 0 {
      LinkedLatestFigi(rows, n - 1, x);
      assert rows[..n][..n - 1] == rows[..n - 1];
      forall j: nat
        ensures LatestFigi(rows, n, x, j) <==>
          if Paired(rows[n - 1]) && rows[n - 1].figi == Some(x) then j == n - 1 else LatestFigi(rows, n - 1, x, j)
      {
        LatestFigiStep(rows, n, x, j);
      }
      if Paired(rows[n - 1]) && rows[n - 1].figi == Some(x) {
        assert LatestFigi(rows, n, x, n - 1);
      } else if x in LinkAll(rows[..n - 1]).bbgOf {
        var j: nat :| LatestFigi(rows, n - 1, x, j);
        assert LatestFigi(rows, n, x, j);
      }
    }
  }

  lemma LatestBbgStep(rows: seq<Row>, n: nat, x: Id, j: nat)
    requires 0 < n <= |rows|
    ensures LatestBbg(rows, n, x, j) <==>
      if Paired(rows[n - 1]) && rows[n - 1].bbg == Some(x) then j == n - 1 else LatestBbg(rows, n - 1, x, j)
  {
  }

  lemma {:induction false} LinkedLatestBbg(rows: seq<Row>, n: nat, x: Id)
    requires n <= |rows|
    ensures var m := LinkAll(rows[..n]).figiOf;
            && (forall j: nat :: LatestBbg(rows, n, x, j) ==> x in m && rows[j].figi == Some(m[x]))
            && (x in m ==> exists j: nat :: LatestBbg(rows, n, x, j))
  {
    if n > 0 {
      LinkedLatestBbg(rows, n - 1, x);
      assert rows[..n][..n - 1] == rows[..n - 1];
      forall j: nat
        ensures LatestBbg(rows, n, x, j) <==>
          if Paired(rows[n - 1]) && rows[n - 1].bbg == Some(x) then j == n - 1 else LatestBbg(rows, n - 1, x, j)
      {
        LatestBbgStep(rows, n, x, j);
      }
      if Paired(rows[n - 1]) && rows[n - 1].bbg == Some(x) {
        assert LatestBbg(rows, n, x, n - 1);
      } else if x in LinkAll(rows[..n - 1]).figiOf {
        var j: nat :| LatestBbg(rows, n - 1, x, j);
        assert LatestBbg(rows, n, x, j);
      }
    }
  }

  /** Row i contradicts the last row before it that pairs one of its identifiers: what it raises. */
  ghost predicate Contradicts(rows: seq<Row>, i: nat, f: Finding)
    requires i < |rows| && rows[i].locators != []
  {
    && Paired(rows[i]) && f.at == Some(rows[i].locators[0])
    && (|| (f.kind == FigiMapsToManyBbg &&
            exists j: nat :: LatestFigi(rows, i, rows[i].figi.value, j) && rows[j].bbg != rows[i].bbg)
        || (f.kind == BbgMapsToManyFigi &&
            exists j: nat :: LatestBbg(rows, i, rows[i].bbg.value, j) && rows[j].figi != rows[i].figi))
  }

  lemma LinkFindingsOf(rows: seq<Row>, i: nat, f: Finding)
    requires i < |rows| && rows[i].locators != []
    ensures f in LinkFindings(LinkAll(rows[..i]), rows[i]) <==> Contradicts(rows, i, f)
  {
    hide LatestFigi, LatestBbg, LinkAll;
    var r := rows[i];
    if Paired(r) {
      LinkedLatestFigi(rows, i, r.figi.value);
      LinkedLatestBbg(rows, i, r.bbg.value);
    }
  }

  lemma {:induction false} LinksFound(rows: seq<Row>, n: nat, f: Finding)
    requires Located(rows) && n <= |rows|
    ensures Located(rows[..n])
    ensures f in LinkAllFindings(rows[..n]) <==>
      exists i: nat :: i < n && rows[i].locators != [] && Contradicts(rows, i, f)
  {
    hide Contradicts, LinkFindings, LinkAll;
    forall r | r in rows[..n] ensures r.locators != [] { assert r in rows; }
    if n > 0 {
      LinksFound(rows, n - 1, f);
      assert rows[..n][..n - 1] == rows[..n - 1] && rows[n - 1] in rows;
      LinkFindingsOf(rows, n - 1, f);
    }
  }

  /** Row j is the last, or the first, before n under this key. */
  ghost predicate LatestKey(cs: seq<Row>, n: nat, key: string, j: nat) {
    j < n <= |cs| && cs[j].key == key && forall k :: j < k < n ==> cs[k].key != key
  }

  ghost predicate FirstKey(cs: seq<Row>, n: nat, key: string, j: nat) {
    j < n <= |cs| && cs[j].key == key && forall k :: 0 <= k < j ==> cs[k].key != key
  }

  lemma LatestKeyStep(cs: seq<Row>, n: nat, key: string, j: nat)
    requires 0 < n <= |cs|
    ensures LatestKey(cs, n, key, j) <==> if cs[n - 1].key == key then j == n - 1 else LatestKey(cs, n - 1, key, j)
  {
  }

  lemma {:induction false} IdentitiesLatest(cs: seq<Row>, n: nat, key: string)
    requires Located(cs) && n <= |cs|
    ensures Located(cs[..n])
    ensures var ids := MergeAll(cs[..n]).identities;
            && (forall j: nat :: LatestKey(cs, n, key, j) ==> key in ids && ids[key] == (cs[j].figi, cs[j].bbg))
            && (key in ids ==> exists j: nat :: LatestKey(cs, n, key, j))
  {
    hide Face, MergeRow;
    forall r | r in cs[..n] ensures r.locators != [] { assert r in cs; }
    if n > 0 {
      IdentitiesLatest(cs, n - 1, key);
      assert cs[..n][..n - 1] == cs[..n - 1] && cs[n - 1] in cs;
      MergeRowIdentities(MergeAll(cs[..n - 1]), cs[n - 1]);
      forall j: nat
        ensures LatestKey(cs, n, key, j) <==> if cs[n - 1].key == key then j == n - 1 else LatestKey(cs, n - 1, key, j)
      {
        LatestKeyStep(cs, n, key, j);
      }
      if cs[n - 1].key == key {
        assert LatestKey(cs, n, key, n - 1);
      } else if key in MergeAll(cs[..n - 1]).identities {
        var j: nat :| LatestKey(cs, n - 1, key, j);
        assert LatestKey(cs, n, key, j);
      }
    }
  }

  lemma MergeRowFiles(st: Merge, c: Row, key: string)
    requires c.locators != []
    ensures var next := MergeRow(st, c).normalized;
            && (key in next <==> key in st.normalized || key == c.key)
            && (key in st.normalized ==> Face(next[key]) == Face(st.normalized[key]))
            && (key !in st.normalized && key == c.key ==> next[key] == c)
  {
    if c.key in st.normalized {
      var filed := st.normalized[c.key];
      FaceOfBare(filed, filed.(locators := filed.locators + c.locators));
    }
  }

  lemma {:induction false} FiledFirst(cs: seq<Row>, n: nat, key: string)
    requires Located(cs) && n <= |cs|
    ensures Located(cs[..n])
    ensures var filed := MergeAll(cs[..n]).normalized;
            && (forall j: nat :: FirstKey(cs, n, key, j) ==> key in filed && Face(filed[key]) == Face(cs[j]))
            && (key in filed ==> exists j: nat :: FirstKey(cs, n, key, j))
  {
    hide Face, MergeRow;
    forall r | r in cs[..n] ensures r.locators != [] { assert r in cs; }
    if n > 0 {
      FiledFirst(cs, n - 1, key);
      assert cs[..n][..n - 1] == cs[..n - 1] && cs[n - 1] in cs;
      MergeRowFiles(MergeAll(cs[..n - 1]), cs[n - 1], key);
      forall j: nat | FirstKey(cs, n, key, j)
        ensures key in MergeAll(cs[..n]).normalized && Face(MergeAll(cs[..n]).normalized[key]) == Face(cs[j])
      {
        if j < n - 1 {
          assert FirstKey(cs, n - 1, key, j);
        } else {
          NoFirst(cs, n - 1, key);
        }
      }
      if key in MergeAll(cs[..n - 1]).normalized {
        var j: nat :| FirstKey(cs, n - 1, key, j);
        assert FirstKey(cs, n, key, j);
      } else if key == cs[n - 1].key {
        if i: nat :| i < n - 1 && cs[i].key == key {
          var j := FirstUnder(cs, n - 1, key, i);
        }
        assert FirstKey(cs, n, key, n - 1);
      }
    }
  }

  lemma NoFirst(cs: seq<Row>, n: nat, key: string)
    requires n <= |cs| && forall k :: 0 <= k < n ==> cs[k].key != key
    ensures forall j: nat :: !FirstKey(cs, n, key, j)
  {
  }

  lemma {:induction false} FirstUnder(cs: seq<Row>, n: nat, key: string, i: nat) returns (j: nat)
    requires i < n <= |cs| && cs[i].key == key
    ensures FirstKey(cs, n, key, j)
    decreases i
  {
    j := i;
    if k: nat :| k < i && cs[k].key == key {
      j := FirstUnder(cs, n, key, k);
    }
  }

  /** Completed row i disagrees with a row before it under its key: what it raises. */
  ghost predicate Disagrees(cs: seq<Row>, i: nat, f: Finding)
    requires i < |cs| && cs[i].locators != []
  {
    && f.at == Some(cs[i].locators[0])
    && (|| (f.kind == KeyHasConflictingIds &&
            exists j: nat :: LatestKey(cs, i, cs[i].key, j) && (cs[j].figi, cs[j].bbg) != (cs[i].figi, cs[i].bbg))
        || (f.kind == DuplicateConflict &&
            exists j: nat :: FirstKey(cs, i, cs[i].key, j) &&
              !(cs[j].figi == cs[i].figi && cs[j].bbg == cs[i].bbg && SameValues(cs[j], cs[i]))))
  }

  lemma MergeFindingsOf(cs: seq<Row>, i: nat, f: Finding)
    requires Located(cs) && i < |cs|
    ensures Located(cs[..i]) && cs[i].locators != []
    ensures f in StepFindings(MergeAll(cs[..i]), cs[i]) <==> Disagrees(cs, i, f)
  {
    hide LatestKey, MergeAll, Face, SameValues;
    assert cs[i] in cs;
    IdentitiesLatest(cs, i, cs[i].key);
    FiledFirst(cs, i, cs[i].key);
    forall j: nat | j < i { FaceExactly(cs[j], cs[i]); }
  }

  lemma {:induction false} MergesFound(cs: seq<Row>, n: nat, f: Finding)
    requires Located(cs) && n <= |cs|
    ensures Located(cs[..n])
    ensures f in MergeAll(cs[..n]).findings <==> exists i: nat :: i < n && cs[i].locators != [] && Disagrees(cs, i, f)
  {
    hide Disagrees, StepFindings, MergeRow;
    forall r | r in cs[..n] ensures r.locators != [] { assert r in cs; }
    if n > 0 {
      MergesFound(cs, n - 1, f);
      assert cs[..n][..n - 1] == cs[..n - 1] && cs[n - 1] in cs;
      MergeFindingsOf(cs, n - 1, f);
    }
  }

  /**
   * Every finding of a workbook and no other: a required field that is missing, an identifier stated with
   * another than the last time, or a completed row that differs from the one its key was filed under. Each
   * is raised at its row's first locator.
   */
  lemma FoundExactly(rows: seq<Row>, prior: seq<Finding>, f: Finding)
    requires Located(rows)
    ensures Located(Completions(rows))
    ensures f in AllFindings(rows, prior) <==>
      || f in prior
      || (exists r :: r in rows && LacksRequired(r, f))
      || (exists i: nat :: i < |rows| && rows[i].locators != [] && Contradicts(rows, i, f))
      || (exists i: nat :: i < |rows| && Completions(rows)[i].locators != [] && Disagrees(Completions(rows), i, f))
  {
    hide CheckRows, LinkAllFindings, MergeAll, Contradicts, Disagrees;
    RequiredFound(rows, f);
    LinksFound(rows, |rows|, f);
    MergesFound(Completions(rows), |rows|, f);
    assert rows[..|rows|] == rows && Completions(rows)[..|rows|] == Completions(rows);
  }
}
