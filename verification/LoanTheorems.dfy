/**
 * What reconciliation guarantees over every row list: acceptance does not
 * depend on row order, provenance is conserved, identifiers end one-to-one, and
 * a reconciled universe reconciles to itself.
 */
module LoanTheorems {
  import opened Common
  import opened LoanRows
  import opened LoanReconciliation

  // ----- Sums over rows, in any order -----

  ghost function Bag(rows: seq<Row>, weight: Row -> multiset<Locator>): multiset<Locator> {
    if rows == [] then multiset{} else Bag(rows[..|rows| - 1], weight) + weight(rows[|rows| - 1])
  }

  lemma {:induction false} BagWithout(rows: seq<Row>, i: nat, weight: Row -> multiset<Locator>)
    requires i < |rows|
    ensures Bag(rows, weight) == Bag(rows[..i] + rows[i + 1..], weight) + weight(rows[i])
  {
    var front, rest := rows[..|rows| - 1], rows[..i] + rows[i + 1..];
    if i == |rows| - 1 {
      assert rest == front;
    } else {
      BagWithout(front, i, weight);
      assert rest[..|rest| - 1] == front[..i] + front[i + 1..];
    }
  }

  lemma MultisetWithout(b: seq<Row>, j: nat)
    requires j < |b|
    ensures multiset(b[..j] + b[j + 1..]) == multiset(b) - multiset{b[j]}
  {
    assert b == b[..j] + ([b[j]] + b[j + 1..]);
  }

  lemma {:induction false} BagPermutes(a: seq<Row>, b: seq<Row>, weight: Row -> multiset<Locator>)
    requires multiset(a) == multiset(b)
    ensures Bag(a, weight) == Bag(b, weight)
    decreases |a|
  {
    SameMembers(a, b);
    if a != [] {
      var front, last := a[..|a| - 1], a[|a| - 1];
      assert last in b;
      var j :| 0 <= j < |b| && b[j] == last;
      BagWithout(b, j, weight);
      MultisetWithout(b, j);
      MultisetWithout(a, |a| - 1);
      assert a[..|a| - 1] + a[|a|..] == front;
      BagPermutes(front, b[..j] + b[j + 1..], weight);
    }
  }

  /** All the source locators of a row list, counted. */
  ghost function LocatorsOf(rows: seq<Row>): multiset<Locator> {
    Bag(rows, (r: Row) => multiset(r.locators))
  }

  /** The locators of the rows that carry one key. */
  ghost function LocatorsUnder(cs: seq<Row>, k: string): multiset<Locator> {
    Bag(cs, (r: Row) => if r.key == k then multiset(r.locators) else multiset{})
  }

  // ----- The accepted output -----

  function Completions(rows: seq<Row>): (cs: seq<Row>)
    requires Located(rows)
    ensures Located(cs) && |cs| == |rows|
    ensures forall i :: 0 <= i < |rows| ==> cs[i] == Completed(LinkAll(rows), rows[i])
  {
    CompletedAll(LinkAll(rows), rows)
  }

  lemma FilingLocators(st: Merge, c: Row, k: string, under: multiset<Locator>)
    requires Extended(st, c).key == c.key
    requires if k in st.normalized then multiset(st.normalized[k].locators) == under else under == multiset{}
    ensures var next := Filing(st, Extended(st, c));
            var now := under + (if c.key == k then multiset(c.locators) else multiset{});
            if k in next.normalized then multiset(next.normalized[k].locators) == now else now == multiset{}
  {
  }

  /** Each merged row carries exactly the locators filed under its key. */
  lemma {:induction false} MergeLocators(cs: seq<Row>, k: string)
    requires Located(cs) && MergeAll(cs).findings == []
    ensures var st := MergeAll(cs);
            if k in st.normalized then multiset(st.normalized[k].locators) == LocatorsUnder(cs, k)
            else LocatorsUnder(cs, k) == multiset{}
  {
    hide MergeRow, Filing, Extended, Bare;
    if cs != [] {
      var front, c := cs[..|cs| - 1], cs[|cs| - 1];
      CleanMergeFiles(cs);
      MergeLocators(front, k);
      FilingLocators(MergeAll(front), c, k, LocatorsUnder(front, k));
    }
  }

  /** Every listed row is, locators aside, one of the completed rows. */
  ghost predicate Drawn(cs: seq<Row>, out: seq<Row>) {
    forall o :: o in out ==> exists c :: c in cs && Bare(c) == Bare(o)
  }

  /** Every completed row agrees with a listed row. */
  ghost predicate Covers(cs: seq<Row>, out: seq<Row>) {
    forall c :: c in cs ==> exists o :: o in out && Face(o) == Face(c)
  }

  /** Every listed row carries exactly the locators of the completed rows under its key. */
  ghost predicate Carries(cs: seq<Row>, out: seq<Row>) {
    forall o :: o in out ==> multiset(o.locators) == LocatorsUnder(cs, o.key)
  }

  ghost predicate IsListing(cs: seq<Row>, out: seq<Row>) {
    Ordered(out) && DistinctKeys(out) && Drawn(cs, out) && Covers(cs, out) && Carries(cs, out)
  }

  lemma DrawnFrom(cs: seq<Row>, out: seq<Row>, o: Row) returns (c: Row)
    requires Drawn(cs, out) && o in out
    ensures c in cs && Bare(c) == Bare(o) && Face(c) == Face(o) && c.key == o.key && RankOf(c) == RankOf(o)
    ensures c.figi == o.figi && c.bbg == o.bbg && c.numbers == o.numbers
  {
    c :| c in cs && Bare(c) == Bare(o);
    assert c.numbers == Bare(c).numbers && o.numbers == Bare(o).numbers;
    FaceOfBare(c, o);
    FaceFields(c, o);
  }

  lemma CoveredBy(cs: seq<Row>, out: seq<Row>, c: Row) returns (o: Row)
    requires Covers(cs, out) && c in cs
    ensures o in out && Face(o) == Face(c) && o.key == c.key && RankOf(o) == RankOf(c)
    ensures c.figi == o.figi && c.bbg == o.bbg
  {
    o :| o in out && Face(o) == Face(c);
    FaceFields(o, c);
  }

  /** A list holds the merged rows when its members are what is filed, each under its own key. */
  ghost predicate Lists(st: Merge, out: seq<Row>) {
    forall o: Row :: o in out <==> o.key in st.normalized && o == st.normalized[o.key]
  }

  lemma MergedDistinct(st: Merge)
    requires IsOrderOf(st)
    ensures DistinctKeys(Merged(st))
  {
  }

  lemma MergedRows(st: Merge)
    requires IsOrderOf(st)
    ensures DistinctKeys(Merged(st)) && Lists(st, Merged(st))
  {
    hide DistinctKeys;
    MergedDistinct(st);
    var s := Merged(st);
    forall o: Row | o.key in st.normalized && o == st.normalized[o.key] ensures o in s {
      var i :| 0 <= i < |st.order| && st.order[i] == o.key;
      assert s[i] == o;
    }
  }

  lemma SortedDistinct(s: seq<Row>)
    requires DistinctKeys(s)
    ensures DistinctKeys(Sorted(s)) && Ordered(Sorted(s))
  {
    SortedOrdered(s);
    var out := Sorted(s);
    forall i, j | 0 <= i < j < |out| ensures out[i].key != out[j].key {
      SameMembers(s, out);
      assert out[i] in s && out[j] in s;
      RankOrder(RankOf(out[i]), RankOf(out[j]));
    }
  }

  lemma MergedListing(cs: seq<Row>, st: Merge, out: seq<Row>)
    requires IsOrderOf(st) && Originates(cs, st) && Files(cs, st) && Lists(st, out)
    ensures Drawn(cs, out) && Covers(cs, out)
  {
    forall c | c in cs ensures exists o :: o in out && Face(o) == Face(c) {
      assert st.normalized[c.key] in out;
    }
  }

  lemma MergedCarries(cs: seq<Row>, out: seq<Row>)
    requires Located(cs) && MergeAll(cs).findings == [] && Lists(MergeAll(cs), out)
    ensures Carries(cs, out)
  {
    hide MergeAll;
    forall o | o in out ensures multiset(o.locators) == LocatorsUnder(cs, o.key) {
      MergeLocators(cs, o.key);
    }
  }

  function Listing(cs: seq<Row>): seq<Row>
    requires Located(cs)
  {
    Sorted(Merged(MergeAll(cs)))
  }

  lemma ListingLists(cs: seq<Row>)
    requires Located(cs) && IsOrderOf(MergeAll(cs))
    ensures Lists(MergeAll(cs), Listing(cs)) && DistinctKeys(Listing(cs)) && Ordered(Listing(cs))
  {
    hide MergeAll, Merged, Sorted, DistinctKeys, Ordered;
    MergedRows(MergeAll(cs));
    SortedDistinct(Merged(MergeAll(cs)));
    SameMembers(Merged(MergeAll(cs)), Listing(cs));
  }

  lemma CleanListing(cs: seq<Row>)
    requires Located(cs) && MergeAll(cs).findings == []
    ensures IsListing(cs, Listing(cs))
  {
    hide Located, MergeAll, Listing, IsOrderOf, Originates, Files, Drawn, Covers, Carries, DistinctKeys, Ordered, Lists;
    MergeClean(cs);
    ListingLists(cs);
    MergedListing(cs, MergeAll(cs), Listing(cs));
    MergedCarries(cs, Listing(cs));
  }

  /**
   * The accepted universe: strictly ordered, one row per key, each row stating the values
   * of every row merged into it, and exactly their locators.
   */
  lemma AcceptedListing(rows: seq<Row>)
    requires Located(rows) && Reconcile(rows, []).Accepted?
    ensures IsListing(Completions(rows), Reconcile(rows, []).rows)
  {
    hide IsListing, MergeAll, Merged, Sorted;
    CleanListing(Completions(rows));
  }

  /** A listed row is, locators aside, the completion of some input row. */
  lemma ListedRowOrigin(rows: seq<Row>, o: Row) returns (i: nat)
    requires Located(rows) && Reconcile(rows, []).Accepted? && o in Reconcile(rows, []).rows
    ensures i < |rows|
    ensures var c := Completions(rows)[i];
            && Bare(c) == Bare(o) && Face(c) == Face(o)
            && c.key == o.key && c.figi == o.figi && c.bbg == o.bbg && c.numbers == o.numbers
  {
    AcceptedListing(rows);
    var c := DrawnFrom(Completions(rows), Reconcile(rows, []).rows, o);
    i :| 0 <= i < |rows| && Completions(rows)[i] == c;
  }

  /** Every input row's completion is stated by a listed row that carries its locators. */
  lemma ListedRowOf(rows: seq<Row>, i: nat) returns (o: Row)
    requires Located(rows) && Reconcile(rows, []).Accepted? && i < |rows|
    ensures o in Reconcile(rows, []).rows
    ensures var c := Completions(rows)[i];
            && Face(c) == Face(o) && c.key == o.key && c.figi == o.figi && c.bbg == o.bbg
            && multiset(rows[i].locators) <= multiset(o.locators)
  {
    hide Reconcile, KeyOf, Face, Bare, LinkAll;
    AcceptedCovers(rows);
    o := LocatorsFollow(Completions(rows), Reconcile(rows, []).rows, Completions(rows)[i]);
  }

  lemma AcceptedCovers(rows: seq<Row>)
    requires Located(rows) && Reconcile(rows, []).Accepted?
    ensures Covers(Completions(rows), Reconcile(rows, []).rows)
    ensures Carries(Completions(rows), Reconcile(rows, []).rows)
  {
    AcceptedListing(rows);
  }

  lemma LocatorsFollow(cs: seq<Row>, out: seq<Row>, c: Row) returns (o: Row)
    requires Covers(cs, out) && Carries(cs, out) && c in cs
    ensures o in out && Face(o) == Face(c) && multiset(c.locators) <= multiset(o.locators)
    ensures o.key == c.key && o.figi == c.figi && o.bbg == c.bbg
  {
    o := CoveredBy(cs, out, c);
    BagContains(cs, c, (s: Row) => if s.key == o.key then multiset(s.locators) else multiset{});
  }

  lemma {:induction false} BagContains(rows: seq<Row>, r: Row, weight: Row -> multiset<Locator>)
    requires r in rows
    ensures weight(r) <= Bag(rows, weight)
  {
    var i :| 0 <= i < |rows| && rows[i] == r;
    BagWithout(rows, i, weight);
  }

  lemma ListedInOrder(rows: seq<Row>)
    requires Located(rows) && Reconcile(rows, []).Accepted?
    ensures Ordered(Reconcile(rows, []).rows) && DistinctKeys(Reconcile(rows, []).rows)
  {
    AcceptedListing(rows);
  }

  // ----- Reordering -----

  function Mapped(s: seq<Row>, f: Row -> Row): (t: seq<Row>)
    ensures |t| == |s| && forall i :: 0 <= i < |s| ==> t[i] == f(s[i])
  {
    seq(|s|, i requires 0 <= i < |s| => f(s[i]))
  }

  lemma {:induction false} MappedPermutes(a: seq<Row>, b: seq<Row>, f: Row -> Row)
    requires multiset(a) == multiset(b)
    ensures multiset(Mapped(a, f)) == multiset(Mapped(b, f))
    decreases |a|
  {
    SameMembers(a, b);
    if a == [] {
      assert Mapped(a, f) == Mapped(b, f);
    } else {
      var n := |a| - 1;
      assert a[n] in b;
      var j :| 0 <= j < |b| && b[j] == a[n];
      MultisetWithout(b, j);
      MultisetWithout(a, n);
      assert a[..n] + a[n + 1..] == a[..n];
      MappedPermutes(a[..n], b[..j] + b[j + 1..], f);
      MappedWithout(a, n, f);
      MappedWithout(b, j, f);
    }
  }

  lemma MappedWithout(a: seq<Row>, j: nat, f: Row -> Row)
    requires j < |a|
    ensures multiset(Mapped(a, f)) == multiset(Mapped(a[..j] + a[j + 1..], f)) + multiset{f(a[j])}
  {
    var t := Mapped(a, f);
    assert t == t[..j] + ([t[j]] + t[j + 1..]);
    assert t[..j] + t[j + 1..] == Mapped(a[..j] + a[j + 1..], f);
  }

  lemma CompletionsPermute(m: Links, a: seq<Row>, b: seq<Row>)
    requires Located(a) && Located(b) && multiset(a) == multiset(b)
    ensures multiset(CompletedAll(m, a)) == multiset(CompletedAll(m, b))
  {
    var f := (r: Row) => if r.locators != [] then Completed(m, r) else r;
    MappedPermutes(a, b, f);
    assert CompletedAll(m, a) == Mapped(a, f);
    assert CompletedAll(m, b) == Mapped(b, f);
  }

  lemma SameLinks(a: seq<Row>, b: seq<Row>)
    requires Located(a) && Located(b) && (forall r :: r in a <==> r in b)
    requires Bijective(Pairs(a))
    ensures Pairs(a) == Pairs(b) && LinkAll(a) == LinkAll(b)
  {
    assert Pairs(a) == Pairs(b);
    LinksClean(a);
    LinksClean(b);
    MatchesUnique(LinkAll(a), LinkAll(b), Pairs(a));
  }

  lemma AcceptablePermutes(a: seq<Row>, b: seq<Row>)
    requires Located(a) && Located(b) && multiset(a) == multiset(b)
    requires Acceptable(a)
    ensures Acceptable(b) && LinkAll(a) == LinkAll(b)
    ensures multiset(Completions(a)) == multiset(Completions(b))
  {
    SameMembers(a, b);
    SameLinks(a, b);
    CompletionsPermute(LinkAll(a), a, b);
    SameMembers(Completions(a), Completions(b));
  }

  function Ranks(s: seq<Row>): (x: seq<Rank>)
    ensures |x| == |s| && forall i :: 0 <= i < |s| ==> x[i] == RankOf(s[i])
  {
    seq(|s|, i requires 0 <= i < |s| => RankOf(s[i]))
  }

  ghost predicate SameLocators(a: seq<Row>, b: seq<Row>) {
    |a| == |b| && forall i :: 0 <= i < |a| ==> multiset(a[i].locators) == multiset(b[i].locators)
  }

  /** Row for row equal as the source compares rows, with the same locators in some order. */
  ghost predicate SameListing(a: seq<Row>, b: seq<Row>) {
    SameLocators(a, b) && forall i :: 0 <= i < |a| ==> Face(a[i]) == Face(b[i])
  }

  /** Row for row identical, with the same locators in some order. */
  ghost predicate IdenticalListing(a: seq<Row>, b: seq<Row>) {
    SameLocators(a, b) && forall i :: 0 <= i < |a| ==> Bare(a[i]) == Bare(b[i])
  }

  lemma RanksMember(s: seq<Row>, o: Row)
    requires o in s
    ensures RankOf(o) in Ranks(s)
  {
    var j :| 0 <= j < |s| && s[j] == o;
    assert Ranks(s)[j] == RankOf(o);
  }

  lemma ListedRank(cs: seq<Row>, ds: seq<Row>, a: seq<Row>, b: seq<Row>, x: Rank)
    requires Drawn(cs, a) && Covers(ds, b) && (forall c :: c in cs ==> c in ds) && x in Ranks(a)
    ensures x in Ranks(b)
  {
    var i :| 0 <= i < |a| && RankOf(a[i]) == x;
    var c := DrawnFrom(cs, a, a[i]);
    var p := CoveredBy(ds, b, c);
    RanksMember(b, p);
  }

  lemma ListingsRankAlike(cs: seq<Row>, ds: seq<Row>, a: seq<Row>, b: seq<Row>)
    requires IsListing(cs, a) && IsListing(ds, b) && (forall c :: c in cs <==> c in ds)
    ensures Ranks(a) == Ranks(b)
  {
    forall x ensures x in Ranks(a) <==> x in Ranks(b) {
      if x in Ranks(a) { ListedRank(cs, ds, a, b, x); }
      if x in Ranks(b) { ListedRank(ds, cs, b, a, x); }
    }
    IncreasingUnique(Ranks(a), Ranks(b));
  }

  lemma ListedRowsAgree(cs: seq<Row>, ds: seq<Row>, a: seq<Row>, b: seq<Row>, o: Row, p: Row)
    requires Drawn(cs, a) && Drawn(ds, b) && Carries(cs, a) && Carries(ds, b)
    requires multiset(cs) == multiset(ds) && Agree(cs)
    requires o in a && p in b && o.key == p.key
    ensures Face(o) == Face(p) && multiset(o.locators) == multiset(p.locators)
  {
    SameMembers(cs, ds);
    var c := DrawnFrom(cs, a, o);
    var d := DrawnFrom(ds, b, p);
    BagPermutes(cs, ds, (r: Row) => if r.key == o.key then multiset(r.locators) else multiset{});
  }

  lemma ListingsAgree(cs: seq<Row>, ds: seq<Row>, a: seq<Row>, b: seq<Row>)
    requires IsListing(cs, a) && IsListing(ds, b) && multiset(cs) == multiset(ds) && Agree(cs)
    ensures SameListing(a, b)
  {
    SameMembers(cs, ds);
    ListingsRankAlike(cs, ds, a, b);
    assert |a| == |Ranks(a)| == |Ranks(b)| == |b|;
    forall i | 0 <= i < |a|
      ensures Face(a[i]) == Face(b[i]) && multiset(a[i].locators) == multiset(b[i].locators)
    {
      assert Ranks(a)[i] == Ranks(b)[i];
      ListedRowsAgree(cs, ds, a, b, a[i], b[i]);
    }
  }

  /**
   * Order does not matter: any reordering of the rows is accepted or rejected alike,
   * and an accepted universe lists the same rows with the same locators.
   */
  lemma ReorderingPreservesOutcome(a: seq<Row>, b: seq<Row>, prior: seq<Finding>)
    requires Located(a) && Located(b) && multiset(a) == multiset(b)
    ensures Reconcile(a, prior).Accepted? <==> Reconcile(b, prior).Accepted?
    ensures Reconcile(a, prior).Accepted? ==> SameListing(Reconcile(a, prior).rows, Reconcile(b, prior).rows)
  {
    AcceptedExactly(a, prior);
    AcceptedExactly(b, prior);
    if Acceptable(b) { AcceptablePermutes(b, a); }
    if prior == [] && Acceptable(a) {
      AcceptablePermutes(a, b);
      AcceptedListing(a);
      AcceptedListing(b);
      ListingsAgree(Completions(a), Completions(b), Reconcile(a, []).rows, Reconcile(b, []).rows);
    }
  }

  // ----- When the listing is identical, to the last sign -----

  /** Rows merged together spell their numbers alike, signs of zero included. */
  ghost predicate SignsAgree(cs: seq<Row>) {
    forall c, d :: c in cs && d in cs && c.key == d.key ==> c.numbers == d.numbers
  }

  lemma BareFromFace(c: Row, d: Row)
    requires Face(c) == Face(d) && c.numbers == d.numbers
    ensures Bare(c) == Bare(d)
  {
    FaceFields(c, d);
    assert c.texts == Face(c).texts == Face(d).texts;
    assert c.sector == Face(c).sector && d.sector == Face(d).sector;
    assert c.borrower == Face(c).borrower && d.borrower == Face(d).borrower;
  }

  /** The first row filed under a key is the one whose values are kept. */
  lemma {:induction false} FirstRowKept(cs: seq<Row>)
    requires Located(cs) && cs != [] && MergeAll(cs).findings == []
    ensures cs[0].key in MergeAll(cs).normalized
    ensures Bare(MergeAll(cs).normalized[cs[0].key]) == Bare(cs[0])
    ensures cs[0].locators <= MergeAll(cs).normalized[cs[0].key].locators
  {
    var front := cs[..|cs| - 1];
    if front == [] {
      assert MergeAll(front) == Merge(map[], [], map[], []);
    } else {
      FirstRowKept(front);
    }
  }

  lemma FirstRowListed(rows: seq<Row>)
    requires Located(rows) && rows != [] && Reconcile(rows, []).Accepted?
    ensures exists o :: Leads(Reconcile(rows, []).rows, Completions(rows)[0], o)
  {
    var cs := Completions(rows);
    var st := MergeAll(cs);
    FirstRowKept(cs);
    MergeClean(cs);
    MergedRows(st);
    SameMembers(Merged(st), Sorted(Merged(st)));
    assert st.normalized[cs[0].key].key == cs[0].key;
    assert Leads(Reconcile(rows, []).rows, cs[0], st.normalized[cs[0].key]);
  }

  /** A listed row spelled as c is, whose locators begin with c's. */
  ghost predicate Leads(out: seq<Row>, c: Row, o: Row) {
    o in out && Bare(o) == Bare(c) && c.locators <= o.locators
  }

  /** Moving row i to the front puts its spelling into the listing, and its locators first. */
  lemma FrontRowListed(rows: seq<Row>, i: nat) returns (moved: seq<Row>)
    requires Located(rows) && i < |rows| && Reconcile(rows, []).Accepted?
    ensures multiset(moved) == multiset(rows) && Located(moved)
    ensures Reconcile(moved, []).Accepted?
    ensures exists o :: Leads(Reconcile(moved, []).rows, Completions(rows)[i], o)
  {
    hide Reconcile, SameListing, Acceptable, Leads, LinkAll;
    moved := [rows[i]] + (rows[..i] + rows[i + 1..]);
    MultisetWithout(rows, i);
    assert rows[i] in multiset(rows);
    SameMembers(rows, moved);
    ReorderingPreservesOutcome(rows, moved, []);
    AcceptedExactly(rows, []);
    AcceptablePermutes(rows, moved);
    FirstRowListed(moved);
  }

  ghost predicate UnmovedBy(rows: seq<Row>, b: seq<Row>)
    requires Located(rows) && Reconcile(rows, []).Accepted?
  {
    Located(b) && Reconcile(b, []).Accepted? &&
    IdenticalListing(Reconcile(rows, []).rows, Reconcile(b, []).rows)
  }

  lemma SignsAgreeSuffices(rows: seq<Row>, b: seq<Row>)
    requires Located(rows) && Reconcile(rows, []).Accepted? && SignsAgree(Completions(rows))
    requires multiset(b) == multiset(rows)
    ensures UnmovedBy(rows, b)
  {
    SameMembers(rows, b);
    ReorderingPreservesOutcome(rows, b, []);
    AcceptedExactly(rows, []);
    AcceptablePermutes(rows, b);
    var cs, ds := Completions(rows), Completions(b);
    SameMembers(cs, ds);
    var o, p := Reconcile(rows, []).rows, Reconcile(b, []).rows;
    forall k | 0 <= k < |o| ensures Bare(o[k]) == Bare(p[k]) {
      FaceFields(o[k], p[k]);
      var i := ListedRowOrigin(rows, o[k]);
      var j := ListedRowOrigin(b, p[k]);
      assert cs[i] in cs && ds[j] in ds;
      BareFromFace(o[k], p[k]);
    }
  }

  /** One listing cannot be identical to two that spell the same row differently. */
  lemma TwoSpellings(out: seq<Row>, a: seq<Row>, b: seq<Row>, o: Row, p: Row)
    requires DistinctKeys(out) && IdenticalListing(out, a) && IdenticalListing(out, b)
    requires o in a && p in b && o.key == p.key
    ensures Bare(o) == Bare(p)
  {
    var k :| 0 <= k < |a| && a[k] == o;
    var l :| 0 <= l < |b| && b[l] == p;
    assert Bare(out[k]).key == Bare(o).key && Bare(out[l]).key == Bare(p).key;
    assert k == l;
  }

  lemma SignsAgreeNeeded(rows: seq<Row>, i: nat, j: nat)
    requires Located(rows) && Reconcile(rows, []).Accepted? && i < |rows| && j < |rows|
    requires Completions(rows)[i].key == Completions(rows)[j].key
    requires Completions(rows)[i].numbers != Completions(rows)[j].numbers
    ensures exists b: seq<Row> :: multiset(b) == multiset(rows) && !UnmovedBy(rows, b)
  {
    var x, y := Completions(rows)[i], Completions(rows)[j];
    var a := FrontRowListed(rows, i);
    var b := FrontRowListed(rows, j);
    var o :| Leads(Reconcile(a, []).rows, x, o);
    var p :| Leads(Reconcile(b, []).rows, y, p);
    assert o.key == Bare(o).key == Bare(x).key && p.key == Bare(p).key == Bare(y).key;
    assert o.numbers == Bare(o).numbers == Bare(x).numbers && p.numbers == Bare(p).numbers == Bare(y).numbers;
    if UnmovedBy(rows, a) && UnmovedBy(rows, b) {
      ListedInOrder(rows);
      TwoSpellings(Reconcile(rows, []).rows, Reconcile(a, []).rows, Reconcile(b, []).rows, o, p);
    }
  }

  /**
   * An accepted universe is identical under every reordering exactly when no two rows that
   * merge spell a zero with different signs, the order inside each locator list apart. Python
   * compares -0.0 and 0.0 as equal, and the first row met keeps its values.
   */
  lemma ReorderingIdenticalExactly(rows: seq<Row>)
    requires Located(rows) && Reconcile(rows, []).Accepted?
    ensures (forall b :: multiset(b) == multiset(rows) ==> UnmovedBy(rows, b)) <==> SignsAgree(Completions(rows))
  {
    hide Reconcile, UnmovedBy, LinkAll;
    var cs := Completions(rows);
    if SignsAgree(cs) {
      forall b | multiset(b) == multiset(rows) ensures UnmovedBy(rows, b) {
        SignsAgreeSuffices(rows, b);
      }
    } else {
      var c, d :| c in cs && d in cs && c.key == d.key && c.numbers != d.numbers;
      var i :| 0 <= i < |cs| && cs[i] == c;
      var j :| 0 <= j < |cs| && cs[j] == d;
      SignsAgreeNeeded(rows, i, j);
    }
  }

  /** Rows as the importer reads them: each from one place, and no two from the same. */
  ghost predicate ReadOnce(rows: seq<Row>) {
    && (forall i :: 0 <= i < |rows| ==> |rows[i].locators| == 1)
    && (forall i, j :: 0 <= i < j < |rows| ==> rows[i].locators != rows[j].locators)
  }

  /** No reordering of the rows changes the outcome in any way: what is digested is the same. */
  ghost predicate OrderFree(rows: seq<Row>)
    requires Located(rows)
  {
    forall b :: multiset(b) == multiset(rows) ==> Located(b) && Reconcile(b, []) == Reconcile(rows, [])
  }

  lemma {:induction false} AtMostOnce(cs: seq<Row>, c: Row)
    requires DistinctKeys(cs)
    ensures multiset(cs)[c] <= 1
  {
    if cs != [] {
      var n := |cs| - 1;
      AtMostOnce(cs[..n], c);
      assert cs == cs[..n] + [cs[n]];
      if cs[n] == c { assert c !in cs[..n]; }
    }
  }

  lemma TwiceAt(ds: seq<Row>, i: nat, j: nat)
    requires i < j < |ds| && ds[i] == ds[j]
    ensures multiset(ds)[ds[i]] >= 2
  {
    assert ds == ds[..i] + ([ds[i]] + (ds[i + 1..j] + ([ds[j]] + ds[j + 1..])));
  }

  lemma DistinctPermutes(cs: seq<Row>, ds: seq<Row>)
    requires DistinctKeys(cs) && multiset(cs) == multiset(ds)
    ensures DistinctKeys(ds)
  {
    SameMembers(cs, ds);
    forall i, j | 0 <= i < j < |ds| ensures ds[i].key != ds[j].key {
      assert ds[i] in cs && ds[j] in cs;
      AtMostOnce(cs, ds[i]);
      if ds[i] == ds[j] { TwiceAt(ds, i, j); }
    }
  }

  /** Rows of which no two merge are listed as they are. */
  lemma UnmergedListing(rows: seq<Row>, o: Row)
    requires Located(rows) && Reconcile(rows, []).Accepted? && DistinctKeys(Completions(rows))
    requires o in Reconcile(rows, []).rows
    ensures o in Completions(rows)
  {
    var cs := Completions(rows);
    MergeDistinct(cs);
    SameMembers(cs, Sorted(cs));
  }

  lemma DistinctOrderFree(rows: seq<Row>, b: seq<Row>)
    requires Located(rows) && Reconcile(rows, []).Accepted? && DistinctKeys(Completions(rows))
    requires multiset(b) == multiset(rows)
    ensures Located(b) && Reconcile(b, []) == Reconcile(rows, [])
  {
    hide Reconcile, Completions, LinkAll, Face, Acceptable, RankOf;
    SameMembers(rows, b);
    ReorderingPreservesOutcome(rows, b, []);
    AcceptedExactly(rows, []);
    AcceptablePermutes(rows, b);
    var cs, ds := Completions(rows), Completions(b);
    DistinctPermutes(cs, ds);
    SameMembers(cs, ds);
    var out, other := Reconcile(rows, []).rows, Reconcile(b, []).rows;
    forall k | 0 <= k < |out| ensures out[k] == other[k] {
      FaceFields(out[k], other[k]);
      UnmergedListing(rows, out[k]);
      UnmergedListing(b, other[k]);
    }
    assert out == other;
  }

  lemma CompletionLocators(rows: seq<Row>, i: nat)
    requires Located(rows) && i < |rows|
    ensures Completions(rows)[i].locators == rows[i].locators
  {
    hide LinkAll, KeyOf;
  }

  lemma MergedFollowOrder(rows: seq<Row>, i: nat, j: nat)
    requires Located(rows) && Reconcile(rows, []).Accepted? && ReadOnce(rows) && i < j < |rows|
    requires Completions(rows)[i].key == Completions(rows)[j].key
    ensures !OrderFree(rows)
  {
    hide Reconcile, Completions;
    var x, y, out := Completions(rows)[i], Completions(rows)[j], Reconcile(rows, []).rows;
    CompletionLocators(rows, i);
    CompletionLocators(rows, j);
    var a := FrontRowListed(rows, i);
    var b := FrontRowListed(rows, j);
    var o :| Leads(Reconcile(a, []).rows, x, o);
    var p :| Leads(Reconcile(b, []).rows, y, p);
    assert o.key == Bare(o).key == Bare(x).key && p.key == Bare(p).key == Bare(y).key;
    ListedInOrder(rows);
    assert x.locators[0] == o.locators[0] && y.locators[0] == p.locators[0];
    assert x.locators == [x.locators[0]] && y.locators == [y.locators[0]];
    assert Reconcile(a, []) != Reconcile(rows, []) || Reconcile(b, []) != Reconcile(rows, []);
  }

  /**
   * The listing and so its digest, locator order included, is the same under every reordering of the
   * rows a workbook was read into exactly when no two of them merge.
   */
  lemma OrderFreeExactly(rows: seq<Row>)
    requires Located(rows) && Reconcile(rows, []).Accepted? && ReadOnce(rows)
    ensures OrderFree(rows) <==> DistinctKeys(Completions(rows))
  {
    if DistinctKeys(Completions(rows)) {
      forall b | multiset(b) == multiset(rows) ensures Located(b) && Reconcile(b, []) == Reconcile(rows, []) {
        DistinctOrderFree(rows, b);
      }
    } else {
      var cs := Completions(rows);
      var i, j :| 0 <= i < j < |cs| && cs[i].key == cs[j].key;
      MergedFollowOrder(rows, i, j);
    }
  }

  function ZeroMark(mark: Number, at: nat): Row {
    Row(Some("BBG000000001"), None, "Energy", Some("Acme"), [], [Some(mark)], "", [Locator("Energy", at)])
  }

  lemma ZeroMarksComplete(rows: seq<Row>)
    requires rows == [ZeroMark(Finite(0.0), 2), ZeroMark(NegativeZero, 3)]
    ensures Located(rows) && Completions(rows) == [Keyed(rows[0]), Keyed(rows[1])]
    ensures Pairs(rows) == {}
  {
    assert LinkAll(rows[..1]) == Links(map[], map[]) by { assert rows[..1][..0] == []; }
    assert LinkAll(rows) == Links(map[], map[]);
  }

  lemma ZeroMarksAccepted(rows: seq<Row>)
    requires rows == [ZeroMark(Finite(0.0), 2), ZeroMark(NegativeZero, 3)]
    ensures Located(rows) && Reconcile(rows, []).Accepted? && !SignsAgree(Completions(rows))
  {
    ZeroMarksComplete(rows);
    AcceptedExactly(rows, []);
    hide Reconcile, Completed, LinkAll;
    var cs := Completions(rows);
    assert Face(cs[0]) == Face(cs[1]) by {
      assert Face(cs[0]).numbers == Face(cs[1]).numbers;
    }
    assert cs[0] in cs && cs[1] in cs && cs[0].numbers[0] != cs[1].numbers[0];
  }

  /**
   * Such workbooks exist: one instrument on two sheet rows, one marked 0.0 and one -0.0, is
   * accepted, and some reordering of it lists a different value.
   */
  lemma SignOfZeroFollowsOrder() returns (rows: seq<Row>)
    ensures rows == [ZeroMark(Finite(0.0), 2), ZeroMark(NegativeZero, 3)]
    ensures Located(rows) && Reconcile(rows, []).Accepted?
    ensures exists b :: multiset(b) == multiset(rows) && !UnmovedBy(rows, b)
  {
    hide Reconcile, UnmovedBy, Completions, SignsAgree;
    rows := [ZeroMark(Finite(0.0), 2), ZeroMark(NegativeZero, 3)];
    ZeroMarksAccepted(rows);
    ReorderingIdenticalExactly(rows);
  }

  // ----- Provenance -----

  lemma BagUpdate(s: seq<Row>, i: nat, x: Row, weight: Row -> multiset<Locator>)
    requires i < |s|
    ensures Bag(s[i := x], weight) + weight(s[i]) == Bag(s, weight) + weight(x)
  {
    BagWithout(s, i, weight);
    BagWithout(s[i := x], i, weight);
    assert s[i := x][..i] + s[i := x][i + 1..] == s[..i] + s[i + 1..];
  }

  lemma {:induction false} MergeConserves(cs: seq<Row>)
    requires Located(cs) && MergeAll(cs).findings == []
    ensures LocatorsOf(Merged(MergeAll(cs))) == LocatorsOf(cs)
  {
    if cs != [] {
      CleanMergeFiles(cs);
      MergeConserves(cs[..|cs| - 1]);
      FilingConserves(MergeAll(cs[..|cs| - 1]), cs[|cs| - 1], MergeAll(cs));
    }
  }

  lemma FilingMerged(st: Merge, c: Row, next: Merge)
    requires IsOrderOf(st) && Extended(st, c).key == c.key && next == Filing(st, Extended(st, c))
    requires forall k :: k in next.order ==> k in next.normalized
    ensures c.key !in st.normalized ==> Merged(next) == Merged(st) + [c]
    ensures forall i :: 0 <= i < |st.order| && st.order[i] == c.key ==> Merged(next) == Merged(st)[i := Extended(st, c)]
  {
  }

  lemma FilingConserves(st: Merge, c: Row, next: Merge)
    requires IsOrderOf(st) && Extended(st, c).key == c.key && next == Filing(st, Extended(st, c))
    requires forall k :: k in next.order ==> k in next.normalized
    ensures LocatorsOf(Merged(next)) == LocatorsOf(Merged(st)) + multiset(c.locators)
  {
    hide Filing;
    FilingMerged(st, c, next);
    if c.key !in st.normalized {
      assert Merged(next)[..|st.order|] == Merged(st);
    } else {
      var i :| 0 <= i < |st.order| && st.order[i] == c.key;
      var x := Extended(st, c);
      BagUpdate(Merged(st), i, x, (r: Row) => multiset(r.locators));
      AddCancels(LocatorsOf(Merged(next)), LocatorsOf(Merged(st)),
                 multiset(Merged(st)[i].locators), multiset(c.locators));
    }
  }

  lemma AddCancels(a: multiset<Locator>, b: multiset<Locator>, x: multiset<Locator>, y: multiset<Locator>)
    requires a + x == b + (x + y)
    ensures a == b + y
  {
    assert a == (a + x) - x;
    assert b + y == (b + (x + y)) - x;
  }

  lemma {:induction false} CompletionConserves(m: Links, rows: seq<Row>)
    requires Located(rows)
    ensures LocatorsOf(CompletedAll(m, rows)) == LocatorsOf(rows)
  {
    if rows != [] {
      var n := |rows| - 1;
      CompletionConserves(m, rows[..n]);
      assert CompletedAll(m, rows)[..n] == CompletedAll(m, rows[..n]);
    }
  }

  /**
   * Conservation: the accepted rows hold every input locator exactly as often as the input does,
   * and each input row's locators sit on a row that states the input row's completed values.
   */
  lemma ProvenanceConserved(rows: seq<Row>)
    requires Located(rows) && Reconcile(rows, []).Accepted?
    ensures LocatorsOf(Reconcile(rows, []).rows) == LocatorsOf(rows)
    ensures forall r :: r in rows ==>
      exists o :: && o in Reconcile(rows, []).rows
                  && Face(o) == Face(Completed(LinkAll(rows), r))
                  && multiset(r.locators) <= multiset(o.locators)
  {
    var m, cs, out := LinkAll(rows), Completions(rows), Reconcile(rows, []).rows;
    MergeConserves(cs);
    CompletionConserves(m, rows);
    BagPermutes(Merged(MergeAll(cs)), out, (r: Row) => multiset(r.locators));
    forall r | r in rows
      ensures exists o :: o in out && Face(o) == Face(Completed(m, r)) && multiset(r.locators) <= multiset(o.locators)
    {
      var i :| 0 <= i < |rows| && rows[i] == r;
      var o := ListedRowOf(rows, i);
    }
  }

  // ----- Identifiers -----

  lemma SameTail(prefix: string, x: string, y: string)
    requires prefix + x == prefix + y
    ensures x == y
  {
    assert x == (prefix + x)[|prefix|..];
    assert y == (prefix + y)[|prefix|..];
  }

  /** Completed rows name one instrument by one key: same key, same identifiers. */
  lemma SameKeySameIds(rows: seq<Row>, r: Row, s: Row)
    requires Located(rows) && Bijective(Pairs(rows)) && r in rows && s in rows
    requires Completed(LinkAll(rows), r).key == Completed(LinkAll(rows), s).key
    ensures Completed(LinkAll(rows), r).figi == Completed(LinkAll(rows), s).figi
    ensures Completed(LinkAll(rows), r).bbg == Completed(LinkAll(rows), s).bbg
  {
    LinksClean(rows);
    var m := LinkAll(rows);
    var c, d := Completed(m, r), Completed(m, s);
    CompletedIds(rows, r);
    CompletedIds(rows, s);
    assert c.key[0] == d.key[0];
    if c.figi.Some? {
      SameTail("FIGI:", c.figi.value, d.figi.value);
    } else if c.bbg.Some? {
      SameTail("BBG:", c.bbg.value, d.bbg.value);
    }
  }

  /**
   * A completed row carries a stated pair or nothing more is known of it, and its key
   * begins with the kind of identifier it was formed from.
   */
  lemma CompletedIds(rows: seq<Row>, r: Row)
    requires Located(rows) && Bijective(Pairs(rows)) && r in rows
    ensures var c := Completed(LinkAll(rows), r);
            && c.key == KeyOf(c)
            && (Paired(c) ==> (c.figi.value, c.bbg.value) in Pairs(rows))
            && (c.figi.Some? && c.bbg.None? ==> forall p :: p in Pairs(rows) ==> p.0 != c.figi.value)
            && (c.bbg.Some? && c.figi.None? ==> forall p :: p in Pairs(rows) ==> p.1 != c.bbg.value)
            && (c.figi.Some? <==> c.key[0] == 'F') && (c.figi.None? && c.bbg.Some? <==> c.key[0] == 'B')
  {
    LinksClean(rows);
  }

  ghost predicate IdentitiesStated(cs: seq<Row>, st: Merge) {
    forall k :: k in st.identities ==> exists c :: c in cs && c.key == k && st.identities[k] == (c.figi, c.bbg)
  }

  lemma IdentitiesStep(front: seq<Row>, c: Row, st: Merge)
    requires c.locators != [] && IdentitiesStated(front, st)
    ensures IdentitiesStated(front + [c], MergeRow(st, c))
  {
    MergeRowIdentities(st, c);
    assert c in front + [c];
    forall k | k in st.identities
      ensures exists d :: d in front + [c] && d.key == k && st.identities[k] == (d.figi, d.bbg)
    {
      var d :| d in front && d.key == k && st.identities[k] == (d.figi, d.bbg);
      assert d in front + [c];
    }
  }

  ghost predicate KeysNameIds(cs: seq<Row>) {
    forall c, d :: c in cs && d in cs && c.key == d.key ==> c.figi == d.figi && c.bbg == d.bbg
  }

  lemma {:induction false} MergeNeverConflicts(cs: seq<Row>)
    requires Located(cs) && KeysNameIds(cs)
    ensures forall f :: f in MergeAll(cs).findings ==> f.kind != KeyHasConflictingIds
    ensures IdentitiesStated(cs, MergeAll(cs))
  {
    if cs != [] {
      var front, c := cs[..|cs| - 1], cs[|cs| - 1];
      assert cs == front + [c];
      MergeNeverConflicts(front);
      MergeRowIdentities(MergeAll(front), c);
      IdentitiesStep(front, c, MergeAll(front));
    }
  }

  /** Once the first pass is clean, the second pass never reports a key with conflicting identifiers. */
  lemma KeysNeverConflict(rows: seq<Row>)
    requires Located(rows) && LinkAllFindings(rows) == []
    ensures forall f :: f in MergeAll(Completions(rows)).findings ==> f.kind != KeyHasConflictingIds
  {
    var cs := Completions(rows);
    LinksClean(rows);
    forall c, d | c in cs && d in cs && c.key == d.key ensures c.figi == d.figi && c.bbg == d.bbg {
      var i :| 0 <= i < |cs| && cs[i] == c;
      var j :| 0 <= j < |cs| && cs[j] == d;
      SameKeySameIds(rows, rows[i], rows[j]);
    }
    MergeNeverConflicts(cs);
  }

  ghost predicate ShareIdentifier(r: Row, s: Row) {
    (r.figi.Some? && r.figi == s.figi) || (r.bbg.Some? && r.bbg == s.bbg)
  }

  /** Two rows end under one key exactly when, once completed, they share an identifier. */
  lemma SharedIdentifierSharesKey(rows: seq<Row>, r: Row, s: Row)
    requires Located(rows) && Bijective(Pairs(rows)) && r in rows && s in rows && RowFindings(r) == []
    ensures var c, d := Completed(LinkAll(rows), r), Completed(LinkAll(rows), s);
            c.key == d.key <==> ShareIdentifier(c, d)
    ensures ShareIdentifier(r, s) ==> Completed(LinkAll(rows), r).key == Completed(LinkAll(rows), s).key
  {
    hide LinkAll, LinkAllFindings, Pairs;
    var m := LinkAll(rows);
    LinksClean(rows);
    CompletedIds(rows, r);
    CompletedIds(rows, s);
    if Completed(m, r).key == Completed(m, s).key {
      SameKeySameIds(rows, r, s);
    }
  }

  /** Accepted identifiers are one-to-one: listed rows that share either identifier are one row. */
  lemma IdentifiersOneToOne(rows: seq<Row>, o: Row, p: Row)
    requires Located(rows) && Reconcile(rows, []).Accepted?
    requires o in Reconcile(rows, []).rows && p in Reconcile(rows, []).rows
    requires ShareIdentifier(o, p)
    ensures o == p
  {
    AcceptedExactly(rows, []);
    ListedInOrder(rows);
    var i := ListedRowOrigin(rows, o);
    var j := ListedRowOrigin(rows, p);
    SharedIdentifierSharesKey(rows, rows[i], rows[j]);
  }

  /** Input rows that share either identifier end in the same listed row. */
  lemma SharedIdentifierSharesRow(rows: seq<Row>, r: Row, s: Row)
    requires Located(rows) && Reconcile(rows, []).Accepted?
    requires r in rows && s in rows && ShareIdentifier(r, s)
    ensures exists o :: && o in Reconcile(rows, []).rows
                        && Face(o) == Face(Completed(LinkAll(rows), r)) == Face(Completed(LinkAll(rows), s))
  {
    AcceptedExactly(rows, []);
    SharedIdentifierSharesKey(rows, r, s);
    var i :| 0 <= i < |rows| && rows[i] == r;
    var j :| 0 <= j < |rows| && rows[j] == s;
    var o := ListedRowOf(rows, i);
    assert Completions(rows)[i] in Completions(rows) && Completions(rows)[j] in Completions(rows);
  }

  // ----- A reconciled universe reconciles to itself -----

  lemma AgreeDistinct(cs: seq<Row>)
    requires DistinctKeys(cs)
    ensures Agree(cs)
  {
  }

  lemma MergedNone()
    ensures Merged(MergeAll([])) == []
  {
  }

  lemma {:induction false} MergeDistinct(cs: seq<Row>)
    requires Located(cs) && DistinctKeys(cs)
    ensures MergeAll(cs).findings == [] && Merged(MergeAll(cs)) == cs
  {
    hide Merged, MergeRow, Filing, Extended, Face, IsOrderOf, Originates, Files;
    MergeClean(cs);
    AgreeDistinct(cs);
    if cs == [] {
      MergedNone();
    } else {
      MergeDistinct(cs[..|cs| - 1]);
      CleanMergeFiles(cs);
      AppendDistinct(cs, MergeAll(cs[..|cs| - 1]), MergeAll(cs));
    }
  }

  lemma AppendDistinct(cs: seq<Row>, st: Merge, next: Merge)
    requires cs != [] && DistinctKeys(cs) && IsOrderOf(st)
    requires Merged(st) == cs[..|cs| - 1] && next == Filing(st, Extended(st, cs[|cs| - 1]))
    requires Extended(st, cs[|cs| - 1]).key == cs[|cs| - 1].key
    requires forall k :: k in next.order ==> k in next.normalized
    ensures Merged(next) == cs
  {
    var c := cs[|cs| - 1];
    assert Merged(next) == Merged(st) + [c];
  }

  lemma OutputPairs(rows: seq<Row>)
    requires Located(rows) && Reconcile(rows, []).Accepted?
    ensures Pairs(Reconcile(rows, []).rows) == Pairs(rows)
  {
    AcceptedExactly(rows, []);
    forall p ensures p in Pairs(Reconcile(rows, []).rows) <==> p in Pairs(rows) {
      if p in Pairs(Reconcile(rows, []).rows) { OutputPairStated(rows, p); }
      if p in Pairs(rows) { StatedPairListed(rows, p); }
    }
  }

  lemma OutputPairStated(rows: seq<Row>, p: (Id, Id))
    requires Located(rows) && Reconcile(rows, []).Accepted? && p in Pairs(Reconcile(rows, []).rows)
    ensures p in Pairs(rows)
  {
    AcceptedExactly(rows, []);
    var o :| o in Reconcile(rows, []).rows && Paired(o) && p == (o.figi.value, o.bbg.value);
    var i := ListedRowOrigin(rows, o);
    CompletedIds(rows, rows[i]);
  }

  lemma StatedPairListed(rows: seq<Row>, p: (Id, Id))
    requires Located(rows) && Reconcile(rows, []).Accepted? && p in Pairs(rows)
    ensures p in Pairs(Reconcile(rows, []).rows)
  {
    hide Reconcile, KeyOf, Face, Bare, LinkAll;
    var r :| r in rows && Paired(r) && p == (r.figi.value, r.bbg.value);
    var i :| 0 <= i < |rows| && rows[i] == r;
    var o := ListedRowOf(rows, i);
  }

  /** Completing a completed row again, whatever its locators, changes nothing. */
  lemma CompletionSettles(rows: seq<Row>, r: Row, o: Row)
    requires Located(rows) && Bijective(Pairs(rows)) && r in rows && RowFindings(r) == []
    requires Bare(Completed(LinkAll(rows), r)) == Bare(o) && o.locators != []
    ensures Completed(LinkAll(rows), o) == o && RowFindings(o) == []
  {
    LinksClean(rows);
    CompletedIds(rows, r);
    var c := Completed(LinkAll(rows), r);
    assert o == Bare(c).(locators := o.locators);
  }

  lemma OutputRowSettled(rows: seq<Row>, o: Row)
    requires Located(rows) && Reconcile(rows, []).Accepted? && o in Reconcile(rows, []).rows
    ensures o.locators != [] && Completed(LinkAll(rows), o) == o && RowFindings(o) == []
  {
    AcceptedExactly(rows, []);
    var i := ListedRowOrigin(rows, o);
    var p := ListedRowOf(rows, i);
    ListedInOrder(rows);
    assert p == o;
    assert rows[i].locators[0] in multiset(rows[i].locators);
    assert rows[i].locators[0] in multiset(o.locators);
    CompletionSettles(rows, rows[i], o);
  }

  lemma OutputLinks(rows: seq<Row>)
    requires Located(rows) && Reconcile(rows, []).Accepted?
    ensures var out := Reconcile(rows, []).rows;
            && Located(out) && LinkAll(out) == LinkAll(rows) && LinkAllFindings(out) == []
            && forall o :: o in out ==> Completed(LinkAll(rows), o) == o && RowFindings(o) == []
  {
    hide Reconcile, LinkAll, LinkAllFindings, Completed, RowFindings, Pairs, Matches, Bijective;
    var out := Reconcile(rows, []).rows;
    forall o | o in out ensures o.locators != [] && Completed(LinkAll(rows), o) == o && RowFindings(o) == [] {
      OutputRowSettled(rows, o);
    }
    OutputPairs(rows);
    AcceptedExactly(rows, []);
    LinksClean(rows);
    LinksClean(out);
    MatchesUnique(LinkAll(rows), LinkAll(out), Pairs(rows));
  }

  /** Idempotence: reconciling an accepted universe again accepts it and returns it unchanged. */
  lemma ReconcileFixedPoint(rows: seq<Row>)
    requires Located(rows) && Reconcile(rows, []).Accepted?
    ensures Located(Reconcile(rows, []).rows)
    ensures Reconcile(Reconcile(rows, []).rows, []) == Reconcile(rows, [])
  {
    hide LinkAll, LinkAllFindings, Completed, RowFindings, MergeAll, Merged, Sorted, CheckRows, IsListing;
    var out := Reconcile(rows, []).rows;
    OutputLinks(rows);
    assert Completions(out) == out;
    ListedInOrder(rows);
    MergeDistinct(out);
    SortedFixed(out);
    CheckRowsClean(out);
  }
}
