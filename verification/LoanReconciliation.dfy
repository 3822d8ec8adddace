/**
 * Reconciliation of the normalised rows of a loan workbook: the identifier
 * links of the first pass, completion and merging in the second, as functions
 * of the row list. LoanUniverse runs the same steps on mutable rows.
 */
module LoanReconciliation {
  import opened Common
  import opened LoanRows

  const MAX_FINDINGS := 200

  datatype Kind =
    | Earlier(code: string)
    | BorrowerMissing
    | InstrumentIdMissing
    | FigiMapsToManyBbg
    | BbgMapsToManyFigi
    | KeyHasConflictingIds
    | DuplicateConflict

  datatype Finding = Finding(kind: Kind, at: Option<Locator>)

  datatype Outcome = Rejected(findings: seq<Finding>) | Accepted(rows: seq<Row>)

  ghost predicate Located(rows: seq<Row>) {
    forall r :: r in rows ==> r.locators != []
  }

  function Raise(kind: Kind, r: Row): Finding
    requires r.locators != []
  {
    Finding(kind, Some(r.locators[0]))
  }

  // ----- Row checks and keys -----

  function RowFindings(r: Row): seq<Finding>
    requires r.locators != []
  {
    (if r.borrower.GetOr("") == "" then [Raise(BorrowerMissing, r)] else []) +
    (if r.figi.None? && r.bbg.None? then [Raise(InstrumentIdMissing, r)] else [])
  }

  function Keyed(r: Row): Row
    requires r.locators != []
  {
    r.(key := KeyOf(r))
  }

  function CheckRows(rows: seq<Row>): seq<Finding>
    requires Located(rows)
  {
    if rows == [] then [] else CheckRows(rows[..|rows| - 1]) + RowFindings(rows[|rows| - 1])
  }

  // ----- First pass: which identifiers name the same instrument -----

  datatype Links = Links(bbgOf: map<Id, Id>, figiOf: map<Id, Id>)

  predicate Paired(r: Row) {
    r.figi.Some? && r.bbg.Some?
  }

  function LinkFindings(m: Links, r: Row): seq<Finding>
    requires r.locators != []
  {
    if !Paired(r) then []
    else
      (if r.figi.value in m.bbgOf && m.bbgOf[r.figi.value] != r.bbg.value
       then [Raise(FigiMapsToManyBbg, r)] else []) +
      (if r.bbg.value in m.figiOf && m.figiOf[r.bbg.value] != r.figi.value
       then [Raise(BbgMapsToManyFigi, r)] else [])
  }

  function Link(m: Links, r: Row): Links {
    if !Paired(r) then m
    else Links(m.bbgOf[r.figi.value := r.bbg.value], m.figiOf[r.bbg.value := r.figi.value])
  }

  function LinkAll(rows: seq<Row>): Links {
    if rows == [] then Links(map[], map[]) else Link(LinkAll(rows[..|rows| - 1]), rows[|rows| - 1])
  }

  function LinkAllFindings(rows: seq<Row>): seq<Finding>
    requires Located(rows)
  {
    if rows == [] then []
    else
      var front := rows[..|rows| - 1];
      LinkAllFindings(front) + LinkFindings(LinkAll(front), rows[|rows| - 1])
  }

  // ----- Second pass: complete, re-key and merge -----

  function Lookup(m: map<Id, Id>, k: Id): Option<Id> {
    if k in m then Some(m[k]) else None
  }

  function Complete(m: Links, r: Row): Row
    requires r.locators != []
  {
    var c :=
      if r.figi.Some? && r.bbg.None? then r.(bbg := Lookup(m.bbgOf, r.figi.value))
      else if r.bbg.Some? && r.figi.None? then r.(figi := Lookup(m.figiOf, r.bbg.value))
      else r;
    if c.figi.Some? || c.bbg.Some? then Keyed(c) else c
  }

  /** A row as the second pass leaves it. */
  function Completed(m: Links, r: Row): Row
    requires r.locators != []
  {
    Complete(m, Keyed(r))
  }

  datatype Merge = Merge(
    identities: map<string, (Option<Id>, Option<Id>)>,
    order: seq<string>,
    normalized: map<string, Row>,
    findings: seq<Finding>)

  function MergeRow(st: Merge, c: Row): Merge
    requires c.locators != []
  {
    var clash :=
      if c.key in st.identities && st.identities[c.key] != (c.figi, c.bbg)
      then [Raise(KeyHasConflictingIds, c)] else [];
    var known := st.(identities := st.identities[c.key := (c.figi, c.bbg)], findings := st.findings + clash);
    if c.key !in st.normalized then
      known.(order := st.order + [c.key], normalized := st.normalized[c.key := c])
    else
      var existing := st.normalized[c.key];
      if Face(c) != Face(existing) then
        known.(findings := known.findings + [Raise(DuplicateConflict, c)])
      else
        known.(normalized := st.normalized[c.key := existing.(locators := existing.locators + c.locators)])
  }

  /** What one merge step raises. */
  function StepFindings(st: Merge, c: Row): seq<Finding>
    requires c.locators != []
    ensures MergeRow(st, c).findings == st.findings + StepFindings(st, c)
  {
    (if c.key in st.identities && st.identities[c.key] != (c.figi, c.bbg)
     then [Raise(KeyHasConflictingIds, c)] else []) +
    (if c.key in st.normalized && Face(c) != Face(st.normalized[c.key])
     then [Raise(DuplicateConflict, c)] else [])
  }

  function CompletedAll(m: Links, rows: seq<Row>): (cs: seq<Row>)
    requires Located(rows)
    ensures |cs| == |rows| && forall i :: 0 <= i < |rows| ==> cs[i] == Completed(m, rows[i])
    ensures Located(cs)
  {
    seq(|rows|, i requires 0 <= i < |rows| => Completed(m, rows[i]))
  }

  function MergeAll(cs: seq<Row>): (st: Merge)
    requires Located(cs)
    ensures forall k :: k in st.order ==> k in st.normalized
  {
    if cs == [] then Merge(map[], [], map[], [])
    else MergeRow(MergeAll(cs[..|cs| - 1]), cs[|cs| - 1])
  }

  function Merged(st: Merge): (s: seq<Row>)
    requires forall k :: k in st.order ==> k in st.normalized
    ensures |s| == |st.order| && forall i :: 0 <= i < |s| ==> s[i] == st.normalized[st.order[i]]
  {
    seq(|st.order|, i requires 0 <= i < |st.order| => st.normalized[st.order[i]])
  }

  function AllFindings(rows: seq<Row>, prior: seq<Finding>): seq<Finding>
    requires Located(rows)
  {
    prior + CheckRows(rows) + LinkAllFindings(rows) + MergeAll(CompletedAll(LinkAll(rows), rows)).findings
  }

  /** The whole reconciliation, given the findings raised before it. */
  function Reconcile(rows: seq<Row>, prior: seq<Finding>): Outcome
    requires Located(rows)
  {
    if AllFindings(rows, prior) != [] then Rejected(Take(AllFindings(rows, prior), MAX_FINDINGS))
    else Accepted(Sorted(Merged(MergeAll(CompletedAll(LinkAll(rows), rows)))))
  }

  // ----- What acceptance means, without any order -----

  /** The identifier pairs that some row states in full. */
  function Pairs(rows: seq<Row>): set<(Id, Id)> {
    set r | r in rows && Paired(r) :: (r.figi.value, r.bbg.value)
  }

  ghost predicate Bijective(pairs: set<(Id, Id)>) {
    forall p, q :: p in pairs && q in pairs ==> (p.0 == q.0 <==> p.1 == q.1)
  }

  ghost predicate Matches(m: Links, pairs: set<(Id, Id)>) {
    && (forall p :: p in pairs ==>
          && p.0 in m.bbgOf && m.bbgOf[p.0] == p.1
          && p.1 in m.figiOf && m.figiOf[p.1] == p.0)
    && (forall f :: f in m.bbgOf ==> (f, m.bbgOf[f]) in pairs)
    && (forall b :: b in m.figiOf ==> (m.figiOf[b], b) in pairs)
  }

  /** Rows under one key state the same values. */
  ghost predicate Agree(cs: seq<Row>) {
    forall c, d :: c in cs && d in cs && c.key == d.key ==> Face(c) == Face(d)
  }

  ghost predicate Acceptable(rows: seq<Row>)
    requires Located(rows)
  {
    && (forall r :: r in rows ==> RowFindings(r) == [])
    && Bijective(Pairs(rows))
    && Agree(CompletedAll(LinkAll(rows), rows))
  }

  lemma {:induction false} CheckRowsClean(rows: seq<Row>)
    requires Located(rows)
    ensures CheckRows(rows) == [] <==> forall r :: r in rows ==> RowFindings(r) == []
  {
    if rows != [] {
      var front, last := rows[..|rows| - 1], rows[|rows| - 1];
      CheckRowsClean(front);
      assert last in rows;
      assert rows == front + [last];
    }
  }

  function PairOf(r: Row): set<(Id, Id)> {
    if Paired(r) then {(r.figi.value, r.bbg.value)} else {}
  }

  lemma PairsOfFront(rows: seq<Row>)
    requires rows != []
    ensures var front, r := rows[..|rows| - 1], rows[|rows| - 1];
            Pairs(rows) == Pairs(front) + PairOf(r)
  {
    assert rows == rows[..|rows| - 1] + [rows[|rows| - 1]];
  }

  /** One row against maps that hold the pairs so far. */
  lemma LinkStepClean(m: Links, pairs: set<(Id, Id)>, r: Row)
    requires r.locators != [] && Matches(m, pairs) && Bijective(pairs)
    ensures LinkFindings(m, r) == [] <==> Bijective(pairs + PairOf(r))
    ensures LinkFindings(m, r) == [] ==> Matches(Link(m, r), pairs + PairOf(r))
  {
    hide Raise;
    if Paired(r) {
      var f, b := r.figi.value, r.bbg.value;
      assert (f, b) in pairs + PairOf(r);
      if f in m.bbgOf && m.bbgOf[f] != b {
        assert (f, m.bbgOf[f]) in pairs + PairOf(r);
      }
      if b in m.figiOf && m.figiOf[b] != f {
        assert (m.figiOf[b], b) in pairs + PairOf(r);
      }
    } else {
      assert pairs + PairOf(r) == pairs;
    }
  }

  /**
   * The overwriting maps of the first pass raise no finding exactly when the
   * stated pairs are one-to-one, and then they hold exactly those pairs.
   */
  lemma {:induction false} LinksClean(rows: seq<Row>)
    requires Located(rows)
    ensures LinkAllFindings(rows) == [] <==> Bijective(Pairs(rows))
    ensures LinkAllFindings(rows) == [] ==> Matches(LinkAll(rows), Pairs(rows))
  {
    hide LinkFindings, Link;
    if rows != [] {
      var front, r := rows[..|rows| - 1], rows[|rows| - 1];
      LinksClean(front);
      PairsOfFront(rows);
      if LinkAllFindings(front) == [] {
        LinkStepClean(LinkAll(front), Pairs(front), r);
      }
    }
  }

  /** One-to-one pairs determine the maps, whatever order they were met in. */
  lemma MatchesUnique(m: Links, n: Links, pairs: set<(Id, Id)>)
    requires Matches(m, pairs) && Matches(n, pairs)
    ensures m == n
  {
    assert m.bbgOf == n.bbgOf by {
      assert forall f :: f in m.bbgOf ==> (f, m.bbgOf[f]) in pairs && f in n.bbgOf;
      assert forall f :: f in n.bbgOf ==> (f, n.bbgOf[f]) in pairs && f in m.bbgOf;
    }
    assert m.figiOf == n.figiOf by {
      assert forall b :: b in m.figiOf ==> (m.figiOf[b], b) in pairs && b in n.figiOf;
      assert forall b :: b in n.figiOf ==> (n.figiOf[b], b) in pairs && b in m.figiOf;
    }
  }

  // ----- The merge, described -----

  function Bare(r: Row): Row {
    r.(locators := [])
  }

  ghost predicate IsOrderOf(st: Merge) {
    && (forall k :: k in st.normalized <==> k in st.order)
    && (forall k :: k in st.normalized <==> k in st.identities)
    && (forall i, j :: 0 <= i < j < |st.order| ==> st.order[i] != st.order[j])
    && (forall k :: k in st.normalized ==>
          && st.normalized[k].key == k
          && st.identities[k] == (st.normalized[k].figi, st.normalized[k].bbg))
  }

  /** Every merged row is, locators aside, one of the rows filed under its key. */
  ghost predicate Originates(cs: seq<Row>, st: Merge) {
    forall k :: k in st.normalized ==> exists c :: c in cs && Bare(c) == Bare(st.normalized[k])
  }

  /** Every row is filed under its key, and agrees with what is filed there. */
  ghost predicate Files(cs: seq<Row>, st: Merge) {
    forall c :: c in cs ==> c.key in st.normalized && Face(st.normalized[c.key]) == Face(c)
  }

  lemma FaceOfBare(r: Row, s: Row)
    requires Bare(r) == Bare(s)
    ensures Face(r) == Face(s)
  {
    assert r.numbers == Bare(r).numbers && s.numbers == Bare(s).numbers;
  }

  /** Same face, same identifiers and key. */
  lemma FaceFields(r: Row, s: Row)
    requires Face(r) == Face(s)
    ensures r.figi == s.figi && r.bbg == s.bbg && r.key == s.key && RankOf(r) == RankOf(s)
  {
    assert r.figi == Face(r).figi && r.bbg == Face(r).bbg && r.key == Face(r).key;
    assert r.sector == Face(r).sector && r.borrower == Face(r).borrower;
  }

  /** Compare-with-first merging is clean exactly when all rows under each key agree. */
  lemma {:induction false} MergeClean(cs: seq<Row>)
    requires Located(cs)
    ensures MergeAll(cs).findings == [] <==> Agree(cs)
    ensures MergeAll(cs).findings == [] ==>
              IsOrderOf(MergeAll(cs)) && Originates(cs, MergeAll(cs)) && Files(cs, MergeAll(cs))
  {
    if cs != [] {
      var front, c, st := cs[..|cs| - 1], cs[|cs| - 1], MergeAll(cs[..|cs| - 1]);
      assert cs == front + [c];
      MergeClean(front);
      if st.findings != [] {
        DisagreeGrows(front, c);
      } else if c.key in st.normalized && Face(c) != Face(st.normalized[c.key]) {
        MergeClash(front, c, st);
      } else {
        MergeStepClean(front, c, st);
      }
    }
  }

  lemma DisagreeGrows(front: seq<Row>, c: Row)
    requires !Agree(front)
    ensures !Agree(front + [c])
  {
    var a, b :| a in front && b in front && a.key == b.key && Face(a) != Face(b);
    assert a in front + [c] && b in front + [c];
  }

  /** Filing x under its key: a new row, or the row filed before with more locators. */
  function Filing(st: Merge, x: Row): Merge {
    Merge(st.identities[x.key := (x.figi, x.bbg)],
          if x.key in st.normalized then st.order else st.order + [x.key],
          st.normalized[x.key := x],
          st.findings)
  }

  function Extended(st: Merge, c: Row): Row {
    if c.key in st.normalized
    then st.normalized[c.key].(locators := st.normalized[c.key].locators + c.locators) else c
  }

  lemma CleanStepFiles(st: Merge, c: Row)
    requires c.locators != [] && IsOrderOf(st)
    requires c.key in st.normalized ==> Face(c) == Face(st.normalized[c.key])
    ensures MergeRow(st, c) == Filing(st, Extended(st, c))
    ensures Face(Extended(st, c)) == Face(c) && Extended(st, c).key == c.key
    ensures c.key in st.normalized ==> Bare(Extended(st, c)) == Bare(st.normalized[c.key])
  {
    if c.key in st.normalized {
      FaceFields(c, st.normalized[c.key]);
      FaceOfBare(st.normalized[c.key], Extended(st, c));
      assert st.order == Filing(st, Extended(st, c)).order;
    }
  }

  lemma FilingKeys(st: Merge, x: Row)
    requires IsOrderOf(st)
    ensures var next := Filing(st, x);
            && (forall k :: k in next.normalized <==> k in st.normalized || k == x.key)
            && (forall k :: k in next.identities <==> k in st.normalized || k == x.key)
            && (forall k :: k in next.normalized ==>
                  && next.normalized[k].key == k
                  && next.identities[k] == (next.normalized[k].figi, next.normalized[k].bbg))
  {
  }

  lemma FilingLists(st: Merge, x: Row)
    requires IsOrderOf(st)
    ensures var next := Filing(st, x);
            && (forall k :: k in next.order <==> k in st.normalized || k == x.key)
            && (forall i, j :: 0 <= i < j < |next.order| ==> next.order[i] != next.order[j])
  {
  }

  lemma FilingIsOrder(st: Merge, x: Row)
    requires IsOrderOf(st)
    ensures IsOrderOf(Filing(st, x))
  {
    hide Filing;
    FilingKeys(st, x);
    FilingLists(st, x);
  }

  lemma FilingOriginates(front: seq<Row>, c: Row, st: Merge, x: Row)
    requires Originates(front, st)
    requires Bare(x) == Bare(c) || (x.key in st.normalized && Bare(x) == Bare(st.normalized[x.key]))
    ensures Originates(front + [c], Filing(st, x))
  {
    assert c in front + [c];
    forall k | k in Filing(st, x).normalized
      ensures exists d :: d in front + [c] && Bare(d) == Bare(Filing(st, x).normalized[k])
    {
      if k in st.normalized {
        var d :| d in front && Bare(d) == Bare(st.normalized[k]);
        assert d in front + [c];
      }
    }
  }

  lemma FilingFiles(front: seq<Row>, c: Row, st: Merge, x: Row)
    requires Files(front, st) && c.key == x.key && Face(x) == Face(c)
    requires x.key in st.normalized ==> Face(x) == Face(st.normalized[x.key])
    ensures Files(front + [c], Filing(st, x))
    ensures Agree(front + [c])
  {
  }

  lemma MergeStepClean(front: seq<Row>, c: Row, st: Merge)
    requires c.locators != [] && st.findings == []
    requires IsOrderOf(st) && Originates(front, st) && Files(front, st)
    requires c.key in st.normalized ==> Face(c) == Face(st.normalized[c.key])
    ensures var next := MergeRow(st, c);
            next.findings == [] && IsOrderOf(next) && Originates(front + [c], next) && Files(front + [c], next)
    ensures Agree(front + [c])
  {
    var x := Extended(st, c);
    CleanStepFiles(st, c);
    FilingIsOrder(st, x);
    FilingOriginates(front, c, st, x);
    FilingFiles(front, c, st, x);
  }

  lemma MergeClash(front: seq<Row>, c: Row, st: Merge)
    requires c.locators != [] && c.key in st.normalized && Face(c) != Face(st.normalized[c.key])
    requires IsOrderOf(st) && Originates(front, st)
    ensures MergeRow(st, c).findings != []
    ensures !Agree(front + [c])
  {
    var a :| a in front && Bare(a) == Bare(st.normalized[c.key]);
    FaceOfBare(a, st.normalized[c.key]);
    FaceFields(a, st.normalized[c.key]);
    assert a in front + [c] && c in front + [c];
  }

  /** While nothing is found, each step of the merge files one row. */
  lemma CleanMergeFiles(cs: seq<Row>)
    requires Located(cs) && cs != [] && MergeAll(cs).findings == []
    ensures var st, c := MergeAll(cs[..|cs| - 1]), cs[|cs| - 1];
            && st.findings == [] && IsOrderOf(st)
            && MergeAll(cs) == Filing(st, Extended(st, c)) && Extended(st, c).key == c.key
            && (c.key in st.normalized ==> Bare(Extended(st, c)) == Bare(st.normalized[c.key]))
  {
    MergeClean(cs[..|cs| - 1]);
    CleanStepFiles(MergeAll(cs[..|cs| - 1]), cs[|cs| - 1]);
  }

  lemma MergeRowIdentities(st: Merge, c: Row)
    requires c.locators != []
    ensures MergeRow(st, c).identities == st.identities[c.key := (c.figi, c.bbg)]
    ensures forall f :: f in MergeRow(st, c).findings && f.kind == KeyHasConflictingIds ==>
              f in st.findings || (c.key in st.identities && st.identities[c.key] != (c.figi, c.bbg))
  {
  }

  /** Acceptance, order-free: nothing raised before, complete rows, one-to-one identifiers, agreeing duplicates. */
  lemma AcceptedExactly(rows: seq<Row>, prior: seq<Finding>)
    requires Located(rows)
    ensures Reconcile(rows, prior).Accepted? <==> prior == [] && Acceptable(rows)
  {
    CheckRowsClean(rows);
    LinksClean(rows);
    MergeClean(CompletedAll(LinkAll(rows), rows));
  }

  /** The cap hides findings beyond the two hundredth; it never hides a rejection. */
  lemma CapKeepsRejection(rows: seq<Row>, prior: seq<Finding>)
    requires Located(rows)
    ensures Reconcile(rows, prior).Rejected? ==>
              var shown, all := Reconcile(rows, prior).findings, AllFindings(rows, prior);
              shown != [] && shown == if |all| > 200 then all[..200] else all
    ensures Reconcile(rows, prior).Accepted? <==> AllFindings(rows, prior) == []
  {
  }
}
