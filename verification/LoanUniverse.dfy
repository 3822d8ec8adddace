/**
 * The reconciliation as the importer runs it: rows are mutable records updated in place,
 * the merged table refers to those same records, and findings accumulate under a cap.
 */
module LoanUniverse {
  import opened Common
  import opened LoanRows
  import opened LoanReconciliation

  /** The findings list; `raised` is what it would hold without its cap. */
  class Findings {
    var items: seq<Finding>
    ghost var raised: seq<Finding>

    ghost predicate Valid()
      reads this
    {
      items == Take(raised, MAX_FINDINGS)
    }

    constructor ()
      ensures Valid() && raised == []
    {
      items, raised := [], [];
    }

    method Add(finding: Finding)
      requires Valid()
      modifies this
      ensures Valid() && raised == old(raised) + [finding]
    {
      raised := raised + [finding];
      if |items| >= MAX_FINDINGS {
        return;
      }
      items := items + [finding];
    }
  }

  class LoanRow {
    var figi: Option<Id>
    var bbg: Option<Id>
    var key: string
    var locators: seq<Locator>
    const sector: string
    const borrower: Option<string>
    const texts: seq<Option<string>>
    const numbers: seq<Option<Number>>

    constructor (r: Row)
      ensures View() == r
    {
      figi, bbg, key, locators := r.figi, r.bbg, r.key, r.locators;
      sector, borrower, texts, numbers := r.sector, r.borrower, r.texts, r.numbers;
    }

    function View(): Row
      reads this
    {
      Row(figi, bbg, sector, borrower, texts, numbers, key, locators)
    }

    /** The tail of row normalisation: required fields are checked and the key is formed. */
    method FormKey(findings: Findings)
      requires locators != [] && findings.Valid()
      modifies this, findings
      ensures View() == Keyed(old(View()))
      ensures findings.Valid() && findings.raised == old(findings.raised) + RowFindings(old(View()))
    {
      var at := Some(locators[0]);
      if borrower.GetOr("") == "" {
        findings.Add(Finding(BorrowerMissing, at));
      }
      if figi.None? && bbg.None? {
        findings.Add(Finding(InstrumentIdMissing, at));
      }
      key := KeyOf(View());
    }

    /** Fill in the identifier the row does not state, where some row states the pair. */
    method CompleteIds(m: Links)
      requires locators != []
      modifies this
      ensures View() == Complete(m, old(View()))
    {
      if figi.Some? && bbg.None? {
        bbg := Lookup(m.bbgOf, figi.value);
      } else if bbg.Some? && figi.None? {
        figi := Lookup(m.figiOf, bbg.value);
      }
      if figi.Some? || bbg.Some? {
        key := KeyOf(View());
      }
    }
  }

  function Views(rows: seq<LoanRow>): (vs: seq<Row>)
    reads rows
    ensures |vs| == |rows| && forall i :: 0 <= i < |rows| ==> vs[i] == rows[i].View()
  {
    seq(|rows|, i requires 0 <= i < |rows| reads rows => rows[i].View())
  }

  ghost predicate Distinct(rows: seq<LoanRow>) {
    forall i, j :: 0 <= i < j < |rows| ==> rows[i] != rows[j]
  }

  lemma CheckNone(was: seq<Row>)
    requires Located(was)
    ensures CheckRows(was[..0]) == []
  {
  }

  lemma CheckStep(was: seq<Row>, i: nat)
    requires Located(was) && i < |was|
    ensures was[i].locators != [] && CheckRows(was[..i + 1]) == CheckRows(was[..i]) + RowFindings(was[i])
  {
    assert was[i] in was && was[..i + 1][..i] == was[..i];
  }

  method FormKeys(rows: seq<LoanRow>, findings: Findings)
    requires Distinct(rows) && Located(Views(rows)) && findings.Valid()
    modifies rows, findings
    ensures Located(old(Views(rows)))
    ensures forall i :: 0 <= i < |rows| ==> rows[i].View() == Keyed(old(Views(rows))[i])
    ensures findings.Valid() && findings.raised == old(findings.raised) + CheckRows(old(Views(rows)))
  {
    hide KeyOf, RowFindings, CheckRows;
    CheckNone(Views(rows));
    ghost var was := Views(rows);
    for i := 0 to |rows|
      invariant findings.Valid()
      invariant findings.raised == old(findings.raised) + CheckRows(was[..i])
      invariant forall j :: 0 <= j < i ==> rows[j].View() == Keyed(was[j])
      invariant forall j :: i <= j < |rows| ==> rows[j].View() == was[j]
    {
      CheckStep(was, i);
      rows[i].FormKey(findings);
    }
    assert was[..|rows|] == was;
  }

  lemma LinkNone(was: seq<Row>)
    requires Located(was)
    ensures LinkAll(was[..0]) == Links(map[], map[]) && LinkAllFindings(was[..0]) == []
  {
  }

  lemma LinkStep(was: seq<Row>, i: nat)
    requires Located(was) && i < |was|
    ensures was[i].locators != [] && LinkAll(was[..i + 1]) == Link(LinkAll(was[..i]), was[i])
    ensures LinkAllFindings(was[..i + 1]) == LinkAllFindings(was[..i]) + LinkFindings(LinkAll(was[..i]), was[i])
  {
    assert was[i] in was && was[..i + 1][..i] == was[..i];
  }

  /** The first pass: collect both identifier maps, reporting a pair that contradicts them. */
  method CollectLinks(rows: seq<LoanRow>, ghost was: seq<Row>, findings: Findings) returns (m: Links)
    requires Located(was) && |was| == |rows| && findings.Valid()
    requires forall i :: 0 <= i < |rows| ==> rows[i].View() == Keyed(was[i])
    modifies findings
    ensures m == LinkAll(was)
    ensures findings.Valid() && findings.raised == old(findings.raised) + LinkAllFindings(was)
  {
    hide KeyOf, LinkAll, LinkAllFindings;
    LinkNone(was);
    m := Links(map[], map[]);
    for i := 0 to |rows|
      invariant m == LinkAll(was[..i])
      invariant findings.Valid() && findings.raised == old(findings.raised) + LinkAllFindings(was[..i])
    {
      var row := rows[i];
      assert row.View() == Keyed(was[i]) && was[i] in was;
      LinkStep(was, i);
      if row.figi.Some? && row.bbg.Some? {
        var f, b := row.figi.value, row.bbg.value;
        if f in m.bbgOf && m.bbgOf[f] != b {
          findings.Add(Finding(FigiMapsToManyBbg, Some(row.locators[0])));
        }
        if b in m.figiOf && m.figiOf[b] != f {
          findings.Add(Finding(BbgMapsToManyFigi, Some(row.locators[0])));
        }
        m := Links(m.bbgOf[f := b], m.figiOf[b := f]);
      }
    }
    assert was[..|rows|] == was;
  }

  lemma {:induction false} MergedUnderOwnKey(cs: seq<Row>)
    requires Located(cs)
    ensures forall k :: k in MergeAll(cs).normalized ==> MergeAll(cs).normalized[k].key == k
    ensures forall k :: k in MergeAll(cs).normalized ==> k in MergeAll(cs).order
  {
    if cs != [] {
      MergedUnderOwnKey(cs[..|cs| - 1]);
    }
  }

  /** The merged table: keys in first-met order, each referring to a row record. */
  ghost predicate Refers(normalized: map<string, LoanRow>, table: map<string, Row>, rows: set<LoanRow>)
    reads rows
  {
    && normalized.Keys == table.Keys
    && (forall k :: k in normalized ==> normalized[k] in rows && normalized[k].View() == table[k])
  }

  ghost function Upto(rows: seq<LoanRow>, i: nat): set<LoanRow>
    requires i <= |rows|
  {
    set j | 0 <= j < i :: rows[j]
  }

  lemma MergeRowNormalized(st: Merge, c: Row)
    requires c.locators != []
    ensures var next := MergeRow(st, c).normalized;
            if c.key !in st.normalized then next == st.normalized[c.key := c]
            else if Face(c) != Face(st.normalized[c.key]) then next == st.normalized
            else next == st.normalized[c.key := MoreLocators(st.normalized[c.key], c.locators)]
  {
  }

  function IdentityFindings(st: Merge, c: Row): seq<Finding>
    requires c.locators != []
  {
    if c.key in st.identities && st.identities[c.key] != (c.figi, c.bbg)
    then [Finding(KeyHasConflictingIds, Some(c.locators[0]))] else []
  }

  lemma MergeRowRaises(st: Merge, c: Row, was: seq<Finding>)
    requires c.locators != []
    ensures var first := was + IdentityFindings(st, c);
            if c.key in st.normalized && Face(c) != Face(st.normalized[c.key])
            then was + StepFindings(st, c) == first + [Finding(DuplicateConflict, Some(c.locators[0]))]
            else was + StepFindings(st, c) == first
  {
  }

  function MoreLocators(r: Row, locators: seq<Locator>): Row {
    r.(locators := r.locators + locators)
  }

  /** The row filed under k gains locators; the records filed under other keys are not touched. */
  method Extend(k: string, added: seq<Locator>, normalized: map<string, LoanRow>,
                ghost table: map<string, Row>, ghost seen: set<LoanRow>)
    requires k in normalized && Refers(normalized, table, seen)
    requires forall j :: j in table ==> table[j].key == j
    modifies normalized[k]
    ensures Refers(normalized, table[k := MoreLocators(table[k], added)], seen)
  {
    var existing := normalized[k];
    existing.locators := existing.locators + added;
    assert forall j :: j in normalized && j != k ==> table[j].key != table[k].key;
  }

  /** Merge one completed row into the row filed under its key, or file it. */
  method MergeInto(row: LoanRow, identity: Option<(Option<Id>, Option<Id>)>, normalized: map<string, LoanRow>,
                   findings: Findings, ghost st: Merge, ghost seen: set<LoanRow>)
    returns (merged: map<string, LoanRow>)
    requires row.locators != [] && row !in seen && findings.Valid() && Refers(normalized, st.normalized, seen)
    requires identity == if row.key in st.identities then Some(st.identities[row.key]) else None
    requires forall k :: k in st.normalized ==> st.normalized[k].key == k
    modifies seen, findings
    ensures row.View() == old(row.View())
    ensures Refers(merged, MergeRow(st, row.View()).normalized, seen + {row})
    ensures findings.Valid() && findings.raised == old(findings.raised) + StepFindings(st, row.View())
  {
    hide Face, KeyOf, Take, MergeRow, MoreLocators, Keyed, StepFindings;
    ghost var c, was := row.View(), findings.raised;
    MergeRowNormalized(st, c);
    MergeRowRaises(st, c, was);
    if identity.Some? && identity.value != (row.figi, row.bbg) {
      findings.Add(Finding(KeyHasConflictingIds, Some(row.locators[0])));
    }
    assert row.View() == c;
    if row.key !in normalized {
      merged := normalized[row.key := row];
      return;
    }
    merged := normalized;
    var existing := normalized[row.key];
    assert existing.View() == st.normalized[row.key];
    if Face(row.View()) != Face(existing.View()) {
      findings.Add(Finding(DuplicateConflict, Some(row.locators[0])));
    } else {
      Extend(row.key, row.locators, normalized, st.normalized, seen);
    }
  }

  type Identities = map<string, (Option<Id>, Option<Id>)>

  lemma MergeRowStep(st: Merge, c: Row)
    requires c.locators != []
    ensures MergeRow(st, c).findings == st.findings + StepFindings(st, c)
    ensures MergeRow(st, c).identities == st.identities[c.key := (c.figi, c.bbg)]
    ensures MergeRow(st, c).order == if c.key in st.normalized then st.order else st.order + [c.key]
  {
  }

  lemma RefersKeys(normalized: map<string, LoanRow>, table: map<string, Row>, rows: set<LoanRow>)
    requires Refers(normalized, table, rows)
    ensures normalized.Keys == table.Keys
  {
  }

  /** One row of the second pass: complete it, re-key it, and merge it. */
  method AdmitRow(row: LoanRow, m: Links, identities: Identities, order: seq<string>, normalized: map<string, LoanRow>,
                  findings: Findings, ghost base: seq<Finding>, ghost st: Merge, ghost seen: set<LoanRow>)
    returns (identities': Identities, order': seq<string>, normalized': map<string, LoanRow>)
    requires row.locators != [] && row !in seen && findings.Valid()
    requires identities == st.identities && order == st.order && Refers(normalized, st.normalized, seen)
    requires forall k :: k in st.normalized ==> st.normalized[k].key == k
    requires findings.raised == base + st.findings
    modifies row, seen, findings
    ensures var next := MergeRow(st, Complete(m, old(row.View())));
            && identities' == next.identities && order' == next.order
            && Refers(normalized', next.normalized, seen + {row})
            && findings.Valid() && findings.raised == base + next.findings
  {
    hide Face, KeyOf, Take, MergeRow, StepFindings, Refers;
    RefersKeys(normalized, st.normalized, seen);
    row.CompleteIds(m);
    ghost var c := row.View();
    MergeRowStep(st, c);
    var known := if row.key in identities then Some(identities[row.key]) else None;
    identities' := identities[row.key := (row.figi, row.bbg)];
    order' := if row.key in normalized then order else order + [row.key];
    normalized' := MergeInto(row, known, normalized, findings, st, seen);
  }

  lemma MergeAllStep(cs: seq<Row>, i: nat)
    requires Located(cs) && i < |cs|
    ensures cs[i].locators != [] && MergeAll(cs[..i + 1]) == MergeRow(MergeAll(cs[..i]), cs[i])
    ensures forall k :: k in MergeAll(cs[..i]).normalized ==> MergeAll(cs[..i]).normalized[k].key == k
  {
    assert cs[i] in cs && cs[..i + 1][..i] == cs[..i];
    MergedUnderOwnKey(cs[..i]);
  }

  /** The second pass over all rows; cs lists the rows as it completes them. */
  method MergeRows(rows: seq<LoanRow>, m: Links, ghost cs: seq<Row>, findings: Findings)
    returns (order: seq<string>, normalized: map<string, LoanRow>)
    requires Distinct(rows) && Located(cs) && |cs| == |rows| && findings.Valid()
    requires forall i :: 0 <= i < |rows| ==> rows[i].locators != [] && cs[i] == Complete(m, rows[i].View())
    modifies rows, findings
    ensures order == MergeAll(cs).order && Refers(normalized, MergeAll(cs).normalized, Upto(rows, |rows|))
    ensures findings.Valid() && findings.raised == old(findings.raised) + MergeAll(cs).findings
  {
    hide MergeRow, Complete, Face, StepFindings;
    var identities: Identities := map[];
    order, normalized := [], map[];
    ghost var base, st := findings.raised, MergeAll([]);
    for i := 0 to |rows|
      invariant st == MergeAll(cs[..i]) && identities == st.identities && order == st.order
      invariant Refers(normalized, st.normalized, Upto(rows, i))
      invariant findings.Valid() && findings.raised == base + st.findings
      invariant forall j :: i <= j < |rows| ==> rows[j].locators != [] && cs[j] == Complete(m, rows[j].View())
    {
      MergeAllStep(cs, i);
      assert Upto(rows, i) + {rows[i]} == Upto(rows, i + 1);
      ghost var next := MergeRow(st, cs[i]);
      identities, order, normalized :=
        AdmitRow(rows[i], m, identities, order, normalized, findings, base, st, Upto(rows, i));
      st := next;
    }
    assert cs[..|rows|] == cs;
  }

  lemma InsertStep(vs: seq<Row>, v: Row)
    ensures vs == [] ==> Insert(vs, v) == [v]
    ensures vs != [] ==>
      Insert(vs, v) == if RankLess(RankOf(v), RankOf(vs[0])) then [v] + vs else [vs[0]] + Insert(vs[1..], v)
  {
  }

  lemma ViewsCons(x: LoanRow, rest: seq<LoanRow>)
    ensures Views([x] + rest) == [x.View()] + Views(rest)
  {
  }

  method InsertRow(s: seq<LoanRow>, r: LoanRow) returns (t: seq<LoanRow>)
    ensures Views(t) == Insert(Views(s), r.View())
  {
    hide Insert, RankOf, RankLess, Views;
    InsertStep(Views(s), r.View());
    if s == [] {
      t := [r];
      ViewsCons(r, []);
      assert [r] + [] == [r];
    } else if RankLess(RankOf(r.View()), RankOf(s[0].View())) {
      t := [r] + s;
      ViewsCons(r, s);
    } else {
      t := InsertRow(s[1..], r);
      ViewsCons(s[0], t);
      ViewsCons(s[0], s[1..]);
      assert [s[0]] + s[1..] == s;
      t := [s[0]] + t;
    }
  }

  function SortedFront(v: seq<Row>, i: nat): seq<Row>
    requires i <= |v|
  {
    Sorted(v[..i])
  }

  lemma SortStep(v: seq<Row>, i: nat)
    requires i < |v|
    ensures SortedFront(v, i + 1) == Insert(SortedFront(v, i), v[i])
  {
    assert v[..i + 1][..i] == v[..i];
  }

  lemma SortEnds(v: seq<Row>)
    ensures SortedFront(v, 0) == [] && SortedFront(v, |v|) == Sorted(v)
  {
    assert v[..|v|] == v;
  }

  method SortRows(rows: seq<LoanRow>) returns (ordered: seq<LoanRow>)
    ensures Views(ordered) == Sorted(Views(rows))
  {
    hide Sorted, Insert, RankOf, SortedFront;
    ghost var v := Views(rows);
    ordered := [];
    SortEnds(v);
    for i := 0 to |rows|
      invariant Views(ordered) == SortedFront(v, i)
    {
      SortStep(v, i);
      ordered := InsertRow(ordered, rows[i]);
    }
  }

  /**
   * Reconcile the workbook's rows in place. The rows are listed exactly when no finding was
   * raised before or during reconciliation, and the list is the one Reconcile describes.
   */
  method ReconcileRows(rows: seq<LoanRow>, findings: Findings) returns (ordered: Option<seq<LoanRow>>)
    requires Distinct(rows) && Located(Views(rows)) && findings.Valid()
    modifies rows, findings
    ensures Located(old(Views(rows))) && findings.Valid()
    ensures match Reconcile(old(Views(rows)), old(findings.raised))
            case Accepted(listed) => ordered.Some? && Views(ordered.value) == listed
            case Rejected(found) => ordered.None? && findings.items == found
  {
    hide CheckRows, LinkAllFindings, MergeAll, LinkAll, Sorted, Complete, KeyOf, Views;
    ghost var was := Views(rows);
    FormKeys(rows, findings);
    var m := CollectLinks(rows, was, findings);
    var order, normalized := MergeRows(rows, m, CompletedAll(m, was), findings);
    ghost var st := MergeAll(CompletedAll(m, was));
    if findings.items != [] {
      return None;
    }
    var values := seq(|order|, i requires 0 <= i < |order| && order[i] in normalized => normalized[order[i]]);
    assert Views(values) == Merged(st);
    var sorted := SortRows(values);
    ordered := Some(sorted);
  }
}
