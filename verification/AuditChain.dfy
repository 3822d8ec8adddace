/**
 * The audit integrity chain: rows linked by digest from GENESIS, their verifier,
 * and exactly what the verifier's findings say about a damaged chain. The digest
 * function is a parameter; where a claim needs it collision-free that is a hypothesis.
 */
module AuditChain {
  import opened Common

  /** What the first row links to: a digest's width, 64 characters, of zeros. */
  const GENESIS := "0000000000000000000000000000000000000000000000000000000000000000"

  /** The fields of an audit event other than its place in the chain. */
  datatype Content = Content(chainKey: string, id: string, action: string, actor: string, at: string, data: string)

  /** What is digested: the content together with its place. */
  datatype Preimage = Preimage(chainSeq: Option<int>, prevDigest: Option<string>, content: Content)

  /**
   * A stored row. A place or digest field may be missing or null (None); `whole` says every
   * digested field is there and can be encoded, without which no digest can be computed.
   */
  datatype Row = Row(chainSeq: Option<int>, prevDigest: Option<string>, content: Content,
                     whole: bool, digest: Option<string>)

  datatype Head = Head(chainSeq: Option<int>, digest: Option<string>)

  datatype Finding =
    | SequenceBroken(chainSeq: Option<int>, expected: int)
    | LinkBroken(chainSeq: Option<int>)
    | DigestMismatch(chainSeq: Option<int>)
    | HeadMismatch(chainSeq: Option<int>)

  type Digest = Preimage -> string

  function EventDigest(H: Digest, r: Row): Option<string> {
    if r.whole then Some(H(Preimage(r.chainSeq, r.prevDigest, r.content))) else None
  }

  // ----- The verifier -----

  function RowFindings(H: Digest, r: Row, previous: string, expected: int): seq<Finding> {
    (if r.chainSeq != Some(expected) then [SequenceBroken(r.chainSeq, expected)] else []) +
    (if r.prevDigest != Some(previous) then [LinkBroken(r.chainSeq)] else []) +
    (if EventDigest(H, r) != r.digest then [DigestMismatch(r.chainSeq)] else [])
  }

  /** The digest row i must link to. */
  function PreviousAt(rows: seq<Row>, i: nat): string
    requires i <= |rows|
  {
    if i == 0 then GENESIS else rows[i - 1].digest.GetOr(GENESIS)
  }

  /** The number row i must carry: counting goes on from the number the row before states. */
  function ExpectedAt(rows: seq<Row>, i: nat): int
    requires i <= |rows|
  {
    if i == 0 then 1
    else
      match rows[i - 1].chainSeq
      case Some(n) => n + 1
      case None => ExpectedAt(rows, i - 1) + 1
  }

  /** What is found at row i. */
  function At(H: Digest, rows: seq<Row>, i: nat): seq<Finding>
    requires i < |rows|
  {
    RowFindings(H, rows[i], PreviousAt(rows, i), ExpectedAt(rows, i))
  }

  /** What is found, row by row. */
  function ByRow(H: Digest, rows: seq<Row>): (found: seq<seq<Finding>>)
    ensures |found| == |rows| && forall i :: 0 <= i < |rows| ==> found[i] == At(H, rows, i)
  {
    seq(|rows|, i requires 0 <= i < |rows| => At(H, rows, i))
  }

  function Joined(found: seq<seq<Finding>>): seq<Finding> {
    if found == [] then [] else Joined(found[..|found| - 1]) + found[|found| - 1]
  }

  predicate HeadNames(rows: seq<Row>, head: Option<Head>) {
    if rows == [] then head.None?
    else
      var last := rows[|rows| - 1];
      head == Some(Head(last.chainSeq, last.digest))
  }

  function HeadFindings(rows: seq<Row>, head: Option<Head>): seq<Finding> {
    if HeadNames(rows, head) then []
    else [HeadMismatch(if rows == [] then None else rows[|rows| - 1].chainSeq)]
  }

  function Findings(H: Digest, rows: seq<Row>, head: Option<Head>): seq<Finding> {
    Joined(ByRow(H, rows)) + HeadFindings(rows, head)
  }

  /** The body of the verifier's loop: check one row, and say what the next must link to and be numbered. */
  method CheckRow(H: Digest, r: Row, previous: string, expected: int)
    returns (found: seq<Finding>, previous': string, expected': int)
    ensures found == RowFindings(H, r, previous, expected)
    ensures previous' == r.digest.GetOr(GENESIS)
    ensures expected' == r.chainSeq.GetOr(expected) + 1
  {
    found, expected' := [], expected;
    if r.chainSeq != Some(expected) {
      found := found + [SequenceBroken(r.chainSeq, expected)];
      expected' := if r.chainSeq.Some? then r.chainSeq.value else expected;
    }
    if r.prevDigest != Some(previous) {
      found := found + [LinkBroken(r.chainSeq)];
    }
    if EventDigest(H, r) != r.digest {
      found := found + [DigestMismatch(r.chainSeq)];
    }
    previous' := if r.digest.Some? then r.digest.value else GENESIS;
    expected' := expected' + 1;
  }

  function FoundBefore(H: Digest, rows: seq<Row>, i: nat): seq<Finding>
    requires i <= |rows|
  {
    Joined(ByRow(H, rows)[..i])
  }

  lemma FoundStep(H: Digest, rows: seq<Row>, i: nat)
    requires i < |rows|
    ensures FoundBefore(H, rows, i + 1) ==
      FoundBefore(H, rows, i) + RowFindings(H, rows[i], PreviousAt(rows, i), ExpectedAt(rows, i))
  {
    assert ByRow(H, rows)[..i + 1][..i] == ByRow(H, rows)[..i];
  }

  lemma FoundEnds(H: Digest, rows: seq<Row>)
    ensures FoundBefore(H, rows, 0) == [] && FoundBefore(H, rows, |rows|) == Joined(ByRow(H, rows))
  {
    assert ByRow(H, rows)[..|rows|] == ByRow(H, rows);
  }

  method VerifyChain(H: Digest, rows: seq<Row>, head: Option<Head>) returns (findings: seq<Finding>)
    ensures findings == Findings(H, rows, head)
  {
    hide FoundBefore, Joined, ByRow, RowFindings;
    findings := [];
    var previous, expected := GENESIS, 1;
    FoundEnds(H, rows);
    for i := 0 to |rows|
      invariant findings == FoundBefore(H, rows, i)
      invariant previous == PreviousAt(rows, i) && expected == ExpectedAt(rows, i)
    {
      var found;
      found, previous, expected := CheckRow(H, rows[i], previous, expected);
      findings := findings + found;
      FoundStep(H, rows, i);
    }
    if rows != [] {
      var last := rows[|rows| - 1];
      if head.None? || head.value.chainSeq != last.chainSeq || head.value.digest != last.digest {
        findings := findings + [HeadMismatch(last.chainSeq)];
      }
    } else if head.Some? {
      findings := findings + [HeadMismatch(None)];
    }
  }

  // ----- What appending produces -----

  /** The row an append writes after n rows, the last with digest prev. */
  function Appended(H: Digest, n: nat, prev: string, c: Content): Row {
    Row(Some(n + 1), Some(prev), c, true, Some(H(Preimage(Some(n + 1), Some(prev), c))))
  }

  /** The chain that appending these contents in turn writes. */
  function Chain(H: Digest, contents: seq<Content>): (rows: seq<Row>)
    ensures |rows| == |contents|
  {
    if contents == [] then []
    else
      var n := |contents| - 1;
      var rows := Chain(H, contents[..n]);
      rows + [Appended(H, n, PreviousAt(rows, n), contents[n])]
  }

  function HeadOf(rows: seq<Row>): Option<Head> {
    if rows == [] then None else Some(Head(rows[|rows| - 1].chainSeq, rows[|rows| - 1].digest))
  }

  function Contents(rows: seq<Row>): (cs: seq<Content>)
    ensures |cs| == |rows| && forall i :: 0 <= i < |rows| ==> cs[i] == rows[i].content
  {
    seq(|rows|, i requires 0 <= i < |rows| => rows[i].content)
  }

  /** Row i is numbered, linked and digested as the i-th append would have it. */
  ghost predicate InPlace(H: Digest, rows: seq<Row>, i: nat)
    requires i < |rows|
  {
    rows[i] == Appended(H, i, PreviousAt(rows, i), rows[i].content)
  }

  lemma {:induction false} ChainInPlace(H: Digest, cs: seq<Content>)
    ensures Contents(Chain(H, cs)) == cs
    ensures forall i: nat :: i < |cs| ==> InPlace(H, Chain(H, cs), i)
  {
    if cs != [] {
      var n := |cs| - 1;
      var front, rows := Chain(H, cs[..n]), Chain(H, cs);
      ChainInPlace(H, cs[..n]);
      forall i: nat | i < |cs| ensures InPlace(H, rows, i) && rows[i].content == cs[i] {
        if i < n {
          assert InPlace(H, front, i) && Contents(front)[i] == cs[i];
        }
      }
    }
  }

  lemma {:induction false} InPlaceIsChain(H: Digest, rows: seq<Row>)
    requires forall i: nat :: i < |rows| ==> InPlace(H, rows, i)
    ensures rows == Chain(H, Contents(rows))
  {
    if rows != [] {
      var n := |rows| - 1;
      var front := rows[..n];
      forall i: nat | i < n ensures InPlace(H, front, i) {
        assert InPlace(H, rows, i);
      }
      InPlaceIsChain(H, front);
      assert Contents(rows)[..n] == Contents(front);
      assert InPlace(H, rows, n);
    }
  }

  // ----- Where findings come from -----

  lemma {:induction false} JoinedEmpty(found: seq<seq<Finding>>)
    ensures Joined(found) == [] <==> forall i :: 0 <= i < |found| ==> found[i] == []
  {
    if found != [] {
      var front := found[..|found| - 1];
      JoinedEmpty(front);
      assert forall i :: 0 <= i < |front| ==> front[i] == found[i];
      assert Joined(found) == [] <==> Joined(front) == [] && found[|front|] == [];
    }
  }

  /** When all is empty but entries k and k + 1, the findings are what these two hold. */
  lemma {:induction false} JoinedTwo(found: seq<seq<Finding>>, k: nat)
    requires k < |found| && forall i :: 0 <= i < |found| && i != k && i != k + 1 ==> found[i] == []
    ensures Joined(found) == found[k] + (if k + 1 < |found| then found[k + 1] else [])
  {
    var front := found[..|found| - 1];
    if k < |front| {
      JoinedTwo(front, k);
    } else {
      JoinedEmpty(front);
    }
  }

  /** A row's three checks, one finding each. */
  lemma RowReports(H: Digest, r: Row, previous: string, expected: int)
    ensures var place, link, kept :=
              r.chainSeq == Some(expected), r.prevDigest == Some(previous), r.digest == EventDigest(H, r);
            && (place && link && kept <==> RowFindings(H, r, previous, expected) == [])
            && (place && link && !kept ==> RowFindings(H, r, previous, expected) == [DigestMismatch(r.chainSeq)])
            && (place && !link && kept ==> RowFindings(H, r, previous, expected) == [LinkBroken(r.chainSeq)])
            && (!place && !link && kept ==> RowFindings(H, r, previous, expected)
                                            == [SequenceBroken(r.chainSeq, expected), LinkBroken(r.chainSeq)])
  {
  }

  // ----- What each finding means -----

  /** The number row i must carry: the one after the last number stated before it, counting on over unnumbered rows. */
  ghost predicate CountsOn(rows: seq<Row>, i: nat, expected: int)
    requires i <= |rows|
  {
    || (expected == i + 1 && forall k :: 0 <= k < i ==> rows[k].chainSeq.None?)
    || (exists k :: 0 <= k < i && rows[k].chainSeq == Some(expected - (i - k)) && Unnumbered(rows, k + 1, i))
  }

  ghost predicate Unnumbered(rows: seq<Row>, from: nat, to: nat)
    requires to <= |rows|
  {
    forall k :: from <= k < to ==> rows[k].chainSeq.None?
  }

  lemma {:induction false} ExpectedCountsOn(rows: seq<Row>, i: nat)
    requires i <= |rows|
    ensures CountsOn(rows, i, ExpectedAt(rows, i))
  {
    if i > 0 {
      ExpectedCountsOn(rows, i - 1);
      if rows[i - 1].chainSeq.Some? {
        assert rows[i - 1].chainSeq == Some(ExpectedAt(rows, i) - (i - (i - 1))) && Unnumbered(rows, i - 1 + 1, i);
      } else if k :| 0 <= k < i - 1 && rows[k].chainSeq == Some(ExpectedAt(rows, i - 1) - (i - 1 - k)) &&
                     Unnumbered(rows, k + 1, i - 1) {
        assert rows[k].chainSeq == Some(ExpectedAt(rows, i) - (i - k)) && Unnumbered(rows, k + 1, i);
      }
    }
  }

  lemma CountsOnOnce(rows: seq<Row>, i: nat, m: int, n: int)
    requires i <= |rows| && CountsOn(rows, i, m) && CountsOn(rows, i, n)
    ensures m == n
  {
  }

  /** The finding says of row i what is wrong with it. */
  ghost predicate Says(H: Digest, rows: seq<Row>, i: nat, f: Finding)
    requires i < |rows|
  {
    var r := rows[i];
    match f
    case SequenceBroken(n, expected) => r.chainSeq == n && n != Some(expected) && CountsOn(rows, i, expected)
    case LinkBroken(n) =>
      && r.chainSeq == n
      && r.prevDigest != Some(if i > 0 && rows[i - 1].digest.Some? then rows[i - 1].digest.value else GENESIS)
    case DigestMismatch(n) =>
      && r.chainSeq == n
      && (if r.whole then r.digest != Some(H(Preimage(n, r.prevDigest, r.content))) else r.digest.Some?)
    case HeadMismatch(_) => false
  }

  /**
   * A row is given one finding for each thing wrong with it and no other, whatever else is wrong:
   * a broken number first, a broken link next, a wrong digest last.
   */
  lemma RowFoundExactly(H: Digest, rows: seq<Row>, i: nat, f: Finding)
    requires i < |rows|
    ensures f in At(H, rows, i) <==> Says(H, rows, i, f)
    ensures forall j, k :: 0 <= j < k < |At(H, rows, i)| ==> Ranked(At(H, rows, i)[j]) < Ranked(At(H, rows, i)[k])
  {
    ExpectedCountsOn(rows, i);
    if f.SequenceBroken? && CountsOn(rows, i, f.expected) {
      CountsOnOnce(rows, i, f.expected, ExpectedAt(rows, i));
    }
  }

  function Ranked(f: Finding): nat {
    match f
    case SequenceBroken(_, _) => 0
    case LinkBroken(_) => 1
    case DigestMismatch(_) => 2
    case HeadMismatch(_) => 3
  }

  lemma {:induction false} JoinedHolds(found: seq<seq<Finding>>, f: Finding)
    ensures f in Joined(found) <==> exists i :: 0 <= i < |found| && f in found[i]
  {
    if found != [] {
      var front := found[..|found| - 1];
      JoinedHolds(front, f);
      if f in Joined(front) {
        var i :| 0 <= i < |front| && f in front[i];
        assert f in found[i];
      }
    }
  }

  /**
   * Every finding, for any rows and any head: it is reported exactly when it is true of some row,
   * or the head does not name the number and digest of the last row.
   */
  lemma FindingsExactly(H: Digest, rows: seq<Row>, head: Option<Head>, f: Finding)
    ensures f in Findings(H, rows, head) <==>
      if f.HeadMismatch? then
        if rows == [] then head.Some? && f.chainSeq == None
        else
          var last := rows[|rows| - 1];
          f.chainSeq == last.chainSeq && head != Some(Head(last.chainSeq, last.digest))
      else exists i: nat :: i < |rows| && Says(H, rows, i, f)
  {
    hide Says, At, HeadNames;
    JoinedHolds(ByRow(H, rows), f);
    forall i: nat | i < |rows| ensures f in ByRow(H, rows)[i] <==> Says(H, rows, i, f) {
      RowFoundExactly(H, rows, i, f);
    }
    HeadFound(rows, head, f);
    if f.HeadMismatch? {
      forall i: nat | i < |rows| ensures !Says(H, rows, i, f) {
        HeadSaysNothing(H, rows, i, f);
      }
    }
  }

  lemma HeadSaysNothing(H: Digest, rows: seq<Row>, i: nat, f: Finding)
    requires i < |rows| && f.HeadMismatch?
    ensures !Says(H, rows, i, f)
  {
  }

  lemma HeadFound(rows: seq<Row>, head: Option<Head>, f: Finding)
    ensures f in HeadFindings(rows, head) <==>
      && f.HeadMismatch?
      && if rows == [] then head.Some? && f.chainSeq == None
         else
           var last := rows[|rows| - 1];
           f.chainSeq == last.chainSeq && head != Some(Head(last.chainSeq, last.digest))
  {
  }

  // ----- Soundness and completeness -----

  /** Where the rows before are in place, a digested row is quiet exactly when it is in place too. */
  lemma QuietInPlace(H: Digest, rows: seq<Row>, i: nat)
    requires i < |rows| && rows[i].digest.Some? && (i > 0 ==> InPlace(H, rows, i - 1))
    ensures At(H, rows, i) == [] <==> InPlace(H, rows, i)
  {
    RowReports(H, rows[i], PreviousAt(rows, i), ExpectedAt(rows, i));
  }

  lemma {:induction false} QuietPrefixInPlace(H: Digest, rows: seq<Row>, k: nat)
    requires k < |rows| && (forall r :: r in rows ==> r.digest.Some?)
    requires forall i: nat :: i <= k ==> At(H, rows, i) == []
    ensures InPlace(H, rows, k)
  {
    if k > 0 { QuietPrefixInPlace(H, rows, k - 1); }
    assert rows[k] in rows;
    QuietInPlace(H, rows, k);
    assert At(H, rows, k) == [];
  }

  lemma InPlaceQuiet(H: Digest, rows: seq<Row>)
    requires forall i: nat :: i < |rows| ==> InPlace(H, rows, i)
    ensures forall i: nat :: i < |rows| ==> At(H, rows, i) == []
    ensures forall r :: r in rows ==> r.digest.Some?
  {
    forall i: nat | i < |rows| ensures At(H, rows, i) == [] && rows[i].digest.Some? {
      assert InPlace(H, rows, i);
      if i > 0 { assert InPlace(H, rows, i - 1); }
      QuietInPlace(H, rows, i);
    }
  }

  /**
   * The verifier is sound and complete: it reports nothing, on rows that each carry a digest,
   * exactly when the rows are what appending their contents writes and the head names the last.
   */
  lemma VerifiedExactly(H: Digest, rows: seq<Row>, head: Option<Head>)
    ensures Findings(H, rows, head) == [] && (forall r :: r in rows ==> r.digest.Some?)
       <==> rows == Chain(H, Contents(rows)) && HeadNames(rows, head)
  {
    JoinedEmpty(ByRow(H, rows));
    if Findings(H, rows, head) == [] && (forall r :: r in rows ==> r.digest.Some?) {
      forall i: nat | i < |rows| ensures At(H, rows, i) == [] {
        assert ByRow(H, rows)[i] == [];
      }
      forall i: nat | i < |rows| ensures InPlace(H, rows, i) {
        QuietPrefixInPlace(H, rows, i);
      }
      InPlaceIsChain(H, rows);
    }
    if rows == Chain(H, Contents(rows)) {
      ChainInPlace(H, Contents(rows));
      InPlaceQuiet(H, rows);
    }
  }

  /**
   * The digest condition is needed: a row with neither a digest nor all its fields passes the
   * comparison of two absent digests, and a head without one names it.
   */
  lemma UndigestedRowPasses(H: Digest, c: Content)
    ensures var rows := [Row(Some(1), Some(GENESIS), c, false, None)];
            Findings(H, rows, Some(Head(Some(1), None))) == [] && rows != Chain(H, Contents(rows))
  {
    var rows := [Row(Some(1), Some(GENESIS), c, false, None)];
    ChainInPlace(H, Contents(rows));
    RowReports(H, rows[0], GENESIS, 1);
    JoinedEmpty(ByRow(H, rows));
    assert !InPlace(H, rows, 0);
  }

  // ----- Tamper evidence -----

  ghost predicate CollisionFree(H: Digest) {
    forall x, y :: H(x) == H(y) ==> x == y
  }

  /** Equal last digests force equal chains, link by link from the end. */
  lemma {:induction false} SameEndSameChain(H: Digest, a: seq<Row>, b: seq<Row>, n: nat)
    requires CollisionFree(H) && n <= |a| && n <= |b|
    requires forall i: nat :: i < n ==> InPlace(H, a, i) && InPlace(H, b, i)
    requires n > 0 ==> a[n - 1].digest == b[n - 1].digest
    ensures forall i: nat :: i < n ==> a[i] == b[i]
  {
    if n > 0 {
      var x, y := a[n - 1], b[n - 1];
      assert InPlace(H, a, n - 1) && InPlace(H, b, n - 1);
      assert Preimage(x.chainSeq, x.prevDigest, x.content) == Preimage(y.chainSeq, y.prevDigest, y.content);
      if n > 1 {
        assert InPlace(H, a, n - 2) && InPlace(H, b, n - 2);
      }
      SameEndSameChain(H, a, b, n - 1);
    }
  }

  /** One head verifies one row list: two that both verify against it are equal. */
  lemma OneHeadOneChain(H: Digest, rows: seq<Row>, others: seq<Row>, head: Option<Head>)
    requires CollisionFree(H)
    requires Findings(H, rows, head) == [] && (forall r :: r in rows ==> r.digest.Some?)
    requires Findings(H, others, head) == [] && (forall r :: r in others ==> r.digest.Some?)
    ensures rows == others
  {
    hide Findings, EventDigest;
    VerifiedInPlace(H, rows, head);
    VerifiedInPlace(H, others, head);
    if rows != [] {
      assert InPlace(H, rows, |rows| - 1) && InPlace(H, others, |others| - 1);
      SameEndSameChain(H, rows, others, |rows|);
    }
  }

  lemma VerifiedInPlace(H: Digest, rows: seq<Row>, head: Option<Head>)
    requires Findings(H, rows, head) == [] && (forall r :: r in rows ==> r.digest.Some?)
    ensures HeadNames(rows, head) && forall i: nat :: i < |rows| ==> InPlace(H, rows, i)
  {
    VerifiedExactly(H, rows, head);
    ChainInPlace(H, Contents(rows));
  }

  /** Any other row list with its digests in place is reported against the head of an appended chain. */
  lemma TamperingReported(H: Digest, cs: seq<Content>, rows: seq<Row>)
    requires CollisionFree(H) && rows != Chain(H, cs) && forall r :: r in rows ==> r.digest.Some?
    ensures Findings(H, rows, HeadOf(Chain(H, cs))) != []
  {
    ChainVerifies(H, cs);
    if Findings(H, rows, HeadOf(Chain(H, cs))) == [] {
      OneHeadOneChain(H, rows, Chain(H, cs), HeadOf(Chain(H, cs)));
    }
  }

  lemma ChainVerifies(H: Digest, cs: seq<Content>)
    ensures Findings(H, Chain(H, cs), HeadOf(Chain(H, cs))) == []
    ensures forall r :: r in Chain(H, cs) ==> r.digest.Some?
  {
    ChainInPlace(H, cs);
    VerifiedExactly(H, Chain(H, cs), HeadOf(Chain(H, cs)));
  }

  // ----- Where a fault is reported -----

  /** Row i as appending left it, with its predecessor's digest as its link. */
  ghost predicate LinkedAt(H: Digest, rows: seq<Row>, i: nat)
    requires i < |rows|
  {
    && rows[i].chainSeq == Some(i + 1) && rows[i].digest.Some? && rows[i].digest == EventDigest(H, rows[i])
    && rows[i].prevDigest == (if i == 0 then Some(GENESIS) else rows[i - 1].digest)
  }

  ghost predicate Linked(H: Digest, rows: seq<Row>) {
    forall i: nat :: i < |rows| ==> LinkedAt(H, rows, i)
  }

  /** Being linked throughout is the same as being what appending writes. */
  lemma LinkedIsChain(H: Digest, rows: seq<Row>)
    ensures Linked(H, rows) <==> rows == Chain(H, Contents(rows))
  {
    if rows == Chain(H, Contents(rows)) {
      ChainInPlace(H, Contents(rows));
      forall i: nat | i < |rows| ensures LinkedAt(H, rows, i) {
        assert InPlace(H, rows, i);
        if i > 0 { assert InPlace(H, rows, i - 1); }
      }
    }
    if Linked(H, rows) {
      forall i: nat | i < |rows| ensures InPlace(H, rows, i) {
        assert LinkedAt(H, rows, i);
        if i > 0 { assert LinkedAt(H, rows, i - 1); }
      }
      InPlaceIsChain(H, rows);
    }
  }

  /**
   * A row that still follows its predecessor in the chain, wherever both now stand, reports
   * nothing; so does the first row at the front.
   */
  lemma FollowsQuietly(H: Digest, rows: seq<Row>, now: seq<Row>, i: nat, k: nat)
    requires Linked(H, rows) && i < |now| && k < |rows| && now[i] == rows[k]
    requires if k == 0 then i == 0 else i > 0
    requires i > 0 ==> now[i - 1].digest == rows[k - 1].digest && now[i - 1].chainSeq == rows[k - 1].chainSeq
    ensures At(H, now, i) == []
  {
    assert LinkedAt(H, rows, k);
    if i > 0 { assert LinkedAt(H, rows, k - 1); }
    RowReports(H, now[i], PreviousAt(now, i), ExpectedAt(now, i));
  }

  /** Injectivity at work: a row's link differs from every digest but its predecessor's. */
  lemma LinksDiffer(H: Digest, rows: seq<Row>, i: nat, j: nat)
    requires CollisionFree(H) && (forall x :: H(x) != GENESIS)
    requires Linked(H, rows) && i < j < |rows|
    ensures rows[j].prevDigest != (if i == 0 then Some(GENESIS) else rows[i - 1].digest)
  {
    assert LinkedAt(H, rows, j) && LinkedAt(H, rows, j - 1);
    if i > 0 { assert LinkedAt(H, rows, i - 1); }
  }

  /** The row that now follows the gap reports its number and its link, and nothing else. */
  lemma SurvivorReports(H: Digest, rows: seq<Row>, now: seq<Row>, i: nat, j: nat)
    requires CollisionFree(H) && (forall x :: H(x) != GENESIS)
    requires Linked(H, rows) && i < j < |rows| && i < |now|
    requires now[i] == rows[j] && (i > 0 ==> now[i - 1] == rows[i - 1])
    ensures At(H, now, i) == [SequenceBroken(Some(j + 1), i + 1), LinkBroken(Some(j + 1))]
  {
    LinksDiffer(H, rows, i, j);
    assert LinkedAt(H, rows, j);
    if i > 0 { assert LinkedAt(H, rows, i - 1); }
    RowReports(H, now[i], PreviousAt(now, i), ExpectedAt(now, i));
  }

  /** A row whose content no longer matches its digest reports that, and nothing else. */
  lemma MismatchReports(H: Digest, rows: seq<Row>, now: seq<Row>, i: nat)
    requires Linked(H, rows) && i < |rows| && i < |now| && (i > 0 ==> now[i - 1] == rows[i - 1])
    requires now[i].chainSeq == rows[i].chainSeq && now[i].prevDigest == rows[i].prevDigest
    requires now[i].digest != EventDigest(H, now[i])
    ensures At(H, now, i) == [DigestMismatch(Some(i + 1))]
  {
    assert LinkedAt(H, rows, i);
    if i > 0 { assert LinkedAt(H, rows, i - 1); }
    RowReports(H, now[i], PreviousAt(now, i), ExpectedAt(now, i));
  }

  /** The head is checked last and on its own. */
  lemma HeadReports(H: Digest, now: seq<Row>, head: Option<Head>)
    ensures HeadNames(now, head) ==> Findings(H, now, head) == Joined(ByRow(H, now))
    ensures !HeadNames(now, head) ==>
      Findings(H, now, head) ==
        Joined(ByRow(H, now)) + [HeadMismatch(if now == [] then None else now[|now| - 1].chainSeq)]
  {
  }

  /**
   * Deleting rows i to j - 1 from an appended chain, the last row kept, is reported as exactly
   * one sequence break and one link break, both at the first surviving row.
   */
  lemma DeletionLocated(H: Digest, rows: seq<Row>, i: nat, j: nat)
    requires CollisionFree(H) && (forall x :: H(x) != GENESIS)
    requires Linked(H, rows) && i < j < |rows|
    ensures Findings(H, rows[..i] + rows[j..], HeadOf(rows))
         == [SequenceBroken(Some(j + 1), i + 1), LinkBroken(Some(j + 1))]
  {
    DeletionFound(H, rows, i, j);
    HeadReports(H, rows[..i] + rows[j..], HeadOf(rows));
  }

  lemma DeletionFound(H: Digest, rows: seq<Row>, i: nat, j: nat)
    requires CollisionFree(H) && (forall x :: H(x) != GENESIS)
    requires Linked(H, rows) && i < j < |rows|
    ensures var cut := rows[..i] + rows[j..];
            && Joined(ByRow(H, cut)) == [SequenceBroken(Some(j + 1), i + 1), LinkBroken(Some(j + 1))]
            && HeadNames(cut, HeadOf(rows))
  {
    var cut := rows[..i] + rows[j..];
    assert cut[|cut| - 1] == rows[|rows| - 1];
    SurvivorReports(H, rows, cut, i, j);
    DeletionQuiet(H, rows, cut, i, j);
    JoinedTwo(ByRow(H, cut), i);
  }

  lemma DeletionQuiet(H: Digest, rows: seq<Row>, cut: seq<Row>, i: nat, j: nat)
    requires Linked(H, rows) && i < j < |rows| && cut == rows[..i] + rows[j..]
    ensures forall m: nat :: m < |cut| && m != i ==> ByRow(H, cut)[m] == []
  {
    forall m: nat | m < |cut| && m != i ensures ByRow(H, cut)[m] == [] {
      FollowsQuietly(H, rows, cut, m, if m < i then m else m - i + j);
    }
  }

  /** Truncating the tail is reported as exactly one head mismatch, at the row now last. */
  lemma TruncationLocated(H: Digest, rows: seq<Row>, k: nat)
    requires Linked(H, rows) && k < |rows|
    ensures Findings(H, rows[..k], HeadOf(rows)) == [HeadMismatch(if k == 0 then None else Some(k))]
  {
    TruncationFound(H, rows, k);
    assert LinkedAt(H, rows, |rows| - 1);
    if k > 0 { assert LinkedAt(H, rows, k - 1); }
    HeadReports(H, rows[..k], HeadOf(rows));
  }

  lemma TruncationFound(H: Digest, rows: seq<Row>, k: nat)
    requires Linked(H, rows) && k < |rows|
    ensures Joined(ByRow(H, rows[..k])) == []
  {
    forall m: nat | m < k ensures ByRow(H, rows[..k])[m] == [] {
      FollowsQuietly(H, rows, rows[..k], m, m);
    }
    JoinedEmpty(ByRow(H, rows[..k]));
  }

  /**
   * Editing what a row says while keeping its number, link and digest is reported as exactly
   * one digest mismatch, at that row.
   */
  lemma EditLocated(H: Digest, rows: seq<Row>, i: nat, edited: Row)
    requires CollisionFree(H) && Linked(H, rows) && i < |rows|
    requires edited.chainSeq == rows[i].chainSeq && edited.prevDigest == rows[i].prevDigest
    requires edited.digest == rows[i].digest && edited != rows[i]
    ensures Findings(H, rows[i := edited], HeadOf(rows)) == [DigestMismatch(Some(i + 1))]
  {
    assert LinkedAt(H, rows, i);
    DigestBinds(H, rows[i], edited);
    EditFound(H, rows, rows[i := edited], i);
    HeadReports(H, rows[i := edited], HeadOf(rows));
  }

  /** Under an injective digest a changed row cannot keep its digest. */
  lemma DigestBinds(H: Digest, r: Row, edited: Row)
    requires CollisionFree(H) && r.whole && r.digest == EventDigest(H, r)
    requires edited.chainSeq == r.chainSeq && edited.prevDigest == r.prevDigest && edited.digest == r.digest
    requires edited != r
    ensures edited.digest != EventDigest(H, edited)
  {
  }

  /** The same rows but for row i, which keeps its number and its link. */
  ghost predicate DiffersAt(rows: seq<Row>, bad: seq<Row>, i: nat) {
    && i < |rows| == |bad| && bad == rows[i := bad[i]]
    && bad[i].chainSeq == rows[i].chainSeq && bad[i].prevDigest == rows[i].prevDigest
  }

  /** Row i no longer matches its digest: it reports that, and the next link reports a digest that changed. */
  lemma EditFound(H: Digest, rows: seq<Row>, bad: seq<Row>, i: nat)
    requires Linked(H, rows) && |bad| == |rows| && i < |rows| && DiffersAt(rows, bad, i)
    requires bad[i].digest.Some? && bad[i].digest != EventDigest(H, bad[i])
    ensures Joined(ByRow(H, bad)) == [DigestMismatch(Some(i + 1))] +
              (if i + 1 < |rows| && bad[i].digest != rows[i].digest then [LinkBroken(Some(i + 2))] else [])
  {
    MismatchReports(H, rows, bad, i);
    if i + 1 < |rows| {
      NextLinkReports(H, rows, bad, i);
    }
    EditQuiet(H, rows, bad, i);
    JoinedTwo(ByRow(H, bad), i);
  }

  lemma EditQuiet(H: Digest, rows: seq<Row>, bad: seq<Row>, i: nat)
    requires Linked(H, rows) && |bad| == |rows| && i < |rows| && DiffersAt(rows, bad, i)
    ensures forall m: nat :: m < |bad| && m != i && m != i + 1 ==> ByRow(H, bad)[m] == []
  {
    forall m: nat | m < |bad| && m != i && m != i + 1 ensures ByRow(H, bad)[m] == [] {
      FollowsQuietly(H, rows, bad, m, m);
    }
  }

  lemma NextLinkReports(H: Digest, rows: seq<Row>, bad: seq<Row>, i: nat)
    requires Linked(H, rows) && |bad| == |rows| && i + 1 < |rows| && bad[i + 1] == rows[i + 1]
    requires bad[i].chainSeq == rows[i].chainSeq && bad[i].digest.Some?
    ensures At(H, bad, i + 1) == if bad[i].digest == rows[i].digest then [] else [LinkBroken(Some(i + 2))]
  {
    assert LinkedAt(H, rows, i) && LinkedAt(H, rows, i + 1);
    RowReports(H, bad[i + 1], PreviousAt(bad, i + 1), ExpectedAt(bad, i + 1));
  }

  /**
   * Replacing the digest of a row before the last is reported at that row and at the link of
   * the next; replacing the last row's digest, at that row and at the head.
   */
  lemma RedigestLocated(H: Digest, rows: seq<Row>, i: nat, edited: Row)
    requires Linked(H, rows) && i < |rows| && edited.digest.Some? && edited.digest != rows[i].digest
    requires edited.chainSeq == rows[i].chainSeq && edited.prevDigest == rows[i].prevDigest
    requires edited.content == rows[i].content && edited.whole == rows[i].whole
    ensures Findings(H, rows[i := edited], HeadOf(rows))
         == [DigestMismatch(Some(i + 1)),
             if i + 1 < |rows| then LinkBroken(Some(i + 2)) else HeadMismatch(Some(i + 1))]
  {
    assert LinkedAt(H, rows, i);
    EditFound(H, rows, rows[i := edited], i);
    assert HeadNames(rows[i := edited], HeadOf(rows)) <==> i + 1 < |rows|;
    HeadReports(H, rows[i := edited], HeadOf(rows));
  }

  /** An edited row whose digest is made to match again reports nothing itself. */
  lemma ForgeryQuiet(H: Digest, rows: seq<Row>, bad: seq<Row>, i: nat)
    requires Linked(H, rows) && |bad| == |rows| && i < |rows| && DiffersAt(rows, bad, i)
    requires bad[i].digest.Some? && bad[i].digest == EventDigest(H, bad[i])
    ensures At(H, bad, i) == []
  {
    assert LinkedAt(H, rows, i);
    if i > 0 { assert LinkedAt(H, rows, i - 1) && bad[i - 1] == rows[i - 1]; }
    RowReports(H, bad[i], PreviousAt(bad, i), ExpectedAt(bad, i));
  }

  lemma ForgeryFound(H: Digest, rows: seq<Row>, bad: seq<Row>, i: nat)
    requires Linked(H, rows) && |bad| == |rows| && i < |rows| && DiffersAt(rows, bad, i)
    requires bad[i].digest.Some? && bad[i].digest == EventDigest(H, bad[i]) && bad[i].digest != rows[i].digest
    ensures Joined(ByRow(H, bad)) == if i + 1 < |rows| then [LinkBroken(Some(i + 2))] else []
  {
    ForgeryQuiet(H, rows, bad, i);
    if i + 1 < |rows| { NextLinkReports(H, rows, bad, i); }
    EditQuiet(H, rows, bad, i);
    hide RowFindings, EventDigest, Linked;
    JoinedTwo(ByRow(H, bad), i);
  }

  /**
   * A forgery, content changed and the digest recomputed over it, is reported as exactly one finding: the
   * link of the next row breaks, or on the last row the head no longer names it.
   */
  lemma ForgeryLocated(H: Digest, rows: seq<Row>, i: nat, edited: Row)
    requires CollisionFree(H) && Linked(H, rows) && i < |rows|
    requires edited.chainSeq == rows[i].chainSeq && edited.prevDigest == rows[i].prevDigest
    requires edited.content != rows[i].content && edited.whole && edited.digest == EventDigest(H, edited)
    ensures Findings(H, rows[i := edited], HeadOf(rows))
         == [if i + 1 < |rows| then LinkBroken(Some(i + 2)) else HeadMismatch(Some(i + 1))]
  {
    hide ByRow, Joined, At;
    var bad := rows[i := edited];
    assert LinkedAt(H, rows, i);
    assert edited.digest != rows[i].digest;
    ForgeryFound(H, rows, bad, i);
    assert HeadNames(bad, HeadOf(rows)) <==> i + 1 < |rows|;
    HeadReports(H, bad, HeadOf(rows));
  }

  // ----- Insertion and reordering -----

  function Inserted(rows: seq<Row>, i: nat, x: Row): seq<Row>
    requires i <= |rows|
  {
    rows[..i] + [x] + rows[i..]
  }

  /** What the row after an inserted one reports: its number and its link are compared with the new row's. */
  function PushedFindings(rows: seq<Row>, i: nat, x: Row): seq<Finding>
    requires i < |rows|
  {
    (if x.chainSeq.GetOr(i + 1) == i then [] else [SequenceBroken(Some(i + 1), x.chainSeq.GetOr(i + 1) + 1)]) +
    (if x.digest.GetOr(GENESIS) == PreviousAt(rows, i) then [] else [LinkBroken(Some(i + 1))])
  }

  lemma PushedReports(H: Digest, rows: seq<Row>, i: nat, x: Row)
    requires Linked(H, rows) && i < |rows|
    ensures At(H, Inserted(rows, i, x), i + 1) == PushedFindings(rows, i, x)
  {
    var now := Inserted(rows, i, x);
    assert LinkedAt(H, rows, i);
    if i > 0 { assert LinkedAt(H, rows, i - 1); }
    assert now[i] == x && now[i + 1] == rows[i];
    assert i > 0 ==> now[i - 1] == rows[i - 1];
    assert ExpectedAt(now, i) == i + 1;
  }

  lemma InsertionQuiet(H: Digest, rows: seq<Row>, i: nat, x: Row)
    requires Linked(H, rows) && i <= |rows|
    ensures forall m: nat :: m <= |rows| && m != i && m != i + 1 ==> ByRow(H, Inserted(rows, i, x))[m] == []
  {
    var now := Inserted(rows, i, x);
    forall m: nat | m <= |rows| && m != i && m != i + 1 ensures ByRow(H, now)[m] == [] {
      FollowsQuietly(H, rows, now, m, if m < i then m else m - 1);
    }
  }

  lemma InsertedStands(H: Digest, rows: seq<Row>, i: nat, x: Row)
    requires Linked(H, rows) && i <= |rows|
    ensures At(H, Inserted(rows, i, x), i) == RowFindings(H, x, PreviousAt(rows, i), i + 1)
  {
    var now := Inserted(rows, i, x);
    assert now[i] == x && (i > 0 ==> now[i - 1] == rows[i - 1]);
    if i > 0 { assert LinkedAt(H, rows, i - 1); }
  }

  lemma InsertionFound(H: Digest, rows: seq<Row>, i: nat, x: Row)
    requires Linked(H, rows) && i <= |rows|
    ensures Joined(ByRow(H, Inserted(rows, i, x)))
         == RowFindings(H, x, PreviousAt(rows, i), i + 1) + (if i < |rows| then PushedFindings(rows, i, x) else [])
  {
    hide RowFindings, Linked, PushedFindings, PreviousAt, ExpectedAt, Joined, At;
    InsertedStands(H, rows, i, x);
    InsertionQuiet(H, rows, i, x);
    JoinedTwo(ByRow(H, Inserted(rows, i, x)), i);
    if i < |rows| { PushedReports(H, rows, i, x); }
  }

  lemma InsertionHead(rows: seq<Row>, i: nat, x: Row)
    requires i <= |rows|
    ensures i < |rows| ==> HeadFindings(Inserted(rows, i, x), HeadOf(rows)) == []
    ensures i == |rows| ==> Inserted(rows, i, x) == rows + [x]
  {
    var now := Inserted(rows, i, x);
    if i < |rows| { assert now[|now| - 1] == rows[|rows| - 1]; }
  }

  /**
   * Whatever row is inserted, what is reported is what that row reports in its place, and then the number
   * and the link of the row after it, or, behind the last row, the head.
   */
  lemma InsertionLocated(H: Digest, rows: seq<Row>, i: nat, x: Row)
    requires Linked(H, rows) && i <= |rows|
    ensures Findings(H, Inserted(rows, i, x), HeadOf(rows))
         == RowFindings(H, x, PreviousAt(rows, i), i + 1) +
            (if i < |rows| then PushedFindings(rows, i, x) else HeadFindings(rows + [x], HeadOf(rows)))
  {
    hide RowFindings, Linked, PushedFindings, PreviousAt, Joined, ByRow, HeadFindings, Inserted, HeadOf;
    InsertionFound(H, rows, i, x);
    InsertionHead(rows, i, x);
  }

  /**
   * No insertion goes unreported, whatever the row and the digests: the numbers before and after it leave
   * no room for it, and the head names another row.
   */
  lemma InsertionReported(H: Digest, rows: seq<Row>, i: nat, x: Row)
    requires Linked(H, rows) && i <= |rows|
    ensures Findings(H, Inserted(rows, i, x), HeadOf(rows)) != []
  {
    hide RowFindings, Linked, PreviousAt, Findings, Inserted, HeadOf, HeadFindings;
    InsertionLocated(H, rows, i, x);
    InsertionSeen(H, rows, i, x);
  }

  lemma InsertionSeen(H: Digest, rows: seq<Row>, i: nat, x: Row)
    requires Linked(H, rows) && i <= |rows|
    ensures RowFindings(H, x, PreviousAt(rows, i), i + 1) == [] ==> x.chainSeq == Some(i + 1)
    ensures i == |rows| && x.chainSeq == Some(i + 1) ==> HeadFindings(rows + [x], HeadOf(rows)) != []
  {
    if rows != [] { assert LinkedAt(H, rows, |rows| - 1); }
  }

  /**
   * A row inserted as an append would have written it there is quiet itself; the row after it reports its
   * number and its link, or the head no longer names the last row.
   */
  lemma ForgedInsertionLocated(H: Digest, rows: seq<Row>, i: nat, c: Content)
    requires CollisionFree(H) && (forall x :: H(x) != GENESIS)
    requires Linked(H, rows) && i <= |rows|
    ensures Findings(H, Inserted(rows, i, Appended(H, i, PreviousAt(rows, i), c)), HeadOf(rows))
         == if i < |rows| then [SequenceBroken(Some(i + 1), i + 2), LinkBroken(Some(i + 1))]
            else [HeadMismatch(Some(i + 1))]
  {
    hide Findings, Inserted, RowFindings, HeadNames, Appended;
    var x := Appended(H, i, PreviousAt(rows, i), c);
    InsertionLocated(H, rows, i, x);
    ForgedRow(H, rows, i, c);
    InsertionSeen(H, rows, i, x);
    assert i == |rows| ==> (rows + [x])[i] == x;
  }

  lemma ForgedRow(H: Digest, rows: seq<Row>, i: nat, c: Content)
    requires CollisionFree(H) && (forall x :: H(x) != GENESIS)
    requires Linked(H, rows) && i <= |rows|
    ensures var x := Appended(H, i, PreviousAt(rows, i), c);
            && RowFindings(H, x, PreviousAt(rows, i), i + 1) == [] && x.chainSeq == Some(i + 1)
            && x.digest.Some? && x.digest.value != PreviousAt(rows, i)
  {
    if i > 0 { assert LinkedAt(H, rows, i - 1); }
  }

  lemma {:induction false} JoinedThree(found: seq<seq<Finding>>, k: nat)
    requires k < |found|
    requires forall i :: 0 <= i < |found| && i != k && i != k + 1 && i != k + 2 ==> found[i] == []
    ensures Joined(found) == found[k] + (if k + 1 < |found| then found[k + 1] else [])
                                      + (if k + 2 < |found| then found[k + 2] else [])
  {
    var front := found[..|found| - 1];
    if k + 2 < |front| {
      JoinedThree(front, k);
    } else if k + 2 == |front| {
      JoinedTwo(front, k);
    } else {
      JoinedTwo(found, k);
    }
  }

  /** Row i and its successor in each other's place. */
  function Swapped(rows: seq<Row>, i: nat): seq<Row>
    requires i + 1 < |rows|
  {
    rows[i := rows[i + 1]][i + 1 := rows[i]]
  }

  /** Injectivity at work: rows at different numbers have different digests, and none has the first link. */
  lemma DigestsDiffer(H: Digest, rows: seq<Row>, i: nat, j: nat)
    requires CollisionFree(H) && (forall x :: H(x) != GENESIS)
    requires Linked(H, rows) && i < j < |rows|
    ensures rows[i].digest != rows[j].digest && rows[j].digest != Some(PreviousAt(rows, i))
    ensures rows[i].digest != Some(PreviousAt(rows, i))
  {
    assert LinkedAt(H, rows, i) && LinkedAt(H, rows, j);
    if i > 0 { assert LinkedAt(H, rows, i - 1); }
  }

  lemma SwapReports(H: Digest, rows: seq<Row>, i: nat)
    requires CollisionFree(H) && (forall x :: H(x) != GENESIS)
    requires Linked(H, rows) && i + 1 < |rows|
    ensures var now := Swapped(rows, i);
            && At(H, now, i) == [SequenceBroken(Some(i + 2), i + 1), LinkBroken(Some(i + 2))]
            && At(H, now, i + 1) == [SequenceBroken(Some(i + 1), i + 3), LinkBroken(Some(i + 1))]
            && (i + 2 < |rows| ==> At(H, now, i + 2) == [SequenceBroken(Some(i + 3), i + 2), LinkBroken(Some(i + 3))])
  {
    var now := Swapped(rows, i);
    DigestsDiffer(H, rows, i, i + 1);
    assert LinkedAt(H, rows, i) && LinkedAt(H, rows, i + 1);
    if i > 0 { assert LinkedAt(H, rows, i - 1); }
    RowReports(H, now[i], PreviousAt(now, i), ExpectedAt(now, i));
    RowReports(H, now[i + 1], PreviousAt(now, i + 1), ExpectedAt(now, i + 1));
    if i + 2 < |rows| {
      assert LinkedAt(H, rows, i + 2);
      RowReports(H, now[i + 2], PreviousAt(now, i + 2), ExpectedAt(now, i + 2));
    }
  }

  lemma SwapQuiet(H: Digest, rows: seq<Row>, i: nat)
    requires Linked(H, rows) && i + 1 < |rows|
    ensures forall m: nat :: m < |rows| && m != i && m != i + 1 && m != i + 2 ==> ByRow(H, Swapped(rows, i))[m] == []
  {
    var now := Swapped(rows, i);
    forall m: nat | m < |rows| && m != i && m != i + 1 && m != i + 2 ensures ByRow(H, now)[m] == [] {
      FollowsQuietly(H, rows, now, m, m);
    }
  }

  /**
   * Two neighbours in each other's place report their numbers and their links, and so does the row after
   * them; behind the last row, the head no longer names it.
   */
  lemma SwapLocated(H: Digest, rows: seq<Row>, i: nat)
    requires CollisionFree(H) && (forall x :: H(x) != GENESIS)
    requires Linked(H, rows) && i + 1 < |rows|
    ensures Findings(H, Swapped(rows, i), HeadOf(rows))
         == [SequenceBroken(Some(i + 2), i + 1), LinkBroken(Some(i + 2)),
             SequenceBroken(Some(i + 1), i + 3), LinkBroken(Some(i + 1))] +
            (if i + 2 < |rows| then [SequenceBroken(Some(i + 3), i + 2), LinkBroken(Some(i + 3))]
             else [HeadMismatch(Some(i + 1))])
  {
    hide At, CollisionFree, Joined, ByRow;
    var now := Swapped(rows, i);
    SwapReports(H, rows, i);
    SwapQuiet(H, rows, i);
    JoinedThree(ByRow(H, now), i);
    assert LinkedAt(H, rows, i) && LinkedAt(H, rows, i + 1);
    HeadReports(H, now, HeadOf(rows));
  }
}
