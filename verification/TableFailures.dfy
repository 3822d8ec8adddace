/**
 * What becomes of identities that are not returned: which may be superseded in silence, and under which
 * code the others fail.
 */
module TableFailures {
  import opened Common
  import opened TableReader
  import opened TablePlaces
  import Decimal

  // ----- Superseded names -----

  /** A name with an alias, announced and then, blank lines aside, followed at once by that alias. */
  ghost predicate WasSuperseded(v: Vocabulary, lines: seq<Line>, id: string) {
    id in v.aliases
    && exists a: nat, b: nat :: b < |lines| && AnnouncedFor(v, lines, id, a, b) && Names(v, lines, v.aliases[id], b)
  }

  ghost predicate SupersededStand(v: Vocabulary, lines: seq<Line>, l: Ledger) {
    forall id :: id in l.superseded ==> WasSuperseded(v, lines, id)
  }

  lemma TurnSuperseded(v: Vocabulary, lines: seq<Line>, s: Reader, l: Ledger)
    requires s.at < |lines| && PendingStands(v, lines, s) && SupersededStand(v, lines, l)
    ensures SupersededStand(v, lines, Enter(v, lines, s, l))
  {
    hide OnlyBlank;
    var stated := Identity(v, lines[s.at]);
    if stated.Some? {
      var id := Announced(stated.value, s.at);
      if Supersedes(v, id, s) {
        var a: nat :| AnnouncedFor(v, lines, s.pending.value, a, s.at);
        assert Names(v, lines, v.aliases[s.pending.value], s.at);
        assert WasSuperseded(v, lines, s.pending.value);
      }
    }
  }

  lemma {:induction false} TurnsSuperseded(v: Vocabulary, lines: seq<Line>, s: Reader, l: Ledger)
    requires s.at <= |lines| && PendingStands(v, lines, s) && SupersededStand(v, lines, l)
    ensures SupersededStand(v, lines, Entries(v, lines, s, l))
    decreases |lines| - s.at
  {
    hide Turn, Enter, SupersededStand, PendingStands;
    if s.at < |lines| {
      TurnSuperseded(v, lines, s, l);
      TurnPending(v, lines, s);
      TurnsSuperseded(v, lines, Turn(v, lines, s), Enter(v, lines, s, l));
    }
  }

  lemma EntersName(v: Vocabulary, lines: seq<Line>, s: Reader, l: Ledger, id: string)
    requires s.at < |lines| && Accounted(s, l) && Names(v, lines, id, s.at)
    ensures Count(Enter(v, lines, s, l).times, id) >= 1
  {
    hide Kept;
  }

  // ----- Lines that are not come upon -----

  /** Below a row line in sight and its separator, in an unbroken run of row lines. */
  ghost predicate InTable(v: Vocabulary, lines: seq<Line>, a: nat)
    requires a < |lines|
  {
    exists p: nat :: p < a && HeadsTable(v, lines, p) && forall k :: p <= k <= a ==> lines[k].cells.Some?
  }

  /** A row line in sight, with no identity of its own, over a separator of as many columns. */
  ghost predicate HeadsTable(v: Vocabulary, lines: seq<Line>, p: nat) {
    && p + 1 < |lines| && Identity(v, lines[p]).None?
    && lines[p].visible && lines[p].topLevel && lines[p].cells.Some?
    && IsSeparator(lines[p + 1], |lines[p].cells.value|)
  }

  lemma {:induction false} BodyUnbroken(lines: seq<Line>, p: nat)
    requires p <= |lines|
    ensures forall k :: p <= k < BodyEnd(lines, p) ==> lines[k].cells.Some?
    decreases |lines| - p
  {
    if p < |lines| && lines[p].cells.Some? { BodyUnbroken(lines, p + 1); }
  }

  /** A turn takes one line, or all of a table. */
  lemma TurnLength(v: Vocabulary, lines: seq<Line>, s: Reader)
    requires s.at < |lines|
    ensures
      || Turn(v, lines, s).at <= s.at + 1
      || (HeadsTable(v, lines, s.at) && Turn(v, lines, s).at == BodyEnd(lines, s.at + 2))
  {
    hide BodyFits, AllDistinct, IsSeparator, BodyEnd, Body, Supersedes, IsOwnMarker, Announced, TableName;
  }

  lemma TurnPasses(v: Vocabulary, lines: seq<Line>, s: Reader, a: nat)
    requires s.at < a < |lines| && Turn(v, lines, s).at > a
    ensures InTable(v, lines, a)
  {
    hide Turn, BodyEnd, IsSeparatorCell, Identity;
    TurnLength(v, lines, s);
    BodyUnbroken(lines, s.at + 2);
    assert forall k :: s.at <= k <= a ==> lines[k].cells.Some?;
  }

  /** The only lines the reader does not come upon are those in a table. */
  lemma {:induction false} PassedInTable(v: Vocabulary, lines: seq<Line>, s: Reader, a: nat)
    requires s.at <= a < |lines| && !Comes(v, lines, s, a)
    ensures InTable(v, lines, a)
    decreases |lines| - s.at
  {
    hide Turn, InTable;
    if Turn(v, lines, s).at <= a {
      PassedInTable(v, lines, Turn(v, lines, s), a);
    } else {
      TurnPasses(v, lines, s, a);
    }
  }

  /**
   * Nothing announced is lost: an identity announced outside the tables is returned, or has failed, or was
   * followed at once by its alias.
   */
  lemma NothingLost(v: Vocabulary, lines: seq<Line>, id: string, a: nat)
    requires a < |lines| && !InTable(v, lines, a) && Names(v, lines, id, a)
    ensures var r := Read(v, lines); id in r.tables || id in r.failures || WasSuperseded(v, lines, id)
  {
    hide Comes, Turn, Enter, Read, Accounted, Names, WasSuperseded, InTable;
    if !Comes(v, lines, START, a) { PassedInTable(v, lines, START, a); }
    NothingRead();
    var s, l := StateAt(v, lines, START, EMPTY, a);
    EntersName(v, lines, s, l, id);
    TurnAccounted(v, lines, s, l);
    TimesGrow(v, lines, Turn(v, lines, s), Enter(v, lines, s, l), id);
    EveryIdentityAccountedFor(v, lines);
    NothingSuperseded(v, lines);
    TurnsSuperseded(v, lines, START, EMPTY);
  }

  lemma NothingSuperseded(v: Vocabulary, lines: seq<Line>)
    ensures PendingStands(v, lines, START) && SupersededStand(v, lines, EMPTY)
  {
  }

  // ----- Row lines -----

  /** Once returned or failed, an identity stays one of the two. */
  lemma SettledOnce(v: Vocabulary, lines: seq<Line>, s: Reader, id: string)
    requires s.at < |lines| && (id in s.tables || id in s.failures)
    ensures id in Turn(v, lines, s).tables || id in Turn(v, lines, s).failures
  {
    hide BodyFits, Body, BodyEnd, IsSeparator, AllDistinct;
  }

  lemma {:induction false} SettledStays(v: Vocabulary, lines: seq<Line>, s: Reader, id: string)
    requires s.at <= |lines| && (id in s.tables || id in s.failures)
    ensures id in Turns(v, lines, s).tables || id in Turns(v, lines, s).failures
    decreases |lines| - s.at
  {
    hide Turn;
    if s.at < |lines| {
      SettledOnce(v, lines, s, id);
      SettledStays(v, lines, Turn(v, lines, s), id);
    }
  }

  lemma {:induction false} ComesUpon(v: Vocabulary, lines: seq<Line>, s: Reader, a: nat) returns (t: Reader)
    requires s.at <= |lines| && Comes(v, lines, s, a) && PendingStands(v, lines, s)
    ensures t.at == a < |lines| && PendingStands(v, lines, t) && Turns(v, lines, s) == Turns(v, lines, t)
    decreases |lines| - s.at
  {
    hide Turn, PendingStands;
    if s.at == a {
      t := s;
    } else {
      TurnPending(v, lines, s);
      t := ComesUpon(v, lines, Turn(v, lines, s), a);
    }
  }

  /** Every row line in sight that is not inside a table begins one: it is returned, or its identity has failed. */
  lemma NoTableLost(v: Vocabulary, lines: seq<Line>, a: nat) returns (id: string)
    requires a < |lines| && !InTable(v, lines, a) && Identity(v, lines[a]).None?
    requires lines[a].cells.Some? && lines[a].visible && lines[a].topLevel
    ensures GoesBy(v, lines, id, a) && (id in Read(v, lines).tables || id in Read(v, lines).failures)
  {
    hide Comes, BodyFits, Body, BodyEnd, IsSeparator, AllDistinct, AnnouncedFor, InTable;
    if !Comes(v, lines, START, a) { PassedInTable(v, lines, START, a); }
    var s := ComesUpon(v, lines, START, a);
    id := IdOf(s);
    SettledStays(v, lines, Turn(v, lines, s), id);
  }

  // ----- Codes -----

  /** The code under which an identity fails: what is wrong with its introduction, or else with its table. */
  ghost predicate Coded(l: Ledger, id: string, code: Code) {
    && (code == DuplicateId ==> Count(l.times, id) >= 2)
    && (code == TableHidden ==> id in l.hidden)
    && (code == TableMalformed ==> id in l.long || (id in l.places && !Spoiled(l, id)))
    && (code == TableMissing ==> !Spoiled(l, id) && id !in l.places)
  }

  ghost predicate AllCoded(s: Reader, l: Ledger) {
    forall id :: id in s.failures ==> Coded(l, id, s.failures[id])
  }

  lemma AnnounceCoded(v: Vocabulary, lines: seq<Line>, s: Reader, l: Ledger)
    requires s.at < |lines| && Accounted(s, l) && Marked(s, l) && Identity(v, lines[s.at]).Some? && AllCoded(s, l)
    ensures AllCoded(Turn(v, lines, s), Enter(v, lines, s, l))
  {
    hide Kept, Coded;
    var m, t := Enter(v, lines, s, l), Turn(v, lines, s);
    forall k | k in t.failures ensures Coded(m, k, t.failures[k]) {
      AnnouncedCode(v, lines, s, l, k);
    }
  }

  lemma AnnouncedCode(v: Vocabulary, lines: seq<Line>, s: Reader, l: Ledger, k: string)
    requires s.at < |lines| && Accounted(s, l) && Marked(s, l) && Identity(v, lines[s.at]).Some? && AllCoded(s, l)
    requires k in Turn(v, lines, s).failures
    ensures Coded(Enter(v, lines, s, l), k, Turn(v, lines, s).failures[k])
  {
    hide Kept, TableName;
    if k in s.failures { assert Coded(l, k, s.failures[k]); }
  }

  lemma PassByCoded(v: Vocabulary, lines: seq<Line>, s: Reader, l: Ledger)
    requires s.at < |lines| && Accounted(s, l) && Marked(s, l) && Identity(v, lines[s.at]).None? && AllCoded(s, l)
    requires lines[s.at].cells.None? || !Rendered(lines[s.at])
    ensures AllCoded(Turn(v, lines, s), Enter(v, lines, s, l))
  {
    hide Kept;
  }

  lemma CloseCoded(s: Reader, l: Ledger)
    requires Accounted(s, l) && Marked(s, l) && AllCoded(s, l)
    ensures AllCoded(Close(s), l)
  {
    hide Kept;
  }

  lemma ClaimedCode(s: Reader, l: Ledger, m: Ledger, k: string)
    requires Accounted(s, l) && Marked(s, l) && AllCoded(s, l)
    requires m.hidden == l.hidden && m.long == l.long && m.places == l.places[IdOf(s) := s.at]
    requires m.times == if s.pending.Some? then l.times else l.times[IdOf(s) := Count(l.times, IdOf(s)) + 1]
    requires k in Claim(s).failures
    ensures Coded(m, k, Claim(s).failures[k])
  {
    hide Kept, TableName;
    if k in s.failures { assert Coded(l, k, s.failures[k]); }
  }

  lemma ClaimCoded(s: Reader, l: Ledger, m: Ledger)
    requires Accounted(s, l) && Marked(s, l) && AllCoded(s, l)
    requires m.hidden == l.hidden && m.long == l.long && m.places == l.places[IdOf(s) := s.at]
    requires m.times == if s.pending.Some? then l.times else l.times[IdOf(s) := Count(l.times, IdOf(s)) + 1]
    ensures AllCoded(Claim(s), m)
  {
    hide Accounted, Marked, Coded, Claim, IdOf;
    forall k | k in Claim(s).failures ensures Coded(m, k, Claim(s).failures[k]) {
      ClaimedCode(s, l, m, k);
    }
  }

  lemma SettleCoded(c: Reader, m: Ledger, id: string, failures: map<string, Code>)
    requires Disjoint(c, m) && Refused(c, m) && AllCoded(c, m) && id in c.seen && id in m.places
    requires forall k :: k in m.long ==> k in c.failures
    requires failures == c.failures || failures == SetDefault(c.failures, id, TableMalformed)
    ensures forall k :: k in failures ==> Coded(m, k, failures[k])
  {
  }

  lemma TableCoded(v: Vocabulary, lines: seq<Line>, s: Reader, l: Ledger)
    requires s.at < |lines| && Accounted(s, l) && Marked(s, l) && Identity(v, lines[s.at]).None? && AllCoded(s, l)
    requires lines[s.at].cells.Some? && Rendered(lines[s.at])
    ensures AllCoded(Turn(v, lines, s), Enter(v, lines, s, l))
  {
    hide Kept, Disjoint, Refused, TakeTable, FitsAt, Claim, IdOf, AllCoded, Coded, Marked;
    var m := Enter(v, lines, s, l);
    TakeTableSettles(lines, s);
    ClaimAccounted(s, l, m);
    ClaimUnspoiled(s, l, m);
    ClaimCoded(s, l, m);
    SettleCoded(Claim(s), m, IdOf(s), Turn(v, lines, s).failures);
    FailuresCoded(Turn(v, lines, s), m);
  }

  lemma FailuresCoded(s: Reader, l: Ledger)
    requires forall k :: k in s.failures ==> Coded(l, k, s.failures[k])
    ensures AllCoded(s, l)
  {
  }

  lemma {:induction false} TurnsCoded(v: Vocabulary, lines: seq<Line>, s: Reader, l: Ledger)
    requires s.at <= |lines| && Accounted(s, l) && Marked(s, l) && Returned(lines, s, l) && AllCoded(s, l)
    ensures var t, m := Turns(v, lines, s), Entries(v, lines, s, l); AllCoded(Close(t), m)
    decreases |lines| - s.at
  {
    hide Accounted, Marked, Returned, Turn, Enter, AllCoded, Close;
    if s.at == |lines| {
      CloseCoded(s, l);
    } else {
      var line := lines[s.at];
      TurnAccounted(v, lines, s, l);
      if Identity(v, line).Some? {
        AnnounceMarked(v, lines, s, l);
        AnnounceReturned(v, lines, s, l);
        AnnounceCoded(v, lines, s, l);
      } else if line.cells.None? || !Rendered(line) {
        PassByReturned(v, lines, s, l);
        PassByCoded(v, lines, s, l);
      } else {
        TableReturned(v, lines, s, l);
        TableCoded(v, lines, s, l);
      }
      TurnsCoded(v, lines, Turn(v, lines, s), Enter(v, lines, s, l));
    }
  }

  /**
   * The code of every failure: a duplicate was introduced more than once, a hidden one announced where it
   * is not rendered, a malformed one named too long or taken for a table that does not fit, and a missing
   * one announced once over no table at all.
   */
  lemma CodesTell(v: Vocabulary, lines: seq<Line>, id: string)
    requires id in Read(v, lines).failures
    ensures Coded(Entries(v, lines, START, EMPTY), id, Read(v, lines).failures[id])
  {
    hide Coded, Turn, Enter, Returned;
    NothingRead();
    NothingReturned(lines);
    TurnsCoded(v, lines, START, EMPTY);
  }

  lemma NothingReturned(lines: seq<Line>)
    ensures Returned(lines, START, EMPTY) && Marked(START, EMPTY) && AllCoded(START, EMPTY)
  {
  }
}
