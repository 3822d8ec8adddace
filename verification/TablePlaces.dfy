/**
 * Where tables are taken: a sound table under its announcement is returned exactly when its identity was
 * introduced once, where it is rendered and by a name that fits.
 */
module TablePlaces {
  import opened Common
  import opened TableReader

  // ----- Where a table is taken -----

  /** The reader takes a turn at line a: it is no part of a table that starts above it. */
  predicate Comes(v: Vocabulary, lines: seq<Line>, s: Reader, a: nat)
    requires s.at <= |lines|
    decreases |lines| - s.at
  {
    a < |lines| && s.at <= a && (s.at == a || Comes(v, lines, Turn(v, lines, s), a))
  }

  /** The reading may as well go on from this later state. */
  ghost predicate SameEnd(v: Vocabulary, lines: seq<Line>, s: Reader, l: Ledger, t: Reader, m: Ledger)
    requires s.at <= |lines| && t.at <= |lines|
  {
    Accounted(t, m) && Entries(v, lines, s, l) == Entries(v, lines, t, m)
  }

  lemma {:induction false} StateAt(v: Vocabulary, lines: seq<Line>, s: Reader, l: Ledger, a: nat)
    returns (t: Reader, m: Ledger)
    requires s.at <= |lines| && Accounted(s, l) && Comes(v, lines, s, a)
    ensures t.at == a < |lines| && SameEnd(v, lines, s, l, t, m)
    decreases |lines| - s.at
  {
    hide Turn, Enter, Accounted;
    if s.at == a {
      t, m := s, l;
    } else {
      TurnAccounted(v, lines, s, l);
      t, m := StateAt(v, lines, Turn(v, lines, s), Enter(v, lines, s, l), a);
    }
  }

  /** Blank lines leave an announced identity pending. */
  lemma {:induction false} BlanksPass(v: Vocabulary, lines: seq<Line>, s: Reader, l: Ledger, p: nat)
    returns (t: Reader, m: Ledger)
    requires s.at <= p < |lines| && s.pending.Some? && Accounted(s, l) && OnlyBlank(v, lines, s.at, p)
    requires forall q :: s.at <= q < p ==> lines[q].cells.None?
    ensures t.at == p && t.pending == s.pending && SameEnd(v, lines, s, l, t, m)
    decreases p - s.at
  {
    hide Accounted;
    if s.at == p {
      t, m := s, l;
    } else {
      TurnAccounted(v, lines, s, l);
      var next := Turn(v, lines, s);
      assert next == s.(at := s.at + 1) && Enter(v, lines, s, l) == l;
      t, m := BlanksPass(v, lines, next, l, p);
    }
  }

  lemma TimesGrowOnce(v: Vocabulary, lines: seq<Line>, s: Reader, l: Ledger, id: string)
    requires s.at < |lines|
    ensures Count(Enter(v, lines, s, l).times, id) >= Count(l.times, id)
  {
  }

  lemma {:induction false} TimesGrow(v: Vocabulary, lines: seq<Line>, s: Reader, l: Ledger, id: string)
    requires s.at <= |lines|
    ensures Count(Entries(v, lines, s, l).times, id) >= Count(l.times, id)
    decreases |lines| - s.at
  {
    hide Turn, Enter;
    if s.at < |lines| {
      TimesGrowOnce(v, lines, s, l, id);
      TimesGrow(v, lines, Turn(v, lines, s), Enter(v, lines, s, l), id);
    }
  }

  /** Only a new introduction makes an identity pending again, or takes another table for it. */
  lemma PlaceStaysOnce(v: Vocabulary, lines: seq<Line>, s: Reader, l: Ledger, id: string)
    requires s.at < |lines| && s.pending != Some(id) && Count(l.times, id) >= 1
    ensures var t, m := Turn(v, lines, s), Enter(v, lines, s, l);
            Count(m.times, id) >= 2
            || (t.pending != Some(id) && (id in m.places <==> id in l.places)
                && (id in l.places ==> m.places[id] == l.places[id]))
  {
    hide BodyFits, Body, BodyEnd, IsSeparator, AllDistinct;
  }

  lemma {:induction false} PlaceStays(v: Vocabulary, lines: seq<Line>, s: Reader, l: Ledger, id: string)
    requires s.at <= |lines| && s.pending != Some(id) && id in l.places && Count(l.times, id) >= 1
    requires Count(Entries(v, lines, s, l).times, id) == 1
    ensures id in Entries(v, lines, s, l).places && Entries(v, lines, s, l).places[id] == l.places[id]
    decreases |lines| - s.at
  {
    hide Turn, Enter;
    if s.at < |lines| {
      var t, m := Turn(v, lines, s), Enter(v, lines, s, l);
      PlaceStaysOnce(v, lines, s, l, id);
      TimesGrow(v, lines, t, m, id);
      TimesGrowOnce(v, lines, s, l, id);
      PlaceStays(v, lines, t, m, id);
    }
  }

  /** A row line takes the table of the identity announced above it, and that is its place. */
  lemma PlaceTaken(v: Vocabulary, lines: seq<Line>, s: Reader, l: Ledger, id: string)
    requires s.at < |lines| && s.pending == Some(id) && Accounted(s, l)
    requires Identity(v, lines[s.at]).None? && lines[s.at].cells.Some? && Rendered(lines[s.at])
    ensures var t, m := Turn(v, lines, s), Enter(v, lines, s, l);
            t.pending.None? && m.places == l.places[id := s.at] && m.times == l.times && Count(m.times, id) >= 1
  {
    hide BodyFits, Body, BodyEnd, IsSeparator, AllDistinct, Kept;
  }

  /** Nothing but blank lines without cells stand between the announcement at a and the row line at p. */
  ghost predicate StandsUnder(v: Vocabulary, lines: seq<Line>, id: string, a: nat, p: nat) {
    && p < |lines| && AnnouncedFor(v, lines, id, a, p) && (forall q :: a < q < p ==> lines[q].cells.None?)
    && Identity(v, lines[p]).None? && lines[p].cells.Some? && Rendered(lines[p])
  }

  /** The place of an identity introduced once is the row line under its announcement. */
  lemma PlaceUnder(v: Vocabulary, lines: seq<Line>, id: string, a: nat, p: nat)
    requires Comes(v, lines, START, a) && StandsUnder(v, lines, id, a, p)
    requires Count(Entries(v, lines, START, EMPTY).times, id) == 1
    ensures var l := Entries(v, lines, START, EMPTY); id in l.places && l.places[id] == p
  {
    hide Turn, Enter, Accounted, Rendered;
    assert Accounted(START, EMPTY) by { NothingRead(); }
    var s, l := StateAt(v, lines, START, EMPTY, a);
    TurnAccounted(v, lines, s, l);
    AnnouncementTurn(v, lines, s, id);
    var t, m := BlanksPass(v, lines, Turn(v, lines, s), Enter(v, lines, s, l), p);
    PlaceTaken(v, lines, t, m, id);
    PlaceStays(v, lines, Turn(v, lines, t), Enter(v, lines, t, m), id);
  }

  lemma NothingRead()
    ensures Accounted(START, EMPTY)
  {
  }

  lemma AnnouncementTurn(v: Vocabulary, lines: seq<Line>, s: Reader, id: string)
    requires s.at < |lines| && Identity(v, lines[s.at]).Some?
    requires Announced(Identity(v, lines[s.at]).value, s.at) == id
    ensures Turn(v, lines, s).at == s.at + 1 && Turn(v, lines, s).pending == Some(id)
  {
  }

  lemma ReadAtUnique(lines: seq<Line>, p: nat, x: Table, y: Table)
    requires ReadAt(lines, p, x) && ReadAt(lines, p, y)
    ensures x == y
  {
    hide Rendered, IsSeparator;
    assert |x.rows| == |y.rows|;
    forall k | 0 <= k < |x.rows| ensures x.rows[k] == y.rows[k] {
      assert lines[p + 2 + k].cells == Some(x.rows[p + 2 + k - (p + 2)]);
      assert lines[p + 2 + k].cells == Some(y.rows[p + 2 + k - (p + 2)]);
    }
  }

  /**
   * A sound table under its announcement is returned, cell for cell, exactly when the identity was
   * introduced once, where it is rendered and by a name that fits.
   */
  lemma AnnouncedTableReturned(v: Vocabulary, lines: seq<Line>, id: string, a: nat, p: nat, table: Table)
    requires Comes(v, lines, START, a) && StandsUnder(v, lines, id, a, p) && Sound(v, lines, id, p, table)
    ensures var r, l := Read(v, lines), Entries(v, lines, START, EMPTY);
            && (id in r.tables <==> Count(l.times, id) == 1 && id !in l.hidden && id !in l.long)
            && (id in r.tables ==> r.tables[id] == table)
  {
    hide Comes, StandsUnder, Read, Entries, ReadAt, GoesBy;
    var r, l := Read(v, lines), Entries(v, lines, START, EMPTY);
    ReturnedExactly(v, lines, id);
    if Count(l.times, id) == 1 {
      PlaceUnder(v, lines, id, a, p);
      if id in r.tables { ReadAtUnique(lines, p, table, r.tables[id]); }
    }
  }
}
