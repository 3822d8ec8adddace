/**
 * The fail-closed reader of identified tables in artifact markdown. A scanned line
 * carries what the line helpers make of it: its marker, heading or plain text, whether
 * it is rendered at top level, and its cells when it is a table row.
 */
module TableReader {
  import opened Common
  import opened TableRules
  import Decimal

  const MAX_IDENTITY := 90
  const MAX_COLUMNS := 40

  type Name = s: string | |s| > 0 witness "T"

  datatype Line = Line(
    blank: bool,
    marker: Option<Name>,
    heading: Option<Name>,
    text: string,
    visible: bool,
    topLevel: bool,
    cells: Option<seq<string>>)

  /** The table names announced by a bare line, and the section headings that stand for a named table. */
  datatype Vocabulary = Vocabulary(named: set<Name>, aliases: map<string, string>)

  datatype Table = Table(columns: seq<string>, rows: seq<seq<string>>)

  datatype Code = TableMalformed | TableMissing | DuplicateId | TableHidden

  datatype Reader = Reader(
    at: nat,
    tables: map<string, Table>,
    failures: map<string, Code>,
    seen: set<string>,
    pending: Option<Name>,
    pendingIsHeading: bool)

  const START := Reader(0, map[], map[], {}, None, false)

  /** Record a failure unless one is recorded already. */
  function SetDefault(failures: map<string, Code>, id: string, code: Code): map<string, Code> {
    if id in failures then failures else failures[id := code]
  }

  function Without(tables: map<string, Table>, id: string): map<string, Table> {
    map k | k in tables && k != id :: tables[k]
  }

  function Identity(v: Vocabulary, line: Line): Option<Name> {
    if line.marker.Some? then line.marker
    else if line.heading.Some? then line.heading
    else if line.text in v.named then Some(line.text)
    else None
  }

  function TableName(lineNumber: nat): Name {
    "table_" + Decimal.Render(lineNumber)
  }

  predicate Rendered(line: Line) {
    line.visible && line.topLevel
  }

  predicate IsSeparatorCell(cell: string) {
    Unruled(cell) != "" && OnlyDashes(Unruled(cell))
  }

  /** A cell of a separator line is one or more dashes, with a colon at either end or none. */
  lemma SeparatorCellExactly(cell: string)
    ensures IsSeparatorCell(cell) <==> exists left: bool, n: nat, right: bool :: n > 0 && cell == Ruled(left, n, right)
  {
    RuledExactly(cell, 1);
  }

  predicate IsSeparator(line: Line, width: nat) {
    && line.cells.Some? && |line.cells.value| == width && Rendered(line)
    && forall i :: 0 <= i < width ==> IsSeparatorCell(line.cells.value[i])
  }

  predicate AllDistinct(columns: seq<string>) {
    forall i, j :: 0 <= i < j < |columns| ==> columns[i] != columns[j]
  }

  /** Where the rows starting at line p end: the first line that is no table row. */
  function BodyEnd(lines: seq<Line>, p: nat): (q: nat)
    requires p <= |lines|
    ensures p <= q <= |lines|
    decreases |lines| - p
  {
    if p < |lines| && lines[p].cells.Some? then BodyEnd(lines, p + 1) else p
  }

  function Body(lines: seq<Line>, p: nat): seq<seq<string>>
    requires p <= |lines|
    decreases |lines| - p
  {
    if p < |lines| && lines[p].cells.Some? then [lines[p].cells.value] + Body(lines, p + 1) else []
  }

  predicate BodyFits(lines: seq<Line>, p: nat, width: nat)
    requires p <= |lines|
    decreases |lines| - p
  {
    p < |lines| && lines[p].cells.Some? ==>
      Rendered(lines[p]) && |lines[p].cells.value| == width && BodyFits(lines, p + 1, width)
  }

  // ----- One turn of the reader -----

  /** The identity an announcing line gives, and whether it was too long to keep. */
  function Announced(id: Name, at: nat): Name {
    if |id| > MAX_IDENTITY then TableName(at + 1) else id
  }

  predicate IsOwnMarker(line: Line, id: Name, s: Reader) {
    line.marker.Some? && s.pendingIsHeading && s.pending == Some(id)
  }

  predicate Supersedes(v: Vocabulary, id: Name, s: Reader) {
    s.pending.Some? && s.pending.value != id && s.pending.value in v.aliases && v.aliases[s.pending.value] == id
  }

  predicate Abandons(v: Vocabulary, id: Name, s: Reader) {
    s.pending.Some? && s.pending.value != id && !Supersedes(v, id, s)
  }

  function Announce(v: Vocabulary, line: Line, stated: Name, s: Reader): Reader {
    var id := Announced(stated, s.at);
    var tooLong := if |stated| > MAX_IDENTITY then s.failures[id := TableMalformed] else s.failures;
    var abandoned := if Abandons(v, id, s) then SetDefault(tooLong, s.pending.value, TableMissing) else tooLong;
    var again := id in s.seen && !IsOwnMarker(line, id, s);
    var repeated := if again then abandoned[id := DuplicateId] else abandoned;
    Reader(
      s.at + 1,
      if again then Without(s.tables, id) else s.tables,
      if Rendered(line) then repeated else repeated[id := TableHidden],
      s.seen + {id},
      Some(id),
      line.marker.None?)
  }

  function PassBy(line: Line, s: Reader): Reader {
    if line.blank || s.pending.None? then s.(at := s.at + 1)
    else s.(at := s.at + 1, failures := SetDefault(s.failures, s.pending.value, TableMissing), pending := None)
  }

  function IdOf(s: Reader): Name {
    if s.pending.Some? then s.pending.value else TableName(s.at + 1)
  }

  /** Take the pending identity for a table, or name it after its line. */
  function Claim(s: Reader): Reader {
    var id := IdOf(s);
    if s.pending.Some? then s.(at := s.at + 1, pending := None)
    else if id in s.seen then
      s.(at := s.at + 1, failures := s.failures[id := DuplicateId], tables := Without(s.tables, id))
    else s.(at := s.at + 1, seen := s.seen + {id})
  }

  function TakeTable(lines: seq<Line>, columns: seq<string>, s: Reader): Reader
    requires s.at < |lines|
  {
    var id, c := IdOf(s), Claim(s);
    if columns == [] || c.at == |lines| || !IsSeparator(lines[c.at], |columns|) then
      c.(failures := SetDefault(c.failures, id, TableMalformed))
    else
      var p := c.at + 1;
      var sound := |columns| <= MAX_COLUMNS && AllDistinct(columns) && BodyFits(lines, p, |columns|);
      var failures := if sound then c.failures else SetDefault(c.failures, id, TableMalformed);
      c.(at := BodyEnd(lines, p),
         failures := failures,
         tables := if id in failures then c.tables else c.tables[id := Table(columns, Body(lines, p))])
  }

  function Turn(v: Vocabulary, lines: seq<Line>, s: Reader): (t: Reader)
    requires s.at < |lines|
    ensures s.at < t.at <= |lines|
  {
    var line := lines[s.at];
    var id := Identity(v, line);
    if id.Some? then Announce(v, line, id.value, s)
    else if line.cells.None? || !Rendered(line) then PassBy(line, s)
    else TakeTable(lines, line.cells.value, s)
  }

  function Turns(v: Vocabulary, lines: seq<Line>, s: Reader): (t: Reader)
    requires s.at <= |lines|
    ensures t.at == |lines|
    decreases |lines| - s.at
  {
    if s.at == |lines| then s else Turns(v, lines, Turn(v, lines, s))
  }

  /** What an identity announced and never given a table comes to. */
  function Close(s: Reader): Reader {
    if s.pending.Some? then s.(failures := SetDefault(s.failures, s.pending.value, TableMissing)) else s
  }

  function Read(v: Vocabulary, lines: seq<Line>): Reader {
    Close(Turns(v, lines, START))
  }

  // ----- The reader as the source runs it -----

  method ReadBody(lines: seq<Line>, width: nat, p: nat, id: string, failures: map<string, Code>)
    returns (rows: seq<seq<string>>, end: nat, failures': map<string, Code>)
    requires p <= |lines|
    ensures rows == Body(lines, p) && end == BodyEnd(lines, p)
    ensures failures' == if BodyFits(lines, p, width) then failures else SetDefault(failures, id, TableMalformed)
  {
    rows, end, failures' := [], p, failures;
    ghost var fits := true;
    while end < |lines| && lines[end].cells.Some?
      invariant p <= end <= |lines|
      invariant rows + Body(lines, end) == Body(lines, p) && BodyEnd(lines, end) == BodyEnd(lines, p)
      invariant BodyFits(lines, p, width) <==> fits && BodyFits(lines, end, width)
      invariant failures' == if fits then failures else SetDefault(failures, id, TableMalformed)
    {
      var cells := lines[end].cells.value;
      if !Rendered(lines[end]) || |cells| != width {
        failures' := SetDefault(failures', id, TableMalformed);
        fits := false;
      }
      rows := rows + [cells];
      end := end + 1;
    }
  }

  /** A line that announces an identity. */
  method OnAnnouncement(v: Vocabulary, line: Line, stated: Name, ghost s: Reader, at: nat,
                        tables: map<string, Table>, failures: map<string, Code>, seen: set<string>,
                        pending: Option<Name>, pendingIsHeading: bool)
    returns (id: Name, tables': map<string, Table>, failures': map<string, Code>)
    requires s == Reader(at, tables, failures, seen, pending, pendingIsHeading)
    ensures Announce(v, line, stated, s) == Reader(at + 1, tables', failures', seen + {id}, Some(id), line.marker.None?)
  {
    id, tables', failures' := stated, tables, failures;
    if |id| > MAX_IDENTITY {
      id := TableName(at + 1);
      failures' := failures'[id := TableMalformed];
    }
    var sameHeading := line.marker.Some? && pendingIsHeading && pending == Some(id);
    if pending.Some? && pending.value != id && !(pending.value in v.aliases && v.aliases[pending.value] == id) {
      failures' := SetDefault(failures', pending.value, TableMissing);
    }
    if id in seen && !sameHeading {
      failures' := failures'[id := DuplicateId];
      tables' := Without(tables', id);
    }
    if !line.visible || !line.topLevel {
      failures' := failures'[id := TableHidden];
    }
  }

  /** A rendered table row where a table may begin. */
  method OnTable(lines: seq<Line>, columns: seq<string>, ghost s: Reader, at: nat,
                 tables: map<string, Table>, failures: map<string, Code>, seen: set<string>, pending: Option<Name>)
    returns (at': nat, tables': map<string, Table>, failures': map<string, Code>, seen': set<string>)
    requires at < |lines| && s == Reader(at, tables, failures, seen, pending, s.pendingIsHeading)
    ensures TakeTable(lines, columns, s) == Reader(at', tables', failures', seen', None, s.pendingIsHeading)
  {
    hide Body, BodyFits, BodyEnd, IsSeparator, AllDistinct;
    at', tables', failures', seen' := at, tables, failures, seen;
    var id := if pending.Some? then pending.value else TableName(at + 1);
    if pending.None? {
      if id in seen {
        failures' := failures'[id := DuplicateId];
        tables' := Without(tables', id);
      }
      seen' := seen' + {id};
    }
    at' := at' + 1;
    assert Claim(s) == Reader(at', tables', failures', seen', None, s.pendingIsHeading);
    if columns == [] || at' == |lines| || !IsSeparator(lines[at'], |columns|) {
      failures' := SetDefault(failures', id, TableMalformed);
      return;
    }
    if |columns| > MAX_COLUMNS || !AllDistinct(columns) {
      failures' := SetDefault(failures', id, TableMalformed);
    }
    var rows;
    rows, at', failures' := ReadBody(lines, |columns|, at' + 1, id, failures');
    if id !in failures' {
      tables' := tables'[id := Table(columns, rows)];
    }
  }

  method ReadTables(v: Vocabulary, lines: seq<Line>)
    returns (tables: map<string, Table>, failures: map<string, Code>)
    ensures tables == Read(v, lines).tables && failures == Read(v, lines).failures
  {
    tables, failures := map[], map[];
    var seen: set<string>, pending: Option<Name>, pendingIsHeading, i := {}, None, false, 0;
    while i < |lines|
      invariant i <= |lines|
      invariant Turns(v, lines, Reader(i, tables, failures, seen, pending, pendingIsHeading)) == Turns(v, lines, START)
      decreases |lines| - i
    {
      ghost var s := Reader(i, tables, failures, seen, pending, pendingIsHeading);
      var line := lines[i];
      var stated := Identity(v, line);
      if stated.Some? {
        var id;
        id, tables, failures :=
          OnAnnouncement(v, line, stated.value, s, i, tables, failures, seen, pending, pendingIsHeading);
        i, seen, pending, pendingIsHeading := i + 1, seen + {id}, Some(id), line.marker.None?;
      } else if line.cells.None? || !Rendered(line) {
        if !line.blank && pending.Some? {
          failures, pending := SetDefault(failures, pending.value, TableMissing), None;
        }
        i := i + 1;
      } else {
        i, tables, failures, seen := OnTable(lines, line.cells.value, s, i, tables, failures, seen, pending);
        pending := None;
      }
      assert Reader(i, tables, failures, seen, pending, pendingIsHeading) == Turn(v, lines, s);
    }
    if pending.Some? {
      failures := SetDefault(failures, pending.value, TableMissing);
    }
  }

  // ----- What a reading has introduced so far -----

  /**
   * How often each identity was introduced, the names superseded by their alias, the hidden ones, those
   * that stand for a name too long to keep, and the row line at which a table was last taken for each.
   */
  datatype Ledger = Ledger(
    times: map<string, nat>,
    superseded: set<string>,
    hidden: set<string>,
    long: set<string>,
    places: map<string, nat>)

  const EMPTY := Ledger(map[], {}, {}, {}, map[])

  function Count(times: map<string, nat>, id: string): nat {
    if id in times then times[id] else 0
  }

  /** A heading followed at once by its own marker is one introduction, not two. */
  function Enter(v: Vocabulary, lines: seq<Line>, s: Reader, l: Ledger): Ledger
    requires s.at < |lines|
  {
    var line := lines[s.at];
    var stated := Identity(v, line);
    if stated.Some? then
      var id := Announced(stated.value, s.at);
      Ledger(
        if IsOwnMarker(line, id, s) then l.times else l.times[id := Count(l.times, id) + 1],
        if Supersedes(v, id, s) then l.superseded + {s.pending.value} else l.superseded,
        if Rendered(line) then l.hidden else l.hidden + {id},
        if |stated.value| > MAX_IDENTITY then l.long + {id} else l.long,
        l.places)
    else if line.cells.Some? && Rendered(line) then
      l.(times := if s.pending.None? then l.times[IdOf(s) := Count(l.times, IdOf(s)) + 1] else l.times,
         places := l.places[IdOf(s) := s.at])
    else l
  }

  function Entries(v: Vocabulary, lines: seq<Line>, s: Reader, l: Ledger): Ledger
    requires s.at <= |lines|
    decreases |lines| - s.at
  {
    if s.at == |lines| then l else Entries(v, lines, Turn(v, lines, s), Enter(v, lines, s, l))
  }

  // ----- What every turn keeps -----

  /** Returned, failed and introduced identities, kept apart and together. */
  ghost predicate Disjoint(s: Reader, l: Ledger) {
    && (forall id :: id in s.tables ==> id !in s.failures && id in s.seen)
    && (forall id :: id in s.failures ==> id in s.seen)
    && (forall id :: id in s.seen <==> id in l.times)
    && (s.pending.Some? ==> s.pending.value in s.seen && s.pending.value !in s.tables)
  }

  /** No introduced identity is lost. */
  ghost predicate Kept(s: Reader, l: Ledger) {
    forall id :: id in s.seen ==>
      id in s.tables || id in s.failures || id in l.superseded || (s.pending.Some? && s.pending.value == id)
  }

  /** Ambiguous and hidden identities have failed. */
  ghost predicate Refused(s: Reader, l: Ledger) {
    && (forall id :: id in l.times && l.times[id] >= 2 ==> id in s.failures)
    && (forall id :: id in l.times ==> l.times[id] >= 1)
    && (forall id :: id in l.hidden ==> id in s.failures)
  }

  ghost predicate Accounted(s: Reader, l: Ledger) {
    Disjoint(s, l) && Kept(s, l) && Refused(s, l)
  }

  lemma AnnounceDisjoint(v: Vocabulary, lines: seq<Line>, s: Reader, l: Ledger)
    requires s.at < |lines| && Accounted(s, l) && Identity(v, lines[s.at]).Some?
    ensures Disjoint(Turn(v, lines, s), Enter(v, lines, s, l))
  {
    hide Kept, Refused;
  }

  lemma AnnounceKept(v: Vocabulary, lines: seq<Line>, s: Reader, l: Ledger)
    requires s.at < |lines| && Accounted(s, l) && Identity(v, lines[s.at]).Some?
    ensures Kept(Turn(v, lines, s), Enter(v, lines, s, l))
  {
    hide Refused;
  }

  lemma AnnounceRefused(v: Vocabulary, lines: seq<Line>, s: Reader, l: Ledger)
    requires s.at < |lines| && Accounted(s, l) && Identity(v, lines[s.at]).Some?
    ensures Refused(Turn(v, lines, s), Enter(v, lines, s, l))
  {
    hide Kept;
  }

  lemma AnnounceAccounted(v: Vocabulary, lines: seq<Line>, s: Reader, l: Ledger)
    requires s.at < |lines| && Accounted(s, l) && Identity(v, lines[s.at]).Some?
    ensures Accounted(Turn(v, lines, s), Enter(v, lines, s, l))
  {
    hide Kept, Refused, Disjoint, Enter, Turn;
    AnnounceDisjoint(v, lines, s, l);
    AnnounceKept(v, lines, s, l);
    AnnounceRefused(v, lines, s, l);
  }

  lemma PassByAccounted(v: Vocabulary, lines: seq<Line>, s: Reader, l: Ledger)
    requires s.at < |lines| && Accounted(s, l) && Identity(v, lines[s.at]).None?
    requires lines[s.at].cells.None? || !Rendered(lines[s.at])
    ensures Accounted(Turn(v, lines, s), Enter(v, lines, s, l))
  {
  }

  /** Claiming an identity leaves it the only one not yet returned or failed. */
  lemma ClaimAccounted(s: Reader, l: Ledger, m: Ledger)
    requires Accounted(s, l)
    requires m.hidden == l.hidden && m.superseded == l.superseded
    requires m.times == if s.pending.Some? then l.times else l.times[IdOf(s) := Count(l.times, IdOf(s)) + 1]
    ensures var id, c := IdOf(s), Claim(s);
            && c.pending.None? && Disjoint(c, m) && Refused(c, m) && id in c.seen && id !in c.tables
            && Kept(c.(pending := Some(id)), m)
  {
  }

  lemma SettleAccounted(c: Reader, m: Ledger, id: Name, d: Reader, table: Table)
    requires Disjoint(c, m) && Refused(c, m) && Kept(c.(pending := Some(id)), m) && id in c.seen && id !in c.tables
    requires c.pending.None? && d.pending.None? && d.seen == c.seen
    requires d.failures == c.failures || d.failures == SetDefault(c.failures, id, TableMalformed)
    requires d.tables == if id in d.failures then c.tables else c.tables[id := table]
    ensures Accounted(d, m)
  {
  }

  lemma TableAccounted(v: Vocabulary, lines: seq<Line>, s: Reader, l: Ledger)
    requires s.at < |lines| && Accounted(s, l) && Identity(v, lines[s.at]).None?
    requires lines[s.at].cells.Some? && Rendered(lines[s.at])
    ensures Accounted(Turn(v, lines, s), Enter(v, lines, s, l))
  {
    hide Body, BodyFits, BodyEnd, IsSeparator, AllDistinct, Claim, IdOf, Kept, Refused, Disjoint;
    ClaimAccounted(s, l, Enter(v, lines, s, l));
    var id, d := IdOf(s), Turn(v, lines, s);
    SettleAccounted(Claim(s), Enter(v, lines, s, l), id, d, if id in d.tables then d.tables[id] else Table([], []));
  }

  lemma TurnAccounted(v: Vocabulary, lines: seq<Line>, s: Reader, l: Ledger)
    requires s.at < |lines| && Accounted(s, l)
    ensures Accounted(Turn(v, lines, s), Enter(v, lines, s, l))
  {
    hide Accounted, Turn, Enter;
    var line := lines[s.at];
    if Identity(v, line).Some? {
      AnnounceAccounted(v, lines, s, l);
    } else if line.cells.None? || !Rendered(line) {
      PassByAccounted(v, lines, s, l);
    } else {
      TableAccounted(v, lines, s, l);
    }
  }

  lemma {:induction false} TurnsAccounted(v: Vocabulary, lines: seq<Line>, s: Reader, l: Ledger)
    requires s.at <= |lines| && Accounted(s, l)
    ensures Accounted(Turns(v, lines, s), Entries(v, lines, s, l))
    decreases |lines| - s.at
  {
    hide Accounted, Turn, Enter;
    if s.at < |lines| {
      TurnAccounted(v, lines, s, l);
      TurnsAccounted(v, lines, Turn(v, lines, s), Enter(v, lines, s, l));
    }
  }

  // ----- Which identities are returned -----

  /** A header of 1 to 40 distinct columns at line p, its separator, and only fitting rows after it. */
  predicate FitsAt(lines: seq<Line>, p: nat) {
    && p + 1 < |lines| && Rendered(lines[p]) && lines[p].cells.Some?
    && var columns := lines[p].cells.value;
       && 1 <= |columns| <= MAX_COLUMNS && AllDistinct(columns)
       && IsSeparator(lines[p + 1], |columns|) && BodyFits(lines, p + 2, |columns|)
  }

  /** Introduced once, where it is rendered and by a name that fits, over a table that fits. */
  predicate Earns(lines: seq<Line>, l: Ledger, id: string) {
    && id in l.times && l.times[id] == 1 && id !in l.hidden && id !in l.long
    && id in l.places && FitsAt(lines, l.places[id])
  }

  /** Nothing stands against an identity but what the ledger says. */
  predicate Spoiled(l: Ledger, id: string) {
    Count(l.times, id) >= 2 || id in l.hidden || id in l.long
  }

  ghost predicate Marked(s: Reader, l: Ledger) {
    && (forall id :: id in l.places ==> id in l.times)
    && (forall id :: id in l.long ==> id in s.failures)
    && (s.pending.Some? && (s.pending.value in s.failures || s.pending.value in l.places) ==>
          Spoiled(l, s.pending.value))
  }

  /** What is returned so far is what has earned it. */
  ghost predicate Returned(lines: seq<Line>, s: Reader, l: Ledger) {
    forall id :: id in s.tables <==> Earns(lines, l, id)
  }

  lemma AnnounceMarked(v: Vocabulary, lines: seq<Line>, s: Reader, l: Ledger)
    requires s.at < |lines| && Accounted(s, l) && Marked(s, l) && Identity(v, lines[s.at]).Some?
    ensures Marked(Turn(v, lines, s), Enter(v, lines, s, l))
  {
    hide Kept;
  }

  lemma AnnounceReturned(v: Vocabulary, lines: seq<Line>, s: Reader, l: Ledger)
    requires s.at < |lines| && Accounted(s, l) && Marked(s, l) && Identity(v, lines[s.at]).Some?
    requires Returned(lines, s, l)
    ensures Returned(lines, Turn(v, lines, s), Enter(v, lines, s, l))
  {
    hide Kept, FitsAt;
  }

  lemma PassByReturned(v: Vocabulary, lines: seq<Line>, s: Reader, l: Ledger)
    requires s.at < |lines| && Accounted(s, l) && Marked(s, l) && Identity(v, lines[s.at]).None?
    requires lines[s.at].cells.None? || !Rendered(lines[s.at])
    requires Returned(lines, s, l)
    ensures Marked(Turn(v, lines, s), Enter(v, lines, s, l))
    ensures Returned(lines, Turn(v, lines, s), Enter(v, lines, s, l))
  {
    hide Kept, FitsAt;
  }

  lemma ClaimAt(s: Reader)
    ensures Claim(s).at == s.at + 1
  {
  }

  /** A table where it may begin fails exactly when it does not fit, or has failed already. */
  lemma TakeTableSettles(lines: seq<Line>, s: Reader)
    requires s.at < |lines| && Rendered(lines[s.at]) && lines[s.at].cells.Some?
    ensures var id, c, d := IdOf(s), Claim(s), TakeTable(lines, lines[s.at].cells.value, s);
            && d.pending == c.pending
            && d.failures == (if FitsAt(lines, s.at) then c.failures else SetDefault(c.failures, id, TableMalformed))
            && d.tables.Keys == if id in d.failures then c.tables.Keys else c.tables.Keys + {id}
  {
    hide Body, BodyEnd, BodyFits, IsSeparator, AllDistinct, IdOf, Claim, Rendered;
    ClaimAt(s);
  }

  /** The identity a table is taken for has not failed, unless something stands against it. */
  lemma ClaimUnspoiled(s: Reader, l: Ledger, m: Ledger)
    requires Accounted(s, l) && Marked(s, l)
    requires m.hidden == l.hidden && m.long == l.long && m.places == l.places[IdOf(s) := s.at]
    requires m.times == if s.pending.Some? then l.times else l.times[IdOf(s) := Count(l.times, IdOf(s)) + 1]
    ensures var id, c := IdOf(s), Claim(s);
            && (forall k :: k in m.places ==> k in m.times)
            && (forall k :: k in m.long ==> k in c.failures)
            && (id in c.failures ==> Spoiled(m, id))
            && (forall k :: k in c.tables <==> k in s.tables && k != id)
  {
    hide Kept;
  }

  lemma TableReturned(v: Vocabulary, lines: seq<Line>, s: Reader, l: Ledger)
    requires s.at < |lines| && Accounted(s, l) && Marked(s, l) && Identity(v, lines[s.at]).None?
    requires lines[s.at].cells.Some? && Rendered(lines[s.at])
    requires Returned(lines, s, l)
    ensures Marked(Turn(v, lines, s), Enter(v, lines, s, l))
    ensures Returned(lines, Turn(v, lines, s), Enter(v, lines, s, l))
  {
    hide Kept, Claim, IdOf, TakeTable, FitsAt, Disjoint;
    var id, m, d := IdOf(s), Enter(v, lines, s, l), Turn(v, lines, s);
    TakeTableSettles(lines, s);
    ClaimAccounted(s, l, m);
    ClaimUnspoiled(s, l, m);
    forall k ensures k in d.tables <==> Earns(lines, m, k) {
      if k == id {
        OwnReturned(lines, Claim(s), m, id, d);
      } else {
        assert Earns(lines, m, k) <==> Earns(lines, l, k);
      }
    }
  }

  lemma OwnReturned(lines: seq<Line>, c: Reader, m: Ledger, id: string, d: Reader)
    requires Disjoint(c, m) && Refused(c, m) && id in c.seen && id !in c.tables && id in m.places
    requires (forall k :: k in m.long ==> k in c.failures) && (id in c.failures ==> Spoiled(m, id))
    requires id in d.failures <==> id in c.failures || !FitsAt(lines, m.places[id])
    requires id in d.tables <==> id !in d.failures
    ensures id in d.tables <==> Earns(lines, m, id)
  {
    hide FitsAt;
  }

  lemma {:induction false} TurnsReturned(v: Vocabulary, lines: seq<Line>, s: Reader, l: Ledger)
    requires s.at <= |lines| && Accounted(s, l) && Marked(s, l) && Returned(lines, s, l)
    ensures Marked(Turns(v, lines, s), Entries(v, lines, s, l))
    ensures Returned(lines, Turns(v, lines, s), Entries(v, lines, s, l))
    decreases |lines| - s.at
  {
    hide Accounted, Marked, Returned, Turn, Enter;
    if s.at < |lines| {
      var line := lines[s.at];
      TurnAccounted(v, lines, s, l);
      if Identity(v, line).Some? {
        AnnounceMarked(v, lines, s, l);
        AnnounceReturned(v, lines, s, l);
      } else if line.cells.None? || !Rendered(line) {
        PassByReturned(v, lines, s, l);
      } else {
        TableReturned(v, lines, s, l);
      }
      TurnsReturned(v, lines, Turn(v, lines, s), Enter(v, lines, s, l));
    }
  }

  /**
   * Fail closed, lose nothing. No identity is both returned and failed. Every identity introduced
   * is returned or failed unless its alias superseded it; nothing else is. What is returned is
   * exactly the identities introduced once, where they are rendered and by a name that fits, over a
   * table that fits.
   */
  lemma EveryIdentityAccountedFor(v: Vocabulary, lines: seq<Line>)
    ensures var r, l := Read(v, lines), Entries(v, lines, START, EMPTY);
            && r.tables.Keys !! r.failures.Keys
            && (forall id :: id in l.times ==> id in r.tables || id in r.failures || id in l.superseded)
            && (forall id :: id in r.tables || id in r.failures ==> id in l.times)
            && (forall id :: id in l.times && l.times[id] >= 2 ==> id in r.failures)
            && (forall id :: id in l.hidden || id in l.long ==> id in r.failures)
            && (forall id :: id in r.tables <==> Earns(lines, l, id))
  {
    TurnsAccounted(v, lines, START, EMPTY);
    TurnsReturned(v, lines, START, EMPTY);
  }

  // ----- What is returned is what was written -----

  /** From line p on, the lines are rendered rows of this width with these cells. */
  ghost predicate RowsAt(lines: seq<Line>, p: nat, rows: seq<seq<string>>, width: nat) {
    && p + |rows| <= |lines|
    && forall q :: p <= q < p + |rows| ==>
         && lines[q].visible && lines[q].topLevel
         && lines[q].cells == Some(rows[q - p]) && |rows[q - p]| == width
  }

  /** The table read at line p: a header, its separator, and every row line that follows. */
  ghost predicate ReadAt(lines: seq<Line>, p: nat, table: Table) {
    && p + 1 < |lines|
    && lines[p].visible && lines[p].topLevel && lines[p].cells == Some(table.columns)
    && lines[p + 1].visible && lines[p + 1].topLevel && IsSeparator(lines[p + 1], |table.columns|)
    && RowsAt(lines, p + 2, table.rows, |table.columns|)
    && (p + 2 + |table.rows| < |lines| ==> lines[p + 2 + |table.rows|].cells.None?)
  }

  /** From line a up to line p there are only blank lines. */
  ghost predicate OnlyBlank(v: Vocabulary, lines: seq<Line>, a: nat, p: nat)
    requires p <= |lines|
  {
    forall q :: a <= q < p ==> lines[q].blank && Identity(v, lines[q]).None?
  }

  /** Line a announces this identity: by a name of at most 90 characters, or by its number for a longer one. */
  predicate Names(v: Vocabulary, lines: seq<Line>, id: string, a: nat)
    requires a < |lines|
  {
    match Identity(v, lines[a])
    case Some(name) => id == if |name| <= 90 then name else "table_" + Decimal.Render(a + 1)
    case None => false
  }

  /** A marker names its line before a heading does, and a heading before plain text that is a known name. */
  lemma IdentityExactly(v: Vocabulary, line: Line, id: Name)
    ensures Identity(v, line) == Some(id) <==>
      || line.marker == Some(id)
      || (line.marker.None? && line.heading == Some(id))
      || (line.marker.None? && line.heading.None? && line.text in v.named && line.text == id)
  {
  }

  /** Line a announces this identity, and nothing but blank lines stand between it and line p. */
  ghost predicate AnnouncedFor(v: Vocabulary, lines: seq<Line>, id: string, a: nat, p: nat)
    requires p <= |lines|
  {
    && a < p && Names(v, lines, id, a) && OnlyBlank(v, lines, a + 1, p)
  }

  /** A table at line p goes by the identity last announced above it, or is named after its line. */
  ghost predicate GoesBy(v: Vocabulary, lines: seq<Line>, id: string, p: nat)
    requires p <= |lines|
  {
    id == "table_" + Decimal.Render(p + 1) || exists a: nat :: AnnouncedFor(v, lines, id, a, p)
  }

  ghost predicate Sound(v: Vocabulary, lines: seq<Line>, id: string, p: nat, table: Table) {
    && 1 <= |table.columns| <= MAX_COLUMNS && AllDistinct(table.columns)
    && ReadAt(lines, p, table) && GoesBy(v, lines, id, p)
  }

  lemma {:induction false} BodyLines(lines: seq<Line>, p: nat, width: nat)
    requires p <= |lines| && BodyFits(lines, p, width)
    ensures var rows := Body(lines, p);
            RowsAt(lines, p, rows, width) && (p + |rows| < |lines| ==> lines[p + |rows|].cells.None?)
    decreases |lines| - p
  {
    if p < |lines| && lines[p].cells.Some? {
      BodyLines(lines, p + 1, width);
      var rest := Body(lines, p + 1);
      forall q | p <= q < p + |rest| + 1
        ensures lines[q].visible && lines[q].topLevel
        ensures lines[q].cells == Some(Body(lines, p)[q - p]) && |Body(lines, p)[q - p]| == width
      {
        if q > p { assert Body(lines, p)[q - p] == rest[q - (p + 1)]; }
      }
      assert Body(lines, p) == [lines[p].cells.value] + rest;
      assert RowsAt(lines, p, Body(lines, p), width);
      assert p + |Body(lines, p)| == (p + 1) + |rest|;
    }
  }

  ghost predicate AllSound(v: Vocabulary, lines: seq<Line>, s: Reader, l: Ledger) {
    forall id :: id in s.tables ==> id in l.places && Sound(v, lines, id, l.places[id], s.tables[id])
  }

  /** The pending identity was announced just above, blank lines aside. */
  ghost predicate PendingStands(v: Vocabulary, lines: seq<Line>, s: Reader)
    requires s.at <= |lines|
  {
    s.pending.Some? ==> exists a: nat :: AnnouncedFor(v, lines, s.pending.value, a, s.at)
  }

  lemma TurnPending(v: Vocabulary, lines: seq<Line>, s: Reader)
    requires s.at < |lines| && PendingStands(v, lines, s)
    ensures PendingStands(v, lines, Turn(v, lines, s))
  {
    hide BodyFits, Body, IsSeparator, AllDistinct;
    var line, t := lines[s.at], Turn(v, lines, s);
    if Identity(v, line).Some? {
      assert AnnouncedFor(v, lines, t.pending.value, s.at, t.at);
    } else if t.pending.Some? {
      var a: nat :| AnnouncedFor(v, lines, s.pending.value, a, s.at);
      assert AnnouncedFor(v, lines, t.pending.value, a, t.at);
    }
  }

  lemma TableReadSound(v: Vocabulary, lines: seq<Line>, id: string, p: nat)
    requires p + 1 < |lines| && Rendered(lines[p]) && lines[p].cells.Some? && lines[p].cells.value != []
    requires var columns := lines[p].cells.value;
             && IsSeparator(lines[p + 1], |columns|) && BodyFits(lines, p + 2, |columns|)
             && |columns| <= MAX_COLUMNS && AllDistinct(columns)
    requires GoesBy(v, lines, id, p)
    ensures Sound(v, lines, id, p, Table(lines[p].cells.value, Body(lines, p + 2)))
  {
    hide GoesBy, IsSeparatorCell, Body;
    var table := Table(lines[p].cells.value, Body(lines, p + 2));
    BodyLines(lines, p + 2, |table.columns|);
    assert ReadAt(lines, p, table);
  }

  lemma TakenSound(v: Vocabulary, lines: seq<Line>, s: Reader)
    requires s.at < |lines| && Rendered(lines[s.at]) && lines[s.at].cells.Some? && PendingStands(v, lines, s)
    ensures var id, t := IdOf(s), TakeTable(lines, lines[s.at].cells.value, s);
            id in t.tables && id !in Claim(s).tables ==> Sound(v, lines, id, s.at, t.tables[id])
    ensures forall k :: k in TakeTable(lines, lines[s.at].cells.value, s).tables && k != IdOf(s) ==>
              k in Claim(s).tables && TakeTable(lines, lines[s.at].cells.value, s).tables[k] == Claim(s).tables[k]
  {
    hide Sound, IsSeparator, Body, BodyFits, AllDistinct, Rendered, AnnouncedFor, Claim;
    var columns, p := lines[s.at].cells.value, s.at;
    ClaimAt(s);
    if columns != [] && p + 1 < |lines| && IsSeparator(lines[p + 1], |columns|) && BodyFits(lines, p + 2, |columns|) &&
       |columns| <= MAX_COLUMNS && AllDistinct(columns) {
      assert GoesBy(v, lines, IdOf(s), p);
      TableReadSound(v, lines, IdOf(s), p);
    }
  }

  lemma TakeTableSound(v: Vocabulary, lines: seq<Line>, s: Reader, l: Ledger)
    requires s.at < |lines| && Rendered(lines[s.at]) && lines[s.at].cells.Some? && Accounted(s, l)
    requires AllSound(v, lines, s, l) && PendingStands(v, lines, s)
    ensures AllSound(v, lines, TakeTable(lines, lines[s.at].cells.value, s), l.(places := l.places[IdOf(s) := s.at]))
  {
    hide Sound, Rendered, PendingStands, TableName, Kept, Refused, TakeTable;
    TakenSound(v, lines, s);
    assert forall k :: k in Claim(s).tables ==> k != IdOf(s) && k in s.tables && Claim(s).tables[k] == s.tables[k];
  }

  lemma TurnSound(v: Vocabulary, lines: seq<Line>, s: Reader, l: Ledger)
    requires s.at < |lines| && Accounted(s, l) && AllSound(v, lines, s, l) && PendingStands(v, lines, s)
    ensures AllSound(v, lines, Turn(v, lines, s), Enter(v, lines, s, l))
  {
    hide Sound, TakeTable, Rendered, PendingStands, Accounted;
    var line := lines[s.at];
    if Identity(v, line).None? && line.cells.Some? && Rendered(line) {
      TakeTableSound(v, lines, s, l);
    }
  }

  lemma {:induction false} TurnsSound(v: Vocabulary, lines: seq<Line>, s: Reader, l: Ledger)
    requires s.at <= |lines| && Accounted(s, l) && AllSound(v, lines, s, l) && PendingStands(v, lines, s)
    ensures AllSound(v, lines, Turns(v, lines, s), Entries(v, lines, s, l))
    decreases |lines| - s.at
  {
    hide AllSound, PendingStands, Turn, Enter, Accounted;
    if s.at < |lines| {
      TurnSound(v, lines, s, l);
      TurnPending(v, lines, s);
      TurnAccounted(v, lines, s, l);
      TurnsSound(v, lines, Turn(v, lines, s), Enter(v, lines, s, l));
    }
  }

  /**
   * Every returned table has 1 to 40 distinct columns and full-width rows, and is cell for cell a
   * rendered header, its separator and the whole run of row lines after it, where a table was taken for
   * its identity. It stands under the line that announced its identity, with only blank lines between,
   * or is named after its own line.
   */
  lemma ReturnedTablesSound(v: Vocabulary, lines: seq<Line>, id: string)
    requires id in Read(v, lines).tables
    ensures var l := Entries(v, lines, START, EMPTY);
            id in l.places && Sound(v, lines, id, l.places[id], Read(v, lines).tables[id])
  {
    hide Sound, Turn, Enter;
    TurnsSound(v, lines, START, EMPTY);
  }

  lemma {:induction false} RowsFit(lines: seq<Line>, p: nat, rows: seq<seq<string>>, width: nat)
    requires RowsAt(lines, p, rows, width) && (p + |rows| < |lines| ==> lines[p + |rows|].cells.None?)
    ensures BodyFits(lines, p, width)
    decreases |rows|
  {
    if rows != [] {
      assert lines[p].cells == Some(rows[0]);
      RowsFit(lines, p + 1, rows[1..], width);
    }
  }

  lemma SoundFits(v: Vocabulary, lines: seq<Line>, id: string, p: nat, table: Table)
    requires Sound(v, lines, id, p, table)
    ensures FitsAt(lines, p)
  {
    hide GoesBy, IsSeparator, AllDistinct, BodyFits;
    RowsFit(lines, p + 2, table.rows, |table.columns|);
  }

  /**
   * A table is returned for an identity exactly when it was introduced once, where it is rendered and by
   * a name that fits, and a sound table stands where one was taken for it; and then it is that table.
   */
  lemma ReturnedExactly(v: Vocabulary, lines: seq<Line>, id: string)
    ensures var r, l := Read(v, lines), Entries(v, lines, START, EMPTY);
            && (id in r.tables <==>
                  && id in l.times && l.times[id] == 1 && id !in l.hidden && id !in l.long
                  && id in l.places && exists table :: Sound(v, lines, id, l.places[id], table))
            && (id in r.tables ==> Sound(v, lines, id, l.places[id], r.tables[id]))
  {
    hide Sound, Read, Entries, FitsAt;
    var r, l := Read(v, lines), Entries(v, lines, START, EMPTY);
    EveryIdentityAccountedFor(v, lines);
    if id in r.tables {
      ReturnedTablesSound(v, lines, id);
    } else if id in l.places {
      forall table | Sound(v, lines, id, l.places[id], table) ensures FitsAt(lines, l.places[id]) {
        SoundFits(v, lines, id, l.places[id], table);
      }
    }
  }
}
