/** The cells that rule off a table's header: dashes, with a colon at either end or none. */
module TableRules {

  function Dashes(n: nat): string {
    if n == 0 then "" else "-" + Dashes(n - 1)
  }

  function Ruled(left: bool, n: nat, right: bool): string {
    (if left then ":" else "") + Dashes(n) + (if right then ":" else "")
  }

  /** A cell with a colon taken off each end that has one. */
  function Unruled(cell: string): string {
    WithoutRight(if cell != "" && cell[0] == ':' then cell[1..] else cell)
  }

  function WithoutRight(s: string): string {
    if s != "" && s[|s| - 1] == ':' then s[..|s| - 1] else s
  }

  predicate OnlyDashes(s: string) {
    forall i :: 0 <= i < |s| ==> s[i] == '-'
  }

  lemma {:induction false} DashesOnly(s: string)
    requires OnlyDashes(s)
    ensures s == Dashes(|s|)
  {
    if s != "" {
      DashesOnly(s[1..]);
      assert s == [s[0]] + s[1..];
    }
  }

  lemma {:induction false} DashesLength(n: nat)
    ensures |Dashes(n)| == n && OnlyDashes(Dashes(n))
  {
    if n > 0 { DashesLength(n - 1); }
  }

  lemma RuledForm(cell: string) returns (left: bool, right: bool)
    requires Unruled(cell) != "" && OnlyDashes(Unruled(cell))
    ensures cell == Ruled(left, |Unruled(cell)|, right)
  {
    left := cell[0] == ':';
    var head := if left then cell[1..] else cell;
    right := head[|head| - 1] == ':';
    DashesOnly(Unruled(cell));
    assert head == Unruled(cell) + (if right then ":" else "");
    assert cell == (if left then ":" else "") + Unruled(cell) + (if right then ":" else "");
  }

  lemma RightOff(dashes: string, right: bool)
    requires dashes != "" && OnlyDashes(dashes)
    ensures WithoutRight(dashes + (if right then ":" else "")) == dashes
  {
    var s := dashes + (if right then ":" else "");
    assert s[|s| - 1] == (if right then ':' else dashes[|dashes| - 1]);
    assert right ==> s[..|s| - 1] == dashes;
    assert !right ==> s == dashes;
  }

  lemma LeftOff(left: bool, s: string)
    requires s != "" && s[0] != ':'
    ensures Unruled((if left then ":" else "") + s) == WithoutRight(s)
  {
    var cell := (if left then ":" else "") + s;
    assert left ==> cell[0] == ':' && cell[1..] == s;
    assert !left ==> cell == s;
  }

  lemma UnruledBack(left: bool, n: nat, right: bool)
    requires n > 0
    ensures Unruled(Ruled(left, n, right)) == Dashes(n)
  {
    hide Unruled, WithoutRight, Dashes;
    DashesLength(n);
    var s := Dashes(n) + (if right then ":" else "");
    assert Ruled(left, n, right) == (if left then ":" else "") + s;
    assert s[0] == Dashes(n)[0] == '-';
    LeftOff(left, s);
    RightOff(Dashes(n), right);
  }

  /** A cell is left with some n dashes, n at least `least`, exactly when it is such dashes with or without colons. */
  lemma RuledExactly(cell: string, least: nat)
    requires least > 0
    ensures |Unruled(cell)| >= least && OnlyDashes(Unruled(cell)) <==>
      exists left: bool, n: nat, right: bool :: n >= least && cell == Ruled(left, n, right)
  {
    if |Unruled(cell)| >= least && OnlyDashes(Unruled(cell)) {
      var left, right := RuledForm(cell);
    }
    if left: bool, n: nat, right: bool :| n >= least && cell == Ruled(left, n, right) {
      UnruledBack(left, n, right);
      DashesLength(n);
    }
  }
}
