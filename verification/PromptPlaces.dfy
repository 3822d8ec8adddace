/** Where a text carries build ids, and what replacing the only one of them leaves. */
module PromptPlaces {
  import opened PromptText

  /** A build id stands behind its label at this place. */
  ghost predicate PlaceAt(s: string, k: nat) {
    k <= |s| && Matches(s[k..])
  }

  /** The label reads nowhere within a label, white space or digits. */
  lemma NoMatchInside(s: string, j: nat)
    requires Matches(s) && 0 < j < HeaderLength(s) + ID_LENGTH
    ensures !PlaceAt(s, j)
  {
    hide IsBuildId;
    if j < |LABEL| { LabelInsideNot(s, j); } else { NotWhiteNorHex(s, j); }
    assert s[j..][0] == s[j];
  }

  lemma LabelInsideNot(s: string, j: nat)
    requires LABEL <= s && 0 < j < |LABEL|
    ensures !(LABEL <= s[j..])
  {
    LabelOnce(j);
    assert s[j] == LABEL[j] && (j + 1 < |LABEL| ==> s[j + 1] == LABEL[j + 1]);
    assert s[j..][0] == s[j] && (|s[j..]| > 1 ==> s[j..][1] == s[j + 1]);
  }

  lemma LabelOnce(j: nat)
    requires 0 < j < |LABEL|
    ensures LABEL[j] != 'I' || (j + 1 < |LABEL| && LABEL[j + 1] != 'N')
  {
  }

  lemma NotWhiteNorHex(s: string, j: nat)
    requires Matches(s) && |LABEL| <= j < HeaderLength(s) + ID_LENGTH
    ensures s[j] != 'I'
  {
    var n := HeaderLength(s);
    if j < n {
      WhiteTaken(s[|LABEL|..]);
      var white := s[|LABEL|..][..WhiteLength(s[|LABEL|..])];
      assert white[j - |LABEL|] == s[j] && white[j - |LABEL|] in white;
    } else {
      assert s[n..n + ID_LENGTH][j - n] == s[j];
    }
  }

  lemma PlaceLater(s: string, n: nat, j: nat)
    requires n <= j && n <= |s|
    ensures PlaceAt(s, j) <==> PlaceAt(s[n..], j - n)
  {
    if j <= |s| { assert s[n..][j - n..] == s[j..]; }
  }

  /** Nothing is counted exactly when no place carries an id. */
  lemma {:induction false} NoneCounted(s: string)
    ensures MatchCount(s) == 0 <==> forall k: nat :: !PlaceAt(s, k)
    decreases |s|
  {
    hide Matches;
    assert s[0..] == s;
    if s == "" {
      EmptyMatchesNot();
    } else if Matches(s) {
      assert PlaceAt(s, 0);
    } else {
      NoneCounted(s[1..]);
      forall k: nat | k > 0 ensures PlaceAt(s, k) <==> PlaceAt(s[1..], k - 1) { PlaceLater(s, 1, k); }
      forall k: nat | PlaceAt(s[1..], k) ensures PlaceAt(s, k + 1) { PlaceLater(s, 1, k + 1); }
    }
  }

  lemma EmptyMatchesNot()
    ensures !Matches("")
  {
  }

  /** The text with the digits at this place replaced, and nothing else. */
  function ReplacedAt(s: string, k: nat, id: string): string
    requires k <= |s| && Matches(s[k..])
  {
    var n := k + HeaderLength(s[k..]);
    s[..n] + id + s[n + ID_LENGTH..]
  }

  /** Where one id is counted, its place is the only one, and the substitution replaces its digits alone. */
  lemma {:induction false} OnlyOneReplaced(s: string, id: string, k: nat)
    requires MatchCount(s) == 1 && PlaceAt(s, k)
    ensures forall j: nat :: PlaceAt(s, j) ==> j == k
    ensures Substituted(s, id) == ReplacedAt(s, k, id)
    decreases |s|
  {
    hide Matches, HeaderLength;
    if s == "" {
      assert false;
    } else if Matches(s) {
      FirstIsOnly(s, id);
    } else {
      assert s[0..] == s;
      PlaceLater(s, 1, k);
      OnlyOneReplaced(s[1..], id, k - 1);
      forall j: nat | PlaceAt(s, j) ensures j == k { PlaceLater(s, 1, j); }
      assert s[1..][k - 1..] == s[k..];
      ShiftedReplaced(s, id, k);
    }
  }

  lemma ShiftedReplaced(s: string, id: string, k: nat)
    requires 0 < k <= |s| && Matches(s[k..]) && s[1..][k - 1..] == s[k..]
    ensures [s[0]] + ReplacedAt(s[1..], k - 1, id) == ReplacedAt(s, k, id)
  {
    var n := k + HeaderLength(s[k..]);
    assert s[1..][n - 1 + ID_LENGTH..] == s[n + ID_LENGTH..];
    assert [s[0]] + s[1..][..n - 1] == s[..n];
  }

  lemma NoneBehind(s: string, n: nat)
    requires 0 < n <= |s| && MatchCount(s[n..]) == 0 && forall j: nat :: 0 < j < n ==> !PlaceAt(s, j)
    ensures forall j: nat :: PlaceAt(s, j) ==> j == 0
  {
    hide PlaceAt, MatchCount;
    NoneCounted(s[n..]);
    forall j: nat | PlaceAt(s, j) ensures j == 0 {
      if n <= j { PlaceLater(s, n, j); }
    }
  }

  lemma NoneAfterFirst(s: string)
    requires Matches(s) && MatchCount(s) == 1
    ensures forall j: nat :: PlaceAt(s, j) ==> j == 0
  {
    hide IsBuildId, PlaceAt;
    var n := HeaderLength(s) + ID_LENGTH;
    forall j: nat | 0 < j < n ensures !PlaceAt(s, j) { NoMatchInside(s, j); }
    NoneBehind(s, n);
  }

  lemma FirstIsOnly(s: string, id: string)
    requires Matches(s) && MatchCount(s) == 1
    ensures forall j: nat :: PlaceAt(s, j) ==> j == 0
    ensures s[0..] == s && Substituted(s, id) == ReplacedAt(s, 0, id)
  {
    hide IsBuildId, PlaceAt;
    NoneAfterFirst(s);
    NothingReplaced(s[HeaderLength(s) + ID_LENGTH..], id);
    assert s[0..] == s;
  }

  lemma {:induction false} NothingReplaced(s: string, id: string)
    requires MatchCount(s) == 0
    ensures Substituted(s, id) == s
    decreases |s|
  {
    hide Matches;
    if s != "" {
      NothingReplaced(s[1..], id);
      assert [s[0]] + s[1..] == s;
    }
  }

  /** One place, and no other, carries a build id. */
  ghost predicate OnePlace(s: string) {
    exists k: nat :: PlaceAt(s, k) && forall j: nat :: PlaceAt(s, j) ==> j == k
  }

  /** One id is counted exactly when one place carries one. */
  lemma OneCounted(s: string)
    ensures MatchCount(s) == 1 <==> OnePlace(s)
  {
    hide Matches, HeaderLength;
    NoneCounted(s);
    if MatchCount(s) == 1 {
      var k: nat :| PlaceAt(s, k);
      OnlyOneReplaced(s, "", k);
    }
    if k: nat :| PlaceAt(s, k) && forall j: nat :: PlaceAt(s, j) ==> j == k {
      SinglePlaceCounted(s, k);
    }
  }

  lemma {:induction false} SinglePlaceCounted(s: string, k: nat)
    requires PlaceAt(s, k) && forall j: nat :: PlaceAt(s, j) ==> j == k
    ensures MatchCount(s) == 1
    decreases |s|
  {
    hide IsBuildId;
    assert s[0..] == s;
    if s == "" {
      EmptyMatchesNot();
      assert false;
    } else if Matches(s) {
      assert PlaceAt(s, 0);
      var n := HeaderLength(s) + ID_LENGTH;
      forall j: nat ensures !PlaceAt(s[n..], j) { PlaceLater(s, n, j + n); }
      NoneCounted(s[n..]);
    } else {
      PlaceLater(s, 1, k);
      forall j: nat | PlaceAt(s[1..], j) ensures j == k - 1 { PlaceLater(s, 1, j + 1); }
      SinglePlaceCounted(s[1..], k - 1);
    }
  }
}
