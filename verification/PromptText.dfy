/** The build id inside a prompt file: every `INDEX_BUILD_ID:` followed by 64 hexadecimal digits. */
module PromptText {
  const LABEL := "INDEX_BUILD_ID:"
  const ID_LENGTH := 64

  predicate IsHex(c: char) {
    '0' <= c <= '9' || 'a' <= c <= 'f'
  }

  predicate IsBuildId(s: string) {
    |s| == ID_LENGTH && forall k :: 0 <= k < |s| ==> IsHex(s[k])
  }

  /** White space to a regular expression over text. */
  predicate IsWhite(c: char) {
    || '\t' <= c <= '\r' || '\U{1C}' <= c <= ' ' || c == '\U{85}' || c == '\U{A0}' || c == '\U{1680}'
    || '\U{2000}' <= c <= '\U{200A}' || c == '\U{2028}' || c == '\U{2029}' || c == '\U{202F}' || c == '\U{205F}'
    || c == '\U{3000}'
  }

  function WhiteLength(s: string): (n: nat)
    ensures n <= |s|
  {
    if s != "" && IsWhite(s[0]) then 1 + WhiteLength(s[1..]) else 0
  }

  /** The label and the white space after it, when the text starts with the label. */
  function HeaderLength(s: string): (n: nat)
    requires LABEL <= s
    ensures |LABEL| <= n <= |s|
  {
    |LABEL| + WhiteLength(s[|LABEL|..])
  }

  predicate Matches(s: string) {
    LABEL <= s && |s| - HeaderLength(s) >= ID_LENGTH
    && IsBuildId(s[HeaderLength(s)..HeaderLength(s) + ID_LENGTH])
  }

  function Labelled(white: string, id: string, rest: string): string {
    "INDEX_BUILD_ID:" + white + id + rest
  }

  lemma MatchParts(s: string) returns (white: string, id: string, rest: string)
    requires Matches(s)
    ensures (forall c :: c in white ==> IsWhite(c)) && IsBuildId(id) && s == Labelled(white, id, rest)
  {
    var n := HeaderLength(s);
    white, id, rest := s[|LABEL|..n], s[n..n + ID_LENGTH], s[n + ID_LENGTH..];
    WhiteTaken(s[|LABEL|..]);
    assert white == s[|LABEL|..][..WhiteLength(s[|LABEL|..])];
  }

  lemma PartsMatch(white: string, id: string, rest: string)
    requires (forall c :: c in white ==> IsWhite(c)) && IsBuildId(id)
    ensures Matches(Labelled(white, id, rest))
  {
    var s, n := Labelled(white, id, rest), |LABEL| + |white|;
    assert s[|LABEL|..] == white + (id + rest);
    assert id[0] == (id + rest)[0] && IsHex(id[0]);
    WhiteBefore(white, id + rest);
    assert s[..|LABEL|] == LABEL && s[n..n + ID_LENGTH] == id;
  }

  /** A match: the label, white space if any, and sixty-four hexadecimal digits, whatever follows. */
  lemma MatchesExactly(s: string)
    ensures Matches(s) <==> exists white: string, id: string, rest: string {:trigger Labelled(white, id, rest)} ::
      && (forall c :: c in white ==> IsWhite(c))
      && |id| == 64 && (forall c :: c in id ==> '0' <= c <= '9' || 'a' <= c <= 'f')
      && s == Labelled(white, id, rest)
  {
    hide Matches, IsWhite, Labelled;
    if Matches(s) {
      var white, id, rest := MatchParts(s);
    }
    if white: string, id: string, rest: string {:trigger Labelled(white, id, rest)} :|
      (forall c :: c in white ==> IsWhite(c))
      && |id| == 64 && (forall c :: c in id ==> '0' <= c <= '9' || 'a' <= c <= 'f')
      && s == Labelled(white, id, rest)
    {
      assert forall k :: 0 <= k < |id| ==> id[k] in id;
      PartsMatch(white, id, rest);
    }
  }

  lemma {:induction false} WhiteTaken(s: string)
    ensures forall c :: c in s[..WhiteLength(s)] ==> IsWhite(c)
  {
    if s != "" && IsWhite(s[0]) {
      WhiteTaken(s[1..]);
      assert s[..WhiteLength(s)] == [s[0]] + s[1..][..WhiteLength(s[1..])];
    }
  }

  lemma {:induction false} WhiteBefore(white: string, rest: string)
    requires (forall c :: c in white ==> IsWhite(c)) && (rest == "" || !IsWhite(rest[0]))
    ensures WhiteLength(white + rest) == |white|
  {
    if white == "" {
      assert white + rest == rest;
    } else {
      assert white[0] in white && (white + rest)[1..] == white[1..] + rest;
      WhiteBefore(white[1..], rest);
    }
  }

  /** The text with every match's digits replaced, scanning from the left past each match. */
  function Substituted(s: string, id: string): string
    decreases |s|
  {
    if s == "" then ""
    else if Matches(s) then
      var n := HeaderLength(s);
      s[..n] + id + Substituted(s[n + ID_LENGTH..], id)
    else [s[0]] + Substituted(s[1..], id)
  }

  function MatchCount(s: string): nat
    decreases |s|
  {
    if s == "" then 0
    else if Matches(s) then 1 + MatchCount(s[HeaderLength(s) + ID_LENGTH..])
    else MatchCount(s[1..])
  }

  // ----- Replacing digits by digits moves no match -----

  /** Same length, and the same characters but for hexadecimal digits. */
  predicate Alike(s: string, t: string) {
    |s| == |t| && forall k :: 0 <= k < |s| ==> s[k] == t[k] || (IsHex(s[k]) && IsHex(t[k]))
  }

  lemma AlikeConcat(a: string, b: string, c: string, d: string)
    requires Alike(a, b) && Alike(c, d)
    ensures Alike(a + c, b + d)
  {
  }

  lemma {:induction false} AlikeWhite(s: string, t: string)
    requires Alike(s, t)
    ensures WhiteLength(s) == WhiteLength(t)
  {
    if s != "" && IsWhite(s[0]) { AlikeWhite(s[1..], t[1..]); }
  }

  lemma LabelNotHex(k: nat)
    requires k < |LABEL|
    ensures !IsHex(LABEL[k])
  {
  }

  lemma AlikeLabel(s: string, t: string)
    requires Alike(s, t) && LABEL <= s
    ensures LABEL <= t
  {
    forall k: nat | k < |LABEL| ensures t[k] == LABEL[k] {
      LabelNotHex(k);
      assert s[k] == LABEL[k];
    }
  }

  lemma AlikeBack(s: string, t: string)
    requires Alike(s, t)
    ensures Alike(t, s)
  {
  }

  lemma AlikeId(s: string, t: string, n: nat)
    requires Alike(s, t) && n + ID_LENGTH <= |s| && IsBuildId(s[n..n + ID_LENGTH])
    ensures IsBuildId(t[n..n + ID_LENGTH])
  {
    var digits, others := s[n..n + ID_LENGTH], t[n..n + ID_LENGTH];
    forall k | 0 <= k < |others| ensures IsHex(others[k]) {
      assert IsHex(digits[k]) && s[n + k] == digits[k] && t[n + k] == others[k];
    }
  }

  lemma AlikeMatches(s: string, t: string)
    requires Alike(s, t)
    ensures Matches(s) <==> Matches(t)
    ensures Matches(s) ==> HeaderLength(s) == HeaderLength(t)
  {
    AlikeBack(s, t);
    if LABEL <= s {
      AlikeLabel(s, t);
      AlikeWhite(s[|LABEL|..], t[|LABEL|..]);
      var n := HeaderLength(s);
      if Matches(s) { AlikeId(s, t, n); }
      if Matches(t) { AlikeId(t, s, n); }
    } else if LABEL <= t {
      AlikeLabel(t, s);
    }
  }

  lemma AlikeSelf(s: string)
    ensures Alike(s, s)
  {
  }

  lemma MatchAlike(s: string, id: string, rest: string)
    requires IsBuildId(id) && Matches(s) && Alike(s[HeaderLength(s) + ID_LENGTH..], rest)
    ensures Alike(s, s[..HeaderLength(s)] + id + rest)
  {
    var n := HeaderLength(s);
    var digits, tail := s[n..n + ID_LENGTH], s[n + ID_LENGTH..];
    assert Alike(digits, id);
    AlikeConcat(s[..n], s[..n], digits, id);
    AlikeConcat(s[..n] + digits, s[..n] + id, tail, rest);
    assert s == s[..n] + digits + tail;
  }

  lemma {:induction false} SubstitutedAlike(s: string, id: string)
    requires IsBuildId(id)
    ensures Alike(s, Substituted(s, id))
    decreases |s|
  {
    hide Alike;
    if s == "" {
      AlikeSelf(s);
    } else if Matches(s) {
      var n := HeaderLength(s);
      SubstitutedAlike(s[n + ID_LENGTH..], id);
      MatchAlike(s, id, Substituted(s[n + ID_LENGTH..], id));
    } else {
      SubstitutedAlike(s[1..], id);
      AlikeSelf([s[0]]);
      AlikeConcat([s[0]], [s[0]], s[1..], Substituted(s[1..], id));
      assert s == [s[0]] + s[1..];
    }
  }

  /** Substituting again changes nothing, and finds as many matches. */
  lemma {:induction false} SubstitutedFixed(s: string, id: string)
    requires IsBuildId(id)
    ensures Substituted(Substituted(s, id), id) == Substituted(s, id)
    ensures MatchCount(Substituted(s, id)) == MatchCount(s)
    decreases |s|
  {
    var t := Substituted(s, id);
    SubstitutedAlike(s, id);
    AlikeMatches(s, t);
    if s == "" {
    } else if Matches(s) {
      var n := HeaderLength(s);
      var rest := s[n + ID_LENGTH..];
      SubstitutedFixed(rest, id);
      assert t == s[..n] + id + Substituted(rest, id);
      assert t[..n] == s[..n] && t[n + ID_LENGTH..] == Substituted(rest, id);
    } else {
      SubstitutedFixed(s[1..], id);
      assert t[0] == s[0] && t[1..] == Substituted(s[1..], id);
    }
  }

  /** No character but a digit is brought in. */
  lemma {:induction false} SubstitutedFree(s: string, id: string, c: char)
    requires IsBuildId(id) && c !in s && !IsHex(c)
    ensures c !in Substituted(s, id)
  {
    SubstitutedAlike(s, id);
  }

  /** Every match carries the id afterwards. */
  ghost predicate AllCarry(s: string, id: string)
    decreases |s|
  {
    if s == "" then true
    else if Matches(s) then
      var n := HeaderLength(s);
      s[n..n + ID_LENGTH] == id && AllCarry(s[n + ID_LENGTH..], id)
    else AllCarry(s[1..], id)
  }

  lemma {:induction false} SubstitutedCarries(s: string, id: string)
    requires IsBuildId(id)
    ensures AllCarry(Substituted(s, id), id)
    decreases |s|
  {
    var t := Substituted(s, id);
    SubstitutedAlike(s, id);
    AlikeMatches(s, t);
    if s == "" {
    } else if Matches(s) {
      var n := HeaderLength(s);
      var rest := s[n + ID_LENGTH..];
      SubstitutedCarries(rest, id);
      assert t == s[..n] + id + Substituted(rest, id);
      assert t[n..n + ID_LENGTH] == id && t[n + ID_LENGTH..] == Substituted(rest, id);
    } else {
      SubstitutedCarries(s[1..], id);
      assert t[1..] == Substituted(s[1..], id);
    }
  }
}
