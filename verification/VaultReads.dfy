/**
 * Reading hash-addressed files back: the keys that publication returns, and the verified read under a key.
 */
module VaultReads {
  import opened Common
  import opened VaultFiles

  // ----- Keys -----

  /** The pieces of a text between its slashes. */
  function Segments(s: string): (r: seq<string>)
    ensures r != []
  {
    if s == "" then [""]
    else
      var rest := Segments(s[1..]);
      if s[0] == '/' then [""] + rest else [[s[0]] + rest[0]] + rest[1..]
  }

  function NamesIn(segments: seq<string>): seq<string> {
    if segments == [] then []
    else (if segments[0] == "" || segments[0] == "." then [] else [segments[0]]) + NamesIn(segments[1..])
  }

  /** How a pure path reads a key: empty and dot segments are dropped. */
  function PathParts(key: string): seq<string> {
    NamesIn(Segments(key))
  }

  predicate IsAbsolute(key: string) {
    "/" <= key
  }

  function JoinPath(parts: seq<string>): string
    requires parts != []
  {
    if |parts| == 1 then parts[0] else parts[0] + "/" + JoinPath(parts[1..])
  }

  function FileName(j: Job): string {
    j.digest + "." + j.suffix
  }

  /** The key that publication returns: the target's path below the storage root. */
  function KeyOf(j: Job): string {
    JoinPath(j.path + [FileName(j)])
  }

  predicate NoSlash(s: string) {
    forall i :: 0 <= i < |s| ==> s[i] != '/'
  }

  lemma {:induction false} SegmentsAfter(part: string, rest: string)
    requires NoSlash(part)
    ensures Segments(part + "/" + rest) == [part] + Segments(rest)
  {
    var s := part + "/" + rest;
    if part == "" {
      assert s[0] == '/' && s[1..] == rest;
    } else {
      SegmentsAfter(part[1..], rest);
      assert s[0] == part[0] && s[1..] == part[1..] + "/" + rest;
      assert [part[0]] + part[1..] == part;
    }
  }

  lemma {:induction false} OneSegment(part: string)
    requires NoSlash(part)
    ensures Segments(part) == [part]
  {
    if part != "" {
      OneSegment(part[1..]);
      assert [part[0]] + part[1..] == part;
    }
  }

  /** A name that a path keeps: no slash in it, and neither empty nor dots only. */
  predicate IsName(s: string) {
    NoSlash(s) && s !in {"", ".", ".."}
  }

  lemma {:induction false} JoinedReadsBack(parts: seq<string>)
    requires parts != [] && forall i :: 0 <= i < |parts| ==> IsName(parts[i])
    ensures PathParts(JoinPath(parts)) == parts
    ensures parts[0] != "" && JoinPath(parts) != "" && JoinPath(parts)[0] == parts[0][0]
  {
    var first, rest := parts[0], parts[1..];
    assert IsName(first);
    if rest == [] {
      OneSegment(first);
      assert [first][1..] == [] && parts == [first];
      assert NamesIn([first]) == [first] + NamesIn([]) == [first];
    } else {
      JoinedReadsBack(rest);
      SegmentsAfter(first, JoinPath(rest));
      assert ([first] + Segments(JoinPath(rest)))[1..] == Segments(JoinPath(rest));
      assert parts == [first] + rest;
    }
  }

  lemma SafeIsName(s: string)
    requires IsSafe(s)
    ensures IsName(s)
  {
    assert IsSafeCharacter(s[0]);
  }

  lemma FileNameIsName(j: Job)
    requires IsSafe(j.suffix) && '/' !in j.digest
    ensures IsName(FileName(j))
  {
    var n, s := |j.digest|, FileName(j);
    SafeIsName(j.suffix);
    assert s[n] == '.' && IsSafeCharacter(j.suffix[0]) && s[n + 1] == j.suffix[0];
  }

  /** The key reads back as the path and the file's name, which makes it safe. */
  lemma KeyReadsBack(j: Job)
    requires SafeIdentity(j) && '/' !in j.digest
    ensures PathParts(KeyOf(j)) == j.path + [FileName(j)] && SafeKey(KeyOf(j))
  {
    hide IsName, PathParts, JoinPath, FileName;
    var parts := j.path + [FileName(j)];
    FileNameIsName(j);
    forall i | 0 <= i < |parts| ensures IsName(parts[i]) {
      if i < |j.path| { SafeIsName(parts[i]); }
    }
    JoinedReadsBack(parts);
    NamesSafe(KeyOf(j), parts);
  }

  lemma NamesSafe(key: string, parts: seq<string>)
    requires parts != [] && PathParts(key) == parts && key != "" && parts[0] != "" && key[0] == parts[0][0]
    requires forall i :: 0 <= i < |parts| ==> IsName(parts[i])
    ensures SafeKey(key)
  {
    hide PathParts;
    assert IsName(parts[0]);
  }

  /** Two publishers get one key exactly when they publish under one name. */
  lemma KeysNameTargets(x: Job, y: Job)
    requires SafeIdentity(x) && SafeIdentity(y) && '/' !in x.digest && '/' !in y.digest
    requires |x.digest| == |y.digest|
    ensures KeyOf(x) == KeyOf(y) <==> TargetOf(x) == TargetOf(y)
  {
    if KeyOf(x) == KeyOf(y) {
      KeyReadsBack(x);
      KeyReadsBack(y);
      var n := |x.path|;
      assert (x.path + [FileName(x)])[..n] == x.path && (y.path + [FileName(y)])[..|y.path|] == y.path;
      assert FileName(x)[..|x.digest|] == x.digest && FileName(y)[..|y.digest|] == y.digest;
      assert FileName(x)[|x.digest| + 1..] == x.suffix && FileName(y)[|y.digest| + 1..] == y.suffix;
    }
  }

  // ----- The verified read -----

  datatype ReadResult = Bytes(content: seq<Byte>) | Unavailable | IntegrityError

  const READ_UNIT := 1048576

  /** What the verified read asks of a key: a relative path that climbs nowhere. */
  predicate SafeKey(key: string) {
    var parts := PathParts(key);
    parts != [] && !IsAbsolute(key) && forall i :: 0 <= i < |parts| ==> parts[i] !in {"", ".", ".."}
  }

  // ----- Which keys are safe -----

  ghost predicate AreSegments(segments: seq<string>) {
    segments != [] && forall i :: 0 <= i < |segments| ==> '/' !in segments[i]
  }

  lemma {:induction false} SegmentsOfJoined(segments: seq<string>)
    requires AreSegments(segments)
    ensures Segments(JoinPath(segments)) == segments
    ensures "/" <= JoinPath(segments) <==> segments[0] == "" && |segments| > 1
  {
    hide Segments;
    assert segments[0] != "" ==> segments[0][0] in segments[0];
    if |segments| == 1 {
      OneSegment(segments[0]);
      assert segments == [segments[0]];
    } else {
      SegmentsOfJoined(segments[1..]);
      SegmentsAfter(segments[0], JoinPath(segments[1..]));
      assert segments == [segments[0]] + segments[1..];
      var key := JoinPath(segments);
      assert key[0] == (if segments[0] == "" then '/' else segments[0][0]);
    }
  }

  /** Every key is its segments joined, so that what holds of joined segments holds of every key. */
  lemma {:induction false} KeyOfSegments(key: string)
    ensures AreSegments(Segments(key)) && JoinPath(Segments(key)) == key
  {
    if key != "" {
      KeyOfSegments(key[1..]);
      assert key == [key[0]] + key[1..];
    }
  }

  lemma {:induction false} NamesExactly(segments: seq<string>, name: string)
    ensures name in NamesIn(segments) <==> name in segments && name != "" && name != "."
  {
    if segments != [] {
      NamesExactly(segments[1..], name);
      assert segments == [segments[0]] + segments[1..];
    }
  }

  /** A key is safe when it is relative, names something, and climbs by ".." nowhere between its slashes. */
  lemma SafeKeyExactly(segments: seq<string>)
    requires AreSegments(segments)
    ensures SafeKey(JoinPath(segments)) <==>
      segments[0] != "" && ".." !in segments && exists name :: name in segments && name != "" && name != "."
  {
    hide Segments, NamesIn, JoinPath;
    var key := JoinPath(segments);
    SegmentsOfJoined(segments);
    forall name ensures name in PathParts(key) <==> name in segments && name != "" && name != "." {
      NamesExactly(segments, name);
    }
    var parts := PathParts(key);
    assert parts != [] ==> parts[0] in parts;
    assert forall i :: 0 <= i < |parts| ==> parts[i] in parts;
  }

  function Clamp(n: nat, hi: nat): (r: nat)
    requires hi > 0
    ensures 1 <= r <= hi
  {
    if n < 1 then 1 else if n > hi then hi else n
  }

  /** What the verified read asks of a key and of the file under it. */
  predicate Readable(H: Hash, key: string, file: Option<seq<Byte>>, digest: string, size: int, maxBytes: int) {
    && SafeKey(key) && 0 < size <= maxBytes && |digest| == 64
    && file.Some? && |file.value| == size && H(file.value) == digest
  }

  /**
   * Read one regular file of expected size and digest. A read may return fewer bytes than asked:
   * `grant` says how many each one returns, and any pattern is allowed. `file` is None when the
   * key names no regular file.
   */
  method ReadVerified(H: Hash, key: string, file: Option<seq<Byte>>, digest: string, size: int, maxBytes: int,
                      grant: nat -> nat)
    returns (r: ReadResult)
    ensures r.Bytes? <==> Readable(H, key, file, digest, size, maxBytes)
    ensures r.Bytes? ==> file == Some(r.content)
    ensures r.Unavailable? <==>
      !SafeKey(key) || (0 < size <= maxBytes && |digest| == 64 && file.None?)
  {
    if !SafeKey(key) {
      return Unavailable;
    }
    if size <= 0 || size > maxBytes || |digest| != 64 {
      return IntegrityError;
    }
    if file.None? {
      return Unavailable;
    }
    var bytes := file.value;
    if |bytes| != size {
      return IntegrityError;
    }
    var content, remaining, round := [], size + 1, 0;
    while remaining > 0
      invariant 0 <= remaining == size + 1 - |content|
      invariant content <= bytes
      decreases remaining
    {
      var left := |bytes| - |content|;
      if left == 0 {
        break;
      }
      var n := Clamp(grant(round), Min(Min(READ_UNIT, remaining), left));
      content := content + bytes[|content|..|content| + n];
      remaining := remaining - n;
      round := round + 1;
    }
    assert |content| == |bytes|;
    assert content == bytes;
    if |content| != size || H(content) != digest {
      return IntegrityError;
    }
    return Bytes(content);
  }

  /**
   * A later read returns what was published. The file at the name of a finished publisher, for as long as
   * it stays open, can be read under a safe key, such as the one that publication returned, with the
   * published digest and size, given a reader's limit that admits the size and a digest of a digest's
   * length; and nothing else can.
   */
  lemma PublishedReadsBack(H: Hash, states: seq<State>, i: nat, j: nat, k: nat, maxBytes: int)
    requires CollisionFree(H) && Run(H, states) && Roomy(H, states[0]) && i <= j < |states| && k < |states[0].jobs|
    requires |states[i].phases| == |states[0].jobs| && states[i].phases[k] == Done(Published)
    ensures var job, target := states[0].jobs[k], TargetOf(states[0].jobs[k]);
            && target in states[i].names && states[i].names[target] in states[j].inodes
            && states[j].inodes[states[i].names[target]] == job.content
            && ('/' !in job.digest ==> SafeKey(KeyOf(job)))
            && (forall key :: Readable(H, key, Some(job.content), job.digest, |job.content|, maxBytes)
                              <==> SafeKey(key) && |job.content| <= maxBytes && |job.digest| == 64)
            && forall key, file: seq<Byte> ::
                 Readable(H, key, Some(file), job.digest, |job.content|, maxBytes) ==> file == job.content
  {
    hide SafeKey, PathParts, IsAbsolute, KeyOf, SafeIdentity;
    PublishedIsThere(H, states, i, k);
    RunDelivered(H, states, i, k);
    OpenFileKeepsBytes(H, states, i, j, TargetOf(states[0].jobs[k]));
    if '/' !in states[0].jobs[k].digest { KeyReadsBack(states[0].jobs[k]); }
  }
}
