/**
 * Hash-addressed files: publication by any number of interleaved writers that may crash at
 * any step. Names refer to inodes; a writer holds an inode, not a name.
 */
module VaultFiles {
  import opened Common

  type Hash = seq<Byte> -> string

  ghost predicate CollisionFree(H: Hash) {
    forall x, y :: H(x) == H(y) ==> x == y
  }

  /** A published file is named by its digest; a temporary one also by a random token. */
  datatype Name =
    | Target(path: seq<string>, digest: string, suffix: string)
    | Temporary(path: seq<string>, digest: string, token: nat)

  datatype Job = Job(path: seq<string>, suffix: string, content: seq<Byte>, digest: string, token: nat, maxBytes: int)

  function TargetOf(j: Job): Name {
    Target(j.path, j.digest, j.suffix)
  }

  function TemporaryOf(j: Job): Name {
    Temporary(j.path, j.digest, j.token)
  }

  predicate IsSafeCharacter(c: char) {
    'a' <= c <= 'z' || 'A' <= c <= 'Z' || '0' <= c <= '9' || c == '_' || c == '-'
  }

  predicate IsSafe(part: string) {
    part != "" && forall i :: 0 <= i < |part| ==> IsSafeCharacter(part[i])
  }

  predicate SafeIdentity(j: Job) {
    j.path != [] && (forall i :: 0 <= i < |j.path| ==> IsSafe(j.path[i])) && IsSafe(j.suffix)
  }

  /** The checks made before anything is written. */
  predicate Admissible(H: Hash, j: Job) {
    SafeIdentity(j) && 0 < |j.content| <= j.maxBytes && H(j.content) == j.digest
  }

  datatype Outcome =
    | Published
    | Refused
    | IdentityMismatch
    | ContentMismatch
    | TemporaryTaken
    | TemporaryGone
    | Failed
    | Crashed

  /** Where a publisher stands. Writing and Closed hold the inode its descriptor was opened on. */
  datatype Phase =
    | Fresh
    | SawTarget
    | SawSize
    | SawNothing
    | Writing(inode: nat, written: nat)
    | Closed(inode: nat)
    | Leaving(outcome: Outcome)
    | Done(outcome: Outcome)

  datatype State = State(names: map<Name, nat>, inodes: map<nat, seq<Byte>>, jobs: seq<Job>, phases: seq<Phase>)

  function Unlinked(names: map<Name, nat>, n: Name): map<Name, nat> {
    map k | k in names && k != n :: names[k]
  }

  // ----- One step of one publisher -----

  ghost predicate Moves(s: State, t: State, i: nat, phase: Phase)
    requires i < |s.phases|
  {
    t == s.(names := t.names, inodes := t.inodes, phases := s.phases[i := phase])
  }

  ghost predicate Checks(H: Hash, s: State, t: State, i: nat)
    requires i < |s.phases| == |s.jobs|
  {
    && s.phases[i].Fresh? && t.names == s.names && t.inodes == s.inodes
    && Moves(s, t, i,
         if !Admissible(H, s.jobs[i]) then Done(Refused)
         else if TargetOf(s.jobs[i]) in s.names then SawTarget
         else SawNothing)
  }

  ghost predicate ComparesSize(s: State, t: State, i: nat)
    requires i < |s.phases| == |s.jobs|
  {
    && s.phases[i].SawTarget? && t.names == s.names && t.inodes == s.inodes
    && var target := TargetOf(s.jobs[i]);
       && target in s.names && s.names[target] in s.inodes
       && Moves(s, t, i, if |s.inodes[s.names[target]]| != |s.jobs[i].content| then Done(IdentityMismatch) else SawSize)
  }

  ghost predicate ComparesDigest(H: Hash, s: State, t: State, i: nat)
    requires i < |s.phases| == |s.jobs|
  {
    && s.phases[i].SawSize? && t.names == s.names && t.inodes == s.inodes
    && var target := TargetOf(s.jobs[i]);
       && target in s.names && s.names[target] in s.inodes
       && var outcome := if H(s.inodes[s.names[target]]) != s.jobs[i].digest then ContentMismatch else Published;
          Moves(s, t, i, Done(outcome))
  }

  /** Exclusive creation: a fresh empty inode, or a failure that still unlinks the name on the way out. */
  ghost predicate Creates(s: State, t: State, i: nat)
    requires i < |s.phases| == |s.jobs|
  {
    && s.phases[i].SawNothing?
    && var temporary := TemporaryOf(s.jobs[i]);
       if temporary in s.names then
         t.names == s.names && t.inodes == s.inodes && Moves(s, t, i, Leaving(TemporaryTaken))
       else
         exists n :: && n !in s.inodes
                     && t.names == s.names[temporary := n] && t.inodes == s.inodes[n := []]
                     && Moves(s, t, i, Writing(n, 0))
  }

  /** Some more of the content reaches the file, through the descriptor. */
  ghost predicate Writes(s: State, t: State, i: nat)
    requires i < |s.phases| == |s.jobs|
  {
    && s.phases[i].Writing? && t.names == s.names
    && exists k :: && s.phases[i].written < k <= |s.jobs[i].content|
                   && t.inodes == s.inodes[s.phases[i].inode := s.jobs[i].content[..k]]
                   && Moves(s, t, i, Writing(s.phases[i].inode, k))
  }

  /** All written, flushed, synced and closed. */
  ghost predicate Closes(s: State, t: State, i: nat)
    requires i < |s.phases| == |s.jobs|
  {
    && s.phases[i].Writing? && s.phases[i].written == |s.jobs[i].content|
    && t.names == s.names && t.inodes == s.inodes && Moves(s, t, i, Closed(s.phases[i].inode))
  }

  /** The atomic rename, of whatever the temporary name then refers to. */
  ghost predicate Renames(s: State, t: State, i: nat)
    requires i < |s.phases| == |s.jobs|
  {
    && s.phases[i].Closed? && t.inodes == s.inodes
    && var temporary, target := TemporaryOf(s.jobs[i]), TargetOf(s.jobs[i]);
       if temporary !in s.names then t.names == s.names && Moves(s, t, i, Leaving(TemporaryGone))
       else
         && t.names == Unlinked(s.names, temporary)[target := s.names[temporary]]
         && Moves(s, t, i, Leaving(Published))
  }

  /** The cleanup: the temporary name is unlinked if it exists, on success and on failure. */
  ghost predicate Leaves(s: State, t: State, i: nat)
    requires i < |s.phases| == |s.jobs|
  {
    && s.phases[i].Leaving? && t.inodes == s.inodes
    && t.names == Unlinked(s.names, TemporaryOf(s.jobs[i]))
    && Moves(s, t, i, Done(s.phases[i].outcome))
  }

  /** A read, write or rename raises: once a temporary name is chosen, the cleanup still runs. */
  ghost predicate Fails(s: State, t: State, i: nat)
    requires i < |s.phases| == |s.jobs|
  {
    var p := s.phases[i];
    && t.names == s.names && t.inodes == s.inodes
    && (p.SawTarget? || p.SawSize? || p.SawNothing? || p.Writing? || p.Closed?)
    && Moves(s, t, i, if p.SawTarget? || p.SawSize? then Done(Failed) else Leaving(Failed))
  }

  ghost predicate Crashes(s: State, t: State, i: nat)
    requires i < |s.phases| == |s.jobs|
  {
    !s.phases[i].Done? && t.names == s.names && t.inodes == s.inodes && Moves(s, t, i, Done(Crashed))
  }

  ghost predicate Steps(H: Hash, s: State, t: State, i: nat)
    requires i < |s.phases| == |s.jobs|
  {
    || Checks(H, s, t, i)
    || ComparesSize(s, t, i)
    || ComparesDigest(H, s, t, i)
    || Creates(s, t, i)
    || Writes(s, t, i)
    || Closes(s, t, i)
    || Renames(s, t, i)
    || Leaves(s, t, i)
    || Fails(s, t, i)
    || Crashes(s, t, i)
  }

  ghost predicate Next(H: Hash, s: State, t: State) {
    |s.phases| == |s.jobs| && exists i: nat :: i < |s.phases| && Steps(H, s, t, i)
  }

  // ----- What every step keeps -----

  /** Every published name refers to bytes that hash to it. */
  ghost predicate Addressed(H: Hash, s: State) {
    forall n :: n in s.names ==>
      s.names[n] in s.inodes && (n.Target? ==> H(s.inodes[s.names[n]]) == n.digest)
  }

  /** Nobody has started, and what is published already tells the truth. Files of a crash may be left over. */
  ghost predicate Initial(H: Hash, s: State) {
    && |s.phases| == |s.jobs| && (forall i :: 0 <= i < |s.phases| ==> s.phases[i] == Fresh)
    && Addressed(H, s)
  }

  // ----- Who may come to a temporary name -----

  /** A publisher that will find its target absent if it looks now: only such ones use their temporary name. */
  predicate Writer(H: Hash, s: State, i: nat)
    requires i < |s.jobs|
  {
    Admissible(H, s.jobs[i]) && TargetOf(s.jobs[i]) !in s.names
  }

  function Writers(H: Hash, s: State): set<nat> {
    set i: nat | i < |s.jobs| && Writer(H, s, i)
  }

  function Sharers(H: Hash, s: State, n: Name): set<nat> {
    set i | i in Writers(H, s) && i < |s.jobs| && TemporaryOf(s.jobs[i]) == n
  }

  /**
   * At most two writers draw one temporary name, or three when a crash has left a file under it.
   * Distinct tokens, or distinct directories or digests, make the writers of each name one.
   */
  ghost predicate Roomy(H: Hash, s: State) {
    forall n :: |Sharers(H, s, n)| <= if n in s.names then 3 else 2
  }

  /** Every writer's temporary name is its own, and new. */
  ghost predicate Private(H: Hash, s: State) {
    forall n :: |Sharers(H, s, n)| <= if n in s.names then 0 else 1
  }

  /** The inode a publisher may still write to. */
  function Held(p: Phase): Option<nat> {
    match p
    case Writing(n, _) => Some(n)
    case Closed(n) => Some(n)
    case _ => None
  }

  ghost predicate IsHeld(s: State, n: nat) {
    exists k :: 0 <= k < |s.phases| && Held(s.phases[k]) == Some(n)
  }

  /** The writers of a temporary name that have not left yet. */
  function Live(s: State, writers: set<nat>, n: Name): set<nat> {
    set i | i in writers && i < |s.jobs| && i < |s.phases| && TemporaryOf(s.jobs[i]) == n && !s.phases[i].Done?
  }

  // ----- What every step keeps -----

  /** Publisher i stands where it can have come to. */
  ghost predicate StandsOk(H: Hash, s: State, writers: set<nat>, i: nat)
    requires i < |s.phases| == |s.jobs|
  {
    var j, p := s.jobs[i], s.phases[i];
    && (p.Fresh? && i !in writers ==> !Admissible(H, j) || TargetOf(j) in s.names)
    && (p.SawNothing? || p.Writing? || p.Closed? || p.Leaving? ==> i in writers)
    && (!p.Fresh? && p != Done(Refused) && p != Done(Crashed) ==> Admissible(H, j))
    && (p.SawTarget? || p.SawSize? ==> TargetOf(j) in s.names)
    && (p.Writing? ==> p.written <= |j.content| && p.inode in s.inodes && s.inodes[p.inode] == j.content[..p.written])
    && (p.Closed? ==> p.inode in s.inodes && s.inodes[p.inode] == j.content)
  }

  /** An inode that publisher i holds is its own, and named by its temporary name or by none. */
  ghost predicate HoldsOk(s: State, writers: set<nat>, i: nat)
    requires i < |s.phases| == |s.jobs|
  {
    var name, held := TemporaryOf(s.jobs[i]), Held(s.phases[i]);
    held.Some? ==>
      && (name in s.names ==> s.names[name] == held.value)
      && (name !in s.names ==> |Live(s, writers, name)| <= 1)
      && (forall n :: n in s.names && s.names[n] == held.value ==> n == name)
      && (forall k :: 0 <= k < |s.phases| && k != i ==> Held(s.phases[k]) != held)
  }

  /** Room under a temporary name: two writers, or one more while a file nobody holds stands there. */
  ghost predicate RoomAt(s: State, writers: set<nat>, n: Name) {
    |Live(s, writers, n)| <= if n in s.names && !IsHeld(s, s.names[n]) then 3 else 2
  }

  ghost predicate Inv(H: Hash, s: State, writers: set<nat>) {
    && |s.phases| == |s.jobs| && Addressed(H, s)
    && (forall i: nat :: i < |s.phases| ==> StandsOk(H, s, writers, i))
    && (forall i: nat :: i < |s.phases| ==> HoldsOk(s, writers, i))
    && (forall n :: RoomAt(s, writers, n))
  }

  /** A step is of one publisher that had not left. */
  lemma StepPhase(H: Hash, s: State, t: State, i: nat)
    requires i < |s.phases| == |s.jobs| && Steps(H, s, t, i)
    ensures t.jobs == s.jobs && |t.phases| == |s.phases| && t.phases == s.phases[i := t.phases[i]]
    ensures !s.phases[i].Done?
  {
    hide TargetOf, TemporaryOf, Unlinked, Admissible;
  }

  /** Writers do not come to life again. */
  lemma LiveShrinks(H: Hash, s: State, t: State, writers: set<nat>, i: nat, n: Name)
    requires i < |s.phases| == |s.jobs| && Steps(H, s, t, i)
    ensures t.jobs == s.jobs && |t.phases| == |s.phases| && Live(t, writers, n) <= Live(s, writers, n)
    ensures |Live(t, writers, n)| <= |Live(s, writers, n)|
  {
    hide Steps, TemporaryOf;
    StepPhase(H, s, t, i);
    Fewer(Live(t, writers, n), Live(s, writers, n));
  }

  lemma Fewer(a: set<nat>, b: set<nat>)
    requires a <= b
    ensures |a| <= |b|
  {
    assert b == a + (b - a);
  }

  lemma OneLess(a: set<nat>, b: set<nat>, x: nat)
    requires a <= b && x in b && x !in a
    ensures |a| < |b|
  {
    Fewer(a, b - {x});
  }

  /** A writer that is still about, beside the holder of a name, keeps the name there. */
  lemma HolderNotAlone(H: Hash, s: State, writers: set<nat>, i: nat, k: nat)
    requires Inv(H, s, writers) && i < |s.phases| && k < |s.phases| && i != k
    requires TemporaryOf(s.jobs[i]) == TemporaryOf(s.jobs[k])
    requires Held(s.phases[k]).Some? && i in writers && !s.phases[i].Done?
    ensures TemporaryOf(s.jobs[i]) in s.names
  {
    var name := TemporaryOf(s.jobs[k]);
    assert StandsOk(H, s, writers, k) && HoldsOk(s, writers, k);
    var live := Live(s, writers, name);
    assert {i, k} <= live;
    Fewer({i, k}, live);
  }

  /** Two publishers with one temporary name do not both hold an inode. */
  lemma OneHolder(H: Hash, s: State, writers: set<nat>, i: nat, k: nat)
    requires Inv(H, s, writers) && i < |s.phases| && k < |s.phases| && i != k
    requires TemporaryOf(s.jobs[i]) == TemporaryOf(s.jobs[k])
    ensures Held(s.phases[i]).None? || Held(s.phases[k]).None?
  {
    if Held(s.phases[i]).Some? && Held(s.phases[k]).Some? {
      assert StandsOk(H, s, writers, i) && HoldsOk(s, writers, i) && HoldsOk(s, writers, k);
      HolderNotAlone(H, s, writers, i, k);
    }
  }

  lemma StepNames(H: Hash, s: State, t: State, i: nat)
    requires i < |s.phases| == |s.jobs| && Steps(H, s, t, i)
    ensures forall n :: n in s.names && n.Target? ==> n in t.names
    ensures forall n :: n != TemporaryOf(s.jobs[i]) && n != TargetOf(s.jobs[i]) ==>
              (n in t.names <==> n in s.names) && (n in s.names ==> t.names[n] == s.names[n])
  {
    hide Admissible;
  }

  lemma StepInodes(H: Hash, s: State, t: State, i: nat)
    requires i < |s.phases| == |s.jobs| && Steps(H, s, t, i)
    ensures forall n :: n in s.inodes && Held(s.phases[i]) != Some(n) ==> n in t.inodes && t.inodes[n] == s.inodes[n]
  {
    hide Admissible, TargetOf, TemporaryOf, Unlinked;
  }

  /** What one publisher's step can change: its phase, its two names, and the inode it holds. */
  lemma StepFrame(H: Hash, s: State, t: State, i: nat)
    requires i < |s.phases| == |s.jobs| && Steps(H, s, t, i)
    ensures t.jobs == s.jobs && |t.phases| == |s.phases| && t.phases == s.phases[i := t.phases[i]]
    ensures forall n :: n in s.names && n.Target? ==> n in t.names
    ensures forall n :: n != TemporaryOf(s.jobs[i]) && n != TargetOf(s.jobs[i]) ==>
              (n in t.names <==> n in s.names) && (n in s.names ==> t.names[n] == s.names[n])
    ensures forall n :: n in s.inodes && Held(s.phases[i]) != Some(n) ==> n in t.inodes && t.inodes[n] == s.inodes[n]
  {
    hide Steps, Held;
    StepPhase(H, s, t, i);
    StepNames(H, s, t, i);
    StepInodes(H, s, t, i);
  }

  lemma StepAddressed(H: Hash, s: State, t: State, writers: set<nat>, i: nat)
    requires Inv(H, s, writers) && i < |s.phases| && Steps(H, s, t, i)
    ensures Addressed(H, t)
  {
    hide Live, RoomAt;
    assert StandsOk(H, s, writers, i) && HoldsOk(s, writers, i);
    if Writes(s, t, i) {
      assert forall n :: n in s.names && n.Target? ==> s.names[n] != s.phases[i].inode;
    } else if Renames(s, t, i) {
      assert Admissible(H, s.jobs[i]);
    }
  }

  lemma WriterStands(H: Hash, s: State, t: State, writers: set<nat>, i: nat)
    requires i < |s.phases| == |s.jobs| && StandsOk(H, s, writers, i)
    requires Creates(s, t, i) || Writes(s, t, i) || Closes(s, t, i)
    ensures |t.phases| == |t.jobs| == |s.jobs| && StandsOk(H, t, writers, i)
  {
    hide Admissible, TemporaryOf;
    if Closes(s, t, i) {
      assert s.jobs[i].content[..|s.jobs[i].content|] == s.jobs[i].content;
    }
  }

  lemma OwnStands(H: Hash, s: State, t: State, writers: set<nat>, i: nat)
    requires i < |s.phases| == |s.jobs| && StandsOk(H, s, writers, i) && Steps(H, s, t, i)
    requires s.phases[i].Fresh? && Admissible(H, s.jobs[i]) && TargetOf(s.jobs[i]) !in s.names ==> i in writers
    ensures |t.phases| == |t.jobs| == |s.jobs| && StandsOk(H, t, writers, i)
  {
    hide Admissible, TemporaryOf, Creates, Writes, Closes, Unlinked;
    if Creates(s, t, i) || Writes(s, t, i) || Closes(s, t, i) {
      WriterStands(H, s, t, writers, i);
    }
  }

  lemma OtherStands(H: Hash, s: State, t: State, writers: set<nat>, i: nat, k: nat)
    requires Inv(H, s, writers) && i < |s.phases| && k < |s.phases| && i != k && Steps(H, s, t, i)
    ensures |t.phases| == |t.jobs| == |s.jobs| && StandsOk(H, t, writers, k)
  {
    hide RoomAt, Live;
    assert StandsOk(H, s, writers, k) && HoldsOk(s, writers, k);
    StepFrame(H, s, t, i);
  }

  lemma OwnHolds(H: Hash, s: State, t: State, writers: set<nat>, i: nat)
    requires Inv(H, s, writers) && i < |s.phases| && Steps(H, s, t, i)
    ensures |t.phases| == |t.jobs| == |s.jobs| && HoldsOk(t, writers, i)
  {
    assert StandsOk(H, s, writers, i) && HoldsOk(s, writers, i);
    if Creates(s, t, i) {
      CreatorHolds(H, s, t, writers, i);
    } else if Writes(s, t, i) || Closes(s, t, i) {
      assert t.names == s.names && Held(t.phases[i]) == Held(s.phases[i]);
      assert t.phases == s.phases[i := t.phases[i]];
      assert Live(t, writers, TemporaryOf(s.jobs[i])) == Live(s, writers, TemporaryOf(s.jobs[i]));
    } else {
      assert Held(t.phases[i]).None?;
    }
  }

  lemma CreatorHolds(H: Hash, s: State, t: State, writers: set<nat>, i: nat)
    requires Inv(H, s, writers) && i < |s.phases| && Creates(s, t, i)
    ensures |t.phases| == |t.jobs| == |s.jobs| && HoldsOk(t, writers, i)
  {
    if Held(t.phases[i]).Some? {
      var n := Held(t.phases[i]).value;
      forall k | 0 <= k < |s.phases| && k != i ensures Held(t.phases[k]) != Some(n) {
        assert StandsOk(H, s, writers, k);
      }
    }
  }

  /** The holder of another name, or of the same name, after someone else's step. */
  lemma OtherHolds(H: Hash, s: State, t: State, writers: set<nat>, i: nat, k: nat)
    requires Inv(H, s, writers) && i < |s.phases| && k < |s.phases| && i != k && Steps(H, s, t, i)
    ensures |t.phases| == |t.jobs| == |s.jobs| && HoldsOk(t, writers, k)
  {
    StepFrame(H, s, t, i);
    if Held(s.phases[k]).Some? {
      OtherNames(H, s, t, writers, i, k);
      StillNamed(H, s, t, writers, i, k);
      StillApart(H, s, t, writers, i, k);
    }
  }

  /** Nobody else's step gives a held inode another name. */
  lemma OtherNames(H: Hash, s: State, t: State, writers: set<nat>, i: nat, k: nat)
    requires Inv(H, s, writers) && i < |s.phases| && k < |s.phases| && i != k && Steps(H, s, t, i)
    requires Held(s.phases[k]).Some?
    ensures forall n :: n in t.names && t.names[n] == Held(s.phases[k]).value ==> n == TemporaryOf(s.jobs[k])
  {
    hide Live, Admissible, RoomAt;
    assert StandsOk(H, s, writers, k) && HoldsOk(s, writers, k) && StandsOk(H, s, writers, i) && HoldsOk(s, writers, i);
    if Renames(s, t, i) && TemporaryOf(s.jobs[i]) in s.names {
      assert s.names[TemporaryOf(s.jobs[i])] == Held(s.phases[i]).value != Held(s.phases[k]).value;
    }
  }

  lemma StillNamed(H: Hash, s: State, t: State, writers: set<nat>, i: nat, k: nat)
    requires Inv(H, s, writers) && i < |s.phases| && k < |s.phases| && i != k && Steps(H, s, t, i)
    requires Held(s.phases[k]).Some?
    ensures var name := TemporaryOf(s.jobs[k]);
            && (name in t.names ==> t.names[name] == Held(s.phases[k]).value)
            && (name !in t.names ==> |Live(t, writers, name)| <= 1)
  {
    var name := TemporaryOf(s.jobs[k]);
    assert StandsOk(H, s, writers, i) && HoldsOk(s, writers, k);
    StepFrame(H, s, t, i);
    LiveShrinks(H, s, t, writers, i, name);
    if TemporaryOf(s.jobs[i]) == name {
      OneHolder(H, s, writers, i, k);
      if i in writers && !s.phases[i].Done? { HolderNotAlone(H, s, writers, i, k); }
      if Leaves(s, t, i) {
        assert IsHeld(s, s.names[name]) && RoomAt(s, writers, name);
        OneLess(Live(t, writers, name), Live(s, writers, name), i);
      }
    }
  }

  lemma StillApart(H: Hash, s: State, t: State, writers: set<nat>, i: nat, k: nat)
    requires Inv(H, s, writers) && i < |s.phases| && k < |s.phases| && i != k && Steps(H, s, t, i)
    requires Held(s.phases[k]).Some?
    ensures |t.phases| == |s.phases|
    ensures forall j :: 0 <= j < |s.phases| && j != k ==> Held(t.phases[j]) != Held(s.phases[k])
  {
    hide Live, Admissible, RoomAt, Addressed, Steps, Held;
    assert StandsOk(H, s, writers, k) && HoldsOk(s, writers, k);
    HeldExists(H, s, writers, k);
    HeldAfter(H, s, t, i);
  }

  lemma HeldExists(H: Hash, s: State, writers: set<nat>, k: nat)
    requires k < |s.phases| == |s.jobs| && StandsOk(H, s, writers, k) && Held(s.phases[k]).Some?
    ensures Held(s.phases[k]).value in s.inodes
  {
  }

  /** After a step a publisher holds what it held, nothing, or a fresh inode. */
  lemma HeldAfter(H: Hash, s: State, t: State, i: nat)
    requires i < |s.phases| == |s.jobs| && Steps(H, s, t, i)
    ensures |t.phases| == |s.phases| && t.phases == s.phases[i := t.phases[i]]
    ensures var h := Held(t.phases[i]);
            h.None? || h == Held(s.phases[i]) || h.value !in s.inodes
  {
    hide Admissible, TargetOf, TemporaryOf, Unlinked;
    StepPhase(H, s, t, i);
    if Creates(s, t, i) {
      assert t.phases[i].Leaving? || t.phases[i].inode !in s.inodes;
    }
  }

  lemma StepRoom(H: Hash, s: State, t: State, writers: set<nat>, i: nat, n: Name)
    requires Inv(H, s, writers) && i < |s.phases| && Steps(H, s, t, i)
    ensures RoomAt(t, writers, n)
  {
    assert StandsOk(H, s, writers, i) && HoldsOk(s, writers, i) && RoomAt(s, writers, n);
    LiveShrinks(H, s, t, writers, i, n);
    if n == TemporaryOf(s.jobs[i]) {
      OwnRoom(H, s, t, writers, i);
    } else if n.Target? {
      assert Live(t, writers, n) == {};
    } else {
      StepFrame(H, s, t, i);
      if n in t.names && IsHeld(t, t.names[n]) {
        if !IsHeld(s, s.names[n]) { NewlyHeld(H, s, t, i, s.names[n]); }
      }
    }
  }

  /** Only a fresh inode comes to be held. */
  lemma NewlyHeld(H: Hash, s: State, t: State, i: nat, n: nat)
    requires i < |s.phases| == |s.jobs| && Steps(H, s, t, i) && IsHeld(t, n) && !IsHeld(s, n)
    ensures n !in s.inodes
  {
    hide Steps, Held;
    HeldAfter(H, s, t, i);
    assert forall j :: 0 <= j < |s.phases| ==> Held(s.phases[j]) != Some(n);
    var k :| 0 <= k < |t.phases| && Held(t.phases[k]) == Some(n);
  }

  /** Room under the stepping publisher's own temporary name. */
  lemma OwnRoom(H: Hash, s: State, t: State, writers: set<nat>, i: nat)
    requires Inv(H, s, writers) && i < |s.phases| && Steps(H, s, t, i)
    ensures RoomAt(t, writers, TemporaryOf(s.jobs[i]))
  {
    var name := TemporaryOf(s.jobs[i]);
    assert StandsOk(H, s, writers, i) && HoldsOk(s, writers, i) && RoomAt(s, writers, name);
    LiveShrinks(H, s, t, writers, i, name);
    if Leaves(s, t, i) {
      assert name !in t.names;
      OneLess(Live(t, writers, name), Live(s, writers, name), i);
    } else if Renames(s, t, i) {
      assert name in s.names ==> IsHeld(s, s.names[name]);
    } else if Creates(s, t, i) {
    } else {
      assert t.names == s.names;
      if name in s.names && IsHeld(t, s.names[name]) && !IsHeld(s, s.names[name]) {
        NewlyHeld(H, s, t, i, s.names[name]);
      }
    }
  }

  lemma StepKeepsInv(H: Hash, s: State, t: State, writers: set<nat>, i: nat)
    requires Inv(H, s, writers) && i < |s.phases| && Steps(H, s, t, i)
    ensures Inv(H, t, writers)
  {
    StepFrame(H, s, t, i);
    StepAddressed(H, s, t, writers, i);
    forall k: nat | k < |t.phases| ensures StandsOk(H, t, writers, k) {
      if k == i { OwnStands(H, s, t, writers, i); } else { OtherStands(H, s, t, writers, i, k); }
    }
    forall k: nat | k < |t.phases| ensures HoldsOk(t, writers, k) {
      if k == i { OwnHolds(H, s, t, writers, i); } else { OtherHolds(H, s, t, writers, i, k); }
    }
    forall n ensures RoomAt(t, writers, n) {
      StepRoom(H, s, t, writers, i, n);
    }
  }

  lemma NextKeepsInv(H: Hash, s: State, t: State, writers: set<nat>)
    requires Inv(H, s, writers) && Next(H, s, t)
    ensures Inv(H, t, writers)
  {
    var i: nat :| i < |s.phases| && Steps(H, s, t, i);
    StepKeepsInv(H, s, t, writers, i);
  }

  // ----- Whole runs -----

  ghost predicate Run(H: Hash, states: seq<State>) {
    && states != [] && Initial(H, states[0])
    && forall i :: 0 <= i < |states| - 1 ==> Next(H, states[i], states[i + 1])
  }

  lemma InitialInv(H: Hash, s: State)
    requires Initial(H, s) && Roomy(H, s)
    ensures Inv(H, s, Writers(H, s))
  {
    var writers := Writers(H, s);
    forall n ensures RoomAt(s, writers, n) {
      assert Live(s, writers, n) == Sharers(H, s, n);
      assert n in s.names ==> !IsHeld(s, s.names[n]);
    }
  }

  lemma RunMover(H: Hash, states: seq<State>, i: nat) returns (m: nat)
    requires Run(H, states) && 0 < i < |states|
    ensures |states[i - 1].jobs| == |states[i - 1].phases| && m < |states[i - 1].phases|
    ensures Steps(H, states[i - 1], states[i], m)
  {
    hide Steps;
    assert Next(H, states[i - 1], states[i]);
    m :| m < |states[i - 1].phases| && Steps(H, states[i - 1], states[i], m);
  }

  lemma InvOnward(H: Hash, states: seq<State>, i: nat, writers: set<nat>)
    requires Run(H, states) && 0 < i < |states| && Inv(H, states[i - 1], writers)
    ensures Inv(H, states[i], writers)
  {
    hide *;
    var m := RunMover(H, states, i);
    StepKeepsInv(H, states[i - 1], states[i], writers, m);
  }

  lemma {:induction false} RunInv(H: Hash, states: seq<State>, i: nat)
    requires Run(H, states) && Roomy(H, states[0]) && i < |states|
    ensures Inv(H, states[i], Writers(H, states[0]))
  {
    hide Inv, Roomy, Next;
    if i == 0 {
      InitialInv(H, states[0]);
    } else {
      RunInv(H, states, i - 1);
      InvOnward(H, states, i, Writers(H, states[0]));
    }
  }

  lemma MoverFromInv(H: Hash, states: seq<State>, i: nat) returns (m: nat)
    requires Run(H, states) && Roomy(H, states[0]) && 0 < i < |states|
    ensures Inv(H, states[i - 1], Writers(H, states[0]))
    ensures |states[i - 1].jobs| == |states[i - 1].phases| && m < |states[i - 1].phases|
    ensures Steps(H, states[i - 1], states[i], m)
  {
    hide *;
    RunInv(H, states, i - 1);
    m := RunMover(H, states, i);
  }

  /**
   * In every state of every run, with any publishers interleaved, failing or crashing midway, each file
   * at a hash-addressed name holds bytes that hash to that name.
   */
  lemma PublishedNamesTellTruth(H: Hash, states: seq<State>, i: nat)
    requires Run(H, states) && Roomy(H, states[0]) && i < |states|
    ensures Addressed(H, states[i])
  {
    RunInv(H, states, i);
  }

  /** A publisher that reports success has its target there. */
  ghost predicate Delivered(H: Hash, s: State, i: nat)
    requires i < |s.phases| == |s.jobs|
  {
    var j, p := s.jobs[i], s.phases[i];
    (p.Leaving? || p.Done?) && p.outcome == Published ==> Admissible(H, j) && TargetOf(j) in s.names
  }

  lemma StepDelivered(H: Hash, s: State, t: State, writers: set<nat>, i: nat, k: nat)
    requires Inv(H, s, writers) && i < |s.phases| && Steps(H, s, t, i)
    requires k < |s.phases| && Delivered(H, s, k)
    ensures k < |t.phases| == |t.jobs| && Delivered(H, t, k)
  {
    hide HoldsOk, RoomAt, Live, Steps, Admissible, StandsOk, Addressed;
    assert StandsOk(H, s, writers, i);
    StepFrame(H, s, t, i);
    if k == i { OwnDelivered(H, s, t, writers, i); }
  }

  lemma OwnDelivered(H: Hash, s: State, t: State, writers: set<nat>, i: nat)
    requires i < |s.phases| == |s.jobs| && StandsOk(H, s, writers, i) && Steps(H, s, t, i) && Delivered(H, s, i)
    ensures |t.phases| == |t.jobs| == |s.jobs| && Delivered(H, t, i)
  {
    hide Admissible;
  }

  lemma DeliveredOnward(H: Hash, states: seq<State>, i: nat, k: nat)
    requires Run(H, states) && Roomy(H, states[0]) && 0 < i < |states|
    requires |states[i - 1].phases| == |states[i - 1].jobs| && k < |states[i - 1].jobs|
    requires Delivered(H, states[i - 1], k)
    ensures states[i].jobs == states[i - 1].jobs && |states[i].phases| == |states[i].jobs| && Delivered(H, states[i], k)
  {
    hide *;
    var m := MoverFromInv(H, states, i);
    StepPhase(H, states[i - 1], states[i], m);
    StepDelivered(H, states[i - 1], states[i], Writers(H, states[0]), m, k);
  }

  lemma {:induction false} RunDelivered(H: Hash, states: seq<State>, i: nat, k: nat)
    requires Run(H, states) && Roomy(H, states[0]) && i < |states| && k < |states[0].jobs|
    ensures states[i].jobs == states[0].jobs && |states[i].phases| == |states[0].jobs| && Delivered(H, states[i], k)
  {
    hide Roomy, Next;
    if i > 0 {
      RunDelivered(H, states, i - 1, k);
      DeliveredOnward(H, states, i, k);
    }
  }

  /** A publisher that finished has exactly its own bytes at its name, from then on. */
  lemma PublishedIsThere(H: Hash, states: seq<State>, i: nat, k: nat)
    requires CollisionFree(H) && Run(H, states) && Roomy(H, states[0]) && i < |states| && k < |states[0].jobs|
    ensures |states[i].phases| == |states[0].jobs|
    ensures states[i].phases[k] == Done(Published) ==>
      var s, target := states[i], TargetOf(states[0].jobs[k]);
      target in s.names && s.names[target] in s.inodes && s.inodes[s.names[target]] == states[0].jobs[k].content
  {
    RunDelivered(H, states, i, k);
    PublishedNamesTellTruth(H, states, i);
  }

  // ----- No clashes -----

  /** An outcome the interleaving alone could cause. */
  predicate IsAccident(o: Outcome) {
    o.IdentityMismatch? || o.ContentMismatch? || o.TemporaryTaken? || o.TemporaryGone?
  }

  /** A writer finds its temporary name free until it creates it, and there until it renames it. */
  ghost predicate Undisturbed(s: State, writers: set<nat>, i: nat)
    requires i < |s.phases| == |s.jobs|
  {
    var name, p := TemporaryOf(s.jobs[i]), s.phases[i];
    i in writers ==>
      && (p.Fresh? || p.SawNothing? ==> name !in s.names)
      && (Held(p).Some? ==> name in s.names)
  }

  ghost predicate Alone(jobs: seq<Job>, writers: set<nat>) {
    forall i, k :: i in writers && k in writers && i < |jobs| && k < |jobs| && i != k ==>
      TemporaryOf(jobs[i]) != TemporaryOf(jobs[k])
  }

  /** A publisher that is no writer touches no name. */
  lemma OnlyWritersName(H: Hash, s: State, t: State, writers: set<nat>, i: nat)
    requires i < |s.phases| == |s.jobs| && StandsOk(H, s, writers, i) && Steps(H, s, t, i) && i !in writers
    ensures t.names == s.names
  {
  }

  lemma OtherUndisturbed(H: Hash, s: State, t: State, writers: set<nat>, i: nat, k: nat)
    requires Inv(H, s, writers) && i < |s.phases| && k < |s.phases| && i != k && Steps(H, s, t, i)
    requires Alone(s.jobs, writers) && Undisturbed(s, writers, k)
    ensures |t.phases| == |t.jobs| == |s.jobs| && Undisturbed(t, writers, k)
  {
    hide RoomAt, HoldsOk, Addressed, Live, Steps, StandsOk;
    assert StandsOk(H, s, writers, i);
    StepPhase(H, s, t, i);
    StepFrame(H, s, t, i);
    if k in writers {
      if i in writers {
        assert TemporaryOf(s.jobs[i]) != TemporaryOf(s.jobs[k]);
      } else {
        OnlyWritersName(H, s, t, writers, i);
      }
    }
  }

  lemma OwnUndisturbed(H: Hash, s: State, t: State, writers: set<nat>, i: nat)
    requires i < |s.phases| == |s.jobs| && Steps(H, s, t, i) && Undisturbed(s, writers, i)
    ensures |t.phases| == |t.jobs| == |s.jobs| && Undisturbed(t, writers, i)
  {
    hide Admissible;
  }

  lemma StepUndisturbed(H: Hash, s: State, t: State, writers: set<nat>, i: nat, k: nat)
    requires Inv(H, s, writers) && i < |s.phases| && k < |s.phases| && Steps(H, s, t, i)
    requires Alone(s.jobs, writers) && Undisturbed(s, writers, k)
    ensures |t.phases| == |t.jobs| == |s.jobs| && Undisturbed(t, writers, k)
  {
    hide RoomAt, HoldsOk, StandsOk, Addressed, Steps, Undisturbed, Alone;
    if k == i { OwnUndisturbed(H, s, t, writers, i); } else { OtherUndisturbed(H, s, t, writers, i, k); }
  }

  /** A publisher that has left: it was refused for what it asked, it failed, or it published. */
  ghost predicate Reports(H: Hash, s: State, i: nat)
    requires i < |s.phases| == |s.jobs|
  {
    var j, p := s.jobs[i], s.phases[i];
    p.Leaving? || p.Done? ==> !IsAccident(p.outcome) && (p.outcome.Refused? ==> !Admissible(H, j))
  }

  lemma StepReports(H: Hash, s: State, t: State, writers: set<nat>, i: nat, k: nat)
    requires CollisionFree(H) && Inv(H, s, writers) && i < |s.phases| && k < |s.phases| && Steps(H, s, t, i)
    requires Undisturbed(s, writers, i) && Reports(H, s, k)
    ensures |t.phases| == |t.jobs| == |s.jobs| && Reports(H, t, k)
  {
    hide RoomAt, HoldsOk, Live, Steps, StandsOk, Undisturbed, Admissible, Addressed, CollisionFree;
    assert StandsOk(H, s, writers, i);
    StepFrame(H, s, t, i);
    if k == i { OwnReports(H, s, t, writers, i); }
  }

  lemma OwnReports(H: Hash, s: State, t: State, writers: set<nat>, i: nat)
    requires CollisionFree(H) && Addressed(H, s) && i < |s.phases| == |s.jobs| && StandsOk(H, s, writers, i)
    requires Steps(H, s, t, i) && Undisturbed(s, writers, i) && Reports(H, s, i)
    ensures |t.phases| == |t.jobs| == |s.jobs| && Reports(H, t, i)
  {
    if ComparesSize(s, t, i) {
      assert H(s.inodes[s.names[TargetOf(s.jobs[i])]]) == H(s.jobs[i].content);
    }
  }

  lemma PrivateIsRoomy(H: Hash, s: State)
    requires Private(H, s)
    ensures Roomy(H, s)
  {
  }

  lemma PrivateAlone(H: Hash, s: State)
    requires Initial(H, s) && Private(H, s)
    ensures Alone(s.jobs, Writers(H, s))
    ensures forall k: nat :: k < |s.jobs| ==> Undisturbed(s, Writers(H, s), k)
  {
    var writers := Writers(H, s);
    forall k | k in writers ensures TemporaryOf(s.jobs[k]) !in s.names {
      var sharers := Sharers(H, s, TemporaryOf(s.jobs[k]));
      assert k in sharers;
      Fewer({k}, sharers);
    }
    forall i, k | i in writers && k in writers && i != k ensures TemporaryOf(s.jobs[i]) != TemporaryOf(s.jobs[k]) {
      var sharers := Sharers(H, s, TemporaryOf(s.jobs[k]));
      if TemporaryOf(s.jobs[i]) == TemporaryOf(s.jobs[k]) {
        assert {i, k} <= sharers;
        Fewer({i, k}, sharers);
      }
    }
  }

  lemma ReportsOnward(H: Hash, states: seq<State>, i: nat, m: nat, k: nat, writers: set<nat>)
    requires CollisionFree(H) && 0 < i < |states| && Inv(H, states[i - 1], writers)
    requires |states[i - 1].phases| == |states[i - 1].jobs| && m < |states[i - 1].jobs| && k < |states[i - 1].jobs|
    requires Steps(H, states[i - 1], states[i], m) && Alone(states[i - 1].jobs, writers)
    requires Undisturbed(states[i - 1], writers, m) && Undisturbed(states[i - 1], writers, k)
    requires Reports(H, states[i - 1], k)
    ensures states[i].jobs == states[i - 1].jobs && |states[i].phases| == |states[i].jobs|
    ensures Reports(H, states[i], k) && Undisturbed(states[i], writers, k)
  {
    hide *;
    StepReports(H, states[i - 1], states[i], writers, m, k);
    StepUndisturbed(H, states[i - 1], states[i], writers, m, k);
    StepPhase(H, states[i - 1], states[i], m);
  }

  lemma {:induction false} RunReports(H: Hash, states: seq<State>, i: nat, k: nat)
    requires CollisionFree(H) && Run(H, states) && Private(H, states[0]) && i < |states| && k < |states[0].jobs|
    ensures states[i].jobs == states[0].jobs && |states[i].phases| == |states[0].jobs|
    ensures Reports(H, states[i], k) && Undisturbed(states[i], Writers(H, states[0]), k)
    decreases i
  {
    hide Next, Private, Roomy, Inv, Addressed, Steps, Undisturbed, Writers, Alone;
    PrivateAlone(H, states[0]);
    PrivateIsRoomy(H, states[0]);
    if i > 0 {
      RunReports(H, states, i - 1, k);
      var m := MoverFromInv(H, states, i);
      RunReports(H, states, i - 1, m);
      ReportsOnward(H, states, i, m, k, Writers(H, states[0]));
    }
  }

  /**
   * With temporary names of their own, no publisher of admissible bytes is ever refused by another's
   * work: republication meets no mismatch, and each publishes, fails of itself, or crashes.
   */
  lemma PublicationNeverClashes(H: Hash, states: seq<State>, i: nat, k: nat)
    requires CollisionFree(H) && Run(H, states) && Private(H, states[0]) && i < |states| && k < |states[0].jobs|
    ensures |states[i].phases| == |states[0].jobs|
    ensures states[i].phases[k].Done? && Admissible(H, states[0].jobs[k]) ==>
      states[i].phases[k].outcome in {Published, Failed, Crashed}
  {
    RunReports(H, states, i, k);
  }

  // ----- Open files -----

  ghost predicate NotHeld(s: State, n: nat) {
    forall k :: 0 <= k < |s.phases| ==> Held(s.phases[k]) != Some(n)
  }

  /** A file nobody can write to keeps its bytes, and stays so; a published name is never dropped. */
  ghost predicate Sealed(s: State, target: Name, n: nat, bytes: seq<Byte>) {
    target in s.names && n in s.inodes && s.inodes[n] == bytes && NotHeld(s, n)
  }

  lemma PublishedSealed(H: Hash, s: State, writers: set<nat>, target: Name)
    requires Inv(H, s, writers) && target.Target? && target in s.names
    ensures s.names[target] in s.inodes && Sealed(s, target, s.names[target], s.inodes[s.names[target]])
  {
    forall k: nat | k < |s.phases| ensures Held(s.phases[k]) != Some(s.names[target]) {
      assert HoldsOk(s, writers, k);
    }
  }

  lemma SealedKept(H: Hash, s: State, t: State, writers: set<nat>, i: nat, target: Name, n: nat, bytes: seq<Byte>)
    requires Inv(H, s, writers) && i < |s.phases| && Steps(H, s, t, i) && target.Target? && Sealed(s, target, n, bytes)
    ensures Sealed(t, target, n, bytes)
  {
    hide StandsOk, HoldsOk, RoomAt, Steps;
    StepFrame(H, s, t, i);
    if IsHeld(t, n) { NewlyHeld(H, s, t, i, n); }
    assert Held(s.phases[i]) != Some(n);
    forall k | 0 <= k < |t.phases| ensures Held(t.phases[k]) != Some(n) {
      assert !IsHeld(t, n);
    }
  }

  lemma SealedStep(H: Hash, states: seq<State>, j: nat, target: Name, n: nat, bytes: seq<Byte>)
    requires Run(H, states) && Roomy(H, states[0]) && 0 < j < |states|
    requires target.Target? && Sealed(states[j - 1], target, n, bytes)
    ensures Sealed(states[j], target, n, bytes)
  {
    hide *;
    var m := MoverFromInv(H, states, j);
    SealedKept(H, states[j - 1], states[j], Writers(H, states[0]), m, target, n, bytes);
  }

  lemma {:induction false} SealedOnward(H: Hash, states: seq<State>, i: nat, j: nat,
                                        target: Name, n: nat, bytes: seq<Byte>)
    requires Run(H, states) && Roomy(H, states[0]) && i <= j < |states|
    requires target.Target? && Sealed(states[i], target, n, bytes)
    ensures Sealed(states[j], target, n, bytes)
    decreases j
  {
    hide *;
    if i < j {
      SealedOnward(H, states, i, j - 1, target, n, bytes);
      SealedStep(H, states, j, target, n, bytes);
    }
  }

  /** An open published file keeps its bytes to the end of the run, even if its name is replaced. */
  lemma OpenFileKeepsBytes(H: Hash, states: seq<State>, i: nat, j: nat, target: Name)
    requires Run(H, states) && Roomy(H, states[0]) && i <= j < |states|
    requires target.Target? && target in states[i].names
    ensures states[i].names[target] in states[i].inodes
    ensures Sealed(states[j], target, states[i].names[target], states[i].inodes[states[i].names[target]])
  {
    RunInv(H, states, i);
    PublishedSealed(H, states[i], Writers(H, states[0]), target);
    var n := states[i].names[target];
    SealedOnward(H, states, i, j, target, n, states[i].inodes[n]);
  }
}
