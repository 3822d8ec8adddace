/**
 * That publication succeeds: what each step of a publisher that neither fails nor crashes comes to, and
 * that such steps never run out before the publisher is done.
 */
module VaultProgress {
  import opened Common
  import opened VaultClashes
  import opened VaultFiles

  /** A step of publisher k in which nothing raises and nothing dies. */
  ghost predicate Works(H: Hash, s: State, t: State, k: nat) {
    k < |s.phases| == |s.jobs| && Steps(H, s, t, k) && !Fails(s, t, k) && !Crashes(s, t, k)
  }

  // ----- Before anything is written -----

  predicate PlainPart(part: string) {
    part != "" && forall c :: c in part ==>
      'a' <= c <= 'z' || 'A' <= c <= 'Z' || '0' <= c <= '9' || c == '_' || c == '-'
  }

  /** The first look: a job is refused for its identity, its size or its digest, and for nothing else. */
  lemma LookTells(H: Hash, s: State, t: State, k: nat)
    requires Works(H, s, t, k) && s.phases[k].Fresh?
    ensures var j := s.jobs[k];
            && t.names == s.names && t.inodes == s.inodes && |t.phases| == |s.phases|
            && t.phases[k] ==
               if !(j.path != [] && (forall part :: part in j.path ==> PlainPart(part)) && PlainPart(j.suffix)
                    && 0 < |j.content| <= j.maxBytes && H(j.content) == j.digest) then Done(Refused)
               else if Target(j.path, j.digest, j.suffix) in s.names then SawTarget
               else SawNothing
  {
    var j := s.jobs[k];
    SafeIsPlain(j.suffix);
    forall i | 0 <= i < |j.path| ensures IsSafe(j.path[i]) <==> PlainPart(j.path[i]) { SafeIsPlain(j.path[i]); }
    hide IsSafe, PlainPart;
    assert SafeIdentity(j) <==>
      j.path != [] && (forall part :: part in j.path ==> PlainPart(part)) && PlainPart(j.suffix);
  }

  lemma SafeIsPlain(part: string)
    ensures IsSafe(part) <==> PlainPart(part)
  {
    if PlainPart(part) {
      forall i | 0 <= i < |part| ensures IsSafeCharacter(part[i]) { assert part[i] in part; }
    }
  }

  // ----- Where the file already stands -----

  /** In any state: a file of another size or another digest is reported as what it is, and any other is published. */
  lemma PresentTells(H: Hash, s: State, t: State, k: nat)
    requires Works(H, s, t, k) && (s.phases[k].SawTarget? || s.phases[k].SawSize?)
    ensures var j, target := s.jobs[k], TargetOf(s.jobs[k]);
            && t.names == s.names && t.inodes == s.inodes && |t.phases| == |s.phases|
            && target in s.names && s.names[target] in s.inodes
            && var bytes := s.inodes[s.names[target]];
               && (s.phases[k].SawTarget? ==>
                     t.phases[k] == if |bytes| == |j.content| then SawSize else Done(IdentityMismatch))
               && (s.phases[k].SawSize? ==>
                     t.phases[k] == if H(bytes) == j.digest then Done(Published) else Done(ContentMismatch))
  {
    hide TargetOf, TemporaryOf, Admissible, Unlinked;
  }

  /**
   * Publishing what is there already succeeds, and changes nothing: in every state of every run, each step
   * of a publisher that found its target, neither failing nor crashing, goes on to Published.
   */
  lemma RepublicationSucceeds(H: Hash, states: seq<State>, i: nat, k: nat, t: State)
    requires CollisionFree(H) && Run(H, states) && Roomy(H, states[0]) && i < |states| && Works(H, states[i], t, k)
    requires states[i].phases[k].SawTarget? || states[i].phases[k].SawSize?
    ensures t.names == states[i].names && t.inodes == states[i].inodes && |t.phases| == |states[i].phases|
    ensures t.phases[k] == if states[i].phases[k].SawTarget? then SawSize else Done(Published)
  {
    hide Works, Steps, TargetOf, HoldsOk, RoomAt, Run, Roomy;
    var s := states[i];
    RunInv(H, states, i);
    WorksReady(H, s, t, k);
    PresentTells(H, s, t, k);
    assert StandsOk(H, s, Writers(H, states[0]), k);
    TargetTold(H, s, k);
  }

  lemma WorksReady(H: Hash, s: State, t: State, k: nat)
    requires Works(H, s, t, k)
    ensures k < |s.phases| == |s.jobs|
  {
  }

  lemma TargetTold(H: Hash, s: State, k: nat)
    requires CollisionFree(H) && Addressed(H, s) && k < |s.jobs| && Admissible(H, s.jobs[k])
    requires TargetOf(s.jobs[k]) in s.names
    ensures s.names[TargetOf(s.jobs[k])] in s.inodes
    ensures s.inodes[s.names[TargetOf(s.jobs[k])]] == s.jobs[k].content && H(s.jobs[k].content) == s.jobs[k].digest
  {
  }

  // ----- A writer nobody disturbs -----

  /** What the storage is when publisher k, alone since state s, stands at this phase. */
  ghost predicate Alone(s: State, t: State, k: nat)
    requires k < |s.jobs|
  {
    && t.jobs == s.jobs && |t.phases| == |s.phases| && k < |t.phases|
    && var j, temporary, target := s.jobs[k], TemporaryOf(s.jobs[k]), TargetOf(s.jobs[k]);
       match t.phases[k]
       case SawNothing => t.names == s.names && t.inodes == s.inodes
       case Writing(n, written) =>
         && n !in s.inodes && written <= |j.content|
         && t.names == s.names[temporary := n] && t.inodes == s.inodes[n := j.content[..written]]
       case Closed(n) =>
         n !in s.inodes && t.names == s.names[temporary := n] && t.inodes == s.inodes[n := j.content]
       case Leaving(o) => o == Published && Delivers(s, t, k)
       case Done(o) => o == Published && Delivers(s, t, k)
       case _ => false
  }

  /** The target, and nothing else, now names a new file with the content. */
  ghost predicate Delivers(s: State, t: State, k: nat)
    requires k < |s.jobs|
  {
    exists n: nat :: n !in s.inodes && t.names == s.names[TargetOf(s.jobs[k]) := n]
                && t.inodes == s.inodes[n := s.jobs[k].content]
  }

  lemma AloneWrites(H: Hash, s: State, t: State, u: State, k: nat)
    requires k < |s.jobs| && TemporaryOf(s.jobs[k]) !in s.names && Alone(s, t, k) && Works(H, t, u, k)
    requires t.phases[k].SawNothing? || t.phases[k].Writing?
    ensures Alone(s, u, k)
  {
    var j := s.jobs[k];
    if Closes(t, u, k) { assert j.content[..|j.content|] == j.content; }
    if Creates(t, u, k) { assert j.content[..0] == []; }
  }

  lemma AloneRenames(H: Hash, s: State, t: State, u: State, k: nat)
    requires k < |s.jobs| && TemporaryOf(s.jobs[k]) !in s.names && Alone(s, t, k) && Works(H, t, u, k)
    requires t.phases[k].Closed?
    ensures Alone(s, u, k)
  {
    var n, temporary := t.phases[k].inode, TemporaryOf(s.jobs[k]);
    assert Renames(t, u, k);
    assert Unlinked(s.names[temporary := n], temporary) == s.names;
    assert u.names == s.names[TargetOf(s.jobs[k]) := n];
  }

  lemma AloneLeaves(H: Hash, s: State, t: State, u: State, k: nat)
    requires k < |s.jobs| && TemporaryOf(s.jobs[k]) !in s.names && Alone(s, t, k) && Works(H, t, u, k)
    requires t.phases[k].Leaving?
    ensures Alone(s, u, k)
  {
    assert Leaves(t, u, k);
    assert u.names == t.names;
  }

  /**
   * A writer that nobody disturbs publishes: whatever the state it starts from, as long as its temporary
   * name is free, its steps, neither failing nor crashing, end in Published, with its content in a new file
   * at its target and everything else as it was.
   */
  lemma {:induction false} LoneWriterPublishes(H: Hash, states: seq<State>, k: nat, i: nat)
    requires states != [] && i < |states| && k < |states[0].phases| == |states[0].jobs|
    requires states[0].phases[k].SawNothing? && TemporaryOf(states[0].jobs[k]) !in states[0].names
    requires forall m :: 0 <= m < |states| - 1 ==> Works(H, states[m], states[m + 1], k)
    ensures |states[i].phases| == |states[0].phases| && Alone(states[0], states[i], k)
    ensures states[i].phases[k].Done? ==> states[i].phases[k] == Done(Published) && Delivers(states[0], states[i], k)
  {
    if i > 0 {
      LoneWriterPublishes(H, states, k, i - 1);
      var s, t, u := states[0], states[i - 1], states[i];
      assert Works(H, t, u, k);
      DoneIsOver(H, t, u, k);
      if t.phases[k].Closed? {
        AloneRenames(H, s, t, u, k);
      } else if t.phases[k].Leaving? {
        AloneLeaves(H, s, t, u, k);
      } else {
        AloneWrites(H, s, t, u, k);
      }
    }
  }

  lemma DoneIsOver(H: Hash, s: State, t: State, k: nat)
    requires Works(H, s, t, k)
    ensures !s.phases[k].Done?
  {
    StepPhase(H, s, t, k);
  }

  // ----- Never stuck, and never for long -----

  ghost predicate CanGoOn(s: State, k: nat) {
    && k < |s.phases| == |s.jobs| && !s.phases[k].Done?
    && (s.phases[k].SawTarget? || s.phases[k].SawSize? ==>
          TargetOf(s.jobs[k]) in s.names && s.names[TargetOf(s.jobs[k])] in s.inodes)
    && (s.phases[k].Writing? ==> s.phases[k].written <= |s.jobs[k].content|)
    && (s.phases[k].Leaving? ==> s.phases[k].outcome != Crashed)
  }

  lemma NotFailing(s: State, t: State, k: nat)
    requires k < |s.phases| == |s.jobs| && |t.phases| == |s.phases| && t.phases[k] != Done(Crashed)
    requires s.phases[k].Fresh? || s.phases[k].Leaving? || t.phases[k] !in {Done(Failed), Leaving(Failed)}
    ensures !Fails(s, t, k) && !Crashes(s, t, k)
  {
  }

  function Stepped(s: State, k: nat, names: map<Name, nat>, inodes: map<nat, seq<Byte>>, phase: Phase): State
    requires k < |s.phases|
  {
    s.(names := names, inodes := inodes, phases := s.phases[k := phase])
  }

  lemma Looks(H: Hash, s: State, k: nat) returns (t: State)
    requires CanGoOn(s, k) && (s.phases[k].Fresh? || s.phases[k].SawTarget? || s.phases[k].SawSize?)
    ensures Works(H, s, t, k)
  {
    var j, target := s.jobs[k], TargetOf(s.jobs[k]);
    if s.phases[k].Fresh? {
      var phase := if !Admissible(H, j) then Done(Refused) else if target in s.names then SawTarget else SawNothing;
      t := Stepped(s, k, s.names, s.inodes, phase);
      assert Checks(H, s, t, k);
    } else if s.phases[k].SawTarget? {
      var same := |s.inodes[s.names[target]]| == |j.content|;
      t := Stepped(s, k, s.names, s.inodes, if !same then Done(IdentityMismatch) else SawSize);
      assert ComparesSize(s, t, k);
    } else {
      var same := H(s.inodes[s.names[target]]) == j.digest;
      t := Stepped(s, k, s.names, s.inodes, Done(if !same then ContentMismatch else Published));
      assert ComparesDigest(H, s, t, k);
    }
    NotFailing(s, t, k);
  }

  lemma Opens(H: Hash, s: State, k: nat) returns (t: State)
    requires CanGoOn(s, k) && s.phases[k].SawNothing?
    ensures Works(H, s, t, k)
  {
    var temporary := TemporaryOf(s.jobs[k]);
    if temporary in s.names {
      t := Stepped(s, k, s.names, s.inodes, Leaving(TemporaryTaken));
    } else {
      var n := UnusedInode(s.inodes.Keys);
      t := Stepped(s, k, s.names[temporary := n], s.inodes[n := []], Writing(n, 0));
    }
    assert Creates(s, t, k);
    NotFailing(s, t, k);
  }

  lemma Fills(H: Hash, s: State, k: nat) returns (t: State)
    requires CanGoOn(s, k) && s.phases[k].Writing?
    ensures Works(H, s, t, k)
  {
    var content, n := s.jobs[k].content, s.phases[k].inode;
    if s.phases[k].written == |content| {
      t := Stepped(s, k, s.names, s.inodes, Closed(n));
      assert Closes(s, t, k);
    } else {
      t := Stepped(s, k, s.names, s.inodes[n := content[..|content|]], Writing(n, |content|));
      assert Writes(s, t, k);
    }
    NotFailing(s, t, k);
  }

  lemma Lands(H: Hash, s: State, k: nat) returns (t: State)
    requires CanGoOn(s, k) && (s.phases[k].Closed? || s.phases[k].Leaving?)
    ensures Works(H, s, t, k)
  {
    var temporary, target := TemporaryOf(s.jobs[k]), TargetOf(s.jobs[k]);
    if s.phases[k].Leaving? {
      t := Stepped(s, k, Unlinked(s.names, temporary), s.inodes, Done(s.phases[k].outcome));
      assert Leaves(s, t, k);
    } else if temporary in s.names {
      t := Stepped(s, k, Unlinked(s.names, temporary)[target := s.names[temporary]], s.inodes, Leaving(Published));
      assert Renames(s, t, k);
    } else {
      t := Stepped(s, k, s.names, s.inodes, Leaving(TemporaryGone));
      assert Renames(s, t, k);
    }
    NotFailing(s, t, k);
  }

  /** Some step is always left to a publisher that is not done. */
  lemma GoesOn(H: Hash, s: State, k: nat) returns (t: State)
    requires CanGoOn(s, k)
    ensures Works(H, s, t, k)
  {
    hide Works;
    match s.phases[k]
    case SawNothing => t := Opens(H, s, k);
    case Writing(_, _) => t := Fills(H, s, k);
    case Closed(_) => t := Lands(H, s, k);
    case Leaving(_) => t := Lands(H, s, k);
    case _ => t := Looks(H, s, k);
  }

  /** How many steps may be left. */
  function Left(s: State, k: nat): nat
    requires k < |s.phases| && k < |s.jobs|
  {
    var size := |s.jobs[k].content|;
    match s.phases[k]
    case Fresh => size + 5
    case SawTarget => 2
    case SawSize => 1
    case SawNothing => size + 4
    case Writing(_, written) => if written <= size then size - written + 3 else 3
    case Closed(_) => 2
    case Leaving(_) => 1
    case Done(_) => 0
  }

  lemma WorkShrinks(H: Hash, s: State, t: State, k: nat)
    requires Works(H, s, t, k)
    ensures |t.phases| == |s.phases| && t.jobs == s.jobs && Left(t, k) < Left(s, k)
  {
    StepPhase(H, s, t, k);
    hide TargetOf, TemporaryOf, Unlinked, Admissible;
  }

  lemma AloneGoesOn(s: State, t: State, k: nat)
    requires k < |s.jobs| && |t.phases| == |t.jobs| && Alone(s, t, k) && !t.phases[k].Done?
    ensures CanGoOn(t, k)
  {
  }

  /** From any state in which its temporary name is free, a writer can publish. */
  lemma {:induction false} WriterCanPublish(H: Hash, s: State, k: nat, states: seq<State>) returns (more: seq<State>)
    requires states != [] && states[0] == s && k < |s.phases| == |s.jobs|
    requires s.phases[k].SawNothing? && TemporaryOf(s.jobs[k]) !in s.names
    requires k < |states[|states| - 1].phases| && k < |states[|states| - 1].jobs|
    requires forall m :: 0 <= m < |states| - 1 ==> Works(H, states[m], states[m + 1], k)
    ensures more != [] && more[0] == s && forall m :: 0 <= m < |more| - 1 ==> Works(H, more[m], more[m + 1], k)
    ensures var t := more[|more| - 1]; |t.phases| == |s.phases| && t.phases[k] == Done(Published) && Delivers(s, t, k)
    decreases Left(states[|states| - 1], k)
  {
    hide Works, Alone, Delivers, Left;
    var t := states[|states| - 1];
    LoneWriterPublishes(H, states, k, |states| - 1);
    AloneJobs(s, t, k);
    if t.phases[k].Done? {
      more := states;
    } else {
      AloneGoesOn(s, t, k);
      var u := GoesOn(H, t, k);
      WorkShrinks(H, t, u, k);
      more := WriterCanPublish(H, s, k, states + [u]);
    }
  }

  lemma AloneJobs(s: State, t: State, k: nat)
    requires k < |s.jobs| == |s.phases| && Alone(s, t, k)
    ensures t.jobs == s.jobs && |t.phases| == |t.jobs|
  {
  }

  /** A publisher that found its target can always go on, by RepublicationSucceeds towards Published. */
  lemma RepublisherGoesOn(H: Hash, states: seq<State>, i: nat, k: nat) returns (t: State)
    requires Run(H, states) && Roomy(H, states[0]) && i < |states| && k < |states[i].phases|
    requires states[i].phases[k].SawTarget? || states[i].phases[k].SawSize?
    ensures Works(H, states[i], t, k)
  {
    hide Works, TargetOf, HoldsOk, RoomAt, Run, Roomy;
    RunInv(H, states, i);
    assert StandsOk(H, states[i], Writers(H, states[0]), k);
    t := GoesOn(H, states[i], k);
  }
}
