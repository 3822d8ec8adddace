/**
 * How far temporary names may be shared. Exactly when every writer's name is its own does no publisher
 * meet another's work; exactly when at most two share one does every published name stay true.
 */
module VaultClashes {
  import opened Common
  import opened VaultFiles

  // ----- Steps a run can always take -----

  ghost predicate Ready(s: State, i: nat) {
    |s.phases| == |s.jobs| && i < |s.phases|
  }

  function Put(s: State, i: nat, phase: Phase): State
    requires i < |s.phases|
  {
    s.(phases := s.phases[i := phase])
  }

  lemma Looks(H: Hash, s: State, i: nat)
    requires Ready(s, i) && s.phases[i] == Fresh && Writer(H, s, i)
    ensures Next(H, s, Put(s, i, SawNothing))
  {
    assert Checks(H, s, Put(s, i, SawNothing), i);
    assert Steps(H, s, Put(s, i, SawNothing), i);
  }

  lemma FindsTaken(H: Hash, s: State, i: nat)
    requires Ready(s, i) && s.phases[i] == SawNothing && TemporaryOf(s.jobs[i]) in s.names
    ensures Next(H, s, Put(s, i, Leaving(TemporaryTaken)))
  {
    assert Creates(s, Put(s, i, Leaving(TemporaryTaken)), i);
    assert Steps(H, s, Put(s, i, Leaving(TemporaryTaken)), i);
  }

  function Made(s: State, i: nat, n: nat): State
    requires i < |s.phases| && i < |s.jobs|
  {
    s.(names := s.names[TemporaryOf(s.jobs[i]) := n],
       inodes := s.inodes[n := []],
       phases := s.phases[i := Writing(n, 0)])
  }

  lemma Makes(H: Hash, s: State, i: nat, n: nat)
    requires Ready(s, i) && s.phases[i] == SawNothing && TemporaryOf(s.jobs[i]) !in s.names && n !in s.inodes
    ensures Next(H, s, Made(s, i, n))
  {
    var t := Made(s, i, n);
    assert Moves(s, t, i, Writing(n, 0));
    assert Creates(s, t, i);
    assert Steps(H, s, t, i);
  }

  function WrittenOut(s: State, i: nat, n: nat): State
    requires i < |s.phases| && i < |s.jobs|
  {
    s.(inodes := s.inodes[n := s.jobs[i].content], phases := s.phases[i := Writing(n, |s.jobs[i].content|)])
  }

  lemma WritesOut(H: Hash, s: State, i: nat, n: nat)
    requires Ready(s, i) && s.phases[i] == Writing(n, 0) && s.jobs[i].content != []
    ensures Next(H, s, WrittenOut(s, i, n))
  {
    var t, content := WrittenOut(s, i, n), s.jobs[i].content;
    assert content[..|content|] == content;
    assert Moves(s, t, i, Writing(n, |content|));
    assert t.inodes == s.inodes[n := content[..|content|]];
    assert Writes(s, t, i);
    assert Steps(H, s, t, i);
  }

  lemma ClosesFile(H: Hash, s: State, i: nat, n: nat)
    requires Ready(s, i) && s.phases[i] == Writing(n, |s.jobs[i].content|)
    ensures Next(H, s, Put(s, i, Closed(n)))
  {
    assert Closes(s, Put(s, i, Closed(n)), i);
    assert Steps(H, s, Put(s, i, Closed(n)), i);
  }

  function Gone(s: State, i: nat, o: Outcome): State
    requires i < |s.phases| && i < |s.jobs|
  {
    s.(names := Unlinked(s.names, TemporaryOf(s.jobs[i])), phases := s.phases[i := Done(o)])
  }

  lemma Goes(H: Hash, s: State, i: nat, o: Outcome)
    requires Ready(s, i) && s.phases[i] == Leaving(o)
    ensures Next(H, s, Gone(s, i, o))
  {
    assert Leaves(s, Gone(s, i, o), i);
    assert Steps(H, s, Gone(s, i, o), i);
  }

  function Renamed(s: State, i: nat): State
    requires i < |s.phases| && i < |s.jobs| && TemporaryOf(s.jobs[i]) in s.names
  {
    var temporary := TemporaryOf(s.jobs[i]);
    s.(names := Unlinked(s.names, temporary)[TargetOf(s.jobs[i]) := s.names[temporary]],
       phases := s.phases[i := Leaving(Published)])
  }

  lemma RenamesFile(H: Hash, s: State, i: nat)
    requires Ready(s, i) && s.phases[i].Closed? && TemporaryOf(s.jobs[i]) in s.names
    ensures Next(H, s, Renamed(s, i))
  {
    assert Renames(s, Renamed(s, i), i);
    assert Steps(H, s, Renamed(s, i), i);
  }

  /** There is always an inode not in use. */
  lemma {:induction false} UnusedInode(used: set<nat>) returns (n: nat)
    ensures forall k :: k in used ==> k < n
    decreases |used|
  {
    if used == {} {
      n := 0;
    } else {
      var k :| k in used;
      var m := UnusedInode(used - {k});
      n := if k < m then m else k + 1;
      assert used == (used - {k}) + {k};
    }
  }

  function Last(states: seq<State>): State
    requires states != []
  {
    states[|states| - 1]
  }

  lemma Extended(H: Hash, states: seq<State>, t: State)
    requires Run(H, states) && Next(H, Last(states), t)
    ensures Run(H, states + [t]) && (states + [t])[0] == states[0] && Last(states + [t]) == t
  {
    hide Next, Initial;
    var more := states + [t];
    forall i | 0 <= i < |more| - 1 ensures Next(H, more[i], more[i + 1]) {
      if i < |states| - 1 { assert Next(H, states[i], states[i + 1]); }
    }
  }

  // ----- Clashes -----

  ghost predicate Clashes(s: State, k: nat) {
    k < |s.phases| && (s.phases[k].Leaving? || s.phases[k].Done?) && IsAccident(s.phases[k].outcome)
  }

  /** No run from s ever makes a publisher's work another's accident. */
  ghost predicate NeverClashes(H: Hash, s: State) {
    forall states: seq<State>, i: nat, k: nat ::
      Run(H, states) && states[0] == s && i < |states| ==> !Clashes(states[i], k)
  }

  lemma LeftoverClashes(H: Hash, s: State, i: nat)
    requires Initial(H, s) && i in Writers(H, s) && TemporaryOf(s.jobs[i]) in s.names
    ensures !NeverClashes(H, s)
  {
    var a := Put(s, i, SawNothing);
    var b := Put(a, i, Leaving(TemporaryTaken));
    var states := [s];
    Looks(H, s, i);
    FindsTaken(H, a, i);
    hide Next, Initial;
    Extended(H, states, a);
    Extended(H, states + [a], b);
    assert Clashes(Last(states + [a] + [b]), i);
  }

  lemma SharedClashes(H: Hash, s: State, i: nat, k: nat)
    requires Initial(H, s) && i in Writers(H, s) && k in Writers(H, s) && i != k
    requires TemporaryOf(s.jobs[i]) == TemporaryOf(s.jobs[k]) && TemporaryOf(s.jobs[k]) !in s.names
    ensures !NeverClashes(H, s)
  {
    hide Next, CollisionFree, Admissible;
    var n := UnusedInode(s.inodes.Keys);
    var a := Put(s, i, SawNothing);
    var b := Put(a, k, SawNothing);
    var c := Made(b, i, n);
    var d := Put(c, k, Leaving(TemporaryTaken));
    Looks(H, s, i);
    Looks(H, a, k);
    Makes(H, b, i, n);
    FindsTaken(H, c, k);
    Extended(H, [s], a);
    Extended(H, [s] + [a], b);
    Extended(H, [s] + [a] + [b], c);
    Extended(H, [s] + [a] + [b] + [c], d);
    assert Clashes(Last([s] + [a] + [b] + [c] + [d]), k);
  }

  /** Some run clashes, unless every writer's temporary name is new and its own; and then none does. */
  lemma ClashesExactly(H: Hash, s: State)
    requires CollisionFree(H) && Initial(H, s)
    ensures NeverClashes(H, s) <==> Private(H, s)
  {
    if Private(H, s) {
      forall states: seq<State>, i: nat, k: nat | Run(H, states) && states[0] == s && i < |states|
        ensures !Clashes(states[i], k)
      {
        RunLength(H, states, i);
        if k < |states[i].phases| { RunReports(H, states, i, k); }
      }
    } else {
      var n :| |Sharers(H, s, n)| > if n in s.names then 0 else 1;
      var sharers := Sharers(H, s, n);
      var i :| i in sharers;
      if n in s.names {
        LeftoverClashes(H, s, i);
      } else {
        assert |sharers - {i}| > 0;
        var k :| k in sharers - {i};
        SharedClashes(H, s, i, k);
      }
    }
  }

  lemma {:induction false} RunLength(H: Hash, states: seq<State>, i: nat)
    requires Run(H, states) && i < |states|
    ensures states[i].jobs == states[0].jobs && |states[i].phases| == |states[0].jobs|
  {
    hide Steps, Addressed;
    if i > 0 {
      RunLength(H, states, i - 1);
      var m := RunMover(H, states, i);
      StepPhase(H, states[i - 1], states[i], m);
    }
  }

  // ----- Published names that lie -----

  ghost predicate AlwaysTrue(H: Hash, s: State) {
    forall states: seq<State>, i: nat :: Run(H, states) && states[0] == s && i < |states| ==> Addressed(H, states[i])
  }

  /** Publishers i, j and k are about to look for their targets, which are absent, under one free temporary name. */
  ghost predicate Crowd(H: Hash, s: State, i: nat, j: nat, k: nat) {
    && Ready(s, i) && Ready(s, j) && Ready(s, k) && i != j && j != k && i != k
    && s.phases[i] == s.phases[j] == s.phases[k] == Fresh
    && Writer(H, s, i) && Writer(H, s, j) && Writer(H, s, k)
    && TemporaryOf(s.jobs[i]) == TemporaryOf(s.jobs[j]) == TemporaryOf(s.jobs[k])
    && TemporaryOf(s.jobs[k]) !in s.names
  }

  function AllLooked(s: State, i: nat, j: nat, k: nat): State
    requires i < |s.phases| && j < |s.phases| && k < |s.phases|
  {
    Put(Put(Put(s, i, SawNothing), j, SawNothing), k, SawNothing)
  }

  lemma CrowdLooks(H: Hash, states: seq<State>, i: nat, j: nat, k: nat) returns (more: seq<State>)
    requires Run(H, states) && Crowd(H, Last(states), i, j, k)
    ensures Run(H, more) && more[0] == states[0] && Last(more) == AllLooked(Last(states), i, j, k)
  {
    var s := Last(states);
    var a := Put(s, i, SawNothing);
    var b := Put(a, j, SawNothing);
    Looks(H, s, i);
    Looks(H, a, j);
    Looks(H, b, k);
    hide Next, Run, Crowd, Writer;
    Extended(H, states, a);
    Extended(H, states + [a], b);
    Extended(H, states + [a] + [b], AllLooked(s, i, j, k));
    more := states + [a] + [b] + [AllLooked(s, i, j, k)];
  }

  /** Publisher i creates, writes and closes its file. */
  lemma WritesFile(H: Hash, states: seq<State>, i: nat) returns (more: seq<State>, n: nat)
    requires Run(H, states) && Ready(Last(states), i) && Last(states).phases[i] == SawNothing
    requires Last(states).jobs[i].content != [] && TemporaryOf(Last(states).jobs[i]) !in Last(states).names
    ensures Run(H, more) && more[0] == states[0] && n !in Last(states).inodes
    ensures Last(more) == Put(WrittenOut(Made(Last(states), i, n), i, n), i, Closed(n))
  {
    var s := Last(states);
    n := UnusedInode(s.inodes.Keys);
    var a := Made(s, i, n);
    var b := WrittenOut(a, i, n);
    Makes(H, s, i, n);
    WritesOut(H, a, i, n);
    ClosesFile(H, b, i, n);
    hide Next, Run;
    Extended(H, states, a);
    Extended(H, states + [a], b);
    Extended(H, states + [a] + [b], Put(b, i, Closed(n)));
    more := states + [a] + [b] + [Put(b, i, Closed(n))];
  }

  /** A publisher finds the name taken, and unlinks it on its way out. */
  lemma TakesAway(H: Hash, states: seq<State>, j: nat) returns (more: seq<State>)
    requires Run(H, states) && Ready(Last(states), j) && Last(states).phases[j] == SawNothing
    requires TemporaryOf(Last(states).jobs[j]) in Last(states).names
    ensures Run(H, more) && more[0] == states[0] && Last(more) == Gone(Last(states), j, TemporaryTaken)
  {
    var s := Last(states);
    var a := Put(s, j, Leaving(TemporaryTaken));
    FindsTaken(H, s, j);
    Goes(H, a, j, TemporaryTaken);
    hide Next, Run;
    Extended(H, states, a);
    Extended(H, states + [a], Gone(a, j, TemporaryTaken));
    more := states + [a] + [Gone(a, j, TemporaryTaken)];
    assert Gone(a, j, TemporaryTaken) == Gone(s, j, TemporaryTaken);
  }

  /**
   * Three writers of one name: one writes its file, the second finds the name taken and unlinks it,
   * the third creates an empty file there, and the first renames that.
   */
  lemma CrowdLies(H: Hash, states: seq<State>, i: nat, j: nat, k: nat) returns (more: seq<State>)
    requires CollisionFree(H) && Run(H, states) && Crowd(H, Last(states), i, j, k)
    ensures Run(H, more) && more[0] == states[0] && !Addressed(H, Last(more))
  {
    var job := Last(states).jobs[i];
    assert job.content != [] && H(job.content) == job.digest;
    var looked := CrowdLooks(H, states, i, j, k);
    assert Last(looked).jobs == Last(states).jobs && Last(looked).names == Last(states).names;
    assert Last(looked).phases[i] == Last(looked).phases[j] == Last(looked).phases[k] == SawNothing;
    hide Run, Next, Crowd;
    var written, n := WritesFile(H, looked, i);
    var s := Last(written);
    assert s.phases[i] == Closed(n) && s.phases[j] == s.phases[k] == SawNothing && s.jobs == Last(states).jobs;
    var away := TakesAway(H, written, j);
    var t := Last(away);
    assert t.phases[i] == Closed(n) && t.phases[k] == SawNothing && TemporaryOf(job) !in t.names;
    more := LastLies(H, away, i, k);
  }

  lemma LastLies(H: Hash, states: seq<State>, i: nat, k: nat) returns (more: seq<State>)
    requires CollisionFree(H) && Run(H, states) && Ready(Last(states), i) && Ready(Last(states), k) && i != k
    requires Last(states).phases[i].Closed? && Last(states).phases[k] == SawNothing
    requires TemporaryOf(Last(states).jobs[i]) == TemporaryOf(Last(states).jobs[k])
    requires TemporaryOf(Last(states).jobs[k]) !in Last(states).names
    requires Last(states).jobs[i].content != [] && H(Last(states).jobs[i].content) == Last(states).jobs[i].digest
    ensures Run(H, more) && more[0] == states[0] && !Addressed(H, Last(more))
  {
    var s := Last(states);
    var m := UnusedInode(s.inodes.Keys);
    var a := Made(s, k, m);
    Makes(H, s, k, m);
    RenamesFile(H, a, i);
    var b := Renamed(a, i);
    hide Next, Run;
    Extended(H, states, a);
    Extended(H, states + [a], b);
    more := states + [a] + [b];
    var target := TargetOf(s.jobs[i]);
    assert target in b.names && b.names[target] == m && b.inodes[m] == [];
    assert H([]) != target.digest;
  }

  lemma Three(a: set<nat>) returns (i: nat, j: nat, k: nat)
    requires |a| >= 3
    ensures i in a && j in a && k in a && i != j && j != k && i != k
  {
    i :| i in a;
    var b := a - {i};
    assert |b| >= 2;
    j :| j in b;
    var c := b - {j};
    assert |c| >= 1;
    k :| k in c;
  }

  lemma CrowdedLies(H: Hash, s: State, n: Name)
    requires CollisionFree(H) && Initial(H, s) && |Sharers(H, s, n)| > if n in s.names then 3 else 2
    ensures !AlwaysTrue(H, s)
  {
    hide CollisionFree, Next, Admissible;
    var states, sharers := [s], Sharers(H, s, n);
    assert Run(H, states);
    if n in s.names {
      var m :| m in sharers;
      states := LeftoverCleared(H, s, m);
      sharers := sharers - {m};
    }
    var i, j, k := Three(sharers);
    assert Crowd(H, Last(states), i, j, k);
    var more := CrowdLies(H, states, i, j, k);
    assert !Addressed(H, more[|more| - 1]);
  }

  /** Every published name stays true in every run, unless three writers share a free temporary name. */
  lemma TruthExactly(H: Hash, s: State)
    requires CollisionFree(H) && Initial(H, s)
    ensures AlwaysTrue(H, s) <==> Roomy(H, s)
  {
    hide CollisionFree, Next, Sharers, Addressed;
    if Roomy(H, s) {
      forall states: seq<State>, i: nat | Run(H, states) && states[0] == s && i < |states|
        ensures Addressed(H, states[i])
      {
        PublishedNamesTellTruth(H, states, i);
      }
    } else {
      var n :| |Sharers(H, s, n)| > if n in s.names then 3 else 2;
      CrowdedLies(H, s, n);
    }
  }

  /** A fourth writer clears a leftover file away. */
  lemma LeftoverCleared(H: Hash, s: State, m: nat) returns (states: seq<State>)
    requires Initial(H, s) && m in Writers(H, s) && TemporaryOf(s.jobs[m]) in s.names
    ensures Run(H, states) && states[0] == s
    ensures Last(states) == Gone(s, m, TemporaryTaken)
  {
    var a := Put(s, m, SawNothing);
    Looks(H, s, m);
    assert Run(H, [s]);
    hide Next, Initial;
    Extended(H, [s], a);
    states := TakesAway(H, [s] + [a], m);
    assert Gone(a, m, TemporaryTaken) == Gone(s, m, TemporaryTaken);
  }
}
