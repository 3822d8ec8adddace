/**
 * The workspace's authority over which case and run it shows: a reducer over events, and what a
 * response that arrives late may and may not change.
 */
module WorkspaceAuthority {
  import opened Common

  /** An identifier, or null. */
  type Id = Option<string>

  datatype Status = Idle | Loading | Ready | Failed

  datatype Context = Context(generation: nat, caseId: Id, runId: Id)

  datatype Pending = Pending(scope: string, context: Context)

  datatype State = State(
    caseId: Id,
    runId: Id,
    hydrated: bool,
    status: Status,
    generation: nat,
    pending: Option<Pending>)

  datatype Event =
    | Hydrate(caseId: Id, runId: Id)
    | SelectCase(caseId: Id)
    | SelectRun(inCase: string, run: string)
    | RequestStarted(scope: string)
    | RequestSucceeded(context: Context, scope: string)
    | RequestFailed(context: Context, scope: string)
    | InvalidateCase(lostCase: string)
    | InvalidateRun(inCase: string, run: string)

  const CASE := "case"

  const INITIAL := State(None, None, false, Idle, 0, None)

  /** Both null and the empty string are falsy. */
  predicate Truthy(id: Id) {
    id.Some? && id.value != ""
  }

  function RequestContext(s: State): Context {
    Context(s.generation, s.caseId, s.runId)
  }

  predicate MatchesAuthority(s: State, c: Context) {
    c.generation == s.generation && c.caseId == s.caseId && c.runId == s.runId
  }

  predicate MatchesPending(s: State, scope: string, c: Context) {
    && scope == CASE && MatchesAuthority(s, c)
    && (s.pending.Some? ==>
          && s.pending.value.scope == CASE
          && s.pending.value.context.generation == c.generation
          && s.pending.value.context.caseId == c.caseId
          && s.pending.value.context.runId == c.runId)
  }

  /** A pending request for the case, in the generation being opened. */
  function PendingFor(generation: nat, caseId: Id, runId: Id): Option<Pending> {
    Some(Pending(CASE, Context(generation, caseId, runId)))
  }

  function Reduce(s: State, e: Event): State {
    var generation := s.generation + 1;
    match e
    case Hydrate(caseId, wanted) =>
      var runId := if Truthy(caseId) then wanted else None;
      if s.hydrated && s.caseId == caseId && s.runId == runId then s
      else State(caseId, runId, true, if Truthy(caseId) then Loading else Idle, generation,
                 if Truthy(caseId) then PendingFor(generation, caseId, runId) else None)
    case SelectCase(caseId) =>
      if s.caseId == caseId then s
      else s.(caseId := caseId, runId := None, status := if Truthy(caseId) then Loading else Idle,
              generation := generation,
              pending := if Truthy(caseId) then PendingFor(generation, caseId, None) else None)
    case SelectRun(inCase, run) =>
      if s.caseId != Some(inCase) || s.runId == Some(run) then s
      else s.(runId := Some(run), status := Loading, generation := generation,
              pending := PendingFor(generation, s.caseId, Some(run)))
    case RequestStarted(scope) =>
      if scope != CASE || !Truthy(s.caseId) then s
      else s.(status := Loading, generation := generation, pending := PendingFor(generation, s.caseId, s.runId))
    case RequestSucceeded(context, scope) =>
      if !MatchesPending(s, scope, context) then s else s.(status := Ready, pending := None)
    case RequestFailed(context, scope) =>
      if !MatchesPending(s, scope, context) then s else s.(status := Failed, pending := None)
    case InvalidateCase(lost) =>
      if s.caseId != Some(lost) then s
      else s.(caseId := None, runId := None, status := Idle, generation := generation, pending := None)
    case InvalidateRun(inCase, run) =>
      if s.caseId != Some(inCase) || s.runId != Some(run) then s
      else s.(runId := None, status := Loading, generation := generation,
              pending := PendingFor(generation, s.caseId, None))
  }

  // ----- What every event keeps -----

  /** Loading and pending are the same thing, and what is pending is what is shown. */
  predicate Inv(s: State) {
    && (s.status == Loading <==> s.pending.Some?)
    && (s.pending.Some? ==> s.pending.value == Pending(CASE, RequestContext(s)))
    && (s.caseId.None? ==> s.runId.None?)
  }

  lemma ReduceKeepsInv(s: State, e: Event)
    requires Inv(s)
    ensures Inv(Reduce(s, e))
  {
  }

  /** A run of the reducer from the initial state: one more state than events. */
  function Run(events: seq<Event>): (states: seq<State>)
    ensures |states| == |events| + 1 && states[0] == INITIAL
    ensures forall i :: 0 <= i < |events| ==> states[i + 1] == Reduce(states[i], events[i])
  {
    if events == [] then [INITIAL]
    else
      var front := Run(events[..|events| - 1]);
      front + [Reduce(front[|front| - 1], events[|events| - 1])]
  }

  lemma {:induction false} RunInv(events: seq<Event>, i: nat)
    requires i <= |events|
    ensures Inv(Run(events)[i])
  {
    if i > 0 {
      RunInv(events, i - 1);
      ReduceKeepsInv(Run(events)[i - 1], events[i - 1]);
    }
  }

  /** The third comparison a response must pass never decides anything on a reachable state. */
  lemma PendingClauseRedundant(events: seq<Event>, i: nat, scope: string, c: Context)
    requires i <= |events|
    ensures MatchesPending(Run(events)[i], scope, c) <==> scope == CASE && MatchesAuthority(Run(events)[i], c)
  {
    RunInv(events, i);
  }

  // ----- Captured contexts -----

  /** Case, run and generation are the same in every state from i to j. */
  ghost predicate Unchanged(events: seq<Event>, i: nat, j: nat)
    requires i <= j <= |events|
  {
    forall k :: i <= k <= j ==> RequestContext(Run(events)[k]) == RequestContext(Run(events)[i])
  }

  lemma StepOpensOrKeeps(s: State, e: Event)
    ensures var t := Reduce(s, e);
            t.generation == s.generation + 1 || RequestContext(t) == RequestContext(s)
  {
  }

  lemma {:induction false} GenerationsGrow(events: seq<Event>, i: nat, j: nat)
    requires i <= j <= |events|
    ensures Run(events)[i].generation <= Run(events)[j].generation
    decreases j
  {
    if i < j {
      GenerationsGrow(events, i, j - 1);
      StepOpensOrKeeps(Run(events)[j - 1], events[j - 1]);
    }
  }

  lemma {:induction false} SameGenerationUnchanged(events: seq<Event>, i: nat, j: nat)
    requires i <= j <= |events| && Run(events)[i].generation == Run(events)[j].generation
    ensures Unchanged(events, i, j)
    decreases j
  {
    if i < j {
      GenerationsGrow(events, i, j - 1);
      StepOpensOrKeeps(Run(events)[j - 1], events[j - 1]);
      SameGenerationUnchanged(events, i, j - 1);
    }
  }

  /**
   * A context captured at i matches at j exactly when nothing changed at any state between: showing
   * another case or run and coming back does not readmit it.
   */
  lemma CapturedContextMatchesExactly(events: seq<Event>, i: nat, j: nat)
    requires i <= j <= |events|
    ensures MatchesAuthority(Run(events)[j], RequestContext(Run(events)[i])) <==> Unchanged(events, i, j)
  {
    if Run(events)[i].generation == Run(events)[j].generation {
      SameGenerationUnchanged(events, i, j);
    }
  }

  /** The response to a request made under context c. */
  function Response(c: Context, ok: bool, scope: string): Event {
    if ok then RequestSucceeded(c, scope) else RequestFailed(c, scope)
  }

  function Settled(s: State, ok: bool): State {
    s.(status := if ok then Ready else Failed, pending := None)
  }

  lemma ResponseEffect(s: State, c: Context, ok: bool, scope: string)
    requires Inv(s)
    ensures Reduce(s, Response(c, ok, scope)) == if scope == CASE && MatchesAuthority(s, c) then Settled(s, ok) else s
  {
  }

  /**
   * What a response may do, in full: settle the request it answers if the authority it was captured
   * under still stands, and nothing otherwise.
   */
  lemma LateResponseExactly(events: seq<Event>, i: nat, j: nat, ok: bool, scope: string)
    requires i <= j <= |events|
    ensures var s := Run(events)[j];
            Reduce(s, Response(RequestContext(Run(events)[i]), ok, scope)) ==
            if scope == CASE && Unchanged(events, i, j) then Settled(s, ok) else s
  {
    CapturedContextMatchesExactly(events, i, j);
    RunInv(events, j);
    ResponseEffect(Run(events)[j], RequestContext(Run(events)[i]), ok, scope);
  }

  // ----- What a settled workspace means -----

  predicate Settles(e: Event, status: Status, c: Context) {
    || (status == Ready && e == RequestSucceeded(c, CASE))
    || (status == Failed && e == RequestFailed(c, CASE))
  }

  /** Ready or failed is always the word of a response captured for exactly what is shown. */
  lemma {:induction false} SettledByOwnResponse(events: seq<Event>, j: nat) returns (i: nat)
    requires j <= |events| && Run(events)[j].status in {Ready, Failed}
    ensures i < j && Settles(events[i], Run(events)[j].status, RequestContext(Run(events)[j]))
    ensures Unchanged(events, i, j) && Run(events)[j].pending.None?
  {
    RunInv(events, j);
    var s, e := Run(events)[j - 1], events[j - 1];
    if Settles(e, Run(events)[j].status, RequestContext(Run(events)[j])) {
      i := j - 1;
    } else {
      i := SettledByOwnResponse(events, j - 1);
    }
    assert RequestContext(Run(events)[j]) == RequestContext(s);
  }

  // ----- Stale responses drop out of whole runs -----

  function Final(s: State, events: seq<Event>): State
    decreases |events|
  {
    if events == [] then s else Final(Reduce(s, events[0]), events[1..])
  }

  predicate Stale(s: State, e: Event) {
    (e.RequestSucceeded? || e.RequestFailed?) && !MatchesAuthority(s, e.context)
  }

  function WithoutStale(s: State, events: seq<Event>): seq<Event>
    decreases |events|
  {
    if events == [] then []
    else if Stale(s, events[0]) then WithoutStale(s, events[1..])
    else [events[0]] + WithoutStale(Reduce(s, events[0]), events[1..])
  }

  /** The workspace ends as if no stale response had ever arrived. */
  lemma {:induction false} StaleResponsesInvisible(s: State, events: seq<Event>)
    ensures Final(s, WithoutStale(s, events)) == Final(s, events)
    decreases |events|
  {
    if events != [] {
      if Stale(s, events[0]) {
        StaleResponsesInvisible(s, events[1..]);
      } else {
        StaleResponsesInvisible(Reduce(s, events[0]), events[1..]);
        var rest := WithoutStale(Reduce(s, events[0]), events[1..]);
        assert ([events[0]] + rest)[1..] == rest;
      }
    }
  }

  // ----- Requests never move the user -----

  predicate SamePlace(s: State, t: State) {
    s.caseId == t.caseId && s.runId == t.runId && s.hydrated == t.hydrated
  }

  predicate Navigates(e: Event) {
    e.Hydrate? || e.SelectCase? || e.SelectRun? || e.InvalidateCase? || e.InvalidateRun?
  }

  function NavigationOf(events: seq<Event>): seq<Event> {
    if events == [] then []
    else (if Navigates(events[0]) then [events[0]] else []) + NavigationOf(events[1..])
  }

  /** The case and run shown depend on navigation alone: requests and responses may come and go. */
  lemma {:induction false} RequestsNeverMove(s: State, t: State, events: seq<Event>)
    requires SamePlace(s, t)
    ensures SamePlace(Final(s, events), Final(t, NavigationOf(events)))
    decreases |events|
  {
    if events != [] {
      var e, rest := events[0], NavigationOf(events[1..]);
      if Navigates(e) {
        RequestsNeverMove(Reduce(s, e), Reduce(t, e), events[1..]);
        assert ([e] + rest)[1..] == rest;
      } else {
        RequestsNeverMove(Reduce(s, e), t, events[1..]);
        assert [] + rest == rest;
      }
    }
  }

  // ----- What navigation shows -----

  /** The case an event asks for, whatever is shown: null may be asked for too. */
  function CaseNamed(e: Event): Option<Id> {
    match e
    case Hydrate(caseId, _) => Some(caseId)
    case SelectCase(caseId) => Some(caseId)
    case _ => None
  }

  /** Event i is the last before j to ask for a case. */
  ghost predicate LastNaming(events: seq<Event>, i: nat, j: nat) {
    i < j <= |events| && CaseNamed(events[i]).Some? && forall k :: i < k < j ==> CaseNamed(events[k]).None?
  }

  /** Some event between i and j took this case away. */
  ghost predicate LostSince(events: seq<Event>, i: nat, j: nat, id: Id) {
    exists k :: i < k < j <= |events| && id.Some? && events[k] == InvalidateCase(id.value)
  }

  lemma CaseStep(s: State, e: Event)
    ensures Reduce(s, e).caseId ==
      if CaseNamed(e).Some? then CaseNamed(e).value
      else if e.InvalidateCase? && s.caseId == Some(e.lostCase) then None
      else s.caseId
  {
  }

  /** The case shown is the one last asked for, or null once it was lost. */
  lemma {:induction false} CaseShown(events: seq<Event>, i: nat, j: nat)
    requires LastNaming(events, i, j)
    ensures var id := CaseNamed(events[i]).value;
            Run(events)[j].caseId == if LostSince(events, i, j, id) then None else id
    decreases j
  {
    hide Reduce;
    var id := CaseNamed(events[i]).value;
    CaseStep(Run(events)[j - 1], events[j - 1]);
    if i < j - 1 {
      CaseShown(events, i, j - 1);
      LostStep(events, i, j, id);
    }
  }

  lemma LostStep(events: seq<Event>, i: nat, j: nat, id: Id)
    requires i < j - 1 && j <= |events|
    ensures LostSince(events, i, j, id) <==>
      LostSince(events, i, j - 1, id) || (id.Some? && events[j - 1] == InvalidateCase(id.value))
  {
  }

  /** Before any case is asked for, none is shown. */
  lemma {:induction false} NoCaseShown(events: seq<Event>, j: nat)
    requires j <= |events| && forall k :: 0 <= k < j ==> CaseNamed(events[k]).None?
    ensures Run(events)[j].caseId.None?
  {
    if j > 0 {
      NoCaseShown(events, j - 1);
      CaseStep(Run(events)[j - 1], events[j - 1]);
    }
  }

  /** Event i brings run r of case c to the screen. */
  ghost predicate Shows(events: seq<Event>, i: nat, c: string, r: string)
    requires i < |events|
  {
    || (events[i] == Hydrate(Some(c), Some(r)) && c != "")
    || (events[i] == SelectRun(c, r) && Run(events)[i].caseId == Some(c))
  }

  /** An event that takes run r of case c off the screen. */
  predicate Displaces(e: Event, c: string, r: string) {
    match e
    case Hydrate(caseId, runId) => !(c != "" && caseId == Some(c) && runId == Some(r))
    case SelectCase(caseId) => caseId != Some(c)
    case SelectRun(inCase, run) => inCase == c && run != r
    case InvalidateCase(lost) => lost == c
    case InvalidateRun(inCase, run) => inCase == c && run == r
    case _ => false
  }

  predicate Showing(s: State, c: string, r: string) {
    s.caseId == Some(c) && s.runId == Some(r)
  }

  lemma ShowingStep(s: State, e: Event, c: string, r: string)
    ensures Showing(Reduce(s, e), c, r) <==>
      || (e == Hydrate(Some(c), Some(r)) && c != "")
      || (e == SelectRun(c, r) && s.caseId == Some(c))
      || (Showing(s, c, r) && !Displaces(e, c, r))
  {
  }

  /** Event i brings run r of case c up, and nothing before j takes it away. */
  ghost predicate Stands(events: seq<Event>, i: nat, j: nat, c: string, r: string) {
    i < j <= |events| && Shows(events, i, c, r) && forall k :: i < k < j ==> !Displaces(events[k], c, r)
  }

  lemma StandsStep(events: seq<Event>, i: nat, j: nat, c: string, r: string)
    requires 0 < j <= |events|
    ensures Stands(events, i, j, c, r) <==>
      || (i == j - 1 && Shows(events, i, c, r))
      || (Stands(events, i, j - 1, c, r) && !Displaces(events[j - 1], c, r))
  {
    hide Displaces, Shows;
  }

  /**
   * A run is shown under a case exactly when some event brought that run of that case up and nothing
   * since has taken it away.
   */
  lemma {:induction false} RunShownExactly(events: seq<Event>, j: nat, c: string, r: string)
    requires j <= |events|
    ensures Showing(Run(events)[j], c, r) <==> exists i: nat :: Stands(events, i, j, c, r)
  {
    hide Reduce, Displaces;
    if j > 0 {
      RunShownExactly(events, j - 1, c, r);
      ShowingStep(Run(events)[j - 1], events[j - 1], c, r);
      forall i: nat
        ensures Stands(events, i, j, c, r) <==>
          || (i == j - 1 && Shows(events, i, c, r))
          || (Stands(events, i, j - 1, c, r) && !Displaces(events[j - 1], c, r))
      {
        StandsStep(events, i, j, c, r);
      }
      assert Stands(events, j - 1, j, c, r) <==> Shows(events, j - 1, c, r);
    }
  }

  /** Whatever run is shown was asked for, in the case it is shown under, and has been shown ever since. */
  lemma {:induction false} RunWasAskedFor(events: seq<Event>, j: nat, c: string, r: string) returns (i: nat)
    requires j <= |events| && Showing(Run(events)[j], c, r)
    ensures i < j && (events[i] == Hydrate(Some(c), Some(r)) || events[i] == SelectRun(c, r))
    ensures forall k :: i < k <= j ==> Showing(Run(events)[k], c, r)
  {
    ShowingStep(Run(events)[j - 1], events[j - 1], c, r);
    hide Reduce, Displaces, Showing;
    if Showing(Run(events)[j - 1], c, r) {
      i := RunWasAskedFor(events, j - 1, c, r);
    } else {
      i := j - 1;
    }
  }

  /** From one state to the next something asks for the case anew: what is shown changes, or the case is requested. */
  predicate AsksAnew(s: State, e: Event, t: State) {
    || t.caseId != s.caseId || t.runId != s.runId || (e.Hydrate? && !s.hydrated)
    || (e == RequestStarted("case") && s.caseId.Some? && s.caseId.value != "")
  }

  /**
   * Every change of what is shown, every first hydration and every request for a case opens a new
   * generation, and under a case it is loading what is now shown; under none it is idle. Nothing else
   * opens one, and nothing else but a response does anything.
   */
  lemma ChangeOpensRequest(s: State, e: Event)
    ensures var t := Reduce(s, e);
            if AsksAnew(s, e, t) then
              && t.generation == s.generation + 1 && t.hydrated == (s.hydrated || e.Hydrate?)
              && (Truthy(t.caseId) ==> t.status == Loading && t.pending == Some(Pending("case", RequestContext(t))))
              && (t.caseId.None? ==> t.status == Idle && t.pending.None? && t.runId.None?)
            else
              && t.generation == s.generation && t.hydrated == s.hydrated
              && (t != s ==> (e.RequestSucceeded? && t.status == Ready) || (e.RequestFailed? && t.status == Failed))
  {
  }

  /** How many of the first j events asked for the case anew. */
  function TimesAsked(events: seq<Event>, j: nat): nat
    requires j <= |events|
  {
    if j == 0 then 0
    else TimesAsked(events, j - 1) + (if AsksAnew(Run(events)[j - 1], events[j - 1], Run(events)[j]) then 1 else 0)
  }

  /** The generation counts exactly how often the case was asked for anew. */
  lemma {:induction false} GenerationCounts(events: seq<Event>, j: nat)
    requires j <= |events|
    ensures Run(events)[j].generation == TimesAsked(events, j)
  {
    hide Reduce, AsksAnew;
    if j > 0 {
      GenerationCounts(events, j - 1);
      ChangeOpensRequest(Run(events)[j - 1], events[j - 1]);
    }
  }
}
