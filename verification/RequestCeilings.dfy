/**
 * The per-subject request ceiling: token buckets in a map that drops idle
 * entries. Time and tokens are exact reals and the clock is a parameter.
 */
module RequestCeilings {
  import opened Common

  const EVICT_ABOVE := 4096

  datatype Bucket = Bucket(tokens: real, last: real)

  function RealMin(a: real, b: real): real {
    if a <= b then a else b
  }

  /** Tokens earned in dt seconds. */
  function Gain(capacity: real, dt: real): real {
    dt * capacity / 60.0
  }

  function Find(buckets: map<string, Bucket>, subject: string): Option<Bucket> {
    if subject in buckets then Some(buckets[subject]) else None
  }

  /** Tokens available at an instant; a subject with no bucket has a full one. */
  function Level(capacity: real, b: Option<Bucket>, now: real): real {
    match b
    case None => capacity
    case Some(bucket) => RealMin(capacity, bucket.tokens + Gain(capacity, now - bucket.last))
  }

  /** Entries idle for a minute or more are dropped. */
  function Evict(buckets: map<string, Bucket>, now: real): map<string, Bucket> {
    map s | s in buckets && now - buckets[s].last < 60.0 :: buckets[s]
  }

  function Spend(capacity: real, buckets: map<string, Bucket>, subject: string, now: real)
    : (map<string, Bucket>, bool)
  {
    var tokens := Level(capacity, Find(buckets, subject), now);
    if tokens < 1.0 then (buckets[subject := Bucket(tokens, now)], false)
    else
      var kept := if |buckets| > EVICT_ABOVE then Evict(buckets, now) else buckets;
      (kept[subject := Bucket(tokens - 1.0, now)], true)
  }

  class Ceilings {
    const capacity: real
    var buckets: map<string, Bucket>

    constructor (rateLimitPerMinute: int)
      ensures capacity == rateLimitPerMinute as real && buckets == map[]
    {
      capacity, buckets := rateLimitPerMinute as real, map[];
    }

    method TakeToken(subject: string, now: real) returns (admitted: bool)
      modifies this
      ensures (buckets, admitted) == Spend(capacity, old(buckets), subject, now)
    {
      var tokens, last := capacity, now;
      if subject in buckets {
        tokens, last := buckets[subject].tokens, buckets[subject].last;
      }
      tokens := RealMin(capacity, tokens + (now - last) * capacity / 60.0);
      if tokens < 1.0 {
        buckets := buckets[subject := Bucket(tokens, now)];
        return false;
      }
      if |buckets| > EVICT_ABOVE {
        buckets := map s | s in buckets && now - buckets[s].last < 60.0 :: buckets[s];
      }
      buckets := buckets[subject := Bucket(tokens - 1.0, now)];
      return true;
    }
  }

  /**
   * What bounds the map: a call admitted while it holds more than 4096 entries leaves only entries
   * of the last minute beside its own. Entries are dropped by no other call, and altered by none.
   */
  lemma IdleEntriesDropped(capacity: real, buckets: map<string, Bucket>, subject: string, now: real, other: string)
    requires other != subject
    ensures var (kept, admitted) := Spend(capacity, buckets, subject, now);
            && (other in kept <==>
                 other in buckets && !(admitted && |buckets| > 4096 && now - buckets[other].last >= 60.0))
            && (other in kept ==> kept[other] == buckets[other])
  {
    hide Level;
  }

  // ----- Traces of calls -----

  datatype Call = Call(subject: string, now: real)

  ghost predicate ClockAdvances(trace: seq<Call>) {
    forall i, j :: 0 <= i < j < |trace| ==> trace[i].now <= trace[j].now
  }

  function BucketsAfter(capacity: real, trace: seq<Call>): map<string, Bucket> {
    if trace == [] then map[]
    else
      var c := trace[|trace| - 1];
      Spend(capacity, BucketsAfter(capacity, trace[..|trace| - 1]), c.subject, c.now).0
  }

  function AnswerAt(capacity: real, trace: seq<Call>, i: nat): bool
    requires i < |trace|
  {
    Spend(capacity, BucketsAfter(capacity, trace[..i]), trace[i].subject, trace[i].now).1
  }

  /** The simple bucket: one subject, never dropped. */
  function Solo(capacity: real, b: Option<Bucket>, now: real): (Bucket, bool) {
    var tokens := Level(capacity, b, now);
    if tokens < 1.0 then (Bucket(tokens, now), false) else (Bucket(tokens - 1.0, now), true)
  }

  function SoloAfter(capacity: real, times: seq<real>): Option<Bucket> {
    if times == [] then None
    else Some(Solo(capacity, SoloAfter(capacity, times[..|times| - 1]), times[|times| - 1]).0)
  }

  function TimesOf(subject: string, trace: seq<Call>): seq<real> {
    if trace == [] then []
    else
      TimesOf(subject, trace[..|trace| - 1]) +
      (if trace[|trace| - 1].subject == subject then [trace[|trace| - 1].now] else [])
  }

  lemma GainBasics(capacity: real, a: real, b: real)
    ensures Gain(capacity, a) + Gain(capacity, b) == Gain(capacity, a + b)
    ensures Gain(capacity, 60.0) == capacity && Gain(capacity, 0.0) == 0.0
    ensures capacity >= 0.0 && a <= b ==> Gain(capacity, a) <= Gain(capacity, b)
  {
    if capacity >= 0.0 && a <= b {
      assert (b - a) * capacity >= 0.0;
      assert b * capacity == a * capacity + (b - a) * capacity;
    }
  }

  /** What a stored bucket looks like at time now, under any capacity. */
  ghost predicate Sane(capacity: real, b: Option<Bucket>, now: real) {
    b.Some? ==> b.value.last <= now && (capacity >= 0.0 ==> b.value.tokens >= 0.0)
  }

  lemma LevelSane(capacity: real, b: Option<Bucket>, now: real)
    requires Sane(capacity, b, now)
    ensures capacity >= 0.0 ==> Level(capacity, b, now) >= 0.0
    ensures capacity >= 0.0 && b.Some? && now - b.value.last >= 60.0 ==> Level(capacity, b, now) == capacity
  {
    if b.Some? {
      GainBasics(capacity, 60.0, now - b.value.last);
      GainBasics(capacity, 0.0, now - b.value.last);
    }
  }

  /** A call leaves every subject's stored bucket sane. */
  lemma {:induction false} BucketsSane(capacity: real, trace: seq<Call>, subject: string, now: real)
    requires ClockAdvances(trace) && (trace == [] || trace[|trace| - 1].now <= now)
    ensures Sane(capacity, Find(BucketsAfter(capacity, trace), subject), now)
  {
    if trace != [] {
      var front, c := trace[..|trace| - 1], trace[|trace| - 1];
      BucketsSane(capacity, front, subject, c.now);
      LevelSane(capacity, Find(BucketsAfter(capacity, front), subject), c.now);
    }
  }

  /** Another subject's call, eviction included, does not change what a subject has available. */
  lemma OthersKeepLevel(capacity: real, buckets: map<string, Bucket>, c: Call, subject: string, now: real)
    requires c.subject != subject && c.now <= now
    requires Sane(capacity, Find(buckets, subject), c.now)
    ensures Level(capacity, Find(Spend(capacity, buckets, c.subject, c.now).0, subject), now)
         == Level(capacity, Find(buckets, subject), now)
  {
    LevelSane(capacity, Find(buckets, subject), now);
  }

  /** The evicting map offers each subject exactly what its own never-evicted bucket would. */
  lemma {:induction false} LevelsAgree(capacity: real, trace: seq<Call>, subject: string, now: real)
    requires ClockAdvances(trace) && (trace == [] || trace[|trace| - 1].now <= now)
    ensures Level(capacity, Find(BucketsAfter(capacity, trace), subject), now)
         == Level(capacity, SoloAfter(capacity, TimesOf(subject, trace)), now)
  {
    hide Gain, RealMin;
    if trace != [] {
      var front, c := trace[..|trace| - 1], trace[|trace| - 1];
      if c.subject == subject {
        LevelsAgree(capacity, front, subject, c.now);
        assert TimesOf(subject, trace)[..|TimesOf(subject, front)|] == TimesOf(subject, front);
      } else {
        LevelsAgree(capacity, front, subject, now);
        BucketsSane(capacity, front, subject, c.now);
        OthersKeepLevel(capacity, BucketsAfter(capacity, front), c, subject, now);
        assert TimesOf(subject, trace) == TimesOf(subject, front);
      }
    }
  }

  /**
   * Refinement: on every trace with a clock that never goes back, each call is answered as the
   * caller's own never-evicted bucket answers it. Other subjects and evictions never show.
   */
  lemma EvictionInvisible(capacity: real, trace: seq<Call>, i: nat)
    requires ClockAdvances(trace) && i < |trace|
    ensures AnswerAt(capacity, trace, i)
        <==> Solo(capacity, SoloAfter(capacity, TimesOf(trace[i].subject, trace[..i])), trace[i].now).1
  {
    LevelsAgree(capacity, trace[..i], trace[i].subject, trace[i].now);
  }

  // ----- The rate bound, and that nothing tighter is enforced -----

  /** How many calls of one subject are admitted from position a on. */
  function Admitted(capacity: real, trace: seq<Call>, subject: string, a: nat): nat
    requires a <= |trace|
    decreases |trace|
  {
    if |trace| == a then 0
    else
      var n := |trace| - 1;
      Admitted(capacity, trace[..n], subject, a) +
      (if trace[n].subject == subject && AnswerAt(capacity, trace, n) then 1 else 0)
  }

  /** When the window from position a opens; the empty window opens now. */
  function Opens(trace: seq<Call>, a: nat, now: real): real
    requires a <= |trace|
  {
    if a < |trace| then trace[a].now else now
  }

  function LevelAfter(capacity: real, trace: seq<Call>, subject: string, now: real): real {
    Level(capacity, Find(BucketsAfter(capacity, trace), subject), now)
  }

  /** What the last call does to a subject's level. */
  lemma LevelStep(capacity: real, trace: seq<Call>, subject: string, now: real)
    requires ClockAdvances(trace) && trace != [] && trace[|trace| - 1].now <= now
    ensures var n := |trace| - 1;
            var after := LevelAfter(capacity, trace, subject, now);
            if trace[n].subject != subject then after == LevelAfter(capacity, trace[..n], subject, now)
            else
              var spent := if AnswerAt(capacity, trace, n) then 1.0 else 0.0;
              var before := LevelAfter(capacity, trace[..n], subject, trace[n].now);
              after == RealMin(capacity, before - spent + Gain(capacity, now - trace[n].now))
  {
    var n := |trace| - 1;
    if trace[n].subject != subject {
      BucketsSane(capacity, trace[..n], subject, trace[n].now);
      OthersKeepLevel(capacity, BucketsAfter(capacity, trace[..n]), trace[n], subject, now);
    }
  }

  lemma LevelCapped(capacity: real, trace: seq<Call>, subject: string, now: real)
    ensures LevelAfter(capacity, trace, subject, now) <= capacity
    ensures trace == [] ==> LevelAfter(capacity, trace, subject, now) == capacity
  {
  }

  lemma ClockAdvancesBefore(trace: seq<Call>)
    requires ClockAdvances(trace) && trace != []
    ensures ClockAdvances(trace[..|trace| - 1])
    ensures |trace| > 1 ==> trace[|trace| - 2].now <= trace[|trace| - 1].now
  {
  }

  /** Every window: what was admitted in it and what is left stay within what it could earn. */
  lemma {:induction false} WindowBudget(capacity: real, trace: seq<Call>, subject: string, a: nat, now: real)
    requires capacity >= 0.0 && ClockAdvances(trace) && a <= |trace|
    requires trace == [] || trace[|trace| - 1].now <= now
    ensures Admitted(capacity, trace, subject, a) as real + LevelAfter(capacity, trace, subject, now)
         <= capacity + Gain(capacity, now - Opens(trace, a, now))
    decreases |trace|
  {
    hide LevelAfter, Gain, AnswerAt, ClockAdvances;
    GainBasics(capacity, 0.0, 0.0);
    if a == |trace| {
      LevelCapped(capacity, trace, subject, now);
    } else {
      var n := |trace| - 1;
      ClockAdvancesBefore(trace);
      LevelStep(capacity, trace, subject, now);
      if trace[n].subject == subject {
        WindowBudget(capacity, trace[..n], subject, a, trace[n].now);
        GainBasics(capacity, trace[n].now - trace[a].now, now - trace[n].now);
      } else {
        WindowBudget(capacity, trace[..n], subject, a, now);
        GainBasics(capacity, now - Opens(trace[..n], a, now), now - trace[a].now);
      }
    }
  }

  /** Some window is exactly spent: the level is what that window has left. */
  lemma {:induction false} LevelAttained(capacity: real, trace: seq<Call>, subject: string, now: real) returns (a: nat)
    requires ClockAdvances(trace) && (trace == [] || trace[|trace| - 1].now <= now)
    ensures a <= |trace| && (a < |trace| ==> trace[a].subject == subject)
    ensures LevelAfter(capacity, trace, subject, now)
         == capacity + Gain(capacity, now - Opens(trace, a, now)) - Admitted(capacity, trace, subject, a) as real
    decreases |trace|
  {
    hide LevelAfter, Gain, AnswerAt, ClockAdvances;
    a := |trace|;
    GainBasics(capacity, 0.0, 0.0);
    LevelCapped(capacity, trace, subject, now);
    if trace != [] {
      var n := |trace| - 1;
      ClockAdvancesBefore(trace);
      LevelStep(capacity, trace, subject, now);
      if trace[n].subject != subject {
        a := LevelAttained(capacity, trace[..n], subject, now);
        if a == n { a := |trace|; }
      } else if LevelAfter(capacity, trace, subject, now) != capacity {
        a := LevelAttained(capacity, trace[..n], subject, trace[n].now);
        GainBasics(capacity, trace[n].now - Opens(trace[..n], a, trace[n].now), now - trace[n].now);
      }
    }
  }

  /**
   * The rate bound: in any window of T seconds a subject is admitted at most
   * capacity + capacity * T / 60 times, whatever else is interleaved.
   */
  lemma RateBound(capacity: real, trace: seq<Call>, subject: string, a: nat, T: real)
    requires capacity >= 0.0 && ClockAdvances(trace) && a < |trace|
    requires trace[|trace| - 1].now - trace[a].now <= T
    ensures Admitted(capacity, trace, subject, a) as real <= capacity + capacity * T / 60.0
  {
    var now := trace[|trace| - 1].now;
    WindowBudget(capacity, trace, subject, a, now);
    BucketsSane(capacity, trace, subject, now);
    LevelSane(capacity, Find(BucketsAfter(capacity, trace), subject), now);
    GainBasics(capacity, now - trace[a].now, T);
    assert Gain(capacity, T) == capacity * T / 60.0;
  }

  ghost predicate FitsEveryWindow(capacity: real, trace: seq<Call>, i: nat)
    requires i < |trace|
  {
    forall a :: 0 <= a <= i ==>
      Admitted(capacity, trace[..i], trace[i].subject, a) as real + 1.0
      <= capacity + Gain(capacity, trace[i].now - trace[a].now)
  }

  /**
   * The bound is all that is enforced: a call is admitted exactly when counting it keeps the
   * bound in every window ending at it.
   */
  lemma AdmittedExactly(capacity: real, trace: seq<Call>, i: nat)
    requires capacity >= 0.0 && ClockAdvances(trace) && i < |trace|
    ensures AnswerAt(capacity, trace, i) <==> FitsEveryWindow(capacity, trace, i)
  {
    hide BucketsAfter, Gain, Admitted;
    var front, c := trace[..i], trace[i];
    forall a | 0 <= a <= i && AnswerAt(capacity, trace, i)
      ensures Admitted(capacity, front, c.subject, a) as real + 1.0 <= capacity + Gain(capacity, c.now - trace[a].now)
    {
      WindowBudget(capacity, front, c.subject, a, c.now);
    }
    var a := LevelAttained(capacity, front, c.subject, c.now);
    assert Opens(front, a, c.now) == trace[a].now;
  }
}
