/** The token buckets of the hub (internal/hub/server.go, `rateLimiter`), with times and tokens as reals. */
module RateLimiter {
  import opened Ordering

  datatype Bucket = Bucket(tokens: real, updated: real)
  type Buckets = map<string, Bucket>

  const BURST := 30.0
  const MAX_BUCKETS := 128
  const MAX_KEYS := 100
  const ANONYMOUS := "anonymous-auth"

  // ----- specification -----

  /** The tokens a key has at a time: a full burst before its first request, then one token every two seconds. */
  function Level(buckets: Buckets, key: string, now: real): real {
    if key !in buckets then BURST
    else
      var refilled := buckets[key].tokens + (now - buckets[key].updated) / 2.0;
      if refilled > BURST then BURST else refilled
  }

  predicate Admits(buckets: Buckets, key: string, now: real) { Level(buckets, key, now) >= 1.0 }

  function Charged(buckets: Buckets, key: string, now: real): Buckets {
    var level := Level(buckets, key, now);
    buckets[key := Bucket(if level >= 1.0 then level - 1.0 else level, now)]
  }

  /** A new key finds the table full. */
  predicate Evicts(buckets: Buckets, key: string) { key !in buckets && |buckets| >= MAX_BUCKETS }

  predicate LeastRecent(buckets: Buckets, oldest: string) {
    oldest in buckets && forall k :: k in buckets ==> buckets[oldest].updated <= buckets[k].updated
  }

  function Retained(buckets: Buckets, keep: set<string>): Buckets { map k | k in buckets && k in keep :: buckets[k] }

  /**
   * Why the least recently used one: as long as some key has been idle for a minute, the bucket that goes is full, and losing it
   * gives no key a token.
   */
  lemma EvictionIsHarmless(buckets: Buckets, oldest: string, idle: string, now: real)
    requires LeastRecent(buckets, oldest) && buckets[oldest].tokens >= 0.0
    requires idle in buckets && buckets[idle].updated + 60.0 <= now
    ensures forall k :: Level(buckets - {oldest}, k, now) == Level(buckets, k, now)
  {}

  // ----- the same, as the limiter does it -----

  class Limiter {
    var buckets: Buckets

    constructor ()
      ensures buckets == map[]
    {
      buckets := map[];
    }

    /** The bucket that makes room, if one has to; keys are never empty strings. */
    method Oldest() returns (oldest: string)
      requires buckets != map[] && "" !in buckets
      ensures LeastRecent(buckets, oldest)
    {
      oldest := "";
      var when := 0.0;
      var rest := buckets.Keys;
      while rest != {}
        invariant rest <= buckets.Keys
        invariant oldest == "" ==> rest == buckets.Keys
        invariant oldest != "" ==> oldest in buckets && when == buckets[oldest].updated
        invariant oldest != "" ==> forall k :: k in buckets && k !in rest ==> when <= buckets[k].updated
        decreases rest
      {
        var candidate :| candidate in rest;
        rest := rest - {candidate};
        if oldest == "" || buckets[candidate].updated < when {
          oldest, when := candidate, buckets[candidate].updated;
        }
      }
    }

    method Allow(key: string, now: real) returns (allowed: bool)
      requires "" !in buckets
      modifies this
      ensures !Evicts(old(buckets), key) ==> buckets == Charged(old(buckets), key, now) && allowed == Admits(old(buckets), key, now)
      ensures Evicts(old(buckets), key) ==> exists oldest ::
        LeastRecent(old(buckets), oldest) && buckets == Charged(old(buckets) - {oldest}, key, now) && allowed
    {
      var b;
      if key in buckets {
        b := buckets[key];
      } else {
        if |buckets| >= MAX_BUCKETS {
          var oldest := Oldest();
          buckets := buckets - {oldest};
        }
        b := Bucket(BURST, now);
      }
      b := b.(tokens := b.tokens + (now - b.updated) / 2.0);
      if b.tokens > BURST {
        b := b.(tokens := BURST);
      }
      b := b.(updated := now);
      allowed := b.tokens >= 1.0;
      if allowed {
        b := b.(tokens := b.tokens - 1.0);
      }
      buckets := buckets[key := b];
    }

    method Retain(keys: seq<string>)
      modifies this
      ensures buckets == Retained(old(buckets), {ANONYMOUS} + set k | k in keys)
    {
      var keep := {ANONYMOUS};
      for i := 0 to |keys|
        invariant keep == {ANONYMOUS} + set k | k in keys[..i]
      {
        keep := keep + {keys[i]};
      }
      assert keys[..|keys|] == keys;
      var rest := buckets.Keys;
      while rest != {}
        invariant rest <= old(buckets).Keys
        invariant forall k :: k in buckets <==> k in old(buckets) && (k in keep || k in rest)
        invariant forall k :: k in buckets ==> buckets[k] == old(buckets)[k]
        decreases rest
      {
        var key :| key in rest;
        rest := rest - {key};
        if key !in keep {
          buckets := buckets - {key};
        }
      }
    }
  }

  // ----- runs -----

  /** A request for a key at a time, or a reload that configures a set of keys. */
  datatype Step = Request(key: string, now: real) | Reload(keys: set<string>)

  datatype State = State(buckets: Buckets, configured: set<string>)

  /** Authentication and charging as one step: only configured keys, and the anonymous one, are charged. */
  function Next(s: State, step: Step): State {
    match step
    case Request(key, now) =>
      if (key in s.configured || key == ANONYMOUS) && !Evicts(s.buckets, key) then s.(buckets := Charged(s.buckets, key, now)) else s
    case Reload(keys) => if |keys| <= MAX_KEYS then State(Retained(s.buckets, {ANONYMOUS} + keys), keys) else s
  }

  function After(s: State, steps: seq<Step>): State
    decreases |steps|
  {
    if steps == [] then s else After(Next(s, steps[0]), steps[1..])
  }

  /** Only configured keys have buckets, and there are at most 100 of those. */
  predicate Bounded(s: State) {
    |s.configured| <= MAX_KEYS && s.buckets.Keys <= s.configured + {ANONYMOUS}
  }

  lemma BoundedNeverEvicts(s: State, key: string)
    requires Bounded(s)
    ensures !Evicts(s.buckets, key)
  {
    SubsetSize(s.buckets.Keys, s.configured + {ANONYMOUS});
    assert |s.configured + {ANONYMOUS}| <= |s.configured| + 1;
  }

  lemma StepStaysBounded(s: State, step: Step)
    requires Bounded(s)
    ensures Bounded(Next(s, step))
  {}

  /** Throughout every run the table has at most 101 buckets: no request ever evicts one. */
  lemma {:induction false} NoRunEvicts(s: State, steps: seq<Step>, key: string)
    requires Bounded(s)
    ensures Bounded(After(s, steps)) && |After(s, steps).buckets.Keys| <= 101 && !Evicts(After(s, steps).buckets, key)
    decreases |steps|
  {
    if steps == [] {
      SubsetSize(s.buckets.Keys, s.configured + {ANONYMOUS});
      assert |s.configured + {ANONYMOUS}| <= |s.configured| + 1;
      BoundedNeverEvicts(s, key);
    } else {
      StepStaysBounded(s, steps[0]);
      NoRunEvicts(Next(s, steps[0]), steps[1..], key);
    }
  }

  // ----- how many requests are admitted -----

  predicate Full(buckets: Buckets, now: real) {
    forall k :: k in buckets ==> 0.0 <= buckets[k].tokens <= BURST && buckets[k].updated <= now
  }

  /** Requests come in order of time, between `from` and `to`. */
  predicate Timely(steps: seq<Step>, from: real, to: real)
    decreases |steps|
  {
    if steps == [] then from <= to
    else if steps[0].Request? then from <= steps[0].now && Timely(steps[1..], steps[0].now, to)
    else Timely(steps[1..], from, to)
  }

  /** Every reload keeps the key configured. */
  predicate Keeps(steps: seq<Step>, key: string) {
    key == ANONYMOUS || forall i :: 0 <= i < |steps| && steps[i].Reload? ==> key in steps[i].keys
  }

  function Admitted(s: State, steps: seq<Step>, key: string): nat
    decreases |steps|
  {
    if steps == [] then 0
    else
      var step := steps[0];
      (if step.Request? && step.key == key && (key in s.configured || key == ANONYMOUS) && Admits(s.buckets, key, step.now) then 1 else 0)
      + Admitted(Next(s, step), steps[1..], key)
  }

  /** A request takes from the level of its key exactly what it admits, and nothing from any other key's. */
  lemma RequestLevel(s: State, key: string, other: string, from: real, now: real)
    requires Bounded(s) && Full(s.buckets, from) && from <= now && (other in s.configured || other == ANONYMOUS)
    ensures var after := Next(s, Request(other, now));
            && Full(after.buckets, now) && Bounded(after)
            && Level(after.buckets, key, now) + (if other == key && Admits(s.buckets, key, now) then 1.0 else 0.0) == Level(s.buckets, key, now)
            && Level(s.buckets, key, now) <= Level(s.buckets, key, from) + (now - from) / 2.0
            && 0.0 <= Level(after.buckets, key, now)
  {
    BoundedNeverEvicts(s, other);
  }

  lemma OtherRequestLevel(s: State, key: string, from: real, now: real)
    requires Full(s.buckets, from) && from <= now
    ensures Full(s.buckets, now) && Level(s.buckets, key, now) <= Level(s.buckets, key, from) + (now - from) / 2.0
  {}

  lemma ReloadLevel(s: State, key: string, keys: set<string>, now: real)
    requires Bounded(s) && Full(s.buckets, now)
    ensures var after := Next(s, Reload(keys));
            && Full(after.buckets, now) && Bounded(after)
            && (key in keys || key == ANONYMOUS ==> Level(after.buckets, key, now) == Level(s.buckets, key, now))
  {}

  lemma {:induction false} AdmittedWithinLevel(s: State, steps: seq<Step>, key: string, from: real, to: real)
    requires Bounded(s) && Full(s.buckets, from) && Timely(steps, from, to) && Keeps(steps, key)
    ensures Admitted(s, steps, key) as real <= Level(s.buckets, key, from) + (to - from) / 2.0
    decreases |steps|
  {
    hide Next, Bounded, Full, Level;
    if steps == [] {
      LevelIsBounded(s.buckets, key, from);
    } else {
      match steps[0]
      case Request(other, now) =>
        if other in s.configured || other == ANONYMOUS {
          RequestLevel(s, key, other, from, now);
        } else {
          OtherRequestLevel(s, key, from, now);
          UnknownIsRefused(s, other, now);
        }
        assert Keeps(steps[1..], key);
        AdmittedWithinLevel(Next(s, steps[0]), steps[1..], key, now, to);
      case Reload(keys) =>
        ReloadLevel(s, key, keys, from);
        assert Keeps(steps[1..], key);
        AdmittedWithinLevel(Next(s, steps[0]), steps[1..], key, from, to);
    }
  }

  lemma UnknownIsRefused(s: State, other: string, now: real)
    requires !(other in s.configured || other == ANONYMOUS)
    ensures Next(s, Request(other, now)) == s
  {}

  lemma LevelIsBounded(buckets: Buckets, key: string, now: real)
    requires Full(buckets, now)
    ensures 0.0 <= Level(buckets, key, now) <= BURST
  {}

  lemma {:induction false} RunStaysFull(s: State, steps: seq<Step>, from: real, to: real)
    requires Bounded(s) && Full(s.buckets, from) && Timely(steps, from, to)
    ensures Bounded(After(s, steps)) && Full(After(s, steps).buckets, to)
    decreases |steps|
  {
    hide Next, Bounded, Full, Level;
    if steps == [] {
      OtherRequestLevel(s, "", from, to);
    } else {
      match steps[0]
      case Request(other, now) =>
        if other in s.configured || other == ANONYMOUS {
          RequestLevel(s, "", other, from, now);
        } else {
          OtherRequestLevel(s, "", from, now);
          UnknownIsRefused(s, other, now);
        }
        RunStaysFull(Next(s, steps[0]), steps[1..], now, to);
      case Reload(keys) =>
        ReloadLevel(s, "", keys, from);
        RunStaysFull(Next(s, steps[0]), steps[1..], from, to);
    }
  }

  /**
   * In any window of a run of a limiter that started empty, at most 30 plus half a request per second are
   * admitted for a key, across all reloads that keep it configured and whatever other keys do.
   */
  lemma WindowBound(configured: set<string>, before: seq<Step>, steps: seq<Step>, key: string, start: real, from: real, to: real)
    requires |configured| <= MAX_KEYS && Timely(before, start, from) && Timely(steps, from, to) && Keeps(steps, key)
    ensures Admitted(After(State(map[], configured), before), steps, key) as real <= 30.0 + (to - from) / 2.0
  {
    hide Next, After, Admitted, Level, Timely, Keeps;
    var s := State(map[], configured);
    RunStaysFull(s, before, start, from);
    AdmittedWithinLevel(After(s, before), steps, key, from, to);
    LevelIsBounded(After(s, before).buckets, key, from);
  }

  /** Two seconds after any request the next one for the key is admitted. */
  lemma TwoSecondsAreEnough(s: State, key: string, last: real, now: real)
    requires Bounded(s) && Full(s.buckets, last) && now >= last + 2.0
    ensures Admits(s.buckets, key, now)
  {}

  /** Whatever a run did before, a request that comes two seconds after its last moment is admitted. */
  lemma PatientRequestsAreAdmitted(configured: set<string>, steps: seq<Step>, key: string, start: real, last: real, now: real)
    requires |configured| <= MAX_KEYS && Timely(steps, start, last) && now >= last + 2.0
    requires key in After(State(map[], configured), steps).configured || key == ANONYMOUS
    ensures Admitted(After(State(map[], configured), steps), [Request(key, now)], key) == 1
  {
    hide Next, After, Timely, Level;
    var s := State(map[], configured);
    RunStaysFull(s, steps, start, last);
    TwoSecondsAreEnough(After(s, steps), key, last, now);
    assert [Request(key, now)][1..] == [];
  }

  // ----- how few requests are admitted -----

  /** `n` requests for a key at one instant. */
  function Instant(key: string, n: nat, now: real): seq<Step> { seq(n, _ => Request(key, now)) }

  /** A key with `level` tokens is admitted once for every whole token. */
  lemma {:induction false} InstantAdmits(s: State, key: string, n: nat, now: real, whole: nat)
    requires Bounded(s) && Full(s.buckets, now) && (key in s.configured || key == ANONYMOUS)
    requires whole as real <= Level(s.buckets, key, now) < whole as real + 1.0
    ensures Admitted(s, Instant(key, n, now), key) == if n < whole then n else whole
    decreases n
  {
    hide Bounded, Full, Level, Next;
    if n > 0 {
      var steps := Instant(key, n, now);
      assert steps[0] == Request(key, now) && steps[1..] == Instant(key, n - 1, now);
      RequestLevel(s, key, key, now, now);
      NextKeeps(s, Request(key, now));
      InstantAdmits(Next(s, steps[0]), key, n - 1, now, if whole > 0 then whole - 1 else 0);
    }
  }

  lemma NextKeeps(s: State, step: Step)
    requires step.Request?
    ensures Next(s, step).configured == s.configured
  {}

  /** The burst: from a key without a bucket, `n` requests at one instant admit exactly the first thirty of them. */
  lemma BurstIsThirty(s: State, key: string, n: nat, from: real, now: real)
    requires Bounded(s) && Full(s.buckets, from) && from <= now && (key in s.configured || key == ANONYMOUS) && key !in s.buckets
    ensures Admitted(s, Instant(key, n, now), key) == if n < 30 then n else 30
  {
    OtherRequestLevel(s, key, from, now);
    InstantAdmits(s, key, n, now, 30);
  }

  lemma AfterConcat(s: State, steps: seq<Step>, step: Step)
    ensures After(s, steps + [step]) == Next(After(s, steps), step)
    decreases |steps|
  {
    hide Next;
    if steps == [] {
      assert [] + [step] == [step] && [step][1..] == [];
    } else {
      assert (steps + [step])[0] == steps[0] && (steps + [step])[1..] == steps[1..] + [step];
      AfterConcat(Next(s, steps[0]), steps[1..], step);
    }
  }

  lemma AdmittedConcat(s: State, steps: seq<Step>, step: Step, key: string)
    ensures Admitted(s, steps + [step], key) == Admitted(s, steps, key) + Admitted(After(s, steps), [step], key)
    decreases |steps|
  {
    hide Next, Admits;
    if steps == [] {
      assert [] + [step] == [step];
    } else {
      assert (steps + [step])[0] == steps[0] && (steps + [step])[1..] == steps[1..] + [step];
      AdmittedConcat(Next(s, steps[0]), steps[1..], step, key);
    }
  }

  /** The time reached after each of the steps. */
  function Reached(steps: seq<Step>, from: real): real
    decreases |steps|
  {
    if steps == [] then from else if steps[|steps|-1].Request? then steps[|steps|-1].now else Reached(steps[..|steps|-1], from)
  }

  /** After step `k` the key had thirty tokens at time `since`; from then on every token is accounted for. */
  ghost predicate Accounted(s: State, steps: seq<Step>, key: string, from: real, k: nat, since: real, now: real) {
    && k <= |steps| && Reached(steps[..k], from) <= since <= now && Level(After(s, steps[..k]).buckets, key, since) == 30.0
    && Level(After(s, steps).buckets, key, now) + Admitted(After(s, steps[..k]), steps[k..], key) as real == 30.0 + (now - since) / 2.0
  }

  lemma OneMoreAccounted(s: State, steps: seq<Step>, step: Step, key: string, from: real, k: nat, since: real, now: real, later: real)
    requires Accounted(s, steps, key, from, k, since, now)
    requires Level(After(s, steps + [step]).buckets, key, later) + Admitted(After(s, steps), [step], key) as real
          == Level(After(s, steps).buckets, key, now) + (later - now) / 2.0 && now <= later
    ensures Accounted(s, steps + [step], key, from, k, since, later)
  {
    hide Level, After, Admitted;
    assert (steps + [step])[..k] == steps[..k] && (steps + [step])[k..] == steps[k..] + [step];
    AfterSplit(s, steps, k);
    AdmittedConcat(After(s, steps[..k]), steps[k..], step, key);
  }

  lemma {:induction false} AfterSplit(s: State, steps: seq<Step>, k: nat)
    requires k <= |steps|
    ensures After(After(s, steps[..k]), steps[k..]) == After(s, steps)
    decreases k
  {
    hide Next;
    if k == 0 {
      assert steps[..0] == [] && steps[0..] == steps;
    } else {
      assert steps[..k][0] == steps[0] && steps[..k][1..] == steps[1..][..k-1] && steps[k..] == steps[1..][k-1..];
      AfterSplit(Next(s, steps[0]), steps[1..], k - 1);
    }
  }

  lemma FreshlyFull(s: State, steps: seq<Step>, key: string, from: real, now: real)
    requires Reached(steps, from) <= now && Level(After(s, steps).buckets, key, now) == 30.0
    ensures Accounted(s, steps, key, from, |steps|, now, now)
  {
    assert steps[..|steps|] == steps && steps[|steps|..] == [];
  }

  /** Time passes without a request for the key: the account goes on, or the bucket fills and a new one is opened. */
  lemma LevelLater(buckets: Buckets, key: string, now: real, later: real)
    requires Full(buckets, now) && now <= later
    ensures Level(buckets, key, later) == 30.0 || Level(buckets, key, later) == Level(buckets, key, now) + (later - now) / 2.0
    ensures Full(buckets, later)
  {}

  /** Requests and reloads up to some moment, with the key configured throughout. */
  ghost predicate Ready(s: State, steps: seq<Step>, key: string, now: real) {
    && Bounded(After(s, steps)) && Full(After(s, steps).buckets, now)
    && (key in After(s, steps).configured || key == ANONYMOUS)
  }

  lemma AccountLater(s: State, steps: seq<Step>, key: string, from: real, k: nat, since: real, now: real, later: real)
    returns (k': nat, since': real)
    requires Accounted(s, steps, key, from, k, since, now) && Full(After(s, steps).buckets, now) && now <= later && Reached(steps, from) <= later
    ensures Accounted(s, steps, key, from, k', since', later)
  {
    hide Level, After, Admitted, Full;
    LevelLater(After(s, steps).buckets, key, now, later);
    if Level(After(s, steps).buckets, key, later) == 30.0 {
      FreshlyFull(s, steps, key, from, later);
      k', since' := |steps|, later;
    } else {
      k', since' := k, since;
    }
  }

  predicate InOrder(steps: seq<Step>, from: real)
    decreases |steps|
  {
    steps == [] || (InOrder(steps[..|steps|-1], from) && (steps[|steps|-1].Request? ==> Reached(steps[..|steps|-1], from) <= steps[|steps|-1].now))
  }

  lemma ReadyMore(s: State, steps: seq<Step>, step: Step, key: string, now: real, later: real)
    requires Ready(s, steps, key, now) && now <= later
    requires if step.Request? then step.now == later else key in step.keys || key == ANONYMOUS
    ensures Ready(s, steps + [step], key, later)
  {
    hide After, Level, Admits, Charged;
    AfterConcat(s, steps, step);
    StepStaysBounded(After(s, steps), step);
    OtherRequestLevel(After(s, steps), key, now, later);
    StepStaysFull(After(s, steps), step, later);
  }

  lemma StepStaysFull(s: State, step: Step, now: real)
    requires Full(s.buckets, now) && (step.Request? ==> step.now == now)
    ensures Full(Next(s, step).buckets, now)
  {}

  lemma StepAccount(s: State, step: Step, key: string, now: real)
    requires Bounded(s) && Full(s.buckets, now) && (key in s.configured || key == ANONYMOUS)
    requires if step.Request? then step.now == now else key in step.keys || key == ANONYMOUS
    ensures Level(Next(s, step).buckets, key, now) + Admitted(s, [step], key) as real == Level(s.buckets, key, now)
  {
    hide Bounded, Full, Level;
    assert [step][1..] == [];
    match step
    case Request(other, _) =>
      if other in s.configured || other == ANONYMOUS { RequestLevel(s, key, other, now, now); } else { UnknownIsRefused(s, other, now); }
    case Reload(keys) => ReloadLevel(s, key, keys, now);
  }

  /** At every point of a run there is a moment since which every token of the key is accounted for. */
  lemma {:induction false} AlwaysAccounted(s: State, steps: seq<Step>, key: string, from: real)
    returns (k: nat, since: real)
    requires Bounded(s) && Full(s.buckets, from) && (key in s.configured || key == ANONYMOUS) && Level(s.buckets, key, from) == 30.0
    requires InOrder(steps, from) && Keeps(steps, key)
    ensures Ready(s, steps, key, Reached(steps, from)) && from <= Reached(steps, from)
    ensures Accounted(s, steps, key, from, k, since, Reached(steps, from))
    decreases |steps|
  {
    hide Level, After, Admitted, Full, Bounded, Next;
    if steps == [] {
      EmptyRun(s, key, from);
      FreshlyFull(s, [], key, from, from);
      k, since := 0, from;
    } else {
      var n := |steps| - 1;
      var front, step := steps[..n], steps[n];
      assert steps == front + [step];
      assert Keeps(front, key);
      k, since := AlwaysAccounted(s, front, key, from);
      var now, later := Reached(front, from), Reached(steps, from);
      k, since := AccountLater(s, front, key, from, k, since, now, later);
      LevelLater(After(s, front).buckets, key, now, later);
      ReadyMore(s, front, step, key, now, later);
      StepAccount(After(s, front), step, key, later);
      AfterConcat(s, front, step);
      OneMoreAccounted(s, front, step, key, from, k, since, later, later);
    }
  }

  lemma EmptyRun(s: State, key: string, from: real)
    ensures After(s, []) == s
  {}

  /**
   * A refusal is earned: when a request for a key that has stayed configured is refused, then since some moment at which
   * its bucket held thirty tokens at least 30 requests have been admitted for it, and one more for every two seconds.
   */
  lemma {:induction false} RefusedOnlyAfterThirty(s: State, steps: seq<Step>, key: string, from: real, now: real)
    returns (k: nat, since: real)
    requires Bounded(s) && Full(s.buckets, from) && (key in s.configured || key == ANONYMOUS) && Level(s.buckets, key, from) == 30.0
    requires InOrder(steps, from) && Keeps(steps, key) && Reached(steps, from) <= now
    requires !Admits(After(s, steps).buckets, key, now)
    ensures k <= |steps| && Reached(steps[..k], from) <= since <= now && Level(After(s, steps[..k]).buckets, key, since) == 30.0
    ensures Admitted(After(s, steps[..k]), steps[k..], key) >= 30 + ((now - since) / 2.0).Floor
  {
    hide Level, After, Admitted, Full, Bounded, Next;
    k, since := AlwaysAccounted(s, steps, key, from);
    k, since := AccountLater(s, steps, key, from, k, since, Reached(steps, from), now);
  }
}
