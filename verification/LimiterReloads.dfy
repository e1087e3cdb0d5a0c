/**
 * Requests are authenticated under the configuration lock and charged after it is released, so reloads may come
 * in between (internal/hub/server.go, `ServeHTTP`, `authFailure` and `Reload`).
 */
module LimiterReloads {
  import opened Ordering
  import opened RateLimiter

  /** `Charge` is the call of `allow`, at a time; a failed authentication leads to a charge of the anonymous key. */
  datatype Event = Authenticate(request: nat, key: string) | Charge(request: nat, now: real) | Reconfigure(keys: set<string>)

  /** `evicted` is set by the first request that finds the table full; the run is followed up to there. */
  datatype Hub = Hub(buckets: Buckets, configured: set<string>, pending: map<nat, string>, evicted: bool)

  function NextHub(h: Hub, e: Event): Hub {
    if h.evicted then h
    else match e
      case Authenticate(r, key) =>
        if r !in h.pending && (key in h.configured || key == ANONYMOUS) then h.(pending := h.pending[r := key]) else h
      case Charge(r, now) =>
        if r !in h.pending then h
        else if Evicts(h.buckets, h.pending[r]) then h.(evicted := true)
        else h.(buckets := Charged(h.buckets, h.pending[r], now), pending := h.pending - {r})
      case Reconfigure(keys) =>
        if |keys| <= MAX_KEYS then h.(buckets := Retained(h.buckets, {ANONYMOUS} + keys), configured := keys) else h
  }

  function AfterEvents(h: Hub, events: seq<Event>): Hub
    decreases |events|
  {
    if events == [] then h else NextHub(AfterEvents(h, events[..|events|-1]), events[|events|-1])
  }

  predicate NoReload(events: seq<Event>) { forall e :: e in events ==> !e.Reconfigure? }

  /** All charges happen at one moment, so that no clock has to go backwards. */
  predicate At(events: seq<Event>, now: real) { forall e :: e in events && e.Charge? ==> e.now == now }

  /** Every key that can have a bucket before the next reload: those that have one, are configured, or are authenticated. */
  function Reach(h: Hub): set<string> { h.buckets.Keys + h.pending.Values + h.configured + {ANONYMOUS} }

  /** The keys outside the current configuration that still have a bucket or a request on the way. */
  function Stale(h: Hub): set<string> { (h.buckets.Keys + h.pending.Values) - (h.configured + {ANONYMOUS}) }

  lemma ReachIsStaleAndConfigured(h: Hub)
    ensures |Reach(h)| == |Stale(h)| + |h.configured + {ANONYMOUS}|
  {
    assert Reach(h) == Stale(h) + (h.configured + {ANONYMOUS});
    DisjointSize(Stale(h), h.configured + {ANONYMOUS});
  }

  lemma {:induction false} DisjointSize(a: set<string>, b: set<string>)
    requires a !! b
    ensures |a + b| == |a| + |b|
    decreases a
  {
    if a == {} {
      assert a + b == b;
    } else {
      var x :| x in a;
      DisjointSize(a - {x}, b);
      assert (a - {x}) + b == (a + b) - {x};
    }
  }

  // ----- without a reload, nothing outside the reach is charged -----

  lemma ReachStep(h: Hub, e: Event)
    requires !e.Reconfigure?
    ensures Reach(NextHub(h, e)) <= Reach(h)
    ensures NextHub(h, e).configured == h.configured && h.buckets.Keys <= NextHub(h, e).buckets.Keys
    ensures |Reach(h)| <= MAX_BUCKETS && !h.evicted ==> !NextHub(h, e).evicted
  {
    var after := NextHub(h, e);
    assert forall r :: r in h.pending ==> h.pending[r] in h.pending.Values;
    forall k | k in after.pending.Values ensures k in Reach(h) {
      var r :| r in after.pending && after.pending[r] == k;
      if r in h.pending { assert h.pending[r] in h.pending.Values; }
    }
    if e.Charge? && e.request in h.pending && Evicts(h.buckets, h.pending[e.request]) {
      FullTableReachesFurther(h, h.pending[e.request]);
    }
  }

  lemma FullTableReachesFurther(h: Hub, key: string)
    requires key in Reach(h) && key !in h.buckets && |h.buckets.Keys| >= MAX_BUCKETS
    ensures |Reach(h)| > MAX_BUCKETS
  {
    SubsetSize(h.buckets.Keys + {key}, Reach(h));
    assert |h.buckets.Keys + {key}| == |h.buckets.Keys| + 1;
  }

  lemma {:induction false} SmallReachNeverEvicts(h: Hub, events: seq<Event>)
    requires NoReload(events) && !h.evicted && |Reach(h)| <= MAX_BUCKETS
    ensures !AfterEvents(h, events).evicted && Reach(AfterEvents(h, events)) <= Reach(h)
    decreases |events|
  {
    hide NextHub, Reach;
    if events != [] {
      var n := |events| - 1;
      assert events[n] in events;
      SmallReachNeverEvicts(h, events[..n]);
      ReachStep(AfterEvents(h, events[..n]), events[n]);
      SubsetSize(Reach(AfterEvents(h, events[..n])), Reach(h));
    }
  }

  // ----- a large reach can be charged in full -----

  lemma AfterMore(h: Hub, events: seq<Event>, more: seq<Event>)
    ensures AfterEvents(h, events + more) == AfterEvents(AfterEvents(h, events), more)
    decreases |more|
  {
    hide NextHub;
    if more == [] {
      assert events + more == events;
    } else {
      assert (events + more)[..|events + more|-1] == events + more[..|more|-1];
      AfterMore(h, events, more[..|more|-1]);
    }
  }

  /** A table that never evicted holds at most 128 buckets. */
  predicate Fits(h: Hub) { !h.evicted ==> |h.buckets.Keys| <= MAX_BUCKETS }

  lemma FitsStep(h: Hub, e: Event)
    requires Fits(h)
    ensures Fits(NextHub(h, e))
  {
    match e
    case Authenticate(_, _) =>
    case Charge(r, now) =>
      if !h.evicted && r in h.pending && !Evicts(h.buckets, h.pending[r]) {
        ChargedKeys(h.buckets, h.pending[r], now);
        if h.pending[r] in h.buckets { assert h.buckets.Keys + {h.pending[r]} == h.buckets.Keys; }
      }
    case Reconfigure(keys) =>
      SubsetSize(Retained(h.buckets, {ANONYMOUS} + keys).Keys, h.buckets.Keys);
  }

  lemma ChargedKeys(buckets: Buckets, key: string, now: real)
    ensures Charged(buckets, key, now).Keys == buckets.Keys + {key}
  {}

  lemma {:induction false} FitsAlways(h: Hub, events: seq<Event>)
    requires Fits(h)
    ensures Fits(AfterEvents(h, events))
    decreases |events|
  {
    hide NextHub, Fits;
    if events != [] {
      FitsAlways(h, events[..|events|-1]);
      FitsStep(AfterEvents(h, events[..|events|-1]), events[|events|-1]);
    }
  }

  lemma NoReloadConcat(a: seq<Event>, b: seq<Event>)
    requires NoReload(a) && NoReload(b)
    ensures NoReload(a + b)
    ensures forall now :: At(a, now) && At(b, now) ==> At(a + b, now)
  {}

  /** Without a reload the reach stays what it is and buckets stay, until something is evicted. */
  lemma {:induction false} BucketsStay(h: Hub, events: seq<Event>)
    requires NoReload(events)
    ensures h.buckets.Keys <= AfterEvents(h, events).buckets.Keys && AfterEvents(h, events).configured == h.configured
    decreases |events|
  {
    hide NextHub, Reach;
    if events != [] {
      assert events[|events|-1] in events;
      BucketsStay(h, events[..|events|-1]);
      ReachStep(AfterEvents(h, events[..|events|-1]), events[|events|-1]);
    }
  }

  lemma FreshRequest(pending: map<nat, string>) returns (r: nat)
    ensures r !in pending
  {
    r := LargerThanAll(pending.Keys);
  }

  lemma {:induction false} LargerThanAll(s: set<nat>) returns (r: nat)
    ensures forall x :: x in s ==> x < r
    decreases s
  {
    r := 0;
    if s != {} {
      var x :| x in s;
      var rest := LargerThanAll(s - {x});
      r := if rest > x then rest else x + 1;
      assert forall y :: y in s ==> y == x || y in s - {x};
    }
  }

  /** What charging a request on the way does. */
  lemma ChargeStep(h: Hub, r: nat, now: real)
    requires !h.evicted && r in h.pending
    ensures var after := NextHub(h, Charge(r, now));
            && (after.evicted || h.pending[r] in after.buckets)
            && (forall k :: k in h.pending.Values && k != h.pending[r] ==> k in after.pending.Values || after.evicted)
  {
    hide Charged;
    ChargedKeys(h.buckets, h.pending[r], now);
    var after := NextHub(h, Charge(r, now));
    forall k | k in h.pending.Values && k != h.pending[r] ensures k in after.pending.Values || after.evicted {
      var x :| x in h.pending && h.pending[x] == k;
      assert !after.evicted ==> x in after.pending && after.pending[x] == k;
    }
  }

  lemma AuthenticateStep(h: Hub, r: nat, key: string)
    requires !h.evicted && r !in h.pending && key in h.configured + {ANONYMOUS}
    ensures var after := NextHub(h, Authenticate(r, key));
            && after == h.(pending := h.pending[r := key]) && after.pending[r] == key
            && h.pending.Values <= after.pending.Values
  {
    var after := NextHub(h, Authenticate(r, key));
    forall k | k in h.pending.Values ensures k in after.pending.Values {
      var x :| x in h.pending && h.pending[x] == k;
      assert after.pending[x] == k;
    }
  }

  /** Any key that can have a bucket can be given one, unless that evicts; no other key on the way is lost. */
  lemma ChargeOne(h: Hub, key: string, now: real) returns (events: seq<Event>)
    requires key in Reach(h)
    ensures NoReload(events) && At(events, now) && (AfterEvents(h, events).evicted || key in AfterEvents(h, events).buckets)
    ensures !AfterEvents(h, events).evicted ==> forall k :: k in h.pending.Values ==> k in AfterEvents(h, events).pending.Values + {key}
  {
    hide NextHub, Evicts;
    if key in h.buckets || h.evicted {
      events := [];
    } else if key in h.pending.Values {
      var r :| r in h.pending && h.pending[r] == key;
      events := [Charge(r, now)];
      AfterOne(h, events[0]);
      ChargeStep(h, r, now);
    } else {
      var r := FreshRequest(h.pending);
      events := [Authenticate(r, key)] + [Charge(r, now)];
      AuthenticateStep(h, r, key);
      ChargeStep(NextHub(h, Authenticate(r, key)), r, now);
      AfterMore(h, [Authenticate(r, key)], [Charge(r, now)]);
      AfterOne(h, Authenticate(r, key));
      AfterOne(NextHub(h, Authenticate(r, key)), Charge(r, now));
    }
  }

  /** All the keys of a set can be charged one after the other, unless that evicts. */
  lemma {:induction false} ChargeEach(h: Hub, keys: set<string>, now: real) returns (events: seq<Event>)
    requires keys <= Reach(h)
    ensures NoReload(events) && At(events, now) && (AfterEvents(h, events).evicted || keys <= AfterEvents(h, events).buckets.Keys)
    decreases keys
  {
    hide NextHub;
    events := [];
    if keys != {} {
      var key :| key in keys;
      var first := ChargeOne(h, key, now);
      var mid := AfterEvents(h, first);
      events := first;
      if !mid.evicted {
        BucketsStay(h, first);
        assert keys - {key} <= Reach(mid);
        var rest := ChargeEach(mid, keys - {key}, now);
        BucketsStay(mid, rest);
        AfterMore(h, first, rest);
        NoReloadConcat(first, rest);
        events := first + rest;
      }
    }
  }

  ghost predicate CanEvict(h: Hub, now: real) {
    exists events :: NoReload(events) && At(events, now) && AfterEvents(h, events).evicted
  }

  /**
   * Before the next reload some run of requests makes the limiter evict if and only if the configured keys together
   * with the stale ones -- outside the configuration, with a bucket or a request on the way -- exceed 128; and then
   * requests at any one moment do.
   */
  lemma {:induction false} EvictsBeforeReloadIff(h: Hub, now: real)
    requires !h.evicted && |h.buckets.Keys| <= MAX_BUCKETS
    ensures (exists events :: NoReload(events) && AfterEvents(h, events).evicted) <==> CanEvict(h, now)
    ensures CanEvict(h, now) <==> |Stale(h)| + |h.configured + {ANONYMOUS}| > 128
  {
    ReachIsStaleAndConfigured(h);
    if |Reach(h)| > MAX_BUCKETS {
      var events := ChargeEach(h, Reach(h), now);
      FitsAlways(h, events);
      var after := AfterEvents(h, events);
      if !after.evicted { SubsetSize(Reach(h), after.buckets.Keys); }
    } else {
      forall events | NoReload(events) ensures !AfterEvents(h, events).evicted { SmallReachNeverEvicts(h, events); }
    }
  }

  // ----- one reload, from the empty limiter -----

  function Started(keys: set<string>): Hub { Hub(map[], keys, map[], false) }

  /** Some run with this one reload makes the limiter evict, with all requests charged at one moment. */
  ghost predicate ReloadCanEvict(first: set<string>, second: set<string>, now: real) {
    exists before, later :: NoReload(before) && NoReload(later) && At(before + later, now) && AfterEvents(Started(first), before + [Reconfigure(second)] + later).evicted
  }

  lemma ReloadReach(h: Hub, keys: set<string>)
    requires |keys| <= MAX_KEYS && !h.evicted
    ensures Reach(NextHub(h, Reconfigure(keys))) <= Reach(h) + keys
    ensures NextHub(h, Reconfigure(keys)).configured == keys && !NextHub(h, Reconfigure(keys)).evicted
    ensures NextHub(h, Reconfigure(keys)).pending == h.pending
    ensures NextHub(h, Reconfigure(keys)).buckets.Keys <= h.buckets.Keys
  {}

  lemma {:induction false} AuthenticateEach(h: Hub, keys: set<string>) returns (events: seq<Event>)
    requires !h.evicted && keys <= h.configured + {ANONYMOUS}
    ensures NoReload(events) && !AfterEvents(h, events).evicted && AfterEvents(h, events).buckets == h.buckets
    ensures forall now :: At(events, now)
    ensures keys + h.pending.Values <= AfterEvents(h, events).pending.Values
    decreases keys
  {
    events := [];
    if keys != {} {
      var key :| key in keys;
      var r := FreshRequest(h.pending);
      var first := [Authenticate(r, key)];
      AfterOne(h, first[0]);
      var mid := AfterEvents(h, first);
      AuthenticateStep(h, r, key);
      var rest := AuthenticateEach(mid, keys - {key});
      AfterMore(h, first, rest);
      NoReloadConcat(first, rest);
      events := first + rest;
    }
  }

  lemma AfterOne(h: Hub, e: Event)
    ensures AfterEvents(h, [e]) == NextHub(h, e)
  {
    assert [e][..0] == [];
  }

  lemma AroundReload(h: Hub, before: seq<Event>, e: Event, later: seq<Event>)
    ensures AfterEvents(h, before + [e] + later) == AfterEvents(NextHub(AfterEvents(h, before), e), later)
  {
    hide NextHub;
    AfterMore(h, before + [e], later);
    AfterMore(h, before, [e]);
    AfterOne(AfterEvents(h, before), e);
  }

  lemma StartReach(keys: set<string>)
    requires |keys| <= MAX_KEYS
    ensures !Started(keys).evicted && Reach(Started(keys)) == keys + {ANONYMOUS} && |Reach(Started(keys))| <= MAX_BUCKETS
  {
    assert |keys + {ANONYMOUS}| <= |keys| + 1;
  }

  /** With all first keys on the way when the second set is configured, the rest can be charged until the table is full. */
  lemma LargeUnionEvicts(first: set<string>, second: set<string>, now: real)
    requires |first| <= MAX_KEYS && |second| <= MAX_KEYS && |first + second + {ANONYMOUS}| > MAX_BUCKETS
    ensures ReloadCanEvict(first, second, now)
  {
    hide NextHub, Stale, CanEvict;
    var start := Started(first);
    var before := AuthenticateEach(start, first);
    var h := AfterEvents(start, before);
    ReloadReach(h, second);
    var mid := NextHub(h, Reconfigure(second));
    SubsetSize(first + second + {ANONYMOUS}, Reach(mid));
    assert mid.buckets.Keys == {};
    ReachIsStaleAndConfigured(mid);
    EvictsBeforeReloadIff(mid, now);
    var later := EvictingRun(mid, now);
    AroundReload(start, before, Reconfigure(second), later);
    NoReloadConcat(before, later);
  }

  lemma EvictingRun(h: Hub, now: real) returns (events: seq<Event>)
    requires CanEvict(h, now)
    ensures NoReload(events) && At(events, now) && AfterEvents(h, events).evicted
  {
    events :| NoReload(events) && At(events, now) && AfterEvents(h, events).evicted;
  }

  lemma SmallUnionNeverEvicts(first: set<string>, second: set<string>, before: seq<Event>, later: seq<Event>)
    requires |first| <= MAX_KEYS && |second| <= MAX_KEYS && |first + second + {ANONYMOUS}| <= MAX_BUCKETS
    requires NoReload(before) && NoReload(later)
    ensures !AfterEvents(Started(first), before + [Reconfigure(second)] + later).evicted
  {
    hide NextHub, Reach, Started;
    var start := Started(first);
    StartReach(first);
    SmallReachNeverEvicts(start, before);
    var h := AfterEvents(start, before);
    ReloadReach(h, second);
    var mid := NextHub(h, Reconfigure(second));
    assert Reach(h) + second <= first + second + {ANONYMOUS};
    SubsetSize(Reach(mid), first + second + {ANONYMOUS});
    SmallReachNeverEvicts(mid, later);
    AroundReload(start, before, Reconfigure(second), later);
  }

  /**
   * A hub that starts with one set of keys and is reloaded once with another can evict a bucket if and only if the two
   * sets and the anonymous key are more than 128 together: what an operator can count before the reload.
   */
  lemma {:induction false} OneReloadEvictsIff(first: set<string>, second: set<string>, now: real)
    requires |first| <= 100 && |second| <= 100
    ensures ReloadCanEvict(first, second, now) <==> |first + second + {ANONYMOUS}| > 128
  {
    hide AfterEvents, NoReload, At;
    if |first + second + {ANONYMOUS}| > MAX_BUCKETS {
      LargeUnionEvicts(first, second, now);
    } else {
      forall before, later | NoReload(before) && NoReload(later)
        ensures !AfterEvents(Started(first), before + [Reconfigure(second)] + later).evicted
      {
        SmallUnionNeverEvicts(first, second, before, later);
      }
    }
  }

  /** Keys told apart by their length. */
  function SomeKeys(from: nat, count: nat): set<string>
    decreases count
  {
    if count == 0 then {} else SomeKeys(from, count - 1) + {seq(from + count, _ => 'k')}
  }

  lemma {:induction false} SomeKeysAre(from: nat, count: nat)
    ensures forall k :: k in SomeKeys(from, count) ==> from < |k| <= from + count
    ensures |SomeKeys(from, count)| == count
    decreases count
  {
    if count > 0 { SomeKeysAre(from, count - 1); }
  }

  /** Replacing one full configuration by another is enough: such a run exists. */
  lemma KeyRotationEvicts(now: real)
    ensures var first, second := SomeKeys(20, 100), SomeKeys(200, 100);
            |first| == |second| == 100 && ReloadCanEvict(first, second, now)
  {
    hide SomeKeys, ReloadCanEvict;
    var first, second := SomeKeys(20, 100), SomeKeys(200, 100);
    SomeKeysAre(20, 100);
    SomeKeysAre(200, 100);
    DisjointSize(first, second);
    SubsetSize(first + second, first + second + {ANONYMOUS});
    OneReloadEvictsIff(first, second, now);
  }
}
