/**
 * At most one use of a CI token over whole lives of a hub: requests in flight, configuration reloads, and
 * restores that roll the ledger back (internal/hub/oidc.go with scripts/hub-backup.py).
 */
module ReplayProtocol {
  import opened Ordering
  import opened ReplayLedger

  /** Times of a token in Unix seconds. */
  datatype Claims = Claims(issued: int, notBefore: int, expires: int)

  /** The issuer gives one set of claims to one identifier; the ledger stores a digest of the identifier. */
  datatype Issuer = Issuer(claims: string -> Claims, digest: string -> string)

  ghost predicate WellFormed(g: Issuer) {
    forall id :: |g.digest(id)| == 64 && g.claims(id).expires < INT64
  }

  const SECOND := 1_000_000_000
  const QUARANTINE := 660 * SECOND

  function Seconds(ns: int): int { ns / SECOND }

  /** By this moment every token verified so far has expired. */
  function AllExpired(now: int): int { (Seconds(now) + HORIZON) * SECOND }

  /** A time stamp as the restore script writes it. */
  function Micro(ns: int): int { ns - ns % 1000 }

  /** The lifetime checks of `verify`. */
  predicate LifetimeOk(c: Claims, now: int) {
    && c.issued > 0 && c.notBefore > 0 && c.expires > now && c.issued <= now + 30 && c.notBefore <= now + 30
    && c.notBefore <= c.issued + 30 && c.expires > c.issued && c.expires - c.issued <= 600 && c.issued >= now - 600
  }

  /** Whether any publisher is configured, and until when publishing is paused. */
  datatype Policy = Policy(enabled: bool, until: Option<int>)

  predicate Paused(p: Policy, now: int) { p.until.Some? && now < p.until.value }

  /** `quarantine_ci`: a restored configuration with publishers is paused, and no earlier pause is shortened. */
  function QuarantineOf(p: Policy, now: int): Policy {
    if !p.enabled then p
    else
      var deadline := Micro(now) + QUARANTINE;
      p.(until := Some(if p.until.Some? && Micro(p.until.value) > deadline then Micro(p.until.value) else deadline))
  }

  datatype Stage = Verified(id: string) | Checked(id: string, publisher: string)
  datatype Use = Use(id: string, second: int)
  datatype Snapshot = Snapshot(ledger: LedgerFile, policy: Policy)

  /**
   * `now` is the clock in nanoseconds. `safe` is bookkeeping: the moment until which the last restore calls for a
   * pause, when every token verified before it has expired; `uses` records every token the ledger let through.
   */
  datatype Hub = Hub(now: nat, ledger: LedgerFile, policy: Policy, requests: map<nat, Stage>, snapshots: seq<Snapshot>,
                     safe: int, uses: seq<Use>)

  datatype Step =
    | Advance(ns: nat)
    | Verify(request: nat, id: string)
    | Recheck(request: nat, publisher: string, delay: nat)
    | Consume(request: nat, written: bool)
    | Backup
    | Restore(index: nat)
    | Reload(policy: Policy)

  function RecordFor(g: Issuer, id: string, publisher: string): Record { Record(g.digest(id), publisher, g.claims(id).expires) }

  predicate CanVerify(g: Issuer, h: Hub, step: Step) {
    step.Verify? && step.request !in h.requests && LifetimeOk(g.claims(step.id), Seconds(h.now))
  }

  /** The checks under the configuration lock: the pause at one reading of the clock, the expiry at a later one. */
  predicate CanProceed(g: Issuer, h: Hub, step: Step) {
    && step.Recheck? && step.request in h.requests && h.requests[step.request].Verified?
    && h.policy.enabled && !Paused(h.policy, h.now) && WorkspaceName(step.publisher)
    && g.claims(h.requests[step.request].id).expires > Seconds(h.now + step.delay)
  }

  predicate CanConsume(g: Issuer, h: Hub, step: Step) {
    && step.Consume? && step.request in h.requests && h.requests[step.request].Checked?
    && g.claims(h.requests[step.request].id).expires >= 0
  }

  /** One step; a step that cannot be taken changes nothing. */
  function Next(g: Issuer, h: Hub, step: Step): Hub {
    match step
    case Advance(ns) => h.(now := h.now + ns)
    case Verify(r, id) => if CanVerify(g, h, step) then h.(requests := h.requests[r := Verified(id)]) else h
    case Recheck(r, publisher, delay) =>
      if CanProceed(g, h, step) then h.(now := h.now + delay, requests := h.requests[r := Checked(h.requests[r].id, publisher)]) else h
    case Consume(r, written) =>
      if CanConsume(g, h, step) then
        var stage := h.requests[r];
        var (ledger, error) := ConsumeOf(h.ledger, RecordFor(g, stage.id, stage.publisher), Seconds(h.now), written);
        h.(ledger := ledger, requests := h.requests - {r}, uses := if error.None? then h.uses + [Use(stage.id, Seconds(h.now))] else h.uses)
      else h
    case Backup => h.(snapshots := h.snapshots + [Snapshot(h.ledger, h.policy)])
    case Restore(k) =>
      if k < |h.snapshots| then
        h.(ledger := h.snapshots[k].ledger, policy := QuarantineOf(h.snapshots[k].policy, h.now), requests := map[], safe := AllExpired(h.now))
      else h
    case Reload(policy) => h.(policy := policy)
  }

  /** While a pause is called for, a reload may not enable publishing with an earlier deadline or none. */
  predicate Honours(p: Policy, safe: int, now: int) {
    p.enabled ==> safe <= now || (p.until.Some? && safe <= p.until.value)
  }

  predicate Careful(h: Hub, step: Step) { step.Reload? ==> Honours(step.policy, h.safe, h.now) }

  function After(g: Issuer, start: Hub, steps: seq<Step>): Hub
    decreases |steps|
  {
    if steps == [] then start else Next(g, After(g, start, steps[..|steps|-1]), steps[|steps|-1])
  }

  predicate AllCareful(g: Issuer, start: Hub, steps: seq<Step>)
    decreases |steps|
  {
    steps == [] || (AllCareful(g, start, steps[..|steps|-1]) && Careful(After(g, start, steps[..|steps|-1]), steps[|steps|-1]))
  }

  /** A hub that has just started on a ledger of its own. */
  ghost predicate Starting(h: Hub) {
    Kept(h.ledger, Seconds(h.now)) && h.requests == map[] && h.snapshots == [] && h.safe <= h.now && h.uses == []
  }

  // ----- the invariant -----

  predicate StageOk(g: Issuer, now: int, s: Stage) {
    0 < g.claims(s.id).expires <= Seconds(now) + HORIZON && (s.Checked? ==> WorkspaceName(s.publisher))
  }

  predicate UseOk(g: Issuer, now: int, u: Use) {
    u.second <= Seconds(now) && g.claims(u.id).expires <= u.second + HORIZON
  }

  predicate InLedger(g: Issuer, ledger: LedgerFile, id: string) {
    exists e :: e in RecordsOf(ledger) && e.digest == g.digest(id) && e.expires == g.claims(id).expires
  }

  predicate NoneChecked(h: Hub, id: string) {
    forall r :: r in h.requests && h.requests[r].Checked? ==> h.requests[r].id != id
  }

  /** A token that is used and not yet expired is in the ledger, or the pause outlasts it and no request for it is past the pause. */
  predicate Guarded(g: Issuer, h: Hub, u: Use) {
    u.second < g.claims(u.id).expires && Seconds(h.now) < g.claims(u.id).expires ==>
      InLedger(g, h.ledger, u.id) || (g.claims(u.id).expires * SECOND <= h.safe && NoneChecked(h, u.id))
  }

  /** Of two uses of one token the later one is past its expiry. */
  predicate Once(g: Issuer, uses: seq<Use>) {
    forall i, j :: 0 <= i < j < |uses| && uses[i].id == uses[j].id ==> uses[j].second >= g.claims(uses[j].id).expires
  }

  ghost predicate Inv(g: Issuer, h: Hub) {
    && WellFormed(g)
    && Kept(h.ledger, Seconds(h.now))
    && (forall k :: 0 <= k < |h.snapshots| ==> Kept(h.snapshots[k].ledger, Seconds(h.now)))
    && (forall r :: r in h.requests ==> StageOk(g, h.now, h.requests[r]))
    && (forall u :: u in h.uses ==> UseOk(g, h.now, u) && Guarded(g, h, u))
    && Honours(h.policy, h.safe, h.now)
    && Once(g, h.uses)
  }

  lemma SecondsGrow(now: int, later: int)
    requires now <= later
    ensures Seconds(now) <= Seconds(later)
  {}

  lemma TimePasses(g: Issuer, h: Hub, later: nat)
    requires Inv(g, h) && h.now <= later
    ensures Inv(g, h.(now := later))
  {
    hide Kept, WorkspaceName, InLedger, WellFormed;
    SecondsGrow(h.now, later);
    KeptLater(h.ledger, Seconds(h.now), Seconds(later));
    forall k | 0 <= k < |h.snapshots| ensures Kept(h.snapshots[k].ledger, Seconds(later)) {
      KeptLater(h.snapshots[k].ledger, Seconds(h.now), Seconds(later));
    }
    forall r | r in h.requests ensures StageOk(g, later, h.requests[r]) {
      assert StageOk(g, h.now, h.requests[r]);
    }
    forall u | u in h.uses ensures UseOk(g, later, u) && Guarded(g, h.(now := later), u) {
      assert UseOk(g, h.now, u) && Guarded(g, h, u);
    }
  }

  /** A verified token lives at most 630 seconds more. */
  lemma VerifiedLifetime(c: Claims, now: int)
    requires LifetimeOk(c, now)
    ensures 0 < now + 1 <= c.expires <= now + HORIZON || now < 0
    ensures 0 < c.expires <= now + HORIZON
  {}

  lemma VerifyKeepsInv(g: Issuer, h: Hub, step: Step)
    requires Inv(g, h) && step.Verify?
    ensures Inv(g, Next(g, h, step))
  {
    hide Kept, WorkspaceName, InLedger, WellFormed, LifetimeOk;
    if CanVerify(g, h, step) {
      VerifiedLifetime(g.claims(step.id), Seconds(h.now));
      var after := Next(g, h, step);
      forall u | u in after.uses ensures UseOk(g, after.now, u) && Guarded(g, after, u) {
        assert UseOk(g, h.now, u) && Guarded(g, h, u);
      }
    }
  }

  /** What lets a request past the pause keeps used, unexpired tokens out. */
  lemma RecheckKeepsInv(g: Issuer, h: Hub, step: Step)
    requires Inv(g, h) && step.Recheck?
    ensures Inv(g, Next(g, h, step))
  {
    hide Kept, WorkspaceName, InLedger, WellFormed;
    if CanProceed(g, h, step) {
      var later := h.(now := h.now + step.delay);
      TimePasses(g, h, h.now + step.delay);
      var after := Next(g, h, step);
      var id := h.requests[step.request].id;
      forall r | r in after.requests ensures StageOk(g, after.now, after.requests[r]) {
        assert r in later.requests && StageOk(g, later.now, later.requests[r]);
      }
      forall u | u in after.uses ensures UseOk(g, after.now, u) && Guarded(g, after, u) {
        assert UseOk(g, later.now, u) && Guarded(g, later, u);
        if u.id == id && !InLedger(g, h.ledger, id) && u.second < g.claims(id).expires && Seconds(after.now) < g.claims(id).expires {
          assert false;
        }
      }
    }
  }

  lemma ConsumeKeepsInv(g: Issuer, h: Hub, step: Step)
    requires Inv(g, h) && step.Consume?
    ensures Inv(g, Next(g, h, step))
  {
    hide Kept, WorkspaceName, ConsumeOf, Live, ValidRecord;
    if CanConsume(g, h, step) {
      var stage, now := h.requests[step.request], Seconds(h.now);
      var r := RecordFor(g, stage.id, stage.publisher);
      assert StageOk(g, h.now, stage);
      ReservableHere(g, h, stage);
      ConsumeKeeps(h.ledger, r, now, now, step.written);
      var (ledger, error) := ConsumeOf(h.ledger, r, now, step.written);
      var after := Next(g, h, step);
      forall u | u in h.uses ensures UseOk(g, after.now, u) && Guarded(g, after, u) {
        assert UseOk(g, h.now, u) && Guarded(g, h, u);
        if InLedger(g, h.ledger, u.id) && now < g.claims(u.id).expires { StaysInLedger(g, h.ledger, ledger, r, now, error, u.id); }
      }
      if error.None? {
        NewUseIsGuarded(g, h, after, stage, r);
        NewUseIsLater(g, h, stage);
      }
    }
  }

  lemma ReservableHere(g: Issuer, h: Hub, stage: Stage)
    requires WellFormed(g) && stage.Checked? && StageOk(g, h.now, stage)
    ensures Reservable(RecordFor(g, stage.id, stage.publisher), Seconds(h.now))
  {
    hide WorkspaceName;
  }

  lemma StaysInLedger(g: Issuer, before: LedgerFile, after: LedgerFile, r: Record, now: int, error: Option<ConsumeError>, id: string)
    requires InLedger(g, before, id) && now < g.claims(id).expires
    requires error.None? ==> RecordsOf(after) == Live(RecordsOf(before), now) + [r]
    requires error.Some? ==> after == before
    ensures InLedger(g, after, id)
  {
    LiveKeeps(RecordsOf(before), now);
    var e :| e in RecordsOf(before) && e.digest == g.digest(id) && e.expires == g.claims(id).expires;
    assert e in RecordsOf(after);
  }

  lemma NewUseIsGuarded(g: Issuer, h: Hub, after: Hub, stage: Stage, r: Record)
    requires stage.Checked? && r == RecordFor(g, stage.id, stage.publisher) && r in RecordsOf(after.ledger)
    requires after.now == h.now && StageOk(g, h.now, stage)
    ensures UseOk(g, after.now, Use(stage.id, Seconds(h.now))) && Guarded(g, after, Use(stage.id, Seconds(h.now)))
  {}

  /** A second use gets through only after the token has expired. */
  lemma NewUseIsLater(g: Issuer, h: Hub, stage: Stage)
    requires Once(g, h.uses) && stage.Checked? && (exists r :: r in h.requests && h.requests[r] == stage)
    requires forall u :: u in h.uses ==> UseOk(g, h.now, u) && Guarded(g, h, u)
    requires forall e :: e in RecordsOf(h.ledger) && e.expires > Seconds(h.now) ==> e.digest != g.digest(stage.id)
    ensures Once(g, h.uses + [Use(stage.id, Seconds(h.now))])
  {
    forall i | 0 <= i < |h.uses| && h.uses[i].id == stage.id ensures Seconds(h.now) >= g.claims(stage.id).expires {
      var u := h.uses[i];
      assert u in h.uses && UseOk(g, h.now, u) && Guarded(g, h, u);
      var r :| r in h.requests && h.requests[r] == stage;
    }
  }

  /** The pause of a restore outlasts every token that was used before it. */
  lemma RestoreKeepsInv(g: Issuer, h: Hub, step: Step)
    requires Inv(g, h) && step.Restore?
    ensures Inv(g, Next(g, h, step))
  {
    hide Kept, WorkspaceName, InLedger, WellFormed;
    if step.index < |h.snapshots| {
      var after := Next(g, h, step);
      PauseOutlasts(0, h.now);
      forall u | u in after.uses ensures UseOk(g, after.now, u) && Guarded(g, after, u) {
        assert UseOk(g, h.now, u);
        PauseOutlasts(g.claims(u.id).expires, h.now);
      }
    }
  }

  lemma PauseOutlasts(expires: int, now: nat)
    ensures expires <= Seconds(now) + HORIZON ==> expires * SECOND <= AllExpired(now) <= Micro(now) + QUARANTINE
  {}

  lemma {:induction false} StepKeepsInv(g: Issuer, h: Hub, step: Step)
    requires Inv(g, h) && Careful(h, step)
    ensures Inv(g, Next(g, h, step))
  {
    match step
    case Advance(ns) => TimePasses(g, h, h.now + ns);
    case Verify(_, _) => VerifyKeepsInv(g, h, step);
    case Recheck(_, _, _) => RecheckKeepsInv(g, h, step);
    case Consume(_, _) => ConsumeKeepsInv(g, h, step);
    case Backup => OtherKeepsInv(g, h, step);
    case Restore(_) => RestoreKeepsInv(g, h, step);
    case Reload(_) => OtherKeepsInv(g, h, step);
  }

  lemma OtherKeepsInv(g: Issuer, h: Hub, step: Step)
    requires Inv(g, h) && Careful(h, step) && (step.Backup? || step.Reload?)
    ensures Inv(g, Next(g, h, step))
  {
    hide Kept, WorkspaceName, InLedger, WellFormed;
    var after := Next(g, h, step);
    forall u | u in after.uses ensures UseOk(g, after.now, u) && Guarded(g, after, u) {
      assert UseOk(g, h.now, u) && Guarded(g, h, u);
    }
  }

  lemma {:induction false} InvAlways(g: Issuer, start: Hub, steps: seq<Step>)
    requires WellFormed(g) && Starting(start) && AllCareful(g, start, steps)
    ensures Inv(g, After(g, start, steps))
    decreases |steps|
  {
    hide Next, Kept, WellFormed;
    if steps != [] {
      InvAlways(g, start, steps[..|steps|-1]);
      StepKeepsInv(g, After(g, start, steps[..|steps|-1]), steps[|steps|-1]);
    }
  }

  /**
   * Over any life of a hub whose reloads honour a pause that is called for, with any requests in flight and any
   * number of restores of any snapshots: of the uses of one token all but the first come after its expiry.
   */
  lemma {:induction false} TokensAreUsedOnce(g: Issuer, start: Hub, steps: seq<Step>, i: nat, j: nat)
    requires WellFormed(g) && Starting(start) && AllCareful(g, start, steps)
    requires var uses := After(g, start, steps).uses; i < j < |uses| && uses[i].id == uses[j].id
    ensures var u := After(g, start, steps).uses[j]; u.second >= g.claims(u.id).expires
  {
    InvAlways(g, start, steps);
  }

  /** The ledger never locks publishers out: at every point of such a life it is readable and none of its records is refused. */
  lemma LedgerIsAlwaysAcceptable(g: Issuer, start: Hub, steps: seq<Step>, r: Record, written: bool)
    requires WellFormed(g) && Starting(start) && AllCareful(g, start, steps)
    requires Reservable(r, Seconds(After(g, start, steps).now))
    ensures var h := After(g, start, steps);
            var error := ConsumeOf(h.ledger, r, Seconds(h.now), written).1;
            error != Some(InvalidLedger) && error != Some(InvalidRecord)
  {
    InvAlways(g, start, steps);
    var h := After(g, start, steps);
    ConsumeKeeps(h.ledger, r, Seconds(h.now), Seconds(h.now), written);
  }

  // ----- when a token can be used at all -----

  /** Verified at `second` at the latest. */
  predicate VerifiedBy(c: Claims, second: int) {
    && 0 < c.issued <= second + 30 && 0 < c.notBefore <= second + 30 && c.notBefore <= c.issued + 30
    && c.issued < c.expires <= c.issued + 600
  }

  predicate AllTimely(g: Issuer, h: Hub) {
    && (forall r :: r in h.requests ==> VerifiedBy(g.claims(h.requests[r].id), Seconds(h.now)))
    && (forall u :: u in h.uses ==> VerifiedBy(g.claims(u.id), u.second))
  }

  lemma StepIsTimely(g: Issuer, h: Hub, step: Step)
    requires AllTimely(g, h)
    ensures AllTimely(g, Next(g, h, step))
  {
    hide ConsumeOf, WorkspaceName;
    var after := Next(g, h, step);
    forall r | r in after.requests ensures VerifiedBy(g.claims(after.requests[r].id), Seconds(after.now)) {
      if r in h.requests {
        assert VerifiedBy(g.claims(h.requests[r].id), Seconds(h.now));
        SecondsGrow(h.now, after.now);
      }
    }
  }

  /**
   * Whatever else happens -- careless reloads, restores, stalled requests -- no token is let through more than 30 seconds before it
   * was issued or becomes valid, and none that was issued for more than ten minutes.
   */
  lemma {:induction false} NoTokenIsUsedEarly(g: Issuer, start: Hub, steps: seq<Step>)
    requires start.requests == map[] && start.uses == []
    ensures AllTimely(g, After(g, start, steps))
    ensures forall u :: u in After(g, start, steps).uses ==>
      u.second >= g.claims(u.id).notBefore - 30 && u.second >= g.claims(u.id).issued - 30 && g.claims(u.id).expires - g.claims(u.id).issued <= 600
    decreases |steps|
  {
    hide Next;
    if steps != [] {
      NoTokenIsUsedEarly(g, start, steps[..|steps|-1]);
      StepIsTimely(g, After(g, start, steps[..|steps|-1]), steps[|steps|-1]);
    }
  }

  // ----- the pause after a restore -----

  /** Until the deadline nothing is past the pause and nothing is used. */
  predicate Waiting(h: Hub, deadline: int, uses: seq<Use>) {
    && h.policy.until.Some? && deadline <= h.policy.until.value
    && (h.now < deadline ==> h.uses == uses && forall r :: r in h.requests ==> h.requests[r].Verified?)
  }

  lemma StepWaits(g: Issuer, h: Hub, step: Step, deadline: int, uses: seq<Use>)
    requires Waiting(h, deadline, uses) && !step.Restore? && !step.Reload?
    ensures Waiting(Next(g, h, step), deadline, uses)
  {
    hide ConsumeOf, WorkspaceName, LifetimeOk;
  }

  /**
   * A restored hub with publishers lets no token through for 660 seconds from the restore, whatever requests come, unless its
   * configuration is loaded anew; and a longer pause in the snapshot is kept.
   */
  lemma {:induction false} RestorePauses(g: Issuer, h: Hub, k: nat, steps: seq<Step>)
    requires k < |h.snapshots| && h.snapshots[k].policy.enabled
    requires forall s :: s in steps ==> !s.Restore? && !s.Reload?
    ensures var restored, after := Next(g, h, Restore(k)), After(g, Next(g, h, Restore(k)), steps);
            var until := h.snapshots[k].policy.until;
            && (after.now < h.now - h.now % 1000 + 660_000_000_000 ==> after.uses == h.uses)
            && (until.Some? && after.now < until.value - until.value % 1000 ==> after.uses == h.uses)
            && Waiting(after, restored.policy.until.value, h.uses)
    decreases |steps|
  {
    hide ConsumeOf, WorkspaceName, LifetimeOk;
    var restored := Next(g, h, Restore(k));
    if steps != [] {
      var before := After(g, restored, steps[..|steps|-1]);
      RestorePauses(g, h, k, steps[..|steps|-1]);
      StepWaits(g, before, steps[|steps|-1], restored.policy.until.value, h.uses);
    }
  }

  // ----- how tight this is -----

  /** Every token verified by `now` has expired once a pause of `q` nanoseconds from then on is over. */
  predicate Outlasts(q: int, now: nat, expires: int) {
    expires <= Seconds(now) + HORIZON ==> expires <= Seconds(Micro(now) + q)
  }

  /** A pause outlasts every such token if and only if it is at least 630 seconds; the one in force is 660. */
  lemma ShortestSafePause(q: int)
    requires q >= 0
    ensures (forall now: nat, expires: int :: Outlasts(q, now, expires)) <==> q >= HORIZON * SECOND
  {
    if q >= HORIZON * SECOND {
      forall now: nat, expires: int ensures Outlasts(q, now, expires) {
        assert Micro(now) + q >= Seconds(now) * SECOND + HORIZON * SECOND;
      }
    } else {
      assert Seconds(0) == 0 && Micro(0) == 0;
      assert !Outlasts(q, 0, HORIZON);
    }
  }

  /** Such a token exists: 630 seconds is what the lifetime checks allow, and no more. */
  lemma LongestLifetime(now: int)
    requires now >= 0
    ensures LifetimeOk(Claims(now + 30, now + 30, now + HORIZON), now)
    ensures forall c :: LifetimeOk(c, now) ==> c.expires <= now + HORIZON
  {}

  /**
   * `consume` does not look at the token's own expiry: two requests for one token that are both past the
   * checks are both let through when the second reaches the ledger after the expiry.
   */
  lemma StalledRequestIsUsedAgain(g: Issuer, h: Hub, a: nat, b: nat, wait: nat)
    requires WellFormed(g) && h.ledger == Missing && a != b && a in h.requests && b in h.requests
    requires h.requests[a].Checked? && h.requests[b].Checked? && h.requests[a].id == h.requests[b].id
    requires StageOk(g, h.now, h.requests[a]) && StageOk(g, h.now, h.requests[b])
    requires Seconds(h.now + wait) >= g.claims(h.requests[a].id).expires
    ensures var id := h.requests[a].id;
            After(g, h, [Consume(a, true), Advance(wait), Consume(b, true)]).uses
              == h.uses + [Use(id, Seconds(h.now)), Use(id, Seconds(h.now + wait))]
  {
    var id := h.requests[a].id;
    var ra, rb := RecordFor(g, id, h.requests[a].publisher), RecordFor(g, id, h.requests[b].publisher);
    var one := Next(g, h, Consume(a, true));
    assert Live([], Seconds(h.now)) == [] && [] + [ra] == [ra];
    assert one.ledger == ReservedIn(Missing, ra, Seconds(h.now)) && RecordsOf(one.ledger) == [ra];
    var two := Next(g, one, Advance(wait));
    EmptyAgain(g, one.ledger, ra, rb, Seconds(h.now), Seconds(two.now));
    var three := Next(g, two, Consume(b, true));
    ThreeSteps(g, h, Consume(a, true), Advance(wait), Consume(b, true));
    assert h.uses + [Use(id, Seconds(h.now))] + [Use(id, Seconds(h.now + wait))]
        == h.uses + [Use(id, Seconds(h.now)), Use(id, Seconds(h.now + wait))];
  }

  /**
   * The condition on reloads is needed: after a restore of a snapshot taken before the token's use, a reload
   * that enables publishing without the deadline -- for a snapshot without publishers there is none to keep --
   * lets a live token through a second time.
   */
  lemma CarelessReloadReusesTokens(g: Issuer, h: Hub, k: nat, id: string, publisher: string)
    requires WellFormed(g) && k < |h.snapshots| && h.snapshots[k].ledger == Missing
    requires LifetimeOk(g.claims(id), Seconds(h.now)) && WorkspaceName(publisher)
    requires Use(id, Seconds(h.now)) in h.uses
    ensures !Careful(After(g, h, [Restore(k)]), Reload(Policy(true, None)))
    ensures var uses := After(g, h, [Restore(k), Reload(Policy(true, None)), Verify(0, id), Recheck(0, publisher, 0), Consume(0, true)]).uses;
            uses == h.uses + [Use(id, Seconds(h.now))] && !Once(g, uses)
  {
    hide LifetimeOk, WorkspaceName, ConsumeOf;
    var one := Next(g, h, Restore(k));
    var two := Next(g, one, Reload(Policy(true, None)));
    var steps := [Restore(k), Reload(Policy(true, None)), Verify(0, id), Recheck(0, publisher, 0), Consume(0, true)];
    OneStep(g, h, Restore(k));
    OpenHubConsumes(g, two, id, publisher);
    ThreeSteps(g, h, steps[0], steps[1], steps[2]);
    FiveSteps(g, h, steps);
    assert steps[..3] == [steps[0], steps[1], steps[2]];
    var uses := h.uses + [Use(id, Seconds(h.now))];
    var i :| 0 <= i < |h.uses| && h.uses[i] == Use(id, Seconds(h.now));
    NotOnce(g, uses, i, |h.uses|);
  }

  lemma NotOnce(g: Issuer, uses: seq<Use>, i: nat, j: nat)
    requires i < j < |uses| && uses[i].id == uses[j].id && uses[j].second < g.claims(uses[j].id).expires
    ensures !Once(g, uses)
  {}

  lemma OpenHubConsumes(g: Issuer, h: Hub, id: string, publisher: string)
    requires WellFormed(g) && h.ledger == Missing && h.policy == Policy(true, None) && h.requests == map[]
    requires LifetimeOk(g.claims(id), Seconds(h.now)) && WorkspaceName(publisher)
    ensures Next(g, Next(g, Next(g, h, Verify(0, id)), Recheck(0, publisher, 0)), Consume(0, true)).uses == h.uses + [Use(id, Seconds(h.now))]
    ensures Seconds(h.now) < g.claims(id).expires
  {
    hide WorkspaceName;
    var checked := Next(g, Next(g, h, Verify(0, id)), Recheck(0, publisher, 0));
    assert checked.requests == map[0 := Checked(id, publisher)] && checked.ledger == Missing;
    assert Live([], Seconds(h.now)) == [];
    assert ConsumeOf(Missing, RecordFor(g, id, publisher), Seconds(h.now), true).1.None?;
  }

  lemma FiveSteps(g: Issuer, h: Hub, steps: seq<Step>)
    requires |steps| == 5
    ensures After(g, h, steps) == Next(g, Next(g, After(g, h, steps[..3]), steps[3]), steps[4])
  {
    hide Next;
    assert steps[..4][..3] == steps[..3];
  }

  lemma EmptyAgain(g: Issuer, file: LedgerFile, ra: Record, rb: Record, earlier: int, now: int)
    requires Reservable(ra, earlier) && earlier <= now && file == ReservedIn(Missing, ra, earlier) && ra.expires <= now && rb.expires >= 0
    ensures ConsumeOf(file, rb, now, true).1.None?
  {
    assert Live([], earlier) == [] && [] + [ra] == [ra];
    assert RecordsOf(file) == [ra];
    assert [ra][..0] == [];
    assert ValidRecord(ra, now);
    assert Storable(ra);
    EncodedIsSmall([ra]);
    assert ScanError([ra], rb.digest, now).None?;
    assert Live([ra], now) == [];
  }

  lemma OneStep(g: Issuer, h: Hub, a: Step)
    ensures After(g, h, [a]) == Next(g, h, a)
  {
    assert [a][..0] == [];
  }

  lemma ThreeSteps(g: Issuer, h: Hub, a: Step, b: Step, c: Step)
    ensures After(g, h, [a, b, c]) == Next(g, Next(g, Next(g, h, a), b), c)
  {
    hide Next;
    assert [a, b, c][..2] == [a, b] && [a, b][..1] == [a];
    OneStep(g, h, a);
    assert After(g, h, [a, b]) == Next(g, Next(g, h, a), b);
  }
}
