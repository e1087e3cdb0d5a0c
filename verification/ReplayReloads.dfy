/**
 * Which reloads after a restore let a live token in again, and how a stalled request comes about
 * (internal/hub/oidc.go with scripts/hub-backup.py).
 */
module ReplayReloads {
  import opened Ordering
  import opened ReplayLedger
  import opened ReplayProtocol

  /** The first moment at which a policy in force from now on lets requests past the pause. */
  function OpenFrom(p: Policy, now: int): int { if p.until.Some? && p.until.value > now then p.until.value else now }

  /** Under this policy a token with this expiry can still be presented. */
  predicate LetsIn(p: Policy, now: int, expires: int) { p.enabled && expires > Seconds(OpenFrom(p, now)) }

  /** A policy honours the pause of a restore if and only if it lets in no token that was verified before the restore. */
  lemma HonoursIff(p: Policy, now: nat)
    requires p.until.Some? ==> p.until.value >= 0
    ensures Honours(p, AllExpired(now), now) <==> forall expires: int :: expires <= Seconds(now) + HORIZON ==> !LetsIn(p, now, expires)
  {
    if Honours(p, AllExpired(now), now) {
      forall expires: int | expires <= Seconds(now) + HORIZON ensures !LetsIn(p, now, expires) {}
    } else {
      assert LetsIn(p, now, Seconds(now) + HORIZON);
    }
  }

  predicate Quiet(steps: seq<Step>) { forall k :: k in steps ==> !k.Reload? && !k.Restore? }

  lemma AfterMore(g: Issuer, h: Hub, steps: seq<Step>, more: seq<Step>)
    ensures After(g, h, steps + more) == After(g, After(g, h, steps), more)
    decreases |more|
  {
    hide Next;
    if more == [] {
      assert steps + more == steps;
    } else {
      assert (steps + more)[..|steps + more|-1] == steps + more[..|more|-1];
      AfterMore(g, h, steps, more[..|more|-1]);
    }
  }

  /** From `h` on the token was neither let past the pause nor used. */
  ghost predicate KeptOut(h: Hub, after: Hub, id: string) {
    && after.policy == h.policy && after.now >= h.now && NoneChecked(after, id) && |after.uses| >= |h.uses|
    && forall i :: |h.uses| <= i < |after.uses| ==> after.uses[i].id != id
  }

  lemma KeptOutStep(g: Issuer, h: Hub, before: Hub, step: Step, id: string)
    requires KeptOut(h, before, id) && !step.Reload? && !step.Restore? && !LetsIn(h.policy, h.now, g.claims(id).expires)
    ensures KeptOut(h, Next(g, before, step), id)
  {
    hide ConsumeOf, LifetimeOk, WorkspaceName;
  }

  lemma {:induction false} StaysKeptOut(g: Issuer, h: Hub, steps: seq<Step>, id: string)
    requires Quiet(steps) && NoneChecked(h, id) && !LetsIn(h.policy, h.now, g.claims(id).expires)
    ensures KeptOut(h, After(g, h, steps), id)
    decreases |steps|
  {
    hide Next, LetsIn;
    if steps != [] {
      var n := |steps| - 1;
      assert steps[n] in steps;
      StaysKeptOut(g, h, steps[..n], id);
      KeptOutStep(g, h, After(g, h, steps[..n]), steps[n], id);
    }
  }

  /** The token can be used once more, before it expires, without another reload or restore. */
  ghost predicate CanBeUsedAgain(g: Issuer, h: Hub, id: string) {
    exists steps :: Quiet(steps) && UsedAgain(g, h, After(g, h, steps), id)
  }

  ghost predicate UsedAgain(g: Issuer, h: Hub, after: Hub, id: string) {
    exists i :: |h.uses| <= i < |after.uses| && after.uses[i].id == id && after.uses[i].second < g.claims(id).expires
  }

  /** A ledger as a restore leaves it: rolled back to before the token's use, with room for one more record. */
  ghost predicate RolledBack(g: Issuer, h: Hub, id: string, publisher: string) {
    && Kept(h.ledger, Seconds(h.now)) && h.requests == map[] && WorkspaceName(publisher)
    && |RecordsOf(h.ledger)| < MAX_RECORDS && Count(RecordsOf(h.ledger), publisher) < MAX_PER_PUBLISHER
    && (forall e :: e in RecordsOf(h.ledger) ==> e.digest != g.digest(id))
  }

  lemma StillVerifiable(c: Claims, earlier: int, now: int)
    requires LifetimeOk(c, earlier) && earlier <= now < c.expires
    ensures LifetimeOk(c, now)
  {}

  lemma RoomForOne(g: Issuer, h: Hub, id: string, publisher: string, now: int)
    requires WellFormed(g) && RolledBack(g, h, id, publisher) && Seconds(h.now) <= now
    requires LifetimeOk(g.claims(id), now)
    ensures ConsumeOf(h.ledger, RecordFor(g, id, publisher), now, true).1.None?
  {
    hide ValidRecord, Encoded, LifetimeOk, WorkspaceName, Kept;
    var r := RecordFor(g, id, publisher);
    VerifiedLifetime(g.claims(id), now);
    ReservableIs(r, now);
    ConsumeKeeps(h.ledger, r, Seconds(h.now), now, true);
    LiveKeeps(RecordsOf(h.ledger), now);
    LiveIsFewer(RecordsOf(h.ledger), now, publisher);
    CapacityOnly(h.ledger, r, now);
  }

  lemma ReservableIs(r: Record, now: int)
    requires |r.digest| == 64 && WorkspaceName(r.publisher) && 0 < r.expires <= now + HORIZON && r.expires < INT64
    ensures Reservable(r, now)
  {}

  lemma CapacityOnly(file: LedgerFile, r: Record, now: int)
    requires r.expires >= 0
    requires |Live(RecordsOf(file), now)| < MAX_RECORDS && Count(Live(RecordsOf(file), now), r.publisher) < MAX_PER_PUBLISHER
    ensures var error := ConsumeOf(file, r, now, true).1; error.None? || error in {Some(InvalidLedger), Some(InvalidRecord), Some(AlreadyUsed)}
  {
    ScanMeans(RecordsOf(file), r.digest, now);
  }

  lemma PresentedAgain(g: Issuer, h: Hub, id: string, publisher: string, earlier: int)
    requires WellFormed(g) && RolledBack(g, h, id, publisher) && LifetimeOk(g.claims(id), earlier) && earlier <= Seconds(h.now)
    requires LetsIn(h.policy, h.now, g.claims(id).expires) && (h.policy.until.Some? ==> h.policy.until.value >= 0)
    ensures CanBeUsedAgain(g, h, id)
  {
    hide LifetimeOk, WorkspaceName, ConsumeOf, Kept, Count;
    var wait: nat := OpenFrom(h.policy, h.now) - h.now;
    var open := h.(now := h.now + wait);
    SecondsGrow(h.now, open.now);
    StillVerifiable(g.claims(id), earlier, Seconds(open.now));
    RoomForOne(g, h, id, publisher, Seconds(open.now));
    ThreeMoreSteps(g, open, id, publisher);
    var steps := [Advance(wait)] + [Verify(0, id), Recheck(0, publisher, 0), Consume(0, true)];
    AfterMore(g, h, [Advance(wait)], [Verify(0, id), Recheck(0, publisher, 0), Consume(0, true)]);
    OneStep(g, h, Advance(wait));
    assert After(g, h, [Advance(wait)]) == open;
    var after := After(g, h, steps);
    assert after.uses == h.uses + [Use(id, Seconds(open.now))];
    assert after.uses[|h.uses|].id == id && after.uses[|h.uses|].second < g.claims(id).expires;
    assert UsedAgain(g, h, after, id);
    assert Quiet(steps);
  }

  lemma ThreeMoreSteps(g: Issuer, h: Hub, id: string, publisher: string)
    requires h.requests == map[] && h.policy.enabled && !Paused(h.policy, h.now) && WorkspaceName(publisher)
    requires LifetimeOk(g.claims(id), Seconds(h.now)) && g.claims(id).expires >= 0
    requires ConsumeOf(h.ledger, RecordFor(g, id, publisher), Seconds(h.now), true).1.None?
    ensures After(g, h, [Verify(0, id), Recheck(0, publisher, 0), Consume(0, true)]).uses == h.uses + [Use(id, Seconds(h.now))]
  {
    hide WorkspaceName, ConsumeOf;
    ThreeSteps(g, h, Verify(0, id), Recheck(0, publisher, 0), Consume(0, true));
    var checked := Next(g, Next(g, h, Verify(0, id)), Recheck(0, publisher, 0));
    assert checked.requests == map[0 := Checked(id, publisher)] && checked.ledger == h.ledger && checked.now == h.now;
  }

  /**
   * After a restore that forgot the use of a token, a reloaded policy lets that token be used again, in some run without
   * further reloads, if and only if publishing is enabled and the pause, if there is one, ends before the token does.
   */
  lemma {:induction false} ReloadReopensIff(g: Issuer, h: Hub, p: Policy, id: string, publisher: string, earlier: int)
    requires WellFormed(g) && RolledBack(g, h, id, publisher) && LifetimeOk(g.claims(id), earlier) && earlier <= Seconds(h.now)
    requires p.until.Some? ==> p.until.value >= 0
    ensures CanBeUsedAgain(g, Next(g, h, Reload(p)), id) <==> LetsIn(p, h.now, g.claims(id).expires)
  {
    hide LifetimeOk, WorkspaceName, After, LetsIn, Kept, Count;
    var reloaded := Next(g, h, Reload(p));
    if LetsIn(p, h.now, g.claims(id).expires) {
      PresentedAgain(g, reloaded, id, publisher, earlier);
    } else {
      forall steps | Quiet(steps) ensures !UsedAgain(g, reloaded, After(g, reloaded, steps), id) {
        StaysKeptOut(g, reloaded, steps, id);
      }
    }
  }

  /** Two requests for one token, both past the checks. */
  lemma BothChecked(g: Issuer, start: Hub, id: string, publisher: string)
    requires start.requests == map[] && start.policy.enabled && !Paused(start.policy, start.now)
    requires LifetimeOk(g.claims(id), Seconds(start.now)) && WorkspaceName(publisher)
    ensures After(g, start, [Verify(0, id), Verify(1, id), Recheck(0, publisher, 0)] + [Recheck(1, publisher, 0)])
         == start.(requests := map[0 := Checked(id, publisher), 1 := Checked(id, publisher)])
  {
    hide LifetimeOk, WorkspaceName, ConsumeOf;
    VerifiedLifetime(g.claims(id), Seconds(start.now));
    var three := [Verify(0, id), Verify(1, id), Recheck(0, publisher, 0)];
    ThreeSteps(g, start, three[0], three[1], three[2]);
    var one := After(g, start, three);
    assert one.requests == map[0 := Checked(id, publisher), 1 := Verified(id)];
    OneStep(g, one, Recheck(1, publisher, 0));
    AfterMore(g, start, three, [Recheck(1, publisher, 0)]);
    assert map[0 := Checked(id, publisher), 1 := Verified(id)][1 := Checked(id, publisher)]
        == map[0 := Checked(id, publisher), 1 := Checked(id, publisher)];
  }

  /** The stall is reached by an ordinary life: two requests for one token, both checked, one of them late at the ledger. */
  lemma StallFromTheStart(g: Issuer, start: Hub, id: string, publisher: string, wait: nat)
    requires WellFormed(g) && Starting(start) && start.ledger == Missing && start.policy.enabled && !Paused(start.policy, start.now)
    requires LifetimeOk(g.claims(id), Seconds(start.now)) && WorkspaceName(publisher)
    requires Seconds(start.now + wait) >= g.claims(id).expires
    ensures var steps := [Verify(0, id), Verify(1, id), Recheck(0, publisher, 0)] + [Recheck(1, publisher, 0)]
                         + [Consume(0, true), Advance(wait), Consume(1, true)];
            && AllCareful(g, start, steps)
            && After(g, start, steps).uses == [Use(id, Seconds(start.now)), Use(id, Seconds(start.now + wait))]
  {
    hide LifetimeOk, WorkspaceName, AllCareful, Kept, WellFormed, After, Next;
    VerifiedLifetime(g.claims(id), Seconds(start.now));
    BothChecked(g, start, id, publisher);
    var first := [Verify(0, id), Verify(1, id), Recheck(0, publisher, 0)] + [Recheck(1, publisher, 0)];
    var last := [Consume(0, true), Advance(wait), Consume(1, true)];
    StalledRequestIsUsedAgain(g, After(g, start, first), 0, 1, wait);
    AfterMore(g, start, first, last);
    NoReloadIsCareful(g, start, first + last);
    assert start.uses == [];
  }

  lemma {:induction false} NoReloadIsCareful(g: Issuer, start: Hub, steps: seq<Step>)
    requires forall k :: k in steps ==> !k.Reload?
    ensures AllCareful(g, start, steps)
    decreases |steps|
  {
    hide After;
    if steps != [] {
      assert steps[|steps|-1] in steps;
      NoReloadIsCareful(g, start, steps[..|steps|-1]);
    }
  }
}
