/**
 The audit log balances against the meters: what every step of the system keeps about usage, under
 interleaved transactions that hold stale reads.
 */
module Accounting {
  import opened Wrappers
  import opened Store
  import opened Machine
  import Calendar
  import Quota
  import Intake
  import Failure
  import CompGrant
  import Webhook
  import Delivery

  /** The sum of the meters of an organization. */
  function Usage(subs: seq<Subscription>, org: OrgId): int {
    if subs == [] then 0
    else
      var s := subs[|subs| - 1];
      var last := if s.orgId == org then s.usageCount else 0;
      Usage(subs[..|subs| - 1], org) + last
  }

  /** The units of an organization that rollovers and grants wrote over. */
  function Overwritten(log: seq<Overwrite>, org: OrgId): int {
    if log == [] then 0
    else
      var o := log[|log| - 1];
      var last := if o.orgId == org then o.units else 0;
      Overwritten(log[..|log| - 1], org) + last
  }

  /** The SERVICE_REQUEST_STAGED audits of an organization. */
  function Staged(audits: seq<AuditLog>, org: OrgId): nat {
    if audits == [] then 0
    else
      var a := audits[|audits| - 1];
      var last := if a.SERVICE_REQUEST_STAGED? && a.orgId == org then 1 else 0;
      Staged(audits[..|audits| - 1], org) + last
  }

  /** Its SERVICE_FAILED audits with `quotaRestored`. */
  function Restored(audits: seq<AuditLog>, org: OrgId): nat {
    if audits == [] then 0
    else
      var a := audits[|audits| - 1];
      var last := if a.SERVICE_FAILED? && a.orgId == org && a.quotaRestored then 1 else 0;
      Restored(audits[..|audits| - 1], org) + last
  }

  /** What the meters and the lost units hold beyond what the audits explain. */
  function Excess(s: Sys, org: OrgId): int {
    Usage(s.t.subs, org) + Overwritten(s.hist.overwrites, org) - Staged(s.t.audits, org) + Restored(s.t.audits, org)
  }

  // ---------- The invariant ----------

  function LimitOf(tierId: string): int {
    Quota.TierQuota(tierId).GetOr(0)
  }

  predicate InBounds(s: Subscription) {
    0 <= s.usageCount <= LimitOf(s.tierId)
  }

  /** After creation a tier is only ever replaced by the tier of a comp grant. */
  predicate Risen(before: string, after: string) {
    after == before || after == CompGrant.COMP_GRANT_TIER
  }

  /** Subscription `i` is still there, with its owner, and its tier has at most risen. */
  predicate Persists(a: seq<Subscription>, b: seq<Subscription>) {
    |a| <= |b| && forall i :: 0 <= i < |a| ==> b[i].orgId == a[i].orgId && Risen(a[i].tierId, b[i].tierId)
  }

  predicate PendingOk(subs: seq<Subscription>, p: Pending) {
    match p
    case PendingIntake(org, i, seen) =>
      i < |subs| && subs[i].orgId == org && Risen(seen.tierId, subs[i].tierId)
    case PendingGrant(org, existing) =>
      existing.Some? ==> existing.value < |subs| && subs[existing.value].orgId == org
    case PendingStripe(_, _) => true
  }

  predicate CreditOk(s: Sys) {
    s.pc.Busy? && s.pc.stage.Parking? && s.pc.stage.credit.Some? ==>
      s.pc.stage.credit.value < |s.t.subs| && s.t.subs[s.pc.stage.credit.value].orgId == s.pc.snap.orgId
  }

  ghost predicate ReadsOk(s: Sys) {
    CreditOk(s) && forall k :: 0 <= k < |s.pending| ==> PendingOk(s.t.subs, s.pending[k])
  }

  ghost predicate BoundsOk(subs: seq<Subscription>) {
    forall i :: 0 <= i < |subs| ==> InBounds(subs[i])
  }

  ghost predicate Inv(s: Sys, org: OrgId) {
    ReadsOk(s) && BoundsOk(s.t.subs) && Excess(s, org) == 0
  }

  // ---------- Sums ----------

  lemma {:induction false} UsageUpdate(subs: seq<Subscription>, i: nat, sub: Subscription, org: OrgId)
    requires i < |subs| && sub.orgId == subs[i].orgId
    ensures Usage(subs[i := sub], org)
         == Usage(subs, org) + (if sub.orgId == org then sub.usageCount - subs[i].usageCount else 0)
  {
    var after := subs[i := sub];
    if i == |subs| - 1 {
      assert after[..i] == subs[..i];
    } else {
      UsageUpdate(subs[..|subs| - 1], i, sub, org);
      assert after[..|subs| - 1] == subs[..|subs| - 1][i := sub];
    }
  }

  lemma UsageAppended(subs: seq<Subscription>, sub: Subscription, org: OrgId)
    ensures Usage(subs + [sub], org) == Usage(subs, org) + (if sub.orgId == org then sub.usageCount else 0)
  {
    assert (subs + [sub])[..|subs|] == subs;
  }

  lemma AuditAppended(audits: seq<AuditLog>, a: AuditLog, org: OrgId)
    ensures Staged(audits + [a], org)
         == Staged(audits, org) + (if a.SERVICE_REQUEST_STAGED? && a.orgId == org then 1 else 0)
    ensures Restored(audits + [a], org)
         == Restored(audits, org) + (if a.SERVICE_FAILED? && a.orgId == org && a.quotaRestored then 1 else 0)
  {
    assert (audits + [a])[..|audits|] == audits;
  }

  lemma OverwriteAppended(log: seq<Overwrite>, o: Overwrite, org: OrgId)
    ensures Overwritten(log + [o], org) == Overwritten(log, org) + (if o.orgId == org then o.units else 0)
  {
    assert (log + [o])[..|log|] == log;
  }

  lemma PersistsKeepsPending(a: seq<Subscription>, b: seq<Subscription>, pending: seq<Pending>)
    requires Persists(a, b)
    requires forall k :: 0 <= k < |pending| ==> PendingOk(a, pending[k])
    ensures forall k :: 0 <= k < |pending| ==> PendingOk(b, pending[k])
  {
    forall k | 0 <= k < |pending|
      ensures PendingOk(b, pending[k])
    {
      assert PendingOk(a, pending[k]);
    }
  }

  lemma RemoveKeepsPending(subs: seq<Subscription>, pending: seq<Pending>, k: nat)
    requires k < |pending| && forall j :: 0 <= j < |pending| ==> PendingOk(subs, pending[j])
    ensures forall j :: 0 <= j < |Remove(pending, k)| ==> PendingOk(subs, Remove(pending, k)[j])
  {
    forall j | 0 <= j < |Remove(pending, k)|
      ensures PendingOk(subs, Remove(pending, k)[j])
    {
      assert Remove(pending, k)[j] == pending[if j < k then j else j + 1];
    }
  }

  // ---------- Transactions balance ----------

  /** A charge decided on a stale read stays within the limit and adds one unit, net of what it overwrites. */
  lemma ChargeStaysInBounds(sub: Subscription, seen: Subscription, now: int)
    requires InBounds(sub) && Risen(seen.tierId, sub.tierId) && Quota.ChargeSub(sub, seen, now).Ok?
    ensures var u := Quota.ChargeSub(sub, seen, now).value;
            && InBounds(u.sub) && u.sub.orgId == sub.orgId && u.sub.tierId == sub.tierId
            && u.sub.usageCount + u.overwritten == sub.usageCount + 1
  {
  }

  /** An intake adds one unit, net of what it overwrote, and one audit to its organization. */
  lemma IntakeEffect(t: Tables, p: Pending, now: int, draft: Intake.Draft, sha256: Option<Intake.Hex>, org: OrgId)
    requires p.PendingIntake? && PendingOk(t.subs, p) && BoundsOk(t.subs)
    requires Intake.IntakeAt(t, p.org, p.i, p.seen, now, draft, sha256).Ok?
    ensures var done := Intake.IntakeAt(t, p.org, p.i, p.seen, now, draft, sha256).value;
            var t', one := done.tables, if p.org == org then 1 else 0;
            && Persists(t.subs, t'.subs) && BoundsOk(t'.subs)
            && Usage(t'.subs, org) == Usage(t.subs, org) + one - one * done.overwritten
            && Staged(t'.audits, org) == Staged(t.audits, org) + one
            && Restored(t'.audits, org) == Restored(t.audits, org)
  {
    var u := Quota.ChargeSub(t.subs[p.i], p.seen, now).value;
    ChargeStaysInBounds(t.subs[p.i], p.seen, now);
    UsageUpdate(t.subs, p.i, u.sub, org);
    AuditAppended(t.audits, SERVICE_REQUEST_STAGED(|t.rows|, p.org), org);
  }

  /** Committing a transaction that balances its units against its audits. */
  lemma CommitBalances(s: Sys, k: nat, t: Tables, o: Overwrite, org: OrgId)
    requires Inv(s, org) && k < |s.pending| && Persists(s.t.subs, t.subs) && BoundsOk(t.subs)
    requires Usage(t.subs, org) + (if o.orgId == org then o.units else 0)
             - Staged(t.audits, org) + Restored(t.audits, org)
          == Usage(s.t.subs, org) - Staged(s.t.audits, org) + Restored(s.t.audits, org)
    ensures Inv(Commit(s, k, t, o), org)
  {
    RemoveKeepsPending(s.t.subs, s.pending, k);
    PersistsKeepsPending(s.t.subs, t.subs, Remove(s.pending, k));
    OverwriteAppended(s.hist.overwrites, o, org);
  }

  lemma IntakeBalances(s: Sys, k: nat, now: int, draft: Intake.Draft, sha256: Option<Intake.Hex>, org: OrgId)
    requires Inv(s, org) && k < |s.pending| && s.pending[k].PendingIntake? && s.pending[k].i < |s.t.subs|
    ensures Inv(IntakeStep(s, k, now, draft, sha256), org)
  {
    var p := s.pending[k];
    var done := Intake.IntakeAt(s.t, p.org, p.i, p.seen, now, draft, sha256);
    if done.Ok? {
      assert PendingOk(s.t.subs, p);
      IntakeEffect(s.t, p, now, draft, sha256, org);
      CommitBalances(s, k, done.value.tables, Overwrite(p.org, done.value.overwritten), org);
    } else {
      RemoveKeepsPending(s.t.subs, s.pending, k);
    }
  }

  /** The subscriptions after a grant, and its one audit. */
  lemma GrantShape(t: Tables, p: Pending, id: string, now: int)
    requires p.PendingGrant? && PendingOk(t.subs, p) && CompGrant.GrantAt(t, p.org, p.existing, id, now).Some?
    ensures var t' := CompGrant.GrantAt(t, p.org, p.existing, id, now).value;
            && |t'.audits| == |t.audits| + 1 && t'.audits == t.audits + [t'.audits[|t.audits|]]
            && t'.audits[|t.audits|].COMP_GRANT?
            && match p.existing
               case Some(i) => |t'.subs| == |t.subs| && t'.subs == t.subs[i := t'.subs[i]] && Granted(t'.subs[i], p.org)
               case None => |t'.subs| == |t.subs| + 1 && t'.subs == t.subs + [t'.subs[|t.subs|]]
                            && Granted(t'.subs[|t.subs|], p.org)
  {
  }

  predicate Granted(s: Subscription, org: OrgId) {
    s.orgId == org && s.tierId == CompGrant.COMP_GRANT_TIER && s.usageCount == 0
  }

  /** A grant empties the meter it overwrites or opens an empty one. */
  lemma GrantEffect(t: Tables, p: Pending, id: string, now: int, org: OrgId)
    requires p.PendingGrant? && PendingOk(t.subs, p) && BoundsOk(t.subs)
    requires CompGrant.GrantAt(t, p.org, p.existing, id, now).Some?
    ensures var t' := CompGrant.GrantAt(t, p.org, p.existing, id, now).value;
            var units := if p.existing.Some? then t.subs[p.existing.value].usageCount else 0;
            && Persists(t.subs, t'.subs) && BoundsOk(t'.subs)
            && Usage(t'.subs, org) == Usage(t.subs, org) - (if p.org == org then units else 0)
            && Staged(t'.audits, org) == Staged(t.audits, org)
            && Restored(t'.audits, org) == Restored(t.audits, org)
  {
    var t' := CompGrant.GrantAt(t, p.org, p.existing, id, now).value;
    GrantShape(t, p, id, now);
    AuditAppended(t.audits, t'.audits[|t.audits|], org);
    if p.existing.Some? {
      UsageUpdate(t.subs, p.existing.value, t'.subs[p.existing.value], org);
    } else {
      UsageAppended(t.subs, t'.subs[|t.subs|], org);
    }
  }

  lemma GrantBalances(s: Sys, k: nat, id: string, now: int, org: OrgId)
    requires Inv(s, org) && k < |s.pending| && s.pending[k].PendingGrant?
    requires s.pending[k].existing.Some? ==> s.pending[k].existing.value < |s.t.subs|
    ensures Inv(GrantStep(s, k, id, now), org)
  {
    var p := s.pending[k];
    var granted := CompGrant.GrantAt(s.t, p.org, p.existing, id, now);
    if granted.Some? {
      assert PendingOk(s.t.subs, p);
      var units := if p.existing.Some? then s.t.subs[p.existing.value].usageCount else 0;
      GrantEffect(s.t, p, id, now, org);
      CommitBalances(s, k, granted.value, Overwrite(p.org, units), org);
    } else {
      RemoveKeepsPending(s.t.subs, s.pending, k);
    }
  }

  lemma ParkBalances(s: Sys, org: OrgId)
    requires Delivery.Inv(s) && Inv(s, org) && s.pc.Busy? && s.pc.i < |s.t.rows| && s.pc.stage.Parking?
    ensures Inv(WorkerStep(s, Park), org)
  {
    var stage, snap := s.pc.stage, s.pc.snap;
    assert CreditOk(s);
    var s' := WorkerStep(s, Park);
    var a := s'.t.audits[|s.t.audits|];
    assert s'.t.audits == s.t.audits + [a];
    AuditAppended(s.t.audits, a, org);
    if a.quotaRestored {
      var i := stage.credit.value;
      UsageUpdate(s.t.subs, i, Quota.Credit(s.t.subs[i]), org);
    }
    PersistsKeepsPending(s.t.subs, s'.t.subs, s.pending);
  }

  /** A Stripe delivery opens an empty meter or leaves every meter as it is. */
  lemma StripeEffect(t: Tables, e: Webhook.Event, now: int, org: OrgId)
    requires BoundsOk(t.subs)
    ensures var t' := Webhook.Deliver(t, e, now);
            && Persists(t.subs, t'.subs) && BoundsOk(t'.subs)
            && Usage(t'.subs, org) == Usage(t.subs, org) && t'.audits == t.audits
  {
    var subs := Webhook.Deliver(t, e, now).subs;
    if subs != t.subs {
      var found := Webhook.IndexOf(t.subs, e.checkout.value.subscription.value);
      if found.Some? {
        UsageUpdate(t.subs, found.value, subs[found.value], org);
      } else {
        assert subs == t.subs + [subs[|t.subs|]];
        UsageAppended(t.subs, subs[|t.subs|], org);
      }
    }
  }

  lemma StripeBalances(s: Sys, k: nat, now: int, org: OrgId)
    requires Inv(s, org) && k < |s.pending| && s.pending[k].PendingStripe?
    ensures Inv(StripeStep(s, k, now), org)
  {
    StripeEffect(s.t, s.pending[k].event, now, org);
    RemoveKeepsPending(s.t.subs, s.pending, k);
    PersistsKeepsPending(s.t.subs, StripeStep(s, k, now).t.subs, Remove(s.pending, k));
  }

  lemma StatusBalances(s: Sys, i: nat, status: SubscriptionStatus, org: OrgId)
    requires Inv(s, org)
    ensures Inv(OfficeStep(s, ChangeStatus(i, status)), org)
  {
    if i < |s.t.subs| {
      var sub := s.t.subs[i].(status := status);
      UsageUpdate(s.t.subs, i, sub, org);
      PersistsKeepsPending(s.t.subs, s.t.subs[i := sub], s.pending);
    }
  }

  /** A transaction that has only looked up changes nothing. */
  lemma ReadBalances(s: Sys, p: Pending, org: OrgId)
    requires Inv(s, org) && PendingOk(s.t.subs, p)
    ensures Inv(s.(pending := s.pending + [p]), org)
  {
  }

  lemma OfficeBalances(s: Sys, l: Label, org: OrgId)
    requires Inv(s, org)
    ensures Inv(OfficeStep(s, l), org)
  {
    match l
    case ReadForIntake(o, i) =>
      if Latest(s.t.subs, o, true, i) {
        ReadBalances(s, PendingIntake(o, i, s.t.subs[i]), org);
      }
    case CommitIntake(k, now, draft, sha256) =>
      if k < |s.pending| && s.pending[k].PendingIntake? && s.pending[k].i < |s.t.subs| {
        IntakeBalances(s, k, now, draft, sha256, org);
      }
    case ReadForGrant(o, existing) =>
      if (if existing.Some? then Latest(s.t.subs, o, false, existing.value) else FindLatest(s.t.subs, o, false).None?) {
        ReadBalances(s, PendingGrant(o, existing), org);
      }
    case ReadForStripe(e) => ReadBalances(s, PendingStripe(e, Webhook.Lookups(s.t, e)), org);
    case CommitGrant(k, id, now) =>
      if k < |s.pending| && s.pending[k].PendingGrant?
         && (s.pending[k].existing.Some? ==> s.pending[k].existing.value < |s.t.subs|)
      {
        GrantBalances(s, k, id, now, org);
      }
    case Abort(k) =>
      if k < |s.pending| {
        RemoveKeepsPending(s.t.subs, s.pending, k);
      }
    case CommitStripe(k, now) =>
      if k < |s.pending| && s.pending[k].PendingStripe? {
        StripeBalances(s, k, now, org);
      }
    case ChangeStatus(i, status) => StatusBalances(s, i, status, org);
    case _ =>
  }

  /** Of the worker's steps only `Park` touches meters, audits or overwritten units. */
  lemma WorkerFrame(s: Sys, l: Label)
    requires OfWorker(l) && !(l.Park? && s.pc.Busy? && s.pc.stage.Parking?)
    ensures var s' := Step(s, l);
            && s'.t.subs == s.t.subs && s'.t.audits == s.t.audits && s'.pending == s.pending
            && s'.hist.overwrites == s.hist.overwrites
    ensures CreditOk(s) ==> CreditOk(Step(s, l))
  {
  }

  lemma StepBalances(s: Sys, l: Label, org: OrgId)
    requires Delivery.Inv(s) && Inv(s, org)
    ensures Inv(Step(s, l), org)
  {
    if !OfWorker(l) {
      OfficeBalances(s, l, org);
    } else if l.Park? && s.pc.Busy? && s.pc.stage.Parking? {
      ParkBalances(s, org);
    } else {
      WorkerFrame(s, l);
    }
  }

  lemma {:induction false} Reachable(ls: seq<Label>, org: OrgId)
    ensures Inv(Run(ls), org)
  {
    if ls != [] {
      var before := ls[..|ls| - 1];
      Reachable(before, org);
      Delivery.Reachable(before);
      StepBalances(Run(before), ls[|ls| - 1], org);
    }
  }

  // ---------- What follows for every run ----------

  /**
   Conservation: an organization's meters plus the units overwritten by rollovers and grants equal
   its staged requests minus its failed requests that were credited.
   */
  lemma Conservation(ls: seq<Label>, org: OrgId)
    ensures Usage(Run(ls).t.subs, org) + Overwritten(Run(ls).hist.overwrites, org)
         == Staged(Run(ls).t.audits, org) - Restored(Run(ls).t.audits, org)
  {
    Reachable(ls, org);
  }

  /** No meter is ever negative or above the limit of its tier, whatever stale reads are pending. */
  lemma MetersInBounds(ls: seq<Label>, i: nat)
    requires i < |Run(ls).t.subs|
    ensures 0 <= Run(ls).t.subs[i].usageCount <= LimitOf(Run(ls).t.subs[i].tierId)
  {
    Reachable(ls, "");
  }

  /** In plain numbers: no meter of any run is above 1, 9 or 999 units, and no other tier has any. */
  lemma MetersWithinTiers(ls: seq<Label>, i: nat)
    requires i < |Run(ls).t.subs|
    ensures var sub := Run(ls).t.subs[i];
            && sub.usageCount >= 0
            && (sub.tierId == "tier1" ==> sub.usageCount <= 1)
            && (sub.tierId == "tier2" ==> sub.usageCount <= 9)
            && (sub.tierId == "tier3" ==> sub.usageCount <= 999)
            && (sub.tierId !in {"tier1", "tier2", "tier3"} ==> sub.usageCount == 0)
  {
    MetersInBounds(ls, i);
  }

  lemma IntakePersists(s: Sys, k: nat, now: int, draft: Intake.Draft, sha256: Option<Intake.Hex>, org: OrgId)
    requires Inv(s, org) && k < |s.pending| && s.pending[k].PendingIntake? && s.pending[k].i < |s.t.subs|
    ensures Persists(s.t.subs, IntakeStep(s, k, now, draft, sha256).t.subs)
  {
    var p := s.pending[k];
    assert PendingOk(s.t.subs, p);
    if Intake.IntakeAt(s.t, p.org, p.i, p.seen, now, draft, sha256).Ok? {
      IntakeEffect(s.t, p, now, draft, sha256, org);
    }
  }

  lemma GrantPersists(s: Sys, k: nat, id: string, now: int, org: OrgId)
    requires Inv(s, org) && k < |s.pending| && s.pending[k].PendingGrant?
    requires s.pending[k].existing.Some? ==> s.pending[k].existing.value < |s.t.subs|
    ensures Persists(s.t.subs, GrantStep(s, k, id, now).t.subs)
  {
    var p := s.pending[k];
    assert PendingOk(s.t.subs, p);
    if CompGrant.GrantAt(s.t, p.org, p.existing, id, now).Some? {
      GrantEffect(s.t, p, id, now, org);
    }
  }

  lemma StripePersists(s: Sys, k: nat, now: int, org: OrgId)
    requires Inv(s, org) && k < |s.pending| && s.pending[k].PendingStripe?
    ensures Persists(s.t.subs, StripeStep(s, k, now).t.subs)
  {
    StripeEffect(s.t, s.pending[k].event, now, org);
  }

  lemma OfficePersists(s: Sys, l: Label, org: OrgId)
    requires Inv(s, org)
    ensures Persists(s.t.subs, OfficeStep(s, l).t.subs)
  {
    match l
    case CommitIntake(k, now, draft, sha256) =>
      if k < |s.pending| && s.pending[k].PendingIntake? && s.pending[k].i < |s.t.subs| {
        IntakePersists(s, k, now, draft, sha256, org);
      }
    case CommitGrant(k, id, now) =>
      if k < |s.pending| && s.pending[k].PendingGrant?
         && (s.pending[k].existing.Some? ==> s.pending[k].existing.value < |s.t.subs|)
      {
        GrantPersists(s, k, id, now, org);
      }
    case CommitStripe(k, now) =>
      if k < |s.pending| && s.pending[k].PendingStripe? {
        StripePersists(s, k, now, org);
      }
    case _ =>
  }

  lemma StepPersists(s: Sys, l: Label, org: OrgId)
    requires Inv(s, org)
    ensures Persists(s.t.subs, Step(s, l).t.subs)
  {
    if !OfWorker(l) {
      OfficePersists(s, l, org);
    } else if l.Park? && s.pc.Busy? && s.pc.stage.Parking? {
      assert CreditOk(s);
    } else {
      WorkerFrame(s, l);
    }
  }

  /** Subscription `i` is still there with its owner, and its tier and limit have at most risen. */
  predicate Kept(a: seq<Subscription>, b: seq<Subscription>, i: nat) {
    && i < |a| && i < |b| && b[i].orgId == a[i].orgId
    && Risen(a[i].tierId, b[i].tierId) && LimitOf(a[i].tierId) <= LimitOf(b[i].tierId)
  }

  lemma KeptFurther(a: seq<Subscription>, b: seq<Subscription>, c: seq<Subscription>, i: nat)
    requires Kept(a, b, i) && Persists(b, c)
    ensures Kept(a, c, i)
  {
  }

  /** Subscriptions are never removed or moved to another organization, and limits only rise. */
  lemma {:induction false} TiersOnlyRise(ls: seq<Label>, more: seq<Label>, i: nat)
    requires i < |Run(ls).t.subs|
    ensures Kept(Run(ls).t.subs, Run(ls + more).t.subs, i)
    decreases |more|
  {
    if more == [] {
      assert ls + more == ls;
    } else {
      var before := more[..|more| - 1];
      TiersOnlyRise(ls, before, i);
      assert (ls + more)[..|ls + more| - 1] == ls + before;
      Reachable(ls + before, "");
      StepPersists(Run(ls + before), more[|more| - 1], "");
      KeptFurther(Run(ls).t.subs, Run(ls + before).t.subs, Run(ls + more).t.subs, i);
    }
  }

  // ---------- Stale reads ----------

  /** A charge of a meter at `usage` goes through: the tier is known, and the period elapsed or units are left. */
  predicate Charges(tierId: string, elapsed: bool, usage: int) {
    Quota.TierQuota(tierId).Some? && (elapsed || usage < LimitOf(tierId))
  }

  /**
   The read decides as the stored subscription would: both refuse, or both charge and the period had
   elapsed for both or for neither, or the very period that is opened was already open and unused.
   */
  predicate AsIfFresh(sub: Subscription, seen: Subscription, now: int) {
    var seenOver, isOver := now > seen.periodEnd, now > sub.periodEnd;
    && (Charges(seen.tierId, seenOver, sub.usageCount) <==> Charges(sub.tierId, isOver, sub.usageCount))
    && (Charges(seen.tierId, seenOver, sub.usageCount) ==>
          || seenOver == isOver
          || (sub.usageCount == 0 && sub.periodStart == now && sub.periodEnd == Calendar.NextPeriodEnd(now)))
  }

  /** With the tier that was read still in place, only the end of the period matters. */
  lemma AsIfFreshSameTier(sub: Subscription, seen: Subscription, now: int)
    requires seen.tierId == sub.tierId && Quota.TierQuota(sub.tierId).Some?
    ensures AsIfFresh(sub, seen, now)
       <==> (now > seen.periodEnd <==> now > sub.periodEnd)
            || (sub.usageCount == 0 && sub.periodStart == now && sub.periodEnd == Calendar.NextPeriodEnd(now))
  {
    Calendar.PeriodIsOneMonth(now);
  }

  /** A charge on any stale read does to the meter what a fresh one would exactly when it decides as one. */
  lemma StaleChargeIsFresh(sub: Subscription, seen: Subscription, now: int)
    ensures SameCharge(Quota.ChargeSub(sub, seen, now), Quota.ChargeSub(sub, sub, now)) <==> AsIfFresh(sub, seen, now)
  {
    Calendar.PeriodIsOneMonth(now);
  }

  /** Both refuse, or both leave the same subscription. */
  predicate SameCharge(a: Outcome<Quota.Unit, Quota.QuotaError>, b: Outcome<Quota.Unit, Quota.QuotaError>) {
    if a.Ok? then b.Ok? && a.value.sub == b.value.sub else b.Threw?
  }

  // ---------- The per-period bound ----------

  /** The sum of the limits of an organization's subscriptions. */
  function Capacity(subs: seq<Subscription>, org: OrgId): int {
    if subs == [] then 0
    else
      var s := subs[|subs| - 1];
      var last := if s.orgId == org then LimitOf(s.tierId) else 0;
      Capacity(subs[..|subs| - 1], org) + last
  }

  lemma {:induction false} UsageWithinCapacity(subs: seq<Subscription>, org: OrgId)
    requires BoundsOk(subs)
    ensures Usage(subs, org) <= Capacity(subs, org)
  {
    if subs != [] {
      UsageWithinCapacity(subs[..|subs| - 1], org);
      assert InBounds(subs[|subs| - 1]);
    }
  }

  /** What a run went through between its state `a` and its later state `b`. */
  function Admitted(a: Sys, b: Sys, org: OrgId): int {
    Staged(b.t.audits, org) - Staged(a.t.audits, org)
  }

  function Credited(a: Sys, b: Sys, org: OrgId): int {
    Restored(b.t.audits, org) - Restored(a.t.audits, org)
  }

  function Forgotten(a: Sys, b: Sys, org: OrgId): int {
    Overwritten(b.hist.overwrites, org) - Overwritten(a.hist.overwrites, org)
  }

  /** The units in use at the first state and those admitted since fit the limits and the credits since. */
  ghost predicate WithinLimits(a: Sys, b: Sys, org: OrgId) {
    Usage(a.t.subs, org) + Admitted(a, b, org) <= Capacity(b.t.subs, org) + Credited(a, b, org)
  }

  /** Over any stretch of any run admissions are the growth of the meters, the credits and the units written over. */
  lemma StretchBalance(ls: seq<Label>, more: seq<Label>, org: OrgId)
    ensures var a, b := Run(ls), Run(ls + more);
            Admitted(a, b, org)
            == Usage(b.t.subs, org) - Usage(a.t.subs, org) + Credited(a, b, org) + Forgotten(a, b, org)
  {
    Conservation(ls, org);
    Conservation(ls + more, org);
  }

  /** A step while the stored period is open: no charge is made after its end, and no grant resets a meter. */
  predicate InPeriod(s: Sys, l: Label, org: OrgId) {
    match l
    case CommitIntake(k, now, _, _) =>
      k < |s.pending| && s.pending[k].PendingIntake? && s.pending[k].org == org && s.pending[k].i < |s.t.subs| ==>
        now <= s.t.subs[s.pending[k].i].periodEnd
    case CommitGrant(k, _, _) =>
      k < |s.pending| && s.pending[k].PendingGrant? && s.pending[k].org == org ==> s.pending[k].existing.None?
    case _ => true
  }

  /** A charge is made on a read that decides as a fresh one would. */
  predicate Timely(s: Sys, l: Label, org: OrgId) {
    l.CommitIntake? && l.k < |s.pending| && s.pending[l.k].PendingIntake? && s.pending[l.k].org == org
    && s.pending[l.k].i < |s.t.subs| ==>
      AsIfFresh(s.t.subs[s.pending[l.k].i], s.pending[l.k].seen, l.now)
  }

  /** What the meter showed when an intake of the organization takes the rollover branch on its read. */
  function Reset(s: Sys, l: Label, org: OrgId): int {
    match l
    case CommitIntake(k, now, draft, sha256) =>
      if k < |s.pending| && s.pending[k].PendingIntake? && s.pending[k].org == org && s.pending[k].i < |s.t.subs|
         && now > s.pending[k].seen.periodEnd
         && Intake.IntakeAt(s.t, org, s.pending[k].i, s.pending[k].seen, now, draft, sha256).Ok?
      then s.t.subs[s.pending[k].i].usageCount
      else 0
    case _ => 0
  }

  /** The sum of these over the steps `more` after `ls`. */
  function Resets(ls: seq<Label>, more: seq<Label>, org: OrgId): int
    decreases |more|
  {
    if more == [] then 0
    else
      var before := more[..|more| - 1];
      Resets(ls, before, org) + Reset(Run(ls + before), more[|more| - 1], org)
  }

  lemma IntakeOverwrites(s: Sys, k: nat, now: int, draft: Intake.Draft, sha256: Option<Intake.Hex>, org: OrgId)
    requires k < |s.pending| && s.pending[k].PendingIntake? && s.pending[k].i < |s.t.subs|
    ensures Overwritten(IntakeStep(s, k, now, draft, sha256).hist.overwrites, org)
         == Overwritten(s.hist.overwrites, org) + Reset(s, CommitIntake(k, now, draft, sha256), org)
  {
    var p := s.pending[k];
    var done := Intake.IntakeAt(s.t, p.org, p.i, p.seen, now, draft, sha256);
    if done.Ok? {
      OverwriteAppended(s.hist.overwrites, Overwrite(p.org, done.value.overwritten), org);
    }
  }

  lemma GrantOverwrites(s: Sys, k: nat, id: string, now: int, org: OrgId)
    requires k < |s.pending| && s.pending[k].PendingGrant?
    requires s.pending[k].existing.Some? ==> s.pending[k].existing.value < |s.t.subs|
    requires InPeriod(s, CommitGrant(k, id, now), org)
    ensures Overwritten(GrantStep(s, k, id, now).hist.overwrites, org) == Overwritten(s.hist.overwrites, org)
  {
    var p := s.pending[k];
    var units := if p.existing.Some? then s.t.subs[p.existing.value].usageCount else 0;
    OverwriteAppended(s.hist.overwrites, Overwrite(p.org, units), org);
  }

  /** In an open period, only the rollover branch on a stale read writes units over. */
  lemma InPeriodOverwrites(s: Sys, l: Label, org: OrgId)
    requires InPeriod(s, l, org)
    ensures Overwritten(Step(s, l).hist.overwrites, org) == Overwritten(s.hist.overwrites, org) + Reset(s, l, org)
  {
    match l
    case CommitIntake(k, now, draft, sha256) =>
      if k < |s.pending| && s.pending[k].PendingIntake? && s.pending[k].i < |s.t.subs| {
        IntakeOverwrites(s, k, now, draft, sha256, org);
      }
    case CommitGrant(k, id, now) =>
      if k < |s.pending| && s.pending[k].PendingGrant?
         && (s.pending[k].existing.Some? ==> s.pending[k].existing.value < |s.t.subs|)
      {
        GrantOverwrites(s, k, id, now, org);
      }
    case _ =>
  }

  ghost predicate AllInPeriod(ls: seq<Label>, more: seq<Label>, org: OrgId) {
    forall n :: 0 <= n < |more| ==> InPeriod(Run(ls + more[..n]), more[n], org)
  }

  ghost predicate AllTimely(ls: seq<Label>, more: seq<Label>, org: OrgId) {
    forall n :: 0 <= n < |more| ==> Timely(Run(ls + more[..n]), more[n], org)
  }

  lemma AllButLastInPeriod(ls: seq<Label>, more: seq<Label>, org: OrgId)
    requires AllInPeriod(ls, more, org) && more != []
    ensures var before := more[..|more| - 1];
            AllInPeriod(ls, before, org) && InPeriod(Run(ls + before), more[|more| - 1], org)
    ensures AllTimely(ls, more, org) ==>
              var before := more[..|more| - 1];
              AllTimely(ls, before, org) && Timely(Run(ls + before), more[|more| - 1], org)
  {
    var before := more[..|more| - 1];
    forall n | 0 <= n < |before|
      ensures before[..n] == more[..n]
      ensures InPeriod(Run(ls + before[..n]), before[n], org)
    {
      assert before[..n] == more[..n];
    }
  }

  lemma LastStep(ls: seq<Label>, more: seq<Label>)
    requires more != []
    ensures Run(ls + more) == Step(Run(ls + more[..|more| - 1]), more[|more| - 1])
  {
    assert (ls + more)[..|ls + more| - 1] == ls + more[..|more| - 1];
  }

  lemma {:induction false} ForgottenIsReset(ls: seq<Label>, more: seq<Label>, org: OrgId)
    requires AllInPeriod(ls, more, org)
    ensures Overwritten(Run(ls + more).hist.overwrites, org)
         == Overwritten(Run(ls).hist.overwrites, org) + Resets(ls, more, org)
    decreases |more|
  {
    if more == [] {
      assert ls + more == ls;
    } else {
      AllButLastInPeriod(ls, more, org);
      ForgottenIsReset(ls, more[..|more| - 1], org);
      LastStep(ls, more);
      InPeriodOverwrites(Run(ls + more[..|more| - 1]), more[|more| - 1], org);
    }
  }

  /**
   The per-period bound under interleaving. In an open period the units in use at its start and those
   admitted since stay within the limits and the credits exactly if what the meters showed whenever the
   rollover branch was taken on a stale read adds up to no more than the meters have left at the end.
   */
  lemma PeriodBoundIff(ls: seq<Label>, more: seq<Label>, org: OrgId)
    requires AllInPeriod(ls, more, org)
    ensures var a, b := Run(ls), Run(ls + more);
            WithinLimits(a, b, org) <==> Resets(ls, more, org) <= Capacity(b.t.subs, org) - Usage(b.t.subs, org)
  {
    StretchBalance(ls, more, org);
    ForgottenIsReset(ls, more, org);
  }

  /** A charge in an open period that decides as a fresh one would resets no used meter. */
  lemma TimelyResetsNothing(s: Sys, l: Label, org: OrgId)
    requires InPeriod(s, l, org) && Timely(s, l, org)
    ensures Reset(s, l, org) == 0
  {
  }

  lemma {:induction false} TimelyResets(ls: seq<Label>, more: seq<Label>, org: OrgId)
    requires AllInPeriod(ls, more, org) && AllTimely(ls, more, org)
    ensures Resets(ls, more, org) == 0
    decreases |more|
  {
    if more != [] {
      AllButLastInPeriod(ls, more, org);
      TimelyResets(ls, more[..|more| - 1], org);
      TimelyResetsNothing(Run(ls + more[..|more| - 1]), more[|more| - 1], org);
    }
  }

  /** The bound holds when in the open period every charge decides as a fresh one would. */
  lemma PeriodBoundOnTime(ls: seq<Label>, more: seq<Label>, org: OrgId)
    requires AllInPeriod(ls, more, org) && AllTimely(ls, more, org)
    ensures WithinLimits(Run(ls), Run(ls + more), org)
  {
    TimelyResets(ls, more, org);
    PeriodBoundIff(ls, more, org);
    Reachable(ls + more, org);
    UsageWithinCapacity(Run(ls + more).t.subs, org);
  }

  // ---------- Failed deliveries ----------

  /** The unit is given back: a subscription was chosen and its meter is not at zero now. */
  predicate GivesBack(s: Sys) {
    s.pc.Busy? && s.pc.stage.Parking? && s.pc.stage.credit.Some?
    && s.pc.stage.credit.value < |s.t.subs| && s.t.subs[s.pc.stage.credit.value].usageCount > 0
  }

  /** Parking writes one audit, which says whether the unit was given back, and that is what the meters say. */
  lemma ParkGivesBack(s: Sys, org: OrgId)
    requires Delivery.Inv(s) && Inv(s, org) && s.pc.Busy? && s.pc.stage.Parking?
    ensures var s', stage, snap := Step(s, Park), s.pc.stage, s.pc.snap;
            && s'.t.audits == s.t.audits + [SERVICE_FAILED(s.pc.i, snap.orgId,
                 Failure.Cap(ReasonText(stage.reason, snap.id)), GivesBack(s), snap.txSignature)]
            && Usage(s'.t.subs, org)
               == Usage(s.t.subs, org) - (if GivesBack(s) && snap.orgId == org then 1 else 0)
  {
    assert CreditOk(s);
    if GivesBack(s) {
      var i := s.pc.stage.credit.value;
      UsageUpdate(s.t.subs, i, Quota.Credit(s.t.subs[i]), org);
    }
  }

  lemma {:induction false} WebKeepsPc(s: Sys, web: seq<Label>)
    requires Delivery.Office(web)
    ensures RunFrom(s, web).pc == s.pc
  {
    if web != [] {
      WebKeepsPc(s, web[..|web| - 1]);
      Delivery.OfficeFrames(RunFrom(s, web[..|web| - 1]), web[|web| - 1]);
    }
  }

  /** A subscription is chosen exactly if the organization has an ACTIVE one. */
  lemma ChosenIff(s: Sys, credit: Option<nat>)
    requires s.pc.Busy? && s.pc.stage.Failing? && s.pc.i < |s.t.rows|
    requires Step(s, ChooseCredit(credit)).pc.stage.Parking?
    ensures Step(s, ChooseCredit(credit)).pc == s.pc.(stage := Parking(s.pc.stage.reason, credit))
    ensures credit.Some? <==>
              exists j :: 0 <= j < |s.t.subs| && s.t.subs[j].orgId == s.pc.snap.orgId && s.t.subs[j].status == ACTIVE
  {
    assert forall j :: 0 <= j < |s.t.subs| ==>
             (Candidate(s.t.subs[j], s.pc.snap.orgId, true)
              <==> s.t.subs[j].orgId == s.pc.snap.orgId && s.t.subs[j].status == ACTIVE);
  }

  /**
   A failed delivery gives its unit back exactly when its organization had an ACTIVE subscription when
   one was chosen, and the meter of that one is not at zero when the failure commits, whatever the web
   application does in between.
   */
  lemma CreditIff(ls: seq<Label>, credit: Option<nat>, web: seq<Label>)
    requires Run(ls).pc.Busy? && Run(ls).pc.stage.Failing? && Delivery.Office(web)
    requires Step(Run(ls), ChooseCredit(credit)).pc.stage.Parking?
    ensures var s := Run(ls);
            var s' := Run(ls + [ChooseCredit(credit)] + web);
            var failed := Run(ls + [ChooseCredit(credit)] + web + [Park]);
            var active := exists j :: 0 <= j < |s.t.subs| && s.t.subs[j].orgId == s.pc.snap.orgId
                                      && s.t.subs[j].status == ACTIVE;
            && (credit.Some? <==> active)
            && (GivesBack(s') <==> active && credit.value < |s'.t.subs| && s'.t.subs[credit.value].usageCount > 0)
            && |failed.t.audits| == |s'.t.audits| + 1
            && failed.t.audits[|s'.t.audits|].SERVICE_FAILED?
            && failed.t.audits[|s'.t.audits|].quotaRestored == GivesBack(s')
            && Usage(failed.t.subs, s.pc.snap.orgId)
               == Usage(s'.t.subs, s.pc.snap.orgId) - (if GivesBack(s') then 1 else 0)
  {
    var org := Run(ls).pc.snap.orgId;
    var chosen := ls + [ChooseCredit(credit)];
    assert chosen[..|ls|] == ls;
    Delivery.Reachable(ls);
    ChosenIff(Run(ls), credit);
    RunAppend(INIT, chosen, web);
    WebKeepsPc(Run(chosen), web);
    Reachable(chosen + web, org);
    Delivery.Reachable(chosen + web);
    ParkGivesBack(Run(chosen + web), org);
    assert (chosen + web + [Park])[..|chosen + web|] == chosen + web;
  }
}
