/** The Founders Legacy grant as one transaction: app/api/admin/comp-grant/route.ts. */
module CompGrant {
  import opened Wrappers
  import opened Store
  import Calendar

  const COMP_GRANT_TIER := "tier3"
  const COMP_GRANT_MONTHS := 24

  function GrantEnd(now: int): int {
    Calendar.AddMonths(now, COMP_GRANT_MONTHS)
  }

  predicate UnusedId(subs: seq<Subscription>, id: string) {
    forall j :: 0 <= j < |subs| ==> subs[j].id != id
  }

  /**
   The transaction once it has read which subscription the organization already has; `id` is the
   generated key of a new one. `None` when that key is taken.
   */
  function GrantAt(t: Tables, org: OrgId, existing: Option<nat>, id: string, now: int): Option<Tables>
    requires existing.Some? ==> existing.value < |t.subs|
  {
    if existing.None? && !UnusedId(t.subs, id) then None
    else
      var subs :=
        if existing.Some? then
          t.subs[existing.value := t.subs[existing.value].(tierId := COMP_GRANT_TIER, status := ACTIVE,
            periodStart := now, periodEnd := GrantEnd(now), usageCount := 0)]
        else t.subs + [Subscription(id, org, COMP_GRANT_TIER, ACTIVE, now, GrantEnd(now), 0)];
      Some(t.(orgs := t.orgs + {org},
              subs := subs,
              audits := t.audits + [COMP_GRANT(org, if existing.Some? then existing.value else |t.subs|)]))
  }

  /**
   A committed grant names, in its audit, a subscription of the organization that is ACTIVE on the
   granted tier with an unused meter for 730 or 731 days from now; no other subscription changes.
   */
  lemma GrantGives(t: Tables, org: OrgId, existing: Option<nat>, id: string, now: int)
    requires existing.Some? ==> existing.value < |t.subs| && t.subs[existing.value].orgId == org
    requires GrantAt(t, org, existing, id, now).Some?
    ensures var t' := GrantAt(t, org, existing, id, now).value;
            var i := existing.GetOr(|t.subs|);
            && org in t'.orgs && t'.audits == t.audits + [COMP_GRANT(org, i)] && i < |t'.subs|
            && t'.subs[i].orgId == org && t'.subs[i].status == ACTIVE && t'.subs[i].tierId == "tier3"
            && t'.subs[i].usageCount == 0 && t'.subs[i].periodStart == now
            && t'.subs[i].periodEnd - now in {63_072_000_000, 63_158_400_000}
            && (forall j :: 0 <= j < |t'.subs| && j != i ==> j < |t.subs| && t'.subs[j] == t.subs[j])
  {
    Calendar.CompGrantTerm(now);
  }

  /** The transaction run alone: it reconciles the organization's latest subscription, of any status. */
  function GrantTx(t: Tables, org: OrgId, id: string, now: int): Option<Tables> {
    GrantAt(t, org, FindLatest(t.subs, org, false), id, now)
  }

  /**
   Run alone, a grant opens a subscription only if the organization has none of any status; otherwise it
   takes over the one with the latest period end, and cannot fail.
   */
  lemma GrantReconciles(t: Tables, org: OrgId, id: string, now: int)
    ensures var mine := set i | 0 <= i < |t.subs| && t.subs[i].orgId == org;
            if mine == {} then
              && (GrantTx(t, org, id, now).Some? <==> forall i :: 0 <= i < |t.subs| ==> t.subs[i].id != id)
              && (GrantTx(t, org, id, now).Some? ==> |GrantTx(t, org, id, now).value.subs| == |t.subs| + 1)
            else
              && GrantTx(t, org, id, now).Some? && |GrantTx(t, org, id, now).value.subs| == |t.subs|
              && exists i :: i in mine && (forall j :: j in mine ==> t.subs[j].periodEnd <= t.subs[i].periodEnd)
                             && GrantTx(t, org, id, now).value.audits == t.audits + [COMP_GRANT(org, i)]
  {
    var found := FindLatest(t.subs, org, false);
    var mine := set i | 0 <= i < |t.subs| && t.subs[i].orgId == org;
    if found.Some? {
      assert found.value in mine;
    } else {
      assert mine == {};
    }
  }

  /** The transaction run alone. */
  method GrantComp(db: Database, org: OrgId, id: string, now: int) returns (granted: bool)
    modifies db
    ensures var r := GrantTx(old(db.Value()), org, id, now);
            granted == r.Some? && db.Value() == r.GetOr(old(db.Value()))
  {
    var saved := db.Value();
    var start := new Calendar.JsDate(now);
    var periodEnd := Calendar.AddMonthsTo(start, COMP_GRANT_MONTHS);
    db.orgs := db.orgs + {org};
    var existing := FindLatest(db.subs, org, false);
    var granted_sub: nat;
    if existing.Some? {
      granted_sub := existing.value;
      db.subs := db.subs[granted_sub := db.subs[granted_sub].(tierId := COMP_GRANT_TIER, status := ACTIVE,
        periodStart := now, periodEnd := periodEnd.time, usageCount := 0)];
    } else {
      if !UnusedId(db.subs, id) {
        db.Restore(saved);
        return false;
      }
      granted_sub := |db.subs|;
      db.subs := db.subs + [Subscription(id, org, COMP_GRANT_TIER, ACTIVE, now, periodEnd.time, 0)];
    }
    db.audits := db.audits + [COMP_GRANT(org, granted_sub)];
    return true;
  }
}
