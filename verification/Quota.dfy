/** The quota meter: lib/quota.ts. */
module Quota {
  import opened Wrappers
  import opened Store
  import Calendar

  /** TIER_QUOTA; `None` is the undefined of an unknown tier. */
  function TierQuota(tierId: string): Option<int> {
    if tierId == "tier1" then Some(1)
    else if tierId == "tier2" then Some(9)
    else if tierId == "tier3" then Some(999)
    else None
  }

  datatype QuotaError = NoActiveSubscription | UnknownTier | QuotaExceeded(limit: int)

  datatype QuotaResult = QuotaResult(usageCount: int, limit: int)

  /** One unit taken from a meter: the period elapsed and starts anew, or the count goes up. */
  datatype Unit = Unit(sub: Subscription, overwritten: int, result: QuotaResult)

  /** Consumes one unit of the subscription `sub`, which was read earlier as `seen`. */
  function ChargeSub(sub: Subscription, seen: Subscription, now: int): Outcome<Unit, QuotaError> {
    if TierQuota(seen.tierId).None? then Threw(UnknownTier)
    else
      var limit := TierQuota(seen.tierId).value;
      if now > seen.periodEnd then
        Ok(Unit(sub.(usageCount := 1, periodStart := now, periodEnd := Calendar.NextPeriodEnd(now)),
                sub.usageCount, QuotaResult(1, limit)))
      else if sub.usageCount < limit then
        Ok(Unit(sub.(usageCount := sub.usageCount + 1), 0, QuotaResult(seen.usageCount + 1, limit)))
      else Threw(QuotaExceeded(limit))
  }

  /** The meters after one unit is consumed, and the units a rollover wrote over. */
  datatype Charge = Charge(subs: seq<Subscription>, overwritten: int, result: QuotaResult)

  function ChargeAt(subs: seq<Subscription>, i: nat, seen: Subscription, now: int): Outcome<Charge, QuotaError>
    requires i < |subs|
  {
    match ChargeSub(subs[i], seen, now)
    case Ok(u) => Ok(Charge(subs[i := u.sub], u.overwritten, u.result))
    case Threw(e) => Threw(e)
  }

  /** `checkAndDecrementQuota` run alone. */
  function Consume(subs: seq<Subscription>, org: OrgId, now: int): Outcome<Charge, QuotaError> {
    var found := FindLatest(subs, org, true);
    if found.None? then Threw(NoActiveSubscription)
    else ChargeAt(subs, found.value, subs[found.value], now)
  }

  method CheckAndDecrementQuota(db: Database, org: OrgId, now: int) returns (r: Outcome<QuotaResult, QuotaError>)
    modifies db`subs
    ensures r == match Consume(old(db.subs), org, now)
                 case Ok(c) => Ok(c.result)
                 case Threw(e) => Threw(e)
    ensures db.subs == match Consume(old(db.subs), org, now)
                       case Ok(c) => c.subs
                       case Threw(_) => old(db.subs)
  {
    var found := FindLatest(db.subs, org, true);
    if found.None? {
      return Threw(NoActiveSubscription);
    }
    var i := found.value;
    var subscription := db.subs[i];
    var quota := TierQuota(subscription.tierId);
    if quota.None? {
      return Threw(UnknownTier);
    }
    var limit := quota.value;
    if now > subscription.periodEnd {
      db.subs := db.subs[i := db.subs[i].(usageCount := 1, periodStart := now,
                                          periodEnd := Calendar.NextPeriodEnd(now))];
      return Ok(QuotaResult(1, limit));
    }
    var count := 0;
    if db.subs[i].usageCount < limit {
      db.subs := db.subs[i := db.subs[i].(usageCount := db.subs[i].usageCount + 1)];
      count := 1;
    }
    if count == 0 {
      return Threw(QuotaExceeded(limit));
    }
    return Ok(QuotaResult(subscription.usageCount + 1, limit));
  }

  predicate CanCredit(sub: Subscription) {
    sub.usageCount > 0
  }

  function Credit(sub: Subscription): Subscription {
    sub.(usageCount := sub.usageCount - 1)
  }

  /** Gives one unit back to subscription `i` unless its meter is at zero. */
  function CreditAt(subs: seq<Subscription>, i: Option<nat>): (seq<Subscription>, bool)
    requires i.Some? ==> i.value < |subs|
  {
    if i.None? || !CanCredit(subs[i.value]) then (subs, false)
    else (subs[i.value := Credit(subs[i.value])], true)
  }

  /** `restoreQuota` run alone. */
  function Restore(subs: seq<Subscription>, org: OrgId): (seq<Subscription>, bool) {
    CreditAt(subs, FindLatest(subs, org, true))
  }

  method RestoreQuota(db: Database, org: OrgId) returns (restored: bool)
    modifies db`subs
    ensures (db.subs, restored) == Restore(old(db.subs), org)
  {
    var found := FindLatest(db.subs, org, true);
    if found.None? {
      return false;
    }
    var i := found.value;
    if db.subs[i].usageCount > 0 {
      db.subs := db.subs[i := db.subs[i].(usageCount := db.subs[i].usageCount - 1)];
      return true;
    }
    return false;
  }

  lemma RestoreAfterIncrement(subs: seq<Subscription>, org: OrgId, i: nat)
    requires FindLatest(subs, org, true) == Some(i) && subs[i].usageCount >= 0
    ensures var charged := subs[i := subs[i].(usageCount := subs[i].usageCount + 1)];
            Restore(charged, org) == (subs, true)
  {
    var charged := subs[i := subs[i].(usageCount := subs[i].usageCount + 1)];
    SameChoice(subs, charged, org);
    assert charged[i := Credit(charged[i])] == subs;
  }

  lemma CreditKeepsPeriods(subs: seq<Subscription>, credit: Option<nat>, i: nat)
    requires i < |subs| && (credit.Some? ==> credit.value < |subs|)
    ensures |CreditAt(subs, credit).0| == |subs| && CreditAt(subs, credit).0[i].periodEnd == subs[i].periodEnd
  {
  }

  /** A consumption adds one to the latest ACTIVE meter or opens a new period on it. */
  lemma ConsumedMeters(subs: seq<Subscription>, org: OrgId, now: int)
    requires Consume(subs, org, now).Ok?
    ensures FindLatest(subs, org, true).Some?
    ensures var i, charged := FindLatest(subs, org, true).value, Consume(subs, org, now).value.subs;
            && |charged| == |subs|
            && if now <= subs[i].periodEnd
               then charged == subs[i := subs[i].(usageCount := subs[i].usageCount + 1)]
               else charged[i].periodEnd == Calendar.NextPeriodEnd(now)
  {
  }

  lemma RolloverStays(subs: seq<Subscription>, charged: seq<Subscription>, org: OrgId, i: nat, now: int)
    requires i < |subs| == |charged| && now > subs[i].periodEnd
    requires charged[i].periodEnd == Calendar.NextPeriodEnd(now)
    ensures Restore(charged, org) != (subs, true)
  {
    Calendar.PeriodIsOneMonth(now);
    CreditKeepsPeriods(charged, FindLatest(charged, org, true), i);
    assert Restore(charged, org).0[i].periodEnd > now;
  }

  lemma UndoneIff(subs: seq<Subscription>, charged: seq<Subscription>, org: OrgId, i: nat, now: int)
    requires FindLatest(subs, org, true) == Some(i) && subs[i].usageCount >= 0 && |charged| == |subs|
    requires if now <= subs[i].periodEnd then charged == subs[i := subs[i].(usageCount := subs[i].usageCount + 1)]
             else charged[i].periodEnd == Calendar.NextPeriodEnd(now)
    ensures Restore(charged, org) == (subs, true) <==> now <= subs[i].periodEnd
  {
    if now <= subs[i].periodEnd {
      RestoreAfterIncrement(subs, org, i);
    } else {
      RolloverStays(subs, charged, org, i, now);
    }
  }

  /** Restoring undoes a consumption, every meter being as before, exactly when it did not roll the period over. */
  lemma RestoreUndoesConsume(subs: seq<Subscription>, org: OrgId, now: int)
    requires Consume(subs, org, now).Ok?
    requires forall i :: 0 <= i < |subs| ==> subs[i].usageCount >= 0
    ensures Restore(Consume(subs, org, now).value.subs, org) == (subs, true)
            <==> now <= subs[FindLatest(subs, org, true).value].periodEnd
  {
    ConsumedMeters(subs, org, now);
    UndoneIff(subs, Consume(subs, org, now).value.subs, org, FindLatest(subs, org, true).value, now);
  }

  /** `findFirst` looks at owner, status and period only. */
  lemma {:induction false} SameChoice(a: seq<Subscription>, b: seq<Subscription>, org: OrgId)
    requires |a| == |b|
    requires forall i :: 0 <= i < |a| ==> a[i].(usageCount := 0) == b[i].(usageCount := 0)
    ensures FindLatest(a, org, true) == FindLatest(b, org, true)
  {
    if a != [] {
      SameChoice(a[..|a| - 1], b[..|b| - 1], org);
    }
  }

  // ---------- Serial calls on one subscription ----------

  const MIN_PERIOD := 28 * Calendar.MS_PER_DAY

  /** A call that meters the one subscription `sub`, at the time `now`. */
  datatype Op = Take(now: int) | Refund(now: int)

  datatype Effect = Admitted | RolledOver | Denied | Credited | NotCredited

  function Meter(sub: Subscription, op: Op): (Subscription, Effect) {
    match op
    case Take(now) =>
      (match ChargeSub(sub, sub, now)
       case Ok(u) => (u.sub, if now > sub.periodEnd then RolledOver else Admitted)
       case Threw(_) => (sub, Denied))
    case Refund(_) => if CanCredit(sub) then (Credit(sub), Credited) else (sub, NotCredited)
  }

  /** On one subscription these are the steps of `checkAndDecrementQuota` and `restoreQuota`. */
  lemma MeterIsTheCode(sub: Subscription, now: int)
    requires sub.status == ACTIVE
    ensures [Meter(sub, Take(now)).0] == (match Consume([sub], sub.orgId, now)
                                          case Ok(c) => c.subs
                                          case Threw(_) => [sub])
    ensures Consume([sub], sub.orgId, now).Ok? <==> Meter(sub, Take(now)).1 in {Admitted, RolledOver}
    ensures ([Meter(sub, Refund(now)).0], Meter(sub, Refund(now)).1 == Credited)
         == Restore([sub], sub.orgId)
  {
    assert FindLatest([sub], sub.orgId, true) == Some(0) by {
      assert Candidate([sub][0], sub.orgId, true);
    }
    assert [sub][0 := Credit(sub)] == [Credit(sub)];
  }

  /** The effects of a sequence of calls. */
  function Trace(sub: Subscription, ops: seq<Op>): (t: seq<Effect>)
    ensures |t| == |ops|
    decreases |ops|
  {
    if ops == [] then [] else [Meter(sub, ops[0]).1] + Trace(Meter(sub, ops[0]).0, ops[1..])
  }

  function Final(sub: Subscription, ops: seq<Op>): Subscription
    decreases |ops|
  {
    if ops == [] then sub else Final(Meter(sub, ops[0]).0, ops[1..])
  }

  function Count(t: seq<Effect>, e: Effect): nat {
    if t == [] then 0 else (if t[0] == e then 1 else 0) + Count(t[1..], e)
  }

  function Admissions(t: seq<Effect>): nat {
    Count(t, Admitted) + Count(t, RolledOver)
  }

  ghost predicate Metered(sub: Subscription, limit: int) {
    TierQuota(sub.tierId) == Some(limit) && 0 <= sub.usageCount <= limit
  }

  /** The meter balances: each rollover starts again from one admission. */
  lemma {:induction false} AdmissionsBound(sub: Subscription, ops: seq<Op>, limit: int)
    requires Metered(sub, limit)
    ensures var t := Trace(sub, ops);
            && Metered(Final(sub, ops), limit)
            && sub.usageCount + Admissions(t) <= limit * (Count(t, RolledOver) + 1) + Count(t, Credited)
            && (Count(t, RolledOver) == 0 ==>
                  Final(sub, ops).usageCount == sub.usageCount + Admissions(t) - Count(t, Credited))
    decreases |ops|
  {
    if ops != [] {
      var sub' := Meter(sub, ops[0]).0;
      AdmissionsBound(sub', ops[1..], limit);
      var t := Trace(sub, ops);
      assert t[1..] == Trace(sub', ops[1..]);
      if t[0] == RolledOver {
        assert limit * (Count(t[1..], RolledOver) + 1) + limit == limit * (Count(t, RolledOver) + 1);
      }
    }
  }

  /**
   Admissions of one period are at most the tier limit plus the credits in it: the period opens with
   a rollover and nothing after it rolls over.
   */
  lemma PeriodBound(sub: Subscription, ops: seq<Op>, limit: int)
    requires Metered(sub, limit) && ops != []
    requires var t := Trace(sub, ops);
             t[0] == RolledOver && Count(t[1..], RolledOver) == 0
    ensures Admissions(Trace(sub, ops)) <= limit + Count(Trace(sub, ops), Credited)
  {
    var sub' := Meter(sub, ops[0]).0;
    AdmissionsBound(sub', ops[1..], limit);
    assert Trace(sub, ops)[1..] == Trace(sub', ops[1..]);
  }

  /** Only a rollover moves the end of the period, to at least 28 days past the call. */
  lemma MeterStep(sub: Subscription, op: Op)
    ensures var (sub', e) := Meter(sub, op);
            if e == RolledOver then op.now > sub.periodEnd && sub'.periodEnd >= op.now + MIN_PERIOD
            else sub'.periodEnd == sub.periodEnd
  {
    Calendar.PeriodIsOneMonth(op.now);
  }

  /** The end of the current period before each call and after the last one. */
  function Ends(sub: Subscription, ops: seq<Op>): (e: seq<int>)
    ensures |e| == |ops| + 1 && e[0] == sub.periodEnd
    decreases |ops|
  {
    if ops == [] then [sub.periodEnd] else [sub.periodEnd] + Ends(Meter(sub, ops[0]).0, ops[1..])
  }

  function Times(ops: seq<Op>): (times: seq<int>)
    ensures |times| == |ops| && forall i :: 0 <= i < |ops| ==> times[i] == ops[i].now
  {
    seq(|ops|, i requires 0 <= i < |ops| => ops[i].now)
  }

  /** Effects, times and period ends of which only rollovers, after the end, move the end on. */
  ghost predicate Spaced(t: seq<Effect>, times: seq<int>, ends: seq<int>) {
    && |times| == |t| && |ends| == |t| + 1
    && forall i :: 0 <= i < |t| ==>
         if t[i] == RolledOver then times[i] > ends[i] && ends[i + 1] >= times[i] + MIN_PERIOD
         else ends[i + 1] == ends[i]
  }

  lemma {:induction false} TraceIsSpaced(sub: Subscription, ops: seq<Op>)
    ensures Spaced(Trace(sub, ops), Times(ops), Ends(sub, ops))
    decreases |ops|
  {
    if ops != [] {
      var sub' := Meter(sub, ops[0]).0;
      MeterStep(sub, ops[0]);
      TraceIsSpaced(sub', ops[1..]);
      assert Trace(sub, ops)[1..] == Trace(sub', ops[1..]);
      assert Times(ops)[1..] == Times(ops[1..]);
      assert Ends(sub, ops)[1..] == Ends(sub', ops[1..]);
      SpacedCons(Trace(sub, ops), Times(ops), Ends(sub, ops));
    }
  }

  lemma SpacedCons(t: seq<Effect>, times: seq<int>, ends: seq<int>)
    requires |t| > 0 && |times| == |t| && |ends| == |t| + 1
    requires Spaced(t[1..], times[1..], ends[1..])
    requires if t[0] == RolledOver then times[0] > ends[0] && ends[1] >= times[0] + MIN_PERIOD
             else ends[1] == ends[0]
    ensures Spaced(t, times, ends)
  {
    forall i | 0 <= i < |t|
      ensures if t[i] == RolledOver then times[i] > ends[i] && ends[i + 1] >= times[i] + MIN_PERIOD
              else ends[i + 1] == ends[i]
    {
      if i > 0 {
        assert t[1..][i - 1] == t[i] && times[1..][i - 1] == times[i];
        assert ends[1..][i - 1] == ends[i] && ends[1..][i] == ends[i + 1];
      }
    }
  }

  lemma {:induction false} EndsGrow(t: seq<Effect>, times: seq<int>, ends: seq<int>, i: nat, j: nat)
    requires Spaced(t, times, ends) && i <= j <= |t|
    ensures ends[i] <= ends[j]
    decreases j - i
  {
    if i < j {
      EndsGrow(t, times, ends, i, j - 1);
      assert t[j - 1] == RolledOver || ends[j] == ends[j - 1];
    }
  }

  lemma SpacedApart(t: seq<Effect>, times: seq<int>, ends: seq<int>, i: nat, j: nat)
    requires Spaced(t, times, ends) && i < j < |t|
    requires t[i] == RolledOver && t[j] == RolledOver
    ensures times[j] - times[i] > MIN_PERIOD
  {
    EndsGrow(t, times, ends, i + 1, j);
    assert ends[j + 1] >= times[j] + MIN_PERIOD && times[j] > ends[j];
  }

  /** Two rollovers are more than 28 days apart, whatever the clock does in between. */
  lemma RolloversApart(sub: Subscription, ops: seq<Op>, i: nat, j: nat)
    requires i < j < |ops|
    requires Trace(sub, ops)[i] == RolledOver && Trace(sub, ops)[j] == RolledOver
    ensures ops[j].now - ops[i].now > MIN_PERIOD
  {
    TraceIsSpaced(sub, ops);
    SpacedApart(Trace(sub, ops), Times(ops), Ends(sub, ops), i, j);
    assert Times(ops)[i] == ops[i].now && Times(ops)[j] == ops[j].now;
  }

  /** After the first, each rollover needs another 28 days to pass. */
  lemma {:induction false} RolloversNeedTime(t: seq<Effect>, times: seq<int>, ends: seq<int>, end: int)
    requires Spaced(t, times, ends)
    requires forall i :: 0 <= i < |t| ==> times[i] <= end
    ensures Count(t, RolledOver) > 0 ==> (Count(t, RolledOver) - 1) * MIN_PERIOD < end - ends[0]
    decreases |t|
  {
    if t != [] {
      SpacedTail(t, times, ends);
      RolloversNeedTime(t[1..], times[1..], ends[1..], end);
      assert ends[1..][0] == ends[1];
    }
  }

  lemma SpacedTail(t: seq<Effect>, times: seq<int>, ends: seq<int>)
    requires Spaced(t, times, ends) && t != []
    ensures Spaced(t[1..], times[1..], ends[1..])
  {
  }

  lemma {:induction false} RolloversInSpan(t: seq<Effect>, times: seq<int>, ends: seq<int>, start: int, end: int)
    requires Spaced(t, times, ends) && start <= end
    requires forall i :: 0 <= i < |t| ==> start <= times[i] <= end
    ensures Count(t, RolledOver) <= (end - start) / MIN_PERIOD + 1
    decreases |t|
  {
    if t != [] {
      SpacedTail(t, times, ends);
      if t[0] == RolledOver {
        RolloversNeedTime(t[1..], times[1..], ends[1..], end);
        assert ends[1..][0] == ends[1];
        FitInSpan(Count(t[1..], RolledOver), end - start);
      } else {
        RolloversInSpan(t[1..], times[1..], ends[1..], start, end);
      }
    }
  }

  lemma FitInSpan(n: nat, span: int)
    requires span >= 0 && (n > 0 ==> n * MIN_PERIOD < span)
    ensures n <= span / MIN_PERIOD
  {
  }

  /**
   Admissions over any span of time: at most one tier limit for each period touched, of which there
   are at most span / 28 days + 2, plus the credits.
   */
  lemma SpanBound(sub: Subscription, ops: seq<Op>, limit: int, start: int, end: int)
    requires Metered(sub, limit) && start <= end
    requires forall i :: 0 <= i < |ops| ==> start <= ops[i].now <= end
    ensures Admissions(Trace(sub, ops))
         <= limit * ((end - start) / MIN_PERIOD + 2) + Count(Trace(sub, ops), Credited)
  {
    AdmissionsBound(sub, ops, limit);
    TraceIsSpaced(sub, ops);
    RolloversInSpan(Trace(sub, ops), Times(ops), Ends(sub, ops), start, end);
    Within(limit, sub.usageCount, Admissions(Trace(sub, ops)), Count(Trace(sub, ops), Credited),
           Count(Trace(sub, ops), RolledOver) + 1, (end - start) / MIN_PERIOD + 2);
  }

  lemma Within(limit: int, used: int, admitted: int, credited: int, periods: int, most: int)
    requires limit >= 0 && used >= 0 && used + admitted <= limit * periods + credited && periods <= most
    ensures admitted <= limit * most + credited
  {
    assert limit * periods <= limit * most;
  }

  // ---------- In plain numbers ----------

  /**
   Consuming a unit of the latest ACTIVE subscription: in an open period it succeeds exactly below 1, 9
   or 999 units for the three tiers and adds one; in an elapsed one it starts a month with one unit.
   */
  lemma ConsumeExact(subs: seq<Subscription>, org: OrgId, now: int)
    requires exists j :: 0 <= j < |subs| && subs[j].orgId == org && subs[j].status == ACTIVE
    ensures FindLatest(subs, org, true).Some?
    ensures var i := FindLatest(subs, org, true).value;
            var sub, r := subs[i], Consume(subs, org, now);
            var limit := map["tier1" := 1, "tier2" := 9, "tier3" := 999];
            if sub.tierId !in limit then r == Threw(UnknownTier)
            else if now > sub.periodEnd then
              && r.Ok? && r.value.result == QuotaResult(1, limit[sub.tierId])
              && r.value.subs == subs[i := sub.(usageCount := 1, periodStart := now,
                                                periodEnd := r.value.subs[i].periodEnd)]
              && 2_419_200_000 <= r.value.subs[i].periodEnd - now <= 2_678_400_000
            else if sub.usageCount < limit[sub.tierId] then
              && r.Ok? && r.value.result == QuotaResult(sub.usageCount + 1, limit[sub.tierId])
              && r.value.subs == subs[i := sub.(usageCount := sub.usageCount + 1)]
            else r == Threw(QuotaExceeded(limit[sub.tierId]))
  {
    var j :| 0 <= j < |subs| && subs[j].orgId == org && subs[j].status == ACTIVE;
    assert Candidate(subs[j], org, true);
    Calendar.PeriodIsOneMonth(now);
  }

  /** Without an ACTIVE subscription there is nothing to consume and nothing to restore. */
  lemma NoActiveExact(subs: seq<Subscription>, org: OrgId, now: int)
    requires forall j :: 0 <= j < |subs| ==> subs[j].orgId != org || subs[j].status != ACTIVE
    ensures Consume(subs, org, now) == Threw(NoActiveSubscription)
    ensures Restore(subs, org) == (subs, false)
  {
  }

  /** Restoring takes one off the latest ACTIVE meter exactly if it is above zero. */
  lemma RestoreExact(subs: seq<Subscription>, org: OrgId)
    requires exists j :: 0 <= j < |subs| && subs[j].orgId == org && subs[j].status == ACTIVE
    ensures FindLatest(subs, org, true).Some?
    ensures var i := FindLatest(subs, org, true).value;
            Restore(subs, org) == if subs[i].usageCount > 0
                                  then (subs[i := subs[i].(usageCount := subs[i].usageCount - 1)], true)
                                  else (subs, false)
  {
    var j :| 0 <= j < |subs| && subs[j].orgId == org && subs[j].status == ACTIVE;
    assert Candidate(subs[j], org, true);
  }

  /** `n` calls in the open period are admitted as long as there are units left, and no longer. */
  lemma {:induction false} AdmitsExactly(sub: Subscription, ops: seq<Op>, limit: int)
    requires Metered(sub, limit)
    requires forall i :: 0 <= i < |ops| ==> ops[i].Take? && ops[i].now <= sub.periodEnd
    ensures var left := limit - sub.usageCount;
            Admissions(Trace(sub, ops)) == if |ops| <= left then |ops| else left
    decreases |ops|
  {
    if ops != [] {
      var sub' := Meter(sub, ops[0]).0;
      AdmitsExactly(sub', ops[1..], limit);
      assert Trace(sub, ops)[1..] == Trace(sub', ops[1..]);
    }
  }

  /** From an unused meter, a tier admits its 1, 9 or 999 requests in an open period. */
  lemma TierAdmits(sub: Subscription, ops: seq<Op>)
    requires sub.usageCount == 0
    requires forall i :: 0 <= i < |ops| ==> ops[i].Take? && ops[i].now <= sub.periodEnd
    ensures sub.tierId == "tier1" && |ops| >= 1 ==> Admissions(Trace(sub, ops)) == 1
    ensures sub.tierId == "tier2" && |ops| >= 9 ==> Admissions(Trace(sub, ops)) == 9
    ensures sub.tierId == "tier3" && |ops| >= 999 ==> Admissions(Trace(sub, ops)) == 999
  {
    if TierQuota(sub.tierId).Some? {
      AdmitsExactly(sub, ops, TierQuota(sub.tierId).value);
    }
  }
}
