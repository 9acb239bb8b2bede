/**
 Where the code's own promises stop: the single-poller and serial-call assumptions are needed, and a
 crash between send and persist repeats a broadcast. Each promise is refuted by a family of runs; the
 exact conditions under which it does hold are proved beside the invariants.
 */
module Limits {
  import opened Wrappers
  import opened Store
  import opened Machine
  import opened Accounting
  import Memo
  import Calendar
  import Intake
  import Webhook
  import Delivery

  lemma RunSnoc(ls: seq<Label>, l: Label)
    ensures Run(ls + [l]) == Step(Run(ls), l)
  {
    assert (ls + [l])[..|ls|] == ls;
  }

  // ---------- Stale readers ----------

  const CHECKOUT := Webhook.Event("evt", Some(Webhook.Session(Some("org"), None, Some("tier1"), Some("sub"))))

  /** The subscription that the checkout opens at `start`. */
  function FirstSub(start: int): Subscription {
    Subscription("sub", "org", "tier1", ACTIVE, start, Calendar.NextPeriodEnd(start), 0)
  }

  /** A draft of its own for every number. */
  function DraftOf(k: nat): Intake.Draft {
    Intake.Draft(seq(k, _ => 'a'), seq(k, _ => 'a'), "wallet")
  }

  /**
   `n` readers of the first period have been there, and `k` of them have been admitted, at the instant
   `now` at which they opened the next period.
   */
  ghost predicate Overrun(s: Sys, n: nat, k: nat, start: int, now: int) {
    && k <= n && |s.pending| == n - k
    && (forall j :: 0 <= j < |s.pending| ==> s.pending[j] == PendingIntake("org", 0, FirstSub(start)))
    && |s.t.rows| == Staged(s.t.audits, "org") == k && Restored(s.t.audits, "org") == 0
    && (forall j :: 0 <= j < k ==> s.t.rows[j] == Intake.StagedRow("org", DraftOf(j + 1), "a"))
    && s.pc.Idle? && s.chain == []
    && s.t.orgs == {"org"} && s.t.events == {"evt"}
    && s.t.subs == [if k == 0 then FirstSub(start) else NextSub(now)]
  }

  /** The same subscription after one admission in the period that starts at `now`. */
  function NextSub(now: int): Subscription {
    Subscription("sub", "org", "tier1", ACTIVE, now, Calendar.NextPeriodEnd(now), 1)
  }

  lemma OneReader(s: Sys, n: nat, start: int, now: int)
    requires Overrun(s, n, 0, start, now)
    ensures Overrun(Step(s, ReadForIntake("org", 0)), n + 1, 0, start, now)
  {
    assert Latest(s.t.subs, "org", true, 0);
  }

  lemma DraftIsFresh(rows: seq<ServiceRequest>)
    requires forall j :: 0 <= j < |rows| ==> rows[j] == Intake.StagedRow("org", DraftOf(j + 1), "a")
    ensures Intake.Fresh(rows, DraftOf(|rows| + 1))
  {
    forall j | 0 <= j < |rows|
      ensures rows[j].id != DraftOf(|rows| + 1).id && rows[j].noticeToken != Some(DraftOf(|rows| + 1).noticeToken)
    {
      assert |DraftOf(j + 1).id| == |DraftOf(j + 1).noticeToken| == j + 1;
    }
  }

  ghost predicate AdmittedInto(t: Tables, t': Tables, draft: Intake.Draft, now: int) {
    && t'.subs == [NextSub(now)] && t'.orgs == t.orgs && t'.events == t.events
    && t'.rows == t.rows + [Intake.StagedRow("org", draft, "a")]
    && t'.audits == t.audits + [SERVICE_REQUEST_STAGED(|t.rows|, "org")]
  }

  /** A reader that saw the period elapsed is admitted whatever the meter says by then. */
  lemma StaleIntake(t: Tables, seen: Subscription, now: int, draft: Intake.Draft)
    requires "org" in t.orgs && seen.tierId == "tier1" && now > seen.periodEnd
    requires |t.subs| == 1 && t.subs[0].id == "sub" && t.subs[0].orgId == "org" && t.subs[0].tierId == "tier1"
    requires t.subs[0].status == ACTIVE && Intake.Fresh(t.rows, draft)
    ensures var r := Intake.IntakeAt(t, "org", 0, seen, now, draft, Some("a"));
            r.Ok? && AdmittedInto(t, r.value.tables, draft, now)
  {
  }

  lemma StaleStep(s: Sys, seen: Subscription, now: int, draft: Intake.Draft)
    requires s.pending != [] && s.pending[0] == PendingIntake("org", 0, seen)
    requires |s.t.subs| == 1 && Intake.IntakeAt(s.t, "org", 0, seen, now, draft, Some("a")).Ok?
    ensures var s' := Step(s, CommitIntake(0, now, draft, Some("a")));
            && s'.t == Intake.IntakeAt(s.t, "org", 0, seen, now, draft, Some("a")).value.tables
            && s'.pending == s.pending[1..] && s'.pc == s.pc && s'.chain == s.chain
  {
    assert Remove(s.pending, 0) == s.pending[1..];
  }

  lemma OneMore(s: Sys, s': Sys, n: nat, k: nat, start: int, now: int)
    requires k < n && Overrun(s, n, k, start, now) && AdmittedInto(s.t, s'.t, DraftOf(k + 1), now)
    requires s'.pending == s.pending[1..] && s'.pc == s.pc && s'.chain == s.chain
    ensures Overrun(s', n, k + 1, start, now)
  {
    AuditAppended(s.t.audits, SERVICE_REQUEST_STAGED(|s.t.rows|, "org"), "org");
    assert forall j :: 0 <= j < |s.pending| - 1 ==> s'.pending[j] == s.pending[j + 1];
  }

  lemma StaleCommit(s: Sys, n: nat, k: nat, start: int, now: int)
    requires k < n && Overrun(s, n, k, start, now) && now > FirstSub(start).periodEnd
    ensures Overrun(Step(s, CommitIntake(0, now, DraftOf(k + 1), Some("a"))), n, k + 1, start, now)
  {
    var draft := DraftOf(k + 1);
    DraftIsFresh(s.t.rows);
    StaleIntake(s.t, FirstSub(start), now, draft);
    StaleStep(s, FirstSub(start), now, draft);
    OneMore(s, Step(s, CommitIntake(0, now, draft, Some("a"))), n, k, start, now);
  }

  lemma FirstDelivery(start: int)
    ensures Webhook.Deliver(EMPTY, CHECKOUT, start) == Tables({"org"}, [FirstSub(start)], [], [], {"evt"})
  {
  }

  lemma FirstSubscription(start: int, now: int)
    ensures Overrun(Step(Step(INIT, ReadForStripe(CHECKOUT)), CommitStripe(0, start)), 0, 0, start, now)
  {
    StripeAlone(INIT, CHECKOUT, start);
    FirstDelivery(start);
  }

  /** A checkout, then `n` readers of the elapsed period. */
  lemma {:induction false} Readers(n: nat, start: int, now: int) returns (ls: seq<Label>)
    ensures Overrun(Run(ls), n, 0, start, now)
  {
    if n == 0 {
      ls := [] + [ReadForStripe(CHECKOUT)] + [CommitStripe(0, start)];
      RunSnoc([], ReadForStripe(CHECKOUT));
      RunSnoc([] + [ReadForStripe(CHECKOUT)], CommitStripe(0, start));
      FirstSubscription(start, now);
    } else {
      var before := Readers(n - 1, start, now);
      ls := before + [ReadForIntake("org", 0)];
      RunSnoc(before, ReadForIntake("org", 0));
      OneReader(Run(before), n - 1, start, now);
    }
  }

  /** `n` readers of the elapsed period, the first of which has been admitted. */
  lemma FirstAdmission(n: nat, start: int, now: int) returns (ls: seq<Label>)
    requires n >= 1 && now > FirstSub(start).periodEnd
    ensures Overrun(Run(ls), n, 1, start, now)
  {
    var before := Readers(n, start, now);
    ls := before + [CommitIntake(0, now, DraftOf(1), Some("a"))];
    RunSnoc(before, CommitIntake(0, now, DraftOf(1), Some("a")));
    StaleCommit(Run(before), n, 0, start, now);
  }

  /** The next `m` readers commit, all at the instant `now`. */
  function Commits(m: nat, now: int): (ls: seq<Label>)
    ensures |ls| == m
  {
    if m == 0 then [] else Commits(m - 1, now) + [CommitIntake(0, now, DraftOf(m + 1), Some("a"))]
  }

  lemma {:induction false} CommitsPrefix(m: nat, j: nat, now: int)
    requires j <= m
    ensures Commits(m, now)[..j] == Commits(j, now)
    ensures j < m ==> Commits(m, now)[j] == CommitIntake(0, now, DraftOf(j + 2), Some("a"))
    decreases m
  {
    if j < m {
      CommitsPrefix(m - 1, j, now);
    }
  }

  lemma CommitOne(ls: seq<Label>, n: nat, k: nat, start: int, now: int)
    requires k < n && now > FirstSub(start).periodEnd && Overrun(Run(ls), n, k, start, now)
    ensures Overrun(Run(ls + [CommitIntake(0, now, DraftOf(k + 1), Some("a"))]), n, k + 1, start, now)
  {
    RunSnoc(ls, CommitIntake(0, now, DraftOf(k + 1), Some("a")));
    StaleCommit(Run(ls), n, k, start, now);
  }

  lemma CommitsAppended(ls: seq<Label>, m: nat, now: int)
    ensures ls + Commits(0, now) == ls
    ensures ls + Commits(m + 1, now) == ls + Commits(m, now) + [CommitIntake(0, now, DraftOf(m + 2), Some("a"))]
  {
  }

  /** After `m` such commits `m + 1` readers have been admitted. */
  ghost predicate OverrunAfter(ls: seq<Label>, n: nat, m: nat, start: int, now: int) {
    Overrun(Run(ls + Commits(m, now)), n, m + 1, start, now)
  }

  lemma CommitsNext(ls: seq<Label>, n: nat, m: nat, start: int, now: int)
    requires m + 1 < n && now > FirstSub(start).periodEnd && OverrunAfter(ls, n, m, start, now)
    ensures OverrunAfter(ls, n, m + 1, start, now)
  {
    CommitOne(ls + Commits(m, now), n, m + 1, start, now);
    CommitsAppended(ls, m, now);
  }

  lemma {:induction false} CommitsOverrun(ls: seq<Label>, n: nat, m: nat, start: int, now: int)
    requires m < n && now > FirstSub(start).periodEnd && Overrun(Run(ls), n, 1, start, now)
    ensures OverrunAfter(ls, n, m, start, now)
  {
    CommitsAppended(ls, 0, now);
    if m > 0 {
      CommitsOverrun(ls, n, m - 1, start, now);
      CommitsNext(ls, n, m - 1, start, now);
    }
  }

  /** A charge at `now`, within the stored period, on a read of the period before it. */
  ghost predicate StaleCharge(s: Sys, l: Label, start: int, now: int) {
    && l.CommitIntake? && l.now == now && l.k < |s.pending|
    && s.pending[l.k] == PendingIntake("org", 0, FirstSub(start))
    && |s.t.subs| == 1 && s.t.subs[0].periodStart == now <= s.t.subs[0].periodEnd
  }

  lemma ChargesStale(s: Sys, n: nat, k: nat, start: int, now: int, draft: Intake.Draft)
    requires 1 <= k < n && Overrun(s, n, k, start, now)
    ensures StaleCharge(s, CommitIntake(0, now, draft, Some("a")), start, now)
    ensures InPeriod(s, CommitIntake(0, now, draft, Some("a")), "org")
  {
    Calendar.PeriodIsOneMonth(now);
  }

  /** Step `j` of the stretch is such a charge. */
  ghost predicate StaleAt(ls: seq<Label>, more: seq<Label>, j: nat, start: int, now: int) {
    && j < |more| && StaleCharge(Run(ls + more[..j]), more[j], start, now)
    && InPeriod(Run(ls + more[..j]), more[j], "org")
  }

  lemma PrefixCharges(ls: seq<Label>, more: seq<Label>, j: nat, n: nat, start: int, now: int,
      prefix: seq<Label>, draft: Intake.Draft)
    requires j < |more| && more[..j] == prefix && more[j] == CommitIntake(0, now, draft, Some("a"))
    requires j + 1 < n && Overrun(Run(ls + prefix), n, j + 1, start, now)
    ensures StaleAt(ls, more, j, start, now)
  {
    ChargesStale(Run(ls + prefix), n, j + 1, start, now, draft);
  }

  lemma OverrunCharges(ls: seq<Label>, n: nat, j: nat, start: int, now: int)
    requires j + 1 < n && now > FirstSub(start).periodEnd && Overrun(Run(ls), n, 1, start, now)
    ensures StaleAt(ls, Commits(n - 1, now), j, start, now)
  {
    CommitsPrefix(n - 1, j, now);
    CommitsOverrun(ls, n, j, start, now);
    PrefixCharges(ls, Commits(n - 1, now), j, n, start, now, Commits(j, now), DraftOf(j + 2));
  }

  lemma OneSubscription(subs: seq<Subscription>, org: OrgId)
    requires |subs| == 1 && subs[0].orgId == org
    ensures Usage(subs, org) == subs[0].usageCount && Capacity(subs, org) == LimitOf(subs[0].tierId)
  {
    assert subs[..0] == [];
  }

  /** The counts of two such states: one unit in use at both, one unit of capacity, no credits. */
  lemma OverrunCounts(a: Sys, b: Sys, n: nat, k: nat, start: int, now: int)
    requires Overrun(a, n, 1, start, now) && Overrun(b, n, k, start, now) && k >= 1
    ensures Usage(a.t.subs, "org") == 1 && Admitted(a, b, "org") == k - 1
    ensures Capacity(b.t.subs, "org") == 1 && Credited(a, b, "org") == 0
  {
    OneSubscription(a.t.subs, "org");
    OneSubscription(b.t.subs, "org");
  }

  /**
   The per-period bound of serial calls fails under interleaving. For every `n`, after some run `ls` in
   which one unit of a tier of one unit was used in the period that starts at `now`, the steps `more`
   admit `n - 1` further requests in that same period and at that same instant, each on a read of the
   elapsed period before it.
   */
  lemma StaleReadersOverrun(n: nat, start: int, now: int) returns (ls: seq<Label>, more: seq<Label>)
    requires n >= 1 && now > FirstSub(start).periodEnd
    ensures Overrun(Run(ls), n, 1, start, now) && |more| == n - 1
    ensures forall j :: 0 <= j < |more| ==> StaleCharge(Run(ls + more[..j]), more[j], start, now)
    ensures AllInPeriod(ls, more, "org")
    ensures var a, b := Run(ls), Run(ls + more);
            && Usage(a.t.subs, "org") == 1 && Admitted(a, b, "org") == n - 1
            && Capacity(b.t.subs, "org") == 1 && Credited(a, b, "org") == 0
            && (WithinLimits(a, b, "org") <==> n == 1)
  {
    ls := FirstAdmission(n, start, now);
    more := Commits(n - 1, now);
    forall j | 0 <= j < |more|
      ensures StaleCharge(Run(ls + more[..j]), more[j], start, now)
      ensures InPeriod(Run(ls + more[..j]), more[j], "org")
    {
      OverrunCharges(ls, n, j, start, now);
    }
    CommitsOverrun(ls, n, n - 1, start, now);
    OverrunCounts(Run(ls), Run(ls + more), n, n, start, now);
  }

  // ---------- A failed delivery that costs a unit ----------

  /** The one request is FAILED, its unit was not given back and still counts where it was charged. */
  ghost predicate Costly(s: Sys) {
    && |s.t.rows| == 1 && s.t.rows[0].status == FAILED
    && s.t.audits != [] && s.t.audits[|s.t.audits| - 1].SERVICE_FAILED?
    && !s.t.audits[|s.t.audits| - 1].quotaRestored
    && s.t.subs != [] && s.t.subs[0].usageCount == 1
  }

  /** The worker is idle, and the one request waits; `subs` are the subscriptions. */
  ghost predicate Waiting(s: Sys, subs: seq<Subscription>) {
    && s.pc.Idle? && |s.t.rows| == 1 && s.t.rows[0].orgId == "org"
    && Claimable(s.t.rows[0]) && s.t.rows[0].txSignature.None? && s.t.subs == subs
  }

  /** The latest ACTIVE subscription, if there is one, has nothing to give back, and the first has a unit in use. */
  ghost predicate NothingToRestore(subs: seq<Subscription>, credit: Option<nat>) {
    && subs != [] && subs[0].usageCount == 1
    && (if credit.Some? then Latest(subs, "org", true, credit.value) && subs[credit.value].usageCount == 0
        else FindLatest(subs, "org", true).None?)
  }

  lemma ThrowNext(s: Sys, subs: seq<Subscription>, message: string)
    requires Waiting(s, subs)
    ensures var s' := Step(Step(Step(s, Poll), Claim), Throw(message));
            && s'.pc.Busy? && s'.pc.i == 0 && s'.pc.snap.orgId == "org" && s'.pc.stage == Failing(Thrown(message))
            && |s'.t.rows| == 1 && s'.t.subs == subs
  {
    assert Oldest(s.t.rows, 0) == Some(0);
    var claimed := Step(Step(s, Poll), Claim);
    assert claimed.pc.Busy? && claimed.pc.i == 0 && claimed.pc.stage == Claimed && claimed.t.subs == subs;
  }

  lemma ParkLast(s: Sys, message: string, credit: Option<nat>)
    requires s.pc.Busy? && s.pc.i == 0 && s.pc.snap.orgId == "org" && s.pc.stage == Failing(Thrown(message))
    requires |s.t.rows| == 1 && NothingToRestore(s.t.subs, credit)
    ensures Costly(Step(Step(s, ChooseCredit(credit)), Park))
  {
    var parking := Step(s, ChooseCredit(credit));
    assert parking == At(s, Parking(Thrown(message), credit));
  }

  /** The delivery of the waiting request throws, and the failure is parked. */
  lemma FailNext(ls: seq<Label>, message: string, credit: Option<nat>)
    requires Waiting(Run(ls), Run(ls).t.subs) && NothingToRestore(Run(ls).t.subs, credit)
    ensures Costly(Run(ls + [Poll] + [Claim] + [Throw(message)] + [ChooseCredit(credit)] + [Park]))
  {
    var thrown := ls + [Poll] + [Claim] + [Throw(message)];
    RunSnoc(ls, Poll);
    RunSnoc(ls + [Poll], Claim);
    RunSnoc(ls + [Poll] + [Claim], Throw(message));
    RunSnoc(thrown, ChooseCredit(credit));
    RunSnoc(thrown + [ChooseCredit(credit)], Park);
    ThrowNext(Run(ls), Run(ls).t.subs, message);
    ParkLast(Run(thrown), message, credit);
  }

  lemma CancelFirst(s: Sys, start: int, now: int)
    requires Overrun(s, 1, 1, start, now)
    ensures var s' := Step(s, ChangeStatus(0, CANCELED));
            Waiting(s', s'.t.subs) && NothingToRestore(s'.t.subs, None)
  {
  }

  /**
   The promise that a failed delivery never costs a fulfilment is not kept: when the subscription is
   canceled between intake and failure, the request is FAILED and its unit stays spent.
   */
  lemma CancellationCosts(start: int, now: int, message: string) returns (staged: seq<Label>)
    requires now > FirstSub(start).periodEnd
    ensures Overrun(Run(staged), 1, 1, start, now)
    ensures Costly(Run(staged + [ChangeStatus(0, CANCELED)]
                       + [Poll] + [Claim] + [Throw(message)] + [ChooseCredit(None)] + [Park]))
  {
    staged := FirstAdmission(1, start, now);
    RunSnoc(staged, ChangeStatus(0, CANCELED));
    CancelFirst(Run(staged), start, now);
    FailNext(staged + [ChangeStatus(0, CANCELED)], message, None);
  }

  const RENEWAL := Webhook.Event("renewal",
                                 Some(Webhook.Session(Some("org"), None, Some("tier1"), Some("renewed"))))

  /** What the renewal opens. */
  function RenewedSub(later: int): Subscription {
    Subscription("renewed", "org", "tier1", ACTIVE, later, Calendar.NextPeriodEnd(later), 0)
  }

  lemma RenewalDelivers(t: Tables, now: int, later: int)
    requires t.orgs == {"org"} && t.events == {"evt"} && t.subs == [NextSub(now)]
    ensures var t' := Webhook.Deliver(t, RENEWAL, later);
            t'.subs == [NextSub(now), RenewedSub(later)] && t'.rows == t.rows
  {
    assert Webhook.IndexOf(t.subs, "renewed").None?;
  }

  lemma RenewedIsLatest(now: int, later: int)
    requires later > now + 3 * Calendar.MS_PER_DAY
    ensures NothingToRestore([NextSub(now), RenewedSub(later)], Some(1))
  {
    Calendar.PeriodIsOneMonth(now);
    Calendar.PeriodIsOneMonth(later);
  }

  lemma RenewFirst(s: Sys, start: int, now: int, later: int)
    requires Overrun(s, 1, 1, start, now) && later > now + 3 * Calendar.MS_PER_DAY
    ensures var s' := Step(Step(s, ReadForStripe(RENEWAL)), CommitStripe(0, later));
            Waiting(s', s'.t.subs) && NothingToRestore(s'.t.subs, Some(1))
  {
    StripeAlone(s, RENEWAL, later);
    RenewalDelivers(s.t, now, later);
    RenewedIsLatest(now, later);
    Delivery.OfficeFrames(s, ReadForStripe(RENEWAL));
    Delivery.OfficeFrames(Step(s, ReadForStripe(RENEWAL)), CommitStripe(0, later));
  }

  /**
   Nor is it kept without a cancellation: when the organization checks out again, more than three days
   after the intake and before the failure, the credit goes to the new subscription, which has no unit
   in use, and the spent unit stays where it was charged.
   */
  lemma RenewalCosts(start: int, now: int, later: int, message: string) returns (staged: seq<Label>)
    requires now > FirstSub(start).periodEnd && later > now + 3 * Calendar.MS_PER_DAY
    ensures Overrun(Run(staged), 1, 1, start, now)
    ensures Costly(Run(staged + [ReadForStripe(RENEWAL)] + [CommitStripe(0, later)]
                       + [Poll] + [Claim] + [Throw(message)] + [ChooseCredit(Some(1))] + [Park]))
  {
    staged := FirstAdmission(1, start, now);
    RunSnoc(staged, ReadForStripe(RENEWAL));
    RunSnoc(staged + [ReadForStripe(RENEWAL)], CommitStripe(0, later));
    RenewFirst(Run(staged), start, now, later);
    FailNext(staged + [ReadForStripe(RENEWAL)] + [CommitStripe(0, later)], message, Some(1));
  }

  // ---------- Two checkouts of one new organization ----------

  ghost predicate FirstCheckouts(e: Webhook.Event, f: Webhook.Event) {
    && e.id != f.id && e.checkout.Some? && f.checkout.Some?
    && Webhook.Attributable(e.checkout.value) && Webhook.Attributable(f.checkout.value)
    && Webhook.ClerkOrgId(e.checkout.value) == Webhook.ClerkOrgId(f.checkout.value)
  }

  lemma BothLook(e: Webhook.Event, f: Webhook.Event)
    requires FirstCheckouts(e, f)
    ensures var s := Step(Step(INIT, ReadForStripe(e)), ReadForStripe(f));
            && s.t == EMPTY && s.replies == []
            && s.pending == [PendingStripe(e, Webhook.Seen(false, false)), PendingStripe(f, Webhook.Seen(false, false))]
  {
  }

  lemma FirstInserts(s: Sys, e: Webhook.Event, p: Pending, now: int)
    requires s.t == EMPTY && s.replies == [] && e.checkout.Some? && Webhook.Attributable(e.checkout.value)
    requires s.pending == [PendingStripe(e, Webhook.Seen(false, false)), p]
    ensures var s' := Step(s, CommitStripe(0, now));
            && s'.pending == [p] && s'.replies == [Reply(e, Webhook.Received)]
            && s'.t.events == {e.id} && s'.t.orgs == {Webhook.ClerkOrgId(e.checkout.value)} && |s'.t.subs| == 1
  {
    assert Remove(s.pending, 0) == [p];
  }

  lemma SecondConflicts(s: Sys, f: Webhook.Event, later: int)
    requires s.pending == [PendingStripe(f, Webhook.Seen(false, false))]
    requires f.checkout.Some? && Webhook.Attributable(f.checkout.value)
    requires Webhook.ClerkOrgId(f.checkout.value) in s.t.orgs
    ensures var s' := Step(s, CommitStripe(0, later));
            s'.t == s.t && s'.replies == s.replies + [Reply(f, Webhook.Deduped)]
  {
  }

  /**
   The promise that a deduped event was already processed is not kept: two first checkouts of one
   organization that both look before either has inserted end with the second one answered as deduped,
   neither recorded nor applied.
   */
  lemma RacingCheckouts(e: Webhook.Event, f: Webhook.Event, now: int, later: int) returns (ls: seq<Label>)
    requires FirstCheckouts(e, f)
    ensures Run(ls).replies == [Reply(e, Webhook.Received), Reply(f, Webhook.Deduped)]
    ensures Run(ls).t.events == {e.id} && |Run(ls).t.subs| == 1
  {
    var looked := [] + [ReadForStripe(e)] + [ReadForStripe(f)];
    RunSnoc([], ReadForStripe(e));
    RunSnoc([] + [ReadForStripe(e)], ReadForStripe(f));
    BothLook(e, f);
    FirstInserts(Run(looked), e, PendingStripe(f, Webhook.Seen(false, false)), now);
    RunSnoc(looked, CommitStripe(0, now));
    SecondConflicts(Run(looked + [CommitStripe(0, now)]), f, later);
    RunSnoc(looked + [CommitStripe(0, now)], CommitStripe(0, later));
    ls := looked + [CommitStripe(0, now)] + [CommitStripe(0, later)];
  }

  // ---------- Lost signatures ----------

  /** One request, still without a signature, of which `n` transactions were broadcast; the worker idle. */
  ghost predicate Unsaved(s: Sys, n: nat) {
    && s.pc.Idle? && |s.t.rows| == 1 && Claimable(s.t.rows[0]) && s.t.rows[0].txSignature.None?
    && Delivery.Broadcasts(s.chain, 0) == n
  }

  /** The worker claims the request, sends, and dies before the signature is stored. */
  lemma SendAndDie(s: Sys, n: nat, landed: Memo.Message)
    requires Unsaved(s, n)
    ensures Unsaved(Step(Step(Step(Step(Step(s, Poll), Claim), Price(0)), Send(landed)), Crash), n + 1)
  {
    assert Oldest(s.t.rows, 0) == Some(0);
    var claimed := Step(Step(s, Poll), Claim);
    assert claimed.pc.stage == Claimed && claimed.chain == s.chain && |claimed.t.rows| == 1;
    assert claimed.t.rows[0].status == IN_PROGRESS && claimed.t.rows[0].txSignature.None?;
    var sent := Step(Step(claimed, Price(0)), Send(landed));
    assert sent.t == claimed.t && sent.chain == s.chain + [Tx(0, landed, false)];
    Delivery.BroadcastAppended(s.chain, Tx(0, landed, false), 0);
  }

  /**
   The promise that a request is broadcast at most once even across a crash is not kept: for every
   `n`, some run broadcasts one request `n` times, by dying between send and persist.
   */
  lemma {:induction false} BroadcastManyTimes(n: nat, start: int, now: int, landed: Memo.Message)
    returns (ls: seq<Label>)
    requires now > FirstSub(start).periodEnd
    ensures Unsaved(Run(ls), n)
  {
    if n == 0 {
      ls := FirstAdmission(1, start, now);
    } else {
      ls := BroadcastManyTimes(n - 1, start, now, landed);
      SendAndDie(Run(ls), n - 1, landed);
      RunSnoc(ls, Poll);
      RunSnoc(ls + [Poll], Claim);
      RunSnoc(ls + [Poll] + [Claim], Price(0));
      RunSnoc(ls + [Poll] + [Claim] + [Price(0)], Send(landed));
      RunSnoc(ls + [Poll] + [Claim] + [Price(0)] + [Send(landed)], Crash);
      ls := ls + [Poll] + [Claim] + [Price(0)] + [Send(landed)] + [Crash];
    }
  }

  // ---------- Two pollers ----------

  predicate Wins(s: Sys) {
    s.pc.Busy? && !s.pc.stage.Chosen?
  }

  /**
   The promise that two pollers never both win a row is not kept: of two pollers that have chosen the
   same row both win it exactly when it is still claimable, and the second one changes nothing by it.
   */
  lemma BothPollersWin(s: Sys, first: ServiceRequest, second: ServiceRequest, i: nat)
    requires i < |s.t.rows|
    ensures var s1 := ClaimStep(s.(pc := Busy(i, first, Chosen)));
            var s2 := ClaimStep(s1.(pc := Busy(i, second, Chosen)));
            && (Wins(s1) && Wins(s2) <==> Claimable(s.t.rows[i]))
            && s2.t == s1.t
  {
    var s1 := ClaimStep(s.(pc := Busy(i, first, Chosen)));
    assert s1.t.rows[i := s1.t.rows[i]] == s1.t.rows;
  }
}
