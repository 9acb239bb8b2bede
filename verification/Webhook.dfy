/** The Stripe webhook with its dedupe transaction: app/api/webhooks/stripe/route.ts. */
module Webhook {
  import opened Wrappers
  import opened Store
  import Calendar

  /** What `applyCheckoutCompleted` reads of a Checkout session. */
  datatype Session = Session(
    clientReferenceId: Option<string>, orgId: Option<string>, tier: Option<string>, subscription: Option<string>)

  /** `checkout` is set for `checkout.session.completed` events. */
  datatype Event = Event(id: string, checkout: Option<Session>)

  function ClerkOrgId(s: Session): string {
    if s.clientReferenceId.Some? then s.clientReferenceId.value else s.orgId.GetOr("")
  }

  predicate Attributable(s: Session) {
    ClerkOrgId(s) != "" && s.tier.GetOr("") != "" && s.subscription.GetOr("") != ""
  }

  /** The position of the subscription with the given key. */
  function IndexOf(subs: seq<Subscription>, id: string): (r: Option<nat>)
    ensures r.Some? ==> r.value < |subs| && subs[r.value].id == id
    ensures r.None? ==> forall j :: 0 <= j < |subs| ==> subs[j].id != id
  {
    if subs == [] then None
    else if subs[|subs| - 1].id == id then Some(|subs| - 1)
    else IndexOf(subs[..|subs| - 1], id)
  }

  /** The organizations and subscriptions after `applyCheckoutCompleted`. */
  function Apply(t: Tables, e: Event, now: int): Tables {
    if e.checkout.None? || !Attributable(e.checkout.value) then t
    else
      var s := e.checkout.value;
      var org, id := ClerkOrgId(s), s.subscription.value;
      var found := IndexOf(t.subs, id);
      var subs :=
        if found.Some? then t.subs[found.value := t.subs[found.value].(status := ACTIVE)]
        else t.subs + [Subscription(id, org, s.tier.value, ACTIVE, now, Calendar.NextPeriodEnd(now), 0)];
      t.(orgs := t.orgs + {org}, subs := subs)
  }

  /** A committed delivery: the event is recorded and applied unless it was recorded before. */
  function Deliver(t: Tables, e: Event, now: int): Tables {
    if e.id in t.events then t
    else Apply(t, e, now).(events := t.events + {e.id})
  }

  datatype Response = Received | Deduped | Failed

  /** What the look-ups of the two upserts found: the organization, the subscription. */
  datatype Seen = Seen(org: bool, sub: bool)

  function Lookups(t: Tables, e: Event): Seen {
    if e.checkout.None? || !Attributable(e.checkout.value) then Seen(true, true)
    else Seen(ClerkOrgId(e.checkout.value) in t.orgs, IndexOf(t.subs, e.checkout.value.subscription.value).Some?)
  }

  /** A record that an upsert did not find is there when it inserts: the insert raises P2002. */
  predicate Raced(t: Tables, e: Event, seen: Seen) {
    && e.checkout.Some? && Attributable(e.checkout.value)
    && ((!seen.org && Lookups(t, e).org) || (!seen.sub && Lookups(t, e).sub))
  }

  /** The answer of a delivery that nothing but a unique constraint stops. */
  function ResponseAt(t: Tables, e: Event, seen: Seen): Response {
    if e.id in t.events || Raced(t, e, seen) then Deduped else Received
  }

  function DeliverAt(t: Tables, e: Event, seen: Seen, now: int): Tables {
    if Raced(t, e, seen) then t else Deliver(t, e, now)
  }

  /**
   The handler, of which the upserts looked before other transactions committed and found `seen`;
   `refused` is any error but a violated unique constraint.
   */
  method HandleWebhook(db: Database, e: Event, now: int, seen: Seen, refused: bool) returns (r: Response)
    modifies db
    ensures db.Value() == if r == Received then Deliver(old(db.Value()), e, now) else old(db.Value())
    ensures r == Deduped <==> e.id in old(db.events) || Raced(old(db.Value()), e, seen)
    ensures r == Failed <==> refused && e.id !in old(db.events) && !Raced(old(db.Value()), e, seen)
    ensures r == Deduped && e.id !in db.events <==> e.id !in old(db.events) && Raced(old(db.Value()), e, seen)
  {
    var saved := db.Value();
    if e.id in db.events {
      return Deduped;
    }
    db.events := db.events + {e.id};
    if e.checkout.Some? {
      var ok := ApplyCheckoutCompleted(db, e, now, seen);
      if !ok {
        db.Restore(saved);
        return Deduped;
      }
    }
    if refused {
      db.Restore(saved);
      return Failed;
    }
    return Received;
  }

  /** `applyCheckoutCompleted`: throws if an upsert lost a race. */
  method ApplyCheckoutCompleted(db: Database, e: Event, now: int, seen: Seen) returns (ok: bool)
    requires e.checkout.Some?
    modifies db`orgs, db`subs
    ensures ok <==> !Raced(old(db.Value()), e, seen)
    ensures ok ==> db.Value() == Apply(old(db.Value()), e, now)
  {
    var s := e.checkout.value;
    var clerkOrgId, tierId, stripeSubscriptionId := ClerkOrgId(s), s.tier.GetOr(""), s.subscription.GetOr("");
    if clerkOrgId == "" || tierId == "" || stripeSubscriptionId == "" {
      return true;
    }
    if !seen.org && clerkOrgId in db.orgs {
      return false;
    }
    db.orgs := db.orgs + {clerkOrgId};
    var start := new Calendar.JsDate(now);
    var periodEnd := Calendar.AddMonthsTo(start, 1);
    var found := IndexOf(db.subs, stripeSubscriptionId);
    if !seen.sub && found.Some? {
      return false;
    }
    if found.Some? {
      db.subs := db.subs[found.value := db.subs[found.value].(status := ACTIVE)];
    } else {
      db.subs := db.subs
        + [Subscription(stripeSubscriptionId, clerkOrgId, tierId, ACTIVE, now, periodEnd.time, 0)];
    }
    return true;
  }

  /**
   A completed checkout leaves its organization known and its subscription ACTIVE, touches no other
   subscription, and a subscription it opens belongs to the organization with an unused meter and a
   period of one month.
   */
  lemma CheckoutActivates(t: Tables, e: Event, now: int)
    requires e.checkout.Some? && Attributable(e.checkout.value)
    ensures var s, t' := e.checkout.value, Apply(t, e, now);
            var i := if IndexOf(t.subs, s.subscription.value).Some? then IndexOf(t.subs, s.subscription.value).value
                     else |t.subs|;
            && ClerkOrgId(s) in t'.orgs && t.orgs <= t'.orgs
            && |t.subs| <= |t'.subs| <= |t.subs| + 1 && i < |t'.subs|
            && t'.subs[i].id == s.subscription.value && t'.subs[i].status == ACTIVE
            && (forall j :: 0 <= j < |t'.subs| && j != i ==> t'.subs[j] == t.subs[j])
            && (i == |t.subs| ==>
                  && t'.subs[i].orgId == ClerkOrgId(s) && t'.subs[i].tierId == s.tier.value
                  && t'.subs[i].usageCount == 0
                  && t'.subs[i].periodStart == now && t'.subs[i].periodEnd == Calendar.NextPeriodEnd(now)
                  && 2_419_200_000 <= t'.subs[i].periodEnd - now <= 2_678_400_000)
  {
    Calendar.PeriodIsOneMonth(now);
  }

  /** The organization a session names: the client reference if it has one, else the one of its metadata. */
  predicate Names(s: Session, org: string) {
    match s.clientReferenceId
    case Some(reference) => reference == org
    case None => s.orgId == Some(org)
  }

  /**
   On the fields of the session: if it names an organization, a tier and a subscription, none of them
   empty, then that organization is known and that subscription ACTIVE; one that is new belongs to the
   organization, on that tier, with an unused meter.
   */
  lemma CheckoutExact(t: Tables, id: string, s: Session, now: int, org: string, tier: string, sub: string)
    requires Names(s, org) && s.tier == Some(tier) && s.subscription == Some(sub)
    requires org != "" && tier != "" && sub != ""
    ensures var t' := Apply(t, Event(id, Some(s)), now);
            && t'.orgs == t.orgs + {org}
            && (exists i :: 0 <= i < |t'.subs| && t'.subs[i].id == sub && t'.subs[i].status == ACTIVE)
            && ((forall i :: 0 <= i < |t.subs| ==> t.subs[i].id != sub) ==>
                  t'.subs == t.subs + [Subscription(sub, org, tier, ACTIVE, now, Calendar.NextPeriodEnd(now), 0)])
  {
    var t' := Apply(t, Event(id, Some(s)), now);
    var found := IndexOf(t.subs, sub);
    var i := if found.Some? then found.value else |t.subs|;
    assert t'.subs[i].id == sub && t'.subs[i].status == ACTIVE;
  }

  /** If it names none, or an empty one, or the tier or the subscription is missing or empty, nothing changes. */
  lemma IncompleteSession(t: Tables, id: string, s: Session, now: int)
    requires || Names(s, "") || (s.clientReferenceId == None && s.orgId == None)
             || s.tier == None || s.tier == Some("") || s.subscription == None || s.subscription == Some("")
    ensures Apply(t, Event(id, Some(s)), now) == t
  {
  }

  /** Other events than completed checkouts change nothing but the record of events. */
  lemma OtherEvent(t: Tables, id: string, now: int)
    ensures Deliver(t, Event(id, None), now) == t.(events := t.events + {id})
  {
  }

  /** What the two look-ups of a session that can be attributed find. */
  lemma LookupsExact(t: Tables, id: string, s: Session, org: string, sub: string)
    requires Names(s, org) && org != "" && s.tier.GetOr("") != "" && s.subscription == Some(sub) && sub != ""
    ensures Lookups(t, Event(id, Some(s))).org <==> org in t.orgs
    ensures Lookups(t, Event(id, Some(s))).sub <==> exists i :: 0 <= i < |t.subs| && t.subs[i].id == sub
  {
  }

  /** Applying a completed checkout again, at any later time, changes nothing. */
  lemma CheckoutIdempotent(t: Tables, e: Event, now: int, later: int)
    ensures Apply(Apply(t, e, now), e, later) == Apply(t, e, now)
  {
    if e.checkout.Some? && Attributable(e.checkout.value) {
      var t' := Apply(t, e, now);
      var id := e.checkout.value.subscription.value;
      var found := IndexOf(t.subs, id);
      if found.Some? {
        SameIds(t.subs, t'.subs, id);
        assert t'.subs[found.value := t'.subs[found.value].(status := ACTIVE)] == t'.subs;
      } else {
        assert t'.subs[|t.subs| := t'.subs[|t.subs|].(status := ACTIVE)] == t'.subs;
      }
    }
  }

  lemma {:induction false} SameIds(a: seq<Subscription>, b: seq<Subscription>, id: string)
    requires |a| == |b| && forall i :: 0 <= i < |a| ==> a[i].id == b[i].id
    ensures IndexOf(a, id) == IndexOf(b, id)
  {
    if a != [] {
      SameIds(a[..|a| - 1], b[..|b| - 1], id);
    }
  }

  // ---------- Delivery sequences ----------

  /** One attempt to deliver an event; `commits` tells whether its transaction went through. */
  datatype Delivery = Delivery(event: Event, now: int, commits: bool)

  function DeliverAll(t: Tables, ds: seq<Delivery>): Tables {
    if ds == [] then t
    else
      var before := DeliverAll(t, ds[..|ds| - 1]);
      var d := ds[|ds| - 1];
      if d.commits then Deliver(before, d.event, d.now) else before
  }

  /** The attempts that are the first successful one for their event, in order. */
  function FirstSuccesses(known: set<string>, ds: seq<Delivery>): seq<Delivery> {
    if ds == [] then []
    else
      var before := FirstSuccesses(known, ds[..|ds| - 1]);
      var d := ds[|ds| - 1];
      if d.commits && d.event.id !in known && (forall b :: b in before ==> b.event.id != d.event.id)
      then before + [d] else before
  }

  /** Applying each event of a list of attempts, with no look at the ledger of events. */
  function ApplyAll(t: Tables, ds: seq<Delivery>): Tables {
    if ds == [] then t
    else Apply(ApplyAll(t, ds[..|ds| - 1]), ds[|ds| - 1].event, ds[|ds| - 1].now)
  }

  function EventIds(ds: seq<Delivery>): set<string> {
    set d | d in ds :: d.event.id
  }

  lemma EventIdsAppended(ds: seq<Delivery>, d: Delivery)
    ensures EventIds(ds + [d]) == EventIds(ds) + {d.event.id}
  {
    assert forall x :: x in ds + [d] <==> x in ds || x == d;
  }

  /** The recorded events are those known before and those that succeeded. */
  lemma {:induction false} RecordedOnce(t: Tables, ds: seq<Delivery>)
    ensures DeliverAll(t, ds).events == t.events + EventIds(FirstSuccesses(t.events, ds))
  {
    if ds != [] {
      RecordedOnce(t, ds[..|ds| - 1]);
      EventIdsAppended(FirstSuccesses(t.events, ds[..|ds| - 1]), ds[|ds| - 1]);
    }
  }

  /**
   Whatever the duplicates, replays, failures and retries, the organizations and subscriptions are
   those of applying each event once, at its first successful delivery.
   */
  lemma {:induction false} ExactlyOnce(t: Tables, ds: seq<Delivery>)
    ensures var final, once := DeliverAll(t, ds), ApplyAll(t, FirstSuccesses(t.events, ds));
            final.orgs == once.orgs && final.subs == once.subs
    ensures DeliverAll(t, ds).events == t.events + EventIds(FirstSuccesses(t.events, ds))
  {
    RecordedOnce(t, ds);
    if ds != [] {
      var before, d := ds[..|ds| - 1], ds[|ds| - 1];
      ExactlyOnce(t, before);
      var firsts := FirstSuccesses(t.events, before);
      assert (firsts + [d])[..|firsts|] == firsts;
      var prior, once := DeliverAll(t, before), ApplyAll(t, firsts);
      assert Apply(prior, d.event, d.now).orgs == Apply(once, d.event, d.now).orgs
          && Apply(prior, d.event, d.now).subs == Apply(once, d.event, d.now).subs;
    }
  }

  /** No delivery changes the owner, tier, period or usage of an existing subscription. */
  lemma {:induction false} DeliveriesKeepMeters(t: Tables, ds: seq<Delivery>, i: nat)
    requires i < |t.subs|
    ensures var subs := DeliverAll(t, ds).subs;
            i < |subs| && subs[i].(status := t.subs[i].status) == t.subs[i]
    ensures DeliverAll(t, ds).rows == t.rows && DeliverAll(t, ds).audits == t.audits
  {
    if ds != [] {
      DeliveriesKeepMeters(t, ds[..|ds| - 1], i);
    }
  }

  /** No event is applied twice, and only successful attempts are applied. */
  lemma {:induction false} FirstSuccessesDistinct(known: set<string>, ds: seq<Delivery>)
    ensures var firsts := FirstSuccesses(known, ds);
            && (forall i, j :: 0 <= i < j < |firsts| ==> firsts[i].event.id != firsts[j].event.id)
            && (forall d :: d in firsts ==> d in ds && d.commits && d.event.id !in known)
  {
    if ds != [] {
      FirstSuccessesDistinct(known, ds[..|ds| - 1]);
    }
  }

  /** Every event with a successful attempt is applied. */
  lemma {:induction false} FirstSuccessesCover(known: set<string>, ds: seq<Delivery>, d: Delivery)
    requires d in ds && d.commits && d.event.id !in known
    ensures exists b :: b in FirstSuccesses(known, ds) && b.event.id == d.event.id
  {
    var before, last := ds[..|ds| - 1], ds[|ds| - 1];
    var firsts := FirstSuccesses(known, before);
    assert ds == before + [last];
    if d in before {
      FirstSuccessesCover(known, before, d);
      var b :| b in firsts && b.event.id == d.event.id;
      assert b in FirstSuccesses(known, ds);
    } else if forall b :: b in firsts ==> b.event.id != d.event.id {
      assert FirstSuccesses(known, ds) == firsts + [d];
      assert d in FirstSuccesses(known, ds);
    }
  }
}
