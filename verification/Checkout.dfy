/**
 The answers of the Stripe webhook in every run: what a transaction looked up before others committed,
 and when its answer does not mean what it says.
 */
module Checkout {
  import opened Store
  import opened Machine
  import Webhook

  // ---------- What was looked up ----------

  /** Step `n` of the run is the look-up of the pending Stripe transaction, which remembers what it found. */
  ghost predicate LookedAt(ls: seq<Label>, p: Pending, n: nat) {
    && p.PendingStripe? && n < |ls| && ls[n] == ReadForStripe(p.event)
    && p.looked == Webhook.Lookups(Run(ls[..n]).t, p.event)
  }

  lemma LookedFurther(ls: seq<Label>, p: Pending, n: nat)
    requires ls != [] && LookedAt(ls[..|ls| - 1], p, n)
    ensures LookedAt(ls, p, n)
  {
    assert ls[..|ls| - 1][..n] == ls[..n];
  }

  /** Where entry `k` of the pending list stood before the step, if it was there. */
  function Before(s: Sys, l: Label, k: nat): nat {
    if (l.CommitIntake? || l.CommitGrant? || l.CommitStripe? || l.Abort?)
       && |Step(s, l).pending| < |s.pending| && k >= l.k
    then k + 1 else k
  }

  lemma PendingRemoved(pending: seq<Pending>, k: nat, j: nat)
    requires k < |pending| && j < |pending| - 1
    ensures Remove(pending, k)[j] == pending[if j < k then j else j + 1]
  {
  }

  /** A step adds at most one pending transaction, at the end, with what it looks up in that state. */
  lemma PendingStep(s: Sys, l: Label, k: nat)
    requires k < |Step(s, l).pending| && Step(s, l).pending[k].PendingStripe?
    ensures var j, p := Before(s, l, k), Step(s, l).pending[k];
            || (j < |s.pending| && p == s.pending[j])
            || (l == ReadForStripe(p.event) && p.looked == Webhook.Lookups(s.t, p.event))
  {
    if !OfWorker(l) && |Step(s, l).pending| < |s.pending| {
      PendingRemoved(s.pending, l.k, k);
    }
  }

  /** Every pending Stripe transaction did its look-up at some step of the run. */
  lemma {:induction false} LookedBefore(ls: seq<Label>, k: nat) returns (n: nat)
    requires k < |Run(ls).pending| && Run(ls).pending[k].PendingStripe?
    ensures LookedAt(ls, Run(ls).pending[k], n)
  {
    var before := ls[..|ls| - 1];
    var j := Before(Run(before), ls[|ls| - 1], k);
    PendingStep(Run(before), ls[|ls| - 1], k);
    if j < |Run(before).pending| && Run(ls).pending[k] == Run(before).pending[j] {
      n := LookedBefore(before, j);
      LookedFurther(ls, Run(ls).pending[k], n);
    } else {
      n := |before|;
    }
  }

  // ---------- What was found stays ----------

  /** The organizations and the keys of subscriptions only grow. */
  ghost predicate KeysKept(t: Tables, t': Tables) {
    && t.orgs <= t'.orgs && |t.subs| <= |t'.subs|
    && forall i :: 0 <= i < |t.subs| ==> t'.subs[i].id == t.subs[i].id
  }

  lemma WorkerKeepsKeys(s: Sys, l: Label)
    requires OfWorker(l)
    ensures KeysKept(s.t, Step(s, l).t)
  {
  }

  lemma OfficeKeepsKeys(s: Sys, l: Label)
    ensures KeysKept(s.t, OfficeStep(s, l).t)
  {
  }

  lemma StillFound(t: Tables, t': Tables, e: Webhook.Event)
    requires KeysKept(t, t')
    ensures Webhook.Lookups(t, e).org ==> Webhook.Lookups(t', e).org
    ensures Webhook.Lookups(t, e).sub ==> Webhook.Lookups(t', e).sub
  {
  }

  /** What a look-up has found is found ever after, so an upsert that found its record updates it. */
  lemma {:induction false} FoundStays(ls: seq<Label>, n: nat, e: Webhook.Event)
    requires n <= |ls|
    ensures Webhook.Lookups(Run(ls[..n]).t, e).org ==> Webhook.Lookups(Run(ls).t, e).org
    ensures Webhook.Lookups(Run(ls[..n]).t, e).sub ==> Webhook.Lookups(Run(ls).t, e).sub
    decreases |ls|
  {
    if n < |ls| {
      var before, l := ls[..|ls| - 1], ls[|ls| - 1];
      assert before[..n] == ls[..n];
      FoundStays(before, n, e);
      if OfWorker(l) {
        WorkerKeepsKeys(Run(before), l);
      } else {
        OfficeKeepsKeys(Run(before), l);
      }
      StillFound(Run(before).t, Run(ls).t, e);
    } else {
      assert ls[..n] == ls;
    }
  }

  // ---------- Answers ----------

  /** A record was absent in the first state and is there in the second. */
  predicate Appeared(a: Webhook.Seen, b: Webhook.Seen) {
    (!a.org && b.org) || (!a.sub && b.sub)
  }

  /**
   A commit is answered as deduped without its event being recorded exactly when the event is new and
   its organization or its subscription was absent at the look-up and is there at the commit.
   */
  lemma DedupedUnrecordedIff(ls: seq<Label>, k: nat, now: int) returns (n: nat)
    requires k < |Run(ls).pending| && Run(ls).pending[k].PendingStripe?
    ensures LookedAt(ls, Run(ls).pending[k], n)
    ensures var s, s', e := Run(ls), Run(ls + [CommitStripe(k, now)]), Run(ls).pending[k].event;
            && |s'.replies| == |s.replies| + 1 && s'.replies[|s.replies|].event == e
            && (s'.replies[|s.replies|].response == Webhook.Deduped && e.id !in s'.t.events
                <==> e.id !in s.t.events && Appeared(Webhook.Lookups(Run(ls[..n]).t, e), Webhook.Lookups(s.t, e)))
  {
    n := LookedBefore(ls, k);
    assert (ls + [CommitStripe(k, now)])[..|ls|] == ls;
  }

  lemma StepReplies(s: Sys, l: Label, i: nat)
    requires i < |s.replies| && s.replies[i].response == Webhook.Received ==> s.replies[i].event.id in s.t.events
    requires i < |Step(s, l).replies| && Step(s, l).replies[i].response == Webhook.Received
    ensures Step(s, l).replies[i].event.id in Step(s, l).t.events
  {
  }

  /** An event answered as received is recorded, then and ever after. */
  lemma {:induction false} ReceivedIsRecorded(ls: seq<Label>, i: nat)
    requires i < |Run(ls).replies| && Run(ls).replies[i].response == Webhook.Received
    ensures Run(ls).replies[i].event.id in Run(ls).t.events
  {
    if ls != [] {
      var before := ls[..|ls| - 1];
      if i < |Run(before).replies| && Run(before).replies[i].response == Webhook.Received {
        ReceivedIsRecorded(before, i);
      }
      StepReplies(Run(before), ls[|ls| - 1], i);
    }
  }

  /** How many deliveries of an event were answered as received. */
  function ReceivedCount(replies: seq<Reply>, id: string): nat {
    if replies == [] then 0
    else
      var r := replies[|replies| - 1];
      var last := if r.event.id == id && r.response == Webhook.Received then 1 else 0;
      ReceivedCount(replies[..|replies| - 1], id) + last
  }

  /** A step answers at most one delivery; it records an event exactly when it answers it as received. */
  lemma AnswerStep(s: Sys, l: Label)
    ensures var s' := Step(s, l);
            || (s'.replies == s.replies && s'.t.events == s.t.events)
            || (exists r: Reply :: && s'.replies == s.replies + [r]
                                   && (if r.response == Webhook.Received then r.event.id !in s.t.events
                                                                           && s'.t.events == s.t.events + {r.event.id}
                                       else s'.t.events == s.t.events))
  {
    var s' := Step(s, l);
    if |s'.replies| > |s.replies| {
      assert s'.replies == s.replies + [s'.replies[|s.replies|]];
    }
  }

  lemma ReceivedAppended(replies: seq<Reply>, r: Reply, id: string)
    ensures ReceivedCount(replies + [r], id)
         == ReceivedCount(replies, id) + (if r.event.id == id && r.response == Webhook.Received then 1 else 0)
  {
    assert (replies + [r])[..|replies|] == replies;
  }

  lemma AnswerCounts(s: Sys, s': Sys, r: Reply, id: string)
    requires ReceivedCount(s.replies, id) == if id in s.t.events then 1 else 0
    requires s'.replies == s.replies + [r]
    requires if r.response == Webhook.Received
             then r.event.id !in s.t.events && s'.t.events == s.t.events + {r.event.id}
             else s'.t.events == s.t.events
    ensures ReceivedCount(s'.replies, id) == if id in s'.t.events then 1 else 0
  {
    ReceivedAppended(s.replies, r, id);
  }

  /**
   Exactly once under racing deliveries: in every run an event that is recorded was answered as received
   exactly once, and one that is not recorded never was.
   */
  lemma {:induction false} ReceivedOnce(ls: seq<Label>, id: string)
    ensures ReceivedCount(Run(ls).replies, id) == if id in Run(ls).t.events then 1 else 0
  {
    if ls != [] {
      var s, s' := Run(ls[..|ls| - 1]), Run(ls);
      ReceivedOnce(ls[..|ls| - 1], id);
      AnswerStep(s, ls[|ls| - 1]);
      if s'.replies != s.replies {
        AnswerCounts(s, s', s'.replies[|s.replies|], id);
      }
    }
  }
}
