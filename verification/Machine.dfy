/**
 The whole system as a state machine: the store, the Solana ledger, the one live worker with its
 volatile program counter, and the transactions of the web application that have read but not yet
 committed. A step is named by a label that carries everything the outside world decides; a label
 that is not possible in a state changes nothing, so every list of labels is a run.

 The worker may stop at every `await` (`Crash`), each chain call and each store operation may fail
 (`Throw`), and a failed store operation has no effect.
 */
module Machine {
  import opened Wrappers
  import opened Store
  import Memo
  import Quota
  import Intake
  import Failure
  import CompGrant
  import Webhook

  /** A broadcast transaction: the row it was sent for and the message that landed. */
  datatype Tx = Tx(row: nat, message: Memo.Message, finalized: bool)

  /** Why a delivery failed: the memo did not match, or some call threw with this message. */
  datatype Reason = MemoMismatch | Thrown(message: string)

  function ReasonText(r: Reason, id: string): string {
    match r
    case MemoMismatch => "On-chain memo for service request " + id + " does not match the expected delivery memo."
    case Thrown(message) => message
  }

  /** Where the worker is inside one `runOnce`; each stage waits at one `await`. */
  datatype Stage =
    | Chosen                                              // findFirst returned, updateMany is next
    | Claimed                                             // no signature: the rent is next
    | Priced(lamports: nat)                               // send is next
    | Sent(sig: Sig)                                      // persisting the signature is next
    | Confirming(sig: Sig)
    | Rereading(sig: Sig, slot: nat, blockTime: Option<int>)
    | Verified(sig: Sig, slot: nat, blockTime: Option<int>) // the CONFIRMED update is next
    | Failing(reason: Reason)                             // failServiceRequest is next
    | Parking(reason: Reason, credit: Option<nat>)        // its transaction has chosen a subscription

  /** The worker's memory: idle, or busy with row `i`, which `findFirst` returned as `snap`. */
  datatype Pc = Idle | Busy(i: nat, snap: ServiceRequest, stage: Stage)

  /** A transaction that has done its `findFirst` and not committed. */
  datatype Pending =
    | PendingIntake(org: OrgId, i: nat, seen: Subscription)
    | PendingGrant(org: OrgId, existing: Option<nat>)
    | PendingStripe(event: Webhook.Event, looked: Webhook.Seen)

  datatype Overwrite = Overwrite(orgId: OrgId, units: int)

  /** An attempt on a row that broadcast and ended with the signature unsaved, the row parked or not. */
  datatype Lost = Lost(row: nat, parked: bool)

  /**
   What happened, for the accounting: units overwritten by rollovers and grants; the attempts that lost
   their signature; whether the current attempt has broadcast; how often MemoMismatchError was raised.
   */
  datatype History = History(overwrites: seq<Overwrite>, lost: seq<Lost>, attemptSent: bool, mismatches: nat)

  /** An answer of the Stripe webhook. */
  datatype Reply = Reply(event: Webhook.Event, response: Webhook.Response)

  datatype Sys = Sys(t: Tables, chain: seq<Tx>, pc: Pc, pending: seq<Pending>, hist: History, replies: seq<Reply>)

  const INIT := Sys(EMPTY, [], Idle, [], History([], [], false, 0), [])

  datatype Label =
    // the worker
    | Poll
    | Claim
    | Price(lamports: nat)
    | Send(landed: Memo.Message)
    | SendThrew(landed: Memo.Message, message: string)
    | Persist
    | Confirm(slot: nat, blockTime: Option<int>)
    | Reread(found: bool)
    | Stamp
    | Throw(message: string)
    | ChooseCredit(credit: Option<nat>)
    | Park
    | Crash
    // the ledger
    | Finalize(sig: Sig)
    // the web application
    | ReadForIntake(org: OrgId, i: nat)
    | CommitIntake(k: nat, now: int, draft: Intake.Draft, sha256: Option<Intake.Hex>)
    | ReadForGrant(org: OrgId, existing: Option<nat>)
    | CommitGrant(k: nat, id: string, now: int)
    | Abort(k: nat)
    | ReadForStripe(event: Webhook.Event)
    | CommitStripe(k: nat, now: int)
    | ChangeStatus(i: nat, status: SubscriptionStatus)

  /** The first claimable row at or after position `from`: `findFirst` ordered by `createdAt`. */
  function Oldest(rows: seq<ServiceRequest>, from: nat): (r: Option<nat>)
    requires from <= |rows|
    ensures r.Some? ==> from <= r.value < |rows| && Claimable(rows[r.value])
    ensures forall j :: from <= j < (if r.Some? then r.value else |rows|) ==> !Claimable(rows[j])
    decreases |rows| - from
  {
    if from == |rows| then None
    else if Claimable(rows[from]) then Some(from)
    else Oldest(rows, from + 1)
  }

  function SetRow(s: Sys, i: nat, r: ServiceRequest): Sys
    requires i < |s.t.rows|
  {
    s.(t := s.t.(rows := s.t.rows[i := r]))
  }

  /** The chain reports a block time in seconds. */
  function InMillis(seconds: Option<int>): Option<int> {
    if seconds.None? then None else Some(seconds.value * 1000)
  }

  /** The attempt is over; a broadcast whose signature is not stored is lost. */
  function EndAttempt(s: Sys): Sys {
    var lost := s.pc.Busy? && s.hist.attemptSent && s.pc.i < |s.t.rows| && s.t.rows[s.pc.i].txSignature.None?;
    s.(pc := Idle,
       hist := s.hist.(attemptSent := false,
                       lost := if lost then s.hist.lost + [Lost(s.pc.i, s.t.rows[s.pc.i].status == FAILED)]
                               else s.hist.lost))
  }

  /** `updateMany` with its guard; the row keeps nothing of the snapshot. */
  function ClaimStep(s: Sys): Sys
    requires s.pc.Busy? && s.pc.i < |s.t.rows|
  {
    var r := s.t.rows[s.pc.i];
    if !Claimable(r) then s.(pc := Idle)
    else
      var snap := s.pc.snap.(status := IN_PROGRESS);
      var stage := if snap.txSignature.None? then Claimed else Confirming(snap.txSignature.value);
      SetRow(s, s.pc.i, r.(status := IN_PROGRESS)).(pc := Busy(s.pc.i, snap, stage))
  }

  function Broadcast(s: Sys, landed: Memo.Message): Sys
    requires s.pc.Busy?
  {
    s.(chain := s.chain + [Tx(s.pc.i, landed, false)], hist := s.hist.(attemptSent := true))
  }

  /** `getMemo`: the memo of a finalized transaction, null if the lookup finds nothing. */
  function ReadMemo(chain: seq<Tx>, sig: Sig, found: bool): Option<string> {
    if found && sig < |chain| && chain[sig].finalized then Memo.MemoOf(chain[sig].message) else None
  }

  predicate InDelivery(stage: Stage) {
    !stage.Chosen? && !stage.Failing? && !stage.Parking?
  }

  function At(s: Sys, stage: Stage): Sys
    requires s.pc.Busy?
  {
    s.(pc := s.pc.(stage := stage))
  }

  /** One step of the worker that is busy with an existing row. */
  function WorkerStep(s: Sys, l: Label): Sys
    requires s.pc.Busy? && s.pc.i < |s.t.rows|
  {
    var i, snap, stage := s.pc.i, s.pc.snap, s.pc.stage;
    var r := s.t.rows[i];
    match l
    case Claim => if stage.Chosen? then ClaimStep(s) else s
    case Price(lamports) => if stage.Claimed? then At(s, Priced(lamports)) else s
    case Send(landed) => if stage.Priced? then At(Broadcast(s, landed), Sent(|s.chain|)) else s
    case SendThrew(landed, message) =>
      if stage.Priced? then At(Broadcast(s, landed), Failing(Thrown(message))) else s
    case Persist =>
      if stage.Sent? then At(SetRow(s, i, r.(txSignature := Some(stage.sig))), Confirming(stage.sig)) else s
    case Confirm(slot, blockTime) =>
      if stage.Confirming? then At(s, Rereading(stage.sig, slot, blockTime)) else s
    case Reread(found) =>
      if !stage.Rereading? then s
      else if ReadMemo(s.chain, stage.sig, found) == Some(RowMemo(snap)) then
        At(s, Verified(stage.sig, stage.slot, stage.blockTime))
      else At(s, Failing(MemoMismatch)).(hist := s.hist.(mismatches := s.hist.mismatches + 1))
    case Stamp =>
      if stage.Verified? then
        EndAttempt(SetRow(s, i, r.(status := CONFIRMED, slot := Some(stage.slot),
                                   blockTime := InMillis(stage.blockTime))))
      else s
    case Throw(message) => if InDelivery(stage) then At(s, Failing(Thrown(message))) else s
    case ChooseCredit(credit) =>
      if stage.Failing? && (if credit.Some? then Latest(s.t.subs, snap.orgId, true, credit.value)
                            else FindLatest(s.t.subs, snap.orgId, true).None?)
      then At(s, Parking(stage.reason, credit)) else s
    case Park =>
      if stage.Parking? && (stage.credit.Some? ==> stage.credit.value < |s.t.subs|) then
        EndAttempt(s.(t := Failure.FailAt(s.t, i, snap.orgId, ReasonText(stage.reason, snap.id),
                                          snap.txSignature, stage.credit)))
      else s
    case Crash => EndAttempt(s)
    case _ => s
  }

  function Remove(pending: seq<Pending>, k: nat): seq<Pending>
    requires k < |pending|
  {
    pending[..k] + pending[k + 1..]
  }

  function Commit(s: Sys, k: nat, t: Tables, o: Overwrite): Sys
    requires k < |s.pending|
  {
    s.(t := t, pending := Remove(s.pending, k), hist := s.hist.(overwrites := s.hist.overwrites + [o]))
  }

  function IntakeStep(s: Sys, k: nat, now: int, draft: Intake.Draft, sha256: Option<Intake.Hex>): Sys
    requires k < |s.pending| && s.pending[k].PendingIntake? && s.pending[k].i < |s.t.subs|
  {
    var p := s.pending[k];
    match Intake.IntakeAt(s.t, p.org, p.i, p.seen, now, draft, sha256)
    case Ok(done) => Commit(s, k, done.tables, Overwrite(p.org, done.overwritten))
    case Threw(_) => s.(pending := Remove(s.pending, k))
  }

  function GrantStep(s: Sys, k: nat, id: string, now: int): Sys
    requires k < |s.pending| && s.pending[k].PendingGrant?
    requires s.pending[k].existing.Some? ==> s.pending[k].existing.value < |s.t.subs|
  {
    var p := s.pending[k];
    var overwritten := if p.existing.Some? then s.t.subs[p.existing.value].usageCount else 0;
    match CompGrant.GrantAt(s.t, p.org, p.existing, id, now)
    case Some(t) => Commit(s, k, t, Overwrite(p.org, overwritten))
    case None => s.(pending := Remove(s.pending, k))
  }

  function StripeStep(s: Sys, k: nat, now: int): Sys
    requires k < |s.pending| && s.pending[k].PendingStripe?
  {
    var p := s.pending[k];
    s.(t := Webhook.DeliverAt(s.t, p.event, p.looked, now),
       pending := Remove(s.pending, k),
       replies := s.replies + [Reply(p.event, Webhook.ResponseAt(s.t, p.event, p.looked))])
  }

  /** One step of the ledger or of the web application. */
  function OfficeStep(s: Sys, l: Label): Sys {
    match l
    case Finalize(sig) =>
      if sig < |s.chain| then s.(chain := s.chain[sig := s.chain[sig].(finalized := true)]) else s
    case ReadForIntake(org, i) =>
      if Latest(s.t.subs, org, true, i) then s.(pending := s.pending + [PendingIntake(org, i, s.t.subs[i])]) else s
    case CommitIntake(k, now, draft, sha256) =>
      if k < |s.pending| && s.pending[k].PendingIntake? && s.pending[k].i < |s.t.subs|
      then IntakeStep(s, k, now, draft, sha256) else s
    case ReadForGrant(org, existing) =>
      if (if existing.Some? then Latest(s.t.subs, org, false, existing.value)
          else FindLatest(s.t.subs, org, false).None?)
      then s.(pending := s.pending + [PendingGrant(org, existing)]) else s
    case CommitGrant(k, id, now) =>
      if k < |s.pending| && s.pending[k].PendingGrant?
         && (s.pending[k].existing.Some? ==> s.pending[k].existing.value < |s.t.subs|)
      then GrantStep(s, k, id, now) else s
    case Abort(k) => if k < |s.pending| then s.(pending := Remove(s.pending, k)) else s
    case ReadForStripe(event) =>
      if event.id in s.t.events then s.(replies := s.replies + [Reply(event, Webhook.Deduped)])
      else s.(pending := s.pending + [PendingStripe(event, Webhook.Lookups(s.t, event))])
    case CommitStripe(k, now) =>
      if k < |s.pending| && s.pending[k].PendingStripe? then StripeStep(s, k, now) else s
    case ChangeStatus(i, status) =>
      if i < |s.t.subs| then s.(t := s.t.(subs := s.t.subs[i := s.t.subs[i].(status := status)])) else s
    case _ => s
  }

  predicate OfWorker(l: Label) {
    l.Poll? || l.Claim? || l.Price? || l.Send? || l.SendThrew? || l.Persist? || l.Confirm? || l.Reread?
    || l.Stamp? || l.Throw? || l.ChooseCredit? || l.Park? || l.Crash?
  }

  function Step(s: Sys, l: Label): Sys {
    if !OfWorker(l) then OfficeStep(s, l)
    else if s.pc.Busy? then (if s.pc.i < |s.t.rows| then WorkerStep(s, l) else s)
    else if l.Poll? && Oldest(s.t.rows, 0).Some? then
      var i := Oldest(s.t.rows, 0).value;
      s.(pc := Busy(i, s.t.rows[i], Chosen))
    else s
  }

  /** The state after a run that continues from `s`. */
  function RunFrom(s: Sys, ls: seq<Label>): Sys {
    if ls == [] then s else Step(RunFrom(s, ls[..|ls| - 1]), ls[|ls| - 1])
  }

  function Run(ls: seq<Label>): Sys {
    RunFrom(INIT, ls)
  }

  lemma {:induction false} RunAppend(s: Sys, a: seq<Label>, b: seq<Label>)
    ensures RunFrom(s, a + b) == RunFrom(RunFrom(s, a), b)
    decreases |b|
  {
    if b == [] {
      assert a + b == a;
    } else {
      RunAppend(s, a, b[..|b| - 1]);
      assert (a + b)[..|a + b| - 1] == a + b[..|b| - 1];
    }
  }

  /** `createServiceRequest` run alone is its read step followed by its commit step. */
  lemma IntakeAlone(s: Sys, org: OrgId, now: int, draft: Intake.Draft, sha256: Option<Intake.Hex>)
    ensures match FindLatest(s.t.subs, org, true)
            case None =>
              Intake.IntakeTx(s.t, org, now, draft, sha256) == Threw(Intake.Metering(Quota.NoActiveSubscription))
            case Some(i) =>
              var s' := Step(Step(s, ReadForIntake(org, i)), CommitIntake(|s.pending|, now, draft, sha256));
              && s'.pending == s.pending
              && s'.t == (match Intake.IntakeTx(s.t, org, now, draft, sha256)
                          case Ok(done) => done.tables
                          case Threw(_) => s.t)
  {
    var found := FindLatest(s.t.subs, org, true);
    if found.Some? {
      assert Remove(s.pending + [PendingIntake(org, found.value, s.t.subs[found.value])], |s.pending|) == s.pending;
    }
  }

  /** The comp-grant transaction run alone is its read step followed by its commit step. */
  lemma GrantAlone(s: Sys, org: OrgId, id: string, now: int)
    ensures var existing := FindLatest(s.t.subs, org, false);
            var s' := Step(Step(s, ReadForGrant(org, existing)), CommitGrant(|s.pending|, id, now));
            && s'.pending == s.pending
            && s'.t == CompGrant.GrantTx(s.t, org, id, now).GetOr(s.t)
  {
    var existing := FindLatest(s.t.subs, org, false);
    assert Remove(s.pending + [PendingGrant(org, existing)], |s.pending|) == s.pending;
  }

  /** A Stripe delivery with nothing in between records and applies its event unless it was recorded before. */
  lemma StripeAlone(s: Sys, e: Webhook.Event, now: int)
    ensures var read := Step(s, ReadForStripe(e));
            if e.id in s.t.events then read == s.(replies := s.replies + [Reply(e, Webhook.Deduped)])
            else var s' := Step(read, CommitStripe(|s.pending|, now));
                 s'.pending == s.pending && s'.t == Webhook.Deliver(s.t, e, now)
                 && s'.replies == s.replies + [Reply(e, Webhook.Received)]
  {
    assert Remove(s.pending + [PendingStripe(e, Webhook.Lookups(s.t, e))], |s.pending|) == s.pending;
  }
}
