/**
 The delivery worker as it runs: worker/index.ts and worker/process.ts. Every method acts on the
 live store and ledger and extends a ghost trace of machine steps; validity says that store and
 ledger are those of the machine after that trace, so all that holds of the machine's runs holds of
 the running worker.
 */
module Worker {
  import opened Wrappers
  import opened Store
  import opened Machine
  import Memo
  import Accounting
  import Failure
  import Delivery

  /** How `send` ends: broadcast, refused, or broadcast although the call throws. */
  datatype SendAnswer =
    | Landed(message: Memo.Message)
    | Refused(error: string)
    | LandedAndThrew(message: Memo.Message, error: string)

  /** What `confirm` read, and whether the transaction is finalized by then. */
  datatype Confirmation = Confirmation(slot: nat, blockTime: Option<int>, finalized: bool)

  /** What the outside world answers during one `runOnce`; an error makes that call throw. */
  datatype Answers = Answers(
    findError: Option<string>,
    claimError: Option<string>,
    adapterError: Option<string>,
    rent: Outcome<nat, string>,
    send: SendAnswer,
    persistError: Option<string>,
    confirm: Outcome<Confirmation, string>,
    reread: Outcome<bool, string>,
    stampError: Option<string>,
    parkError: Option<string>)

  /** An answer whose error escapes `runOnce`: the claim or the failure transaction failed. */
  predicate Disrupts(a: Answers) {
    a.findError.Some? || a.claimError.Some? || a.parkError.Some?
  }

  // ---------- What one delivery attempt does ----------

  /** The ledger, the row and the error of an attempt, if it threw, when it is over. */
  datatype Verdict = Verdict(chain: seq<Tx>, row: ServiceRequest, fault: Option<Reason>)

  /** Sending to the ledger as transaction number `|chain|`, and persisting that signature. */
  function SendPhase(chain: seq<Tx>, i: nat, row: ServiceRequest, a: Answers): Verdict {
    if a.rent.Threw? then Verdict(chain, row, Some(Thrown(a.rent.error)))
    else
      match a.send
      case Refused(error) => Verdict(chain, row, Some(Thrown(error)))
      case LandedAndThrew(message, error) => Verdict(chain + [Tx(i, message, false)], row, Some(Thrown(error)))
      case Landed(message) =>
        if a.persistError.Some? then Verdict(chain + [Tx(i, message, false)], row, Some(Thrown(a.persistError.value)))
        else Verdict(chain + [Tx(i, message, false)], row.(txSignature := Some(|chain|)), None)
  }

  /** The ledger once `confirm` has returned. */
  function Awaited(chain: seq<Tx>, sig: Sig, c: Confirmation): seq<Tx> {
    if c.finalized && sig < |chain| then chain[sig := chain[sig].(finalized := true)] else chain
  }

  /** Confirming, re-reading and verifying the memo, and stamping the row. */
  function ConfirmPhase(chain: seq<Tx>, row: ServiceRequest, sig: Sig, a: Answers): Verdict {
    if a.confirm.Threw? then Verdict(chain, row, Some(Thrown(a.confirm.error)))
    else
      var c := a.confirm.value;
      var after := Awaited(chain, sig, c);
      if a.reread.Threw? then Verdict(after, row, Some(Thrown(a.reread.error)))
      else if ReadMemo(after, sig, a.reread.value) != Some(RowMemo(row)) then Verdict(after, row, Some(MemoMismatch))
      else if a.stampError.Some? then Verdict(after, row, Some(Thrown(a.stampError.value)))
      else Verdict(after, row.(status := CONFIRMED, slot := Some(c.slot), blockTime := InMillis(c.blockTime)), None)
  }

  /** One attempt on the claimed row `i`. */
  function Attempt(chain: seq<Tx>, i: nat, row: ServiceRequest, a: Answers): Verdict {
    if a.adapterError.Some? then Verdict(chain, row, Some(Thrown(a.adapterError.value)))
    else if row.txSignature.Some? then ConfirmPhase(chain, row, row.txSignature.value, a)
    else
      var sent := SendPhase(chain, i, row, a);
      if sent.fault.Some? then sent else ConfirmPhase(sent.chain, sent.row, |chain|, a)
  }

  /** An attempt on a row with a stored signature adds nothing to the ledger and asks nothing about sending. */
  lemma ResumeNeverSends(chain: seq<Tx>, i: nat, row: ServiceRequest, a: Answers, b: Answers)
    requires row.txSignature.Some?
    requires a == b.(rent := a.rent, send := a.send, persistError := a.persistError)
    ensures |Attempt(chain, i, row, a).chain| == |chain|
    ensures Attempt(chain, i, row, a) == Attempt(chain, i, row, b)
    ensures Attempt(chain, i, row, a).row.txSignature == row.txSignature
  {
  }

  /**
   An attempt loses the signature of what it broadcast exactly when `send` threw after the broadcast
   or the update that was to store the signature failed; no later error does.
   */
  lemma SignatureLostIff(chain: seq<Tx>, i: nat, row: ServiceRequest, a: Answers)
    ensures var v := Attempt(chain, i, row, a);
            (|v.chain| > |chain| && v.row.txSignature.None?) <==>
            (&& a.adapterError.None? && row.txSignature.None? && a.rent.Ok?
            && (a.send.LandedAndThrew? || (a.send.Landed? && a.persistError.Some?)))
    ensures |chain| <= |Attempt(chain, i, row, a).chain| <= |chain| + 1
  {
  }

  /** An attempt in which no call fails, on a chain that keeps its word. */
  ghost predicate Clean(chain: seq<Tx>, row: ServiceRequest, a: Answers) {
    && a.adapterError.None? && a.confirm.Ok? && a.confirm.value.finalized && a.reread == Ok(true) && a.stampError.None?
    && match row.txSignature
       case Some(sig) => sig < |chain| && Memo.CarriesDelivery(chain[sig].message, RowMemo(row))
       case None => a.rent.Ok? && a.send.Landed? && a.persistError.None?
                    && Memo.CarriesDelivery(a.send.message, RowMemo(row))
  }

  /** A clean attempt is confirmed, fresh or resumed, with the slot and time the chain reported. */
  lemma CleanAttemptConfirms(chain: seq<Tx>, i: nat, row: ServiceRequest, a: Answers)
    requires Clean(chain, row, a)
    ensures var v := Attempt(chain, i, row, a);
            && v.fault.None? && v.row.status == CONFIRMED
            && v.row.slot == Some(a.confirm.value.slot)
            && v.row.blockTime == (match a.confirm.value.blockTime
                                   case None => None
                                   case Some(seconds) => Some(1000 * seconds))
            && v.row.txSignature == Some(row.txSignature.GetOr(|chain|))
  {
    if row.txSignature.Some? {
      Memo.DeliveryDecodes(chain[row.txSignature.value].message, RowMemo(row));
    } else {
      Memo.DeliveryDecodes(a.send.message, RowMemo(row));
      assert RowMemo(row.(txSignature := Some(|chain|))) == RowMemo(row);
    }
  }

  /** The calls that send, if any, return. */
  predicate Sends(row: ServiceRequest, a: Answers) {
    a.adapterError == None && (row.txSignature == None ==> a.rent.Ok? && a.send.Landed? && a.persistError == None)
  }

  /** The first call that throws ends the attempt with its error. */
  lemma FirstErrorWins(chain: seq<Tx>, i: nat, row: ServiceRequest, a: Answers)
    ensures var fault := Attempt(chain, i, row, a).fault;
            && (a.adapterError.Some? ==> fault == Some(Thrown(a.adapterError.value)))
            && (a.adapterError == None && row.txSignature == None ==>
                  && (a.rent.Threw? ==> fault == Some(Thrown(a.rent.error)))
                  && (a.rent.Ok? && !a.send.Landed? ==> fault == Some(Thrown(a.send.error)))
                  && (a.rent.Ok? && a.send.Landed? && a.persistError.Some? ==>
                        fault == Some(Thrown(a.persistError.value))))
            && (Sends(row, a) ==>
                  && (a.confirm.Threw? ==> fault == Some(Thrown(a.confirm.error)))
                  && (a.confirm.Ok? && a.reread.Threw? ==> fault == Some(Thrown(a.reread.error)))
                  && (a.confirm.Ok? && a.reread == Ok(false) ==> fault == Some(MemoMismatch)))
  {
  }

  /** A row that failed says why, in up to 500 characters of the error. */
  lemma FaultIsRecorded(v: Verdict)
    requires v.fault.Some?
    ensures var reason := match v.fault.value
                          case Thrown(message) => message
                          case MemoMismatch => "On-chain memo for service request " + v.row.id
                                               + " does not match the expected delivery memo.";
            Finished(v) == v.row.(status := FAILED,
                                  failureReason := Some(if |reason| <= 500 then reason else reason[..500]))
  {
  }

  /** Without an error the row is CONFIRMED and proven on the ledger; with one it is not CONFIRMED. */
  lemma ConfirmedOrFaulty(chain: seq<Tx>, i: nat, row: ServiceRequest, a: Answers)
    requires row.status == IN_PROGRESS
    ensures var v := Attempt(chain, i, row, a);
            && (v.fault.None? <==> v.row.status == CONFIRMED)
            && (v.fault.None? ==> Delivery.Proven(v.chain, v.row))
            && (v.fault.Some? ==> v.row.(txSignature := row.txSignature) == row)
  {
  }

  /** The row after the failure transaction. */
  function Failed(row: ServiceRequest, reason: Reason): ServiceRequest {
    row.(status := FAILED, failureReason := Some(Failure.Cap(ReasonText(reason, row.id))))
  }

  lemma FailedRow(t: Tables, i: nat, row: ServiceRequest, reason: Reason, credit: Option<nat>)
    requires i < |t.rows| && t.rows[i].id == row.id && (credit.Some? ==> credit.value < |t.subs|)
    ensures Failure.FailAt(t, i, row.orgId, ReasonText(reason, row.id), row.txSignature, credit).rows
         == t.rows[i := Failed(t.rows[i], reason)]
  {
  }

  /** The terminal row an attempt leads to. */
  function Finished(v: Verdict): ServiceRequest {
    if v.fault.None? then v.row else Failed(v.row, v.fault.value)
  }

  /** The error of this run escapes `runOnce`: the claim failed, or the failure transaction did. */
  predicate Escapes(rows: seq<ServiceRequest>, chain: seq<Tx>, a: Answers) {
    || a.findError.Some?
    || (Oldest(rows, 0).Some? && a.claimError.Some?)
    || (Oldest(rows, 0).Some? && a.parkError.Some? && VerdictOf(rows, chain, a).fault.Some?)
  }

  /** What becomes of the row that this run claims. */
  function VerdictOf(rows: seq<ServiceRequest>, chain: seq<Tx>, a: Answers): Verdict
    requires Oldest(rows, 0).Some?
  {
    var i := Oldest(rows, 0).value;
    Attempt(chain, i, rows[i].(status := IN_PROGRESS), a)
  }

  // ---------- The backlog ----------

  /** The claimable rows from position `k` on, oldest first. */
  function Backlog(rows: seq<ServiceRequest>, k: nat): seq<nat>
    requires k <= |rows|
    decreases |rows| - k
  {
    if k == |rows| then []
    else if Claimable(rows[k]) then [k] + Backlog(rows, k + 1)
    else Backlog(rows, k + 1)
  }

  lemma {:induction false} BacklogStart(rows: seq<ServiceRequest>, k: nat)
    requires k <= |rows|
    ensures match Oldest(rows, k)
            case Some(i) => Backlog(rows, k) == [i] + Backlog(rows, i + 1)
            case None => Backlog(rows, k) == []
    decreases |rows| - k
  {
    if k < |rows| && !Claimable(rows[k]) {
      BacklogStart(rows, k + 1);
    }
  }

  lemma {:induction false} BacklogSame(a: seq<ServiceRequest>, b: seq<ServiceRequest>, k: nat)
    requires |a| == |b| && k <= |a|
    requires forall j :: k <= j < |a| ==> Claimable(a[j]) == Claimable(b[j])
    ensures Backlog(a, k) == Backlog(b, k)
    decreases |a| - k
  {
    if k < |a| {
      BacklogSame(a, b, k + 1);
    }
  }

  /** Only row `i` differs between the two tables. */
  ghost predicate OnlyRow(a: seq<ServiceRequest>, b: seq<ServiceRequest>, i: nat) {
    |a| == |b| && i < |a| && forall j :: 0 <= j < |a| && j != i ==> b[j] == a[j]
  }

  /** Settling the oldest claimable row takes it off the front of the backlog. */
  lemma BacklogSettles(a: seq<ServiceRequest>, b: seq<ServiceRequest>, i: nat)
    requires Oldest(a, 0) == Some(i) && OnlyRow(a, b, i) && Terminal(b[i])
    ensures Backlog(a, 0) == [i] + Backlog(b, 0)
  {
    BacklogStart(a, 0);
    BacklogSame(a, b, i + 1);
    NothingBefore(b, 0, i + 1);
  }

  lemma {:induction false} NothingBefore(rows: seq<ServiceRequest>, k: nat, n: nat)
    requires k <= n <= |rows| && forall j :: k <= j < n ==> !Claimable(rows[j])
    ensures Backlog(rows, k) == Backlog(rows, n)
    decreases n - k
  {
    if k < n {
      NothingBefore(rows, k + 1, n);
    }
  }

  /** Terminal rows stay as they are. */
  ghost predicate KeepsTerminal(a: seq<ServiceRequest>, b: seq<ServiceRequest>) {
    |a| == |b| && forall i :: 0 <= i < |a| && Terminal(a[i]) ==> b[i] == a[i]
  }

  /** One claim: the oldest claimable row is settled and the rest of the table is left alone. */
  ghost predicate Settles(a: seq<ServiceRequest>, b: seq<ServiceRequest>, claims: seq<nat>, claims': seq<nat>) {
    var backlog := Backlog(a, 0);
    && backlog != [] && claims' == claims + [backlog[0]]
    && OnlyRow(a, b, backlog[0]) && Terminal(b[backlog[0]])
    && backlog == [backlog[0]] + Backlog(b, 0)
  }

  /** Draining from table `a` has reached table `b` and added to the claims the rows it settled. */
  ghost predicate Drained(a: seq<ServiceRequest>, b: seq<ServiceRequest>, claims: seq<nat>, claims': seq<nat>) {
    && KeepsTerminal(a, b)
    && |claims| <= |claims'| && claims <= claims'
    && Backlog(a, 0) == claims'[|claims|..] + Backlog(b, 0)
  }

  lemma DrainedFurther(a: seq<ServiceRequest>, b: seq<ServiceRequest>, c: seq<ServiceRequest>,
      claims: seq<nat>, mid: seq<nat>, claims': seq<nat>)
    requires Drained(a, b, claims, mid) && Settles(b, c, mid, claims')
    ensures Drained(a, c, claims, claims') && |claims'| == |mid| + 1
    ensures |Backlog(c, 0)| < |Backlog(b, 0)|
  {
    BacklogStart(b, 0);
    assert claims'[|claims|..] == mid[|claims|..] + [Backlog(b, 0)[0]];
  }

  /** From table `a` to table `b` the `n` oldest claimable rows were settled and no other. */
  ghost predicate Advanced(a: seq<ServiceRequest>, b: seq<ServiceRequest>, n: nat) {
    KeepsTerminal(a, b) && n <= |Backlog(a, 0)| && Backlog(b, 0) == Backlog(a, 0)[n..]
  }

  lemma AdvancedTwice(a: seq<ServiceRequest>, b: seq<ServiceRequest>, c: seq<ServiceRequest>, n: nat, m: nat)
    requires Advanced(a, b, n) && Advanced(b, c, m)
    ensures Advanced(a, c, n + m)
    ensures Backlog(b, 0) == [] ==> m == 0
  {
  }

  lemma SettlesAdvances(a: seq<ServiceRequest>, b: seq<ServiceRequest>, claims: seq<nat>, claims': seq<nat>)
    requires Settles(a, b, claims, claims')
    ensures Advanced(a, b, 1)
  {
    BacklogStart(a, 0);
    assert Backlog(b, 0) == Backlog(a, 0)[1..];
  }

  /** An error escaped: what was claimable still is, in the same order, and nothing else moved. */
  ghost predicate Paused(a: seq<ServiceRequest>, b: seq<ServiceRequest>) {
    KeepsTerminal(a, b) && forall i :: 0 <= i < |a| ==> Claimable(a[i]) == Claimable(b[i])
  }

  lemma PausedAdvances(a: seq<ServiceRequest>, b: seq<ServiceRequest>)
    requires Paused(a, b)
    ensures Advanced(a, b, 0)
  {
    BacklogSame(a, b, 0);
  }

  /** In each of the ticks, no error escapes. */
  ghost predicate Calm(answers: nat -> Answers, ticks: nat) {
    forall n :: 0 <= n < ticks ==> !Disrupts(answers(n))
  }

  lemma {:induction false} EmptyBacklog(rows: seq<ServiceRequest>, k: nat)
    requires k <= |rows|
    ensures Backlog(rows, k) == [] <==> forall i :: k <= i < |rows| ==> Terminal(rows[i])
    decreases |rows| - k
  {
    if k < |rows| {
      EmptyBacklog(rows, k + 1);
    }
  }

  /** A run that claims a row and lets no error escape settles it. */
  lemma FinishedRow(rows: seq<ServiceRequest>, chain: seq<Tx>, a: Answers)
    requires Oldest(rows, 0).Some?
    ensures var i := Oldest(rows, 0).value;
            var rows' := rows[i := Finished(VerdictOf(rows, chain, a))];
            OnlyRow(rows, rows', i) && Terminal(rows'[i]) && Backlog(rows, 0) == [i] + Backlog(rows', 0)
  {
    var i := Oldest(rows, 0).value;
    ConfirmedOrFaulty(chain, i, rows[i].(status := IN_PROGRESS), a);
    BacklogSettles(rows, rows[i := Finished(VerdictOf(rows, chain, a))], i);
  }

  /** The failure transaction is the machine's step. */
  lemma ParkIsFailAt(s: Sys, i: nat, row: ServiceRequest, reason: Reason)
    requires i < |s.t.rows| && s.pc == Busy(i, row, Failing(reason))
    ensures var credit := FindLatest(s.t.subs, row.orgId, true);
            var parking := Step(s, ChooseCredit(credit));
            && parking == s.(pc := Busy(i, row, Parking(reason, credit)))
            && Step(parking, Park).pc.Idle? && Step(parking, Park).chain == s.chain
            && Step(parking, Park).t
            == Failure.FailAt(s.t, i, row.orgId, ReasonText(reason, row.id), row.txSignature, credit)
  {
  }

  /** An attempt that is given up leaves store and ledger alone. */
  lemma CrashIsHarmless(s: Sys)
    requires s.pc.Busy? && s.pc.i < |s.t.rows|
    ensures var s' := Step(s, Crash);
            s'.pc.Idle? && s'.t == s.t && s'.chain == s.chain
  {
  }

  class DeliveryWorker {
    const db: Database
    var chain: seq<Tx>
    /** The machine steps that lead to the present state. */
    ghost var trace: seq<Label>
    /** The rows claimed by this worker, in order. */
    ghost var claims: seq<nat>

    /** The machine after these steps. */
    ghost var now: Sys

    ghost predicate Valid()
      reads this, db
    {
      now == Run(trace) && now.t == db.Value() && now.chain == chain
    }

    /** A fresh process on a store and a ledger that earlier runs have left. */
    constructor (db: Database, chain: seq<Tx>, ghost past: seq<Label>)
      requires Run(past).t == db.Value() && Run(past).chain == chain && Run(past).pc.Idle?
      ensures this.db == db && Valid() && now.pc.Idle? && trace == past && claims == []
    {
      this.db, this.chain, this.trace, this.now, this.claims := db, chain, past, Run(past), [];
    }

    /** Records a machine step. */
    ghost method Log(l: Label)
      requires now == Run(trace)
      modifies this`trace, this`now
      ensures trace == old(trace) + [l] && now == Run(trace) && now == Step(old(now), l)
    {
      assert (trace + [l])[..|trace|] == trace;
      trace := trace + [l];
      now := Step(now, l);
    }

    /** `claimNext`: the oldest claimable row, flipped to IN_PROGRESS. */
    method ClaimNext(a: Answers) returns (r: Outcome<Option<(nat, ServiceRequest)>, string>)
      requires Valid() && now.pc.Idle?
      modifies this`trace, this`now, this`claims, db`rows
      ensures old(trace) <= trace
      ensures Valid()
      ensures r.Threw? <==> a.findError.Some? || (Oldest(old(db.rows), 0).Some? && a.claimError.Some?)
      ensures (r.Threw? || r.value.None?) ==> db.rows == old(db.rows) && claims == old(claims) && now.pc.Idle?
      ensures r == Ok(None) ==> Oldest(old(db.rows), 0).None?
      ensures r.Ok? && r.value.Some? ==>
                var (i, row) := r.value.value;
                && Oldest(old(db.rows), 0) == Some(i)
                && row == old(db.rows)[i].(status := IN_PROGRESS)
                && db.rows == old(db.rows)[i := row]
                && claims == old(claims) + [i]
                && now.pc == Busy(i, row, if row.txSignature.None? then Claimed
                                            else Confirming(row.txSignature.value))
    {
      if a.findError.Some? {
        return Threw(a.findError.value);
      }
      var candidate := Oldest(db.rows, 0);
      Log(Poll);
      if candidate.None? {
        return Ok(None);
      }
      var i, row := candidate.value, db.rows[candidate.value];
      if a.claimError.Some? {
        Delivery.Reachable(trace);
        Log(Crash);
        return Threw(a.claimError.value);
      }
      var count := 0;
      if Claimable(db.rows[i]) {
        db.rows := db.rows[i := db.rows[i].(status := IN_PROGRESS)];
        count := 1;
      }
      Log(Claim);
      if count == 0 {
        return Ok(None);
      }
      claims := claims + [i];
      return Ok(Some((i, row.(status := IN_PROGRESS))));
    }

    /** A call of the delivery throws. */
    ghost method Throws(message: string)
      requires Valid() && now.pc.Busy? && now.pc.i < |db.rows| && InDelivery(now.pc.stage)
      modifies this`trace, this`now
      ensures old(trace) <= trace
      ensures Valid() && now.pc == old(now.pc).(stage := Failing(Thrown(message)))
    {
      Log(Throw(message));
    }

    /** `send`: the transaction lands, whether or not the call returns its signature. */
    method Broadcast(i: nat, row: ServiceRequest, message: Memo.Message, error: Option<string>) returns (sig: Sig)
      requires Valid() && i < |db.rows| && now.pc.Busy? && now.pc.i == i && now.pc.stage.Priced?
      modifies this`trace, this`now, this`chain
      ensures old(trace) <= trace
      ensures Valid() && sig == |old(chain)| && chain == old(chain) + [Tx(i, message, false)]
      ensures now.pc == old(now.pc).(stage := if error.None? then Sent(sig) else Failing(Thrown(error.value)))
    {
      sig := |chain|;
      chain := chain + [Tx(i, message, false)];
      Log(if error.None? then Send(message) else SendThrew(message, error.value));
    }

    /** The update that makes the signature durable before it is confirmed. */
    method PersistSignature(i: nat, sig: Sig)
      requires Valid() && i < |db.rows| && now.pc.Busy? && now.pc.i == i && now.pc.stage == Sent(sig)
      modifies this`trace, this`now, db`rows
      ensures old(trace) <= trace
      ensures Valid() && now.pc == old(now.pc).(stage := Confirming(sig))
      ensures db.rows == old(db.rows)[i := old(db.rows)[i].(txSignature := Some(sig))]
    {
      db.rows := db.rows[i := db.rows[i].(txSignature := Some(sig))];
      Log(Persist);
    }

    /** The update that marks the request CONFIRMED. */
    method StampConfirmed(i: nat, c: Confirmation)
      requires Valid() && i < |db.rows| && now.pc.Busy? && now.pc.i == i
      requires now.pc.stage.Verified? && now.pc.stage.slot == c.slot && now.pc.stage.blockTime == c.blockTime
      modifies this`trace, this`now, db`rows
      ensures old(trace) <= trace
      ensures Valid() && now.pc.Idle?
      ensures db.rows == old(db.rows)[i := old(db.rows)[i].(status := CONFIRMED, slot := Some(c.slot),
                                                            blockTime := InMillis(c.blockTime))]
    {
      db.rows := db.rows[i := db.rows[i].(status := CONFIRMED, slot := Some(c.slot),
                                          blockTime := InMillis(c.blockTime))];
      Log(Stamp);
    }

    /** The first half of a delivery: send and persist the signature. */
    method SendAndPersist(i: nat, row: ServiceRequest, a: Answers) returns (r: Outcome<Sig, Reason>)
      requires Valid() && i < |db.rows| && now.pc == Busy(i, row, Claimed)
      requires db.rows[i] == row && row.txSignature.None?
      modifies this`trace, this`now, this`chain, db`rows
      ensures old(trace) <= trace
      ensures Valid()
      ensures var v := SendPhase(old(chain), i, row, a);
              && chain == v.chain && db.rows == old(db.rows)[i := v.row]
              && r == (if v.fault.None? then Ok(|old(chain)|) else Threw(v.fault.value))
      ensures now.pc == Busy(i, row, match r
                                     case Ok(sig) => Confirming(sig)
                                     case Threw(reason) => Failing(reason))
    {
      if a.rent.Threw? {
        Throws(a.rent.error);
        return Threw(Thrown(a.rent.error));
      }
      Log(Price(a.rent.value));
      if a.send.Refused? {
        Throws(a.send.error);
        return Threw(Thrown(a.send.error));
      }
      var signature := Broadcast(i, row, a.send.message,
                                 if a.send.LandedAndThrew? then Some(a.send.error) else None);
      if a.send.LandedAndThrew? {
        return Threw(Thrown(a.send.error));
      }
      if a.persistError.Some? {
        Throws(a.persistError.value);
        return Threw(Thrown(a.persistError.value));
      }
      PersistSignature(i, signature);
      return Ok(signature);
    }

    /** The second half: confirm, re-read and verify the memo, stamp the row. */
    method ConfirmAndStamp(i: nat, row: ServiceRequest, sig: Sig, a: Answers) returns (thrown: Option<Reason>)
      requires Valid() && i < |db.rows| && now.pc == Busy(i, row, Confirming(sig))
      requires db.rows[i] == row.(txSignature := Some(sig))
      modifies this`trace, this`now, this`chain, db`rows
      ensures old(trace) <= trace
      ensures Valid()
      ensures var v := ConfirmPhase(old(chain), old(db.rows)[i], sig, a);
              chain == v.chain && db.rows == old(db.rows)[i := v.row] && thrown == v.fault
      ensures if thrown.None? then now.pc.Idle? else now.pc == Busy(i, row, Failing(thrown.value))
    {
      assert RowMemo(db.rows[i]) == RowMemo(row);
      if a.confirm.Threw? {
        Throws(a.confirm.error);
        return Some(Thrown(a.confirm.error));
      }
      Confirmed(sig, a.confirm.value);
      if a.reread.Threw? {
        Throws(a.reread.error);
        return Some(Thrown(a.reread.error));
      }
      var onChainMemo := GetMemo(sig, a.reread.value);
      Log(Reread(a.reread.value));
      if onChainMemo != Some(RowMemo(row)) {
        return Some(MemoMismatch);
      }
      if a.stampError.Some? {
        Throws(a.stampError.value);
        return Some(Thrown(a.stampError.value));
      }
      StampConfirmed(i, a.confirm.value);
      return None;
    }

    /** `processServiceRequest`: sends only when no signature is on record. */
    method ProcessServiceRequest(i: nat, row: ServiceRequest, a: Answers) returns (thrown: Option<Reason>)
      requires Valid() && i < |db.rows| && db.rows[i] == row
      requires now.pc == Busy(i, row, if row.txSignature.None? then Claimed
                                      else Confirming(row.txSignature.value))
      modifies this`trace, this`now, this`chain, db`rows
      ensures old(trace) <= trace
      ensures Valid()
      ensures var v := Attempt(old(chain), i, row, a);
              chain == v.chain && db.rows == old(db.rows)[i := v.row] && thrown == v.fault
      ensures if thrown.None? then now.pc.Idle? else now.pc == Busy(i, row, Failing(thrown.value))
    {
      if a.adapterError.Some? {
        Throws(a.adapterError.value);
        return Some(Thrown(a.adapterError.value));
      }
      var signature: Sig;
      if row.txSignature.None? {
        var sent := SendAndPersist(i, row, a);
        if sent.Threw? {
          return Some(sent.error);
        }
        signature := sent.value;
      } else {
        signature := row.txSignature.value;
      }
      thrown := ConfirmAndStamp(i, row, signature, a);
    }

    /** `confirm` returned; the ledger may have finalized the transaction meanwhile. */
    method Confirmed(sig: Sig, c: Confirmation)
      requires Valid() && now.pc.Busy? && now.pc.i < |db.rows| && now.pc.stage == Confirming(sig)
      modifies this`trace, this`now, this`chain
      ensures old(trace) <= trace
      ensures Valid() && chain == Awaited(old(chain), sig, c)
      ensures now.pc == old(now.pc).(stage := Rereading(sig, c.slot, c.blockTime))
    {
      if c.finalized && sig < |chain| {
        chain := chain[sig := chain[sig].(finalized := true)];
        Log(Finalize(sig));
      }
      Log(Confirm(c.slot, c.blockTime));
    }

    /** `getMemo`: re-reads the transaction, if it is found at `finalized`, and decodes its memo. */
    method GetMemo(sig: Sig, found: bool) returns (memo: Option<string>)
      requires Valid()
      ensures memo == ReadMemo(chain, sig, found)
    {
      var message: Option<Memo.Message> :=
        if found && sig < |chain| && chain[sig].finalized then Some(chain[sig].message) else None;
      memo := Memo.DecodeMemo(message);
    }

    /** The failure handler: parks the row, credits the unit and audits, or leaves everything alone. */
    method Fail(i: nat, row: ServiceRequest, reason: Reason, a: Answers) returns (r: Outcome<bool, string>)
      requires Valid() && i < |db.rows| && now.pc == Busy(i, row, Failing(reason))
      modifies this`trace, this`now, db
      ensures old(trace) <= trace
      ensures Valid() && now.pc.Idle?
      ensures r.Threw? <==> a.parkError.Some?
      ensures r.Threw? ==> db.Value() == old(db.Value())
      ensures r.Ok? ==>
                db.Value() == Failure.FailAt(old(db.Value()), i, row.orgId, ReasonText(reason, row.id),
                                             row.txSignature, FindLatest(old(db.subs), row.orgId, true))
    {
      ParkIsFailAt(now, i, row, reason);
      ghost var credit := FindLatest(db.subs, row.orgId, true);
      Log(ChooseCredit(credit));
      CrashIsHarmless(now);
      r := Failure.FailServiceRequest(db, i, row.orgId, ReasonText(reason, row.id), row.txSignature, a.parkError);
      if r.Ok? {
        Log(Park);
      } else {
        Log(Crash);
      }
    }

    /** The try and catch of `runOnce`: deliver the claimed row, and hand what is thrown to the failure handler. */
    method DeliverOrPark(i: nat, row: ServiceRequest, a: Answers) returns (r: Outcome<bool, string>)
      requires Valid() && i < |db.rows| && db.rows[i] == row
      requires now.pc == Busy(i, row, if row.txSignature.None? then Claimed else Confirming(row.txSignature.value))
      modifies this`trace, this`now, this`chain, db
      ensures old(trace) <= trace
      ensures Valid() && now.pc.Idle?
      ensures var v := Attempt(old(chain), i, row, a);
              && chain == v.chain
              && (r.Threw? <==> v.fault.Some? && a.parkError.Some?)
              && db.rows == old(db.rows)[i := if r.Ok? then Finished(v) else v.row]
    {
      var thrown := ProcessServiceRequest(i, row, a);
      if thrown.None? {
        return Ok(true);
      }
      FailedRow(db.Value(), i, row, thrown.value, FindLatest(db.subs, row.orgId, true));
      r := Fail(i, row, thrown.value, a);
    }

    /** `runOnce`: claims one row and takes it to a terminal state, unless an error escapes. */
    method RunOnce(a: Answers) returns (r: Outcome<bool, string>)
      requires Valid() && now.pc.Idle?
      modifies this`trace, this`now, this`chain, this`claims, db
      ensures old(trace) <= trace
      ensures Valid() && now.pc.Idle?
      ensures r.Threw? <==> Escapes(old(db.rows), old(chain), a)
      ensures r.Threw? ==> Paused(old(db.rows), db.rows)
      ensures r == Ok(false) ==> Backlog(old(db.rows), 0) == [] && db.rows == old(db.rows) && claims == old(claims)
      ensures r == Ok(true) ==> Settles(old(db.rows), db.rows, old(claims), claims)
      ensures r == Ok(true) ==> Oldest(old(db.rows), 0).Some?
      ensures r == Ok(true) ==>
                var i, v := Oldest(old(db.rows), 0).value, VerdictOf(old(db.rows), old(chain), a);
                chain == v.chain && db.rows == old(db.rows)[i := Finished(v)]
    {
      ghost var rows, ledger := db.rows, chain;
      var claimed := ClaimNext(a);
      if claimed.Threw? {
        return Threw(claimed.error);
      }
      if claimed.value.None? {
        BacklogStart(rows, 0);
        return Ok(false);
      }
      var (i, row) := claimed.value.value;
      var settled := DeliverOrPark(i, row, a);
      if settled.Threw? {
        ConfirmedOrFaulty(ledger, i, row, a);
        return Threw(settled.error);
      }
      FinishedRow(rows, ledger, a);
      assert db.rows == rows[i := Finished(VerdictOf(rows, ledger, a))];
      return Ok(true);
    }

    /**
     `drain`: with nothing else running it ends, and unless an error escapes it has claimed exactly
     the backlog, in `createdAt` order, left every row terminal and counted the backlog.
     */
    method Drain(answers: nat -> Answers) returns (r: Outcome<nat, string>)
      requires Valid() && now.pc.Idle?
      modifies this`trace, this`now, this`chain, this`claims, db
      ensures old(trace) <= trace
      ensures Valid() && now.pc.Idle?
      ensures r.Threw? ==> exists n: nat :: Disrupts(answers(n))
      ensures r.Ok? ==>
                && r.value == |Backlog(old(db.rows), 0)|
                && claims == old(claims) + Backlog(old(db.rows), 0)
                && KeepsTerminal(old(db.rows), db.rows)
                && (forall i :: 0 <= i < |db.rows| ==> Terminal(db.rows[i]))
    {
      var processed := 0;
      ghost var rows, before := db.rows, claims;
      while true
        invariant Valid() && now.pc.Idle? && old(trace) <= trace
        invariant Drained(rows, db.rows, before, claims) && processed == |claims| - |before|
        decreases |Backlog(db.rows, 0)|
      {
        ghost var table, mid := db.rows, claims;
        var more := RunOnce(answers(processed));
        if more.Threw? {
          return Threw(more.error);
        }
        if !more.value {
          EmptyBacklog(table, 0);
          return Ok(processed);
        }
        DrainedFurther(rows, table, db.rows, before, mid, claims);
        processed := processed + 1;
      }
    }

    /** One tick of `pollForever`: an error that escapes `runOnce` is logged and forgotten. */
    method Tick(a: Answers) returns (ghost settled: nat)
      requires Valid() && now.pc.Idle?
      modifies this`trace, this`now, this`chain, this`claims, db
      ensures old(trace) <= trace
      ensures Valid() && now.pc.Idle?
      ensures Advanced(old(db.rows), db.rows, settled) && settled <= 1
      ensures !Disrupts(a) ==> settled == 1 || Backlog(db.rows, 0) == []
    {
      ghost var table, mid := db.rows, claims;
      var more := RunOnce(a);
      if more.Threw? {
        PausedAdvances(table, db.rows);
        settled := 0;
      } else if more.value {
        SettlesAdvances(table, db.rows, mid, claims);
        settled := 1;
      } else {
        settled := 0;
      }
    }

    /**
     `pollForever`, observed for any number of ticks: an error that escapes loses nothing, and without
     one each tick settles the oldest claimable row as long as there is one.
     */
    method PollForever(ticks: nat, answers: nat -> Answers) returns (ghost settled: nat)
      requires Valid() && now.pc.Idle?
      modifies this`trace, this`now, this`chain, this`claims, db
      ensures old(trace) <= trace
      ensures Valid() && now.pc.Idle?
      ensures Advanced(old(db.rows), db.rows, settled) && settled <= ticks
      ensures Calm(answers, ticks) ==> settled == ticks || Backlog(db.rows, 0) == []
    {
      settled := 0;
      ghost var rows := db.rows;
      for tick := 0 to ticks
        invariant Valid() && now.pc.Idle? && old(trace) <= trace
        invariant Advanced(rows, db.rows, settled) && settled <= tick
        invariant Calm(answers, tick) ==> settled == tick || Backlog(db.rows, 0) == []
      {
        ghost var table := db.rows;
        ghost var more := Tick(answers(tick));
        AdvancedTwice(rows, table, db.rows, settled, more);
        settled := settled + more;
      }
    }
  }

  /** What is proved of every run holds of the live store and ledger at every return of the worker. */
  lemma LiveStateIsSafe(w: DeliveryWorker)
    requires w.Valid()
    ensures forall i :: 0 <= i < |w.db.rows| && w.db.rows[i].status == CONFIRMED ==>
              Delivery.Proven(w.chain, w.db.rows[i])
    ensures forall i :: 0 <= i < |w.db.subs| ==> Accounting.InBounds(w.db.subs[i])
  {
    forall i | 0 <= i < |w.db.rows| && w.db.rows[i].status == CONFIRMED
      ensures Delivery.Proven(w.chain, w.db.rows[i])
    {
      Delivery.ConfirmedIsProven(w.trace, i);
    }
    forall i | 0 <= i < |w.db.subs|
      ensures Accounting.InBounds(w.db.subs[i])
    {
      Accounting.MetersInBounds(w.trace, i);
    }
  }

  /** Between two returns of the worker, a row with a stored signature keeps it and is never broadcast again. */
  lemma LiveNeverResends(w: DeliveryWorker, before: seq<Label>, i: nat)
    requires w.Valid() && before <= w.trace
    requires i < |Run(before).t.rows| && Run(before).t.rows[i].txSignature.Some?
    ensures i < |w.db.rows| && w.db.rows[i].txSignature == Run(before).t.rows[i].txSignature
    ensures Delivery.Broadcasts(w.chain, i) == Delivery.Broadcasts(Run(before).chain, i)
  {
    assert before + w.trace[|before|..] == w.trace;
    Delivery.NeverResent(before, w.trace[|before|..], i);
  }
}
