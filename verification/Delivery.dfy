/**
 What every step of the system keeps about delivery: worker/index.ts and worker/process.ts. The
 worker resumes exactly the request it was interrupted in, a request is broadcast at most once more
 than attempts lost their signature, and CONFIRMED means proven on the ledger.
 */
module Delivery {
  import opened Wrappers
  import opened Store
  import opened Machine
  import Memo
  import Intake
  import Failure

  /** How many transactions were broadcast for row `i`. */
  function Broadcasts(chain: seq<Tx>, i: nat): nat {
    if chain == [] then 0
    else
      var last := if chain[|chain| - 1].row == i then 1 else 0;
      Broadcasts(chain[..|chain| - 1], i) + last
  }

  /** How many attempts of row `i` broadcast and ended with the signature unsaved. */
  function LostCount(lost: seq<Lost>, i: nat): nat {
    if lost == [] then 0
    else
      var last := if lost[|lost| - 1].row == i then 1 else 0;
      LostCount(lost[..|lost| - 1], i) + last
  }

  /** How many of them left the row parked. */
  function ParkedLost(lost: seq<Lost>, i: nat): nat {
    if lost == [] then 0
    else
      var last := if lost[|lost| - 1] == Lost(i, true) then 1 else 0;
      ParkedLost(lost[..|lost| - 1], i) + last
  }

  /** How many of them did not: the attempts after which the row is broadcast again. */
  function Orphans(lost: seq<Lost>, i: nat): int {
    LostCount(lost, i) - ParkedLost(lost, i)
  }

  // ---------- The invariant ----------

  /** Entries of the ledger and of the history belong to rows; signatures belong to the ledger. */
  ghost predicate IndexesOk(s: Sys) {
    && (forall k :: 0 <= k < |s.chain| ==> s.chain[k].row < |s.t.rows|)
    && (forall k :: 0 <= k < |s.hist.lost| ==> s.hist.lost[k].row < |s.t.rows|)
  }

  /** A request in progress has nothing claimable before it. */
  ghost predicate QueueOk(rows: seq<ServiceRequest>) {
    forall i, j :: 0 <= j < i < |rows| && rows[i].status == IN_PROGRESS ==> !Claimable(rows[j])
  }

  ghost predicate Proven(chain: seq<Tx>, r: ServiceRequest) {
    && r.txSignature.Some? && r.txSignature.value < |chain|
    && chain[r.txSignature.value].finalized
    && Memo.MemoOf(chain[r.txSignature.value].message) == Some(RowMemo(r))
  }

  ghost predicate RowOk(s: Sys, i: nat)
    requires i < |s.t.rows|
  {
    var r := s.t.rows[i];
    && (r.txSignature.Some? ==> r.txSignature.value < |s.chain| && s.chain[r.txSignature.value].row == i)
    && (r.status == STAGED ==> r.txSignature.None?)
    && (r.status == CONFIRMED ==> Proven(s.chain, r))
  }

  /** The signature of row `i` is stored. */
  function Stored(s: Sys, i: nat): nat
    requires i < |s.t.rows|
  {
    if s.t.rows[i].txSignature.Some? then 1 else 0
  }

  /** The attempt under way has broadcast row `i` and its signature is not stored yet. */
  function InFlight(s: Sys, i: nat): nat
    requires i < |s.t.rows|
  {
    if s.pc.Busy? && s.pc.i == i && s.hist.attemptSent && s.t.rows[i].txSignature.None? then 1 else 0
  }

  ghost predicate BroadcastOk(s: Sys, i: nat)
    requires i < |s.t.rows|
  {
    && Broadcasts(s.chain, i) == LostCount(s.hist.lost, i) + Stored(s, i) + InFlight(s, i)
    && (if s.t.rows[i].status == FAILED then ParkedLost(s.hist.lost, i) + InFlight(s, i) <= 1 - Stored(s, i)
        else ParkedLost(s.hist.lost, i) == 0)
  }

  /** The worker's row is in progress and, but for a signature stored since, as it was read. */
  ghost predicate Working(r: ServiceRequest, snap: ServiceRequest) {
    r.status == IN_PROGRESS && r.(txSignature := snap.txSignature) == snap
  }

  ghost predicate PcOk(s: Sys) {
    if s.pc.Idle? then !s.hist.attemptSent
    else
      var i, snap := s.pc.i, s.pc.snap;
      && i < |s.t.rows|
      && (forall j :: 0 <= j < i ==> !Claimable(s.t.rows[j]))
      && var r := s.t.rows[i];
         match s.pc.stage
         case Chosen => !s.hist.attemptSent && Claimable(r) && snap == r
         case Claimed => !s.hist.attemptSent && Working(r, snap) && r.txSignature.None?
         case Priced(_) => !s.hist.attemptSent && Working(r, snap) && r.txSignature.None?
         case Sent(sig) =>
           s.hist.attemptSent && Working(r, snap) && r.txSignature.None?
           && sig < |s.chain| && s.chain[sig].row == i
         case Confirming(sig) => Working(r, snap) && r.txSignature == Some(sig)
         case Rereading(sig, _, _) => Working(r, snap) && r.txSignature == Some(sig)
         case Verified(sig, _, _) => Working(r, snap) && r.txSignature == Some(sig) && Proven(s.chain, r)
         case Failing(_) => Working(r, snap)
         case Parking(_, _) => Working(r, snap)
  }

  ghost predicate RowsOk(s: Sys) {
    forall i :: 0 <= i < |s.t.rows| ==> RowOk(s, i)
  }

  ghost predicate BroadcastsOk(s: Sys) {
    forall i :: 0 <= i < |s.t.rows| ==> BroadcastOk(s, i)
  }

  ghost predicate Inv(s: Sys) {
    IndexesOk(s) && QueueOk(s.t.rows) && PcOk(s) && RowsOk(s) && BroadcastsOk(s)
  }

  // ---------- Counting ----------

  lemma BroadcastAppended(chain: seq<Tx>, tx: Tx, i: nat)
    ensures Broadcasts(chain + [tx], i) == Broadcasts(chain, i) + (if tx.row == i then 1 else 0)
  {
    assert (chain + [tx])[..|chain|] == chain;
  }

  lemma LostAppended(lost: seq<Lost>, l: Lost, i: nat)
    ensures LostCount(lost + [l], i) == LostCount(lost, i) + (if l.row == i then 1 else 0)
    ensures ParkedLost(lost + [l], i) == ParkedLost(lost, i) + (if l == Lost(i, true) then 1 else 0)
  {
    assert (lost + [l])[..|lost|] == lost;
  }

  lemma {:induction false} NoBroadcasts(chain: seq<Tx>, i: nat)
    requires forall k :: 0 <= k < |chain| ==> chain[k].row != i
    ensures Broadcasts(chain, i) == 0
  {
    if chain != [] {
      NoBroadcasts(chain[..|chain| - 1], i);
    }
  }

  lemma {:induction false} NoneLost(lost: seq<Lost>, i: nat)
    requires forall k :: 0 <= k < |lost| ==> lost[k].row != i
    ensures LostCount(lost, i) == 0 && ParkedLost(lost, i) == 0
  {
    if lost != [] {
      NoneLost(lost[..|lost| - 1], i);
    }
  }

  lemma {:induction false} FinalizeKeepsCount(chain: seq<Tx>, sig: Sig, i: nat)
    requires sig < |chain|
    ensures Broadcasts(chain[sig := chain[sig].(finalized := true)], i) == Broadcasts(chain, i)
  {
    var after := chain[sig := chain[sig].(finalized := true)];
    if sig == |chain| - 1 {
      assert after[..sig] == chain[..sig];
    } else {
      FinalizeKeepsCount(chain[..|chain| - 1], sig, i);
      assert after[..|chain| - 1] == chain[..|chain| - 1][sig := chain[sig].(finalized := true)];
    }
  }

  // ---------- The worker keeps the invariant ----------

  /** Ending an attempt whose row is settled enough. */
  lemma EndAttemptKeeps(s: Sys)
    requires IndexesOk(s) && QueueOk(s.t.rows) && RowsOk(s) && BroadcastsOk(s)
    requires s.pc.Idle? ==> !s.hist.attemptSent
    ensures Inv(EndAttempt(s))
  {
    var s' := EndAttempt(s);
    forall i | 0 <= i < |s.t.rows|
      ensures BroadcastOk(s', i)
    {
      assert BroadcastOk(s, i);
      if s.pc.Busy? && s.pc.i < |s.t.rows| {
        LostAppended(s.hist.lost, Lost(s.pc.i, s.t.rows[s.pc.i].status == FAILED), i);
      }
    }
    forall i | 0 <= i < |s.t.rows|
      ensures RowOk(s', i)
    {
      assert RowOk(s, i);
    }
  }

  lemma BroadcastKeepsRows(s: Sys, landed: Memo.Message)
    requires RowsOk(s) && s.pc.Busy?
    ensures RowsOk(Broadcast(s, landed))
  {
    forall i | 0 <= i < |s.t.rows|
      ensures RowOk(Broadcast(s, landed), i)
    {
      assert RowOk(s, i);
    }
  }

  lemma BroadcastCounts(s: Sys, landed: Memo.Message)
    requires BroadcastsOk(s) && s.pc.Busy? && !s.hist.attemptSent && s.pc.i < |s.t.rows|
    requires s.t.rows[s.pc.i].txSignature.None? && s.t.rows[s.pc.i].status != FAILED
    ensures BroadcastsOk(Broadcast(s, landed))
  {
    forall i | 0 <= i < |s.t.rows|
      ensures BroadcastOk(Broadcast(s, landed), i)
    {
      BroadcastCountsRow(s, landed, i);
    }
  }

  lemma BroadcastCountsRow(s: Sys, landed: Memo.Message, i: nat)
    requires s.pc.Busy? && !s.hist.attemptSent && s.pc.i < |s.t.rows|
    requires s.t.rows[s.pc.i].txSignature.None? && s.t.rows[s.pc.i].status != FAILED
    requires i < |s.t.rows| && BroadcastOk(s, i)
    ensures BroadcastOk(Broadcast(s, landed), i)
  {
    BroadcastAppended(s.chain, Tx(s.pc.i, landed, false), i);
    assert InFlight(s, i) == 0 && InFlight(Broadcast(s, landed), i) == if i == s.pc.i then 1 else 0;
  }

  /** Rewriting the worker's row, which has nothing claimable before it. */
  lemma SetRowKeepsQueue(s: Sys, r: ServiceRequest)
    requires QueueOk(s.t.rows) && s.pc.Busy? && s.pc.i < |s.t.rows|
    requires forall j :: 0 <= j < s.pc.i ==> !Claimable(s.t.rows[j])
    requires Claimable(s.t.rows[s.pc.i])
    ensures QueueOk(SetRow(s, s.pc.i, r).t.rows)
    ensures forall j :: 0 <= j < s.pc.i ==> !Claimable(SetRow(s, s.pc.i, r).t.rows[j])
  {
  }

  lemma SetRowKeepsRows(s: Sys, r: ServiceRequest)
    requires RowsOk(s) && BroadcastsOk(s) && s.pc.Busy? && s.pc.i < |s.t.rows|
    requires RowOk(SetRow(s, s.pc.i, r), s.pc.i) && BroadcastOk(SetRow(s, s.pc.i, r), s.pc.i)
    ensures RowsOk(SetRow(s, s.pc.i, r)) && BroadcastsOk(SetRow(s, s.pc.i, r))
  {
    var s' := SetRow(s, s.pc.i, r);
    forall i | 0 <= i < |s.t.rows|
      ensures RowOk(s', i) && BroadcastOk(s', i)
    {
      assert RowOk(s, i) && BroadcastOk(s, i);
    }
  }

  /** Moving to another stage changes neither rows nor ledger. */
  lemma AtKeeps(s: Sys, stage: Stage)
    requires s.pc.Busy? && IndexesOk(s) && QueueOk(s.t.rows) && RowsOk(s) && BroadcastsOk(s)
    requires PcOk(At(s, stage))
    ensures Inv(At(s, stage))
  {
    var s' := At(s, stage);
    forall i | 0 <= i < |s.t.rows|
      ensures RowOk(s', i) && BroadcastOk(s', i)
    {
      assert RowOk(s, i) && BroadcastOk(s, i);
    }
  }

  lemma ClaimKeeps(s: Sys)
    requires Inv(s) && s.pc.Busy? && s.pc.stage.Chosen?
    ensures Inv(ClaimStep(s))
  {
    var i := s.pc.i;
    var r := s.t.rows[i].(status := IN_PROGRESS);
    assert RowOk(s, i) && BroadcastOk(s, i);
    SetRowKeepsQueue(s, r);
    SetRowKeepsRows(s, r);
    var s' := ClaimStep(s);
    forall j | 0 <= j < |s.t.rows|
      ensures RowOk(s', j) && BroadcastOk(s', j)
    {
      assert RowOk(SetRow(s, i, r), j) && BroadcastOk(SetRow(s, i, r), j);
    }
  }

  lemma SendKeeps(s: Sys, landed: Memo.Message, stage: Stage)
    requires Inv(s) && s.pc.Busy? && s.pc.stage.Priced?
    requires stage == Sent(|s.chain|) || stage.Failing?
    ensures Inv(At(Broadcast(s, landed), stage))
  {
    BroadcastKeepsRows(s, landed);
    BroadcastCounts(s, landed);
    AtKeeps(Broadcast(s, landed), stage);
  }

  lemma PersistKeeps(s: Sys)
    requires Inv(s) && s.pc.Busy? && s.pc.stage.Sent?
    ensures Inv(WorkerStep(s, Persist))
  {
    var i, sig := s.pc.i, s.pc.stage.sig;
    var r := s.t.rows[i].(txSignature := Some(sig));
    assert RowOk(s, i) && BroadcastOk(s, i);
    SetRowKeepsQueue(s, r);
    SetRowKeepsRows(s, r);
    AtKeeps(SetRow(s, i, r), Confirming(sig));
  }

  lemma StampKeeps(s: Sys)
    requires Inv(s) && s.pc.Busy? && s.pc.stage.Verified?
    ensures Inv(WorkerStep(s, Stamp))
  {
    var i, stage := s.pc.i, s.pc.stage;
    var r := s.t.rows[i].(status := CONFIRMED, slot := Some(stage.slot), blockTime := InMillis(stage.blockTime));
    assert RowOk(s, i) && BroadcastOk(s, i);
    SetRowKeepsQueue(s, r);
    SetRowKeepsRows(s, r);
    EndAttemptKeeps(SetRow(s, i, r));
  }

  /** The worker's row FAILED, in whatever words, keeps the invariant of rows and broadcasts. */
  lemma FailedRowKeeps(s: Sys, reason: string)
    requires Inv(s) && s.pc.Busy? && s.pc.stage.Parking?
    ensures var s' := SetRow(s, s.pc.i, s.t.rows[s.pc.i].(status := FAILED, failureReason := Some(reason)));
            QueueOk(s'.t.rows) && RowsOk(s') && BroadcastsOk(s')
  {
    var i := s.pc.i;
    var r := s.t.rows[i].(status := FAILED, failureReason := Some(reason));
    assert RowOk(s, i) && BroadcastOk(s, i);
    SetRowKeepsQueue(s, r);
    SetRowKeepsRows(s, r);
  }

  /** Rows, ledger and worker are all that the invariant of rows and broadcasts looks at. */
  lemma SameRowsKeep(s: Sys, s': Sys)
    requires RowsOk(s) && BroadcastsOk(s)
    requires s'.t.rows == s.t.rows && s'.chain == s.chain && s'.pc == s.pc && s'.hist == s.hist
    ensures RowsOk(s') && BroadcastsOk(s')
  {
    forall j | 0 <= j < |s.t.rows|
      ensures RowOk(s', j) && BroadcastOk(s', j)
    {
      assert RowOk(s, j) && BroadcastOk(s, j);
    }
  }

  lemma ParkKeeps(s: Sys)
    requires Inv(s) && s.pc.Busy?
    ensures Inv(WorkerStep(s, Park))
  {
    var i, snap, stage := s.pc.i, s.pc.snap, s.pc.stage;
    if stage.Parking? && (stage.credit.Some? ==> stage.credit.value < |s.t.subs|) {
      var text := ReasonText(stage.reason, snap.id);
      var r := s.t.rows[i].(status := FAILED, failureReason := Some(Failure.Cap(text)));
      FailedRowKeeps(s, Failure.Cap(text));
      var parked := s.(t := Failure.FailAt(s.t, i, snap.orgId, text, snap.txSignature, stage.credit));
      assert parked.t.rows == SetRow(s, i, r).t.rows;
      SameRowsKeep(SetRow(s, i, r), parked);
      EndAttemptKeeps(parked);
    }
  }

  lemma RereadKeeps(s: Sys, found: bool)
    requires Inv(s) && s.pc.Busy?
    ensures Inv(WorkerStep(s, Reread(found)))
  {
    var stage := s.pc.stage;
    if stage.Rereading? {
      if ReadMemo(s.chain, stage.sig, found) == Some(RowMemo(s.pc.snap)) {
        AtKeeps(s, Verified(stage.sig, stage.slot, stage.blockTime));
      } else {
        var s' := s.(hist := s.hist.(mismatches := s.hist.mismatches + 1));
        forall i | 0 <= i < |s.t.rows|
          ensures RowOk(s', i) && BroadcastOk(s', i)
        {
          assert RowOk(s, i) && BroadcastOk(s, i);
        }
        AtKeeps(s', Failing(MemoMismatch));
      }
    }
  }

  lemma WorkerKeeps(s: Sys, l: Label)
    requires Inv(s) && s.pc.Busy?
    ensures Inv(WorkerStep(s, l))
  {
    var stage := s.pc.stage;
    match l
    case Claim => if stage.Chosen? { ClaimKeeps(s); }
    case Price(lamports) => if stage.Claimed? { AtKeeps(s, Priced(lamports)); }
    case Send(landed) => if stage.Priced? { SendKeeps(s, landed, Sent(|s.chain|)); }
    case SendThrew(landed, message) => if stage.Priced? { SendKeeps(s, landed, Failing(Thrown(message))); }
    case Persist => if stage.Sent? { PersistKeeps(s); }
    case Confirm(slot, blockTime) => if stage.Confirming? { AtKeeps(s, Rereading(stage.sig, slot, blockTime)); }
    case Reread(found) => RereadKeeps(s, found);
    case Stamp => if stage.Verified? { StampKeeps(s); }
    case Throw(message) => if InDelivery(stage) { AtKeeps(s, Failing(Thrown(message))); }
    case ChooseCredit(credit) =>
      if stage.Failing? {
        AtKeeps(s, Parking(stage.reason, credit));
      }
    case Park => ParkKeeps(s);
    case Crash => EndAttemptKeeps(s);
    case _ =>
  }

  // ---------- The rest of the system keeps the invariant ----------

  /** All that the ledger and the web application may do to what the worker relies on. */
  ghost predicate OfficeFrame(s: Sys, s': Sys) {
    && s'.pc == s.pc && s'.hist.lost == s.hist.lost && s'.hist.attemptSent == s.hist.attemptSent
    && s'.hist.mismatches == s.hist.mismatches
    && (s'.t.rows == s.t.rows
        || exists r: ServiceRequest :: r.status == STAGED && r.txSignature.None? && s'.t.rows == s.t.rows + [r])
    && (s'.chain == s.chain
        || exists sig :: 0 <= sig < |s.chain| && s'.chain == s.chain[sig := s.chain[sig].(finalized := true)])
  }

  /** Delivery writes only these columns of a request. */
  predicate SameRequest(a: ServiceRequest, b: ServiceRequest) {
    a.(status := b.status, txSignature := b.txSignature, slot := b.slot, blockTime := b.blockTime,
       failureReason := b.failureReason) == b
  }

  lemma WorkerFrames(s: Sys, l: Label)
    requires OfWorker(l)
    ensures var rows := Step(s, l).t.rows;
            |rows| == |s.t.rows| && forall j :: 0 <= j < |rows| ==> SameRequest(s.t.rows[j], rows[j])
    ensures Step(s, l).t.audits != s.t.audits ==> l.Park? && s.pc.Busy? && s.pc.i < |s.t.rows|
  {
  }

  lemma OfficeFrames(s: Sys, l: Label)
    ensures OfficeFrame(s, OfficeStep(s, l))
  {
    match l
    case CommitIntake(k, now, draft, sha256) =>
      if k < |s.pending| && s.pending[k].PendingIntake? && s.pending[k].i < |s.t.subs| && sha256.Some? {
        var r := Intake.StagedRow(s.pending[k].org, draft, sha256.value);
        assert r.status == STAGED && r.txSignature.None?;
      }
    case _ =>
  }

  lemma OfficeKeeps(s: Sys, s': Sys)
    requires Inv(s) && OfficeFrame(s, s')
    ensures Inv(s')
  {
    forall i | 0 <= i < |s'.t.rows|
      ensures RowOk(s', i) && BroadcastOk(s', i)
    {
      if s'.chain != s.chain {
        var sig :| 0 <= sig < |s.chain| && s'.chain == s.chain[sig := s.chain[sig].(finalized := true)];
        FinalizeKeepsCount(s.chain, sig, i);
      }
      if i < |s.t.rows| {
        assert RowOk(s, i) && BroadcastOk(s, i);
      } else {
        NoBroadcasts(s.chain, i);
        NoneLost(s.hist.lost, i);
      }
    }
  }

  lemma PollKeeps(s: Sys)
    requires Inv(s) && s.pc.Idle?
    ensures Inv(Step(s, Poll))
  {
    var s' := Step(s, Poll);
    forall i | 0 <= i < |s.t.rows|
      ensures RowOk(s', i) && BroadcastOk(s', i)
    {
      assert RowOk(s, i) && BroadcastOk(s, i);
    }
  }

  lemma StepKeeps(s: Sys, l: Label)
    requires Inv(s)
    ensures Inv(Step(s, l))
  {
    if !OfWorker(l) {
      OfficeFrames(s, l);
      OfficeKeeps(s, OfficeStep(s, l));
    } else if s.pc.Busy? {
      WorkerKeeps(s, l);
    } else if l.Poll? {
      PollKeeps(s);
    }
  }

  lemma {:induction false} RunFromKeeps(s: Sys, ls: seq<Label>)
    requires Inv(s)
    ensures Inv(RunFrom(s, ls))
  {
    if ls != [] {
      RunFromKeeps(s, ls[..|ls| - 1]);
      StepKeeps(RunFrom(s, ls[..|ls| - 1]), ls[|ls| - 1]);
    }
  }

  /** The invariant holds in every reachable state. */
  lemma Reachable(ls: seq<Label>)
    ensures Inv(Run(ls))
  {
    RunFromKeeps(INIT, ls);
  }

  // ---------- What follows for every run ----------

  /**
   The exact count, for every row of every run: a request was broadcast once for each attempt that lost
   its signature, once more if its signature is stored, and once more if a broadcast is in flight.
   */
  lemma BroadcastCount(ls: seq<Label>, i: nat)
    requires i < |Run(ls).t.rows|
    ensures Broadcasts(Run(ls).chain, i)
         == LostCount(Run(ls).hist.lost, i) + Stored(Run(ls), i) + InFlight(Run(ls), i)
  {
    Reachable(ls);
    assert BroadcastOk(Run(ls), i);
  }

  /**
   A request is broadcast at most once more than it had attempts that broadcast and ended with neither
   the signature stored nor the row parked.
   */
  lemma BroadcastBound(ls: seq<Label>, i: nat)
    requires i < |Run(ls).t.rows|
    ensures Broadcasts(Run(ls).chain, i) <= 1 + Orphans(Run(ls).hist.lost, i)
  {
    Reachable(ls);
    assert BroadcastOk(Run(ls), i);
    if InFlight(Run(ls), i) == 1 {
      assert Working(Run(ls).t.rows[i], Run(ls).pc.snap);
    }
  }

  /** A request was broadcast at most once iff at most one broadcast is lost, stored or in flight. */
  lemma AtMostOnceIff(ls: seq<Label>, i: nat)
    requires i < |Run(ls).t.rows|
    ensures Broadcasts(Run(ls).chain, i) <= 1
       <==> LostCount(Run(ls).hist.lost, i) + Stored(Run(ls), i) + InFlight(Run(ls), i) <= 1
  {
    BroadcastCount(ls, i);
  }

  /** The broadcast that comes next is a repeated one exactly when an earlier attempt lost its signature. */
  lemma ResendIff(ls: seq<Label>, landed: Memo.Message)
    requires Run(ls).pc.Busy? && Run(ls).pc.stage.Priced?
    ensures var i := Run(ls).pc.i;
            Broadcasts(Run(ls + [Send(landed)]).chain, i) > 1 <==> LostCount(Run(ls).hist.lost, i) > 0
  {
    var i := Run(ls).pc.i;
    Reachable(ls);
    BroadcastCount(ls, i);
    assert (ls + [Send(landed)])[..|ls|] == ls;
    BroadcastAppended(Run(ls).chain, Tx(i, landed, false), i);
  }

  /** Row `i` keeps its signature and is not broadcast. */
  ghost predicate StoredKept(s: Sys, s': Sys, i: nat)
    requires i < |s.t.rows|
  {
    && i < |s'.t.rows| && s'.t.rows[i].txSignature == s.t.rows[i].txSignature
    && Broadcasts(s'.chain, i) == Broadcasts(s.chain, i)
  }

  lemma OfficeKeepsStored(s: Sys, s': Sys, i: nat)
    requires OfficeFrame(s, s') && i < |s.t.rows|
    ensures StoredKept(s, s', i)
  {
    if s'.chain != s.chain {
      var sig :| 0 <= sig < |s.chain| && s'.chain == s.chain[sig := s.chain[sig].(finalized := true)];
      FinalizeKeepsCount(s.chain, sig, i);
    }
  }

  lemma WorkerKeepsStored(s: Sys, l: Label, i: nat)
    requires Inv(s) && i < |s.t.rows| && s.t.rows[i].txSignature.Some? && OfWorker(l)
    ensures StoredKept(s, Step(s, l), i)
  {
    if s.pc.Busy? && (l.Send? || l.SendThrew?) && s.pc.stage.Priced? {
      BroadcastAppended(s.chain, Tx(s.pc.i, l.landed, false), i);
    }
  }

  lemma StoredStays(s: Sys, l: Label, i: nat)
    requires Inv(s) && i < |s.t.rows| && s.t.rows[i].txSignature.Some?
    ensures StoredKept(s, Step(s, l), i)
  {
    if OfWorker(l) {
      WorkerKeepsStored(s, l, i);
    } else {
      OfficeFrames(s, l);
      OfficeKeepsStored(s, OfficeStep(s, l), i);
    }
  }

  /** Once its signature is stored, a request keeps it and is never broadcast again. */
  lemma {:induction false} NeverResent(ls: seq<Label>, more: seq<Label>, i: nat)
    requires i < |Run(ls).t.rows| && Run(ls).t.rows[i].txSignature.Some?
    ensures i < |Run(ls + more).t.rows|
    ensures Run(ls + more).t.rows[i].txSignature == Run(ls).t.rows[i].txSignature
    ensures Broadcasts(Run(ls + more).chain, i) == Broadcasts(Run(ls).chain, i)
    decreases |more|
  {
    if more == [] {
      assert ls + more == ls;
    } else {
      NeverResent(ls, more[..|more| - 1], i);
      assert (ls + more)[..|ls + more| - 1] == ls + more[..|more| - 1];
      Reachable(ls + more[..|more| - 1]);
      StoredStays(Run(ls + more[..|more| - 1]), more[|more| - 1], i);
    }
  }

  /** At most one request is in progress, and it is the oldest claimable one. */
  lemma OneInProgress(ls: seq<Label>, i: nat)
    requires i < |Run(ls).t.rows| && Run(ls).t.rows[i].status == IN_PROGRESS
    ensures Oldest(Run(ls).t.rows, 0) == Some(i)
    ensures forall j :: 0 <= j < |Run(ls).t.rows| && j != i ==> Run(ls).t.rows[j].status != IN_PROGRESS
  {
    Reachable(ls);
  }

  /** Steps of the ledger and the web application only. */
  ghost predicate Office(ls: seq<Label>) {
    forall n :: 0 <= n < |ls| ==> !OfWorker(ls[n])
  }

  /** The two states differ in the worker's memory and the accounting of attempts at most. */
  predicate SameWorld(s: Sys, s': Sys) {
    s'.t == s.t && s'.chain == s.chain && s'.pending == s.pending && s'.replies == s.replies
  }

  lemma OfficeIgnoresWorker(s: Sys, s': Sys, l: Label)
    requires SameWorld(s, s') && !OfWorker(l)
    ensures SameWorld(Step(s, l), Step(s', l))
  {
  }

  lemma {:induction false} WebIgnoresWorker(s: Sys, s': Sys, web: seq<Label>)
    requires SameWorld(s, s') && Office(web)
    ensures SameWorld(RunFrom(s, web), RunFrom(s', web)) && RunFrom(s', web).pc == s'.pc
  {
    if web != [] {
      var before := web[..|web| - 1];
      WebIgnoresWorker(s, s', before);
      OfficeIgnoresWorker(RunFrom(s, before), RunFrom(s', before), web[|web| - 1]);
      OfficeFrames(RunFrom(s', before), web[|web| - 1]);
    }
  }

  /** While the worker is away its request stays as it is, and the oldest claimable. */
  lemma {:induction false} WebKeepsOrphan(s: Sys, web: seq<Label>, i: nat)
    requires Inv(s) && Office(web) && i < |s.t.rows| && s.t.rows[i].status == IN_PROGRESS
    ensures var s' := RunFrom(s, web);
            Inv(s') && i < |s'.t.rows| && s'.t.rows[i] == s.t.rows[i] && Oldest(s'.t.rows, 0) == Some(i)
  {
    RunFromKeeps(s, web);
    if web != [] {
      WebKeepsOrphan(s, web[..|web| - 1], i);
      OfficeFrames(RunFrom(s, web[..|web| - 1]), web[|web| - 1]);
    }
  }

  /** A crash, and later a poll and a claim, with any steps of the ledger and the web application in between. */
  function Restart(beforePoll: seq<Label>, beforeClaim: seq<Label>): seq<Label> {
    [Crash] + beforePoll + [Poll] + beforeClaim + [Claim]
  }

  /**
   After a crash at any point, and whatever the ledger and the web application do before it, the next
   claim resumes exactly the request in progress, where its stored signature calls for, and but for that
   nothing else moves than without the worker.
   */
  lemma CrashResumesOrphan(ls: seq<Label>, web: seq<Label>, more: seq<Label>, i: nat)
    requires i < |Run(ls).t.rows| && Run(ls).t.rows[i].status == IN_PROGRESS && Office(web) && Office(more)
    ensures var s := Run(ls);
            var s' := Run(ls + Restart(web, more));
            var r := s.t.rows[i];
            && s'.pc == Busy(i, r, if r.txSignature.None? then Claimed else Confirming(r.txSignature.value))
            && SameWorld(RunFrom(s, web + more), s')
            && i < |s'.t.rows| && s'.t.rows[i] == r
  {
    Reachable(ls);
    RunAppend(INIT, ls, Restart(web, more));
    RunAppend(Run(ls), web, more);
    RestartSteps(Run(ls), web, more);
    RestartFrom(Run(ls), web, more, i);
  }

  lemma RestartSteps(s: Sys, web: seq<Label>, more: seq<Label>)
    ensures RunFrom(s, Restart(web, more))
         == Step(RunFrom(Step(RunFrom(Step(s, Crash), web), Poll), more), Claim)
  {
    RunAppend(s, [Crash] + web + [Poll] + more, [Claim]);
    RunAppend(s, [Crash] + web + [Poll], more);
    RunAppend(s, [Crash] + web, [Poll]);
    RunAppend(s, [Crash], web);
    OneStep(s, Crash);
    OneStep(RunFrom(s, [Crash] + web), Poll);
    OneStep(RunFrom(s, [Crash] + web + [Poll] + more), Claim);
  }

  lemma OneStep(s: Sys, l: Label)
    ensures RunFrom(s, [l]) == Step(s, l)
  {
    assert [l][..0] == [];
  }

  /** The worker forgets everything and does nothing else. */
  lemma CrashForgets(s: Sys)
    requires Inv(s)
    ensures Step(s, Crash).pc.Idle? && SameWorld(s, Step(s, Crash))
  {
  }

  lemma PollChooses(s: Sys, i: nat)
    requires s.pc.Idle? && Oldest(s.t.rows, 0) == Some(i)
    ensures Step(s, Poll).pc == Busy(i, s.t.rows[i], Chosen) && SameWorld(s, Step(s, Poll))
  {
  }

  /** Away after a crash and `web`, the worker chooses the orphan. */
  lemma ChoosesOrphan(s: Sys, web: seq<Label>, i: nat)
    requires Inv(s) && Office(web) && i < |s.t.rows| && s.t.rows[i].status == IN_PROGRESS
    ensures var polled := Step(RunFrom(Step(s, Crash), web), Poll);
            && Inv(polled) && polled.pc == Busy(i, s.t.rows[i], Chosen)
            && SameWorld(RunFrom(s, web), polled)
            && i < |polled.t.rows| && polled.t.rows[i] == s.t.rows[i]
  {
    CrashForgets(s);
    StepKeeps(s, Crash);
    WebIgnoresWorker(s, Step(s, Crash), web);
    WebKeepsOrphan(Step(s, Crash), web, i);
    var away := RunFrom(Step(s, Crash), web);
    PollChooses(away, i);
    StepKeeps(away, Poll);
  }

  lemma RestartFrom(s: Sys, web: seq<Label>, more: seq<Label>, i: nat)
    requires Inv(s) && Office(web) && Office(more) && i < |s.t.rows| && s.t.rows[i].status == IN_PROGRESS
    ensures var s' := Step(RunFrom(Step(RunFrom(Step(s, Crash), web), Poll), more), Claim);
            var r := s.t.rows[i];
            && s'.pc == Busy(i, r, if r.txSignature.None? then Claimed else Confirming(r.txSignature.value))
            && SameWorld(RunFrom(RunFrom(s, web), more), s')
            && i < |s'.t.rows| && s'.t.rows[i] == r
  {
    ChoosesOrphan(s, web, i);
    var polled := Step(RunFrom(Step(s, Crash), web), Poll);
    WebIgnoresWorker(RunFrom(s, web), polled, more);
    WebKeepsOrphan(polled, more, i);
    ReclaimsChosen(RunFrom(polled, more), i, s.t.rows[i]);
  }

  lemma ReclaimsChosen(s: Sys, i: nat, r: ServiceRequest)
    requires s.pc == Busy(i, r, Chosen) && i < |s.t.rows| && s.t.rows[i] == r && r.status == IN_PROGRESS
    ensures SameWorld(s, Step(s, Claim))
    ensures Step(s, Claim).pc
         == Busy(i, r, if r.txSignature.None? then Claimed else Confirming(r.txSignature.value))
  {
    assert s.t.rows[i := s.t.rows[i]] == s.t.rows;
  }

  /** A CONFIRMED request has a stored signature whose finalized memo is the one rebuilt from it. */
  lemma ConfirmedIsProven(ls: seq<Label>, i: nat)
    requires i < |Run(ls).t.rows| && Run(ls).t.rows[i].status == CONFIRMED
    ensures Proven(Run(ls).chain, Run(ls).t.rows[i])
    ensures Run(ls).chain[Run(ls).t.rows[i].txSignature.value].row == i
    ensures var s := Run(ls);
            var r := s.t.rows[i];
            Memo.MemoOf(s.chain[r.txSignature.value].message)
            == Some(r.documentSha256.GetOr("") + "|" + r.noticeToken.GetOr("") + "|" + r.id)
  {
    Reachable(ls);
    assert RowOk(Run(ls), i);
  }

  // ---------- A chain that returns what was sent ----------

  /** The chain lands what was sent, confirms only what is finalized, and finds what is finalized. */
  ghost predicate Honest(s: Sys, l: Label) {
    match l
    case Send(landed) => s.pc.Busy? ==> Memo.CarriesDelivery(landed, RowMemo(s.pc.snap))
    case SendThrew(landed, _) => s.pc.Busy? ==> Memo.CarriesDelivery(landed, RowMemo(s.pc.snap))
    case Confirm(_, _) =>
      s.pc.Busy? && s.pc.stage.Confirming? ==>
        s.pc.stage.sig < |s.chain| && s.chain[s.pc.stage.sig].finalized
    case Reread(found) => found
    case _ => true
  }

  ghost predicate HonestRun(ls: seq<Label>) {
    forall n :: 0 <= n < |ls| ==> Honest(Run(ls[..n]), ls[n])
  }

  /** What is on an honest chain carries the memo of its row. */
  ghost predicate Faithful(s: Sys) {
    && (forall k :: 0 <= k < |s.chain| && s.chain[k].row < |s.t.rows| ==>
          Memo.MemoOf(s.chain[k].message) == Some(RowMemo(s.t.rows[s.chain[k].row])))
    && (s.pc.Busy? && s.pc.stage.Rereading? ==>
          s.pc.stage.sig < |s.chain| && s.chain[s.pc.stage.sig].finalized)
    && s.hist.mismatches == 0
  }

  /** The columns that make up the memo are never written again. */
  lemma MemoStays(s: Sys, l: Label, i: nat)
    requires i < |s.t.rows|
    ensures i < |Step(s, l).t.rows| && RowMemo(Step(s, l).t.rows[i]) == RowMemo(s.t.rows[i])
    ensures Step(s, l).t.rows[i].id == s.t.rows[i].id && Step(s, l).t.rows[i].orgId == s.t.rows[i].orgId
  {
    if !OfWorker(l) {
      OfficeFrames(s, l);
    } else {
      WorkerFrames(s, l);
    }
  }

  lemma SendFaithful(s: Sys, landed: Memo.Message, stage: Stage)
    requires Inv(s) && Faithful(s) && s.pc.Busy? && s.pc.stage.Priced? && !stage.Rereading?
    requires Memo.CarriesDelivery(landed, RowMemo(s.pc.snap))
    ensures Faithful(At(Broadcast(s, landed), stage))
  {
    Memo.DeliveryDecodes(landed, RowMemo(s.pc.snap));
    assert RowMemo(s.t.rows[s.pc.i]) == RowMemo(s.pc.snap);
  }

  /** No step but a broadcast adds to the ledger, and no step changes what has landed. */
  lemma LedgerStays(s: Sys, l: Label)
    requires !((l.Send? || l.SendThrew?) && s.pc.Busy? && s.pc.stage.Priced?)
    ensures var chain := Step(s, l).chain;
            |chain| == |s.chain| && forall k :: 0 <= k < |chain| ==>
              chain[k].row == s.chain[k].row && chain[k].message == s.chain[k].message
              && (s.chain[k].finalized ==> chain[k].finalized)
  {
    if !OfWorker(l) {
      OfficeFrames(s, l);
    }
  }

  lemma RereadFaithful(s: Sys)
    requires Inv(s) && Faithful(s) && s.pc.Busy? && s.pc.stage.Rereading?
    ensures ReadMemo(s.chain, s.pc.stage.sig, true) == Some(RowMemo(s.pc.snap))
  {
    assert RowOk(s, s.pc.i);
    assert RowMemo(s.t.rows[s.pc.i]) == RowMemo(s.pc.snap);
  }

  /** A worker enters the re-read stage only from a confirmation, and mismatches only there. */
  lemma StageStep(s: Sys, l: Label)
    requires s.pc.Busy? && s.pc.stage.Rereading? && l.Reread? && s.pc.i < |s.t.rows| ==>
               ReadMemo(s.chain, s.pc.stage.sig, l.found) == Some(RowMemo(s.pc.snap))
    ensures Step(s, l).hist.mismatches == s.hist.mismatches
    ensures var pc := Step(s, l).pc;
            pc.Busy? && pc.stage.Rereading? ==>
              s.pc.Busy? && (s.pc.stage == pc.stage
                             || (l.Confirm? && s.pc.stage == Confirming(pc.stage.sig)))
  {
    if !OfWorker(l) {
      OfficeFrames(s, l);
    }
  }

  lemma StepFaithful(s: Sys, l: Label)
    requires Inv(s) && Faithful(s) && Honest(s, l)
    ensures Faithful(Step(s, l))
  {
    if l.Send? && s.pc.Busy? && s.pc.stage.Priced? {
      SendFaithful(s, l.landed, Sent(|s.chain|));
    } else if l.SendThrew? && s.pc.Busy? && s.pc.stage.Priced? {
      SendFaithful(s, l.landed, Failing(Thrown(l.message)));
    } else {
      LedgerStays(s, l);
      if s.pc.Busy? && s.pc.stage.Rereading? {
        RereadFaithful(s);
      }
      StageStep(s, l);
      KeepFaithful(s, Step(s, l), l);
    }
  }

  lemma KeepFaithful(s: Sys, s': Sys, l: Label)
    requires Inv(s) && Faithful(s) && s' == Step(s, l) && s'.hist.mismatches == 0
    requires |s'.chain| == |s.chain|
    requires forall k :: 0 <= k < |s.chain| ==>
               s'.chain[k].row == s.chain[k].row && s'.chain[k].message == s.chain[k].message
    requires s'.pc.Busy? && s'.pc.stage.Rereading? ==>
               s'.pc.stage.sig < |s'.chain| && s'.chain[s'.pc.stage.sig].finalized
    ensures Faithful(s')
  {
    forall k | 0 <= k < |s'.chain| && s'.chain[k].row < |s'.t.rows|
      ensures Memo.MemoOf(s'.chain[k].message) == Some(RowMemo(s'.t.rows[s'.chain[k].row]))
    {
      MemoStays(s, l, s.chain[k].row);
    }
  }

  /** On a chain that returns what was sent, no run ever raises MemoMismatchError. */
  lemma {:induction false} NoMismatch(ls: seq<Label>)
    requires HonestRun(ls)
    ensures Faithful(Run(ls)) && Run(ls).hist.mismatches == 0
  {
    if ls != [] {
      var before := ls[..|ls| - 1];
      forall n | 0 <= n < |before|
        ensures Honest(Run(before[..n]), before[n])
      {
        assert before[..n] == ls[..n];
        assert Honest(Run(ls[..n]), ls[n]);
      }
      NoMismatch(before);
      Reachable(before);
      assert Honest(Run(ls[..|ls| - 1]), ls[|ls| - 1]);
      StepFaithful(Run(before), ls[|ls| - 1]);
    }
  }

  // ---------- The history of a row ----------

  predicate Edge(a: ServiceStatus, b: ServiceStatus) {
    a == b || (a == STAGED && b == IN_PROGRESS) || (a == IN_PROGRESS && (b == CONFIRMED || b == FAILED))
  }

  lemma StepEdge(s: Sys, l: Label, i: nat)
    requires Inv(s)
    ensures i < |s.t.rows| ==> i < |Step(s, l).t.rows| && Edge(s.t.rows[i].status, Step(s, l).t.rows[i].status)
    ensures |s.t.rows| <= i < |Step(s, l).t.rows| ==> Step(s, l).t.rows[i].status == STAGED
  {
    if !OfWorker(l) {
      OfficeFrames(s, l);
    }
  }

  /** A history, extended by the status row `i` has now if that is a new one. */
  function Extend(h: seq<ServiceStatus>, rows: seq<ServiceRequest>, i: nat): seq<ServiceStatus> {
    if i < |rows| && (h == [] || h[|h| - 1] != rows[i].status) then h + [rows[i].status] else h
  }

  /** The statuses row `i` has had, in order and without repetition. */
  function Statuses(ls: seq<Label>, i: nat): seq<ServiceStatus> {
    if ls == [] then [] else Extend(Statuses(ls[..|ls| - 1], i), Run(ls).t.rows, i)
  }

  ghost predicate HistoryOf(h: seq<ServiceStatus>, rows: seq<ServiceRequest>, i: nat) {
    && (h <= [STAGED, IN_PROGRESS, CONFIRMED] || h <= [STAGED, IN_PROGRESS, FAILED])
    && (i < |rows| <==> h != [])
    && (h != [] ==> h[|h| - 1] == rows[i].status)
  }

  lemma HistoryGrows(h: seq<ServiceStatus>, rows: seq<ServiceRequest>, rows': seq<ServiceRequest>, i: nat)
    requires HistoryOf(h, rows, i)
    requires i < |rows| ==> i < |rows'| && Edge(rows[i].status, rows'[i].status)
    requires |rows| <= i < |rows'| ==> rows'[i].status == STAGED
    ensures HistoryOf(Extend(h, rows', i), rows', i)
  {
    if h != [] {
      assert |h| == 1 ==> h == [STAGED];
      assert |h| == 2 ==> h == [STAGED, IN_PROGRESS];
    }
  }

  /** A row is STAGED, then IN_PROGRESS, then either CONFIRMED or FAILED, and never goes back. */
  lemma {:induction false} RowHistory(ls: seq<Label>, i: nat)
    ensures HistoryOf(Statuses(ls, i), Run(ls).t.rows, i)
  {
    if ls != [] {
      var before := ls[..|ls| - 1];
      RowHistory(before, i);
      Reachable(before);
      StepEdge(Run(before), ls[|ls| - 1], i);
      HistoryGrows(Statuses(before, i), Run(before).t.rows, Run(ls).t.rows, i);
    }
  }

  // ---------- Audits ----------

  function FailedAudits(audits: seq<AuditLog>, i: nat): nat {
    if audits == [] then 0
    else
      var a := audits[|audits| - 1];
      var last := if a.SERVICE_FAILED? && a.row == i then 1 else 0;
      FailedAudits(audits[..|audits| - 1], i) + last
  }

  function StagedAudits(audits: seq<AuditLog>, i: nat): nat {
    if audits == [] then 0
    else
      var a := audits[|audits| - 1];
      var last := if a.SERVICE_REQUEST_STAGED? && a.row == i then 1 else 0;
      StagedAudits(audits[..|audits| - 1], i) + last
  }

  /** The units credited back for row `i`. */
  function Credits(audits: seq<AuditLog>, i: nat): nat {
    if audits == [] then 0
    else
      var a := audits[|audits| - 1];
      var last := if a.SERVICE_FAILED? && a.row == i && a.quotaRestored then 1 else 0;
      Credits(audits[..|audits| - 1], i) + last
  }

  lemma AuditAppended(audits: seq<AuditLog>, a: AuditLog, i: nat)
    ensures FailedAudits(audits + [a], i)
         == FailedAudits(audits, i) + (if a.SERVICE_FAILED? && a.row == i then 1 else 0)
    ensures StagedAudits(audits + [a], i)
         == StagedAudits(audits, i) + (if a.SERVICE_REQUEST_STAGED? && a.row == i then 1 else 0)
    ensures Credits(audits + [a], i)
         == Credits(audits, i) + (if a.SERVICE_FAILED? && a.row == i && a.quotaRestored then 1 else 0)
  {
    assert (audits + [a])[..|audits|] == audits;
  }

  ghost predicate Audited(t: Tables, i: nat) {
    if i < |t.rows| then
      && FailedAudits(t.audits, i) == (if t.rows[i].status == FAILED then 1 else 0)
      && StagedAudits(t.audits, i) == 1
      && Credits(t.audits, i) <= FailedAudits(t.audits, i)
    else
      FailedAudits(t.audits, i) == StagedAudits(t.audits, i) == Credits(t.audits, i) == 0
  }

  /** The audit log grows by at most one entry a step, and only these entries concern a row. */
  ghost predicate AuditFrame(s: Sys, s': Sys) {
    || (s'.t.audits == s.t.audits && |s'.t.rows| == |s.t.rows|
        && forall i :: 0 <= i < |s.t.rows| ==> (s'.t.rows[i].status == FAILED <==> s.t.rows[i].status == FAILED))
    || ((exists org :: s'.t.audits == s.t.audits + [SERVICE_REQUEST_STAGED(|s.t.rows|, org)])
        && (exists r: ServiceRequest :: r.status == STAGED && s'.t.rows == s.t.rows + [r]))
    || (exists org, sub :: s'.t.audits == s.t.audits + [COMP_GRANT(org, sub)] && s'.t.rows == s.t.rows)
  }

  lemma OfficeAudits(s: Sys, l: Label)
    ensures AuditFrame(s, OfficeStep(s, l))
  {
    var s' := OfficeStep(s, l);
    match l
    case CommitIntake(k, now, draft, sha256) =>
      if s'.t.audits != s.t.audits {
        var org := s.pending[k].org;
        var r := Intake.StagedRow(org, draft, sha256.value);
        assert s'.t.audits == s.t.audits + [SERVICE_REQUEST_STAGED(|s.t.rows|, org)];
        assert r.status == STAGED && s'.t.rows == s.t.rows + [r];
      }
    case CommitGrant(k, id, now) =>
      if s'.t.audits != s.t.audits {
        var p := s.pending[k];
        var sub := if p.existing.Some? then p.existing.value else |s.t.subs|;
        assert s'.t.audits == s.t.audits + [COMP_GRANT(p.org, sub)];
      }
    case _ =>
  }

  lemma FrameAudited(s: Sys, s': Sys, i: nat)
    requires Audited(s.t, i) && AuditFrame(s, s')
    ensures Audited(s'.t, i)
  {
    if s'.t.audits != s.t.audits {
      var a := s'.t.audits[|s.t.audits|];
      assert s'.t.audits == s.t.audits + [a];
      AuditAppended(s.t.audits, a, i);
    }
  }

  lemma ParkAudited(s: Sys, i: nat)
    requires Inv(s) && s.pc.Busy? && s.pc.i < |s.t.rows| && Audited(s.t, i)
    ensures Audited(WorkerStep(s, Park).t, i)
  {
    var s' := WorkerStep(s, Park);
    if s'.t.audits != s.t.audits {
      var a := s'.t.audits[|s.t.audits|];
      assert s'.t.audits == s.t.audits + [a];
      AuditAppended(s.t.audits, a, i);
    }
  }

  lemma OtherWorkAudited(s: Sys, l: Label, i: nat)
    requires Inv(s) && OfWorker(l) && !l.Park? && Audited(s.t, i)
    ensures Audited(Step(s, l).t, i)
  {
    WorkerFrames(s, l);
  }

  lemma StepAudited(s: Sys, l: Label, i: nat)
    requires Inv(s) && Audited(s.t, i)
    ensures Audited(Step(s, l).t, i)
  {
    if !OfWorker(l) {
      OfficeAudits(s, l);
      FrameAudited(s, OfficeStep(s, l), i);
    } else if !l.Park? {
      OtherWorkAudited(s, l, i);
    } else if s.pc.Busy? && s.pc.i < |s.t.rows| {
      ParkAudited(s, i);
    }
  }

  /**
   Every row has one SERVICE_REQUEST_STAGED audit; it is FAILED iff it has exactly one
   SERVICE_FAILED audit; at most one unit is credited for it, and none unless it is FAILED.
   */
  lemma {:induction false} AuditsMatchRows(ls: seq<Label>, i: nat)
    ensures Audited(Run(ls).t, i)
  {
    if ls != [] {
      AuditsMatchRows(ls[..|ls| - 1], i);
      Reachable(ls[..|ls| - 1]);
      StepAudited(Run(ls[..|ls| - 1]), ls[|ls| - 1], i);
    }
  }

  // ---------- Memos ----------

  ghost predicate Identified(rows: seq<ServiceRequest>) {
    && (forall i, j :: 0 <= i < j < |rows| ==> rows[i].id != rows[j].id)
    && (forall i :: 0 <= i < |rows| ==>
          '|' !in rows[i].documentSha256.GetOr("") && '|' !in rows[i].noticeToken.GetOr(""))
  }

  /** The web application changes the requests only by staging a fresh draft. */
  lemma OfficeRows(s: Sys, l: Label)
    ensures var rows := OfficeStep(s, l).t.rows;
            rows == s.t.rows
            || exists org, draft, sha256 :: Intake.Fresh(s.t.rows, draft)
                                       && rows == s.t.rows + [Intake.StagedRow(org, draft, sha256)]
  {
    match l
    case CommitIntake(k, now, draft, sha256) =>
      if OfficeStep(s, l).t.rows != s.t.rows {
        assert OfficeStep(s, l).t.rows == s.t.rows + [Intake.StagedRow(s.pending[k].org, draft, sha256.value)];
      }
    case _ =>
  }

  lemma StagingIdentified(rows: seq<ServiceRequest>, org: OrgId, draft: Intake.Draft, sha256: Intake.Hex)
    requires Identified(rows) && Intake.Fresh(rows, draft)
    ensures Identified(rows + [Intake.StagedRow(org, draft, sha256)])
  {
  }

  lemma StepIdentified(s: Sys, l: Label)
    requires Identified(s.t.rows)
    ensures Identified(Step(s, l).t.rows)
  {
    if OfWorker(l) {
      WorkerFrames(s, l);
    } else {
      OfficeRows(s, l);
      if Step(s, l).t.rows != s.t.rows {
        var org, draft, sha256 :| Intake.Fresh(s.t.rows, draft)
          && Step(s, l).t.rows == s.t.rows + [Intake.StagedRow(org, draft, sha256)];
        StagingIdentified(s.t.rows, org, draft, sha256);
      }
    }
  }

  lemma {:induction false} RunIdentified(ls: seq<Label>)
    ensures Identified(Run(ls).t.rows)
  {
    if ls != [] {
      RunIdentified(ls[..|ls| - 1]);
      StepIdentified(Run(ls[..|ls| - 1]), ls[|ls| - 1]);
    }
  }

  /** No two requests have the same memo, so a proof on the ledger names one request. */
  lemma MemosIdentifyRows(ls: seq<Label>, i: nat, j: nat)
    requires i < j < |Run(ls).t.rows|
    ensures RowMemo(Run(ls).t.rows[i]) != RowMemo(Run(ls).t.rows[j])
  {
    RunIdentified(ls);
    var a, b := Run(ls).t.rows[i], Run(ls).t.rows[j];
    Memo.MemosDiffer(Memo.Fields(a.documentSha256.GetOr(""), a.noticeToken.GetOr(""), a.id),
                     Memo.Fields(b.documentSha256.GetOr(""), b.noticeToken.GetOr(""), b.id));
  }

  /** In every run the memo of a request parses to its digest, its notice token and its id. */
  lemma MemoNamesRequest(ls: seq<Label>, i: nat)
    requires i < |Run(ls).t.rows|
    ensures var r := Run(ls).t.rows[i];
            Memo.ParseMemo(RowMemo(r)) == Some(Memo.Fields(r.documentSha256.GetOr(""), r.noticeToken.GetOr(""), r.id))
  {
    RunIdentified(ls);
    var r := Run(ls).t.rows[i];
    Memo.MemoRoundTrip(Memo.Fields(r.documentSha256.GetOr(""), r.noticeToken.GetOr(""), r.id));
  }

  ghost predicate HasMemo(s: Sys, i: nat, memo: string) {
    i < |s.t.rows| && RowMemo(s.t.rows[i]) == memo
  }

  lemma MemoStep(s: Sys, l: Label, i: nat, memo: string)
    requires HasMemo(s, i, memo)
    ensures HasMemo(Step(s, l), i, memo)
  {
    MemoStays(s, l, i);
  }

  lemma {:induction false} MemoKept(s: Sys, more: seq<Label>, i: nat, memo: string)
    requires HasMemo(s, i, memo)
    ensures HasMemo(RunFrom(s, more), i, memo)
    decreases |more|
  {
    if more != [] {
      MemoKept(s, more[..|more| - 1], i, memo);
      MemoStep(RunFrom(s, more[..|more| - 1]), more[|more| - 1], i, memo);
    }
  }

  /**
   From intake to proof: a request staged with a digest, a notice token and an id has, in every later
   state, the memo made of these three.
   */
  lemma StagedMemo(ls: seq<Label>, k: nat, now: int, draft: Intake.Draft, digest: Intake.Hex, more: seq<Label>)
    requires |Run(ls + [CommitIntake(k, now, draft, Some(digest))]).t.rows| > |Run(ls).t.rows|
    ensures var i, s := |Run(ls).t.rows|, Run(ls + [CommitIntake(k, now, draft, Some(digest))] + more);
            i < |s.t.rows| && RowMemo(s.t.rows[i]) == digest + "|" + draft.noticeToken + "|" + draft.id
  {
    var l := CommitIntake(k, now, draft, Some(digest));
    assert (ls + [l])[..|ls|] == ls;
    RunAppend(INIT, ls + [l], more);
    MemoKept(Run(ls + [l]), more, |Run(ls).t.rows|, digest + "|" + draft.noticeToken + "|" + draft.id);
  }
}
