/**
 The relational store: the tables of prisma/schema.prisma that the meter, the intake and the
 delivery worker share. A row is addressed by its position; positions of service requests follow
 `createdAt`. An organization's Clerk id and internal id are one identity. Times are milliseconds.
 */
module Store {
  import opened Wrappers
  import Memo

  type OrgId = string

  /** A transaction signature, as the position of the transaction in the ledger. */
  type Sig = nat

  datatype ServiceStatus = STAGED | IN_PROGRESS | CONFIRMED | FAILED

  datatype ServiceRequest = ServiceRequest(
    id: string,
    orgId: OrgId,
    recipientWallet: string,
    noticeToken: Option<string>,
    documentSha256: Option<string>,
    status: ServiceStatus,
    txSignature: Option<Sig>,
    slot: Option<nat>,
    blockTime: Option<int>,
    failureReason: Option<string>)

  datatype SubscriptionStatus = ACTIVE | CANCELED | PAST_DUE

  datatype Subscription = Subscription(
    id: string,
    orgId: OrgId,
    tierId: string,
    status: SubscriptionStatus,
    periodStart: int,
    periodEnd: int,
    usageCount: int)

  datatype AuditLog =
    | SERVICE_REQUEST_STAGED(row: nat, orgId: OrgId)
    | SERVICE_FAILED(row: nat, orgId: OrgId, reason: string, quotaRestored: bool, txSignature: Option<Sig>)
    | COMP_GRANT(orgId: OrgId, subscription: nat)

  datatype Tables = Tables(
    orgs: set<OrgId>,
    subs: seq<Subscription>,
    rows: seq<ServiceRequest>,
    audits: seq<AuditLog>,
    events: set<string>)

  const EMPTY := Tables({}, [], [], [], {})

  /** The memo rebuilt from a row, with the `?? ""` of the worker. */
  function RowMemo(r: ServiceRequest): string {
    Memo.BuildServiceMemo(Memo.Fields(r.documentSha256.GetOr(""), r.noticeToken.GetOr(""), r.id))
  }

  predicate Claimable(r: ServiceRequest) {
    r.status == STAGED || r.status == IN_PROGRESS
  }

  predicate Terminal(r: ServiceRequest) {
    r.status == CONFIRMED || r.status == FAILED
  }

  /** `findFirst` over subscriptions: the organization's latest period, ACTIVE ones only if asked. */
  predicate Candidate(s: Subscription, org: OrgId, activeOnly: bool) {
    s.orgId == org && (activeOnly ==> s.status == ACTIVE)
  }

  predicate Latest(subs: seq<Subscription>, org: OrgId, activeOnly: bool, i: nat) {
    && i < |subs| && Candidate(subs[i], org, activeOnly)
    && forall j :: 0 <= j < |subs| && Candidate(subs[j], org, activeOnly) ==> subs[j].periodEnd <= subs[i].periodEnd
  }

  function FindLatest(subs: seq<Subscription>, org: OrgId, activeOnly: bool): (r: Option<nat>)
    ensures r.Some? ==> Latest(subs, org, activeOnly, r.value)
    ensures r.None? <==> forall j :: 0 <= j < |subs| ==> !Candidate(subs[j], org, activeOnly)
    ensures r.Some? ==>
              && subs[r.value].orgId == org && (activeOnly ==> subs[r.value].status == ACTIVE)
              && forall j :: 0 <= j < |subs| && subs[j].orgId == org && (activeOnly ==> subs[j].status == ACTIVE) ==>
                   subs[j].periodEnd <= subs[r.value].periodEnd
    ensures r.None? ==> forall j :: 0 <= j < |subs| && subs[j].orgId == org ==> activeOnly && subs[j].status != ACTIVE
  {
    if subs == [] then None
    else
      var n := |subs| - 1;
      var r := FindLatest(subs[..n], org, activeOnly);
      assert forall j :: 0 <= j < n ==> subs[..n][j] == subs[j];
      if !Candidate(subs[n], org, activeOnly) then r
      else if r.Some? && subs[n].periodEnd <= subs[r.value].periodEnd then r
      else Some(n)
  }

  /** The live store. */
  class Database {
    var orgs: set<OrgId>
    var subs: seq<Subscription>
    var rows: seq<ServiceRequest>
    var audits: seq<AuditLog>
    var events: set<string>

    constructor ()
      ensures Value() == EMPTY
    {
      orgs, subs, rows, audits, events := {}, [], [], [], {};
    }

    function Value(): Tables
      reads this
    {
      Tables(orgs, subs, rows, audits, events)
    }

    /** Rolls a failed transaction back. */
    method Restore(saved: Tables)
      modifies this
      ensures Value() == saved
    {
      orgs, subs, rows, audits, events := saved.orgs, saved.subs, saved.rows, saved.audits, saved.events;
    }
  }
}
