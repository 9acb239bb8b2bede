/** Intake of a service request as one transaction: lib/intake.ts. */
module Intake {
  import opened Wrappers
  import opened Store
  import Quota

  predicate IsHex(s: string) {
    forall c :: c in s ==> '0' <= c <= '9' || 'a' <= c <= 'f'
  }

  /** Notice tokens and document digests are hex-encoded. */
  type Hex = s: string | IsHex(s) witness ""

  /** The generated parts and the input of a new row. */
  datatype Draft = Draft(id: string, noticeToken: Hex, recipientWallet: string)

  datatype IntakeError = Metering(e: Quota.QuotaError) | StorageFailed | NoOrganization | NotUnique

  /** Neither the primary key nor the unique notice token is taken. */
  predicate Fresh(rows: seq<ServiceRequest>, draft: Draft) {
    forall i :: 0 <= i < |rows| ==> rows[i].id != draft.id && rows[i].noticeToken != Some(draft.noticeToken)
  }

  function StagedRow(org: OrgId, draft: Draft, sha256: Hex): ServiceRequest {
    ServiceRequest(draft.id, org, draft.recipientWallet, Some(draft.noticeToken), Some(sha256), STAGED,
                   None, None, None, None)
  }

  /** A committed intake, and the units its charge wrote over. */
  datatype Intake = Intake(tables: Tables, overwritten: int)

  /** The transaction after `findFirst` read subscription `i` as `seen`; `sha256` is storage's answer. */
  function IntakeAt(t: Tables, org: OrgId, i: nat, seen: Subscription, now: int, draft: Draft, sha256: Option<Hex>)
    : Outcome<Intake, IntakeError>
    requires i < |t.subs|
  {
    match Quota.ChargeAt(t.subs, i, seen, now)
    case Threw(e) => Threw(Metering(e))
    case Ok(charge) =>
      if sha256.None? then Threw(StorageFailed)
      else if org !in t.orgs then Threw(NoOrganization)
      else if !Fresh(t.rows, draft) then Threw(NotUnique)
      else Ok(Intake(t.(subs := charge.subs,
                        rows := t.rows + [StagedRow(org, draft, sha256.value)],
                        audits := t.audits + [SERVICE_REQUEST_STAGED(|t.rows|, org)]),
                     charge.overwritten))
  }

  /** `createServiceRequest` run alone: on an error the tables are as they were. */
  function IntakeTx(t: Tables, org: OrgId, now: int, draft: Draft, sha256: Option<Hex>): Outcome<Intake, IntakeError> {
    var found := FindLatest(t.subs, org, true);
    if found.None? then Threw(Metering(Quota.NoActiveSubscription))
    else IntakeAt(t, org, found.value, t.subs[found.value], now, draft, sha256)
  }

  method CreateServiceRequest(db: Database, org: OrgId, now: int, draft: Draft, sha256: Option<Hex>)
    returns (r: Outcome<nat, IntakeError>)
    modifies db
    ensures match IntakeTx(old(db.Value()), org, now, draft, sha256)
            case Ok(intake) => r == Ok(|old(db.rows)|) && db.Value() == intake.tables
            case Threw(e) => r == Threw(e) && db.Value() == old(db.Value())
  {
    var saved := db.Value();
    var charged := Quota.CheckAndDecrementQuota(db, org, now);
    if charged.Threw? {
      return Threw(Metering(charged.error));
    }
    if sha256.None? {
      db.Restore(saved);
      return Threw(StorageFailed);
    }
    if org !in db.orgs {
      db.Restore(saved);
      return Threw(NoOrganization);
    }
    if !Fresh(db.rows, draft) {
      db.Restore(saved);
      return Threw(NotUnique);
    }
    var created := |db.rows|;
    db.rows := db.rows + [StagedRow(org, draft, sha256.value)];
    db.audits := db.audits + [SERVICE_REQUEST_STAGED(created, org)];
    return Ok(created);
  }

  /**
   An intake succeeds exactly if a unit can be consumed, the document was stored, the organization exists
   and neither key is taken. It then adds, as the last row, a STAGED one with the draft's columns and
   storage's digest and nothing else set, and one audit; the meters are those of the consumption.
   */
  lemma IntakeExact(t: Tables, org: OrgId, now: int, draft: Draft, sha256: Option<Hex>)
    ensures var consumed, r := Quota.Consume(t.subs, org, now), IntakeTx(t, org, now, draft, sha256);
            && (r.Ok? <==> && consumed.Ok? && sha256.Some? && org in t.orgs
                           && forall i :: 0 <= i < |t.rows| ==>
                                t.rows[i].id != draft.id && t.rows[i].noticeToken != Some(draft.noticeToken))
            && (consumed.Threw? ==> r == Threw(Metering(consumed.error)))
            && (consumed.Ok? && sha256.None? ==> r == Threw(StorageFailed))
            && (r.Ok? ==>
                  var t', row := r.value.tables, r.value.tables.rows[|r.value.tables.rows| - 1];
                  && t'.rows == t.rows + [row] && t'.subs == consumed.value.subs
                  && t'.audits == t.audits + [SERVICE_REQUEST_STAGED(|t.rows|, org)]
                  && t'.orgs == t.orgs && t'.events == t.events
                  && row.id == draft.id && row.orgId == org && row.recipientWallet == draft.recipientWallet
                  && row.noticeToken == Some(draft.noticeToken) && row.documentSha256 == sha256
                  && row.status == STAGED && row.txSignature == None && row.slot == None
                  && row.blockTime == None && row.failureReason == None)
  {
  }
}
