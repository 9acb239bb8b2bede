/** Terminal failure of a service request as one transaction: lib/failure.ts. */
module Failure {
  import opened Wrappers
  import opened Store
  import Quota

  const MAX_REASON_LEN: nat := 500

  function Cap(reason: string): string {
    if |reason| > MAX_REASON_LEN then reason[..MAX_REASON_LEN] else reason
  }

  /** The transaction once `restoreQuota` has read which subscription to credit. */
  function FailAt(t: Tables, row: nat, org: OrgId, reason: string, sig: Option<Sig>, credit: Option<nat>): Tables
    requires row < |t.rows| && (credit.Some? ==> credit.value < |t.subs|)
  {
    var (subs, restored) := Quota.CreditAt(t.subs, credit);
    t.(rows := t.rows[row := t.rows[row].(status := FAILED, failureReason := Some(Cap(reason)))],
       subs := subs,
       audits := t.audits + [SERVICE_FAILED(row, org, Cap(reason), restored, sig)])
  }

  /** `failServiceRequest` run alone. `refused` is an error of its last write, which rolls all back. */
  method FailServiceRequest(db: Database, row: nat, org: OrgId, reason: string, sig: Option<Sig>,
      refused: Option<string>)
    returns (r: Outcome<bool, string>)
    requires row < |db.rows|
    modifies db
    ensures r.Ok? <==> refused.None?
    ensures r.Ok? ==> db.Value() == FailAt(old(db.Value()), row, org, reason, sig, FindLatest(old(db.subs), org, true))
    ensures r.Ok? ==> r.value == Quota.CreditAt(old(db.subs), FindLatest(old(db.subs), org, true)).1
    ensures r.Threw? ==> db.Value() == old(db.Value())
  {
    var saved := db.Value();
    var text := Cap(reason);
    db.rows := db.rows[row := db.rows[row].(status := FAILED, failureReason := Some(text))];
    var quotaRestored := Quota.RestoreQuota(db, org);
    if refused.Some? {
      db.Restore(saved);
      return Threw(refused.value);
    }
    db.audits := db.audits + [SERVICE_FAILED(row, org, text, quotaRestored, sig)];
    return Ok(quotaRestored);
  }

  /**
   A failed row differs in status and reason only, the reason is stored unchanged up to 500 characters
   and as its first 500 beyond, the audit says the same, and no other row changes.
   */
  lemma FailExact(t: Tables, row: nat, org: OrgId, reason: string, sig: Option<Sig>, credit: Option<nat>)
    requires row < |t.rows| && (credit.Some? ==> credit.value < |t.subs|)
    ensures var t' := FailAt(t, row, org, reason, sig, credit);
            var text := if |reason| <= 500 then reason else reason[..500];
            var given := credit.Some? && t.subs[credit.value].usageCount > 0;
            && t'.rows == t.rows[row := t.rows[row].(status := FAILED, failureReason := Some(text))]
            && t'.audits == t.audits + [SERVICE_FAILED(row, org, text, given, sig)]
            && t'.subs == (if given then t.subs[credit.value :=
                                           t.subs[credit.value].(usageCount := t.subs[credit.value].usageCount - 1)]
                           else t.subs)
            && t'.orgs == t.orgs && t'.events == t.events
  {
  }
}
