/**
 First views of a public notice: `maskIp` and `recordFirstAccess` in lib/noticeAccess.ts with
 `writeFirstViewedAddendum` in lib/certificate.ts. Each call is one transaction: it looks the
 notice up, and if it saw no access row it later tries to insert all three records at once. Other
 transactions may commit in between; the unique `noticeId` columns decide.
 */
module NoticeAccess {
  import opened Wrappers
  import Text

  // ---------- maskIp ----------

  predicate Digits(part: string) {
    part != "" && forall c :: c in part ==> '0' <= c <= '9'
  }

  predicate IsV4(parts: seq<string>) {
    |parts| == 4 && forall i :: 0 <= i < 4 ==> Digits(parts[i])
  }

  /** The parts with an `x` in place of the last one. */
  function MaskLast(parts: seq<string>): seq<string>
    requires parts != []
  {
    parts[|parts| - 1 := "x"]
  }

  function MaskIp(ip: string): string {
    if IsV4(Text.Split(ip, '.')) then Text.Join(MaskLast(Text.Split(ip, '.')), '.')
    else if ':' in ip then Text.Join(MaskLast(Text.Split(ip, ':')), ':')
    else ip
  }

  /** A text with a colon is never taken for an IPv4 address. */
  lemma ColonIsNotV4(ip: string)
    requires ':' in ip
    ensures !IsV4(Text.Split(ip, '.'))
  {
    Text.JoinSplit(ip, '.');
    Text.InJoin(Text.Split(ip, '.'), '.', ':');
  }

  lemma {:induction false} TwoPartsKeepSeparator(parts: seq<string>, c: char)
    requires |parts| > 1
    ensures c in Text.Join(parts, c)
  {
  }

  lemma {:induction false} SplitsInTwo(s: string, c: char)
    requires c in s
    ensures |Text.Split(s, c)| > 1
  {
    if s[0] != c {
      assert s == [s[0]] + s[1..];
      SplitsInTwo(s[1..], c);
    }
  }

  /** Masking a masked address changes nothing. */
  lemma MaskIdempotent(ip: string)
    ensures MaskIp(MaskIp(ip)) == MaskIp(ip)
  {
    var v4 := Text.Split(ip, '.');
    var groups := Text.Split(ip, ':');
    var masked := MaskIp(ip);
    Text.JoinSplit(ip, '.');
    Text.JoinSplit(ip, ':');
    if IsV4(v4) {
      Text.SplitJoin(MaskLast(v4), '.');
      assert 'x' in MaskLast(v4)[3];
      Text.InJoin(MaskLast(v4), '.', ':');
    } else if ':' in ip {
      SplitsInTwo(ip, ':');
      TwoPartsKeepSeparator(MaskLast(groups), ':');
      ColonIsNotV4(masked);
      Text.SplitJoin(MaskLast(groups), ':');
      assert MaskLast(MaskLast(groups)) == MaskLast(groups);
    }
  }

  /** The mask of an IPv4 address does not depend on its last octet. */
  lemma MaskHidesOctet(parts: seq<string>, octet: string)
    requires IsV4(parts) && Digits(octet)
    ensures MaskIp(Text.Join(parts, '.')) == MaskIp(Text.Join(parts[3 := octet], '.'))
    ensures MaskIp(Text.Join(parts, '.')) == Text.Join(MaskLast(parts), '.')
  {
    Text.SplitJoin(parts, '.');
    Text.SplitJoin(parts[3 := octet], '.');
    assert MaskLast(parts[3 := octet]) == MaskLast(parts);
  }

  /** The mask of an address with colons does not depend on its last group. */
  lemma MaskHidesGroup(groups: seq<string>, group: string)
    requires Text.Parts(groups, ':') && |groups| > 1 && ':' !in group
    ensures MaskIp(Text.Join(groups, ':')) == MaskIp(Text.Join(groups[|groups| - 1 := group], ':'))
    ensures MaskIp(Text.Join(groups, ':')) == Text.Join(MaskLast(groups), ':')
  {
    var other := groups[|groups| - 1 := group];
    TwoPartsKeepSeparator(groups, ':');
    TwoPartsKeepSeparator(other, ':');
    ColonIsNotV4(Text.Join(groups, ':'));
    ColonIsNotV4(Text.Join(other, ':'));
    Text.SplitJoin(groups, ':');
    Text.SplitJoin(other, ':');
    assert MaskLast(other) == MaskLast(groups);
  }

  predicate Numeral(part: string) {
    part != "" && forall c :: c in part ==> c in "0123456789"
  }

  lemma NumeralIsDigits(part: string)
    ensures Numeral(part) <==> Digits(part)
  {
    assert forall c: char :: c in "0123456789" <==> '0' <= c <= '9';
  }

  /** The mask of an IPv4 address: three octets as they are, and an x. */
  lemma MaskOfV4(a: string, b: string, c: string, d: string)
    requires Numeral(a) && Numeral(b) && Numeral(c) && Numeral(d)
    ensures MaskIp(a + "." + b + "." + c + "." + d) == a + "." + b + "." + c + ".x"
  {
    var parts := [a, b, c, d];
    NumeralIsDigits(a); NumeralIsDigits(b); NumeralIsDigits(c); NumeralIsDigits(d);
    JoinFour(a, b, c, d);
    JoinFour(a, b, c, "x");
    MaskHidesOctet(parts, d);
    assert MaskLast(parts) == [a, b, c, "x"];
  }

  lemma JoinFour(a: string, b: string, c: string, d: string)
    ensures Text.Join([a, b, c, d], '.') == a + "." + b + "." + c + "." + d
  {
    assert [a, b, c, d][1..] == [b, c, d] && [b, c, d][1..] == [c, d] && [c, d][1..] == [d];
    assert Text.Join([c, d], '.') == c + "." + d;
    assert Text.Join([b, c, d], '.') == b + "." + (c + "." + d);
  }

  lemma {:induction false} JoinLast(groups: seq<string>, last: string)
    requires groups != []
    ensures Text.Join(groups + [last], ':') == Text.Join(groups, ':') + ":" + last
  {
    assert (groups + [last])[1..] == groups[1..] + [last];
    if |groups| > 1 {
      JoinLast(groups[1..], last);
    }
  }

  lemma GroupsAndLast(head: seq<string>, last: string)
    requires head != [] && (forall i :: 0 <= i < |head| ==> ':' !in head[i]) && ':' !in last
    ensures Text.Parts(head + [last], ':') && MaskLast(head + [last]) == head + ["x"]
  {
  }

  lemma MaskOfText(ip: string, masked: string, groups: seq<string>)
    requires Text.Parts(groups, ':') && |groups| > 1
    requires ip == Text.Join(groups, ':') && masked == Text.Join(MaskLast(groups), ':')
    ensures MaskIp(ip) == masked
  {
    MaskHidesGroup(groups, "");
  }

  /** The mask of an address with colons: all groups but the last as they are, and an x. */
  lemma MaskOfGroups(head: seq<string>, last: string)
    requires head != [] && (forall i :: 0 <= i < |head| ==> ':' !in head[i]) && ':' !in last
    ensures MaskIp(Text.Join(head, ':') + ":" + last) == Text.Join(head, ':') + ":" + "x"
  {
    GroupsAndLast(head, last);
    JoinLast(head, last);
    JoinLast(head, "x");
    MaskOfText(Text.Join(head, ':') + ":" + last, Text.Join(head, ':') + ":" + "x", head + [last]);
  }

  /** Any other text is returned as it is. */
  lemma NothingToMask(ip: string)
    requires ':' !in ip
    requires var parts := Text.Split(ip, '.');
             |parts| != 4 || exists i :: 0 <= i < |parts| && !Numeral(parts[i])
    ensures MaskIp(ip) == ip
  {
    var parts := Text.Split(ip, '.');
    if |parts| == 4 {
      var i :| 0 <= i < |parts| && !Numeral(parts[i]);
      NumeralIsDigits(parts[i]);
    }
  }

  // ---------- The tables ----------

  datatype Service = Service(caseCaption: string, ownerEmail: Option<string>)

  datatype Access = Access(ip: string, userAgent: string, accessedAt: int)

  datatype Addendum = Addendum(viewedAt: int, viewerIp: string)

  /** A NOTICE_FIRST_ACCESSED audit row. */
  datatype Audit = Audit(targetId: string, viewerIp: string)

  datatype Tables = Tables(
    services: map<string, Service>,
    access: map<string, Access>,
    addenda: map<string, Addendum>,
    audits: seq<Audit>)

  datatype View = View(noticeId: string, ip: string, userAgent: string)

  datatype FirstAccessResult = FirstAccessResult(
    isFirstAccess: bool, ownerEmail: Option<string>, caseRef: string, maskedIp: string, viewedAt: int)

  function OwnerEmail(t: Tables, noticeId: string): Option<string> {
    if noticeId in t.services then t.services[noticeId].ownerEmail else None
  }

  function CaseRef(t: Tables, noticeId: string): string {
    if noticeId in t.services then t.services[noticeId].caseCaption else ""
  }

  function Recorded(t: Tables, v: View, maskedIp: string, now: int): Tables {
    t.(access := t.access[v.noticeId := Access(v.ip, v.userAgent, now)],
       addenda := t.addenda[v.noticeId := Addendum(now, maskedIp)],
       audits := t.audits + [Audit(v.noticeId, maskedIp)])
  }

  /** The inserts violate no constraint: the notice exists and has neither record yet. */
  predicate Insertable(t: Tables, noticeId: string) {
    noticeId in t.services && noticeId !in t.access && noticeId !in t.addenda
  }

  class NoticeDb {
    var services: map<string, Service>
    var access: map<string, Access>
    var addenda: map<string, Addendum>
    var audits: seq<Audit>

    constructor ()
      ensures Value() == Tables(map[], map[], map[], [])
    {
      services, access, addenda, audits := map[], map[], map[], [];
    }

    function Value(): Tables
      reads this
    {
      Tables(services, access, addenda, audits)
    }

    /** `writeFirstViewedAddendum`: throws if the notice already has an addendum. */
    method WriteFirstViewedAddendum(noticeId: string, viewedAt: int, viewerIp: string) returns (ok: bool)
      modifies this`addenda
      ensures ok == (noticeId !in old(addenda))
      ensures addenda == if ok then old(addenda)[noticeId := Addendum(viewedAt, viewerIp)] else old(addenda)
    {
      ok := noticeId !in addenda;
      if ok {
        addenda := addenda[noticeId := Addendum(viewedAt, viewerIp)];
      }
    }

    /** `recordFirstAccess` run alone; a violated constraint rolls the transaction back and throws. */
    method RecordFirstAccess(v: View, now: int) returns (r: Outcome<FirstAccessResult, string>)
      modifies this
      ensures r.Threw? <==> old(v.noticeId !in access && !Insertable(Value(), v.noticeId))
      ensures r.Ok? ==> r.value.isFirstAccess == old(v.noticeId !in access)
      ensures Value() == if r.Ok? && r.value.isFirstAccess then Recorded(old(Value()), v, MaskIp(v.ip), now)
                         else old(Value())
      ensures r.Ok? ==> v.noticeId in access && r.value.viewedAt == access[v.noticeId].accessedAt
      ensures r.Ok? ==> r.value.maskedIp == MaskIp(v.ip)
      ensures r.Ok? && v.noticeId in services ==> r.value.caseRef == services[v.noticeId].caseCaption
                                                  && r.value.ownerEmail == services[v.noticeId].ownerEmail
      ensures r.Ok? && v.noticeId !in services ==> r.value.caseRef == "" && r.value.ownerEmail == None
      ensures r.Ok? && r.value.isFirstAccess ==>
                && access == old(access)[v.noticeId := Access(v.ip, v.userAgent, now)]
                && addenda == old(addenda)[v.noticeId := Addendum(now, MaskIp(v.ip))]
                && audits == old(audits) + [Audit(v.noticeId, MaskIp(v.ip))]
    {
      var maskedIp := MaskIp(v.ip);
      var ownerEmail, caseRef := OwnerEmail(Value(), v.noticeId), CaseRef(Value(), v.noticeId);
      if v.noticeId in access {
        return Ok(FirstAccessResult(false, ownerEmail, caseRef, maskedIp, access[v.noticeId].accessedAt));
      }
      if v.noticeId !in services {
        return Threw("foreign key constraint failed");
      }
      var before := access;
      access := access[v.noticeId := Access(v.ip, v.userAgent, now)];
      var ok := WriteFirstViewedAddendum(v.noticeId, now, maskedIp);
      if !ok {
        access := before;
        return Threw("unique constraint failed");
      }
      audits := audits + [Audit(v.noticeId, maskedIp)];
      return Ok(FirstAccessResult(true, ownerEmail, caseRef, maskedIp, now));
    }
  }

  // ---------- Interleaved transactions ----------

  /** A transaction that found no access row and has not committed, with what it read and masked. */
  datatype Open = Open(view: View, maskedIp: string, ownerEmail: Option<string>, caseRef: string)

  datatype Returned = Returned(noticeId: string, result: FirstAccessResult)

  /** `conflicts` are the notices of the calls that threw because their inserts violated a constraint. */
  datatype State = State(tables: Tables, open: seq<Open>, returned: seq<Returned>, conflicts: seq<string>)

  datatype Label =
    | Stage(id: string, service: Service)
    | Look(view: View)
    | Commit(k: nat, now: int)
    | Abort(k: nat)

  function Remove(open: seq<Open>, k: nat): seq<Open>
    requires k < |open|
  {
    open[..k] + open[k + 1..]
  }

  /** The look-up: an access row answers the call, none leaves the transaction open. */
  function LookUp(s: State, v: View): State {
    var t := s.tables;
    var email, caseRef := OwnerEmail(t, v.noticeId), CaseRef(t, v.noticeId);
    if v.noticeId in t.access then
      s.(returned := s.returned + [Returned(v.noticeId,
        FirstAccessResult(false, email, caseRef, MaskIp(v.ip), t.access[v.noticeId].accessedAt))])
    else s.(open := s.open + [Open(v, MaskIp(v.ip), email, caseRef)])
  }

  /** The inserts: a violated constraint rolls the transaction back and the call throws. */
  function Insert(s: State, o: Open, now: int): State {
    if !Insertable(s.tables, o.view.noticeId) then s.(conflicts := s.conflicts + [o.view.noticeId])
    else s.(tables := Recorded(s.tables, o.view, o.maskedIp, now),
            returned := s.returned + [Returned(o.view.noticeId,
              FirstAccessResult(true, o.ownerEmail, o.caseRef, o.maskedIp, now))])
  }

  /** One step; a label that is not possible changes nothing. */
  function Step(s: State, l: Label): State {
    match l
    case Stage(id, service) =>
      if id in s.tables.services then s
      else s.(tables := s.tables.(services := s.tables.services[id := service]))
    case Look(v) => LookUp(s, v)
    case Commit(k, now) =>
      if k >= |s.open| then s else Insert(s, s.open[k], now).(open := Remove(s.open, k))
    case Abort(k) =>
      if k >= |s.open| then s else s.(open := Remove(s.open, k))
  }

  const INIT := State(Tables(map[], map[], map[], []), [], [], [])

  function Run(ls: seq<Label>): State {
    if ls == [] then INIT else Step(Run(ls[..|ls| - 1]), ls[|ls| - 1])
  }

  function AuditCount(audits: seq<Audit>, noticeId: string): nat {
    if audits == [] then 0
    else
      var last := if audits[|audits| - 1].targetId == noticeId then 1 else 0;
      AuditCount(audits[..|audits| - 1], noticeId) + last
  }

  /** How many returned calls reported the first access to the notice. */
  function FirstCount(returned: seq<Returned>, noticeId: string): nat {
    if returned == [] then 0
    else
      var r := returned[|returned| - 1];
      var last := if r.noticeId == noticeId && r.result.isFirstAccess then 1 else 0;
      FirstCount(returned[..|returned| - 1], noticeId) + last
  }

  /** The three records of a notice agree, and so do the calls that returned. */
  ghost predicate Consistent(s: State, n: string) {
    var t := s.tables;
    && (n in t.access <==> n in t.addenda)
    && (n in t.access ==> t.addenda[n].viewedAt == t.access[n].accessedAt)
    && AuditCount(t.audits, n) == FirstCount(s.returned, n) == (if n in t.access then 1 else 0)
    && (forall i :: 0 <= i < |s.returned| && s.returned[i].noticeId == n ==>
          n in t.access && s.returned[i].result.viewedAt == t.access[n].accessedAt)
  }

  lemma AuditAppended(audits: seq<Audit>, a: Audit, n: string)
    ensures AuditCount(audits + [a], n) == AuditCount(audits, n) + (if a.targetId == n then 1 else 0)
  {
    assert (audits + [a])[..|audits|] == audits;
  }

  lemma ReturnAppended(returned: seq<Returned>, r: Returned, n: string)
    ensures FirstCount(returned + [r], n)
         == FirstCount(returned, n) + (if r.noticeId == n && r.result.isFirstAccess then 1 else 0)
  {
    assert (returned + [r])[..|returned|] == returned;
  }

  lemma LookUpKeepsConsistent(s: State, v: View, n: string)
    requires Consistent(s, n)
    ensures Consistent(LookUp(s, v), n)
  {
    if v.noticeId in s.tables.access {
      ReturnAppended(s.returned, LookUp(s, v).returned[|s.returned|], n);
    }
  }

  lemma InsertKeepsConsistent(s: State, o: Open, now: int, n: string)
    requires Consistent(s, n)
    ensures Consistent(Insert(s, o, now), n)
  {
    if Insertable(s.tables, o.view.noticeId) {
      var s' := Insert(s, o, now);
      ReturnAppended(s.returned, s'.returned[|s.returned|], n);
      AuditAppended(s.tables.audits, Audit(o.view.noticeId, o.maskedIp), n);
    }
  }

  lemma StepKeepsConsistent(s: State, l: Label, n: string)
    requires Consistent(s, n)
    ensures Consistent(Step(s, l), n)
  {
    match l
    case Stage(_, _) =>
    case Look(v) => LookUpKeepsConsistent(s, v, n);
    case Commit(k, now) =>
      if k < |s.open| {
        InsertKeepsConsistent(s, s.open[k], now, n);
      }
    case Abort(_) =>
  }

  /**
   Under every interleaving of first-view transactions, the access row, the addendum and the audit
   of a notice exist together and at most once, with one view time; exactly one committed call
   reports the first access, and every other returned call reports its time.
   */
  lemma {:induction false} FirstAccessOnce(ls: seq<Label>, n: string)
    ensures Consistent(Run(ls), n)
  {
    if ls != [] {
      FirstAccessOnce(ls[..|ls| - 1], n);
      StepKeepsConsistent(Run(ls[..|ls| - 1]), ls[|ls| - 1], n);
    }
  }

  /**
   In every run, a call that found no access row throws at its inserts exactly when the notice has one
   by then or does not exist; otherwise it returns the first access.
   */
  lemma CommitThrowsIff(ls: seq<Label>, k: nat, now: int)
    requires k < |Run(ls).open|
    ensures var s, s' := Run(ls), Run(ls + [Commit(k, now)]);
            var n := s.open[k].view.noticeId;
            if n in s.tables.access || n !in s.tables.services
            then s'.conflicts == s.conflicts + [n] && s'.returned == s.returned && s'.tables == s.tables
            else s'.conflicts == s.conflicts && n in s'.tables.access
                 && |s'.returned| == |s.returned| + 1 && s'.returned[|s.returned|].result.isFirstAccess
  {
    assert (ls + [Commit(k, now)])[..|ls|] == ls;
    FirstAccessOnce(ls, Run(ls).open[k].view.noticeId);
  }

  /**
   A first view that commits stores the address and the user agent as they are in the access row, and the
   mask of the address everywhere else; nothing else is written, and the call returns what was stored.
   */
  lemma CommitStores(ls: seq<Label>, k: nat, now: int)
    requires k < |Run(ls).open|
    requires var n := Run(ls).open[k].view.noticeId;
             n in Run(ls).tables.services && n !in Run(ls).tables.access
    ensures var s, s', v := Run(ls), Run(ls + [Commit(k, now)]), Run(ls).open[k].view;
            && s'.tables.access == s.tables.access[v.noticeId := Access(v.ip, v.userAgent, now)]
            && s'.tables.addenda == s.tables.addenda[v.noticeId := Addendum(now, MaskIp(v.ip))]
            && s'.tables.audits == s.tables.audits + [Audit(v.noticeId, MaskIp(v.ip))]
            && s'.tables.services == s.tables.services
            && s'.returned == s.returned + [Returned(v.noticeId,
                 FirstAccessResult(true, s.open[k].ownerEmail, s.open[k].caseRef, MaskIp(v.ip), now))]
  {
    assert (ls + [Commit(k, now)])[..|ls|] == ls;
    FirstAccessOnce(ls, Run(ls).open[k].view.noticeId);
    AddressesAreMasked(ls);
  }

  /** A view that finds an access row returns its time; one that does not remembers what it read. */
  lemma LookReturns(s: State, v: View, service: Service)
    requires v.noticeId in s.tables.services && s.tables.services[v.noticeId] == service
    ensures v.noticeId in s.tables.access ==>
              Step(s, Look(v)) == s.(returned := s.returned + [Returned(v.noticeId,
                FirstAccessResult(false, service.ownerEmail, service.caseCaption, MaskIp(v.ip),
                                  s.tables.access[v.noticeId].accessedAt))])
    ensures v.noticeId !in s.tables.access ==>
              Step(s, Look(v)) == s.(open := s.open + [Open(v, MaskIp(v.ip), service.ownerEmail, service.caseCaption)])
  {
  }

  lemma RunSnoc(ls: seq<Label>, l: Label)
    ensures Run(ls + [l]) == Step(Run(ls), l)
  {
    assert (ls + [l])[..|ls|] == ls;
  }

  /**
   A later view does not always return `isFirstAccess: false`: two views that both looked before either
   had inserted end with one first access and one call that throws.
   */
  lemma RacingViewThrows(service: Service, v: View, w: View, now: int, later: int) returns (ls: seq<Label>)
    requires w.noticeId == v.noticeId
    ensures ls == [Stage(v.noticeId, service), Look(v), Look(w), Commit(0, now), Commit(0, later)]
    ensures Run(ls).conflicts == [w.noticeId] && |Run(ls).returned| == 1 && Run(ls).returned[0].result.isFirstAccess
  {
    var n := v.noticeId;
    var looked := [] + [Stage(n, service)] + [Look(v)] + [Look(w)];
    RunSnoc([], Stage(n, service));
    RunSnoc([] + [Stage(n, service)], Look(v));
    RunSnoc([] + [Stage(n, service)] + [Look(v)], Look(w));
    assert Run(looked).open[0].view == v && Run(looked).open[1].view == w && Run(looked).tables.access == map[];
    RunSnoc(looked, Commit(0, now));
    assert Remove(Run(looked).open, 0) == Run(looked).open[1..];
    CommitThrowsIff(looked, 0, now);
    CommitThrowsIff(looked + [Commit(0, now)], 0, later);
    ls := looked + [Commit(0, now)] + [Commit(0, later)];
  }

  /** Every address that leaves the access table is the mask of the recorded one. */
  ghost predicate OnlyMasks(s: State) {
    && (forall i :: 0 <= i < |s.open| ==> s.open[i].maskedIp == MaskIp(s.open[i].view.ip))
    && (forall n :: n in s.tables.access && n in s.tables.addenda ==>
          s.tables.addenda[n].viewerIp == MaskIp(s.tables.access[n].ip))
    && (forall i :: 0 <= i < |s.tables.audits| ==>
          var a := s.tables.audits[i];
          a.targetId in s.tables.access && a.viewerIp == MaskIp(s.tables.access[a.targetId].ip))
  }

  lemma StepKeepsMasks(s: State, l: Label)
    requires OnlyMasks(s)
    ensures OnlyMasks(Step(s, l))
  {
    match l
    case Stage(_, _) =>
    case Look(_) =>
    case Commit(k, _) =>
      if k < |s.open| {
        assert s.open[k].maskedIp == MaskIp(s.open[k].view.ip);
      }
    case Abort(_) =>
  }

  lemma {:induction false} AddressesAreMasked(ls: seq<Label>)
    ensures OnlyMasks(Run(ls))
  {
    if ls != [] {
      AddressesAreMasked(ls[..|ls| - 1]);
      StepKeepsMasks(Run(ls[..|ls| - 1]), ls[|ls| - 1]);
    }
  }

  /** A recorded first view is never changed by anything that happens later. */
  lemma {:induction false} FirstAccessStays(ls: seq<Label>, more: seq<Label>, n: string)
    requires n in Run(ls).tables.access
    ensures SameView(Run(ls).tables, Run(ls + more).tables, n)
    decreases |more|
  {
    if more == [] {
      FirstAccessOnce(ls, n);
      assert ls + more == ls;
    } else {
      var prefix := more[..|more| - 1];
      FirstAccessStays(ls, prefix, n);
      assert (ls + more)[..|ls + more| - 1] == ls + prefix;
      StepKeepsView(Run(ls + prefix), more[|more| - 1], n);
    }
  }

  ghost predicate SameView(t: Tables, t': Tables, n: string) {
    && n in t.access && n in t'.access && t'.access[n] == t.access[n]
    && n in t.addenda && n in t'.addenda && t'.addenda[n] == t.addenda[n]
  }

  lemma StepKeepsView(s: State, l: Label, n: string)
    requires n in s.tables.access && n in s.tables.addenda
    ensures SameView(s.tables, Step(s, l).tables, n)
  {
  }
}
