/**
 The two fixed-window rate limiters: lib/rateLimit.ts, whose map of counters is bounded and evicts
 from its oldest end, and lib/rate-limit.ts, whose map is unbounded.
 */
module RateLimit {
  import opened Wrappers

  const MAX_KEYS: nat := 10_000

  datatype Bucket = Bucket(count: int, resetAt: int)

  /** One call: `rateLimit(key, { limit, windowMs }, now)`. */
  datatype Call = Call(key: string, limit: int, windowMs: int, now: int)

  datatype Answer = Answer(ok: bool, remaining: int, resetAt: int)

  function Max(x: int, y: int): int {
    if x < y then y else x
  }

  function AnswerFor(bucket: Bucket, limit: int): Answer {
    Answer(bucket.count <= limit, Max(0, limit - bucket.count), bucket.resetAt)
  }

  /** The bucket after one more request: restarted if it is missing or elapsed, else counted up. */
  function Hit(existing: Option<Bucket>, c: Call): Bucket {
    if existing.None? || c.now >= existing.value.resetAt then Bucket(1, c.now + c.windowMs)
    else existing.value.(count := existing.value.count + 1)
  }

  // ---------- The JavaScript Map: its entries in insertion order ----------

  datatype Entry = Entry(key: string, bucket: Bucket)

  type Buckets = seq<Entry>

  function Get(m: Buckets, k: string): Option<Bucket> {
    if m == [] then None else if m[0].key == k then Some(m[0].bucket) else Get(m[1..], k)
  }

  /** Map.prototype.set, section 24.1.3.9 of ECMA-262: an existing key keeps its position. */
  function Set(m: Buckets, k: string, b: Bucket): Buckets {
    if m == [] then [Entry(k, b)]
    else if m[0].key == k then [Entry(k, b)] + m[1..]
    else [m[0]] + Set(m[1..], k, b)
  }

  function Delete(m: Buckets, k: string): Buckets {
    if m == [] then [] else if m[0].key == k then m[1..] else [m[0]] + Delete(m[1..], k)
  }

  function Keys(m: Buckets): set<string> {
    set e | e in m :: e.key
  }

  ghost predicate Distinct(m: Buckets) {
    forall i, j :: 0 <= i < j < |m| ==> m[i].key != m[j].key
  }

  /** The keys behind `k` in insertion order. */
  function Newer(m: Buckets, k: string): set<string> {
    if m == [] then {} else if m[0].key == k then Keys(m[1..]) else Newer(m[1..], k)
  }

  // ---------- The bounded limiter ----------

  predicate SameWindow(m: Buckets, c: Call) {
    Get(m, c.key).Some? && c.now < Get(m, c.key).value.resetAt
  }

  /** The map before eviction. */
  function Serve(m: Buckets, c: Call): Buckets {
    Set(if SameWindow(m, c) then Delete(m, c.key) else m, c.key, Hit(Get(m, c.key), c))
  }

  /** What deleting the first key while there are too many leaves. */
  function Evict(m: Buckets): Buckets {
    if |m| > MAX_KEYS then m[|m| - MAX_KEYS..] else m
  }

  function After(m: Buckets, c: Call): Buckets {
    Evict(Serve(m, c))
  }

  function Reply(m: Buckets, c: Call): Answer {
    AnswerFor(Hit(Get(m, c.key), c), c.limit)
  }

  class BoundedLimiter {
    var buckets: Buckets

    ghost predicate Valid()
      reads this
    {
      Distinct(buckets) && |buckets| <= MAX_KEYS
    }

    constructor ()
      ensures Valid() && buckets == []
    {
      buckets := [];
    }

    /** The evicting loop; one key too many takes one round. */
    method EvictOldest()
      requires |buckets| <= MAX_KEYS + 1
      modifies this
      ensures buckets == Evict(old(buckets))
    {
      ghost var rounds := 0;
      while |buckets| > MAX_KEYS
        invariant rounds == 0 ==> buckets == old(buckets)
        invariant rounds > 0 ==> rounds == 1 && |buckets| == MAX_KEYS && buckets == Evict(old(buckets))
        decreases |buckets|
      {
        buckets := buckets[1..];
        rounds := rounds + 1;
      }
      assert rounds <= 1;
    }

    method RateLimit(c: Call) returns (answer: Answer)
      requires Valid()
      modifies this
      ensures Valid()
      ensures buckets == After(old(buckets), c) && answer == Reply(old(buckets), c)
      ensures c.key in Keys(buckets)
      ensures buckets == Serve(old(buckets), c) || buckets == Serve(old(buckets), c)[1..]
    {
      ServeGrowsByOne(buckets, c);
      var existing := Get(buckets, c.key);
      var bucket: Bucket;
      if existing.None? || c.now >= existing.value.resetAt {
        bucket := Bucket(0, c.now + c.windowMs);
      } else {
        buckets := Delete(buckets, c.key);
        bucket := existing.value;
      }
      bucket := bucket.(count := bucket.count + 1);
      buckets := Set(buckets, c.key, bucket);
      assert buckets == Serve(old(buckets), c);
      EvictOldest();
      SurvivesEviction(old(buckets), c);
      return Answer(bucket.count <= c.limit, Max(0, c.limit - bucket.count), bucket.resetAt);
    }
  }

  lemma {:induction false} GetKey(m: Buckets, k: string)
    ensures Get(m, k).Some? <==> k in Keys(m)
  {
    if m != [] {
      assert m == [m[0]] + m[1..];
      GetKey(m[1..], k);
    }
  }

  lemma KeysCons(e: Entry, m: Buckets)
    ensures Keys([e] + m) == {e.key} + Keys(m)
  {
    assert forall x :: x in [e] + m <==> x == e || x in m;
  }

  lemma DistinctCons(e: Entry, m: Buckets)
    ensures Distinct([e] + m) <==> e.key !in Keys(m) && Distinct(m)
  {
    var all := [e] + m;
    assert all[1..] == m;
    if Distinct(all) {
      forall i | 0 <= i < |m|
        ensures m[i].key != e.key
      {
        assert all[0].key != all[i + 1].key;
      }
      forall i, j | 0 <= i < j < |m|
        ensures m[i].key != m[j].key
      {
        assert all[i + 1].key != all[j + 1].key;
      }
    }
  }

  lemma {:induction false} SetFacts(m: Buckets, k: string, b: Bucket)
    requires Distinct(m)
    ensures Distinct(Set(m, k, b)) && Keys(Set(m, k, b)) == Keys(m) + {k}
    ensures |Set(m, k, b)| == |m| + (if k in Keys(m) then 0 else 1)
    ensures k !in Keys(m) ==> Set(m, k, b) == m + [Entry(k, b)]
    ensures forall x :: Get(Set(m, k, b), x) == if x == k then Some(b) else Get(m, x)
  {
    if m == [] {
      KeysCons(Entry(k, b), []);
    } else {
      assert m == [m[0]] + m[1..];
      DistinctCons(m[0], m[1..]);
      KeysCons(m[0], m[1..]);
      if m[0].key == k {
        DistinctCons(Entry(k, b), m[1..]);
        KeysCons(Entry(k, b), m[1..]);
      } else {
        SetFacts(m[1..], k, b);
        DistinctCons(m[0], Set(m[1..], k, b));
        KeysCons(m[0], Set(m[1..], k, b));
      }
    }
  }

  lemma {:induction false} DeleteFacts(m: Buckets, k: string)
    requires Distinct(m)
    ensures Distinct(Delete(m, k)) && Keys(Delete(m, k)) == Keys(m) - {k}
    ensures |Delete(m, k)| == |m| - (if k in Keys(m) then 1 else 0)
    ensures forall x :: x != k ==> Get(Delete(m, k), x) == Get(m, x)
    ensures forall x :: x != k ==> Newer(Delete(m, k), x) <= Newer(m, x)
  {
    if m != [] {
      assert m == [m[0]] + m[1..];
      DistinctCons(m[0], m[1..]);
      KeysCons(m[0], m[1..]);
      DeleteFacts(m[1..], k);
      if m[0].key != k {
        DistinctCons(m[0], Delete(m[1..], k));
        KeysCons(m[0], Delete(m[1..], k));
      } else {
        forall x | x != k
          ensures Newer(Delete(m, k), x) <= Newer(m, x)
        {
          assert Newer(m, x) == Newer(m[1..], x);
        }
      }
    }
  }

  lemma ServeKeepsDistinct(m: Buckets, c: Call)
    requires Distinct(m)
    ensures Distinct(Serve(m, c)) && Keys(Serve(m, c)) == Keys(m) + {c.key}
    ensures |m| <= |Serve(m, c)| <= |m| + 1
    ensures forall x :: Get(Serve(m, c), x) == if x == c.key then Some(Hit(Get(m, x), c)) else Get(m, x)
  {
    GetKey(m, c.key);
    DeleteFacts(m, c.key);
    SetFacts(m, c.key, Hit(Get(m, c.key), c));
    SetFacts(Delete(m, c.key), c.key, Hit(Get(m, c.key), c));
  }

  lemma ServeGrowsByOne(m: Buckets, c: Call)
    requires Distinct(m)
    ensures |Serve(m, c)| <= |m| + 1
  {
    ServeKeepsDistinct(m, c);
  }

  /** The map grows only by a new entry at its newest end. */
  lemma ServeAppends(m: Buckets, c: Call)
    requires Distinct(m) && |Serve(m, c)| > |m|
    ensures Serve(m, c) == m + [Entry(c.key, Hit(Get(m, c.key), c))]
  {
    GetKey(m, c.key);
    if c.key in Keys(m) {
      DeleteFacts(m, c.key);
      SetFacts(Delete(m, c.key), c.key, Hit(Get(m, c.key), c));
    }
    SetFacts(m, c.key, Hit(Get(m, c.key), c));
  }

  lemma Uncons(m: Buckets)
    requires Distinct(m) && m != []
    ensures Distinct(m[1..]) && Keys(m) == {m[0].key} + Keys(m[1..]) && m[0].key !in Keys(m[1..])
  {
    assert m == [m[0]] + m[1..];
    DistinctCons(m[0], m[1..]);
    KeysCons(m[0], m[1..]);
  }

  /** The key just served is never the one evicted. */
  lemma SurvivesEviction(m: Buckets, c: Call)
    requires Distinct(m) && |m| <= MAX_KEYS
    ensures Distinct(After(m, c)) && |After(m, c)| <= MAX_KEYS
    ensures c.key in Keys(After(m, c))
    ensures After(m, c) == Serve(m, c) || (After(m, c) == Serve(m, c)[1..] && |m| == MAX_KEYS)
  {
    ServeKeepsDistinct(m, c);
    if |Serve(m, c)| > MAX_KEYS {
      ServeAppends(m, c);
      Uncons(Serve(m, c));
      assert Serve(m, c)[1..][|m| - 1].key == c.key;
    }
  }

  // ---------- Runs ----------

  /** The map after the calls `cs`, from an empty one. */
  function Run(cs: seq<Call>): Buckets {
    if cs == [] then [] else After(Run(cs[..|cs| - 1]), cs[|cs| - 1])
  }

  lemma {:induction false} RunIsValid(cs: seq<Call>)
    ensures Distinct(Run(cs)) && |Run(cs)| <= 10_000
  {
    if cs != [] {
      RunIsValid(cs[..|cs| - 1]);
      SurvivesEviction(Run(cs[..|cs| - 1]), cs[|cs| - 1]);
    }
  }

  function KeysOf(cs: seq<Call>): set<string> {
    set c | c in cs :: c.key
  }

  /** How many of the calls came up to and including the last that put `k` at the newest end. */
  function PlacedAt(cs: seq<Call>, k: string): (n: nat)
    ensures n <= |cs|
  {
    if cs == [] then 0
    else
      var prefix, c := cs[..|cs| - 1], cs[|cs| - 1];
      if c.key == k && (k !in Keys(Run(prefix)) || SameWindow(Run(prefix), c)) then |cs|
      else PlacedAt(prefix, k)
  }

  /** The other keys requested since `k` was last inserted or moved to the newest end. */
  function RequestedSince(cs: seq<Call>, k: string): set<string> {
    KeysOf(cs[PlacedAt(cs, k)..]) - {k}
  }

  lemma KeysOfAppend(cs: seq<Call>, n: nat)
    requires n < |cs|
    ensures KeysOf(cs[n..]) == KeysOf(cs[..|cs| - 1][n..]) + {cs[|cs| - 1].key}
  {
    var prefix := cs[..|cs| - 1];
    assert cs[n..] == prefix[n..] + [cs[|cs| - 1]];
    assert forall c :: c in cs[n..] <==> c in prefix[n..] || c == cs[|cs| - 1];
  }

  lemma {:induction false} NewerAppend(m: Buckets, e: Entry, k: string)
    requires e.key !in Keys(m)
    ensures k in Keys(m) ==> Newer(m + [e], k) == Newer(m, k) + {e.key}
    ensures k !in Keys(m) ==> Newer(m + [e], k) == {}
  {
    if m == [] {
      assert m + [e] == [e];
    } else {
      assert m == [m[0]] + m[1..];
      KeysCons(m[0], m[1..]);
      assert (m + [e])[1..] == m[1..] + [e];
      NewerAppend(m[1..], e, k);
      assert forall x :: x in m[1..] + [e] <==> x in m[1..] || x == e;
    }
  }

  lemma {:induction false} NewerSet(m: Buckets, k: string, b: Bucket, x: string)
    requires Distinct(m) && k in Keys(m)
    ensures Newer(Set(m, k, b), x) == Newer(m, x)
  {
    assert m == [m[0]] + m[1..];
    KeysCons(m[0], m[1..]);
    DistinctCons(m[0], m[1..]);
    if m[0].key != k {
      NewerSet(m[1..], k, b, x);
      SetFacts(m[1..], k, b);
    }
  }

  /** Before eviction, every key behind `k` was requested since `k` was last placed. */
  lemma ServedNewer(cs: seq<Call>, k: string)
    requires cs != [] && k in Keys(Serve(Run(cs[..|cs| - 1]), cs[|cs| - 1]))
    requires var prefix := cs[..|cs| - 1];
             k in Keys(Run(prefix)) ==> Newer(Run(prefix), k) <= KeysOf(prefix[PlacedAt(prefix, k)..])
    ensures Newer(Serve(Run(cs[..|cs| - 1]), cs[|cs| - 1]), k) <= KeysOf(cs[PlacedAt(cs, k)..])
  {
    var prefix, c := cs[..|cs| - 1], cs[|cs| - 1];
    var m := Run(prefix);
    RunIsValid(prefix);
    GetKey(m, c.key);
    ServeKeepsDistinct(m, c);
    var bucket := Hit(Get(m, c.key), c);
    if PlacedAt(cs, k) < |cs| {
      KeysOfAppend(cs, PlacedAt(cs, k));
    }
    if SameWindow(m, c) {
      DeleteFacts(m, c.key);
      SetFacts(Delete(m, c.key), c.key, bucket);
      NewerAppend(Delete(m, c.key), Entry(c.key, bucket), k);
    } else if c.key in Keys(m) {
      NewerSet(m, c.key, bucket, k);
    } else {
      SetFacts(m, c.key, bucket);
      NewerAppend(m, Entry(c.key, bucket), k);
    }
  }

  lemma {:induction false} NewerWereRequested(cs: seq<Call>, k: string)
    requires k in Keys(Run(cs))
    ensures Newer(Run(cs), k) <= KeysOf(cs[PlacedAt(cs, k)..])
  {
    if cs != [] {
      var prefix, c := cs[..|cs| - 1], cs[|cs| - 1];
      var served := Serve(Run(prefix), c);
      RunIsValid(prefix);
      if k in Keys(Run(prefix)) {
        NewerWereRequested(prefix, k);
      }
      SurvivesEviction(Run(prefix), c);
      ServeKeepsDistinct(Run(prefix), c);
      assert k in Keys(served);
      ServedNewer(cs, k);
      if Run(cs) == served[1..] {
        Uncons(served);
      }
    }
  }

  lemma {:induction false} DistinctCount(m: Buckets)
    requires Distinct(m)
    ensures |Keys(m)| == |m|
  {
    if m != [] {
      assert m == [m[0]] + m[1..];
      DistinctCons(m[0], m[1..]);
      KeysCons(m[0], m[1..]);
      DistinctCount(m[1..]);
    }
  }

  /** `k` had a bucket before the last of the calls and has none after it. */
  ghost predicate EvictedByLast(cs: seq<Call>, k: string) {
    cs != [] && k in Keys(Run(cs[..|cs| - 1])) && k !in Keys(Run(cs))
  }

  lemma {:induction false} SubsetCount(a: set<string>, b: set<string>)
    requires a <= b
    ensures |a| <= |b|
  {
    if a != {} {
      var x :| x in a;
      SubsetCount(a - {x}, b - {x});
    }
  }

  /**
   A key is evicted only after 10,000 distinct other keys have been requested since it was last
   inserted or moved to the newest end.
   */
  lemma EvictionNeedsPressure(cs: seq<Call>, k: string)
    requires EvictedByLast(cs, k)
    ensures |RequestedSince(cs, k)| >= 10_000
  {
    var prefix, c := cs[..|cs| - 1], cs[|cs| - 1];
    var served := Serve(Run(prefix), c);
    RunIsValid(prefix);
    SurvivesEviction(Run(prefix), c);
    ServeKeepsDistinct(Run(prefix), c);
    assert k in Keys(served);
    NewerWereRequested(prefix, k);
    ServedNewer(cs, k);
    Uncons(served);
    DistinctCount(served[1..]);
    assert served[0].key == k;
    SubsetCount(Keys(served[1..]), RequestedSince(cs, k));
  }

  // ---------- Least recently used? ----------

  /** How many of the calls came up to and including the last request of `k`. */
  function LastAt(cs: seq<Call>, k: string): (n: nat)
    ensures n <= |cs|
  {
    if cs == [] then 0
    else if cs[|cs| - 1].key == k then |cs|
    else LastAt(cs[..|cs| - 1], k)
  }

  function Placed(cs: seq<Call>): string -> nat {
    k => PlacedAt(cs, k)
  }

  function Last(cs: seq<Call>): string -> nat {
    k => LastAt(cs, k)
  }

  /** The entries stand in strictly increasing order of `at`. */
  ghost predicate Ordered(m: Buckets, at: string -> nat) {
    forall i, j :: 0 <= i < j < |m| ==> at(m[i].key) < at(m[j].key)
  }

  lemma {:induction false} SetKeepsKeys(m: Buckets, k: string, b: Bucket)
    requires k in Keys(m)
    ensures |Set(m, k, b)| == |m| && forall i :: 0 <= i < |m| ==> Set(m, k, b)[i].key == m[i].key
  {
    assert m == [m[0]] + m[1..];
    KeysCons(m[0], m[1..]);
    if m[0].key != k {
      SetKeepsKeys(m[1..], k, b);
    }
  }

  /** Deleting a key leaves the others in their order. */
  lemma {:induction false} DeleteKeepsOrder(m: Buckets, k: string, at: string -> nat)
    requires Ordered(m, at)
    ensures Ordered(Delete(m, k), at)
    ensures forall e :: e in Delete(m, k) ==> e in m
  {
    if m != [] && m[0].key != k {
      var rest := Delete(m[1..], k);
      DeleteKeepsOrder(m[1..], k, at);
      forall j | 0 <= j < |rest|
        ensures at(m[0].key) < at(rest[j].key)
      {
        assert rest[j] in m[1..];
      }
    }
  }

  lemma AppendKeepsOrder(m: Buckets, e: Entry, at: string -> nat, at': string -> nat)
    requires Ordered(m, at)
    requires forall x :: x in Keys(m) ==> at'(x) == at(x) < at'(e.key)
    ensures Ordered(m + [e], at')
  {
    forall i, j | 0 <= i < j < |m| + 1
      ensures at'((m + [e])[i].key) < at'((m + [e])[j].key)
    {
      assert m[i].key in Keys(m);
      assert j < |m| ==> m[j].key in Keys(m);
    }
  }

  /** The call restarts an elapsed window, which leaves its key where it is. */
  predicate Restarting(m: Buckets, c: Call) {
    Get(m, c.key).Some? && c.now >= Get(m, c.key).value.resetAt
  }

  /** A call that does not restart a window puts its key at the newest end, behind the others. */
  lemma ServePlacesNewest(m: Buckets, c: Call)
    requires Distinct(m) && !Restarting(m, c)
    ensures Serve(m, c) == Delete(m, c.key) + [Entry(c.key, Hit(Get(m, c.key), c))]
    ensures Keys(Delete(m, c.key)) == Keys(m) - {c.key}
  {
    GetKey(m, c.key);
    DeleteFacts(m, c.key);
    SetFacts(Delete(m, c.key), c.key, Hit(Get(m, c.key), c));
    if c.key !in Keys(m) {
      SetFacts(m, c.key, Hit(Get(m, c.key), c));
      DeleteAbsent(m, c.key);
    }
  }

  lemma {:induction false} DeleteAbsent(m: Buckets, k: string)
    requires k !in Keys(m)
    ensures Delete(m, k) == m
  {
    if m != [] {
      assert m == [m[0]] + m[1..];
      KeysCons(m[0], m[1..]);
      DeleteAbsent(m[1..], k);
    }
  }

  lemma TailKeepsOrder(m: Buckets, at: string -> nat)
    requires Ordered(m, at)
    ensures Ordered(Evict(m), at)
  {
  }

  /** Before eviction the entries stand in the order in which their keys were last placed. */
  lemma ServedInOrder(cs: seq<Call>)
    requires cs != [] && Ordered(Run(cs[..|cs| - 1]), Placed(cs[..|cs| - 1]))
    ensures Ordered(Serve(Run(cs[..|cs| - 1]), cs[|cs| - 1]), Placed(cs))
  {
    var prefix, c := cs[..|cs| - 1], cs[|cs| - 1];
    var m := Run(prefix);
    RunIsValid(prefix);
    GetKey(m, c.key);
    if Restarting(m, c) {
      SetKeepsKeys(m, c.key, Hit(Get(m, c.key), c));
    } else {
      ServePlacesNewest(m, c);
      DeleteKeepsOrder(m, c.key, Placed(prefix));
      AppendKeepsOrder(Delete(m, c.key), Entry(c.key, Hit(Get(m, c.key), c)), Placed(prefix), Placed(cs));
    }
  }

  /** The map is ordered by when each key was last inserted or moved to the newest end. */
  lemma {:induction false} OrderedByPlacement(cs: seq<Call>)
    ensures Ordered(Run(cs), Placed(cs))
  {
    if cs != [] {
      OrderedByPlacement(cs[..|cs| - 1]);
      ServedInOrder(cs);
      TailKeepsOrder(Serve(Run(cs[..|cs| - 1]), cs[|cs| - 1]), Placed(cs));
    }
  }

  lemma InKeys(m: Buckets, k: string) returns (i: nat)
    requires k in Keys(m)
    ensures i < |m| && m[i].key == k
  {
    var e :| e in m && e.key == k;
    i :| 0 <= i < |m| && m[i] == e;
  }

  /** The evicted key is the one that was placed longest ago. */
  lemma EvictedIsLeastPlaced(cs: seq<Call>, k: string)
    requires EvictedByLast(cs, k)
    ensures forall x :: x in Keys(Run(cs)) ==> PlacedAt(cs, k) < PlacedAt(cs, x)
  {
    var prefix := cs[..|cs| - 1];
    var served := Serve(Run(prefix), cs[|cs| - 1]);
    OrderedByPlacement(prefix);
    ServedInOrder(cs);
    EvictsFirst(cs, k);
    forall x | x in Keys(Run(cs))
      ensures PlacedAt(cs, k) < PlacedAt(cs, x)
    {
      var i := InKeys(Run(cs), x);
      assert served[i + 1] == Run(cs)[i];
    }
  }

  /** What is evicted is the first entry, and it alone. */
  lemma EvictsFirst(cs: seq<Call>, k: string)
    requires EvictedByLast(cs, k)
    ensures var served := Serve(Run(cs[..|cs| - 1]), cs[|cs| - 1]);
            served != [] && served[0].key == k && Run(cs) == served[1..] && cs[|cs| - 1].key != k
  {
    var prefix, c := cs[..|cs| - 1], cs[|cs| - 1];
    var served := Serve(Run(prefix), c);
    RunIsValid(prefix);
    SurvivesEviction(Run(prefix), c);
    ServeKeepsDistinct(Run(prefix), c);
    assert k in Keys(served);
    Uncons(served);
  }

  lemma {:induction false} PlacedBeforeLast(cs: seq<Call>, k: string)
    ensures PlacedAt(cs, k) <= LastAt(cs, k)
  {
    if cs != [] {
      PlacedBeforeLast(cs[..|cs| - 1], k);
    }
  }

  /** Every key in the map was requested after `k` was. */
  ghost predicate LeastRecent(cs: seq<Call>, k: string) {
    forall x :: x in Keys(Run(cs)) ==> LastAt(cs, k) < LastAt(cs, x)
  }

  /** A key evicted without a restart of its window since it was placed is the least recently requested one. */
  lemma UnrestartedIsLeastRecent(cs: seq<Call>, k: string)
    requires EvictedByLast(cs, k) && LastAt(cs, k) == PlacedAt(cs, k)
    ensures LeastRecent(cs, k)
  {
    EvictedIsLeastPlaced(cs, k);
    forall x
      ensures PlacedAt(cs, x) <= LastAt(cs, x)
    {
      PlacedBeforeLast(cs, x);
    }
  }

  /** The map is in the order of an LRU: by last request. */
  ghost predicate LruOrdered(cs: seq<Call>) {
    Ordered(Run(cs), Last(cs))
  }

  /** The call restarts the window of a key that is not the newest. */
  predicate Stray(m: Buckets, c: Call) {
    Restarting(m, c) && m != [] && m[|m| - 1].key != c.key
  }

  /** One call keeps the order of an LRU exactly when it does not restart the window of a key that is not the newest. */
  lemma LruStepIff(cs: seq<Call>)
    requires cs != [] && LruOrdered(cs[..|cs| - 1])
    ensures LruOrdered(cs) <==> !Stray(Run(cs[..|cs| - 1]), cs[|cs| - 1])
  {
    var prefix, c := cs[..|cs| - 1], cs[|cs| - 1];
    var m := Run(prefix);
    var bucket := Hit(Get(m, c.key), c);
    RunIsValid(prefix);
    GetKey(m, c.key);
    if Restarting(m, c) {
      SetKeepsKeys(m, c.key, bucket);
      var p := InKeys(m, c.key);
      assert Run(cs) == Set(m, c.key, bucket);
      RestartOrder(m, Run(cs), c.key, p, Last(prefix), Last(cs));
    } else {
      ServePlacesNewest(m, c);
      DeleteKeepsOrder(m, c.key, Last(prefix));
      AppendKeepsOrder(Delete(m, c.key), Entry(c.key, bucket), Last(prefix), Last(cs));
      TailKeepsOrder(Serve(m, c), Last(cs));
    }
  }

  /** A key in place `p` gets the largest number of all: the order survives iff `p` is the last place. */
  lemma RestartOrder(m: Buckets, m': Buckets, k: string, p: nat, at: string -> nat, at': string -> nat)
    requires Distinct(m) && Ordered(m, at) && p < |m| && m[p].key == k
    requires |m'| == |m| && forall i :: 0 <= i < |m| ==> m'[i].key == m[i].key
    requires forall x :: x != k ==> at'(x) == at(x) < at'(k)
    ensures Ordered(m', at') <==> p == |m| - 1
    ensures p == |m| - 1 <==> m[|m| - 1].key == k
  {
    if p < |m| - 1 {
      assert at'(m'[p].key) > at'(m'[|m| - 1].key);
    }
  }

  ghost predicate NeverStrays(cs: seq<Call>) {
    forall n :: 0 <= n < |cs| ==> !Stray(Run(cs[..n]), cs[n])
  }

  /** As long as no such call is made the limiter is an LRU: whatever it evicts is least recently requested. */
  lemma {:induction false} LruWithoutStrays(cs: seq<Call>, k: string)
    requires NeverStrays(cs)
    ensures LruOrdered(cs)
    ensures EvictedByLast(cs, k) ==> LeastRecent(cs, k)
  {
    if cs != [] {
      var prefix := cs[..|cs| - 1];
      forall n | 0 <= n < |prefix|
        ensures !Stray(Run(prefix[..n]), prefix[n])
      {
        assert prefix[..n] == cs[..n];
      }
      LruWithoutStrays(prefix, k);
      assert cs[..|cs| - 1] == prefix && !Stray(Run(prefix), cs[|cs| - 1]);
      LruStepIff(cs);
      if EvictedByLast(cs, k) {
        LruEviction(cs, k);
      }
    }
  }

  ghost predicate AlwaysLruOrdered(cs: seq<Call>) {
    forall n :: 0 <= n <= |cs| ==> LruOrdered(cs[..n])
  }

  /** Between two states in the order of last request there is no restart of a key that is not the newest. */
  lemma OrderedStepIsNoStray(cs: seq<Call>, n: nat)
    requires AlwaysLruOrdered(cs) && n < |cs|
    ensures !Stray(Run(cs[..n]), cs[n])
  {
    var longer := cs[..n + 1];
    assert longer[..|longer| - 1] == cs[..n] && longer[|longer| - 1] == cs[n];
    assert LruOrdered(cs[..n]) && LruOrdered(longer);
    LruStepIff(longer);
  }

  /**
   Over whole runs: the map stays in the order of last request exactly if no call restarts the window of
   a key that is not the newest.
   */
  lemma LruRunIff(cs: seq<Call>)
    ensures AlwaysLruOrdered(cs) <==> NeverStrays(cs)
  {
    if NeverStrays(cs) {
      forall n | 0 <= n <= |cs|
        ensures LruOrdered(cs[..n])
      {
        PrefixNeverStrays(cs, n);
        LruWithoutStrays(cs[..n], "");
      }
    }
    if AlwaysLruOrdered(cs) {
      forall n | 0 <= n < |cs|
        ensures !Stray(Run(cs[..n]), cs[n])
      {
        OrderedStepIsNoStray(cs, n);
      }
    }
  }

  lemma PrefixNeverStrays(cs: seq<Call>, n: nat)
    requires NeverStrays(cs) && n <= |cs|
    ensures NeverStrays(cs[..n])
  {
    forall m | 0 <= m < n
      ensures !Stray(Run(cs[..n][..m]), cs[..n][m])
    {
      assert cs[..n][..m] == cs[..m];
    }
  }

  /** From a map in LRU order, the evicted key is the least recently requested. */
  lemma LruEviction(cs: seq<Call>, k: string)
    requires EvictedByLast(cs, k) && LruOrdered(cs[..|cs| - 1])
    ensures LeastRecent(cs, k)
  {
    var prefix, c := cs[..|cs| - 1], cs[|cs| - 1];
    var m := Run(prefix);
    EvictsFirst(cs, k);
    RunIsValid(prefix);
    GrowsAtEviction(m, c);
    forall x | x in Keys(Run(cs))
      ensures LastAt(cs, k) < LastAt(cs, x)
    {
      var i := InKeys(Run(cs), x);
      if i + 1 < |m| {
        assert m[i + 1].key == x && m[0].key == k;
        assert Last(prefix)(m[0].key) < Last(prefix)(m[i + 1].key);
      }
    }
  }

  lemma GrowsAtEviction(m: Buckets, c: Call)
    requires Distinct(m) && |m| <= MAX_KEYS && After(m, c) != Serve(m, c)
    ensures Serve(m, c) == m + [Entry(c.key, Hit(Get(m, c.key), c))]
  {
    ServeKeepsDistinct(m, c);
    ServeAppends(m, c);
  }

  // ---------- A run that evicts the key requested last ----------

  /** A key of its own for every number. */
  function KeyNo(i: nat): string {
    seq(i, _ => 'k')
  }

  /** The first requests of `n` keys. */
  function Fill(n: nat, limit: int, windowMs: int, start: int): (cs: seq<Call>)
    ensures |cs| == n
  {
    if n == 0 then [] else Fill(n - 1, limit, windowMs, start) + [Call(KeyNo(n - 1), limit, windowMs, start)]
  }

  lemma FirstServe(m: Buckets, c: Call)
    requires Distinct(m) && c.key !in Keys(m) && |m| < MAX_KEYS
    ensures After(m, c) == m + [Entry(c.key, Bucket(1, c.now + c.windowMs))]
  {
    GetKey(m, c.key);
    SetFacts(m, c.key, Hit(None, c));
  }

  /** The first request of a key appends an entry as long as there is room. */
  lemma FirstRequest(before: seq<Call>, c: Call)
    requires c.key !in Keys(Run(before)) && |Run(before)| < MAX_KEYS
    ensures Run(before + [c]) == Run(before) + [Entry(c.key, Bucket(1, c.now + c.windowMs))]
  {
    assert (before + [c])[..|before|] == before;
    RunIsValid(before);
    FirstServe(Run(before), c);
  }

  ghost predicate Numbered(m: Buckets, resetAt: int) {
    forall i :: 0 <= i < |m| ==> m[i] == Entry(KeyNo(i), Bucket(1, resetAt))
  }

  lemma NextNumber(m: Buckets, resetAt: int)
    requires Numbered(m, resetAt)
    ensures KeyNo(|m|) !in Keys(m)
    ensures Numbered(m + [Entry(KeyNo(|m|), Bucket(1, resetAt))], resetAt)
  {
    forall i | 0 <= i < |m|
      ensures m[i].key != KeyNo(|m|)
    {
      assert |m[i].key| == i;
    }
  }

  lemma FillNext(before: seq<Call>, c: Call, resetAt: int)
    requires Numbered(Run(before), resetAt) && |Run(before)| < MAX_KEYS
    requires c.key == KeyNo(|Run(before)|) && c.now + c.windowMs == resetAt
    ensures Numbered(Run(before + [c]), resetAt) && |Run(before + [c])| == |Run(before)| + 1
  {
    NextNumber(Run(before), resetAt);
    FirstRequest(before, c);
  }

  lemma {:induction false} Filled(n: nat, limit: int, windowMs: int, start: int)
    requires n <= MAX_KEYS
    ensures |Run(Fill(n, limit, windowMs, start))| == n
    ensures Numbered(Run(Fill(n, limit, windowMs, start)), start + windowMs)
  {
    if n == 0 {
      assert Run([]) == [];
    } else {
      Filled(n - 1, limit, windowMs, start);
      FillNext(Fill(n - 1, limit, windowMs, start), Call(KeyNo(n - 1), limit, windowMs, start), start + windowMs);
    }
  }

  /**
   The run that refutes the LRU: it fills the map, restarts the window of the oldest key and inserts a
   new one. The restarted key, requested later than every other, is evicted.
   */
  lemma EvictsMostRecent(n: nat, limit: int, windowMs: int, start: int, later: int) returns (cs: seq<Call>)
    requires n == 10_000 && later >= start + windowMs
    ensures |cs| == n + 2 && EvictedByLast(cs, KeyNo(0)) && cs[n].key == KeyNo(0)
    ensures forall x :: x in Keys(Run(cs)) && x != cs[n + 1].key ==> LastAt(cs, x) < LastAt(cs, KeyNo(0))
  {
    var fill := Fill(n, limit, windowMs, start);
    var restart, insert := Call(KeyNo(0), limit, windowMs, later), Call(KeyNo(n), limit, windowMs, later);
    cs := fill + [restart] + [insert];
    var restarted := fill + [restart];
    assert cs[..n + 1] == restarted && restarted[..n] == fill;
    Filled(n, limit, windowMs, start);
    NextNumber(Run(fill), start + windowMs);
    assert Run(fill)[0] == Entry(KeyNo(0), Bucket(1, start + windowMs));
    RestartOldest(fill, restart);
    SameKeys(Run(fill), Run(restarted));
    InsertEvicts(restarted, insert);
  }

  lemma SameKeys(m: Buckets, m': Buckets)
    requires |m| == |m'| && forall i :: 0 <= i < |m| ==> m'[i].key == m[i].key
    ensures Keys(m') <= Keys(m)
  {
    forall x | x in Keys(m')
      ensures x in Keys(m)
    {
      var i := InKeys(m', x);
      assert m[i] in m;
    }
  }

  lemma RestartOldest(fill: seq<Call>, c: Call)
    requires Run(fill) != [] && Run(fill)[0].key == c.key && c.now >= Run(fill)[0].bucket.resetAt
    ensures |Run(fill + [c])| == |Run(fill)|
    ensures forall i :: 0 <= i < |Run(fill)| ==> Run(fill + [c])[i].key == Run(fill)[i].key
  {
    assert (fill + [c])[..|fill|] == fill;
    RunIsValid(fill);
    GetKey(Run(fill), c.key);
    SetKeepsKeys(Run(fill), c.key, Hit(Get(Run(fill), c.key), c));
  }

  lemma InsertEvicts(before: seq<Call>, c: Call)
    requires |Run(before)| == MAX_KEYS && c.key !in Keys(Run(before))
    ensures EvictedByLast(before + [c], Run(before)[0].key)
  {
    assert (before + [c])[..|before|] == before;
    var m := Run(before);
    RunIsValid(before);
    GetKey(m, c.key);
    ServeKeepsDistinct(m, c);
    SetFacts(m, c.key, Hit(None, c));
    Uncons(Serve(m, c));
    assert m[0] in m;
  }

  // ---------- The unbounded limiter ----------

  type Counters = map<string, Bucket>

  function Look(m: Counters, k: string): Option<Bucket> {
    if k in m then Some(m[k]) else None
  }

  function UnboundedAfter(m: Counters, c: Call): Counters {
    m[c.key := Hit(Look(m, c.key), c)]
  }

  function UnboundedReply(m: Counters, c: Call): Answer {
    var b := Hit(Look(m, c.key), c);
    if Look(m, c.key).None? || c.now >= m[c.key].resetAt then Answer(true, c.limit - 1, b.resetAt)
    else AnswerFor(b, c.limit)
  }

  function CeilSeconds(ms: int): int {
    -(-ms / 1000)
  }

  /** The seconds that the answer to `c` tells the caller to wait. */
  function RetryAfter(m: Counters, c: Call): int {
    if !Current(m, c) then CeilSeconds(c.windowMs) else Max(0, CeilSeconds(m[c.key].resetAt - c.now))
  }

  /** The call falls into a window of its key that has begun. */
  predicate Current(m: Counters, c: Call) {
    Look(m, c.key).Some? && c.now < m[c.key].resetAt
  }

  /** The answer of the unbounded limiter, with what its response headers are made of. */
  datatype FullAnswer = FullAnswer(answer: Answer, limit: int, retryAfterSeconds: int)

  /**
   The announced wait is the least number of seconds after which the window is over; a caller that is
   the next to come, after that wait, is admitted.
   */
  lemma RetryAfterIsLeast(m: Counters, c: Call)
    ensures var wait, resetAt := RetryAfter(m, c), UnboundedReply(m, c).resetAt;
            && c.now + 1000 * (wait - 1) < resetAt <= c.now + 1000 * wait
            && UnboundedReply(UnboundedAfter(m, c), c.(now := c.now + 1000 * wait)).ok
  {
  }

  class UnboundedLimiter {
    var buckets: Counters

    constructor ()
      ensures buckets == map[]
    {
      buckets := map[];
    }

    method RateLimit(c: Call) returns (r: FullAnswer)
      modifies this
      ensures buckets == UnboundedAfter(old(buckets), c)
      ensures r == FullAnswer(UnboundedReply(old(buckets), c), c.limit, RetryAfter(old(buckets), c))
    {
      if c.key !in buckets || c.now >= buckets[c.key].resetAt {
        var resetAt := c.now + c.windowMs;
        buckets := buckets[c.key := Bucket(1, resetAt)];
        return FullAnswer(Answer(true, c.limit - 1, resetAt), c.limit, CeilSeconds(c.windowMs));
      }
      var existing := buckets[c.key];
      existing := existing.(count := existing.count + 1);
      buckets := buckets[c.key := existing];
      var remaining := Max(0, c.limit - existing.count);
      var ok := existing.count <= c.limit;
      return FullAnswer(Answer(ok, remaining, existing.resetAt), c.limit,
                        Max(0, CeilSeconds(existing.resetAt - c.now)));
    }
  }

  function UnboundedRun(cs: seq<Call>): Counters {
    if cs == [] then map[] else UnboundedAfter(UnboundedRun(cs[..|cs| - 1]), cs[|cs| - 1])
  }

  // ---------- Agreement ----------

  /** The keys that lost their bucket to eviction at some point of the run. */
  function EverEvicted(cs: seq<Call>): set<string> {
    if cs == [] then {}
    else
      var prefix := cs[..|cs| - 1];
      EverEvicted(prefix) + (Keys(Serve(Run(prefix), cs[|cs| - 1])) - Keys(Run(cs)))
  }

  /** A call evicts what was there before it and is not there after it. */
  lemma EvictedStep(cs: seq<Call>, k: string)
    requires cs != []
    ensures k in Keys(Serve(Run(cs[..|cs| - 1]), cs[|cs| - 1])) - Keys(Run(cs)) <==> EvictedByLast(cs, k)
  {
    var prefix, c := cs[..|cs| - 1], cs[|cs| - 1];
    RunIsValid(prefix);
    ServeKeepsDistinct(Run(prefix), c);
    SurvivesEviction(Run(prefix), c);
  }

  /** Call number `n` evicted `k`. */
  ghost predicate EvictedAt(cs: seq<Call>, n: nat, k: string) {
    n <= |cs| && EvictedByLast(cs[..n], k)
  }

  ghost predicate EvictedWithin(cs: seq<Call>, k: string) {
    exists n: nat :: EvictedAt(cs, n, k)
  }

  lemma EvictedAtPrefix(cs: seq<Call>, n: nat, k: string)
    requires n < |cs|
    ensures EvictedAt(cs[..|cs| - 1], n, k) <==> EvictedAt(cs, n, k)
  {
    assert cs[..|cs| - 1][..n] == cs[..n];
  }

  lemma EvictedAtEnd(cs: seq<Call>, k: string)
    ensures EvictedAt(cs, |cs|, k) <==> EvictedByLast(cs, k)
  {
    assert cs[..|cs|] == cs;
  }

  lemma EvictedWithinStep(cs: seq<Call>, k: string)
    requires cs != []
    ensures EvictedWithin(cs, k) <==> EvictedWithin(cs[..|cs| - 1], k) || EvictedAt(cs, |cs|, k)
  {
    if EvictedWithin(cs[..|cs| - 1], k) {
      var n: nat :| EvictedAt(cs[..|cs| - 1], n, k);
      EvictedAtPrefix(cs, n, k);
    }
    if EvictedWithin(cs, k) {
      var n: nat :| EvictedAt(cs, n, k);
      if n < |cs| {
        EvictedAtPrefix(cs, n, k);
      }
    }
  }

  /** These are the keys that some call of the run evicted. */
  lemma {:induction false} EverEvictedIff(cs: seq<Call>, k: string)
    ensures k in EverEvicted(cs) <==> EvictedWithin(cs, k)
  {
    if cs != [] {
      EverEvictedIff(cs[..|cs| - 1], k);
      EvictedStep(cs, k);
      EvictedAtEnd(cs, k);
      EvictedWithinStep(cs, k);
    }
  }

  lemma {:induction false} BucketsAgree(cs: seq<Call>, k: string)
    requires k !in EverEvicted(cs)
    ensures Get(Run(cs), k) == Look(UnboundedRun(cs), k)
  {
    if cs != [] {
      var prefix, c := cs[..|cs| - 1], cs[|cs| - 1];
      var served := Serve(Run(prefix), c);
      BucketsAgree(prefix, k);
      RunIsValid(prefix);
      ServeKeepsDistinct(Run(prefix), c);
      SurvivesEviction(Run(prefix), c);
      if Run(cs) != served {
        Uncons(served);
        GetKey(served[1..], k);
      }
    }
  }

  /** A fresh window is answered alike by both limiters exactly when the limit is at least 1. */
  lemma FreshAnswersAgree(m: Buckets, u: Counters, c: Call)
    requires Get(m, c.key) == Look(u, c.key) && !SameWindow(m, c)
    ensures Reply(m, c) == UnboundedReply(u, c) <==> c.limit >= 1
  {
  }

  /** Refinement: a key never evicted gets the answer of the unbounded limiter. */
  lemma AnswersAgree(cs: seq<Call>, c: Call)
    requires c.key !in EverEvicted(cs) && c.limit >= 1
    ensures Reply(Run(cs), c) == UnboundedReply(UnboundedRun(cs), c)
  {
    BucketsAgree(cs, c.key);
  }

  lemma {:induction false} FewKeysNoEviction(cs: seq<Call>)
    requires |KeysOf(cs)| <= 10_000
    ensures EverEvicted(cs) == {} && Keys(Run(cs)) <= KeysOf(cs)
  {
    if cs != [] {
      var prefix, c := cs[..|cs| - 1], cs[|cs| - 1];
      KeysOfAppend(cs, 0);
      assert cs[0..] == cs && prefix[0..] == prefix;
      SubsetCount(KeysOf(prefix), KeysOf(cs));
      FewKeysNoEviction(prefix);
      RunIsValid(prefix);
      ServeKeepsDistinct(Run(prefix), c);
      DistinctCount(Serve(Run(prefix), c));
      SubsetCount(Keys(Serve(Run(prefix), c)), KeysOf(cs));
    }
  }

  /** With at most MAX_KEYS distinct keys the two limiters agree on every answer of the run. */
  lemma TotalAgreement(cs: seq<Call>, i: nat)
    requires |KeysOf(cs)| <= 10_000 && i < |cs| && cs[i].limit >= 1
    ensures Reply(Run(cs[..i]), cs[i]) == UnboundedReply(UnboundedRun(cs[..i]), cs[i])
  {
    SubsetCount(KeysOf(cs[..i]), KeysOf(cs));
    FewKeysNoEviction(cs[..i]);
    AnswersAgree(cs[..i], cs[i]);
  }

  // ---------- Admission bounds of the unbounded limiter ----------

  /** The calls for `k` that are admitted when `cs` are served from the counters `m`. */
  function Admitted(m: Counters, cs: seq<Call>, k: string): nat
    decreases |cs|
  {
    if cs == [] then 0
    else
      var now := if cs[0].key == k && UnboundedReply(m, cs[0]).ok then 1 else 0;
      now + Admitted(UnboundedAfter(m, cs[0]), cs[1..], k)
  }

  /** The calls for `k` that start a new window. */
  function Restarts(m: Counters, cs: seq<Call>, k: string): nat
    decreases |cs|
  {
    if cs == [] then 0
    else
      var now := if cs[0].key == k && (k !in m || cs[0].now >= m[k].resetAt) then 1 else 0;
      now + Restarts(UnboundedAfter(m, cs[0]), cs[1..], k)
  }

  /** Calls for `k` all carry the same options, and the clock never runs back from `start`. */
  ghost predicate Steady(cs: seq<Call>, k: string, limit: int, windowMs: int, start: int, end: int) {
    && (forall i :: 0 <= i < |cs| ==> start <= cs[i].now < end)
    && (forall i, j :: 0 <= i < j < |cs| ==> cs[i].now <= cs[j].now)
    && (forall i :: 0 <= i < |cs| && cs[i].key == k ==> cs[i].limit == limit && cs[i].windowMs == windowMs)
  }

  /** How many more requests the current window of `k` admits. */
  function Room(m: Counters, k: string, limit: int): nat {
    if k in m then Max(0, limit - m[k].count) else 0
  }

  /** Within windows already begun, admissions use up the room; each new window admits `limit`. */
  lemma {:induction false} AdmissionsPerWindow(m: Counters, cs: seq<Call>, k: string, limit: int)
    requires limit >= 1
    requires forall i :: 0 <= i < |cs| && cs[i].key == k ==> cs[i].limit == limit
    ensures Admitted(m, cs, k) <= Room(m, k, limit) + limit * Restarts(m, cs, k)
    decreases |cs|
  {
    if cs != [] {
      var m' := UnboundedAfter(m, cs[0]);
      AdmissionsPerWindow(m', cs[1..], k, limit);
      var r := Restarts(m', cs[1..], k);
      assert limit * (1 + r) == limit + limit * r;
    }
  }

  /** In a stretch of one window length, at most one window starts. */
  lemma {:induction false} OneRestart(m: Counters, cs: seq<Call>, k: string, limit: int, windowMs: int,
      start: int, end: int)
    requires Steady(cs, k, limit, windowMs, start, end) && end - start <= windowMs
    ensures Restarts(m, cs, k) <= 1
    ensures k in m && m[k].resetAt >= end ==> Restarts(m, cs, k) == 0
    decreases |cs|
  {
    if cs != [] {
      OneRestart(UnboundedAfter(m, cs[0]), cs[1..], k, limit, windowMs, start, end);
    }
  }

  /**
   With a clock that never runs back, at most `2 * limit` requests of a key are admitted in any
   half-open stretch of one window length, whatever was served before it.
   */
  lemma BurstBound(before: seq<Call>, cs: seq<Call>, k: string, limit: int, windowMs: int, start: int)
    requires limit >= 1 && windowMs > 0
    requires Steady(cs, k, limit, windowMs, start, start + windowMs)
    ensures Admitted(UnboundedRun(before), cs, k) <= 2 * limit
  {
    var m := UnboundedRun(before);
    OneRestart(m, cs, k, limit, windowMs, start, start + windowMs);
    AdmissionsPerWindow(m, cs, k, limit);
    CountsArePositive(before, k);
    assert limit * Restarts(m, cs, k) <= limit;
  }

  lemma {:induction false} CountsArePositive(cs: seq<Call>, k: string)
    ensures k in UnboundedRun(cs) ==> UnboundedRun(cs)[k].count >= 1
  {
    if cs != [] {
      CountsArePositive(cs[..|cs| - 1], k);
    }
  }

  /** Calls before the window of `k` ends start no other one. */
  lemma {:induction false} NoRestart(m: Counters, cs: seq<Call>, k: string)
    requires k in m && forall i :: 0 <= i < |cs| && cs[i].key == k ==> cs[i].now < m[k].resetAt
    ensures Restarts(m, cs, k) == 0
    decreases |cs|
  {
    if cs != [] {
      NoRestart(UnboundedAfter(m, cs[0]), cs[1..], k);
    }
  }

  lemma FirstCall(m: Counters, cs: seq<Call>, k: string)
    requires cs != [] && cs[0].key == k && !Current(m, cs[0])
    ensures Admitted(m, cs, k) == 1 + Admitted(UnboundedAfter(m, cs[0]), cs[1..], k)
  {
  }

  /**
   One window admits at most `limit` requests of its key: the first call starts the window, and the
   others come before its end, in whatever order the clock shows them and whatever came before.
   */
  lemma WindowBound(m: Counters, cs: seq<Call>, k: string, limit: int)
    requires limit >= 1 && cs != [] && cs[0].key == k && !Current(m, cs[0])
    requires forall i :: 0 <= i < |cs| && cs[i].key == k ==>
               cs[i].limit == limit && cs[i].now < cs[0].now + cs[0].windowMs
    ensures Admitted(m, cs, k) <= limit
  {
    var c, rest := cs[0], cs[1..];
    var m' := UnboundedAfter(m, c);
    assert k in m' && m'[k] == Bucket(1, c.now + c.windowMs);
    forall i | 0 <= i < |rest| && rest[i].key == k
      ensures rest[i].limit == limit && rest[i].now < m'[k].resetAt
    {
      assert rest[i] == cs[i + 1];
    }
    NoRestart(m', rest, k);
    AdmissionsPerWindow(m', rest, k, limit);
    FirstCall(m, cs, k);
  }

  // ---------- Exactly the limit ----------

  /** The calls for `k`. */
  function CallsOf(cs: seq<Call>, k: string): nat {
    if cs == [] then 0 else (if cs[0].key == k then 1 else 0) + CallsOf(cs[1..], k)
  }

  /** The calls for `k` carry this limit and come before the window of `k` that ends at `end` is over. */
  ghost predicate Within(cs: seq<Call>, k: string, limit: int, end: int) {
    forall i :: 0 <= i < |cs| && cs[i].key == k ==> cs[i].limit == limit && cs[i].now < end
  }

  /** In a window that has begun, requests are admitted until `limit` of them are counted, and no longer. */
  lemma {:induction false} AdmitsUntilFull(m: Counters, cs: seq<Call>, k: string, limit: int)
    requires k in m && Within(cs, k, limit, m[k].resetAt)
    ensures var left := if m[k].count <= limit then limit - m[k].count else 0;
            Admitted(m, cs, k) == if CallsOf(cs, k) <= left then CallsOf(cs, k) else left
    decreases |cs|
  {
    if cs != [] {
      var m' := UnboundedAfter(m, cs[0]);
      assert k in m' && m'[k].resetAt == m[k].resetAt;
      AdmitsUntilFull(m', cs[1..], k, limit);
    }
  }

  /** The answer that starts a window: admitted, and the window lasts `windowMs` from now. */
  lemma WindowStarts(m: Counters, c: Call)
    requires c.key !in m || c.now >= m[c.key].resetAt
    ensures UnboundedReply(m, c) == Answer(true, c.limit - 1, c.now + c.windowMs)
    ensures UnboundedAfter(m, c) == m[c.key := Bucket(1, c.now + c.windowMs)]
  {
  }

  /** From the call that starts a window to its end, the first `limit` requests are admitted and no other. */
  lemma WindowAdmitsLimit(m: Counters, cs: seq<Call>, k: string, limit: int)
    requires limit >= 1 && cs != [] && cs[0].key == k && (k !in m || cs[0].now >= m[k].resetAt)
    requires Within(cs, k, limit, cs[0].now + cs[0].windowMs)
    ensures Admitted(m, cs, k) == if CallsOf(cs, k) <= limit then CallsOf(cs, k) else limit
  {
    WindowStarts(m, cs[0]);
    FirstCall(m, cs, k);
    var rest := cs[1..];
    assert forall i :: 0 <= i < |rest| ==> rest[i] == cs[i + 1];
    AdmitsUntilFull(UnboundedAfter(m, cs[0]), rest, k, limit);
  }

  /** `remaining` is the number of further requests that the window admits. */
  lemma RemainingIsAdmitted(m: Counters, c: Call, cs: seq<Call>)
    requires c.limit >= 1 && Within(cs, c.key, c.limit, UnboundedReply(m, c).resetAt)
    ensures var left := UnboundedReply(m, c).remaining;
            Admitted(UnboundedAfter(m, c), cs, c.key) == if CallsOf(cs, c.key) <= left then CallsOf(cs, c.key) else left
  {
    var m' := UnboundedAfter(m, c);
    assert c.key in m' && m'[c.key].resetAt == UnboundedReply(m, c).resetAt;
    AdmitsUntilFull(m', cs, c.key, c.limit);
  }

  lemma {:induction false} BoundedCounts(cs: seq<Call>, k: string)
    ensures Get(Run(cs), k).Some? ==> Get(Run(cs), k).value.count >= 1
  {
    if cs != [] {
      var prefix, c := cs[..|cs| - 1], cs[|cs| - 1];
      var served := Serve(Run(prefix), c);
      BoundedCounts(prefix, k);
      RunIsValid(prefix);
      ServeKeepsDistinct(Run(prefix), c);
      SurvivesEviction(Run(prefix), c);
      if Run(cs) != served {
        Uncons(served);
        GetKey(served[1..], k);
      }
    }
  }

  /** With a limit below 1 the bounded limiter admits nothing, not even the request that starts a window. */
  lemma NoLimitNoAdmission(cs: seq<Call>, c: Call)
    requires c.limit < 1
    ensures !Reply(Run(cs), c).ok && Reply(Run(cs), c).remaining == 0
  {
    BoundedCounts(cs, c.key);
  }
}
