/** Splitting and joining text at a separator character, as `split` and `join` do in JavaScript. */
module Text {

  function Split(s: string, c: char): (parts: seq<string>)
    ensures parts != []
  {
    if s == "" then [""]
    else if s[0] == c then [""] + Split(s[1..], c)
    else
      var rest := Split(s[1..], c);
      [[s[0]] + rest[0]] + rest[1..]
  }

  function Join(parts: seq<string>, c: char): string {
    if |parts| == 0 then "" else if |parts| == 1 then parts[0] else parts[0] + [c] + Join(parts[1..], c)
  }

  /** Parts that a split at `c` can yield. */
  ghost predicate Parts(parts: seq<string>, c: char) {
    parts != [] && forall i :: 0 <= i < |parts| ==> c !in parts[i]
  }

  lemma {:induction false} JoinSplit(s: string, c: char)
    ensures Join(Split(s, c), c) == s
    ensures Parts(Split(s, c), c)
  {
    if s != "" {
      JoinSplit(s[1..], c);
      var rest := Split(s[1..], c);
      assert rest == [rest[0]] + rest[1..];
      if s[0] == c {
        assert ([""] + rest)[1..] == rest;
      } else {
        var all := Split(s, c);
        assert all[1..] == rest[1..];
        assert s == [s[0]] + s[1..];
      }
    }
  }

  lemma {:induction false} SplitNone(s: string, c: char)
    requires c !in s
    ensures Split(s, c) == [s]
  {
    if s != "" {
      SplitNone(s[1..], c);
      assert s == [s[0]] + s[1..];
    }
  }

  lemma {:induction false} SplitPrefix(a: string, s: string, c: char)
    requires c !in a
    ensures Split(a + [c] + s, c) == [a] + Split(s, c)
  {
    var t := a + [c] + s;
    if a == "" {
      assert t[1..] == s;
    } else {
      SplitPrefix(a[1..], s, c);
      assert t[1..] == a[1..] + [c] + s;
      assert a == [a[0]] + a[1..];
      assert ([a[1..]] + Split(s, c))[1..] == Split(s, c);
    }
  }

  lemma {:induction false} SplitJoin(parts: seq<string>, c: char)
    requires Parts(parts, c)
    ensures Split(Join(parts, c), c) == parts
  {
    if |parts| == 1 {
      SplitNone(parts[0], c);
    } else {
      SplitJoin(parts[1..], c);
      SplitPrefix(parts[0], Join(parts[1..], c), c);
    }
  }

  /** A character other than the separator is in the text iff it is in one of the parts. */
  lemma {:induction false} InJoin(parts: seq<string>, c: char, x: char)
    requires x != c
    ensures x in Join(parts, c) <==> exists i :: 0 <= i < |parts| && x in parts[i]
  {
    if |parts| > 1 {
      InJoin(parts[1..], c, x);
      assert forall i :: 1 <= i < |parts| ==> parts[1..][i - 1] == parts[i];
      if exists i :: 0 <= i < |parts| && x in parts[i] {
        var i :| 0 <= i < |parts| && x in parts[i];
        assert i > 0 ==> x in parts[1..][i - 1];
      }
    }
  }
}
