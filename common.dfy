/** Values and sequence operations shared by every script of the deployment layer:
    an Option type for Python's None-or-value, first-occurrence de-duplication
    (the `seen` set loops and `dict.fromkeys`) and filtering. */
module Common {

  datatype Option<T> = None | Some(value: T)

  /** True when no element occurs twice. */
  predicate NoDuplicates<T(==)>(s: seq<T>) {
    forall i, j :: 0 <= i < j < |s| ==> s[i] != s[j]
  }

  /** The index of the first occurrence of x in s. */
  function FirstIndex<T(==)>(s: seq<T>, x: T): (k: nat)
    requires x in s
    ensures k < |s| && s[k] == x && x !in s[..k]
  {
    if s[0] == x then 0 else 1 + FirstIndex(s[1..], x)
  }

  /** The distinct elements of s, each at the place of its first occurrence:
      what a loop appending every element it has not seen before builds. */
  function Dedup<T(==)>(s: seq<T>): seq<T>
    decreases |s|
  {
    if |s| == 0 then []
    else
      var d := Dedup(s[..|s| - 1]);
      if s[|s| - 1] in d then d else d + [s[|s| - 1]]
  }

  /** Python's `seen = set(); for u in s: if u not in seen: seen.add(u); out.append(u)`. */
  method DedupInOrder<T(==)>(s: seq<T>) returns (r: seq<T>)
    ensures r == Dedup(s)
  {
    var seen: set<T> := {};
    r := [];
    var i := 0;
    while i < |s|
      invariant 0 <= i <= |s|
      invariant r == Dedup(s[..i])
      invariant forall x :: x in seen <==> x in r
    {
      assert s[..i + 1][..i] == s[..i];
      if s[i] !in seen {
        seen := seen + {s[i]};
        r := r + [s[i]];
      }
      i := i + 1;
    }
    assert s[..i] == s;
  }

  /** De-duplication neither loses nor invents elements. */
  lemma {:induction false} DedupMembers<T>(s: seq<T>)
    ensures forall x :: x in Dedup(s) <==> x in s
    decreases |s|
  {
    if |s| > 0 {
      var p := s[..|s| - 1];
      DedupMembers(p);
      assert s == p + [s[|s| - 1]];
    }
  }

  /** De-duplication leaves no element twice. */
  lemma {:induction false} DedupNoDuplicates<T>(s: seq<T>)
    ensures NoDuplicates(Dedup(s))
    decreases |s|
  {
    if |s| > 0 {
      DedupNoDuplicates(s[..|s| - 1]);
    }
  }

  lemma {:induction false} FirstIndexOfPrefix<T>(p: seq<T>, q: seq<T>, x: T)
    requires x in p
    ensures x in p + q && FirstIndex(p + q, x) == FirstIndex(p, x)
  {
    var k := FirstIndex(p, x);
    assert (p + q)[k] == x;
    assert (p + q)[..k] == p[..k];
  }

  /** De-duplication keeps the order of first occurrences. */
  lemma {:induction false} DedupOrder<T>(s: seq<T>)
    ensures forall x :: x in Dedup(s) ==> x in s
    ensures forall i, j :: 0 <= i < j < |Dedup(s)| ==>
      FirstIndex(s, Dedup(s)[i]) < FirstIndex(s, Dedup(s)[j])
    decreases |s|
  {
    DedupMembers(s);
    if |s| > 0 {
      var p := s[..|s| - 1];
      var x := s[|s| - 1];
      assert s == p + [x];
      DedupOrder(p);
      DedupMembers(p);
      var d := Dedup(p);
      forall y | y in d
        ensures FirstIndex(s, y) == FirstIndex(p, y) < |p|
      {
        FirstIndexOfPrefix(p, [x], y);
      }
      if x !in d {
        assert x !in p;
        assert s[..|p|] == p;
        var r := Dedup(s);
        assert r == d + [x];
        forall i, j | 0 <= i < j < |r|
          ensures FirstIndex(s, r[i]) < FirstIndex(s, r[j])
        {
          assert r[i] == d[i];
          if j < |d| { assert r[j] == d[j]; }
        }
      }
    }
  }

  /** A sequence that is already duplicate-free is its own de-duplication. */
  lemma {:induction false} DedupOfDistinct<T>(s: seq<T>)
    requires NoDuplicates(s)
    ensures Dedup(s) == s
    decreases |s|
  {
    if |s| > 0 {
      var p := s[..|s| - 1];
      assert NoDuplicates(p);
      DedupOfDistinct(p);
      assert s[|s| - 1] !in p;
      assert s == p + [s[|s| - 1]];
    }
  }

  /** The elements of s that satisfy p, in order. */
  function Filter<T>(s: seq<T>, p: T -> bool): (r: seq<T>)
    ensures |r| <= |s|
    ensures forall i :: 0 <= i < |r| ==> r[i] in s && p(r[i])
    ensures forall i :: 0 <= i < |s| && p(s[i]) ==> s[i] in r
    decreases |s|
  {
    if |s| == 0 then []
    else if p(s[0]) then [s[0]] + Filter(s[1..], p)
    else Filter(s[1..], p)
  }

  lemma {:induction false} FilterAppend<T>(s: seq<T>, y: T, p: T -> bool)
    ensures Filter(s + [y], p) == Filter(s, p) + (if p(y) then [y] else [])
    decreases |s|
  {
    if |s| > 0 {
      assert (s + [y])[1..] == s[1..] + [y];
      FilterAppend(s[1..], y, p);
    }
  }

  /** Filtering keeps the order of first occurrences of the elements it keeps. */
  lemma {:induction false} FilterFirstIndex<T>(s: seq<T>, p: T -> bool, x: T, y: T)
    requires x in Filter(s, p) && y in Filter(s, p)
    ensures x in s && y in s
    ensures FirstIndex(Filter(s, p), x) < FirstIndex(Filter(s, p), y) <==> FirstIndex(s, x) < FirstIndex(s, y)
    decreases |s|
  {
    var f := Filter(s, p);
    if s[0] != x && s[0] != y {
      if p(s[0]) {
        assert f == [s[0]] + Filter(s[1..], p);
        FilterFirstIndex(s[1..], p, x, y);
      } else {
        FilterFirstIndex(s[1..], p, x, y);
      }
    } else {
      assert p(s[0]) by {
        var k :| 0 <= k < |f| && (f[k] == x || f[k] == y);
      }
      assert f == [s[0]] + Filter(s[1..], p);
    }
  }

  /** Filter keeps everything when everything satisfies p. */
  lemma {:induction false} FilterAllTrue<T>(s: seq<T>, p: T -> bool)
    requires forall i :: 0 <= i < |s| ==> p(s[i])
    ensures Filter(s, p) == s
    decreases |s|
  {
    if |s| > 0 {
      FilterAllTrue(s[1..], p);
      assert s == [s[0]] + s[1..];
    }
  }

  /** `os.environ.get(key, default)`: the process environment is the map env. */
  function GetEnv(env: map<string, string>, key: string, default: string): (r: string)
    ensures key in env ==> r == env[key]
    ensures key !in env ==> r == default
  {
    if key in env then env[key] else default
  }
}
