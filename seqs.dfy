/** Sequence helpers shared by several components. */
module Seqs {

  /** No element occurs twice. */
  predicate NoDuplicates<T(==)>(s: seq<T>) {
    forall i, j :: 0 <= i < j < |s| ==> s[i] != s[j]
  }

  /** Joining two duplicate-free sequences with no common element keeps them duplicate-free. */
  lemma NoDuplicatesAppend<T>(a: seq<T>, b: seq<T>)
    requires NoDuplicates(a) && NoDuplicates(b)
    requires forall x :: x in a ==> x !in b
    ensures NoDuplicates(a + b)
  {
    forall i, j | 0 <= i < j < |a + b| ensures (a + b)[i] != (a + b)[j] {
      if j < |a| {
      } else if i >= |a| {
        assert (a + b)[i] == b[i - |a|] && (a + b)[j] == b[j - |a|];
      } else {
        assert (a + b)[i] in a && (a + b)[j] in b;
      }
    }
  }

  /** Index of the first occurrence of `x` in `s`. */
  function IndexOf(s: seq<string>, x: string): (k: nat)
    requires x in s
    ensures k < |s| && s[k] == x
    ensures forall i :: 0 <= i < k ==> s[i] != x
  {
    if s[0] == x then 0 else 1 + IndexOf(s[1..], x)
  }

  /** The distinct elements of `s` in first-seen order: the order in which a JavaScript object
      or array that is appended to only when a value is new enumerates them. */
  function Dedup(s: seq<string>): (r: seq<string>)
    ensures NoDuplicates(r)
    ensures forall x :: x in r <==> x in s
    ensures |r| <= |s|
  {
    if s == [] then []
    else
      var r := Dedup(s[..|s| - 1]);
      var x := s[|s| - 1];
      assert s == s[..|s| - 1] + [x];
      if x in r then r else r + [x]
  }

  /** Appending a value extends the first-seen order only when the value is new. */
  lemma DedupSnoc(s: seq<string>, x: string)
    ensures Dedup(s + [x]) == if x in Dedup(s) then Dedup(s) else Dedup(s) + [x]
  {
    assert (s + [x])[..|s + [x]| - 1] == s;
  }

  lemma IndexOfPrefix(s: seq<string>, x: string, y: string)
    requires y in s
    ensures IndexOf(s + [x], y) == IndexOf(s, y)
  {
    if s[0] != y {
      assert (s + [x])[1..] == s[1..] + [x];
      IndexOfPrefix(s[1..], x, y);
    }
  }

  /** Dedup keeps first-seen order: an earlier entry was seen earlier in `s`. */
  lemma {:induction false} DedupFirstSeen(s: seq<string>)
    ensures forall i, j :: 0 <= i < j < |Dedup(s)| ==> IndexOf(s, Dedup(s)[i]) < IndexOf(s, Dedup(s)[j])
  {
    if s != [] {
      var p, x := s[..|s| - 1], s[|s| - 1];
      assert s == p + [x];
      DedupFirstSeen(p);
      var r := Dedup(p);
      forall y | y in p ensures IndexOf(s, y) == IndexOf(p, y) {
        IndexOfPrefix(p, x, y);
      }
      if x !in r {
        assert x !in p;
        assert IndexOf(s, x) == |p| by {
          forall i | 0 <= i < |p| ensures s[i] != x { assert s[i] == p[i]; }
        }
      }
    }
  }

  /** The elements of `s` that do not occur in `exclude`, in their order in `s`. */
  function Without(s: seq<string>, exclude: seq<string>): (r: seq<string>)
    ensures forall x :: x in r <==> x in s && x !in exclude
    ensures |r| <= |s|
  {
    if s == [] then []
    else (if s[0] in exclude then [] else [s[0]]) + Without(s[1..], exclude)
  }

  /** Filtering one more element at the end extends the result by that element or by nothing. */
  lemma {:induction false} WithoutSnoc(s: seq<string>, x: string, exclude: seq<string>)
    ensures Without(s + [x], exclude) == Without(s, exclude) + (if x in exclude then [] else [x])
  {
    if s == [] {
      assert s + [x] == [x];
    } else {
      assert (s + [x])[1..] == s[1..] + [x];
      WithoutSnoc(s[1..], x, exclude);
    }
  }

  /** Left-to-right sum, as `reduce((sum, p) => sum + p, 0)`. */
  function Sum(s: seq<real>): real {
    if s == [] then 0.0 else Sum(s[..|s| - 1]) + s[|s| - 1]
  }

  lemma {:induction false} SumAppend(a: seq<real>, b: seq<real>)
    ensures Sum(a + b) == Sum(a) + Sum(b)
  {
    if b != [] {
      assert (a + b)[..|a + b| - 1] == a + b[..|b| - 1];
      SumAppend(a, b[..|b| - 1]);
    } else {
      assert a + b == a;
    }
  }
}
