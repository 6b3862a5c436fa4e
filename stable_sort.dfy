/** A stable sort by a comparator, the model of `Array.prototype.sort(compare)`, which is
    required to be stable. `le(a, b)` holds when the comparator lets `a` come before `b`
    (it does not return a positive number for `(a, b)`). */
module StableSort {

  /** `le` is total and transitive: a comparator that orders consistently. */
  ghost predicate TotalPreorder<T(!new)>(le: (T, T) -> bool) {
    && (forall a, b :: le(a, b) || le(b, a))
    && (forall a, b, c :: le(a, b) && le(b, c) ==> le(a, c))
  }

  predicate SortedBy<T>(s: seq<T>, le: (T, T) -> bool) {
    forall i, j :: 0 <= i < j < |s| ==> le(s[i], s[j])
  }

  /** Places `x` after every element of `t`, a sorted sequence, that may come before it. */
  function Insert<T>(t: seq<T>, x: T, le: (T, T) -> bool): (r: seq<T>)
    ensures multiset(r) == multiset(t) + multiset{x}
    ensures |r| == |t| + 1
  {
    if t == [] then [x]
    else if le(t[|t| - 1], x) then t + [x]
    else
      assert t == t[..|t| - 1] + [t[|t| - 1]];
      Insert(t[..|t| - 1], x, le) + [t[|t| - 1]]
  }

  /** Insertion sort: each element in turn goes after all earlier elements that may precede it. */
  function Sort<T>(s: seq<T>, le: (T, T) -> bool): (r: seq<T>)
    ensures multiset(r) == multiset(s)
    ensures |r| == |s|
  {
    if s == [] then []
    else
      assert s == s[..|s| - 1] + [s[|s| - 1]];
      Insert(Sort(s[..|s| - 1], le), s[|s| - 1], le)
  }

  /** The elements of `s` that the comparator ties with `x`, in their order in `s`. */
  function Ties<T>(s: seq<T>, x: T, le: (T, T) -> bool): seq<T> {
    if s == [] then []
    else Ties(s[..|s| - 1], x, le) + (if le(x, s[|s| - 1]) && le(s[|s| - 1], x) then [s[|s| - 1]] else [])
  }

  lemma {:induction false} TiesAppend<T>(a: seq<T>, b: seq<T>, x: T, le: (T, T) -> bool)
    ensures Ties(a + b, x, le) == Ties(a, x, le) + Ties(b, x, le)
  {
    if b == [] {
      assert a + b == a;
    } else {
      assert (a + b)[..|a + b| - 1] == a + b[..|b| - 1];
      TiesAppend(a, b[..|b| - 1], x, le);
    }
  }

  lemma SortedSnoc<T>(r: seq<T>, y: T, le: (T, T) -> bool)
    requires SortedBy(r, le)
    requires forall z :: z in r ==> le(z, y)
    ensures SortedBy(r + [y], le)
  {
    forall i, j | 0 <= i < j < |r + [y]| ensures le((r + [y])[i], (r + [y])[j]) {
      if j == |r| {
        assert (r + [y])[i] in r;
      }
    }
  }

  lemma {:induction false} InsertSorted<T(!new)>(t: seq<T>, x: T, le: (T, T) -> bool)
    requires TotalPreorder(le)
    requires SortedBy(t, le)
    ensures SortedBy(Insert(t, x, le), le)
  {
    if t == [] {
    } else if le(t[|t| - 1], x) {
      SortedSnoc(t, x, le);
    } else {
      var p, y := t[..|t| - 1], t[|t| - 1];
      assert SortedBy(p, le);
      InsertSorted(p, x, le);
      var r := Insert(p, x, le);
      assert le(x, y);
      forall z | z in r ensures le(z, y) {
        assert z in multiset(r);
        if z != x {
          assert z in multiset(p);
          var i :| 0 <= i < |p| && p[i] == z;
          assert t[i] == z;
        }
      }
      SortedSnoc(r, y, le);
    }
  }

  /** The sort yields a sequence ordered by the comparator. */
  lemma {:induction false} SortSorted<T(!new)>(s: seq<T>, le: (T, T) -> bool)
    requires TotalPreorder(le)
    ensures SortedBy(Sort(s, le), le)
  {
    if s != [] {
      SortSorted(s[..|s| - 1], le);
      InsertSorted(Sort(s[..|s| - 1], le), s[|s| - 1], le);
    }
  }

  lemma {:induction false} InsertTies<T(!new)>(t: seq<T>, x: T, y: T, le: (T, T) -> bool)
    requires TotalPreorder(le)
    requires SortedBy(t, le)
    ensures Ties(Insert(t, x, le), y, le) == Ties(t, y, le) + Ties([x], y, le)
  {
    if t == [] {
    } else if le(t[|t| - 1], x) {
      TiesAppend(t, [x], y, le);
    } else {
      var p, z := t[..|t| - 1], t[|t| - 1];
      assert t == p + [z];
      InsertTies(p, x, y, le);
      TiesAppend(Insert(p, x, le), [z], y, le);
      TiesAppend(p, [z], y, le);
      TiesAppend(p, [x], y, le);
      assert Ties([x], y, le) == [] || Ties([z], y, le) == [];
    }
  }

  /** Stability: the elements that tie with any `x` keep their relative input order. */
  lemma {:induction false} SortStable<T(!new)>(s: seq<T>, x: T, le: (T, T) -> bool)
    requires TotalPreorder(le)
    ensures Ties(Sort(s, le), x, le) == Ties(s, x, le)
  {
    if s != [] {
      var p, y := s[..|s| - 1], s[|s| - 1];
      assert s == p + [y];
      SortStable(p, x, le);
      SortSorted(p, le);
      InsertTies(Sort(p, le), y, x, le);
      TiesAppend(p, [y], x, le);
    }
  }
}
