/**
 * The two list operations the console leans on: `Array.prototype.filter`, and
 * `Array.prototype.sort`, which the language requires to be stable. With a
 * comparator that is a total preorder a stable sort has exactly one possible
 * result; `SortBy` computes it by insertion and the lemmas below show that it
 * is sorted, a permutation of its input, and keeps equivalent elements in
 * their input order.
 */
module Sequences {

  // ---------------------------------------------------------------------------
  // filter

  /** `s.filter(p)`. */
  function Filter<T>(p: T -> bool, s: seq<T>): (r: seq<T>)
    ensures |r| <= |s|
    ensures forall i :: 0 <= i < |r| ==> p(r[i])
    ensures forall i :: 0 <= i < |r| ==> r[i] in s
    ensures forall i :: 0 <= i < |s| && p(s[i]) ==> s[i] in r
  {
    if s == [] then [] else (if p(s[0]) then [s[0]] else []) + Filter(p, s[1..])
  }

  /** Filtering distributes over concatenation, so it keeps the input order. */
  lemma {:induction false} FilterAppend<T>(p: T -> bool, a: seq<T>, b: seq<T>)
    ensures Filter(p, a + b) == Filter(p, a) + Filter(p, b)
    decreases |a|
  {
    if a == [] {
      assert a + b == b;
    } else {
      assert (a + b)[1..] == a[1..] + b;
      FilterAppend(p, a[1..], b);
    }
  }

  /** Filtering one more element at the end decides that element alone. */
  lemma FilterSnoc<T>(p: T -> bool, s: seq<T>, x: T)
    ensures Filter(p, s + [x]) == Filter(p, s) + (if p(x) then [x] else [])
  {
    FilterAppend(p, s, [x]);
    assert [x][1..] == [];
  }

  /** A filter keeps every copy of an accepted element and no copy of a rejected one. */
  lemma {:induction false} FilterMultiset<T>(p: T -> bool, s: seq<T>)
    ensures forall x :: multiset(Filter(p, s))[x] == if p(x) then multiset(s)[x] else 0
    decreases |s|
  {
    if s != [] {
      var h := if p(s[0]) then [s[0]] else [];
      FilterMultiset(p, s[1..]);
      assert s == [s[0]] + s[1..];
      assert multiset(s) == multiset([s[0]]) + multiset(s[1..]);
      assert Filter(p, s) == h + Filter(p, s[1..]);
      assert multiset(Filter(p, s)) == multiset(h) + multiset(Filter(p, s[1..]));
    }
  }

  /** Filtering the prefix of length `k + 1` adds at most the element at `k`. */
  lemma FilterPrefixStep<T>(p: T -> bool, s: seq<T>, k: nat)
    requires k < |s|
    ensures Filter(p, s[..k + 1]) == Filter(p, s[..k]) + (if p(s[k]) then [s[k]] else [])
  {
    assert s[..k + 1] == s[..k] + [s[k]];
    FilterSnoc(p, s[..k], s[k]);
  }

  /** A filter that keeps everything is the identity. */
  lemma {:induction false} FilterAll<T>(p: T -> bool, s: seq<T>)
    requires forall i :: 0 <= i < |s| ==> p(s[i])
    ensures Filter(p, s) == s
    decreases |s|
  {
    if s != [] {
      FilterAll(p, s[1..]);
    }
  }

  /** `a` can be obtained from `b` by deleting elements: the same elements in the same order. */
  predicate IsSubsequence<T(==)>(a: seq<T>, b: seq<T>)
    decreases |b|
  {
    a == [] || (b != [] && ((a[0] == b[0] && IsSubsequence(a[1..], b[1..])) || IsSubsequence(a, b[1..])))
  }

  /** A filter's output is a subsequence of its input. */
  lemma {:induction false} FilterIsSubsequence<T>(p: T -> bool, s: seq<T>)
    ensures IsSubsequence(Filter(p, s), s)
    decreases |s|
  {
    if s != [] {
      FilterIsSubsequence(p, s[1..]);
      var r := Filter(p, s);
      if p(s[0]) {
        assert r == [s[0]] + Filter(p, s[1..]);
        assert r[1..] == Filter(p, s[1..]);
      } else {
        assert r == Filter(p, s[1..]);
      }
    }
  }

  lemma {:induction false} SubsequenceOfSelf<T>(s: seq<T>)
    ensures IsSubsequence(s, s)
    decreases |s|
  {
    if s != [] {
      SubsequenceOfSelf(s[1..]);
    }
  }

  /** A subsequence is no longer than the sequence it is taken from. */
  lemma {:induction false} SubsequenceLength<T>(a: seq<T>, b: seq<T>)
    requires IsSubsequence(a, b)
    ensures |a| <= |b|
    decreases |b|
  {
    if a != [] {
      if a[0] == b[0] && IsSubsequence(a[1..], b[1..]) {
        SubsequenceLength(a[1..], b[1..]);
      } else {
        SubsequenceLength(a, b[1..]);
      }
    }
  }

  // ---------------------------------------------------------------------------
  // stable sort

  /** `le` is total and transitive on the elements of `s`. */
  ghost predicate TotalPreorderOn<T(!new)>(le: (T, T) -> bool, s: seq<T>) {
    && (forall x, y | x in s && y in s :: le(x, y) || le(y, x))
    && (forall x, y, z | x in s && y in s && z in s :: le(x, y) && le(y, z) ==> le(x, z))
  }

  ghost predicate SortedBy<T>(le: (T, T) -> bool, s: seq<T>) {
    forall i, j | 0 <= i < j < |s| :: le(s[i], s[j])
  }

  /** `a` and `b` compare as equal (the comparator returns 0 both ways). */
  predicate Equivalent<T>(le: (T, T) -> bool, a: T, b: T) {
    le(a, b) && le(b, a)
  }

  /** Places `x` after every leading element of `t` that is not greater than it. */
  function Insert<T>(le: (T, T) -> bool, x: T, t: seq<T>): seq<T> {
    if t == [] then [x]
    else if le(t[0], x) then [t[0]] + Insert(le, x, t[1..])
    else [x] + t
  }

  /** The stable sort of `s` by `le`: each element in turn is inserted after the ones equivalent to it. */
  function SortBy<T>(le: (T, T) -> bool, s: seq<T>): seq<T> {
    if s == [] then [] else Insert(le, s[|s| - 1], SortBy(le, s[..|s| - 1]))
  }

  /** The elements of `s` equivalent to `y`, in their order in `s`. */
  function Same<T>(le: (T, T) -> bool, y: T, s: seq<T>): seq<T> {
    if s == [] then []
    else (if Equivalent(le, s[0], y) then [s[0]] else []) + Same(le, y, s[1..])
  }

  lemma {:induction false} InsertPermutes<T>(le: (T, T) -> bool, x: T, t: seq<T>)
    ensures multiset(Insert(le, x, t)) == multiset(t) + multiset{x}
    decreases |t|
  {
    if t != [] {
      InsertPermutes(le, x, t[1..]);
      assert t == [t[0]] + t[1..];
    }
  }

  /** Sorting rearranges the input: it neither adds, drops nor duplicates elements. */
  lemma {:induction false} SortByPermutes<T>(le: (T, T) -> bool, s: seq<T>)
    ensures multiset(SortBy(le, s)) == multiset(s)
    ensures |SortBy(le, s)| == |s|
    decreases |s|
  {
    if s != [] {
      var init := s[..|s| - 1];
      SortByPermutes(le, init);
      InsertPermutes(le, s[|s| - 1], SortBy(le, init));
      assert s == init + [s[|s| - 1]];
      assert |multiset(SortBy(le, s))| == |multiset(s)|;
    }
  }

  lemma PreorderOnSubset<T(!new)>(le: (T, T) -> bool, a: seq<T>, b: seq<T>)
    requires TotalPreorderOn(le, b)
    requires forall x :: x in a ==> x in b
    ensures TotalPreorderOn(le, a)
  {
  }

  lemma {:induction false} InsertSorted<T(!new)>(le: (T, T) -> bool, x: T, t: seq<T>)
    requires SortedBy(le, t)
    requires TotalPreorderOn(le, t + [x])
    ensures SortedBy(le, Insert(le, x, t))
    decreases |t|
  {
    if t != [] {
      if le(t[0], x) {
        var rest := t[1..];
        PreorderOnSubset(le, rest + [x], t + [x]);
        InsertSorted(le, x, rest);
        var r := Insert(le, x, rest);
        HeadBelowInsert(le, x, t);
        ConsSorted(le, t[0], r);
        assert Insert(le, x, t) == [t[0]] + r;
      } else {
        InsertInFrontSorted(le, x, t);
      }
    }
  }

  /** Everything inserted behind a head not above `x` is above that head. */
  lemma HeadBelowInsert<T(!new)>(le: (T, T) -> bool, x: T, t: seq<T>)
    requires t != [] && le(t[0], x) && SortedBy(le, t)
    ensures forall e | e in Insert(le, x, t[1..]) :: le(t[0], e)
  {
    var rest, r := t[1..], Insert(le, x, t[1..]);
    InsertPermutes(le, x, rest);
    forall e | e in r ensures le(t[0], e) {
      assert e in multiset(r);
      if e != x {
        assert e in rest;
        var k :| 0 <= k < |rest| && rest[k] == e;
        assert t[k + 1] == e;
      }
    }
  }

  /** A sorted sequence stays sorted behind a head below all of it. */
  lemma ConsSorted<T>(le: (T, T) -> bool, h: T, r: seq<T>)
    requires SortedBy(le, r) && forall e | e in r :: le(h, e)
    ensures SortedBy(le, [h] + r)
  {
    forall i, j | 0 <= i < j < |[h] + r| ensures le(([h] + r)[i], ([h] + r)[j]) {
      assert ([h] + r)[j] == r[j - 1];
      if i > 0 {
        assert ([h] + r)[i] == r[i - 1];
      }
    }
  }

  /** `x` put in front of a sorted sequence whose head is above it keeps it sorted. */
  lemma InsertInFrontSorted<T(!new)>(le: (T, T) -> bool, x: T, t: seq<T>)
    requires t != [] && !le(t[0], x) && SortedBy(le, t)
    requires TotalPreorderOn(le, t + [x])
    ensures SortedBy(le, Insert(le, x, t))
  {
    assert t[0] in t + [x] && x in t + [x];
    forall j | 0 <= j < |t| ensures le(x, t[j]) {
      assert t[j] in t + [x];
    }
    ConsSorted(le, x, t);
  }

  /** With a total-preorder comparator the sort's output is ordered. */
  lemma {:induction false} SortBySorted<T(!new)>(le: (T, T) -> bool, s: seq<T>)
    requires TotalPreorderOn(le, s)
    ensures SortedBy(le, SortBy(le, s))
    decreases |s|
  {
    if s != [] {
      var init := s[..|s| - 1];
      var x := s[|s| - 1];
      assert s == init + [x];
      PreorderOnSubset(le, init, s);
      SortBySorted(le, init);
      SortByPermutes(le, init);
      forall e | e in SortBy(le, init) + [x] ensures e in s {
        if e != x {
          assert e in multiset(SortBy(le, init));
        }
      }
      PreorderOnSubset(le, SortBy(le, init) + [x], s);
      InsertSorted(le, x, SortBy(le, init));
    }
  }

  lemma {:induction false} SameAppend<T>(le: (T, T) -> bool, y: T, a: seq<T>, b: seq<T>)
    ensures Same(le, y, a + b) == Same(le, y, a) + Same(le, y, b)
    decreases |a|
  {
    if a == [] {
      assert a + b == b;
    } else {
      var h := if Equivalent(le, a[0], y) then [a[0]] else [];
      assert (a + b)[0] == a[0];
      assert (a + b)[1..] == a[1..] + b;
      SameAppend(le, y, a[1..], b);
      assert Same(le, y, a + b) == h + Same(le, y, a[1..] + b);
      assert Same(le, y, a) == h + Same(le, y, a[1..]);
    }
  }

  lemma {:induction false} SameNone<T>(le: (T, T) -> bool, y: T, t: seq<T>)
    requires forall e | e in t :: !Equivalent(le, e, y)
    ensures Same(le, y, t) == []
    decreases |t|
  {
    if t != [] {
      SameNone(le, y, t[1..]);
    }
  }

  lemma {:induction false} SameAll<T>(le: (T, T) -> bool, y: T, t: seq<T>)
    requires forall e | e in t :: Equivalent(le, e, y)
    ensures Same(le, y, t) == t
    decreases |t|
  {
    if t != [] {
      SameAll(le, y, t[1..]);
      assert t == [t[0]] + t[1..];
    }
  }

  /** Nothing after a strictly greater head is equivalent to something below that head. */
  lemma NoneEquivalentAbove<T(!new)>(le: (T, T) -> bool, x: T, t: seq<T>, y: T)
    requires SortedBy(le, t) && t != [] && !le(t[0], x) && Equivalent(le, x, y)
    requires TotalPreorderOn(le, t + [x, y])
    ensures forall e | e in t :: !Equivalent(le, e, y)
  {
    var all := t + [x, y];
    assert t[0] in all && x in all && y in all;
    forall e | e in t ensures !Equivalent(le, e, y) {
      var k :| 0 <= k < |t| && t[k] == e;
      assert e in all;
      assert k == 0 || le(t[0], e);
      assert le(e, y) ==> le(e, x);
    }
  }

  lemma {:induction false} InsertStable<T(!new)>(le: (T, T) -> bool, x: T, t: seq<T>, y: T)
    requires SortedBy(le, t)
    requires TotalPreorderOn(le, t + [x, y])
    ensures Same(le, y, Insert(le, x, t)) == Same(le, y, t) + Same(le, y, [x])
    decreases |t|
  {
    if t == [] {
    } else if le(t[0], x) {
      var rest := t[1..];
      assert SortedBy(le, rest) by {
        forall i, j | 0 <= i < j < |rest| ensures le(rest[i], rest[j]) {
          assert rest[i] == t[i + 1] && rest[j] == t[j + 1];
        }
      }
      PreorderOnSubset(le, rest + [x, y], t + [x, y]);
      InsertStable(le, x, rest, y);
      InsertBehindHeadStable(le, x, t, y);
    } else {
      InsertInFrontStable(le, x, t, y);
    }
  }

  /** Insertion behind a head not above `x` keeps the order of the equivalents if it does in the tail. */
  lemma InsertBehindHeadStable<T>(le: (T, T) -> bool, x: T, t: seq<T>, y: T)
    requires t != [] && le(t[0], x)
    requires Same(le, y, Insert(le, x, t[1..])) == Same(le, y, t[1..]) + Same(le, y, [x])
    ensures Same(le, y, Insert(le, x, t)) == Same(le, y, t) + Same(le, y, [x])
  {
    var rest := t[1..];
    assert Insert(le, x, t) == [t[0]] + Insert(le, x, rest);
    SameAppend(le, y, [t[0]], Insert(le, x, rest));
    SameAppend(le, y, [t[0]], rest);
    assert t == [t[0]] + rest;
  }

  /** Insertion in front of a sorted sequence whose head is above `x` keeps the order of the equivalents. */
  lemma InsertInFrontStable<T(!new)>(le: (T, T) -> bool, x: T, t: seq<T>, y: T)
    requires t != [] && !le(t[0], x) && SortedBy(le, t)
    requires TotalPreorderOn(le, t + [x, y])
    ensures Same(le, y, Insert(le, x, t)) == Same(le, y, t) + Same(le, y, [x])
  {
    assert Insert(le, x, t) == [x] + t;
    SameAppend(le, y, [x], t);
    if Equivalent(le, x, y) {
      NoneEquivalentAbove(le, x, t, y);
      SameNone(le, y, t);
    } else {
      assert Same(le, y, [x]) == [];
    }
  }

  /**
   * Stability: the elements equivalent to any `y` appear in the output in the
   * same order as in the input.
   */
  lemma {:induction false} SortByStable<T(!new)>(le: (T, T) -> bool, s: seq<T>, y: T)
    requires TotalPreorderOn(le, s + [y])
    ensures Same(le, y, SortBy(le, s)) == Same(le, y, s)
    decreases |s|
  {
    if s != [] {
      var init := s[..|s| - 1];
      var x := s[|s| - 1];
      assert s == init + [x];
      PreorderOnSubset(le, init + [y], s + [y]);
      SortByStable(le, init, y);
      PreorderOnSubset(le, init, s + [y]);
      SortBySorted(le, init);
      SortByPermutes(le, init);
      forall e | e in SortBy(le, init) + [x, y] ensures e in s + [y] {
        if e != x && e != y {
          assert e in multiset(SortBy(le, init));
        }
      }
      PreorderOnSubset(le, SortBy(le, init) + [x, y], s + [y]);
      InsertStable(le, x, SortBy(le, init), y);
      SameAppend(le, y, init, [x]);
    }
  }

  /** When every element compares equal to every other, sorting leaves the order as it is. */
  lemma SortByAllEquivalent<T(!new)>(le: (T, T) -> bool, s: seq<T>)
    requires TotalPreorderOn(le, s)
    requires forall a, b | a in s && b in s :: Equivalent(le, a, b)
    ensures SortBy(le, s) == s
  {
    if s != [] {
      var y := s[0];
      assert s + [y] == s + [s[0]];
      PreorderOnSubset(le, s + [y], s);
      SortByStable(le, s, y);
      SameAll(le, y, s);
      SortByPermutes(le, s);
      forall e | e in SortBy(le, s) ensures Equivalent(le, e, y) {
        assert e in multiset(SortBy(le, s));
      }
      SameAll(le, y, SortBy(le, s));
    }
  }
}
