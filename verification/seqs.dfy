/** Generic facts about sequences that both engines rely on: contiguous occurrence
    (`str.find` / list slices), first-occurrence de-duplication (`if l not in xs:
    xs.append(l)`), lexicographic order (Python's `<` on `str` and on `tuple`) and
    the sort that `sorted` performs. */
module Seqs {

  /** `p` occurs in `s` as a contiguous block. */
  ghost predicate IsInfix<T>(p: seq<T>, s: seq<T>) {
    exists i :: 0 <= i <= |s| - |p| && p <= s[i..]
  }

  ghost predicate NoDuplicates<T>(s: seq<T>) {
    forall i, j :: 0 <= i < j < |s| ==> s[i] != s[j]
  }

  /** The contiguous block s[i..j] occurs in s. */
  lemma SliceIsInfix<T>(s: seq<T>, i: nat, j: nat)
    requires i <= j <= |s|
    ensures IsInfix(s[i..j], s)
  {
    assert s[i..j] <= s[i..];
  }

  /** Occurrence is transitive: a block of a block of `s` is a block of `s`. */
  lemma InfixTransitive<T>(a: seq<T>, b: seq<T>, c: seq<T>)
    requires IsInfix(a, b) && IsInfix(b, c)
    ensures IsInfix(a, c)
  {
    var i :| 0 <= i <= |b| - |a| && a <= b[i..];
    var j :| 0 <= j <= |c| - |b| && b <= c[j..];
    forall k | 0 <= k < |a| ensures a[k] == c[j + i + k] {
      assert a[k] == b[i + k];
    }
    assert a <= c[j + i..];
  }

  /** Every block of `p` is a block of `p` wrapped in any context. */
  lemma InfixOfConcat<T>(x: seq<T>, p: seq<T>, y: seq<T>)
    ensures IsInfix(p, x + p + y)
  {
    var s := x + p + y;
    assert s[|x|..|x| + |p|] == p;
    assert p <= s[|x|..];
  }

  /** Python's `s.find(p)` from position `i` on: the first start position at or
      after `i` where `p` occurs, or -1. */
  function FindFrom<T(==)>(s: seq<T>, p: seq<T>, i: nat): (r: int)
    ensures r == -1 || (i <= r <= |s| - |p| && p <= s[r..])
    ensures r != -1 ==> forall j :: i <= j < r ==> !(p <= s[j..])
    ensures r == -1 <==> forall j :: i <= j <= |s| - |p| ==> !(p <= s[j..])
    decreases |s| - i
  {
    if i + |p| > |s| then -1
    else if p <= s[i..] then i
    else FindFrom(s, p, i + 1)
  }

  /** Python's `s.find(p)`: the first position of `p` in `s`, -1 when absent. */
  function Find<T(==)>(s: seq<T>, p: seq<T>): (r: int)
    ensures r == -1 <==> !IsInfix(p, s)
    ensures r != -1 ==> 0 <= r <= |s| - |p| && p <= s[r..]
    ensures r != -1 ==> forall j :: 0 <= j < r ==> !(p <= s[j..])
  {
    FindFrom(s, p, 0)
  }

  /** The list built by appending each element of `s`, in order, unless it is
      already present: the first occurrence of each distinct value is kept. */
  function Dedup<T(==)>(s: seq<T>): (r: seq<T>)
    ensures NoDuplicates(r)
    ensures forall x :: x in r ==> x in s
    ensures forall x :: x in s ==> x in r
    ensures |r| <= |s|
  {
    if |s| == 0 then []
    else
      var d := Dedup(s[..|s| - 1]);
      var x := s[|s| - 1];
      assert s == s[..|s| - 1] + [x];
      if x in d then d else d + [x]
  }

  /** Python's `s.index(x)`: the position of the first occurrence of `x`. */
  function IndexOf<T(==)>(s: seq<T>, x: T): (r: nat)
    requires x in s
    ensures r < |s| && s[r] == x
    ensures forall j :: 0 <= j < r ==> s[j] != x
  {
    if s[0] == x then 0 else 1 + IndexOf(s[1..], x)
  }

  /** Appending an element leaves the first occurrence of everything already
      present where it was, and puts a new element at the end. */
  lemma IndexOfSnoc<T>(s: seq<T>, x: T, y: T)
    requires y in s + [x]
    ensures y in s ==> IndexOf(s + [x], y) == IndexOf(s, y)
    ensures y !in s ==> IndexOf(s + [x], y) == |s|
  {
    var t := s + [x];
    var a := IndexOf(t, y);
    if y in s {
      var b := IndexOf(s, y);
      assert t[b] == y;
      assert a <= b;
    } else {
      assert forall j :: 0 <= j < |s| ==> t[j] != y;
    }
  }

  /** Every element of `r` occurs in `s`, and `r` lists them in the order of
      their first occurrence in `s`. */
  ghost predicate InFirstSeenOrder<T>(r: seq<T>, s: seq<T>) {
    forall i, j :: 0 <= i < j < |r| ==> r[i] in s && r[j] in s && IndexOf(s, r[i]) < IndexOf(s, r[j])
  }

  /** `Dedup` lists the distinct elements in the order of their first
      occurrence in the input: with its membership and no-duplicates
      guarantees, this pins the result down completely. */
  lemma {:induction false} DedupFirstSeenOrder<T>(s: seq<T>)
    ensures InFirstSeenOrder(Dedup(s), s)
  {
    if |s| > 0 {
      var s', x := s[..|s| - 1], s[|s| - 1];
      assert s == s' + [x];
      DedupFirstSeenOrder(s');
      var d, r := Dedup(s'), Dedup(s);
      assert r == if x in d then d else d + [x];
      forall i, j | 0 <= i < j < |r| ensures r[i] in s && r[j] in s && IndexOf(s, r[i]) < IndexOf(s, r[j]) {
        assert r[i] == d[i] && d[i] in s';
        IndexOfSnoc(s', x, r[i]);
        if j < |d| {
          assert r[j] == d[j] && d[j] in s';
          IndexOfSnoc(s', x, r[j]);
          assert IndexOf(s', d[i]) < IndexOf(s', d[j]);
        } else {
          assert r[j] == x && x !in s';
          IndexOfSnoc(s', x, x);
        }
      }
    } else {
      assert Dedup(s) == [];
    }
  }

  /** Dedup keeps a strict subsequence of the input, so any order on the input
      elements that holds pairwise along `s` also holds along `Dedup(s)`. */
  lemma {:induction false} DedupKeepsOrder<T>(s: seq<T>, le: (T, T) -> bool)
    requires forall i, j :: 0 <= i < j < |s| ==> le(s[i], s[j])
    ensures forall i, j :: 0 <= i < j < |Dedup(s)| ==> le(Dedup(s)[i], Dedup(s)[j])
  {
    if |s| > 0 {
      var s' := s[..|s| - 1];
      var x := s[|s| - 1];
      DedupKeepsOrder(s', le);
      var d := Dedup(s');
      forall y | y in d
        ensures le(y, x)
      {
        assert y in s';
        var k :| 0 <= k < |s'| && s'[k] == y;
        assert s[k] == y;
      }
    }
  }

  // ---------------------------------------------------------------------
  // Lexicographic order and sorting

  /** `less` is a strict total order. */
  ghost predicate StrictTotalOrder<T(!new)>(less: (T, T) -> bool) {
    && (forall x :: !less(x, x))
    && (forall x, y :: x != y ==> less(x, y) || less(y, x))
    && (forall x, y, z :: less(x, y) && less(y, z) ==> less(x, z))
  }

  /** Python's comparison of two strings or two tuples: the first differing
      element decides, and a proper prefix is smaller. */
  predicate LexLess<T(==)>(a: seq<T>, b: seq<T>, less: (T, T) -> bool) {
    if |a| == 0 then |b| > 0
    else if |b| == 0 then false
    else if a[0] == b[0] then LexLess(a[1..], b[1..], less)
    else less(a[0], b[0])
  }

  lemma {:induction false} LexIrreflexive<T>(a: seq<T>, less: (T, T) -> bool)
    ensures !LexLess(a, a, less)
  {
    if |a| > 0 {
      LexIrreflexive(a[1..], less);
    }
  }

  lemma {:induction false} LexConnected<T(!new)>(a: seq<T>, b: seq<T>, less: (T, T) -> bool)
    requires StrictTotalOrder(less)
    requires a != b
    ensures LexLess(a, b, less) || LexLess(b, a, less)
  {
    if |a| > 0 && |b| > 0 && a[0] == b[0] {
      assert a == [a[0]] + a[1..] && b == [b[0]] + b[1..];
      LexConnected(a[1..], b[1..], less);
    }
  }

  lemma {:induction false} LexTransitive<T(!new)>(a: seq<T>, b: seq<T>, c: seq<T>, less: (T, T) -> bool)
    requires StrictTotalOrder(less)
    requires LexLess(a, b, less) && LexLess(b, c, less)
    ensures LexLess(a, c, less)
  {
    if |a| > 0 && |b| > 0 && |c| > 0 && a[0] == b[0] && b[0] == c[0] {
      LexTransitive(a[1..], b[1..], c[1..], less);
    }
  }

  /** The lexicographic extension of a strict total order is one. */
  lemma LexStrictTotalOrder<T(!new)>(less: (T, T) -> bool, lex: (seq<T>, seq<T>) -> bool)
    requires StrictTotalOrder(less)
    requires forall a, b :: lex(a, b) == LexLess(a, b, less)
    ensures StrictTotalOrder(lex)
  {
    forall a: seq<T> ensures !lex(a, a) {
      LexIrreflexive(a, less);
    }
    forall a: seq<T>, b: seq<T> | a != b ensures lex(a, b) || lex(b, a) {
      LexConnected(a, b, less);
    }
    forall a: seq<T>, b: seq<T>, c: seq<T> | lex(a, b) && lex(b, c) ensures lex(a, c) {
      LexTransitive(a, b, c, less);
    }
  }

  ghost predicate SortedBy<T>(s: seq<T>, less: (T, T) -> bool) {
    forall i, j :: 0 <= i < j < |s| ==> less(s[i], s[j])
  }

  /** Inserts `x` before the first element it is smaller than. */
  function Insert<T>(x: T, s: seq<T>, less: (T, T) -> bool): (r: seq<T>)
    ensures multiset(r) == multiset(s) + multiset{x}
  {
    if |s| == 0 then [x]
    else if less(x, s[0]) then [x] + s
    else
      assert s == [s[0]] + s[1..];
      [s[0]] + Insert(x, s[1..], less)
  }

  /** Insertion sort, the model of Python's `sorted` on keys that never tie. */
  function Sort<T>(s: seq<T>, less: (T, T) -> bool): (r: seq<T>)
    ensures multiset(r) == multiset(s)
  {
    if |s| == 0 then []
    else
      assert s == [s[0]] + s[1..];
      Insert(s[0], Sort(s[1..], less), less)
  }

  lemma {:induction false} InsertSorted<T(!new)>(x: T, s: seq<T>, less: (T, T) -> bool)
    requires StrictTotalOrder(less)
    requires SortedBy(s, less) && x !in s
    ensures SortedBy(Insert(x, s, less), less)
  {
    if |s| > 0 && !less(x, s[0]) {
      assert less(s[0], x);
      var t := s[1..];
      InsertSorted(x, t, less);
      var r := Insert(x, t, less);
      forall k | 0 <= k < |r| ensures less(s[0], r[k]) {
        assert r[k] in multiset(r);
        if r[k] != x {
          assert r[k] in multiset(t);
          var m :| 0 <= m < |t| && t[m] == r[k];
          assert s[m + 1] == r[k];
        }
      }
    }
  }

  /** On distinct keys the insertion sort yields a strictly increasing sequence. */
  lemma {:induction false} SortSorted<T(!new)>(s: seq<T>, less: (T, T) -> bool)
    requires StrictTotalOrder(less)
    requires NoDuplicates(s)
    ensures SortedBy(Sort(s, less), less)
  {
    if |s| > 0 {
      SortSorted(s[1..], less);
      var t := Sort(s[1..], less);
      assert s[0] !in s[1..] by {
        forall m | 0 <= m < |s| - 1 ensures s[1..][m] != s[0] {
          assert s[1..][m] == s[m + 1];
        }
      }
      assert s[0] !in multiset(t);
      InsertSorted(s[0], t, less);
    }
  }
}
