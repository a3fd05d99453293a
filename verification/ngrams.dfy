/** The n-gram extractor shared by both engines: the sliding window
    `text[i:i+n] for i in range(len(text) - n + 1)`, the `Counter` over it, and
    the order `sorted` uses on n-gram tuples. */
module NGrams {
  import opened Seqs
  import opened Text

  type NGram = seq<Token>

  /** Number of start positions `range(len(text) - n + 1)` yields. */
  function WindowCount(len: nat, n: nat): nat {
    if n <= len then len - n + 1 else 0
  }

  /** The sliding window of order `n` over `text`, left to right. */
  function Windows<T>(text: seq<T>, n: nat): (r: seq<seq<T>>)
    ensures |r| == WindowCount(|text|, n)
    ensures forall i :: 0 <= i < |r| ==> r[i] == text[i..i + n]
  {
    seq(WindowCount(|text|, n), i requires 0 <= i < WindowCount(|text|, n) => text[i..i + n])
  }

  /** `x` is an n-gram of order `n` of `text`: a block of `n` consecutive tokens. */
  ghost predicate IsNGramOf<T>(x: seq<T>, text: seq<T>, n: nat) {
    |x| == n && IsInfix(x, text)
  }

  /** The window of order `n` holds exactly the n-grams of order `n` of the text. */
  lemma WindowsAreBlocks<T>(text: seq<T>, n: nat, x: seq<T>)
    ensures x in Windows(text, n) <==> IsNGramOf(x, text, n)
  {
    var w := Windows(text, n);
    if x in w {
      var i :| 0 <= i < |w| && w[i] == x;
      assert x <= text[i..];
    }
    if |x| == n && IsInfix(x, text) {
      var i :| 0 <= i <= |text| - |x| && x <= text[i..];
      assert w[i] == x;
    }
  }

  /** Number of positions at which `x` starts in `text`: an independent
      reference for the `Counter` value of `x`. */
  function Occurrences<T(==)>(x: seq<T>, text: seq<T>): nat
    decreases |text|
  {
    if |text| < |x| then 0
    else (if x <= text then 1 else 0) + (if |text| == 0 then 0 else Occurrences(x, text[1..]))
  }

  /** `Counter(windows)[x]`: the window multiset counts each n-gram once per
      start position. */
  lemma {:induction false} CounterIsOccurrences<T>(text: seq<T>, n: nat, x: seq<T>)
    requires |x| == n
    ensures multiset(Windows(text, n))[x] == Occurrences(x, text)
    decreases |text|
  {
    if n <= |text| {
      if |text| == 0 {
        assert Windows(text, n) == [text[0..0]];
      } else {
        WindowsUncons(text, n);
        CounterIsOccurrences(text[1..], n, x);
        assert (x <= text) <==> x == text[..n];
      }
    }
  }

  /** The window starts with the leading n-gram, then slides over the rest. */
  lemma WindowsUncons<T>(text: seq<T>, n: nat)
    requires 1 <= |text| && n <= |text|
    ensures Windows(text, n) == [text[..n]] + Windows(text[1..], n)
  {
    var w, w' := Windows(text, n), Windows(text[1..], n);
    forall i | 0 <= i < |w'| ensures w'[i] == w[i + 1] {
      assert text[1..][i..i + n] == text[i + 1..i + 1 + n];
    }
  }

  /** Order-n n-grams of a text, each counted once, in order of first appearance:
      the key order of `Counter(...)` and of every dict built from it. */
  function DistinctNGrams(text: seq<Token>, n: nat): (r: seq<NGram>)
    ensures NoDuplicates(r)
    ensures forall x :: x in r <==> IsNGramOf(x, text, n)
  {
    var r := Dedup(Windows(text, n));
    assert forall x :: x in r <==> x in Windows(text, n);
    forall x ensures x in r <==> IsNGramOf(x, text, n) {
      WindowsAreBlocks(text, n, x);
    }
    r
  }

  // ---------------------------------------------------------------------
  // Counter totals

  /** Sum of the counts of `m` over the listed keys. */
  function SumCounts<K>(keys: seq<K>, m: multiset<K>): nat {
    if |keys| == 0 then 0 else m[keys[0]] + SumCounts(keys[1..], m)
  }

  lemma {:induction false} SumCountsSnoc<K>(keys: seq<K>, k: K, m: multiset<K>)
    ensures SumCounts(keys + [k], m) == SumCounts(keys, m) + m[k]
  {
    if |keys| > 0 {
      assert (keys + [k])[1..] == keys[1..] + [k];
      SumCountsSnoc(keys[1..], k, m);
    }
  }

  lemma {:induction false} SumCountsAddOne<K>(keys: seq<K>, m: multiset<K>, x: K)
    requires NoDuplicates(keys)
    ensures SumCounts(keys, m + multiset{x}) == SumCounts(keys, m) + (if x in keys then 1 else 0)
  {
    if |keys| > 0 {
      SumCountsAddOne(keys[1..], m, x);
      assert x in keys <==> x == keys[0] || x in keys[1..] by {
        assert keys == [keys[0]] + keys[1..];
      }
    }
  }

  /** Summing a `Counter` over its keys in first-appearance order gives the
      number of counted items. */
  lemma {:induction false} CounterTotal<K>(s: seq<K>)
    ensures SumCounts(Dedup(s), multiset(s)) == |s|
  {
    if |s| > 0 {
      var s', x := s[..|s| - 1], s[|s| - 1];
      assert s == s' + [x];
      var d := Dedup(s');
      CounterTotal(s');
      SumCountsAddOne(d, multiset(s'), x);
      if x !in d {
        SumCountsSnoc(d, x, multiset(s));
        assert x !in s';
      }
    }
  }

  /** Sum of the occurrence counts of the listed n-grams. */
  function SumOccurrences<T(==)>(keys: seq<seq<T>>, text: seq<T>): nat {
    if |keys| == 0 then 0 else Occurrences(keys[0], text) + SumOccurrences(keys[1..], text)
  }

  lemma {:induction false} SumOccurrencesIsSumCounts<T>(keys: seq<seq<T>>, text: seq<T>, n: nat)
    requires forall k :: k in keys ==> |k| == n
    ensures SumOccurrences(keys, text) == SumCounts(keys, multiset(Windows(text, n)))
  {
    if |keys| > 0 {
      CounterIsOccurrences(text, n, keys[0]);
      assert forall k :: k in keys[1..] ==> k in keys;
      SumOccurrencesIsSumCounts(keys[1..], text, n);
    }
  }

  /** Every position where some n-gram of order `n` starts yields one window:
      over the distinct n-grams (the `Counter`'s keys), the independently
      counted occurrences add up to `len(text) - n + 1` when the text is long
      enough, and to 0 otherwise. */
  lemma WindowTotal<T>(text: seq<T>, n: nat)
    ensures SumOccurrences(Dedup(Windows(text, n)), text) == if n <= |text| then |text| - n + 1 else 0
  {
    var w := Windows(text, n);
    assert forall k :: k in Dedup(w) ==> k in w;
    SumOccurrencesIsSumCounts(Dedup(w), text, n);
    CounterTotal(w);
  }

  /** The window has one entry for each start position `i` whose slice
      `text[i:i+n]` is a full n-gram. */
  lemma WindowStarts<T>(text: seq<T>, n: nat, i: nat)
    ensures i < |Windows(text, n)| <==> i + n <= |text|
  {
  }

  // ---------------------------------------------------------------------
  // Order on n-grams

  /** Python's `<` on tuples of strings. */
  predicate NGramLess(a: NGram, b: NGram) {
    LexLess(a, b, StrLess)
  }

  lemma NGramLessIsStrictTotalOrder()
    ensures StrictTotalOrder(NGramLess)
  {
    StrLessIsStrictTotalOrder();
    LexStrictTotalOrder(StrLess, NGramLess);
  }
}
