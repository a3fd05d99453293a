/** `compute_cider_d` of main.py: for every order 1..n, the TF-IDF dicts are
    turned into key-sorted vectors, each reference vector is compared with the
    candidate vector, the best match is the order's score, and the scores are
    accumulated as `score / n`. The similarity of two vectors (cosine with the
    `1e-8` guard in the source) is a parameter. */
module Cider {
  import opened Results
  import opened Seqs
  import opened Text
  import opened NGrams
  import opened TfIdf

  // ---------------------------------------------------------------------
  // From dicts to vectors

  /** What `compute_tf_idf` guarantees about its dicts: the key list is the
      candidate dict's key set without repetition, and every reference dict
      has the candidate's key set. */
  ghost predicate Aligned(v: TfIdfVectors) {
    && NoDuplicates(v.keys)
    && (forall k :: k in v.keys <==> k in v.cand)
    && (forall j :: 0 <= j < |v.refs| ==> v.refs[j].Keys == v.cand.Keys)
  }

  /** Every dict of one order was filled in the order of `v.keys`, so
      `sorted(d.items())` visits the keys in this order for each of them. */
  function SortedKeys(v: TfIdfVectors): seq<NGram> {
    Sort(v.keys, NGramLess)
  }

  /** The values of `m` listed in the order of `ks`. */
  function Vector(m: map<NGram, real>, ks: seq<NGram>): (r: seq<real>)
    requires forall k :: k in ks ==> k in m
    ensures |r| == |ks|
    ensures forall p :: 0 <= p < |ks| ==> r[p] == m[ks[p]]
  {
    seq(|ks|, p requires 0 <= p < |ks| => m[ks[p]])
  }

  lemma SortedKeysCover(v: TfIdfVectors)
    requires Aligned(v)
    ensures forall k :: k in SortedKeys(v) <==> k in v.cand
  {
    forall k ensures k in SortedKeys(v) <==> k in v.keys {
      assert k in SortedKeys(v) <==> k in multiset(SortedKeys(v));
    }
  }

  /** `cand_vec`. */
  function CandVector(v: TfIdfVectors): seq<real>
    requires Aligned(v)
  {
    SortedKeysCover(v);
    Vector(v.cand, SortedKeys(v))
  }

  /** Row `j` of `ref_vec`. */
  function RefVector(v: TfIdfVectors, j: nat): seq<real>
    requires Aligned(v) && j < |v.refs|
  {
    SortedKeysCover(v);
    Vector(v.refs[j], SortedKeys(v))
  }

  /** Sorting the dicts of one order gives vectors of one length whose
      positions all stand for the same n-gram: position `p` holds the values of
      `ks[p]`, where `ks` lists the candidate's n-grams once each in increasing
      tuple order. */
  lemma SortedVectorsAligned(v: TfIdfVectors)
    requires Aligned(v)
    ensures SortedBy(SortedKeys(v), NGramLess)
    ensures forall k :: k in SortedKeys(v) <==> k in v.cand
    ensures |CandVector(v)| == |SortedKeys(v)|
    ensures forall p :: 0 <= p < |SortedKeys(v)| ==> CandVector(v)[p] == v.cand[SortedKeys(v)[p]]
    ensures forall j :: 0 <= j < |v.refs| ==> |RefVector(v, j)| == |CandVector(v)|
    ensures forall j, p :: 0 <= j < |v.refs| && 0 <= p < |SortedKeys(v)| ==>
              RefVector(v, j)[p] == v.refs[j][SortedKeys(v)[p]]
  {
    NGramLessIsStrictTotalOrder();
    SortSorted(v.keys, NGramLess);
    SortedKeysCover(v);
  }

  // ---------------------------------------------------------------------
  // One order

  /** `np.max` of a non-empty array. */
  function MaxOf(s: seq<real>): (r: real)
    requires |s| > 0
    ensures r in s
    ensures forall x :: x in s ==> x <= r
  {
    if |s| == 1 then s[0]
    else
      var m := MaxOf(s[1..]);
      assert forall x :: x in s ==> x == s[0] || x in s[1..];
      if s[0] >= m then s[0] else m
  }

  /** Entry `j` of `cos_sim`: the candidate vector against reference `j`. */
  function Similarity(v: TfIdfVectors, j: nat, cosine: (seq<real>, seq<real>) -> real): real
    requires Aligned(v) && j < |v.refs|
  {
    cosine(CandVector(v), RefVector(v, j))
  }

  /** `np.max(cos_sim)`: the best similarity of the candidate to any reference. */
  function BestMatch(v: TfIdfVectors, cosine: (seq<real>, seq<real>) -> real): (r: real)
    requires Aligned(v) && |v.refs| > 0
    ensures forall j :: 0 <= j < |v.refs| ==> Similarity(v, j, cosine) <= r
    ensures exists j :: 0 <= j < |v.refs| && Similarity(v, j, cosine) == r
  {
    var sims := seq(|v.refs|, j requires 0 <= j < |v.refs| => Similarity(v, j, cosine));
    var m := MaxOf(sims);
    forall j | 0 <= j < |v.refs| ensures Similarity(v, j, cosine) <= m {
      assert sims[j] in sims;
    }
    var p :| 0 <= p < |sims| && sims[p] == m;
    assert Similarity(v, p, cosine) == m;
    m
  }

  /** The score of order `i`. numpy cannot form or reduce the arrays of an
      empty reference list, so that raises once `compute_tf_idf` has succeeded. */
  function OrderScore(cand: seq<Token>, refs: seq<seq<Token>>, i: nat, mode: string,
                      df: Option<map<NGram, real>>, log: real -> real,
                      cosine: (seq<real>, seq<real>) -> real): (r: Result<real>)
    ensures ComputeTfIdf(cand, refs, i, mode, df, log).Err? ==>
              r == Err(ComputeTfIdf(cand, refs, i, mode, df, log).error)
    ensures ComputeTfIdf(cand, refs, i, mode, df, log).Ok? ==> (r.Err? <==> |refs| == 0)
    ensures r.Err? ==> ComputeTfIdf(cand, refs, i, mode, df, log).Err? || r.error == ShapeError
    ensures r.Ok? ==>
              var v := ComputeTfIdf(cand, refs, i, mode, df, log).value;
              && Aligned(v) && |v.refs| == |refs|
              && (forall j :: 0 <= j < |refs| ==> Similarity(v, j, cosine) <= r.value)
              && (exists j :: 0 <= j < |refs| && Similarity(v, j, cosine) == r.value)
  {
    var v :- ComputeTfIdf(cand, refs, i, mode, df, log);
    if |refs| == 0 then Err(ShapeError)
    else Ok(BestMatch(v, cosine))
  }

  // ---------------------------------------------------------------------
  // All orders
  //
  // The accumulation is stated over any per-order scorer `score`, where
  // `score(i)` stands for the body of the loop at order `i`; `CiderD` then
  // plugs in `OrderScore`.

  /** The scores of orders 1..n, in order; the first failing order aborts. */
  function OrderScores(score: nat -> Result<real>, n: nat): (r: Result<seq<real>>)
    ensures r.Ok? <==> forall i :: 1 <= i <= n ==> score(i).Ok?
    ensures r.Ok? ==> |r.value| == n
    ensures r.Ok? ==> forall i :: 1 <= i <= n ==> score(i) == Ok(r.value[i - 1])
    ensures r.Err? ==> exists i :: 1 <= i <= n && score(i) == Err(r.error)
                                   && forall h :: 1 <= h < i ==> score(h).Ok?
  {
    if n == 0 then Ok([])
    else
      var prev :- OrderScores(score, n - 1);
      var s :- score(n);
      Ok(prev + [s])
  }

  function Sum(s: seq<real>): real {
    if |s| == 0 then 0.0 else Sum(s[..|s| - 1]) + s[|s| - 1]
  }

  /** What the loop returns: the plain mean of the per-order scores, and 0.0
      when `range(1, n + 1)` is empty. */
  function Mean(score: nat -> Result<real>, n: int): Result<real> {
    if n <= 0 then Ok(0.0)
    else
      var scores :- OrderScores(score, n);
      Ok(Sum(scores) / n as real)
  }

  /** Once an order has failed, every longer run of orders fails the same way:
      the first failing order decides. */
  lemma FailurePersists(score: nat -> Result<real>, i: nat, n: nat)
    requires i <= n
    requires OrderScores(score, i).Err?
    ensures OrderScores(score, n) == OrderScores(score, i)
  {
    var short, long := OrderScores(score, i), OrderScores(score, n);
    var h :| 1 <= h <= i && score(h) == Err(short.error) && forall g :: 1 <= g < h ==> score(g).Ok?;
    assert long.Err?;
    var h' :| 1 <= h' <= n && score(h') == Err(long.error) && forall g :: 1 <= g < h' ==> score(g).Ok?;
    assert !(h < h') && !(h' < h);
  }

  /** The loop of `compute_cider_d`: `cider_d += score / n` once per order,
      where the score of order `i` is `score(i)`. */
  method ComputeCiderD(score: nat -> Result<real>, n: int) returns (r: Result<real>)
    ensures r == Mean(score, n)
  {
    var ciderD := 0.0;
    var i := 1;
    ghost var scores: seq<real> := [];
    while i <= n
      invariant 1 <= i && (n >= 1 ==> i <= n + 1)
      invariant OrderScores(score, i - 1) == Ok(scores)
      invariant n >= 1 ==> ciderD == Sum(scores) / n as real
      invariant n < 1 ==> ciderD == 0.0
    {
      var s := score(i);
      if s.Err? {
        FailurePersists(score, i, n);
        return Err(s.error);
      }
      OrderScoresSnoc(score, i, scores);
      AccumulateStep(scores, s.value, n);
      ciderD := ciderD + s.value / n as real;
      scores := scores + [s.value];
      i := i + 1;
    }
    return Ok(ciderD);
  }

  /** One more order extends the scores by its score. */
  lemma OrderScoresSnoc(score: nat -> Result<real>, i: nat, scores: seq<real>)
    requires i >= 1
    requires OrderScores(score, i - 1) == Ok(scores)
    requires score(i).Ok?
    ensures OrderScores(score, i) == Ok(scores + [score(i).value])
  {
  }

  /** Adding the share `x / n` of one more score keeps the running total at
      the sum of the scores so far over `n`. */
  lemma AccumulateStep(scores: seq<real>, x: real, n: int)
    requires n >= 1
    ensures Sum(scores) / n as real + x / n as real == Sum(scores + [x]) / n as real
  {
    SumSnoc(scores, x);
    DivisionDistributes(Sum(scores), x, n as real);
  }

  lemma SumSnoc(s: seq<real>, x: real)
    ensures Sum(s + [x]) == Sum(s) + x
  {
    assert (s + [x])[..|s|] == s;
  }

  lemma {:induction false} SumBounds(s: seq<real>)
    requires forall p :: 0 <= p < |s| ==> 0.0 <= s[p] <= 1.0
    ensures 0.0 <= Sum(s) <= |s| as real
  {
    if |s| > 0 {
      SumBounds(s[..|s| - 1]);
    }
  }

  /** Scores in [0, 1] average to a value in [0, 1]. */
  lemma MeanBounds(score: nat -> Result<real>, n: int)
    requires forall i :: 1 <= i && score(i).Ok? ==> 0.0 <= score(i).value <= 1.0
    requires Mean(score, n).Ok?
    ensures 0.0 <= Mean(score, n).value <= 1.0
  {
    if n > 0 {
      var scores := OrderScores(score, n).value;
      ScoresInUnitRange(score, n, scores);
      SumBounds(scores);
      FractionInUnitRange(Sum(scores), n as real);
    }
  }

  lemma ScoresInUnitRange(score: nat -> Result<real>, n: nat, scores: seq<real>)
    requires forall i :: 1 <= i && score(i).Ok? ==> 0.0 <= score(i).value <= 1.0
    requires OrderScores(score, n) == Ok(scores)
    ensures forall p :: 0 <= p < |scores| ==> 0.0 <= scores[p] <= 1.0
  {
    forall p | 0 <= p < |scores| ensures 0.0 <= scores[p] <= 1.0 {
      assert score(p + 1) == Ok(scores[p]);
    }
  }

  lemma FractionInUnitRange(a: real, b: real)
    requires 0.0 <= a <= b && b > 0.0
    ensures 0.0 <= a / b <= 1.0
  {
  }

  lemma {:induction false} ZeroScoresSumToZero(s: seq<real>)
    requires forall p :: 0 <= p < |s| ==> s[p] == 0.0
    ensures Sum(s) == 0.0
  {
    if |s| > 0 {
      ZeroScoresSumToZero(s[..|s| - 1]);
    }
  }

  /** Orders that all score 0 average to 0. */
  lemma MeanOfZeros(score: nat -> Result<real>, n: int)
    requires forall i :: 1 <= i <= n ==> score(i) == Ok(0.0)
    ensures Mean(score, n) == Ok(0.0)
  {
    if n > 0 {
      var scores := OrderScores(score, n).value;
      forall p | 0 <= p < |scores| ensures scores[p] == 0.0 {
        assert score(p + 1) == Ok(scores[p]);
      }
      ZeroScoresSumToZero(scores);
    }
  }

  // ---------------------------------------------------------------------
  // The CIDEr-D score

  /** The loop body of `compute_cider_d` as a function of the order. */
  function Scorer(cand: seq<Token>, refs: seq<seq<Token>>, mode: string, df: Option<map<NGram, real>>,
                  log: real -> real, cosine: (seq<real>, seq<real>) -> real): nat -> Result<real>
  {
    (i: nat) => OrderScore(cand, refs, i, mode, df, log, cosine)
  }

  /** `compute_cider_d(cand, ref, n, mode, df)` on tokenized texts. */
  function CiderD(cand: seq<Token>, refs: seq<seq<Token>>, n: int, mode: string,
                  df: Option<map<NGram, real>>, log: real -> real,
                  cosine: (seq<real>, seq<real>) -> real): Result<real>
  {
    Mean(Scorer(cand, refs, mode, df, log, cosine), n)
  }

  /** Every entry of the vector is at least 0. */
  ghost predicate NonNegativeVector(a: seq<real>) {
    forall p :: 0 <= p < |a| ==> a[p] >= 0.0
  }

  /** The similarity stays in [0, 1] on vectors without negative entries, as
      the guarded cosine does: the dot product of two such vectors is at least
      0 and at most the product of their norms, which the `1e-8` only raises.
      On vectors with entries of both signs the cosine can be negative, so no
      bound is assumed there. */
  ghost predicate UnitOnNonNegative(cosine: (seq<real>, seq<real>) -> real) {
    forall a, b :: NonNegativeVector(a) && NonNegativeVector(b) ==> 0.0 <= cosine(a, b) <= 1.0
  }

  /** Sorting non-negative dicts gives non-negative vectors. */
  lemma VectorsNonNegative(v: TfIdfVectors)
    requires Aligned(v)
    requires NonNegative(v.cand) && forall j :: 0 <= j < |v.refs| ==> NonNegative(v.refs[j])
    ensures NonNegativeVector(CandVector(v))
    ensures forall j :: 0 <= j < |v.refs| ==> NonNegativeVector(RefVector(v, j))
  {
    SortedVectorsAligned(v);
    var ks := SortedKeys(v);
    forall p | 0 <= p < |CandVector(v)| ensures CandVector(v)[p] >= 0.0 {
      assert ks[p] in ks;
    }
    forall j, p | 0 <= j < |v.refs| && 0 <= p < |RefVector(v, j)| ensures RefVector(v, j)[p] >= 0.0 {
      assert ks[p] in ks && ks[p] in v.refs[j];
    }
  }

  /** With a non-negative IDF and a similarity that stays in [0, 1] on
      non-negative vectors, the CIDEr-D score stays in [0, 1]. */
  lemma ScoreRange(cand: seq<Token>, refs: seq<seq<Token>>, n: int, mode: string,
                   df: Option<map<NGram, real>>, log: real -> real,
                   cosine: (seq<real>, seq<real>) -> real)
    requires UnitOnNonNegative(cosine)
    requires IdfNonNegative(mode, df, refs, log)
    requires CiderD(cand, refs, n, mode, df, log, cosine).Ok?
    ensures 0.0 <= CiderD(cand, refs, n, mode, df, log, cosine).value <= 1.0
  {
    var score := Scorer(cand, refs, mode, df, log, cosine);
    forall i | 1 <= i && score(i).Ok? ensures 0.0 <= score(i).value <= 1.0 {
      OrderScoreBounds(cand, refs, i, mode, df, log, cosine);
    }
    MeanBounds(score, n);
  }

  /** Every order's score is the similarity of two non-negative vectors. */
  lemma OrderScoreBounds(cand: seq<Token>, refs: seq<seq<Token>>, i: nat, mode: string,
                         df: Option<map<NGram, real>>, log: real -> real,
                         cosine: (seq<real>, seq<real>) -> real)
    requires UnitOnNonNegative(cosine)
    requires IdfNonNegative(mode, df, refs, log)
    requires OrderScore(cand, refs, i, mode, df, log, cosine).Ok?
    ensures 0.0 <= OrderScore(cand, refs, i, mode, df, log, cosine).value <= 1.0
  {
    var v := ComputeTfIdf(cand, refs, i, mode, df, log).value;
    var r := OrderScore(cand, refs, i, mode, df, log, cosine).value;
    TfIdfNonNegative(cand, refs, i, mode, df, log, v);
    VectorsNonNegative(v);
    var j :| 0 <= j < |refs| && Similarity(v, j, cosine) == r;
    assert NonNegativeVector(CandVector(v)) && NonNegativeVector(RefVector(v, j));
  }

  /** An order longer than the candidate yields empty vectors, whose similarity
      the `1e-8` guard makes 0; such an order scores 0 whatever the mode. */
  lemma EmptyOrderScoresZero(cand: seq<Token>, refs: seq<seq<Token>>, i: nat, mode: string,
                             df: Option<map<NGram, real>>, log: real -> real,
                             cosine: (seq<real>, seq<real>) -> real)
    requires i > |cand| && |refs| > 0
    requires cosine([], []) == 0.0
    ensures OrderScore(cand, refs, i, mode, df, log, cosine) == Ok(0.0)
  {
    ShortCandidateNeverChecksMode(cand, refs, i, mode, df, log);
    var v := ComputeTfIdf(cand, refs, i, mode, df, log).value;
    forall j | 0 <= j < |refs| ensures Similarity(v, j, cosine) == 0.0 {
      assert CandVector(v) == [] && RefVector(v, j) == [];
    }
  }

  /** An empty candidate scores 0 at every order, so its CIDEr-D is 0 even
      under a mode string that names no IDF source. */
  lemma EmptyCandidateScoresZero(refs: seq<seq<Token>>, n: int, mode: string,
                                 df: Option<map<NGram, real>>, log: real -> real,
                                 cosine: (seq<real>, seq<real>) -> real)
    requires |refs| > 0
    requires cosine([], []) == 0.0
    ensures CiderD([], refs, n, mode, df, log, cosine) == Ok(0.0)
  {
    var score := Scorer([], refs, mode, df, log, cosine);
    forall i | 1 <= i <= n ensures score(i) == Ok(0.0) {
      EmptyOrderScoresZero([], refs, i, mode, df, log, cosine);
    }
    MeanOfZeros(score, n);
  }

  /** Without references there is nothing to compare against: the first
      order already raises. It raises the mode's error when the candidate has a
      unigram and the mode is rejected, and numpy's shape error otherwise. */
  lemma NoReferencesRaise(cand: seq<Token>, n: int, mode: string,
                          df: Option<map<NGram, real>>, log: real -> real,
                          cosine: (seq<real>, seq<real>) -> real)
    requires n >= 1
    ensures CiderD(cand, [], n, mode, df, log, cosine).Err?
    ensures CiderD(cand, [], n, mode, df, log, cosine).error
            == if |cand| >= 1 && IdfSourceOf(mode, df).Err? then IdfSourceOf(mode, df).error else ShapeError
  {
    var score := Scorer(cand, [], mode, df, log, cosine);
    var e := if |cand| >= 1 && IdfSourceOf(mode, df).Err? then IdfSourceOf(mode, df).error else ShapeError;
    assert !DividesByZero(cand, [], 1);
    assert score(1) == Err(e);
    assert OrderScores(score, 1) == Err(e);
    FailurePersists(score, 1, n);
  }

  /** A candidate with at least one token meets an unknown mode at order 1,
      and that ValueError is the result. */
  lemma InvalidModeRaisesAtFirstOrder(cand: seq<Token>, refs: seq<seq<Token>>, n: int, mode: string,
                                      df: Option<map<NGram, real>>, log: real -> real,
                                      cosine: (seq<real>, seq<real>) -> real)
    requires mode != CorpusMode && mode != CocoValDfMode
    requires |cand| >= 1 && n >= 1
    ensures CiderD(cand, refs, n, mode, df, log, cosine) == Err(ValueError("Invalid mode: " + mode))
  {
    var score := Scorer(cand, refs, mode, df, log, cosine);
    InvalidModeRaises(cand, refs, 1, mode, df, log);
    assert score(1) == Err(ValueError("Invalid mode: " + mode));
    assert OrderScores(score, 1) == Err(ValueError("Invalid mode: " + mode));
    FailurePersists(score, 1, n);
  }
}
