/** `compute_tf_idf` of main.py on already tokenized texts: n-gram counters, term
    frequencies, and the candidate and reference TF-IDF dicts, all keyed by the
    candidate's n-grams. The natural logarithm is a parameter. */
module TfIdf {
  import opened Results
  import opened Seqs
  import opened Text
  import opened NGrams

  const CorpusMode := "corpus"
  const CocoValDfMode := "coco-val-df"

  /** `{k: v / len(text) for k, v in Counter(windows).items()}`. An empty text
      with a non-empty counter (only possible at order 0) divides by zero. */
  function TermFrequencies(text: seq<Token>, n: nat): (r: Result<map<NGram, real>>)
    ensures r.Err? <==> n == 0 && |text| == 0
    ensures r.Err? ==> r.error == ZeroDivisionError
    ensures r.Ok? ==> forall k :: k in r.value <==> IsNGramOf(k, text, n)
    ensures r.Ok? ==> forall k :: k in r.value ==>
              |text| > 0 && r.value[k] == Occurrences(k, text) as real / |text| as real
  {
    var windows := Windows(text, n);
    var counter := multiset(windows);
    if |windows| == 0 then
      forall k ensures k in windows <==> IsNGramOf(k, text, n) {
        WindowsAreBlocks(text, n, k);
      }
      Ok(map[])
    else if |text| == 0 then Err(ZeroDivisionError)
    else
      forall k | k in counter ensures |k| == n && counter[k] == Occurrences(k, text) {
        assert k in windows;
        CounterIsOccurrences(text, n, k);
      }
      forall k ensures k in counter <==> IsNGramOf(k, text, n) {
        WindowsAreBlocks(text, n, k);
      }
      Ok(map k | k in counter :: counter[k] as real / |text| as real)
  }

  /** `ref_tf`: the term frequencies of every reference, in order; the first
      failing reference aborts the list comprehension. */
  function AllTermFrequencies(refs: seq<seq<Token>>, n: nat): (r: Result<seq<map<NGram, real>>>)
    ensures r.Err? <==> n == 0 && exists j :: 0 <= j < |refs| && |refs[j]| == 0
    ensures r.Err? ==> r.error == ZeroDivisionError
    ensures r.Ok? ==> |r.value| == |refs|
    ensures r.Ok? ==> forall j :: 0 <= j < |refs| ==> TermFrequencies(refs[j], n) == Ok(r.value[j])
  {
    if |refs| == 0 then Ok([])
    else
      var head :- TermFrequencies(refs[0], n);
      var tail :- AllTermFrequencies(refs[1..], n);
      assert forall j :: 0 < j < |refs| ==> refs[1..][j - 1] == refs[j];
      Ok([head] + tail)
  }

  // ---------------------------------------------------------------------
  // IDF sources

  /** The two kinds of Python value that meet in `k in r`: a token of the list
      `r` and the n-gram tuple `k`. */
  datatype PyValue = PyStr(s: string) | PyTuple(items: seq<string>)

  /** A tokenized reference seen as the Python list it is: a list of `str`. */
  function AsPyList(ref: seq<Token>): seq<PyValue> {
    seq(|ref|, j requires 0 <= j < |ref| => PyStr(ref[j]))
  }

  /** `sum([1.0 for r in ref if k in r])`: `in` on a list compares the tuple `k`
      with each token by equality. */
  function ReferencesContaining(k: NGram, refs: seq<seq<Token>>): nat {
    if |refs| == 0 then 0
    else (if PyTuple(k) in AsPyList(refs[0]) then 1 else 0) + ReferencesContaining(k, refs[1..])
  }

  /** A tuple never equals a string, so in corpus mode no reference is ever
      counted as containing an n-gram. */
  lemma {:induction false} NoReferenceContainsATuple(k: NGram, refs: seq<seq<Token>>)
    ensures ReferencesContaining(k, refs) == 0
  {
    if |refs| > 0 {
      assert PyTuple(k) !in AsPyList(refs[0]);
      NoReferenceContainsATuple(k, refs[1..]);
    }
  }

  /** Where the IDF of a key comes from, once the mode dispatch has accepted
      `mode` and `df`. */
  datatype IdfSource = CorpusIdf | TableIdf(table: map<NGram, real>)

  /** The mode dispatch of the loop body: `"corpus"` counts references,
      `"coco-val-df"` looks the key up in `df` (a missing `df` fails on
      `df.get`), and any other mode raises `ValueError`. */
  function IdfSourceOf(mode: string, df: Option<map<NGram, real>>): (r: Result<IdfSource>)
    ensures r == Ok(CorpusIdf) <==> mode == CorpusMode
    ensures (exists t :: r == Ok(TableIdf(t))) <==> mode == CocoValDfMode && df.Some?
    ensures r.Ok? && r.value.TableIdf? ==> r.value.table == df.value
    ensures mode == CocoValDfMode && df.None? ==> r == Err(AttributeError)
    ensures mode != CorpusMode && mode != CocoValDfMode ==> r == Err(ValueError("Invalid mode: " + mode))
  {
    if mode == CorpusMode then Ok(CorpusIdf)
    else if mode == CocoValDfMode then
      if df.None? then Err(AttributeError) else Ok(TableIdf(df.value))
    else Err(ValueError("Invalid mode: " + mode))
  }

  /** The IDF of key `k`: `log((len(ref) + 1) / (1 + #references containing k))`
      or `df.get(k, 0.0)`. */
  function Idf(src: IdfSource, refs: seq<seq<Token>>, log: real -> real, k: NGram): real {
    match src
    case CorpusIdf => log((|refs| as real + 1.0) / (1.0 + ReferencesContaining(k, refs) as real))
    case TableIdf(table) => GetOrZero(table, k)
  }

  /** The IDF of every key in corpus mode: the same value for every n-gram. */
  lemma CorpusIdfIsConstant(refs: seq<seq<Token>>, log: real -> real, k: NGram)
    ensures Idf(CorpusIdf, refs, log, k) == log(|refs| as real + 1.0)
  {
    NoReferenceContainsATuple(k, refs);
    assert (|refs| as real + 1.0) / (1.0 + 0 as real) == |refs| as real + 1.0;
  }

  // ---------------------------------------------------------------------
  // The vectorizer

  /** The two results of `compute_tf_idf`. `keys` is the insertion order shared
      by `cand` and every map of `refs`, which are all filled in one loop. */
  datatype TfIdfVectors = TfIdfVectors(keys: seq<NGram>, cand: map<NGram, real>, refs: seq<map<NGram, real>>)

  /** The TF of `k` in a text: its count over the text's token count (0 for an
      empty text, which has no n-gram of positive order). */
  function Tf(ref: seq<Token>, k: NGram): real {
    if |ref| > 0 then Occurrences(k, ref) as real / |ref| as real else 0.0
  }

  /** `ref_tf[i].get(k, 0.0)`. */
  function GetOrZero(m: map<NGram, real>, k: NGram): real {
    if k in m then m[k] else 0.0
  }

  /** The reference-side condition under which the TF of order `n` divides by zero. */
  ghost predicate DividesByZero(cand: seq<Token>, refs: seq<seq<Token>>, n: nat) {
    n == 0 && (|cand| == 0 || exists j :: 0 <= j < |refs| && |refs[j]| == 0)
  }

  /** One dict of the loop over the candidate's n-grams: `tf.get(k, 0.0) * idf`
      for every key `k`. */
  function Weigh(tf: map<NGram, real>, keys: seq<NGram>, src: IdfSource,
                 refs: seq<seq<Token>>, log: real -> real): (r: map<NGram, real>)
    ensures forall k :: k in r <==> k in keys
    ensures forall k {:trigger r[k]} :: k in keys ==> r[k] == Weight(tf, src, refs, log, k)
  {
    map k | k in keys :: Weight(tf, src, refs, log, k)
  }

  /** The reference dicts of the loop: one weighed dict per reference TF map. */
  function WeighEach(tfs: seq<map<NGram, real>>, keys: seq<NGram>, src: IdfSource,
                     refs: seq<seq<Token>>, log: real -> real): (r: seq<map<NGram, real>>)
    ensures |r| == |tfs|
    ensures forall j {:trigger r[j]} :: 0 <= j < |tfs| ==> r[j] == Weigh(tfs[j], keys, src, refs, log)
  {
    seq(|tfs|, j requires 0 <= j < |tfs| => Weigh(tfs[j], keys, src, refs, log))
  }

  /** `tf.get(k, 0.0) * idf`. */
  function Weight(tf: map<NGram, real>, src: IdfSource, refs: seq<seq<Token>>, log: real -> real, k: NGram): real {
    GetOrZero(tf, k) * Idf(src, refs, log, k)
  }

  /** `tf.get(k, 0.0)` is the TF of `k` in `text` for every listed key. */
  ghost predicate TfAgrees(tf: map<NGram, real>, text: seq<Token>, keys: seq<NGram>) {
    forall k :: k in keys ==> GetOrZero(tf, k) == Tf(text, k)
  }

  /** `w` holds every listed key, at the key's TF in `text` times its IDF. */
  ghost predicate Weighed(w: map<NGram, real>, text: seq<Token>, keys: seq<NGram>, src: IdfSource,
                          refs: seq<seq<Token>>, log: real -> real) {
    forall k :: k in keys ==> k in w && w[k] == Tf(text, k) * Idf(src, refs, log, k)
  }

  /** `compute_tf_idf(cand, ref, n, mode, df)` with the tokenizer already applied.
      The mode is inspected inside the loop over the candidate's n-grams, so an
      invalid mode is only reported when the candidate has an n-gram of order n. */
  function ComputeTfIdf(cand: seq<Token>, refs: seq<seq<Token>>, n: nat, mode: string,
                        df: Option<map<NGram, real>>, log: real -> real): (r: Result<TfIdfVectors>)
    ensures r.Err? <==> DividesByZero(cand, refs, n)
                        || (WindowCount(|cand|, n) > 0 && IdfSourceOf(mode, df).Err?)
    ensures DividesByZero(cand, refs, n) ==> r == Err(ZeroDivisionError)
    ensures r.Err? && !DividesByZero(cand, refs, n) ==> r.error == IdfSourceOf(mode, df).error
    ensures r.Ok? ==> forall k :: k in r.value.cand <==> IsNGramOf(k, cand, n)
    ensures r.Ok? ==> NoDuplicates(r.value.keys)
    ensures r.Ok? ==> forall k :: k in r.value.keys <==> k in r.value.cand
    ensures r.Ok? ==> |r.value.refs| == |refs|
    ensures r.Ok? ==> forall j :: 0 <= j < |refs| ==> r.value.refs[j].Keys == r.value.cand.Keys
    ensures r.Ok? && |r.value.keys| > 0 ==> IdfSourceOf(mode, df).Ok?
    ensures r.Ok? && |r.value.keys| > 0 ==>
              Weighed(r.value.cand, cand, r.value.keys, IdfSourceOf(mode, df).value, refs, log)
    ensures r.Ok? && |r.value.keys| > 0 ==> forall j :: 0 <= j < |refs| ==>
              Weighed(r.value.refs[j], refs[j], r.value.keys, IdfSourceOf(mode, df).value, refs, log)
  {
    var candTf :- TermFrequencies(cand, n);
    var refTf :- AllTermFrequencies(refs, n);
    var keys := DistinctNGrams(cand, n);
    HasNGramsIffKeys(cand, n);
    if |keys| == 0 then
      Ok(TfIdfVectors([], map[], seq(|refs|, _ => map[])))
    else
      var src :- IdfSourceOf(mode, df);
      TfLookups(cand, n, candTf, keys);
      EachTfLookup(refs, n, refTf, keys);
      Ok(WeighAll(cand, refs, candTf, refTf, keys, src, log))
  }

  /** The loop over the candidate's keys, given the term frequencies: the
      candidate dict and one dict per reference, all keyed by `keys`. */
  function WeighAll(cand: seq<Token>, refs: seq<seq<Token>>, candTf: map<NGram, real>,
                    refTf: seq<map<NGram, real>>, keys: seq<NGram>, src: IdfSource, log: real -> real): (r: TfIdfVectors)
    requires TfAgrees(candTf, cand, keys)
    requires |refTf| == |refs| && forall j :: 0 <= j < |refs| ==> TfAgrees(refTf[j], refs[j], keys)
    ensures r.keys == keys
    ensures forall k :: k in r.cand <==> k in keys
    ensures |r.refs| == |refs|
    ensures forall j :: 0 <= j < |refs| ==> r.refs[j].Keys == r.cand.Keys
    ensures Weighed(r.cand, cand, keys, src, refs, log)
    ensures forall j :: 0 <= j < |refs| ==> Weighed(r.refs[j], refs[j], keys, src, refs, log)
  {
    WeighedTfs(cand, candTf, keys, src, refs, log);
    EachWeighedTf(refs, refTf, keys, src, log);
    TfIdfVectors(keys, Weigh(candTf, keys, src, refs, log), WeighEach(refTf, keys, src, refs, log))
  }

  /** `tf.get(k, 0.0)` for the term frequencies of `text` is the TF of `k` in
      `text`, for every listed n-gram of the order. */
  lemma TfLookups(text: seq<Token>, n: nat, tf: map<NGram, real>, keys: seq<NGram>)
    requires TermFrequencies(text, n) == Ok(tf)
    requires forall k :: k in keys ==> |k| == n
    ensures TfAgrees(tf, text, keys)
  {
    forall k | k in keys ensures GetOrZero(tf, k) == Tf(text, k) {
      TfLookup(text, n, k);
    }
  }

  /** A dict weighed from the term frequencies of `text` holds, at each key,
      the key's TF in `text` times its IDF. */
  lemma {:induction false} WeighedTfs(text: seq<Token>, tf: map<NGram, real>, keys: seq<NGram>, src: IdfSource,
                                      refs: seq<seq<Token>>, log: real -> real)
    requires TfAgrees(tf, text, keys)
    ensures Weighed(Weigh(tf, keys, src, refs, log), text, keys, src, refs, log)
  {
    forall k | k in keys
      ensures Weigh(tf, keys, src, refs, log)[k] == Tf(text, k) * Idf(src, refs, log, k)
    {
      WeighedTf(text, tf, keys, src, refs, log, k);
    }
  }

  lemma {:induction false} WeighedTf(text: seq<Token>, tf: map<NGram, real>, keys: seq<NGram>, src: IdfSource,
                                     refs: seq<seq<Token>>, log: real -> real, k: NGram)
    requires k in keys && GetOrZero(tf, k) == Tf(text, k)
    ensures Weigh(tf, keys, src, refs, log)[k] == Tf(text, k) * Idf(src, refs, log, k)
  {
  }

  /** `TfLookups` for every reference. */
  lemma {:induction false} EachTfLookup(refs: seq<seq<Token>>, n: nat, tfs: seq<map<NGram, real>>, keys: seq<NGram>)
    requires AllTermFrequencies(refs, n) == Ok(tfs)
    requires forall k :: k in keys ==> |k| == n
    ensures forall j :: 0 <= j < |refs| ==> TfAgrees(tfs[j], refs[j], keys)
  {
    forall j | 0 <= j < |refs| ensures TfAgrees(tfs[j], refs[j], keys) {
      TfLookups(refs[j], n, tfs[j], keys);
    }
  }

  /** `WeighedTfs` for every reference dict. */
  lemma {:induction false} EachWeighedTf(refs: seq<seq<Token>>, tfs: seq<map<NGram, real>>, keys: seq<NGram>,
                                         src: IdfSource, log: real -> real)
    requires |tfs| == |refs|
    requires forall j :: 0 <= j < |refs| ==> TfAgrees(tfs[j], refs[j], keys)
    ensures forall j :: 0 <= j < |refs| ==> Weighed(WeighEach(tfs, keys, src, refs, log)[j], refs[j], keys, src, refs, log)
  {
    forall j | 0 <= j < |refs|
      ensures Weighed(WeighEach(tfs, keys, src, refs, log)[j], refs[j], keys, src, refs, log)
    {
      assert WeighEach(tfs, keys, src, refs, log)[j] == Weigh(tfs[j], keys, src, refs, log);
      WeighedTfs(refs[j], tfs[j], keys, src, refs, log);
    }
  }

  /** The candidate has an n-gram of order n exactly when its key list is non-empty. */
  lemma HasNGramsIffKeys(text: seq<Token>, n: nat)
    ensures WindowCount(|text|, n) > 0 <==> |DistinctNGrams(text, n)| > 0
  {
    var w := Windows(text, n);
    if |w| > 0 {
      assert w[0] in w;
    }
    if |DistinctNGrams(text, n)| > 0 {
      assert DistinctNGrams(text, n)[0] in w;
    }
  }

  // ---------------------------------------------------------------------
  // Properties

  /** An unknown mode raises `ValueError("Invalid mode: ...")`, but only when the
      candidate has an n-gram of this order and nothing divided by zero first. */
  lemma InvalidModeRaises(cand: seq<Token>, refs: seq<seq<Token>>, n: nat, mode: string,
                          df: Option<map<NGram, real>>, log: real -> real)
    requires mode != CorpusMode && mode != CocoValDfMode
    requires 1 <= n <= |cand|
    ensures ComputeTfIdf(cand, refs, n, mode, df, log) == Err(ValueError("Invalid mode: " + mode))
  {
    HasNGramsIffKeys(cand, n);
  }

  /** `"coco-val-df"` without a table fails on `df.get` with AttributeError, but
      only when the candidate has an n-gram of this order. */
  lemma MissingTableRaises(cand: seq<Token>, refs: seq<seq<Token>>, n: nat, log: real -> real)
    requires 1 <= n <= |cand|
    ensures ComputeTfIdf(cand, refs, n, CocoValDfMode, None, log) == Err(AttributeError)
  {
    HasNGramsIffKeys(cand, n);
  }

  /** A candidate shorter than the order has no n-grams, so any mode string,
      valid or not, yields empty dicts, one per reference. */
  lemma ShortCandidateNeverChecksMode(cand: seq<Token>, refs: seq<seq<Token>>, n: nat, mode: string,
                                      df: Option<map<NGram, real>>, log: real -> real)
    requires n > |cand|
    ensures ComputeTfIdf(cand, refs, n, mode, df, log)
            == Ok(TfIdfVectors([], map[], seq(|refs|, _ => map[])))
  {
    HasNGramsIffKeys(cand, n);
  }

  /** `ref_tf.get(k, 0.0)` for a candidate n-gram `k` is the reference's TF of
      `k`, which is 0 when the reference lacks it. */
  lemma TfLookup(ref: seq<Token>, n: nat, k: NGram)
    requires TermFrequencies(ref, n).Ok? && |k| == n
    ensures GetOrZero(TermFrequencies(ref, n).value, k) == Tf(ref, k)
    ensures !IsInfix(k, ref) ==> Tf(ref, k) == 0.0
  {
    var tf := TermFrequencies(ref, n).value;
    if !IsInfix(k, ref) {
      WindowsAreBlocks(ref, n, k);
      CounterIsOccurrences(ref, n, k);
      assert Occurrences(k, ref) == 0;
      if |ref| > 0 {
        ZeroOver(|ref|);
      }
      assert k !in tf;
    }
  }

  lemma ZeroOver(b: nat)
    requires b > 0
    ensures 0 as real / b as real == 0.0
  {
  }

  /** One key of a weighed dict, whose IDF is known to be `idf`. */
  lemma {:induction false} WeighedAt(w: map<NGram, real>, text: seq<Token>, keys: seq<NGram>, src: IdfSource,
                                     refs: seq<seq<Token>>, log: real -> real, k: NGram, idf: real)
    requires Weighed(w, text, keys, src, refs, log)
    requires k in keys && Idf(src, refs, log, k) == idf
    ensures k in w && w[k] == Tf(text, k) * idf
  {
  }

  /** `WeighedAt` in every reference dict. */
  lemma {:induction false} EachWeighedAt(ws: seq<map<NGram, real>>, refs: seq<seq<Token>>, keys: seq<NGram>,
                                         src: IdfSource, log: real -> real, k: NGram, idf: real)
    requires |ws| == |refs|
    requires forall j :: 0 <= j < |refs| ==> Weighed(ws[j], refs[j], keys, src, refs, log)
    requires k in keys && Idf(src, refs, log, k) == idf
    ensures forall j :: 0 <= j < |refs| ==> k in ws[j] && ws[j][k] == Tf(refs[j], k) * idf
  {
    forall j | 0 <= j < |refs| ensures k in ws[j] && ws[j][k] == Tf(refs[j], k) * idf {
      WeighedAt(ws[j], refs[j], keys, src, refs, log, k, idf);
    }
  }

  /** In coco-val-df mode an n-gram missing from `df` weighs 0 in the candidate
      dict and in every reference dict. */
  lemma CocoMissingNGramWeighsZero(cand: seq<Token>, refs: seq<seq<Token>>, n: nat,
                                   table: map<NGram, real>, log: real -> real, v: TfIdfVectors, k: NGram)
    requires ComputeTfIdf(cand, refs, n, CocoValDfMode, Some(table), log) == Ok(v)
    requires k in v.cand && k !in table
    ensures v.cand[k] == 0.0
    ensures forall j :: 0 <= j < |refs| ==> v.refs[j][k] == 0.0
  {
    var src := TableIdf(table);
    assert IdfSourceOf(CocoValDfMode, Some(table)) == Ok(src);
    assert k in v.keys;
    assert Idf(src, refs, log, k) == 0.0 by { assert GetOrZero(table, k) == 0.0; }
    WeighedAt(v.cand, cand, v.keys, src, refs, log, k, 0.0);
    EachWeighedAt(v.refs, refs, v.keys, src, log, k, 0.0);
  }

  /** A reference that lacks a candidate n-gram holds 0 for it, whatever the
      IDF. */
  lemma MissingNGramWeighsZero(cand: seq<Token>, refs: seq<seq<Token>>, n: nat, mode: string,
                               df: Option<map<NGram, real>>, log: real -> real, v: TfIdfVectors,
                               k: NGram, j: nat)
    requires ComputeTfIdf(cand, refs, n, mode, df, log) == Ok(v)
    requires k in v.cand && j < |refs| && !IsInfix(k, refs[j])
    ensures v.refs[j][k] == 0.0
  {
    assert k in v.keys && IsNGramOf(k, cand, n);
    var src := IdfSourceOf(mode, df).value;
    TfLookup(refs[j], n, k);
    WeighedAt(v.refs[j], refs[j], v.keys, src, refs, log, k, Idf(src, refs, log, k));
  }

  /** In corpus mode every value is its TF times log(|refs| + 1). */
  lemma CorpusModeWeights(cand: seq<Token>, refs: seq<seq<Token>>, n: nat,
                          df: Option<map<NGram, real>>, log: real -> real, v: TfIdfVectors, k: NGram)
    requires ComputeTfIdf(cand, refs, n, CorpusMode, df, log) == Ok(v)
    requires k in v.cand
    ensures v.cand[k] == Tf(cand, k) * log(|refs| as real + 1.0)
    ensures forall j :: 0 <= j < |refs| ==> v.refs[j][k] == Tf(refs[j], k) * log(|refs| as real + 1.0)
  {
    assert IdfSourceOf(CorpusMode, df) == Ok(CorpusIdf);
    assert k in v.keys;
    CorpusWeights(cand, refs, log, v, k);
  }

  lemma {:induction false} CorpusWeights(cand: seq<Token>, refs: seq<seq<Token>>, log: real -> real,
                                         v: TfIdfVectors, k: NGram)
    requires Weighed(v.cand, cand, v.keys, CorpusIdf, refs, log)
    requires |v.refs| == |refs| && forall j :: 0 <= j < |refs| ==> Weighed(v.refs[j], refs[j], v.keys, CorpusIdf, refs, log)
    requires k in v.keys
    ensures k in v.cand && v.cand[k] == Tf(cand, k) * log(|refs| as real + 1.0)
    ensures forall j :: 0 <= j < |refs| ==> k in v.refs[j] && v.refs[j][k] == Tf(refs[j], k) * log(|refs| as real + 1.0)
  {
    var idf := log(|refs| as real + 1.0);
    CorpusIdfIsConstant(refs, log, k);
    WeighedAt(v.cand, cand, v.keys, CorpusIdf, refs, log, k, idf);
    EachWeighedAt(v.refs, refs, v.keys, CorpusIdf, log, k, idf);
  }

  // ---------------------------------------------------------------------
  // Signs

  /** Every value of the dict is at least 0. */
  ghost predicate NonNegative(m: map<NGram, real>) {
    forall k :: k in m ==> m[k] >= 0.0
  }

  /** The IDF the mode selects is never negative: in corpus mode because
      `log(len(ref) + 1)` is not (as `np.log` of a value at least 1), in
      `"coco-val-df"` mode because the table holds no negative value. */
  ghost predicate IdfNonNegative(mode: string, df: Option<map<NGram, real>>, refs: seq<seq<Token>>, log: real -> real) {
    && (mode == CorpusMode ==> log(|refs| as real + 1.0) >= 0.0)
    && (mode == CocoValDfMode && df.Some? ==> NonNegative(df.value))
  }

  lemma TfNonNegative(text: seq<Token>, k: NGram)
    ensures Tf(text, k) >= 0.0
  {
  }

  /** With a non-negative IDF, every value of both results of `compute_tf_idf`
      is non-negative: it is a TF, which is a count over a length, times the
      IDF. */
  lemma TfIdfNonNegative(cand: seq<Token>, refs: seq<seq<Token>>, n: nat, mode: string,
                         df: Option<map<NGram, real>>, log: real -> real, v: TfIdfVectors)
    requires ComputeTfIdf(cand, refs, n, mode, df, log) == Ok(v)
    requires IdfNonNegative(mode, df, refs, log)
    ensures NonNegative(v.cand)
    ensures forall j :: 0 <= j < |refs| ==> NonNegative(v.refs[j])
  {
    if |v.keys| == 0 {
      assert forall k :: k !in v.cand;
      assert forall j :: 0 <= j < |refs| ==> v.refs[j].Keys == v.cand.Keys;
    } else {
      var src := IdfSourceOf(mode, df).value;
      forall k | k in v.keys ensures Idf(src, refs, log, k) >= 0.0 {
        SourceIdfNonNegative(mode, df, refs, log, src, k);
      }
      WeighedNonNegative(v.cand, cand, v.keys, src, refs, log);
      forall j | 0 <= j < |refs| ensures NonNegative(v.refs[j]) {
        WeighedNonNegative(v.refs[j], refs[j], v.keys, src, refs, log);
      }
    }
  }

  lemma SourceIdfNonNegative(mode: string, df: Option<map<NGram, real>>, refs: seq<seq<Token>>,
                             log: real -> real, src: IdfSource, k: NGram)
    requires IdfSourceOf(mode, df) == Ok(src)
    requires IdfNonNegative(mode, df, refs, log)
    ensures Idf(src, refs, log, k) >= 0.0
  {
    if src.CorpusIdf? {
      CorpusIdfIsConstant(refs, log, k);
    }
  }

  /** A dict weighed over exactly its keys with non-negative IDFs is non-negative. */
  lemma {:induction false} WeighedNonNegative(w: map<NGram, real>, text: seq<Token>, keys: seq<NGram>,
                                              src: IdfSource, refs: seq<seq<Token>>, log: real -> real)
    requires Weighed(w, text, keys, src, refs, log)
    requires forall k :: k in w ==> k in keys
    requires forall k :: k in keys ==> Idf(src, refs, log, k) >= 0.0
    ensures NonNegative(w)
  {
    forall k | k in w ensures w[k] >= 0.0 {
      TfNonNegative(text, k);
      ProductNonNegative(Tf(text, k), Idf(src, refs, log, k));
    }
  }

  lemma ProductNonNegative(a: real, b: real)
    requires a >= 0.0 && b >= 0.0
    ensures a * b >= 0.0
  {
  }

  // ---------------------------------------------------------------------
  // TF totals

  /** Sum of `m` over the listed keys, in list order. */
  function SumOver(keys: seq<NGram>, m: map<NGram, real>): real
    requires forall k :: k in keys ==> k in m
  {
    if |keys| == 0 then 0.0 else m[keys[0]] + SumOver(keys[1..], m)
  }

  lemma {:induction false} SumOverScaled(keys: seq<NGram>, m: map<NGram, real>, counts: multiset<NGram>, len: nat)
    requires len > 0
    requires forall k :: k in keys ==> k in m && m[k] == counts[k] as real / len as real
    ensures SumOver(keys, m) == SumCounts(keys, counts) as real / len as real
  {
    if |keys| > 0 {
      SumOverScaled(keys[1..], m, counts, len);
      DivisionDistributes(counts[keys[0]] as real, SumCounts(keys[1..], counts) as real, len as real);
    }
  }

  lemma DivisionDistributes(a: real, b: real, c: real)
    requires c > 0.0
    ensures a / c + b / c == (a + b) / c
  {
  }

  lemma FractionAtMostOne(a: nat, b: nat)
    requires a <= b && b > 0
    ensures a as real / b as real <= 1.0
  {
  }

  /** The candidate's TF values, summed over its n-grams in dict order, equal
      (L - n + 1) / L, which is at most 1: the divisor is the token count, not
      the n-gram count. */
  lemma TermFrequencyTotal(text: seq<Token>, n: nat)
    requires 1 <= n <= |text|
    ensures TermFrequencies(text, n).Ok?
    ensures forall k :: k in DistinctNGrams(text, n) ==> k in TermFrequencies(text, n).value
    ensures SumOver(DistinctNGrams(text, n), TermFrequencies(text, n).value)
            == (|text| - n + 1) as real / |text| as real
    ensures SumOver(DistinctNGrams(text, n), TermFrequencies(text, n).value) <= 1.0
  {
    var tf := TermFrequencies(text, n).value;
    var keys := DistinctNGrams(text, n);
    forall k | k in keys ensures k in tf && tf[k] == multiset(Windows(text, n))[k] as real / |text| as real {
      TfIsScaledCount(text, n, k);
    }
    TotalOfScaledCounts(text, n, tf);
    FractionAtMostOne(|text| - n + 1, |text|);
  }

  /** A TF value is the n-gram's counter entry over the token count. */
  lemma {:induction false} TfIsScaledCount(text: seq<Token>, n: nat, k: NGram)
    requires 1 <= n <= |text|
    requires k in DistinctNGrams(text, n)
    ensures k in TermFrequencies(text, n).value
    ensures TermFrequencies(text, n).value[k] == multiset(Windows(text, n))[k] as real / |text| as real
  {
    CounterIsOccurrences(text, n, k);
  }

  lemma {:induction false} TotalOfScaledCounts(text: seq<Token>, n: nat, tf: map<NGram, real>)
    requires 1 <= n <= |text|
    requires forall k :: k in DistinctNGrams(text, n) ==>
               k in tf && tf[k] == multiset(Windows(text, n))[k] as real / |text| as real
    ensures SumOver(DistinctNGrams(text, n), tf) == (|text| - n + 1) as real / |text| as real
  {
    var w := Windows(text, n);
    SumOverScaled(DistinctNGrams(text, n), tf, multiset(w), |text|);
    assert DistinctNGrams(text, n) == Dedup(w);
    CounterTotal(w);
  }
}
