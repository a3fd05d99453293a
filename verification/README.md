# CIDEr-D scorer and document-frequency builder, modelled in Dafny

This project models the two engines of a small CIDEr-D style caption scorer.
Both engines work on token sequences.

- **Document-frequency builder** (`getDFdocument.py`). Each record's strings are joined into one sentence with single spaces (`sentenceConnect`). The sentences are split again on whitespace (`convertTW_and_split`). Every distinct contiguous n-gram of order 1..4 of the corpus is collected in first-seen order, shorter orders first (`getAllContext`). For each collected n-gram, the builder counts the documents that contain it (`calculateDF`). Containment is tested on characters: the n-gram's tokens glued together must occur in the document's tokens glued together (`contextIsInDocument`). Finally each table entry is formatted as one text line (`writeFile`).
- **TF-IDF vectorizer and aggregation** (`main.py`).
  - `compute_tf_idf` counts the sliding-window n-grams of a candidate and of each reference.
  - A term frequency (TF) is an n-gram's count divided by the text's token count.
  - The dicts are keyed by the candidate's n-grams. Each value is TF times IDF (inverse document frequency).
  - The IDF comes from the mode string:
    - `"corpus"`: a smoothed count over the references.
    - `"coco-val-df"`: a lookup in a given table.
    - Any other mode raises `ValueError`.
  - `compute_cider_d` turns the dicts of every order 1..n into key-sorted vectors. The best similarity of the candidate to any reference is that order's score. The result is the running sum of `score / n`.

Modules, one per file:

- `results.dfy`: `Results`, the Python exceptions the code raises, plus `Option` and `Result`.
- `seqs.dfy`: `Seqs`, contiguous occurrence, first-occurrence de-duplication, lexicographic order and insertion sort.
- `text.dfy`: `Text`, `join`, `split()`, `str(n)` and `<` on strings.
- `ngrams.dfy`: `NGrams`, the sliding window, the `Counter` over it and the order on n-gram tuples.
- `df.dfy`: `DocumentFrequency`.
- `tfidf.dfy`: `TfIdf`.
- `cider.dfy`: `Cider`.

How Python values are represented:

- Python dicts keep insertion order.
  - The document-frequency table is a sequence of (n-gram, count) pairs.
  - The TF-IDF dicts are Dafny maps plus the key list they were all filled in.
- `Counter` is a multiset.
- Floats are `real`.
- `np.log` is the parameter `log`.
- The similarity of two vectors is the parameter `cosine`. In the source it is a dot product over norms plus `1e-8`.

Behaviour of the code that a reader might not expect, all of which the model keeps:

- **Empty corpus.** `calculateDF` returns an empty dict for an empty corpus and raises nothing (`DocumentFrequency.CalculateDF`).
- **TF divisor.** A TF divides by the text's token count, not by its number of n-grams. So the TF values of one order sum to (L−n+1)/L (`TfIdf.TermFrequencyTotal`).
- **Corpus-mode IDF.** `k in r` compares an n-gram tuple with a list of strings, which is never true. So the corpus IDF is log(len(ref)+1) for every key (`TfIdf.CorpusIdfIsConstant`).
- **Number of orders.** The CIDEr-D mean is over the parameter `n`, whose default is 4 (`Cider.ComputeCiderD`).

## Model

| member | source | states |
|---|---|---|
| DocumentFrequency.SentenceConnect | getDFdocument.py:15-24 | Fails with IndexError exactly when some record is empty. Otherwise it returns one sentence per record, in order, and sentence k is record k's strings joined by single spaces. |
| DocumentFrequency.ConvertAndSplit | getDFdocument.py:26-32 | One token list per sentence. Every token it produces is non-empty and free of whitespace. |
| DocumentFrequency.ConnectSplitRoundTrip | getDFdocument.py:19-31 | Joining records with spaces and splitting the sentences again, with the converter as the identity, gives back records whose strings are non-empty and whitespace-free. |
| DocumentFrequency.ConnectSplitWords | getDFdocument.py:19-31 | For any records, joining with spaces and splitting again, with the converter as the identity, gives for each record the whitespace-separated words of its strings, string after string. |
| Text.SplitOfJoin | getDFdocument.py:21-31 | Splitting a space-joined list of strings gives the words of each string in order, whatever the strings contain (empty ones and ones with spaces included). |
| Text.SplitJoinRoundTrip | getDFdocument.py:31 | `split()` of a space-joined list of words is that list. |
| Text.SplitIdempotent | getDFdocument.py:31 | Re-joining and re-splitting the result of a split changes nothing. |
| DocumentFrequency.ContextIsInDocument | getDFdocument.py:34-40 | True exactly when the glued context occurs as a contiguous substring of the glued document. |
| DocumentFrequency.EmptyContextInEveryDocument | getDFdocument.py:38 | The empty context is contained in every document. |
| DocumentFrequency.SliceInDocument | getDFdocument.py:38 | Every contiguous slice of a document's tokens is contained in the document. |
| DocumentFrequency.AllWindows | getDFdocument.py:48-52 | Holds exactly the blocks of n consecutive tokens of some document. |
| DocumentFrequency.EnumerateFrom | getDFdocument.py:46-52 | Holds exactly the blocks of length n..4 of some document, with lengths non-decreasing along the list. |
| DocumentFrequency.GetAllContext | getDFdocument.py:42-53 | Duplicate-free. An n-gram is in it exactly when it is a block of 1..4 tokens of some document. The contexts appear in the order of their first visit by the loops (length, then document, then position). So no longer context comes before a shorter one. |
| DocumentFrequency.EmptyCorpusHasNoContexts | getDFdocument.py:45-53 | An empty corpus yields no contexts. |
| DocumentFrequency.DocCount | getDFdocument.py:67-69 | A context's document count never exceeds the number of documents. |
| DocumentFrequency.ContainedIsCounted | getDFdocument.py:67-69 | A context contained in some document has count at least 1. |
| DocumentFrequency.ContextIsCounted | getDFdocument.py:64-69 | A block of 1..4 tokens of some document has count at least 1. |
| DocumentFrequency.CollectedContextsAreCounted | getDFdocument.py:59-69 | Every context `getAllContext` collects has count at least 1. |
| DocumentFrequency.CountDocuments | getDFdocument.py:67-69 | The scan over the documents counts exactly the documents that contain the context. |
| DocumentFrequency.CountedSound | getDFdocument.py:64-70 | Every table entry is a listed context paired with its document count, and that count is at least 1. |
| DocumentFrequency.CountedComplete | getDFdocument.py:64-70 | Every listed context that some document contains has a table entry. |
| DocumentFrequency.CountedAll | getDFdocument.py:64-70 | When every listed context occurs somewhere, the table has one entry per context, in list order. |
| DocumentFrequency.CountContexts | getDFdocument.py:64-69 | The loop over the contexts builds exactly that table. |
| DocumentFrequency.CalculateDF | getDFdocument.py:55-70 | One entry per collected context. The keys are in the order in which the loops of `getAllContext` first visit them, which is also the line order of the written file. Each entry holds the number of documents containing the context, between 1 and the number of documents. An empty corpus gives an empty table. |
| DocumentFrequency.DocCountAntitone | getDFdocument.py:64-69 | If context A's glued text occurs in context B's glued text, then DF(A) ≥ DF(B). |
| DocumentFrequency.SubBlockFrequency | getDFdocument.py:64-69 | A contiguous sub-block of a context has at least the context's document frequency. |
| DocumentFrequency.FormatLineRoundTrip | getDFdocument.py:77 | A line formatted from an entry whose key tokens are words reads back as the key and the decimal count. |
| DocumentFrequency.WriteLinesRoundTrip | getDFdocument.py:76-79 | Every written line reads back as its table entry. |
| Text.NatToString | getDFdocument.py:77 | `str(count)` is a non-empty string of decimal digits with no leading zero, unless it is the single digit 0. |
| Text.CanonicalNumeral | getDFdocument.py:77 | Every digit string without a leading zero is the `str` of its value. So `str(count)` is the only such spelling of the count. |
| Text.ParseNatToString | getDFdocument.py:77 | Reading the decimal numeral of a count gives the count back. |
| Text.NumeralIsWord | getDFdocument.py:77 | A numeral has no whitespace, so it survives splitting. |
| NGrams.WindowTotal | main.py:25-26 | The occurrence counts of the distinct n-grams, each computed independently, add up to L−n+1 for a text of L ≥ n tokens and to 0 otherwise. This is the length of `range(len(cand)-n+1)`. |
| NGrams.WindowStarts | main.py:25-26 | Position i has a window exactly when `text[i:i+n]` is a full n-gram (i + n ≤ L). |
| NGrams.WindowsAreBlocks | main.py:25-26 | An n-gram is in the window exactly when it is a block of n consecutive tokens. |
| NGrams.CounterIsOccurrences | main.py:25-26 | The counter value of an n-gram is the number of positions where it starts in the text. |
| NGrams.CounterTotal | main.py:25-26 | The counter values, summed over the distinct n-grams, equal the number of windows. |
| NGrams.DistinctNGrams | main.py:25 | The counter's keys without repetition: exactly the blocks of n tokens of the text. |
| NGrams.NGramLessIsStrictTotalOrder | main.py:71-72 | Python's `<` on tuples of strings is a strict total order, so `sorted` has one answer. |
| Seqs.SortSorted | main.py:71-72 | Sorting distinct keys yields a strictly increasing list. |
| TfIdf.TermFrequencies | main.py:29 | Fails with ZeroDivisionError exactly for an empty text at order 0. Otherwise the keys are the n-grams of the text, and each value is the n-gram's count over the token count. |
| TfIdf.AllTermFrequencies | main.py:32 | One TF dict per reference, in order. A division by zero occurs exactly when the order is 0 and some reference is empty. |
| TfIdf.TermFrequencyTotal | main.py:29 | For 1 ≤ n ≤ L the candidate's TF values sum to (L−n+1)/L, which is at most 1. |
| TfIdf.NoReferenceContainsATuple | main.py:40 | The corpus-mode containment count `k in r` is 0 for every n-gram. |
| TfIdf.CorpusIdfIsConstant | main.py:40 | The corpus-mode IDF is log(len(ref)+1) whatever the n-gram. |
| TfIdf.ComputeTfIdf | main.py:25-49 | Fails exactly when a TF divides by zero, or when the candidate has an n-gram and the mode is rejected. A division by zero is reported as ZeroDivisionError, and otherwise the mode's error is reported. On success the candidate dict's keys are exactly its n-grams. There is one reference dict per reference, each with the same key set. Every value is TF times the IDF. |
| TfIdf.WeighAll | main.py:35-49 | The loop fills the candidate dict and every reference dict over the same keys, each value being that text's TF times the key's IDF. |
| TfIdf.TfLookup | main.py:49 | `ref_tf.get(k, 0.0)` is the reference's TF of k, and it is 0 when the reference lacks k. |
| TfIdf.MissingTableRaises | main.py:41-43 | `"coco-val-df"` without a table raises AttributeError from `df.get` once the candidate has an n-gram of the order. |
| TfIdf.InvalidModeRaises | main.py:37-45 | An unknown mode raises ValueError naming the mode once the candidate has an n-gram of that order. |
| TfIdf.ShortCandidateNeverChecksMode | main.py:35-49 | A candidate shorter than the order yields empty dicts, one per reference, for any mode string. |
| TfIdf.CocoMissingNGramWeighsZero | main.py:43-49 | In `"coco-val-df"` mode an n-gram missing from the table is 0 in the candidate dict and in every reference dict. |
| TfIdf.MissingNGramWeighsZero | main.py:48-49 | A reference lacking a candidate n-gram holds 0 for it. |
| TfIdf.CorpusModeWeights | main.py:40-49 | In corpus mode every candidate and reference value is its TF times log(len(ref)+1). |
| TfIdf.TfIdfNonNegative | main.py:40-49 | When the IDF is non-negative (log(len(ref)+1) ≥ 0 in corpus mode, non-negative table values in "coco-val-df" mode), every value of the candidate dict and of every reference dict is ≥ 0. |
| Cider.SortedVectorsAligned | main.py:71-72 | The sorted keys are strictly increasing and are exactly the candidate's n-grams. The candidate vector and every reference vector have that length, and position p of each holds that dict's value for the p-th key. |
| Cider.MaxOf | main.py:80 | `np.max` returns an element of the array that is at least every element. |
| Cider.BestMatch | main.py:77-80 | The order's score is some reference's similarity, and no reference's similarity is higher. |
| Cider.OrderScore | main.py:68-80 | An order fails with the error of `compute_tf_idf`, or with a shape error when there are no references. Otherwise its score is the best similarity of the candidate vector to any reference vector. |
| Cider.OrderScores | main.py:66-80 | Succeeds exactly when every order 1..n does, and then lists their scores in order. Otherwise it fails with the error of the first failing order. |
| Cider.FailurePersists | main.py:66-84 | Once an order fails, running more orders fails with the same error. |
| Cider.ComputeCiderD | main.py:63-86 | The loop `cider_d += score / n` returns the mean of the per-order scores, 0.0 when there are no orders, and the first failing order's error otherwise. |
| Cider.MeanBounds | main.py:84 | Per-order scores in [0, 1] give a mean in [0, 1]. |
| Cider.MeanOfZeros | main.py:84 | Orders that all score 0 give a mean of 0. |
| Cider.ScoreRange | main.py:63-86 | With a non-negative IDF (log(len(ref)+1) ≥ 0 in corpus mode, non-negative table values in "coco-val-df" mode) and a similarity in [0, 1] on vectors with non-negative entries, as the guarded cosine is, the CIDEr-D score is in [0, 1]. |
| Cider.OrderScoreBounds | main.py:66-80 | Under the same hypotheses, the score of each order is in [0, 1]. |
| Cider.VectorsNonNegative | main.py:71-72 | The aligned vectors of non-negative TF-IDF dictionaries have only non-negative entries. |
| Cider.EmptyOrderScoresZero | main.py:66-80 | With at least one reference, an order longer than the candidate scores 0 (given that the similarity of empty vectors is 0) whatever the mode. |
| Cider.EmptyCandidateScoresZero | main.py:63-86 | With at least one reference, and given that the similarity of empty vectors is 0, an empty candidate scores 0 under any mode string. Every order contributes 0. |
| Cider.NoReferencesRaise | main.py:66-80 | With no references the score raises at the first order. The error is the mode's error when the candidate has a token and the mode is rejected, and the shape error otherwise. |
| Cider.InvalidModeRaisesAtFirstOrder | main.py:66-68 | A non-empty candidate with an unknown mode ends in ValueError naming the mode. |

## Left out

- `readJsonlFile` (getDFdocument.py:5-13): file reading and JSON parsing. The model starts from the token lists.
- The file side of `writeFile` (getDFdocument.py:75, 78-79): only the text of each line is modelled.
- `zhconv.convert` (getDFdocument.py:30) is a foreign library. It is the parameter `convert` of `DocumentFrequency.ConvertAndSplit`, and the round trip is stated for the identity.
- The `ckiptagger` tokenizer (main.py:17-21) is a foreign model. The functions take token sequences directly.
- `np.log` (main.py:40) is the parameter `log`. Floating-point rounding is not modelled, and values are exact reals.
- The norms, the dot product and the `1e-8` guard (main.py:77) are the parameter `cosine`. Statements that depend on them take what they need as hypotheses: a similarity in [0, 1], or 0 for empty vectors.
- Cider.OrderScore: numpy's failure on an empty reference list (main.py:72-77) is one `ShapeError`. The model does not distinguish numpy's exception types.
- Cider.MaxOf: NaN handling of `np.max` is not modelled.
- DocumentFrequency.CountContexts requires a duplicate-free context list, which is what `getAllContext` passes. A repeated context would be counted twice under one key, and that is not modelled.
- The progress `print` calls (getDFdocument.py:47, 58, 62, 65) produce output only.
- Both `main()` functions (main.py:88-133, getDFdocument.py:81-95) read settings files and publish to Google Sheets.
- The commented-out alternatives in main.py (the unguarded cosine on line 76 and the `10.0 ** (i - 1)` weighting on line 83) are not part of the behaviour.
