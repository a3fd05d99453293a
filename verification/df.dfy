/** The document-frequency builder of getDFdocument.py: records are joined into
    sentences, re-split on whitespace, every distinct n-gram of order 1..4 is
    collected, and each is counted once per document whose glued text contains
    its glued text. */
module DocumentFrequency {
  import opened Results
  import opened Seqs
  import opened Text
  import opened NGrams

  /** The longest context collected (`range(1, 5)`). */
  const MaxOrder: nat := 4

  /** `sentenceConnect`: each record's strings joined with single spaces, one
      sentence per record, in order. `i[0]` on an empty record raises. */
  method SentenceConnect(data: seq<seq<string>>) returns (r: Result<seq<string>>)
    ensures r.Err? <==> exists k :: 0 <= k < |data| && |data[k]| == 0
    ensures r.Err? ==> r.error == IndexError
    ensures r.Ok? ==> |r.value| == |data|
    ensures r.Ok? ==> forall k :: 0 <= k < |data| ==> r.value[k] == Join(data[k], " ")
  {
    var document: seq<string> := [];
    var k := 0;
    while k < |data|
      invariant 0 <= k <= |data|
      invariant |document| == k
      invariant forall m :: 0 <= m < k ==> |data[m]| > 0 && document[m] == Join(data[m], " ")
    {
      var record := data[k];
      if |record| == 0 {
        return Err(IndexError);
      }
      var s := record[0];
      var j := 1;
      while j < |record|
        invariant 1 <= j <= |record|
        invariant s == Join(record[..j], " ")
      {
        JoinSnoc(record[..j], record[j], " ");
        assert record[..j + 1] == record[..j] + [record[j]];
        s := s + " " + record[j];
        j := j + 1;
      }
      assert record[..j] == record;
      document := document + [s];
      k := k + 1;
    }
    return Ok(document);
  }

  /** The split step of `convertTW_and_split`: each sentence is passed through the
      script converter `convert` and split on whitespace. */
  function ConvertAndSplit(data: seq<string>, convert: string -> string): (r: seq<seq<Token>>)
    ensures |r| == |data|
    ensures forall k :: 0 <= k < |r| ==> forall j :: 0 <= j < |r[k]| ==> IsWord(r[k][j])
  {
    seq(|data|, k requires 0 <= k < |data| => Split(convert(data[k])))
  }

  /** With the converter as the identity, connecting then splitting yields, for
      each record, the words of its strings one after the other, whatever the
      strings hold. */
  lemma ConnectSplitWords(data: seq<seq<string>>)
    ensures forall k :: 0 <= k < |data| ==>
      ConvertAndSplit(seq(|data|, k requires 0 <= k < |data| => Join(data[k], " ")), s => s)[k] == SplitParts(data[k])
  {
    var joined := seq(|data|, k requires 0 <= k < |data| => Join(data[k], " "));
    var r := ConvertAndSplit(joined, s => s);
    forall k | 0 <= k < |data| ensures r[k] == SplitParts(data[k]) {
      SplitOfJoin(data[k]);
    }
  }

  /** With the converter as the identity, connecting then splitting gives back
      every record whose strings are non-empty and free of whitespace. */
  lemma ConnectSplitRoundTrip(data: seq<seq<string>>)
    requires forall k :: 0 <= k < |data| ==> forall j :: 0 <= j < |data[k]| ==> IsWord(data[k][j])
    ensures ConvertAndSplit(seq(|data|, k requires 0 <= k < |data| => Join(data[k], " ")), s => s) == data
  {
    var joined := seq(|data|, k requires 0 <= k < |data| => Join(data[k], " "));
    var r := ConvertAndSplit(joined, s => s);
    forall k | 0 <= k < |data| ensures r[k] == data[k] {
      SplitJoinRoundTrip(data[k]);
    }
  }

  // ---------------------------------------------------------------------
  // Containment

  /** `contextIsInDocument`: the glued context occurs in the glued document. The
      test is on characters, so it may match across token boundaries. */
  function ContextIsInDocument(context: seq<Token>, document: seq<Token>): (r: bool)
    ensures r <==> IsInfix(Concat(context), Concat(document))
  {
    Find(Concat(document), Concat(context)) != -1
  }

  lemma EmptyContextInEveryDocument(document: seq<Token>)
    ensures ContextIsInDocument([], document)
  {
    assert Concat([]) <= Concat(document)[0..];
  }

  /** Every contiguous block of a document's tokens is contained in it. */
  lemma SliceInDocument(document: seq<Token>, i: nat, j: nat)
    requires i <= j <= |document|
    ensures ContextIsInDocument(document[i..j], document)
  {
    ConcatSliceIsInfix(document, i, j);
  }

  // ---------------------------------------------------------------------
  // Context collection

  /** `x` is a block of the tokens of some document. */
  ghost predicate InSomeDocument(x: NGram, data: seq<seq<Token>>) {
    exists d :: 0 <= d < |data| && IsInfix(x, data[d])
  }

  lemma InSomeDocumentCons(x: NGram, data: seq<seq<Token>>)
    requires |data| > 0
    ensures InSomeDocument(x, data) <==> IsInfix(x, data[0]) || InSomeDocument(x, data[1..])
  {
    if InSomeDocument(x, data) && !IsInfix(x, data[0]) {
      var d :| 0 <= d < |data| && IsInfix(x, data[d]);
      assert data[1..][d - 1] == data[d];
    }
    if InSomeDocument(x, data[1..]) {
      var d :| 0 <= d < |data[1..]| && IsInfix(x, data[1..][d]);
      assert data[1..][d] == data[d + 1];
    }
  }

  /** A token block of length 1..4 taken from some document. */
  ghost predicate IsContext(x: NGram, data: seq<seq<Token>>) {
    1 <= |x| <= MaxOrder && InSomeDocument(x, data)
  }

  /** The windows of order `n` of every document, document by document. */
  function AllWindows(data: seq<seq<Token>>, n: nat): (r: seq<NGram>)
    ensures forall x :: x in r <==> |x| == n && InSomeDocument(x, data)
  {
    if |data| == 0 then []
    else
      var rest := AllWindows(data[1..], n);
      forall x ensures x in Windows(data[0], n) + rest <==> |x| == n && InSomeDocument(x, data) {
        WindowsAreBlocks(data[0], n, x);
        InSomeDocumentCons(x, data);
      }
      Windows(data[0], n) + rest
  }

  /** All windows of orders `n..4`, order by order. */
  function EnumerateFrom(data: seq<seq<Token>>, n: nat): (r: seq<NGram>)
    requires n >= 1
    ensures forall x :: x in r <==> n <= |x| <= MaxOrder && InSomeDocument(x, data)
    ensures forall i, j :: 0 <= i < j < |r| ==> n <= |r[i]| <= |r[j]|
    decreases MaxOrder + 1 - n
  {
    if n > MaxOrder then []
    else
      var here := AllWindows(data, n);
      var rest := EnumerateFrom(data, n + 1);
      OrderedAppend(here, rest, n);
      here + rest
  }

  /** Blocks of length `n` followed by a length-ordered list of longer blocks are
      ordered by length. */
  lemma OrderedAppend(here: seq<NGram>, rest: seq<NGram>, n: nat)
    requires forall x :: x in here ==> |x| == n
    requires forall x :: x in rest ==> n < |x|
    requires forall i, j :: 0 <= i < j < |rest| ==> |rest[i]| <= |rest[j]|
    ensures forall i, j :: 0 <= i < j < |here + rest| ==> n <= |(here + rest)[i]| <= |(here + rest)[j]|
  {
    var r := here + rest;
    forall i, j | 0 <= i < j < |r| ensures n <= |r[i]| <= |r[j]| {
      if j < |here| {
        assert r[i] == here[i] && r[j] == here[j];
        assert here[i] in here && here[j] in here;
      } else {
        assert r[j] == rest[j - |here|] && rest[j - |here|] in rest;
        if i < |here| {
          assert r[i] == here[i] && here[i] in here;
        } else {
          assert r[i] == rest[i - |here|] && rest[i - |here|] in rest;
        }
      }
    }
  }

  /** `getAllContext`: every distinct block of 1..4 tokens of any document, in the
      order the loops first meet it (shorter orders first). The loops visit the
      blocks in the order of `EnumerateFrom(data, 1)`, and a block is appended
      at its first visit. */
  function GetAllContext(data: seq<seq<Token>>): (r: seq<NGram>)
    ensures NoDuplicates(r)
    ensures forall x :: x in r <==> IsContext(x, data)
    ensures forall i, j :: 0 <= i < j < |r| ==> |r[i]| <= |r[j]|
    ensures InFirstSeenOrder(r, EnumerateFrom(data, 1))
  {
    var all := EnumerateFrom(data, 1);
    DedupKeepsOrder(all, (a: NGram, b: NGram) => |a| <= |b|);
    DedupFirstSeenOrder(all);
    Dedup(all)
  }

  // ---------------------------------------------------------------------
  // Counting

  /** The number of documents that contain `context`. */
  function DocCount(context: NGram, data: seq<seq<Token>>): (r: nat)
    ensures r <= |data|
  {
    if |data| == 0 then 0
    else
      DocCount(context, data[..|data| - 1])
      + (if ContextIsInDocument(context, data[|data| - 1]) then 1 else 0)
  }

  /** A context contained in one of the documents has a non-zero count. */
  lemma {:induction false} ContainedIsCounted(context: NGram, data: seq<seq<Token>>, d: nat)
    requires d < |data| && ContextIsInDocument(context, data[d])
    ensures DocCount(context, data) >= 1
  {
    if d < |data| - 1 {
      assert data[..|data| - 1][d] == data[d];
      ContainedIsCounted(context, data[..|data| - 1], d);
    }
  }

  /** A collected context is contained in the document it was taken from. */
  lemma ContextIsCounted(context: NGram, data: seq<seq<Token>>)
    requires IsContext(context, data)
    ensures DocCount(context, data) >= 1
  {
    assert InSomeDocument(context, data);
    var d :| 0 <= d < |data| && IsInfix(context, data[d]);
    var i :| 0 <= i <= |data[d]| - |context| && context <= data[d][i..];
    assert context == data[d][i..i + |context|];
    SliceInDocument(data[d], i, i + |context|);
    ContainedIsCounted(context, data, d);
  }

  lemma DocCountStep(context: NGram, data: seq<seq<Token>>, j: nat)
    requires j < |data|
    ensures DocCount(context, data[..j + 1])
            == DocCount(context, data[..j]) + (if ContextIsInDocument(context, data[j]) then 1 else 0)
  {
    assert data[..j + 1][..j] == data[..j];
  }

  /** The inner loop of `calculateDF`: the documents, scanned in order, that
      contain `context`. */
  method CountDocuments(context: NGram, data: seq<seq<Token>>) returns (count: nat)
    ensures count == DocCount(context, data)
  {
    count := 0;
    var j := 0;
    while j < |data|
      invariant 0 <= j <= |data|
      invariant count == DocCount(context, data[..j])
    {
      DocCountStep(context, data, j);
      if ContextIsInDocument(context, data[j]) {
        count := count + 1;
      }
      j := j + 1;
    }
    assert data[..j] == data;
  }

  /** An empty corpus yields no contexts. */
  lemma EmptyCorpusHasNoContexts(data: seq<seq<Token>>)
    requires |data| == 0
    ensures GetAllContext(data) == []
  {
    var r := GetAllContext(data);
    assert forall x :: x !in r;
  }

  /** Every collected context is contained in the document it came from. */
  lemma CollectedContextsAreCounted(data: seq<seq<Token>>)
    ensures forall c :: c in GetAllContext(data) ==> DocCount(c, data) >= 1
  {
    forall c | c in GetAllContext(data) ensures DocCount(c, data) >= 1 {
      ContextIsCounted(c, data);
    }
  }

  /** The table entry `calculateDF` holds for `context`. */
  ghost predicate IsEntryFor(e: (NGram, nat), context: NGram, data: seq<seq<Token>>) {
    e.0 == context && e.1 == DocCount(context, data)
  }

  /** The table the outer loop of `calculateDF` builds from a duplicate-free
      list of contexts. The `Counter` gains a key the first time a document
      contains the context, so a context that no document contains never
      becomes a key; the others become keys in list order. */
  ghost function Counted(contexts: seq<NGram>, data: seq<seq<Token>>): seq<(NGram, nat)> {
    if |contexts| == 0 then []
    else
      var c := contexts[|contexts| - 1];
      Counted(contexts[..|contexts| - 1], data)
      + (if DocCount(c, data) >= 1 then [(c, DocCount(c, data))] else [])
  }

  /** Every entry of the table is the entry of a listed context that some
      document contains. */
  lemma {:induction false} CountedSound(contexts: seq<NGram>, data: seq<seq<Token>>)
    ensures forall k :: 0 <= k < |Counted(contexts, data)| ==>
              var e := Counted(contexts, data)[k];
              e.0 in contexts && e.1 >= 1 && IsEntryFor(e, e.0, data)
  {
    if |contexts| > 0 {
      var init := contexts[..|contexts| - 1];
      CountedSound(init, data);
      assert forall c :: c in init ==> c in contexts;
    }
  }

  /** Every listed context that some document contains has an entry. */
  lemma {:induction false} CountedComplete(contexts: seq<NGram>, data: seq<seq<Token>>, c: NGram)
    requires c in contexts && DocCount(c, data) >= 1
    ensures exists k :: 0 <= k < |Counted(contexts, data)| && Counted(contexts, data)[k].0 == c
  {
    var init, last := contexts[..|contexts| - 1], contexts[|contexts| - 1];
    assert contexts == init + [last];
    var t := Counted(contexts, data);
    if c == last {
      assert t[|t| - 1].0 == c;
    } else {
      CountedComplete(init, data, c);
      var k :| 0 <= k < |Counted(init, data)| && Counted(init, data)[k].0 == c;
      assert t[k] == Counted(init, data)[k];
    }
  }

  /** When every listed context occurs in some document, the table has one
      entry per context, in list order. */
  lemma {:induction false} CountedAll(contexts: seq<NGram>, data: seq<seq<Token>>)
    requires forall c :: c in contexts ==> DocCount(c, data) >= 1
    ensures |Counted(contexts, data)| == |contexts|
    ensures forall k :: 0 <= k < |contexts| ==> IsEntryFor(Counted(contexts, data)[k], contexts[k], data)
  {
    if |contexts| > 0 {
      var init := contexts[..|contexts| - 1];
      assert forall c :: c in init ==> c in contexts;
      CountedAll(init, data);
      var last := contexts[|contexts| - 1];
      assert last in contexts;
      var t, t0 := Counted(contexts, data), Counted(init, data);
      assert t == t0 + [(last, DocCount(last, data))];
      forall k | 0 <= k < |contexts| ensures IsEntryFor(t[k], contexts[k], data) {
        if k < |init| {
          assert t[k] == t0[k] && contexts[k] == init[k];
        }
      }
    }
  }

  /** The outer loop of `calculateDF`. The list is duplicate-free, as
      `getAllContext` makes it: a repeated context would have its count added
      twice under one key. */
  method CountContexts(contexts: seq<NGram>, data: seq<seq<Token>>) returns (df: seq<(NGram, nat)>)
    requires NoDuplicates(contexts)
    ensures df == Counted(contexts, data)
  {
    df := [];
    var k := 0;
    while k < |contexts|
      invariant 0 <= k <= |contexts|
      invariant df == Counted(contexts[..k], data)
    {
      var context := contexts[k];
      var count := CountDocuments(context, data);
      assert contexts[..k + 1][..k] == contexts[..k];
      if count > 0 {
        df := df + [(context, count)];
      }
      k := k + 1;
    }
    assert contexts[..k] == contexts;
  }

  /** The keys of a table, in table order: the order of `dict(counter)`. */
  function Keys(df: seq<(NGram, nat)>): (r: seq<NGram>)
    ensures |r| == |df|
  {
    seq(|df|, k requires 0 <= k < |df| => df[k].0)
  }

  /** `calculateDF`: one entry per collected context, in collection order, holding
      the number of documents that contain it. */
  method CalculateDF(data: seq<seq<Token>>) returns (df: seq<(NGram, nat)>)
    ensures |df| == |GetAllContext(data)|
    ensures forall k :: 0 <= k < |df| ==> IsEntryFor(df[k], GetAllContext(data)[k], data)
    ensures forall k :: 0 <= k < |df| ==> 1 <= df[k].1 <= |data|
    ensures |data| == 0 ==> df == []
    ensures InFirstSeenOrder(Keys(df), EnumerateFrom(data, 1))
  {
    var allContext := GetAllContext(data);
    CollectedContextsAreCounted(data);
    if |data| == 0 {
      EmptyCorpusHasNoContexts(data);
    }
    df := CountContexts(allContext, data);
    CountedAll(allContext, data);
    forall m | 0 <= m < |df| ensures 1 <= df[m].1 <= |data| {
      assert allContext[m] in allContext;
    }
    TableKeysInOrder(df, allContext, data);
  }

  /** A table whose entries follow a context list has that list as its keys,
      so it inherits the list's first-seen order. */
  lemma TableKeysInOrder(df: seq<(NGram, nat)>, contexts: seq<NGram>, data: seq<seq<Token>>)
    requires |df| == |contexts|
    requires forall k :: 0 <= k < |df| ==> IsEntryFor(df[k], contexts[k], data)
    requires InFirstSeenOrder(contexts, EnumerateFrom(data, 1))
    ensures InFirstSeenOrder(Keys(df), EnumerateFrom(data, 1))
  {
    assert Keys(df) == contexts;
  }

  /** A context whose glued text occurs inside another's is contained in at least
      as many documents. With character-level containment this also covers
      contexts that are not token-aligned sub-blocks of one another. */
  lemma {:induction false} DocCountAntitone(a: NGram, b: NGram, data: seq<seq<Token>>)
    requires IsInfix(Concat(a), Concat(b))
    ensures DocCount(a, data) >= DocCount(b, data)
  {
    if |data| > 0 {
      DocCountAntitone(a, b, data[..|data| - 1]);
      if ContextIsInDocument(b, data[|data| - 1]) {
        InfixTransitive(Concat(a), Concat(b), Concat(data[|data| - 1]));
      }
    }
  }

  /** A sub-block of a context is contained in at least as many documents. */
  lemma SubBlockFrequency(b: NGram, i: nat, j: nat, data: seq<seq<Token>>)
    requires i <= j <= |b|
    ensures DocCount(b[i..j], data) >= DocCount(b, data)
  {
    ConcatSliceIsInfix(b, i, j);
    DocCountAntitone(b[i..j], b, data);
  }

  // ---------------------------------------------------------------------
  // Output format

  /** The line `writeFile` emits for one entry: the key's tokens joined by spaces,
      a space, and the count in decimal. */
  function FormatLine(key: NGram, count: nat): string {
    Join(key, " ") + " " + NatToString(count)
  }

  /** `writeFile`'s lines, one per table entry, in table order. */
  function WriteLines(df: seq<(NGram, nat)>): (r: seq<string>)
    ensures |r| == |df|
  {
    seq(|df|, k requires 0 <= k < |df| => FormatLine(df[k].0, df[k].1))
  }

  /** Reads a table line back: all words but the last are the key, the last is
      the count. */
  function ParseLine(line: string): Option<(NGram, nat)> {
    var words := Split(line);
    if |words| == 0 || !IsDigits(words[|words| - 1]) then None
    else Some((words[..|words| - 1], ParseNat(words[|words| - 1])))
  }

  /** The line format is unambiguous when the key's tokens are whitespace-free
      words: the key and the count can be read back from the line. */
  lemma FormatLineRoundTrip(key: NGram, count: nat)
    requires forall k :: 0 <= k < |key| ==> IsWord(key[k])
    ensures ParseLine(FormatLine(key, count)) == Some((key, count))
  {
    var digits := NatToString(count);
    NumeralIsWord(count);
    var words := key + [digits];
    if |key| == 0 {
      assert FormatLine(key, count) == " " + digits;
      assert SplitFrom(" " + digits, "") == SplitFrom(digits, "");
      SplitJoinRoundTrip([digits]);
      assert words == [digits];
    } else {
      JoinSnoc(key, digits, " ");
      SplitJoinRoundTrip(words);
    }
    assert words[..|words| - 1] == key;
    ParseNatToString(count);
  }

  /** Every line written for a table whose keys are words reads back as its entry. */
  lemma WriteLinesRoundTrip(df: seq<(NGram, nat)>)
    requires forall k :: 0 <= k < |df| ==> forall j :: 0 <= j < |df[k].0| ==> IsWord(df[k].0[j])
    ensures forall k :: 0 <= k < |df| ==> ParseLine(WriteLines(df)[k]) == Some(df[k])
  {
    forall k | 0 <= k < |df| ensures ParseLine(WriteLines(df)[k]) == Some(df[k]) {
      FormatLineRoundTrip(df[k].0, df[k].1);
    }
  }
}
