/** Strings as the Python code sees them: `sep.join(parts)`, `str.split()` with no
    argument, `str(n)` for a count, and the order `<` on `str`. */
module Text {
  import opened Seqs

  type Token = string

  /** `sep.join(parts)`. */
  function Join(parts: seq<string>, sep: string): string {
    if |parts| == 0 then ""
    else if |parts| == 1 then parts[0]
    else parts[0] + sep + Join(parts[1..], sep)
  }

  /** `"".join(parts)`: the tokens glued together with no separator. */
  function Concat(parts: seq<string>): string {
    Join(parts, "")
  }

  /** Appending one part to a non-empty list adds the separator and the part. */
  lemma {:induction false} JoinSnoc(parts: seq<string>, last: string, sep: string)
    requires |parts| > 0
    ensures Join(parts + [last], sep) == Join(parts, sep) + sep + last
  {
    if |parts| > 1 {
      assert (parts + [last])[1..] == parts[1..] + [last];
      JoinSnoc(parts[1..], last, sep);
    }
  }

  /** Gluing distributes over list concatenation. */
  lemma {:induction false} ConcatAppend(a: seq<string>, b: seq<string>)
    ensures Concat(a + b) == Concat(a) + Concat(b)
  {
    if |a| == 0 {
      assert a + b == b;
    } else if |a| == 1 {
      if |b| > 0 {
        assert (a + b)[1..] == b;
      }
    } else {
      assert (a + b)[1..] == a[1..] + b;
      ConcatAppend(a[1..], b);
    }
  }

  /** The glued form of a contiguous block of tokens occurs in the glued document. */
  lemma ConcatSliceIsInfix(d: seq<string>, i: nat, j: nat)
    requires i <= j <= |d|
    ensures IsInfix(Concat(d[i..j]), Concat(d))
  {
    assert d == d[..i] + d[i..j] + d[j..];
    ConcatAppend(d[..i] + d[i..j], d[j..]);
    ConcatAppend(d[..i], d[i..j]);
    InfixOfConcat(Concat(d[..i]), Concat(d[i..j]), Concat(d[j..]));
  }

  // ---------------------------------------------------------------------
  // Whitespace splitting

  /** Python's `str.isspace()` on one character: the characters `str.split()`
      with no argument treats as separators. */
  predicate IsSpace(c: char) {
    var n := c as int;
    || 9 <= n <= 13        // \t \n \v \f \r
    || 28 <= n <= 32       // file/group/record/unit separators and ' '
    || n == 0x85 || n == 0xA0 || n == 0x1680
    || 0x2000 <= n <= 0x200A
    || n == 0x2028 || n == 0x2029 || n == 0x202F || n == 0x205F || n == 0x3000
  }

  predicate NoSpace(s: string) {
    forall i :: 0 <= i < |s| ==> !IsSpace(s[i])
  }

  /** A token that survives a round trip through `" ".join` and `split()`. */
  predicate IsWord(s: string) {
    |s| > 0 && NoSpace(s)
  }

  /** `split()` of `s`, where `word` holds the characters of the word read so far. */
  function SplitFrom(s: string, word: string): (r: seq<string>)
    requires NoSpace(word)
    ensures forall i :: 0 <= i < |r| ==> IsWord(r[i])
  {
    if |s| == 0 then
      if word == "" then [] else [word]
    else if IsSpace(s[0]) then
      (if word == "" then [] else [word]) + SplitFrom(s[1..], "")
    else
      SplitFrom(s[1..], word + [s[0]])
  }

  /** Python's `s.split()`: the maximal runs of non-whitespace characters. */
  function Split(s: string): (r: seq<string>)
    ensures forall i :: 0 <= i < |r| ==> IsWord(r[i])
  {
    SplitFrom(s, "")
  }

  lemma {:induction false} SplitSkipsWord(w: string, rest: string, word: string)
    requires NoSpace(w) && NoSpace(word)
    ensures SplitFrom(w + rest, word) == SplitFrom(rest, word + w)
  {
    if |w| > 0 {
      assert (w + rest)[1..] == w[1..] + rest;
      assert word + w == (word + [w[0]]) + w[1..];
      SplitSkipsWord(w[1..], rest, word + [w[0]]);
    } else {
      assert w + rest == rest;
      assert word + w == word;
    }
  }

  /** Splitting a space-joined list of words gives the words back. */
  lemma {:induction false} SplitJoinRoundTrip(words: seq<string>)
    requires forall i :: 0 <= i < |words| ==> IsWord(words[i])
    ensures Split(Join(words, " ")) == words
  {
    if |words| == 1 {
      var t := words[0];
      SplitSkipsWord(t, "", "");
      assert t + "" == t && "" + t == t;
      assert SplitFrom("", t) == [t];
      assert words == [t];
    } else if |words| > 1 {
      var t, rest := words[0], Join(words[1..], " ");
      assert Join(words, " ") == t + (" " + rest);
      SplitSkipsWord(t, " " + rest, "");
      assert "" + t == t;
      assert (" " + rest)[1..] == rest;
      SplitJoinRoundTrip(words[1..]);
      assert words == [t] + words[1..];
    }
  }

  /** The words of each part, part after part. */
  function SplitParts(parts: seq<string>): seq<string> {
    if |parts| == 0 then [] else Split(parts[0]) + SplitParts(parts[1..])
  }

  /** A space ends the word being read: what comes before it and what comes
      after it are split separately. */
  lemma {:induction false} SplitFromAtSpace(a: string, b: string, word: string)
    requires NoSpace(word)
    ensures SplitFrom(a + " " + b, word) == SplitFrom(a, word) + Split(b)
    decreases |a|
  {
    var s := a + " " + b;
    if |a| == 0 {
      assert s == " " + b && s[1..] == b;
    } else {
      assert s[0] == a[0] && s[1..] == a[1..] + " " + b;
      if IsSpace(a[0]) {
        SplitFromAtSpace(a[1..], b, "");
      } else {
        SplitFromAtSpace(a[1..], b, word + [a[0]]);
      }
    }
  }

  /** `" ".join(parts).split()` holds the words of every part, in order, for
      any parts: a part may itself contain spaces or be empty. */
  lemma {:induction false} SplitOfJoin(parts: seq<string>)
    ensures Split(Join(parts, " ")) == SplitParts(parts)
  {
    if |parts| == 1 {
      assert SplitParts(parts) == Split(parts[0]) + SplitParts(parts[1..]);
      assert SplitParts(parts[1..]) == [];
    } else if |parts| > 1 {
      SplitFromAtSpace(parts[0], Join(parts[1..], " "), "");
      SplitOfJoin(parts[1..]);
    }
  }

  /** Re-joining and re-splitting the words of a split is the identity. */
  lemma SplitIdempotent(s: string)
    ensures Split(Join(Split(s), " ")) == Split(s)
  {
    SplitJoinRoundTrip(Split(s));
  }

  // ---------------------------------------------------------------------
  // Decimal numerals

  function DigitChar(d: nat): char
    requires d < 10
  {
    ('0' as int + d) as char
  }

  /** Python's `str(v)` for a non-negative integer. */
  function NatToString(v: nat): (r: string)
    ensures |r| > 0
    ensures forall i :: 0 <= i < |r| ==> '0' <= r[i] <= '9'
    ensures |r| == 1 || r[0] != '0'
  {
    if v < 10 then [DigitChar(v)]
    else NatToString(v / 10) + [DigitChar(v % 10)]
  }

  predicate IsDigits(s: string) {
    |s| > 0 && forall i :: 0 <= i < |s| ==> '0' <= s[i] <= '9'
  }

  /** Python's `int(s)` on a string of decimal digits. */
  function ParseNat(s: string): nat
    requires forall i :: 0 <= i < |s| ==> '0' <= s[i] <= '9'
  {
    if |s| == 0 then 0
    else ParseNat(s[..|s| - 1]) * 10 + (s[|s| - 1] as int - '0' as int)
  }

  lemma {:induction false} ParseNatToString(v: nat)
    ensures ParseNat(NatToString(v)) == v
  {
    if v >= 10 {
      var s := NatToString(v);
      assert s[..|s| - 1] == NatToString(v / 10);
      ParseNatToString(v / 10);
    }
  }

  /** A numeral without leading zeros is `str` of its value: together with
      `ParseNatToString`, `NatToString` is the one canonical spelling. */
  lemma {:induction false} CanonicalNumeral(s: string)
    requires IsDigits(s) && (|s| == 1 || s[0] != '0')
    ensures NatToString(ParseNat(s)) == s
  {
    var init, c := s[..|s| - 1], s[|s| - 1];
    if |s| > 1 {
      assert IsDigits(init) && init[0] == s[0];
      LeadingDigitPositive(init);
      CanonicalNumeral(init);
      var v := ParseNat(s);
      assert v / 10 == ParseNat(init) && v % 10 == c as int - '0' as int;
      assert s == init + [c];
    }
  }

  /** A numeral whose first digit is not 0 denotes a positive number. */
  lemma {:induction false} LeadingDigitPositive(s: string)
    requires IsDigits(s) && s[0] != '0'
    ensures ParseNat(s) >= 1
  {
    if |s| > 1 {
      assert IsDigits(s[..|s| - 1]) && s[..|s| - 1][0] == s[0];
      LeadingDigitPositive(s[..|s| - 1]);
    }
  }

  /** Numerals are words, so they survive whitespace splitting. */
  lemma NumeralIsWord(v: nat)
    ensures IsWord(NatToString(v))
  {
    var s := NatToString(v);
    forall i | 0 <= i < |s| ensures !IsSpace(s[i]) {
      assert '0' <= s[i] <= '9';
    }
  }

  // ---------------------------------------------------------------------
  // String order

  predicate CharLess(a: char, b: char) {
    a < b
  }

  /** Python's `a < b` on `str`: code points compared lexicographically. */
  predicate StrLess(a: string, b: string) {
    LexLess(a, b, CharLess)
  }

  lemma StrLessIsStrictTotalOrder()
    ensures StrictTotalOrder(StrLess)
  {
    assert StrictTotalOrder(CharLess);
    LexStrictTotalOrder(CharLess, StrLess);
  }
}
