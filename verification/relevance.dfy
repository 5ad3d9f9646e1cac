/**
 * The server's relevance filter (`isRelevant`): the question counts as relevant to the
 * PDF text when more than a tenth of the question's words, repeats included, occur among
 * the words of the text. Words are the alphanumeric runs of the lower-cased strings.
 */
module Relevance {

  /** A character a word is made of. */
  predicate IsWordChar(c: char) {
    'a' <= c <= 'z' || 'A' <= c <= 'Z' || '0' <= c <= '9'
  }

  predicate IsWord(t: string) {
    t != [] && forall i :: 0 <= i < |t| ==> IsWordChar(t[i])
  }

  function LowerChar(c: char): (d: char)
    ensures IsWordChar(d) <==> IsWordChar(c)
    ensures !('A' <= d <= 'Z')
  {
    if 'A' <= c <= 'Z' then (c as int - 'A' as int + 'a' as int) as char else c
  }

  /** `toLowerCase`, on the letters A to Z. */
  function ToLower(s: string): (r: string)
    ensures |r| == |s|
    ensures forall i :: 0 <= i < |s| ==> r[i] == LowerChar(s[i])
  {
    if s == [] then [] else [LowerChar(s[0])] + ToLower(s[1..])
  }

  /** The length of the run of word characters `s` starts with. */
  function WordRun(s: string): (n: nat)
    ensures n <= |s|
    ensures forall i :: 0 <= i < n ==> IsWordChar(s[i])
    ensures n == |s| || !IsWordChar(s[n])
  {
    if s != [] && IsWordChar(s[0]) then 1 + WordRun(s[1..]) else 0
  }

  /** The word tokenizer: the maximal runs of word characters, in order. */
  function Tokenize(s: string): (tokens: seq<string>)
    ensures forall i :: 0 <= i < |tokens| ==> IsWord(tokens[i])
    decreases |s|
  {
    if s == [] then []
    else if !IsWordChar(s[0]) then Tokenize(s[1..])
    else
      var n := WordRun(s);
      [s[..n]] + Tokenize(s[n..])
  }

  /** No capital letter A to Z. */
  predicate IsLower(t: string) {
    forall i :: 0 <= i < |t| ==> !('A' <= t[i] <= 'Z')
  }

  /** The words of a text without capitals have none either. */
  lemma {:induction false} TokenizeKeepsLower(s: string)
    requires IsLower(s)
    ensures forall i :: 0 <= i < |Tokenize(s)| ==> IsLower(Tokenize(s)[i])
    decreases |s|
  {
    if s != [] {
      if !IsWordChar(s[0]) {
        assert IsLower(s[1..]);
        TokenizeKeepsLower(s[1..]);
      } else {
        var n := WordRun(s);
        assert IsLower(s[..n]) && IsLower(s[n..]);
        TokenizeKeepsLower(s[n..]);
        assert Tokenize(s) == [s[..n]] + Tokenize(s[n..]);
      }
    }
  }

  /** `new Set(tokenizer.tokenize(text.toLowerCase()))`: a set of lower-case words. */
  function Vocabulary(text: string): (v: set<string>)
    ensures forall w :: w in v ==> IsWord(w) && IsLower(w)
  {
    TokenizeKeepsLower(ToLower(text));
    set w | w in Tokenize(ToLower(text))
  }

  /** `words.filter(word => vocabulary.has(word))`: the words found in the vocabulary, repeats
      and order kept. */
  function Common(words: seq<string>, vocabulary: set<string>): (r: seq<string>)
    ensures |r| <= |words|
    ensures forall w :: multiset(r)[w] == if w in vocabulary then multiset(words)[w] else 0
  {
    if words == [] then []
    else
      var init := words[..|words| - 1];
      var last := words[|words| - 1];
      assert words == init + [last];
      if last in vocabulary then Common(init, vocabulary) + [last] else Common(init, vocabulary)
  }

  /** `isRelevant(prompt, pdfText)`: `commonWords.length / promptWords.length > 0.1`, stated
      without division. With no question words the ratio is 0/0, NaN, and the comparison false. */
  function IsRelevant(prompt: string, pdfText: string): (relevant: bool)
    ensures relevant ==> Tokenize(ToLower(prompt)) != []
  {
    var promptWords := Tokenize(ToLower(prompt));
    var commonWords := Common(promptWords, Vocabulary(pdfText));
    10 * |commonWords| > |promptWords|
  }

  // ---------------------------------------------------------------------------------------
  // Properties
  // ---------------------------------------------------------------------------------------

  /** A larger vocabulary finds at least as many of the words. */
  lemma {:induction false} CommonMonotone(words: seq<string>, v1: set<string>, v2: set<string>)
    requires v1 <= v2
    ensures |Common(words, v1)| <= |Common(words, v2)|
  {
    if words != [] {
      CommonMonotone(words[..|words| - 1], v1, v2);
    }
  }

  /** The PDF text matters only through its vocabulary, and a larger vocabulary can only turn
      "not relevant" into "relevant". */
  lemma VocabularyMonotone(prompt: string, pdf1: string, pdf2: string)
    requires Vocabulary(pdf1) <= Vocabulary(pdf2)
    ensures IsRelevant(prompt, pdf1) ==> IsRelevant(prompt, pdf2)
  {
    CommonMonotone(Tokenize(ToLower(prompt)), Vocabulary(pdf1), Vocabulary(pdf2));
  }

  /** Every question word found in the PDF, and at least one question word: relevant. */
  lemma {:induction false} CommonAll(words: seq<string>, vocabulary: set<string>)
    requires forall i :: 0 <= i < |words| ==> words[i] in vocabulary
    ensures Common(words, vocabulary) == words
  {
    if words != [] {
      CommonAll(words[..|words| - 1], vocabulary);
      assert words == words[..|words| - 1] + [words[|words| - 1]];
    }
  }

  lemma FullOverlapIsRelevant(prompt: string, pdfText: string)
    requires Tokenize(ToLower(prompt)) != []
    requires forall w :: w in Tokenize(ToLower(prompt)) ==> w in Vocabulary(pdfText)
    ensures IsRelevant(prompt, pdfText)
  {
    CommonAll(Tokenize(ToLower(prompt)), Vocabulary(pdfText));
  }

  /** No question word in the PDF: not relevant. */
  lemma {:induction false} CommonNone(words: seq<string>, vocabulary: set<string>)
    requires forall i :: 0 <= i < |words| ==> words[i] !in vocabulary
    ensures Common(words, vocabulary) == []
  {
    if words != [] {
      CommonNone(words[..|words| - 1], vocabulary);
    }
  }

  lemma NoOverlapIsNotRelevant(prompt: string, pdfText: string)
    requires forall w :: w in Tokenize(ToLower(prompt)) ==> w !in Vocabulary(pdfText)
    ensures !IsRelevant(prompt, pdfText)
  {
    CommonNone(Tokenize(ToLower(prompt)), Vocabulary(pdfText));
  }

  lemma {:induction false} ToLowerIdempotent(s: string)
    ensures ToLower(ToLower(s)) == ToLower(s)
  {
    var once := ToLower(s);
    assert forall i :: 0 <= i < |s| ==> ToLower(once)[i] == LowerChar(LowerChar(s[i])) == once[i];
  }

  /** The decision does not change when either string is lower-cased first. */
  lemma CaseInsensitive(prompt: string, pdfText: string)
    ensures IsRelevant(ToLower(prompt), pdfText) == IsRelevant(prompt, pdfText)
    ensures IsRelevant(prompt, ToLower(pdfText)) == IsRelevant(prompt, pdfText)
  {
    ToLowerIdempotent(prompt);
    ToLowerIdempotent(pdfText);
  }

  lemma {:induction false} ToLowerAppend(a: string, b: string)
    ensures ToLower(a + b) == ToLower(a) + ToLower(b)
  {
    if a == [] {
      assert a + b == b;
    } else {
      assert (a + b)[1..] == a[1..] + b;
      ToLowerAppend(a[1..], b);
    }
  }

  /** A separator ends the words before it. */
  lemma {:induction false} TokenizeAtSeparator(a: string, c: char, b: string)
    requires !IsWordChar(c)
    ensures Tokenize(a + [c] + b) == Tokenize(a) + Tokenize(b)
    decreases |a|
  {
    var s := a + [c] + b;
    if a == [] {
      assert s[1..] == b;
    } else if !IsWordChar(a[0]) {
      assert s[1..] == a[1..] + [c] + b;
      TokenizeAtSeparator(a[1..], c, b);
    } else {
      var n := WordRun(s);
      var m := WordRun(a);
      assert s[|a|] == c;
      assert n <= |a|;
      assert forall i :: 0 <= i < |a| ==> s[i] == a[i];
      assert n == m;
      assert s[..n] == a[..m];
      assert s[n..] == a[m..] + [c] + b;
      TokenizeAtSeparator(a[m..], c, b);
    }
  }

  /** Texts joined by a line break: the vocabulary is the union of the two. */
  lemma VocabularyOfJoin(a: string, b: string)
    ensures Vocabulary(a + "\n" + b) == Vocabulary(a) + Vocabulary(b)
  {
    ToLowerAppend(a + "\n", b);
    ToLowerAppend(a, "\n");
    assert ToLower("\n") == "\n";
    TokenizeAtSeparator(ToLower(a), '\n', ToLower(b));
  }

  /** Words joined by single spaces. */
  function JoinWords(words: seq<string>): string {
    if words == [] then ""
    else if |words| == 1 then words[0]
    else words[0] + " " + JoinWords(words[1..])
  }

  lemma {:induction false} TokenizeWord(w: string)
    requires IsWord(w)
    ensures Tokenize(w) == [w]
  {
    assert IsWordChar(w[0]);
    assert WordRun(w) == |w|;
    assert w[..|w|] == w && w[|w|..] == [];
    assert Tokenize(w) == [w[..|w|]] + Tokenize(w[|w|..]);
  }

  /** The tokenizer gives back the words a text was made of. */
  lemma {:induction false} TokenizeJoinWords(words: seq<string>)
    requires forall i :: 0 <= i < |words| ==> IsWord(words[i])
    ensures Tokenize(JoinWords(words)) == words
  {
    if |words| == 1 {
      TokenizeWord(words[0]);
    } else if |words| > 1 {
      TokenizeJoinWords(words[1..]);
      TokenizeWord(words[0]);
      TokenizeAtSeparator(words[0], ' ', JoinWords(words[1..]));
      assert words[0] + " " + JoinWords(words[1..]) == words[0] + [' '] + JoinWords(words[1..]);
      assert words == [words[0]] + words[1..];
    }
  }
}
