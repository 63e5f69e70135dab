/**
 What the count vectorizer does to one review text before counting: lower-case
 it, split it into tokens, drop English stop words, then emit every contiguous
 window of `n` remaining tokens, joined by single spaces, as one term.
 The lower-casing, the token pattern and the stop-word list belong to the
 library and are parameters here.
 */
module TextAnalysis {
  import opened Seqs

  /** The library configuration one chart uses. `lowercase` and `tokenize`
      stand for the library's preprocessor and token pattern, `stopWords` for
      its built-in English stop-word list. */
  datatype Analyzer = Analyzer(
    lowercase: string -> string,
    tokenize: string -> seq<string>,
    stopWords: set<string>)

  /** The tokens that are not stop words, in their original order. */
  function DropStopWords(tokens: seq<string>, stopWords: set<string>): (r: seq<string>)
    ensures forall w :: w in r <==> w in tokens && w !in stopWords
    ensures forall w :: multiset(r)[w] == if w in stopWords then 0 else multiset(tokens)[w]
    ensures IsSubsequence(r, tokens)
  {
    var keep := (w: string) => w !in stopWords;
    FilterIsSubsequence(tokens, keep);
    FilterCounts(tokens, keep);
    Filter(tokens, keep)
  }

  /** The content tokens of one review text: stop words are removed before any
      window is formed, so a phrase can span a removed stop word. */
  function Tokens(a: Analyzer, text: string): (r: seq<string>)
    ensures forall w :: w in r <==> w in a.tokenize(a.lowercase(text)) && w !in a.stopWords
    ensures forall w :: multiset(r)[w]
                     == if w in a.stopWords then 0 else multiset(a.tokenize(a.lowercase(text)))[w]
    ensures IsSubsequence(r, a.tokenize(a.lowercase(text)))
  {
    DropStopWords(a.tokenize(a.lowercase(text)), a.stopWords)
  }

  /** The words separated by single spaces. */
  function Join(words: seq<string>): string
  {
    if words == [] then ""
    else if |words| == 1 then words[0]
    else words[0] + " " + Join(words[1..])
  }

  /** The term for the `n` tokens starting at position `i`. */
  function Window(tokens: seq<string>, i: nat, n: nat): string
    requires i + n <= |tokens|
  {
    Join(tokens[i..i + n])
  }

  /** Every contiguous window of `n` tokens, left to right, each rendered as
      one term; a token list shorter than `n` yields no term at all. */
  function NGrams(tokens: seq<string>, n: nat): (r: seq<string>)
    requires n >= 1
    ensures |r| == if |tokens| < n then 0 else |tokens| - n + 1
    ensures forall i :: 0 <= i < |r| ==> r[i] == Window(tokens, i, n)
  {
    if |tokens| < n then []
    else
      var rest := NGrams(tokens[1..], n);
      var r := [Window(tokens, 0, n)] + rest;
      assert forall i :: 0 <= i < |r| ==> r[i] == Window(tokens, i, n) by {
        forall i | 0 < i < |r| ensures r[i] == Window(tokens, i, n) {
          calc {
            r[i];
            rest[i - 1];
            Window(tokens[1..], i - 1, n);
            { WindowOfTail(tokens, i, n); }
            Window(tokens, i, n);
          }
        }
      }
      r
  }

  /** Shifting the start of a window by dropping the first token. */
  lemma WindowOfTail(tokens: seq<string>, i: nat, n: nat)
    requires 0 < i && i + n <= |tokens|
    ensures Window(tokens[1..], i - 1, n) == Window(tokens, i, n)
  {
    assert tokens[1..][i - 1..i - 1 + n] == tokens[i..i + n];
  }

  /** A window of one token is that token. */
  lemma WindowOfOne(tokens: seq<string>, i: nat)
    requires i < |tokens|
    ensures Window(tokens, i, 1) == tokens[i]
  {
    assert tokens[i..i + 1] == [tokens[i]];
  }

  /** With the default range the terms are the content tokens themselves. */
  lemma UnigramsAreTokens(tokens: seq<string>)
    ensures NGrams(tokens, 1) == tokens
  {
    var r := NGrams(tokens, 1);
    forall i | 0 <= i < |r| ensures r[i] == tokens[i] {
      WindowOfOne(tokens, i);
    }
  }

  /** The terms one review contributes to the count. */
  function DocumentTerms(a: Analyzer, text: string, n: nat): (r: seq<string>)
    requires n >= 1
    ensures |r| == if |Tokens(a, text)| < n then 0 else |Tokens(a, text)| - n + 1
    ensures forall i :: 0 <= i < |r| ==> r[i] == Window(Tokens(a, text), i, n)
    ensures forall t :: t in r <==> exists i :: 0 <= i <= |Tokens(a, text)| - n && t == Window(Tokens(a, text), i, n)
  {
    var tokens := Tokens(a, text);
    var r := NGrams(tokens, n);
    assert forall i :: 0 <= i <= |tokens| - n ==> r[i] == Window(tokens, i, n);
    r
  }
}
