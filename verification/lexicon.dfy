/**
  The data the classifier works on. The tokenizer and lemmatizer are
  external: a message arrives here already split into tokens, each with its
  lemma and the stop-word and punctuation flags the lemmatizer assigned.
  The emotion lexicon is the JSON object `emotion label -> list of lemmas`,
  kept as a sequence of entries in the object's key order.
 */
module Lexicon {
  import opened Seqs

  /** One token of an analysed text: its lemma and the lemmatizer's flags. */
  datatype Token = Token(lemmaText: string, isStop: bool, isPunct: bool)

  /** Tokens that take part in voting: neither stop-words nor punctuation. */
  predicate IsContent(t: Token)
  {
    !t.isStop && !t.isPunct
  }

  /** One key of the lexicon with its lemma list. */
  datatype Entry = Entry(emotion: string, lemmas: seq<string>)

  /** An emotion lexicon, in key order. */
  type Lexicon = seq<Entry>

  /** The lexicon's emotion labels, in key order. */
  function Emotions(lex: Lexicon): (es: seq<string>)
    ensures |es| == |lex|
    ensures forall k :: 0 <= k < |lex| ==> es[k] == lex[k].emotion
  {
    if |lex| == 0 then [] else [lex[0].emotion] + Emotions(lex[1..])
  }

  /** A lexicon read from a JSON object has distinct keys. */
  predicate ValidLexicon(lex: Lexicon)
  {
    NoDup(Emotions(lex))
  }

  /** The lemma list stored under `e`, or the empty list when `e` is not a key. */
  function LemmasOf(lex: Lexicon, e: string): seq<string>
  {
    if |lex| == 0 then []
    else if lex[0].emotion == e then lex[0].lemmas
    else LemmasOf(lex[1..], e)
  }

  /** In a lexicon with distinct keys, the lemma list of the entry at `k` is what a lookup of its key returns. */
  lemma {:induction false} LemmasOfAt(lex: Lexicon, k: nat)
    requires ValidLexicon(lex) && k < |lex|
    ensures LemmasOf(lex, lex[k].emotion) == lex[k].lemmas
  {
    if k > 0 {
      assert Emotions(lex)[0] != Emotions(lex)[k];
      assert Emotions(lex[1..]) == Emotions(lex)[1..];
      LemmasOfAt(lex[1..], k - 1);
    }
  }

  /** A label that is not a key has no lemmas. */
  lemma {:induction false} LemmasOfMissing(lex: Lexicon, e: string)
    requires e !in Emotions(lex)
    ensures LemmasOf(lex, e) == []
  {
    if |lex| > 0 {
      assert Emotions(lex) == [lex[0].emotion] + Emotions(lex[1..]);
      LemmasOfMissing(lex[1..], e);
    }
  }
}
