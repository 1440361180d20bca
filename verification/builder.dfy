/**
  The lexicon builder run by `--create-emotion-lemmas`: every seed word of
  every emotion is analysed by the lemmatizer, stop-words are dropped and
  each lemma is kept once, at the place it was first seen. The lemmatizer is
  external, so each seed word arrives here as the token sequence it produced.
 */
module LexiconBuilder {
  import opened Seqs
  import opened Lexicon

  /** One key of the seed mapping: an emotion and its seed words, each already analysed into tokens. */
  datatype Seed = Seed(emotion: string, words: seq<seq<Token>>)

  /** The lemmas of the tokens of `doc` that are not stop-words, in order. */
  function KeptLemmas(doc: seq<Token>): seq<string>
  {
    if |doc| == 0 then []
    else
      var last := doc[|doc| - 1];
      KeptLemmas(doc[..|doc| - 1]) + (if last.isStop then [] else [last.lemmaText])
  }

  /** The lemmas of all seed words, in the order the builder meets them, duplicates included. */
  function SeedLemmas(words: seq<seq<Token>>): seq<string>
  {
    if |words| == 0 then []
    else SeedLemmas(words[..|words| - 1]) + KeptLemmas(words[|words| - 1])
  }

  /**
    The lemma list of one emotion: the non-stop lemmas of its seed words
    with repeats removed, each kept where it was first seen.
   */
  method BuildLemmas(words: seq<seq<Token>>) returns (lemmas: seq<string>)
    ensures IsFirstSeenDedup(lemmas, SeedLemmas(words))
  {
    lemmas := [];
    var i := 0;
    while i < |words|
      invariant 0 <= i <= |words|
      invariant IsFirstSeenDedup(lemmas, SeedLemmas(words[..i]))
    {
      var doc := words[i];
      ghost var before := SeedLemmas(words[..i]);
      var k := 0;
      assert before + KeptLemmas(doc[..k]) == before;
      while k < |doc|
        invariant 0 <= k <= |doc|
        invariant IsFirstSeenDedup(lemmas, before + KeptLemmas(doc[..k]))
      {
        var token := doc[k];
        ghost var previous := lemmas;
        if !token.isStop && token.lemmaText !in lemmas {
          lemmas := lemmas + [token.lemmaText];
        }
        BuildLemmasStep(previous, before, doc, k, lemmas);
        k := k + 1;
      }
      SeedLemmasStep(words, i);
      assert doc[..k] == doc;
      i := i + 1;
    }
    assert words[..i] == words;
  }

  /** One token of the inner loop keeps the loop invariant. */
  lemma BuildLemmasStep(lemmas: seq<string>, before: seq<string>, doc: seq<Token>, k: nat, next: seq<string>)
    requires k < |doc|
    requires IsFirstSeenDedup(lemmas, before + KeptLemmas(doc[..k]))
    requires next == if !doc[k].isStop && doc[k].lemmaText !in lemmas then lemmas + [doc[k].lemmaText] else lemmas
    ensures IsFirstSeenDedup(next, before + KeptLemmas(doc[..k + 1]))
  {
    var seen, seen' := before + KeptLemmas(doc[..k]), before + KeptLemmas(doc[..k + 1]);
    KeptLemmasStep(doc, k);
    if !doc[k].isStop {
      assert seen' == seen + [doc[k].lemmaText];
      FirstSeenDedupStep(lemmas, seen, doc[k].lemmaText);
    } else {
      assert seen' == seen;
    }
  }

  lemma KeptLemmasStep(doc: seq<Token>, k: nat)
    requires k < |doc|
    ensures KeptLemmas(doc[..k + 1]) == KeptLemmas(doc[..k]) + (if doc[k].isStop then [] else [doc[k].lemmaText])
  {
    assert doc[..k + 1][..k] == doc[..k];
  }

  lemma SeedLemmasStep(words: seq<seq<Token>>, i: nat)
    requires i < |words|
    ensures SeedLemmas(words[..i + 1]) == SeedLemmas(words[..i]) + KeptLemmas(words[i])
  {
    assert words[..i + 1][..i] == words[..i];
  }

  /**
    The whole lexicon: one entry per seed key, in the seed's key order, each
    holding the first-seen deduplication of its non-stop seed lemmas.
   */
  method BuildLexicon(seeds: seq<Seed>) returns (lex: Lexicon)
    ensures |lex| == |seeds|
    ensures forall k :: 0 <= k < |lex| ==> lex[k].emotion == seeds[k].emotion
    ensures forall k :: 0 <= k < |lex| ==> IsFirstSeenDedup(lex[k].lemmas, SeedLemmas(seeds[k].words))
  {
    lex := [];
    var i := 0;
    while i < |seeds|
      invariant 0 <= i <= |seeds|
      invariant |lex| == i
      invariant forall k :: 0 <= k < i ==> lex[k].emotion == seeds[k].emotion
      invariant forall k :: 0 <= k < i ==> IsFirstSeenDedup(lex[k].lemmas, SeedLemmas(seeds[k].words))
    {
      var lemmas := BuildLemmas(seeds[i].words);
      lex := lex + [Entry(seeds[i].emotion, lemmas)];
      i := i + 1;
    }
  }

  /**
    Rebuilding gives the same lexicon: any two lemma lists that meet the
    builder's contract for the same seed words are equal.
   */
  lemma BuildIsDeterministic(words: seq<seq<Token>>, a: seq<string>, b: seq<string>)
    requires IsFirstSeenDedup(a, SeedLemmas(words))
    requires IsFirstSeenDedup(b, SeedLemmas(words))
    ensures a == b
  {
    FirstSeenDedupUnique(a, b, SeedLemmas(words));
  }

  /**
    Building is idempotent: feeding a built lemma list back in as seed words
    (one non-stop token per lemma) yields the same list.
   */
  lemma {:induction false} BuildIsIdempotent(words: seq<seq<Token>>, lemmas: seq<string>)
    requires IsFirstSeenDedup(lemmas, SeedLemmas(words))
    ensures IsFirstSeenDedup(lemmas, SeedLemmas(AsSeedWords(lemmas)))
  {
    SeedLemmasOfLemmas(lemmas);
    var s := SeedLemmas(AsSeedWords(lemmas));
    forall i, j | 0 <= i < j < |lemmas|
      ensures FirstIndex(s, lemmas[i]) < FirstIndex(s, lemmas[j])
    {
      FirstIndexOfNoDup(lemmas, i);
      FirstIndexOfNoDup(lemmas, j);
    }
  }

  /** Each lemma as a seed word of one non-stop token. */
  function AsSeedWords(lemmas: seq<string>): (words: seq<seq<Token>>)
    ensures |words| == |lemmas|
  {
    seq(|lemmas|, i requires 0 <= i < |lemmas| => [Token(lemmas[i], false, false)])
  }

  lemma {:induction false} SeedLemmasOfLemmas(lemmas: seq<string>)
    ensures SeedLemmas(AsSeedWords(lemmas)) == lemmas
  {
    if |lemmas| > 0 {
      var n := |lemmas| - 1;
      var doc := [Token(lemmas[n], false, false)];
      assert AsSeedWords(lemmas)[..n] == AsSeedWords(lemmas[..n]);
      assert KeptLemmas(doc) == KeptLemmas(doc[..0]) + [lemmas[n]];
      SeedLemmasOfLemmas(lemmas[..n]);
      assert lemmas == lemmas[..n] + [lemmas[n]];
    }
  }
}
