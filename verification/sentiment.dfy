/**
  Sentiment gating of the classifier. The external polarity scorer gives a
  compound score; fixed thresholds turn it into Positive, Negative or
  Neutral (`get_leia_sentiment`). A fixed partition table picks the emotions
  plausible for that sentiment, and the lexicon is restricted to them before
  the vote (`get_sentiment_subset`). The restricted lexicon is built from a
  set intersection, so its key order is not fixed; `IsGatingOf` admits every
  order and the results below that matter hold for all of them.
 */
module Sentiment {
  import opened Seqs
  import opened Lexicon
  import opened Votes
  import opened Classifier

  datatype Polarity = Positive | Negative | Neutral

  /** The label `get_leia_sentiment` returns for each polarity. */
  function Label(p: Polarity): string
  {
    match p
    case Positive => "Positive"
    case Negative => "Negative"
    case Neutral => "Neutral"
  }

  /** The thresholds of the compound score: at least 0.05 is positive, otherwise at most -0.05 is negative. */
  function FromCompound(compound: real): (p: Polarity)
    ensures p == Positive <==> compound >= 0.05
    ensures p == Negative <==> compound <= -0.05
    ensures p == Neutral <==> -0.05 < compound < 0.05
  {
    if compound >= 0.05 then Positive
    else if compound <= -0.05 then Negative
    else Neutral
  }

  /** Negative below Neutral below Positive. */
  function Rank(p: Polarity): nat
  {
    match p
    case Negative => 0
    case Neutral => 1
    case Positive => 2
  }

  /** A higher compound score never gives a lower polarity. */
  lemma FromCompoundMonotonic(a: real, b: real)
    requires a <= b
    ensures Rank(FromCompound(a)) <= Rank(FromCompound(b))
  {
  }

  /** Sample scores, including both bounds. */
  lemma FromCompoundExamples()
    ensures FromCompound(0.6) == Positive
    ensures FromCompound(-0.2) == Negative
    ensures FromCompound(0.0) == Neutral
    ensures FromCompound(0.05) == Positive && FromCompound(-0.05) == Negative
  {
  }

  const PositiveEmotions: set<string> := {"yes", "happy", "surprised", "smug"}
  const NegativeEmotions: set<string> := {"angry", "sad", "embarrassed", "no"}
  const NeutralEmotions: set<string> := {"nervous", "confused", "thinking"}

  /** The partition table: the emotions plausible for a sentiment label; any label other than the first two gets the neutral set. */
  function Partition(sentiment: string): set<string>
  {
    if sentiment == "Positive" then PositiveEmotions
    else if sentiment == "Negative" then NegativeEmotions
    else NeutralEmotions
  }

  /**
    The partition table splits the eleven emotions into three disjoint
    groups, and each polarity's label selects its own group.
   */
  lemma PartitionTable(a: string, b: string)
    ensures Partition(a) == Partition(b) || Partition(a) !! Partition(b)
    ensures Partition(Label(Positive)) == PositiveEmotions
    ensures Partition(Label(Negative)) == NegativeEmotions
    ensures Partition(Label(Neutral)) == NeutralEmotions
    ensures |PositiveEmotions + NegativeEmotions + NeutralEmotions| == 11
  {
    PartitionsDisjoint();
    assert |PositiveEmotions| == 4 && |NegativeEmotions| == 4 && |NeutralEmotions| == 3;
  }

  lemma PartitionsDisjoint()
    ensures PositiveEmotions !! NegativeEmotions
    ensures PositiveEmotions !! NeutralEmotions
    ensures NegativeEmotions !! NeutralEmotions
  {
  }

  /**
    `g` is a restriction of `lex` to the emotions of the partition of
    `sentiment`: distinct keys, exactly the keys of `lex` that are in the
    partition, in any order, each with the lemma list it has in `lex`.
   */
  ghost predicate IsGatingOf(g: Lexicon, lex: Lexicon, sentiment: string)
  {
    && ValidLexicon(g)
    && (forall e :: e in Emotions(g) <==> e in Emotions(lex) && e in Partition(sentiment))
    && (forall k :: 0 <= k < |g| ==> g[k].lemmas == LemmasOf(lex, g[k].emotion))
  }

  /** One order of the restricted lexicon: the entries of `lex` whose key is in the partition, in the order of `lex`. */
  function Gate(lex: Lexicon, sentiment: string): (g: Lexicon)
    ensures |g| <= |lex|
    ensures forall k :: 0 <= k < |g| ==> g[k] in lex && g[k].emotion in Partition(sentiment)
  {
    if |lex| == 0 then []
    else if lex[0].emotion in Partition(sentiment) then [lex[0]] + Gate(lex[1..], sentiment)
    else Gate(lex[1..], sentiment)
  }

  /** Keeping the entries of the partition, in the order of `lex`, is one restriction of `lex`. */
  lemma GateIsGating(lex: Lexicon, sentiment: string)
    requires ValidLexicon(lex)
    ensures IsGatingOf(Gate(lex, sentiment), lex, sentiment)
  {
    var g := Gate(lex, sentiment);
    GateEmotions(lex, sentiment);
    forall k | 0 <= k < |g|
      ensures g[k].lemmas == LemmasOf(lex, g[k].emotion)
    {
      var j :| 0 <= j < |lex| && lex[j] == g[k];
      LemmasOfAt(lex, j);
    }
  }

  /** The keys kept are the keys of `lex` in the partition, and they stay distinct. */
  lemma GateEmotions(lex: Lexicon, sentiment: string)
    ensures forall e :: e in Emotions(Gate(lex, sentiment)) <==> e in Emotions(lex) && e in Partition(sentiment)
    ensures ValidLexicon(lex) ==> ValidLexicon(Gate(lex, sentiment))
  {
    GateKeys(lex, sentiment);
    if ValidLexicon(lex) {
      GateDistinct(lex, sentiment);
    }
  }

  lemma {:induction false} GateKeys(lex: Lexicon, sentiment: string)
    ensures forall e :: e in Emotions(Gate(lex, sentiment)) <==> e in Emotions(lex) && e in Partition(sentiment)
  {
    if |lex| > 0 {
      GateKeys(lex[1..], sentiment);
      assert Emotions(lex) == [lex[0].emotion] + Emotions(lex[1..]);
      if lex[0].emotion in Partition(sentiment) {
        assert Emotions(Gate(lex, sentiment)) == [lex[0].emotion] + Emotions(Gate(lex[1..], sentiment));
      }
    }
  }

  lemma {:induction false} GateDistinct(lex: Lexicon, sentiment: string)
    requires ValidLexicon(lex)
    ensures ValidLexicon(Gate(lex, sentiment))
  {
    if |lex| > 0 {
      var rest := Gate(lex[1..], sentiment);
      assert Emotions(lex) == [lex[0].emotion] + Emotions(lex[1..]);
      NoDupCons(lex[0].emotion, Emotions(lex[1..]));
      GateDistinct(lex[1..], sentiment);
      if lex[0].emotion in Partition(sentiment) {
        GateKeys(lex[1..], sentiment);
        assert Emotions(Gate(lex, sentiment)) == [lex[0].emotion] + Emotions(rest);
        NoDupCons(lex[0].emotion, Emotions(rest));
      }
    }
  }

  /** Looking an emotion up in a restriction gives its lemmas in `lex` inside the partition and nothing outside. */
  lemma GatedLemmasOf(g: Lexicon, lex: Lexicon, sentiment: string, e: string)
    requires IsGatingOf(g, lex, sentiment)
    ensures LemmasOf(g, e) == if e in Partition(sentiment) then LemmasOf(lex, e) else []
  {
    if e in Emotions(g) {
      var k :| 0 <= k < |g| && Emotions(g)[k] == e;
      LemmasOfAt(g, k);
    } else {
      LemmasOfMissing(g, e);
      if e in Partition(sentiment) {
        LemmasOfMissing(lex, e);
      }
    }
  }

  /** Under a restriction, an emotion of the partition keeps the votes it has under the full lexicon, and any other emotion gets none. */
  lemma GatedVotes(tokens: seq<Token>, g: Lexicon, lex: Lexicon, sentiment: string, e: string)
    requires IsGatingOf(g, lex, sentiment)
    ensures VotesFor(tokens, g, e) == if e in Partition(sentiment) then VotesFor(tokens, lex, e) else 0
  {
    GatedLemmasOf(g, lex, sentiment, e);
    if e !in Partition(sentiment) {
      NoMatches(tokens);
    }
  }

  lemma {:induction false} NoMatches(tokens: seq<Token>)
    ensures Matches(tokens, []) == 0
  {
    if |tokens| > 0 {
      NoMatches(tokens[1..]);
    }
  }

  /** A classification against any restriction never detects an emotion outside the partition. */
  lemma GatedWinnerInPartition(tokens: seq<Token>, g: Lexicon, lex: Lexicon, sentiment: string)
    requires IsGatingOf(g, lex, sentiment)
    ensures Classify(tokens, g).Some? ==> Classify(tokens, g).value in Partition(sentiment) && Classify(tokens, g).value in Emotions(lex)
  {
  }

  /**
    The order of the restricted lexicon does not change the points each
    emotion gets, whether an emotion is detected at all, or the number of
    votes of the detected emotion; only which of several tied emotions wins
    can depend on it.
   */
  lemma GatingOrderIrrelevant(tokens: seq<Token>, g1: Lexicon, g2: Lexicon, lex: Lexicon, sentiment: string)
    requires IsGatingOf(g1, lex, sentiment) && IsGatingOf(g2, lex, sentiment)
    ensures forall e :: Points(Tally(tokens, g1), e) == Points(Tally(tokens, g2), e)
    ensures Classify(tokens, g1).None? <==> Classify(tokens, g2).None?
    ensures Classify(tokens, g1).Some? ==>
      VotesFor(tokens, g1, Classify(tokens, g1).value) == VotesFor(tokens, g2, Classify(tokens, g2).value)
  {
    TallyCounts(tokens, g1);
    TallyCounts(tokens, g2);
    forall e
      ensures VotesFor(tokens, g1, e) == VotesFor(tokens, g2, e)
    {
      GatedVotes(tokens, g1, lex, sentiment, e);
      GatedVotes(tokens, g2, lex, sentiment, e);
    }
    NoneIffNoVotes(tokens, g1);
    NoneIffNoVotes(tokens, g2);
    if Classify(tokens, g1).Some? {
      WinnerIsFirstMaximal(tokens, g1, Classify(tokens, g1).value);
      WinnerIsFirstMaximal(tokens, g2, Classify(tokens, g2).value);
    }
  }

  /**
    On a tie the order of the restriction does decide the winner: one token
    votes for both `happy` and `yes`, and each of the two orders of the same
    restriction detects the emotion it lists first.
   */
  lemma GatingOrderDecidesTie()
    ensures IsGatingOf([Entry("happy", ["feliz"]), Entry("yes", ["feliz"])], [Entry("happy", ["feliz"]), Entry("yes", ["feliz"])], "Positive")
    ensures IsGatingOf([Entry("yes", ["feliz"]), Entry("happy", ["feliz"])], [Entry("happy", ["feliz"]), Entry("yes", ["feliz"])], "Positive")
    ensures Classify([Token("feliz", false, false)], [Entry("happy", ["feliz"]), Entry("yes", ["feliz"])]) == Some("happy")
    ensures Classify([Token("feliz", false, false)], [Entry("yes", ["feliz"]), Entry("happy", ["feliz"])]) == Some("yes")
  {
    TieRestrictions();
    SharedLemmaTie("happy", "yes");
    SharedLemmaTie("yes", "happy");
  }

  /** Both orders of the two entries are restrictions of the lexicon to the positive emotions. */
  lemma TieRestrictions()
    ensures IsGatingOf([Entry("happy", ["feliz"]), Entry("yes", ["feliz"])], [Entry("happy", ["feliz"]), Entry("yes", ["feliz"])], "Positive")
    ensures IsGatingOf([Entry("yes", ["feliz"]), Entry("happy", ["feliz"])], [Entry("happy", ["feliz"]), Entry("yes", ["feliz"])], "Positive")
  {
    var lex := [Entry("happy", ["feliz"]), Entry("yes", ["feliz"])];
    assert "happy" != "yes";
    assert Emotions(lex) == ["happy", "yes"];
    assert Emotions([lex[1], lex[0]]) == ["yes", "happy"];
  }

  /** A lemma listed under two emotions ties them, and the one listed first wins. */
  lemma SharedLemmaTie(a: string, b: string)
    requires a != b
    ensures Classify([Token("feliz", false, false)], [Entry(a, ["feliz"]), Entry(b, ["feliz"])]) == Some(a)
  {
    var lex := [Entry(a, ["feliz"]), Entry(b, ["feliz"])];
    var tokens := [Token("feliz", false, false)];
    assert VoteEntry([], lex[0], "feliz") == [Vote(a, 1)];
    assert [Vote(a, 1)][1..] == [] && Bump([], b) == [Vote(b, 1)];
    assert Bump([Vote(a, 1)], b) == [Vote(a, 1), Vote(b, 1)];
    assert VoteEntry([Vote(a, 1)], lex[1], "feliz") == [Vote(a, 1), Vote(b, 1)];
    assert lex[1..][0] == lex[1] && lex[1..][1..] == [];
    assert VoteLemma([Vote(a, 1)], lex[1..], "feliz") == [Vote(a, 1), Vote(b, 1)];
    assert VoteLemma([], lex, "feliz") == [Vote(a, 1), Vote(b, 1)];
    assert tokens[1..] == [];
    assert Tally(tokens, lex) == [Vote(a, 1), Vote(b, 1)];
  }

  /**
    The `--message` pipeline: score the message, restrict the lexicon to the
    partition of its polarity, and classify against the restriction. The
    detected emotion belongs to the polarity's partition and is a key of the
    full lexicon.
   */
  function DetectEmotion(tokens: seq<Token>, compound: real, lex: Lexicon): (r: Option<string>)
    requires ValidLexicon(lex)
    ensures r.Some? ==> r.value in Partition(Label(FromCompound(compound))) && r.value in Emotions(lex)
  {
    var g := Gate(lex, Label(FromCompound(compound)));
    GateIsGating(lex, Label(FromCompound(compound)));
    Classify(tokens, g)
  }
}
