/**
  Emotion detection from a message (`get_emotion_from_message`): tally the
  votes, then return nothing when no emotion got a point, or else the
  emotion with the most points, the one met first in the table on a tie.
 */
module Classifier {
  import opened Seqs
  import opened Lexicon
  import opened Votes

  datatype Option<T> = None | Some(value: T)

  /**
    The selection `max(table, key=points)`: the row with the most points,
    and the first such row on a tie, since a later row replaces the current
    best only when it has strictly more points.
   */
  function FirstMaxIndex(t: VoteTable): (k: nat)
    requires |t| > 0
    ensures k < |t|
    ensures forall j :: 0 <= j < |t| ==> t[j].points <= t[k].points
    ensures forall j :: 0 <= j < k ==> t[j].points < t[k].points
  {
    if |t| == 1 then 0
    else
      var best := FirstMaxIndex(t[..|t| - 1]);
      if t[|t| - 1].points > t[best].points then |t| - 1 else best
  }

  /** The detected emotion of a message, or `None` when no emotion got a vote. */
  function Classify(tokens: seq<Token>, lex: Lexicon): (r: Option<string>)
    ensures r.Some? ==> r.value in Emotions(lex)
  {
    var t := Tally(tokens, lex);
    if |t| == 0 then None
    else
      var k := FirstMaxIndex(t);
      TallyIsTableOf(tokens, lex);
      VoteStreamFromLexicon(tokens, lex);
      assert t[k].emotion == Keys(t)[k];
      Some(t[k].emotion)
  }

  /**
    No emotion is detected exactly when no content token has its lemma in
    any lemma list of the lexicon.
   */
  lemma NoneIffNoMatch(tokens: seq<Token>, lex: Lexicon)
    ensures Classify(tokens, lex).None? <==>
      forall i, k :: 0 <= i < |tokens| && 0 <= k < |lex| && IsContent(tokens[i]) ==> tokens[i].lemmaText !in lex[k].lemmas
  {
    var t, s := Tally(tokens, lex), VoteStream(tokens, lex);
    TallyIsTableOf(tokens, lex);
    VoteStreamEmpty(tokens, lex);
    if |s| > 0 {
      assert s[0] in Keys(t);
    }
    if |t| > 0 {
      assert Keys(t)[0] in s;
    }
  }

  /** For a lexicon with distinct keys: no emotion is detected exactly when every emotion deserves zero votes. */
  lemma NoneIffNoVotes(tokens: seq<Token>, lex: Lexicon)
    requires ValidLexicon(lex)
    ensures Classify(tokens, lex).None? <==> forall e :: VotesFor(tokens, lex, e) == 0
  {
    var t := Tally(tokens, lex);
    TallyCounts(tokens, lex);
    if |t| > 0 {
      assert Keys(t)[0] in Keys(t);
    }
  }

  /**
    The detected emotion is a key of the lexicon with at least one vote and
    with at least as many votes as any other emotion; among the emotions
    with as many votes it is the one whose first vote was cast first (votes
    are cast token by token, and within one token in the lexicon's key
    order), which is also the first of them in the vote table.
   */
  lemma WinnerIsFirstMaximal(tokens: seq<Token>, lex: Lexicon, e: string)
    requires ValidLexicon(lex)
    requires Classify(tokens, lex) == Some(e)
    ensures e in Emotions(lex)
    ensures VotesFor(tokens, lex, e) > 0
    ensures forall x :: VotesFor(tokens, lex, x) <= VotesFor(tokens, lex, e)
    ensures forall x :: x != e && VotesFor(tokens, lex, x) == VotesFor(tokens, lex, e) ==>
      FirstIndex(VoteStream(tokens, lex), e) < FirstIndex(VoteStream(tokens, lex), x)
  {
    var t := Tally(tokens, lex);
    TallyCounts(tokens, lex);
    assert Keys(t)[FirstMaxIndex(t)] == e;
    PointsAt(t, FirstMaxIndex(t));
    forall x
      ensures VotesFor(tokens, lex, x) <= VotesFor(tokens, lex, e)
      ensures x != e && VotesFor(tokens, lex, x) == VotesFor(tokens, lex, e) ==>
        FirstIndex(VoteStream(tokens, lex), e) < FirstIndex(VoteStream(tokens, lex), x)
    {
      WinnerAgainst(tokens, lex, e, x);
    }
  }

  /** The winner compared with one other emotion `x`. */
  lemma WinnerAgainst(tokens: seq<Token>, lex: Lexicon, e: string, x: string)
    requires ValidLexicon(lex)
    requires Classify(tokens, lex) == Some(e)
    ensures VotesFor(tokens, lex, x) <= VotesFor(tokens, lex, e)
    ensures x != e && VotesFor(tokens, lex, x) == VotesFor(tokens, lex, e) ==>
      FirstIndex(VoteStream(tokens, lex), e) < FirstIndex(VoteStream(tokens, lex), x)
  {
    var t := Tally(tokens, lex);
    var k := FirstMaxIndex(t);
    TallyCounts(tokens, lex);
    assert Keys(t)[k] == e;
    PointsAt(t, k);
    if x in Keys(t) {
      FirstMaxAgainst(t, x);
      var j := FirstIndex(Keys(t), x);
      if x != e && Points(t, x) == t[k].points {
        assert k < j && Keys(t)[j] == x;
      }
    }
  }

  /** In a table without repeats, no row has more points than the selected one, and a row with as many comes after it. */
  lemma FirstMaxAgainst(t: VoteTable, x: string)
    requires |t| > 0 && NoDup(Keys(t)) && x in Keys(t)
    ensures Points(t, x) <= t[FirstMaxIndex(t)].points
    ensures x != t[FirstMaxIndex(t)].emotion && Points(t, x) == t[FirstMaxIndex(t)].points ==>
      FirstMaxIndex(t) < FirstIndex(Keys(t), x)
  {
    var k, j := FirstMaxIndex(t), FirstIndex(Keys(t), x);
    assert j < |t| && Keys(t)[j] == x && t[j].emotion == x;
    PointsAt(t, j);
    assert Points(t, x) == t[j].points;
    assert t[j].points <= t[k].points;
    if j < k {
      assert t[j].points < t[k].points;
    } else if j == k {
      assert x == t[k].emotion;
    }
  }

  /**
    Within the vote table, no row before the winner's has as many points,
    and no row at all has more.
   */
  lemma WinnerIsFirstInTable(tokens: seq<Token>, lex: Lexicon, e: string)
    requires Classify(tokens, lex) == Some(e)
    ensures exists k :: (
              && 0 <= k < |Tally(tokens, lex)|
              && Tally(tokens, lex)[k].emotion == e
              && (forall j :: 0 <= j < k ==> Tally(tokens, lex)[j].points < Tally(tokens, lex)[k].points)
              && (forall j :: 0 <= j < |Tally(tokens, lex)| ==> Tally(tokens, lex)[j].points <= Tally(tokens, lex)[k].points))
  {
    var t := Tally(tokens, lex);
    var k := FirstMaxIndex(t);
    assert t[k].emotion == e;
  }

  /**
    Example: with `happy -> [feliz]` and `sad -> [triste]`,
    a message whose only content lemmas are `feliz` and `hoje` is happy.
   */
  lemma HappyExample()
    ensures Classify([Token("estar", true, false), Token("muito", true, false), Token("feliz", false, false), Token("hoje", false, false)],
                     [Entry("happy", ["feliz"]), Entry("sad", ["triste"])]) == Some("happy")
  {
    var lex := [Entry("happy", ["feliz"]), Entry("sad", ["triste"])];
    var tokens := [Token("estar", true, false), Token("muito", true, false), Token("feliz", false, false), Token("hoje", false, false)];
    assert "hoje" != "feliz" && "hoje" != "triste" && "feliz" != "triste";
    assert Tally(tokens, lex) == [Vote("happy", 1)];
  }

  /**
    A tie goes to the emotion voted for first, not to the one listed first
    in the lexicon: `triste` comes before `feliz` in the message.
   */
  lemma TieExample()
    ensures Classify([Token("triste", false, false), Token("feliz", false, false)],
                     [Entry("happy", ["feliz"]), Entry("sad", ["triste"])]) == Some("sad")
  {
    var lex := [Entry("happy", ["feliz"]), Entry("sad", ["triste"])];
    var tokens := [Token("triste", false, false), Token("feliz", false, false)];
    assert "feliz" != "triste" && "happy" != "sad";
    var t1 := [Vote("sad", 1)];
    var t2 := [Vote("sad", 1), Vote("happy", 1)];
    assert VoteEntry([], lex[0], "triste") == [];
    assert VoteLemma([], lex, "triste") == t1;
    assert VoteEntry(t1, lex[0], "feliz") == t2;
    assert VoteLemma(t1, lex, "feliz") == t2;
    assert tokens[1..][1..] == [];
    assert Tally(tokens, lex) == t2;
  }
}
