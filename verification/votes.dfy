/**
  The vote tally of the classifier. For every token that is neither a
  stop-word nor punctuation, and for every lexicon entry in key order whose
  lemma list holds the token's lemma, the entry's emotion gets one point.
  The points are kept in an insertion-ordered table: an emotion enters it
  the first time it gets a point.

  Besides the operational tally this module gives two reference
  descriptions of its result: the stream of votes in the order they are
  cast, and, per emotion, the number of content tokens whose lemma is in the
  emotion's lemma list.
 */
module Votes {
  import opened Seqs
  import opened Lexicon

  /** One row of the vote table. */
  datatype Vote = Vote(emotion: string, points: nat)

  /** The vote table, in insertion order. */
  type VoteTable = seq<Vote>

  /** The emotions of the table, in insertion order. */
  function Keys(t: VoteTable): (ks: seq<string>)
    ensures |ks| == |t|
    ensures forall i :: 0 <= i < |t| ==> ks[i] == t[i].emotion
  {
    if |t| == 0 then [] else [t[0].emotion] + Keys(t[1..])
  }

  /** The points of `e`, zero when `e` has none yet. */
  function Points(t: VoteTable, e: string): nat
  {
    if |t| == 0 then 0
    else if t[0].emotion == e then t[0].points
    else Points(t[1..], e)
  }

  /**
    One more point for `e`: an emotion already in the table keeps its place,
    a new one is appended with one point; no other emotion's points change.
   */
  function Bump(t: VoteTable, e: string): (r: VoteTable)
    ensures Keys(r) == if e in Keys(t) then Keys(t) else Keys(t) + [e]
    ensures forall x :: Points(r, x) == Points(t, x) + (if x == e then 1 else 0)
  {
    if |t| == 0 then [Vote(e, 1)]
    else if t[0].emotion == e then [Vote(e, t[0].points + 1)] + t[1..]
    else
      assert Keys(t) == [t[0].emotion] + Keys(t[1..]);
      [t[0]] + Bump(t[1..], e)
  }

  /** The body of the inner loop: a point for the entry's emotion when its lemma list holds `word`. */
  function VoteEntry(t: VoteTable, entry: Entry, word: string): VoteTable
  {
    if word in entry.lemmas then Bump(t, entry.emotion) else t
  }

  /** The inner loop: the votes a single lemma casts, entry by entry in key order. */
  function VoteLemma(t: VoteTable, lex: Lexicon, word: string): VoteTable
    decreases |lex|
  {
    if |lex| == 0 then t
    else VoteLemma(VoteEntry(t, lex[0], word), lex[1..], word)
  }

  /** The outer loop: tokens in order, skipping stop-words and punctuation. */
  function TallyFrom(t: VoteTable, tokens: seq<Token>, lex: Lexicon): VoteTable
    decreases |tokens|
  {
    if |tokens| == 0 then t
    else
      var t' := if IsContent(tokens[0]) then VoteLemma(t, lex, tokens[0].lemmaText) else t;
      TallyFrom(t', tokens[1..], lex)
  }

  /** The vote table of a message, starting from an empty table. */
  function Tally(tokens: seq<Token>, lex: Lexicon): VoteTable
  {
    TallyFrom([], tokens, lex)
  }

  // ----- Reference descriptions -----

  /** The vote a lemma casts through one entry: its emotion, or nothing. */
  function EntryVotes(entry: Entry, word: string): seq<string>
  {
    if word in entry.lemmas then [entry.emotion] else []
  }

  /** The emotions a lemma votes for, in key order. */
  function LemmaVotes(lex: Lexicon, word: string): seq<string>
  {
    if |lex| == 0 then []
    else EntryVotes(lex[0], word) + LemmaVotes(lex[1..], word)
  }

  /** Every vote of a message, in the order it is cast. */
  function VoteStream(tokens: seq<Token>, lex: Lexicon): seq<string>
  {
    if |tokens| == 0 then []
    else (if IsContent(tokens[0]) then LemmaVotes(lex, tokens[0].lemmaText) else []) + VoteStream(tokens[1..], lex)
  }

  /** Number of content tokens whose lemma is in `lemmas`. */
  function Matches(tokens: seq<Token>, lemmas: seq<string>): nat
  {
    if |tokens| == 0 then 0
    else (if IsContent(tokens[0]) && tokens[0].lemmaText in lemmas then 1 else 0) + Matches(tokens[1..], lemmas)
  }

  /** The votes `e` deserves: content tokens whose lemma is in the lemma list stored under `e`. */
  function VotesFor(tokens: seq<Token>, lex: Lexicon, e: string): nat
  {
    Matches(tokens, LemmasOf(lex, e))
  }

  /**
    `t` is the vote table of the vote stream `s`: its emotions are those of
    `s` once each, in the order of their first votes, and each has as many
    points as it has votes in `s`.
   */
  ghost predicate IsTableOf(t: VoteTable, s: seq<string>)
  {
    IsFirstSeenDedup(Keys(t), s) && forall e :: Points(t, e) == Count(s, e)
  }

  // ----- The tally computes the table of the vote stream -----

  lemma BumpIsTableOf(t: VoteTable, s: seq<string>, e: string)
    requires IsTableOf(t, s)
    ensures IsTableOf(Bump(t, e), s + [e])
  {
    FirstSeenDedupStep(Keys(t), s, e);
    BumpPoints(t, s, e);
  }

  lemma BumpPoints(t: VoteTable, s: seq<string>, e: string)
    requires forall x :: Points(t, x) == Count(s, x)
    ensures forall x :: Points(Bump(t, e), x) == Count(s + [e], x)
  {
    forall x
      ensures Points(Bump(t, e), x) == Count(s + [e], x)
    {
      CountAppend(s, e, x);
    }
  }

  lemma VoteEntryIsTableOf(t: VoteTable, s: seq<string>, entry: Entry, word: string)
    requires IsTableOf(t, s)
    ensures IsTableOf(VoteEntry(t, entry, word), s + EntryVotes(entry, word))
  {
    if word in entry.lemmas {
      BumpIsTableOf(t, s, entry.emotion);
    } else {
      assert s + [] == s;
    }
  }

  lemma {:induction false} VoteLemmaIsTableOf(t: VoteTable, s: seq<string>, lex: Lexicon, word: string)
    requires IsTableOf(t, s)
    ensures IsTableOf(VoteLemma(t, lex, word), s + LemmaVotes(lex, word))
    decreases |lex|
  {
    if |lex| == 0 {
      assert s + LemmaVotes(lex, word) == s;
    } else {
      var s' := s + EntryVotes(lex[0], word);
      VoteEntryIsTableOf(t, s, lex[0], word);
      VoteLemmaIsTableOf(VoteEntry(t, lex[0], word), s', lex[1..], word);
      AppendAssoc(s, EntryVotes(lex[0], word), LemmaVotes(lex[1..], word));
    }
  }

  lemma AppendAssoc(a: seq<string>, b: seq<string>, c: seq<string>)
    ensures a + (b + c) == (a + b) + c
  {
  }

  lemma {:induction false} TallyFromIsTableOf(t: VoteTable, s: seq<string>, tokens: seq<Token>, lex: Lexicon)
    requires IsTableOf(t, s)
    ensures IsTableOf(TallyFrom(t, tokens, lex), s + VoteStream(tokens, lex))
    decreases |tokens|
  {
    if |tokens| == 0 {
      assert s + VoteStream(tokens, lex) == s;
    } else {
      var head := if IsContent(tokens[0]) then LemmaVotes(lex, tokens[0].lemmaText) else [];
      var t' := if IsContent(tokens[0]) then VoteLemma(t, lex, tokens[0].lemmaText) else t;
      if IsContent(tokens[0]) {
        VoteLemmaIsTableOf(t, s, lex, tokens[0].lemmaText);
      } else {
        assert s + head == s;
      }
      TallyFromIsTableOf(t', s + head, tokens[1..], lex);
      AppendAssoc(s, head, VoteStream(tokens[1..], lex));
    }
  }

  /** The tally of a message is the vote table of its vote stream. */
  lemma TallyIsTableOf(tokens: seq<Token>, lex: Lexicon)
    ensures IsTableOf(Tally(tokens, lex), VoteStream(tokens, lex))
  {
    assert IsTableOf([], []);
    TallyFromIsTableOf([], [], tokens, lex);
    assert [] + VoteStream(tokens, lex) == VoteStream(tokens, lex);
  }

  // ----- Vote counts per emotion -----

  lemma {:induction false} LemmaVotesFromLexicon(lex: Lexicon, word: string, e: string)
    requires e !in Emotions(lex)
    ensures Count(LemmaVotes(lex, word), e) == 0
  {
    if |lex| > 0 {
      assert Emotions(lex) == [lex[0].emotion] + Emotions(lex[1..]);
      var head := if word in lex[0].lemmas then [lex[0].emotion] else [];
      LemmaVotesFromLexicon(lex[1..], word, e);
      CountConcat(head, LemmaVotes(lex[1..], word), e);
      assert Count(head, e) == 0 by {
        if word in lex[0].lemmas {
          assert head == [] + [lex[0].emotion];
        }
      }
    }
  }

  /** A lemma votes once for `e` exactly when it is in the lemma list stored under `e`. */
  lemma {:induction false} CountLemmaVotes(lex: Lexicon, word: string, e: string)
    requires ValidLexicon(lex)
    ensures Count(LemmaVotes(lex, word), e) == if word in LemmasOf(lex, e) then 1 else 0
  {
    if |lex| > 0 {
      assert Emotions(lex) == [lex[0].emotion] + Emotions(lex[1..]);
      assert Emotions(lex[1..]) == Emotions(lex)[1..];
      var head := if word in lex[0].lemmas then [lex[0].emotion] else [];
      CountConcat(head, LemmaVotes(lex[1..], word), e);
      assert head == [] + head;
      if lex[0].emotion == e {
        assert e !in Emotions(lex[1..]);
        LemmaVotesFromLexicon(lex[1..], word, e);
      } else {
        CountLemmaVotes(lex[1..], word, e);
      }
    }
  }

  /** In the vote stream, `e` occurs once per content token whose lemma is in its lemma list. */
  lemma {:induction false} CountVoteStream(tokens: seq<Token>, lex: Lexicon, e: string)
    requires ValidLexicon(lex)
    ensures Count(VoteStream(tokens, lex), e) == VotesFor(tokens, lex, e)
  {
    if |tokens| > 0 {
      var head := if IsContent(tokens[0]) then LemmaVotes(lex, tokens[0].lemmaText) else [];
      CountConcat(head, VoteStream(tokens[1..], lex), e);
      if IsContent(tokens[0]) {
        CountLemmaVotes(lex, tokens[0].lemmaText, e);
      }
      CountVoteStream(tokens[1..], lex, e);
    }
  }

  /** Every vote goes to a key of the lexicon. */
  lemma {:induction false} VoteStreamFromLexicon(tokens: seq<Token>, lex: Lexicon)
    ensures forall i :: 0 <= i < |VoteStream(tokens, lex)| ==> VoteStream(tokens, lex)[i] in Emotions(lex)
  {
    if |tokens| > 0 {
      if IsContent(tokens[0]) {
        LemmaVotesFromKeys(lex, tokens[0].lemmaText);
      }
      VoteStreamFromLexicon(tokens[1..], lex);
    }
  }

  lemma {:induction false} LemmaVotesFromKeys(lex: Lexicon, word: string)
    ensures forall i :: 0 <= i < |LemmaVotes(lex, word)| ==> LemmaVotes(lex, word)[i] in Emotions(lex)
  {
    if |lex| > 0 {
      assert Emotions(lex) == [lex[0].emotion] + Emotions(lex[1..]);
      LemmaVotesFromKeys(lex[1..], word);
    }
  }

  /** The vote stream is empty exactly when no content token's lemma is in any lemma list. */
  lemma {:induction false} VoteStreamEmpty(tokens: seq<Token>, lex: Lexicon)
    ensures VoteStream(tokens, lex) == [] <==>
      forall i, k :: 0 <= i < |tokens| && 0 <= k < |lex| && IsContent(tokens[i]) ==> tokens[i].lemmaText !in lex[k].lemmas
  {
    if |tokens| > 0 {
      VoteStreamEmpty(tokens[1..], lex);
      if IsContent(tokens[0]) {
        LemmaVotesEmpty(lex, tokens[0].lemmaText);
      }
      assert forall i :: 0 < i < |tokens| ==> tokens[i] == tokens[1..][i - 1];
    }
  }

  lemma {:induction false} LemmaVotesEmpty(lex: Lexicon, word: string)
    ensures LemmaVotes(lex, word) == [] <==> forall k :: 0 <= k < |lex| ==> word !in lex[k].lemmas
  {
    if |lex| > 0 {
      LemmaVotesEmpty(lex[1..], word);
      assert forall k :: 0 < k < |lex| ==> lex[k] == lex[1..][k - 1];
    }
  }

  /** In a table without repeated emotions, each row holds the points of its emotion. */
  lemma {:induction false} PointsAt(t: VoteTable, j: nat)
    requires NoDup(Keys(t)) && j < |t|
    ensures Points(t, t[j].emotion) == t[j].points
  {
    if j > 0 {
      assert Keys(t)[0] != Keys(t)[j];
      assert Keys(t[1..]) == Keys(t)[1..];
      PointsAt(t[1..], j - 1);
    }
  }

  /**
    The vote table of a message, stated against the reference descriptions:
    each emotion's points are the number of content tokens whose lemma is in
    its lemma list; the table holds exactly the emotions with a point, once
    each, ordered by the position of their first vote in the vote stream.
   */
  lemma TallyCounts(tokens: seq<Token>, lex: Lexicon)
    requires ValidLexicon(lex)
    ensures forall e :: Points(Tally(tokens, lex), e) == VotesFor(tokens, lex, e)
    ensures forall e :: e in Keys(Tally(tokens, lex)) <==> VotesFor(tokens, lex, e) > 0
    ensures NoDup(Keys(Tally(tokens, lex)))
    ensures InFirstSeenOrder(Keys(Tally(tokens, lex)), VoteStream(tokens, lex))
  {
    var t, s := Tally(tokens, lex), VoteStream(tokens, lex);
    TallyIsTableOf(tokens, lex);
    forall e
      ensures Points(t, e) == VotesFor(tokens, lex, e)
      ensures e in Keys(t) <==> VotesFor(tokens, lex, e) > 0
    {
      CountVoteStream(tokens, lex, e);
      if e in Keys(t) {
        var j :| 0 <= j < |Keys(t)| && Keys(t)[j] == e;
        assert e in s;
      }
      if e in s {
        var j :| 0 <= j < |s| && s[j] == e;
        assert e in Keys(t);
      }
    }
  }

  // ----- Tokens that do not vote -----

  /** The tokens that take part in voting, in order. */
  function ContentTokens(tokens: seq<Token>): (r: seq<Token>)
    ensures forall i :: 0 <= i < |r| ==> IsContent(r[i])
  {
    if |tokens| == 0 then []
    else (if IsContent(tokens[0]) then [tokens[0]] else []) + ContentTokens(tokens[1..])
  }

  lemma {:induction false} ContentTokensConcat(a: seq<Token>, b: seq<Token>)
    ensures ContentTokens(a + b) == ContentTokens(a) + ContentTokens(b)
  {
    if |a| > 0 {
      assert (a + b)[1..] == a[1..] + b;
      ContentTokensConcat(a[1..], b);
    } else {
      assert a + b == b;
    }
  }

  lemma {:induction false} TallyFromContent(t: VoteTable, tokens: seq<Token>, lex: Lexicon)
    ensures TallyFrom(t, ContentTokens(tokens), lex) == TallyFrom(t, tokens, lex)
    decreases |tokens|
  {
    if |tokens| > 0 {
      var rest := ContentTokens(tokens[1..]);
      if IsContent(tokens[0]) {
        var c := [tokens[0]] + rest;
        assert c[0] == tokens[0] && c[1..] == rest;
        TallyFromContent(VoteLemma(t, lex, tokens[0].lemmaText), tokens[1..], lex);
      } else {
        assert ContentTokens(tokens) == rest;
        TallyFromContent(t, tokens[1..], lex);
      }
    }
  }

  /** Stop-words and punctuation never change the vote table: tallying only the content tokens gives the same table. */
  lemma ContentOnlyTally(tokens: seq<Token>, lex: Lexicon)
    ensures Tally(ContentTokens(tokens), lex) == Tally(tokens, lex)
  {
    TallyFromContent([], tokens, lex);
  }

  /** A stop-word or punctuation token inserted anywhere leaves the vote table as it was. */
  lemma NonContentTokenIgnored(before: seq<Token>, token: Token, after: seq<Token>, lex: Lexicon)
    requires !IsContent(token)
    ensures Tally(before + [token] + after, lex) == Tally(before + after, lex)
  {
    ContentTokensConcat(before + [token], after);
    ContentTokensConcat(before, [token]);
    ContentTokensConcat(before, after);
    assert ContentTokens([token]) == [] + ContentTokens([token][1..]);
    assert ContentTokens(before + [token]) == ContentTokens(before);
    ContentOnlyTally(before + [token] + after, lex);
    ContentOnlyTally(before + after, lex);
  }
}
