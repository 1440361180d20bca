# Emotion classifier of anime-reactions, in Dafny

anime-reactions is a command-line script. It reads a message, or the local
timeline of a Mastodon instance. It detects an emotion in the text and fetches
a reaction for that emotion from a remote catalogue. Its own decision logic is
the emotion classifier in `main.py`, and this project models that classifier:

- **Lemma voting** (`get_emotion_from_message`). Every token that is neither a
  stop-word nor punctuation gives one point to each lexicon emotion whose lemma
  list holds the token's lemma. Points go into an insertion-ordered table.
  - The result is "no emotion" when the table is empty.
  - Otherwise it is the first row with the most points, the choice Python's
    `max` makes.
- **Sentiment thresholding** (`get_leia_sentiment`). A compound polarity score
  of at least 0.05 is Positive. Otherwise a score of at most -0.05 is Negative.
  Anything else is Neutral.
- **Sentiment gating** (`get_sentiment_subset`). A fixed partition table maps a
  sentiment label to a set of emotions. The lexicon is then restricted to the
  keys in that set.
  - The restricted lexicon is built by iterating over a set intersection, so
    its key order is not defined.
  - `IsGatingOf` therefore admits every order. The properties that matter are
    proved for all orders.
- **Lexicon builder** (the `--create-emotion-lemmas` branch of `main`). For
  each emotion, the lemmas of its seed words are collected. Stop-words are
  skipped, and each lemma is kept once, where it was first seen.
- **Timeline cache freshness**. A cached timeline is reused only when it exists
  and is less than 300 seconds old.

The external libraries are inputs to the model:

- spaCy's tokenizer and lemmatizer become a sequence of `Token(lemmaText,
  isStop, isPunct)` records.
- A seed word becomes the token sequence spaCy would produce for it.
- LeIA's polarity score becomes a `real` compound score.
- The clock and the file's modification time are `real` parameters.

A JSON object `emotion -> list of lemmas` is modelled as a sequence of
`Entry(emotion, lemmas)` in key order. `ValidLexicon` states its keys are
distinct, as they are in a Python dict.

Two reference descriptions specify the vote table:

- `VoteStream`: every vote in the order it is cast, token by token, and within
  one token in the lexicon's key order.
- `VotesFor`: for each emotion, the number of content tokens whose lemma is in
  its lemma list.

The tally, `Votes.Tally`, is proved to be the table of the vote stream:

- Its emotions are the distinct emotions of the stream, in order of first vote.
- Each emotion's points are its number of votes in the stream, and that number
  equals `VotesFor`.

Modules: `Seqs` (counts, first occurrences, first-seen deduplication),
`Lexicon`, `LexiconBuilder`, `Votes`, `Classifier`, `Sentiment` and
`TimelineCache`.

Details of main.py the model follows:

- On a tie, the code picks the emotion that entered the vote table first,
  which is the emotion voted for first. It does not pick the emotion listed
  first in the lexicon. `Classifier.TieExample` shows a case where the two
  differ.
- The builder skips stop-words only, not punctuation (main.py:204).
- Voting skips both stop-words and punctuation (main.py:110).
- `get_sentiment_subset` compares strings. Every label other than `"Positive"`
  and `"Negative"` selects the neutral set, so `Partition` takes a string.

## Model

| member | source | states |
|---|---|---|
| Votes.Bump | main.py:118 | One more point for the emotion. An emotion already in the table keeps its place. A new one is appended with one point. No other emotion's points change. |
| Votes.TallyIsTableOf | main.py:109-118 | The vote table `Votes.Tally` builds with the two nested loops holds each emotion of the vote stream once, in order of first vote. Each emotion has as many points as it has votes in the stream. |
| Votes.TallyCounts | main.py:109-118 | For a lexicon with distinct keys, each emotion's points in `Votes.Tally` are the number of non-stop, non-punctuation tokens whose lemma is in its lemma list. A token can vote for several emotions. The table holds exactly the emotions with a vote, without repeats, ordered by first vote. |
| Votes.CountLemmaVotes | main.py:114-118 | One lemma votes for an emotion once if its lemma list holds the lemma, and otherwise not at all. |
| Votes.CountVoteStream | main.py:109-118 | An emotion's number of votes in the stream equals its number of matching content tokens. |
| Votes.VoteStreamFromLexicon | main.py:114-118 | Every vote goes to a key of the lexicon. |
| Votes.VoteStreamEmpty | main.py:109-118 | No vote is cast exactly when no content token's lemma is in any lemma list. |
| Votes.ContentOnlyTally | main.py:110-111 | Tallying only the content tokens gives the same table, so stop-words and punctuation never change it. |
| Votes.NonContentTokenIgnored | main.py:110-111 | A stop-word or punctuation token inserted anywhere in a message leaves the vote table unchanged. |
| Classifier.FirstMaxIndex | main.py:130 | The selected row has the most points, and every earlier row has strictly fewer points. This is the first maximal row. |
| Classifier.Classify | main.py:127-130 | A detected emotion is always a key of the lexicon passed in. |
| Classifier.NoneIffNoMatch | main.py:127-128 | No emotion is detected exactly when no content token's lemma is in any lemma list. |
| Classifier.NoneIffNoVotes | main.py:127-128 | For a lexicon with distinct keys, no emotion is detected exactly when every emotion deserves zero votes. |
| Classifier.WinnerIsFirstMaximal | main.py:129-130 | The detected emotion is a key with at least one vote. No emotion has more votes. Any other emotion with as many votes had its first vote cast later. |
| Classifier.WinnerIsFirstInTable | main.py:130 | Within the vote table, every row before the winner's has fewer points, and no row has more. |
| Classifier.HappyExample | main.py:93-130 | Example: with `happy -> [feliz]` and `sad -> [triste]`, a message whose content lemmas are `feliz` and `hoje` is happy. |
| Classifier.TieExample | main.py:130 | Example: on a one-to-one tie the emotion voted for first wins, even though the other is listed first in the lexicon. |
| Sentiment.FromCompound | main.py:71-75 | The score is Positive exactly when it is at least 0.05, Negative exactly when it is at most -0.05, and Neutral exactly when it lies strictly between. Exactly one case applies. |
| Sentiment.FromCompoundMonotonic | main.py:71-75 | A higher score never gives a lower polarity (Negative, then Neutral, then Positive). |
| Sentiment.FromCompoundExamples | main.py:71-75 | Scores 0.6, -0.2 and 0.0 give Positive, Negative and Neutral. The bounds 0.05 and -0.05 belong to Positive and Negative. |
| Sentiment.PartitionTable | main.py:80-85 | `Sentiment.Partition` maps each polarity's label to its own set, and any other string to the neutral set: {yes, happy, surprised, smug}, {angry, sad, embarrassed, no} and {nervous, confused, thinking}. Any two labels select equal or disjoint sets. The three sets cover eleven emotions. |
| Sentiment.Gate | main.py:87-89 | Every entry kept is an entry of the lexicon whose key is in the partition. |
| Sentiment.GateEmotions | main.py:87-88 | The keys kept are exactly the lexicon's keys that are in the partition. For a lexicon with distinct keys, the kept keys are distinct too. |
| Sentiment.GateIsGating | main.py:87-89 | Keeping the entries of the partition is a restriction: the right keys, each with its original lemma list. |
| Sentiment.GatedLemmasOf | main.py:87-89 | In any restriction, an emotion of the partition has its original lemma list, and any other emotion has none. |
| Sentiment.GatedVotes | main.py:87-89 | In any restriction, an emotion of the partition keeps its votes, and any other emotion gets none. |
| Sentiment.GatedWinnerInPartition | main.py:80-89 | Classification against any restriction never detects an emotion outside the partition or outside the lexicon. |
| Sentiment.GatingOrderDecidesTie | main.py:87-89 | Example: one token votes for both `happy` and `yes`. The two orders of the same restriction are both valid restrictions, and each detects a different emotion. |
| Sentiment.GatingOrderIrrelevant | main.py:87-89 | The order of the restriction changes neither the points per emotion, nor whether an emotion is detected, nor the winner's number of votes. |
| Sentiment.DetectEmotion | main.py:181-185 | The `--message` pipeline (score, restrict, classify) detects only an emotion that is in the partition of the message's polarity and is a key of the full lexicon. |
| LexiconBuilder.BuildLemmas | main.py:201-207 | One emotion's lemma list has no duplicates. It holds exactly the non-stop lemmas of its seed words, ordered by first occurrence. |
| LexiconBuilder.BuildLexicon | main.py:198-207 | The lexicon has one entry per seed key, in the seed's key order, and each entry's lemma list meets the contract of `BuildLemmas`. |
| LexiconBuilder.BuildIsDeterministic | main.py:199-207 | That contract determines the lemma list, so rebuilding from the same seed words gives the same list. |
| LexiconBuilder.BuildIsIdempotent | main.py:199-207 | A built lemma list is its own first-seen deduplication: entered again as seed words, one non-stop token per lemma with the lemma itself as its lemma, it deduplicates to the same list. The lemmatizer is assumed to analyse each lemma that way. |
| TimelineCache.TimelineSource | main.py:27-31 | When a cached copy exists, it is used exactly when `now - modified < 300`. Without a copy, the timeline is always fetched. |
| TimelineCache.StaleFromMaxAge | main.py:28 | A copy 300 or more seconds old is refetched. The bound is strict. |
| TimelineCache.StalenessPersists | main.py:28 | Once a copy is stale, it stays stale as time passes. |
| TimelineCache.TimelineSourceExamples | main.py:27-31 | A copy 60 seconds old is reused. Copies 300 and 400 seconds old are refetched, and so is a missing copy. |

## Left out

- HTTP calls are network I/O and are not modelled: `list_categories`, `get_random_reaction_from_category`, and the timeline request with its configuration check (main.py:19-25, 32-44, 47-63).
- Reading and writing `toots.json`, `emotion_lemmas.json` and `emotions_dir.json` is file I/O and is not modelled. Neither are `os.path.exists`, `os.path.getmtime` and `time.time`; their results are parameters of `TimelineCache.TimelineSource`.
- Loading spaCy, tokenizing and lemmatizing are done by an external library. Tokens with their lemma and flags are inputs.
- LeIA's `SentimentIntensityAnalyzer` is an external library. Only the thresholding of its compound score is modelled. Float comparisons against 0.05 and -0.05 are modelled on `real`.
- Presentation and CLI plumbing are not modelled:
  - the `rich` tables (main.py:101-107, 112, 119-125, 212-240);
  - `print` and the category-list formatting (main.py:177);
  - the BeautifulSoup HTML stripping of toots;
  - `argparse`, and `sys.exit` with its exit codes;
  - the `--spacy` and `--leia` inspection branches.
- The `--toots` loop (main.py:246-256) applies `get_leia_sentiment` to each toot and prints the result. Only the thresholding it uses is modelled.
- Python's set iteration order in `get_sentiment_subset` is not modelled. String hashing is randomised per process, so that order can change from one run to the next. The restricted lexicon may be in any key order (`Sentiment.IsGatingOf`). `Sentiment.Gate` and `Sentiment.DetectEmotion` fix one order, the lexicon's own. On a tie the order decides the winner (`Sentiment.GatingOrderDecidesTie`), so a `--message` run may detect a different one of the tied emotions each time.
- transfs.py is not part of this model. It only calls a pretrained tokenizer and prints the result.
- Sentiment.GateIsGating: assumes the lexicon has distinct keys (`ValidLexicon`). A JSON object loaded into a Python dict always has distinct keys.
- Classifier.WinnerIsFirstMaximal: assumes the lexicon has distinct keys, as a Python dict always does. `Classifier.Classify` and `Classifier.NoneIffNoMatch` hold for any lexicon.
