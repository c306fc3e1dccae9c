# A verified model of the wordle-solver candidate engine

`taraka/wordle-solver` is an interactive helper for a five-letter word-guessing
game. Each round it ranks the remaining candidate words by a letter-frequency
score and shows the best ones. The player then types the word they guessed and
the colours the game showed: `G` Green (right letter, right place), `X` Grey
(letter absent) or `A` Amber (letter present elsewhere). The solver then keeps
only the candidates that agree with that feedback. Everything happens in
`src/main.rs`.

This Dafny project models that file without its console and file I/O:

- `dictionary.dfy` (module `Dictionary`): the word list. It keeps the dictionary
  lines that equal their lower-case form, then keeps the five-character ones.
- `feedback.dfy` (module `Feedback`): the colours, and the decoder from the typed
  feedback line to `[Colours; 5]`. A malformed line is `None`, where the original
  panics.
- `refinement.dfy` (module `Refinement`): `refine_wordlist`. The four constraint
  collections (`must_contain`, `must_not_contain`, `exact`, `not_exact`) are
  derived from one guess and its colours, and the four filters are reproduced in
  their evaluation order. That includes the short-circuits of `all` and `any`,
  and `None` wherever `answers[i]` or `nth(i).unwrap()` would panic. Its partner
  is `Consistent`, a declarative statement of what a word agreeing with the
  feedback is.
- `frequency.dfy` (module `Frequency`): the frequency table. It is built in
  `CountFrequencies` by the same nested loop over a map as the original's fold.
- `cost.dfy` (module `Cost`): `word_cost`, proved equal to an order-free sum over
  the word's distinct letters.
- `ranking.dfy` (module `Ranking`): `get_most_likley`. It fills a map with one
  entry per distinct word, then reads the map in an unspecified order (a `:|`
  choice). It then sorts an array of (word, score) pairs in place by descending
  score and keeps the words.
- `solver.dfy` (module `Solver`): `make_guess`, where the two typed lines are
  parameters, and the chaining of rounds in `main`.
- `text.dfy`, `seqs.dfy`, `wrappers.dfy`: ASCII `trim` and `to_lowercase`,
  subsequences and duplicate-freedom, and `Option`.

## Behaviour of the code worth knowing

- The code keeps no constraint store across rounds. Each round re-derives the
  four collections from one guess and filters the previous round's list.
  `Solver.RefineRoundsKeepConsistent` proves that after any number of rounds the
  list holds exactly the starting words that agree with every round.
- The frequency table counts every occurrence of a letter ("eerie" adds 3 to
  `e`). It does not count the number of words containing the letter.
- There is no "most informative guess" score. There is no top-10 cut in the
  ranking either: `take(10)` only limits what is printed.
- The dictionary test is "equals its lower-case form", so entries such as
  "don't" stay (`Dictionary.WordlistKeepsNonLetters`). The test is not "only
  lower-case letters".
- Letters repeated within one guess get no special treatment. If one position
  shows a letter Grey and another position shows the same letter Green or
  Amber, the round keeps nothing (`Refinement.ConflictingLetterEmptiesList`).
  For example, typing G G X X X for the guess "apple" over the list "apple",
  "angle", "ankle", "apply" leaves nothing (`Refinement.AppleExample`).
- Positions past the end of a word are not treated as failing the filter: the
  original panics, which the model records as `None`.
- The length test of line 21 counts bytes. A lower-case entry of five bytes
  but fewer characters, such as "élan", stays in the word list, and a round can
  then panic on it at line 107 (the guess "shall" with X X A A G reads its
  fifth character). The model counts characters, so `Solver.SessionOutcome`
  is stated for ASCII dictionaries only.

## Model

| member | source | states |
|---|---|---|
| Text.LowercaseFixedPoint | src/main.rs:17 | a line equals its lower-case form exactly when none of its characters is an upper-case letter |
| Text.TrimStart | src/main.rs:57 | the leading-white-space trim returns a suffix of the line; everything it drops is white space, and what it keeps does not start with white space |
| Text.TrimEnd | src/main.rs:57 | the trailing-white-space trim returns a prefix of the line; everything it drops is white space, and what it keeps does not end with white space |
| Text.TrimIsSlice | src/main.rs:48 | `trim` returns the contiguous slice between the leading and the trailing white space, and that slice neither starts nor ends with white space |
| Text.TrimUntouched | src/main.rs:57 | a line with no white space at either end is its own trim |
| Feedback.Symbol | src/main.rs:59-62 | each colour's prompt symbol decodes back to that colour and is not white space |
| Feedback.DecodeSymbols | src/main.rs:58-65 | decoding the characters succeeds exactly when every character is G, X or A, and then gives one colour per character, each the decoding of that character |
| Feedback.Decode | src/main.rs:48-67 | the feedback line is accepted exactly when its trimmed form has five characters, all of them G, X or A; colour i is the decoding of trimmed character i, and any other line is a failure |
| Feedback.DecodeEncode | src/main.rs:56-67 | typing the symbols of any five colours decodes back to those colours |
| Feedback.EncodeDecode | src/main.rs:48-67 | a line that is accepted is, once trimmed, exactly the symbols of the colours it decodes to |
| Dictionary.WordlistStep | src/main.rs:17-23 | the lower-case filter followed by the length filter keeps a line exactly when it is five characters long with no upper-case letter |
| Dictionary.WordlistIsFilter | src/main.rs:14-23 | the word list is a subsequence of the dictionary lines and holds exactly the lines that are five characters long with no upper-case letter |
| Dictionary.WordlistWordsAreFiveLong | src/main.rs:21 | every word of the list has exactly five characters |
| Dictionary.WordlistKeepsNonLetters | src/main.rs:17 | "don't" is kept while "Paris" and "apples" are dropped |
| Refinement.Positions | src/main.rs:91-102 | the `exact` and `not_exact` lists hold exactly the positions of the given colour, each with the guess's letter there |
| Refinement.AllExact | src/main.rs:107 | the Green filter accepts exactly when every listed position exists in the word and holds the listed letter; it panics only if some listed position is past the end, and never when all positions exist |
| Refinement.AnyNotExact | src/main.rs:108 | the Amber filter finds no hit exactly when every listed position exists and holds another letter; it panics only if some listed position is past the end, and never when all positions exist |
| Refinement.VerdictIsConsistent | src/main.rs:79-108 | a word passes all four filters exactly when it agrees with the feedback; a word at least as long as the guess never makes the filters panic |
| Refinement.KeepAllIsCandidates | src/main.rs:103-110 | filtering the list panics exactly when some word panics a filter; otherwise it returns exactly the consistent words in list order |
| Refinement.RefineWordlistIsCandidates | src/main.rs:74-111 | `refine_wordlist` panics exactly when the guess is longer than five characters or some word panics a filter; otherwise it returns the consistent words in list order |
| Refinement.CandidatesFilter | src/main.rs:103-110 | the consistent words form a subsequence of the list, and a word is among them exactly when it is in the list and agrees with the feedback |
| Refinement.CandidatesIdempotent | src/main.rs:103-110 | filtering the consistent words again leaves them unchanged |
| Refinement.NothingConsistentNoCandidates | src/main.rs:103-110 | when no word of the list agrees with the feedback, the filter keeps nothing |
| Refinement.RefineWordlistKeepsConsistent | src/main.rs:74-111 | a round that returns keeps a subsequence of its input, no longer than it, holding exactly the input words that agree with the feedback; its guess has at most five characters |
| Refinement.RefineWordlistTotal | src/main.rs:107-108 | no panic when the guess has at most five characters and no word is shorter than the guess |
| Refinement.RefineWordlistIdempotent | src/main.rs:103-110 | refining the returned list again with the same guess and colours returns it unchanged |
| Refinement.ConflictingLetterEmptiesList | src/main.rs:79-106 | when one letter is Grey at one position and Green or Amber at another, the round keeps nothing |
| Refinement.AllGreenKeepsOnlyGuess | src/main.rs:91-107 | all-Green feedback on a five-letter guess over five-letter words keeps exactly the copies of the guess |
| Refinement.AppleExample | src/main.rs:74-111 | "apple" with Green, Green, Grey, Grey, Grey keeps nothing of "apple", "angle", "ankle", "apply" |
| Frequency.Frequencies | src/main.rs:29-34 | the frequency table has a key for every character of every word of the list |
| Frequency.CountIsMultiplicity | src/main.rs:30-32 | the count of a letter in a word is its multiplicity in the word: every repetition counts |
| Frequency.OccurrencesIsMultiplicity | src/main.rs:29-34 | the total count of a letter across the list is its multiplicity in all the words taken together |
| Frequency.FrequenciesAreMultiplicities | src/main.rs:29-34 | the table's keys are exactly the characters that occur, and each maps to its total number of occurrences |
| Frequency.CountFrequencies | src/main.rs:29-34 | the loop's map has a key exactly for each character that occurs, and the key's value is its total occurrences across all words |
| Cost.SumOverRemove | src/main.rs:125-128 | the sum over a set of letters can take out any letter first, so the fold over the set does not depend on its order |
| Cost.WordCostIsSumOverLetters | src/main.rs:124-129 | `word_cost` is the sum of the frequencies of the word's distinct letters |
| Cost.SameLettersSameCost | src/main.rs:124-129 | two words with the same set of letters have the same cost, however the letters repeat or are ordered |
| Ranking.ScoreWords | src/main.rs:114-117 | the score map has exactly one key per distinct word, and each key maps to that word's cost |
| Ranking.CollectPairs | src/main.rs:119 | the pairs hold each key of the map once, each with the key's score |
| Ranking.SortByScore | src/main.rs:120 | the sort leaves the pairs in non-increasing score order and as a permutation of the input |
| Ranking.ReorderedPairsKeepWords | src/main.rs:119-121 | a permutation of the pairs has the same words, still each once, with the same scores |
| Ranking.GetMostLikely | src/main.rs:113-122 | the ranking holds each distinct word of the list exactly once, in non-increasing cost order |
| Solver.MakeGuess | src/main.rs:28-72 | each distinct word of the list is shown once, ranked by the list's own frequencies; a malformed feedback line is a panic, and otherwise the next list is the refinement by the trimmed guess, a subsequence of the current list |
| Solver.RefineRoundsKeepConsistent | src/main.rs:25 | after any number of chained rounds the list is a subsequence of the starting list, holding exactly the words that agree with every round |
| Solver.RefineRoundsTotal | src/main.rs:25 | starting from five-letter words, chained rounds never panic while every guess has at most five characters |
| Solver.SessionOutcome | src/main.rs:12-25 | starting from an ASCII dictionary's word list, rounds whose feedback decodes never panic while each guess has at most five characters, and they leave exactly the five-character lines with no upper-case letter that agree with every round |

## Left out

- Reading `/usr/share/dict/words` (lines 13-16): the dictionary lines are a parameter.
- Reading the guess and the feedback from stdin (lines 40-46): they are parameters of `Solver.MakeGuess`.
- All `println!` output, including the `take(10)` that limits the printed suggestions (lines 38, 44, 70): the model returns the whole ranking.
- Panic messages: a panic is the result `None`, or, for `word_cost`'s `unwrap`, a precondition that every letter of the word is a key of the table. `Solver.MakeGuess` always meets that precondition.
- The five rounds hard-coded in `main` (line 25): `Solver.RefineRounds` chains any number of rounds. The suggestions of the chained rounds are only printed, so they are not part of it.
- The order of words with equal cost in `Ranking.GetMostLikely`: it comes from `HashMap` iteration order. The model chooses it nondeterministically and specifies only the non-increasing cost order.
- Unicode: `trim` covers only ASCII white space (space and tab through carriage return), and `to_lowercase` covers only 'A'-'Z'. String lengths count characters, which matches Rust's byte length only for ASCII.
- Frequency.CountFrequencies: does not model the `u32` width of the counters. Counts are unbounded naturals, and an overflow would need more than 4,294,967,295 occurrences of one letter.
- Cost.WordCostIsSumOverLetters: does not model the `u32` width of the sum, for the same reason.
- `Colours` derives `Debug` and `PartialEq` (line 5): these only serve printing and comparison, and the model uses Dafny's own equality.
