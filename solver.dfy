/**
 * The rounds of the solver (src/main.rs lines 25 and 28-72) with the console
 * taken out: the two lines the player types each round are parameters, the
 * suggestions the original prints are returned.
 */
module Solver {
  import opened Wrappers
  import opened Seqs
  import opened Text
  import opened Feedback
  import opened Frequency
  import opened Cost
  import opened Ranking
  import opened Refinement
  import opened Dictionary

  /**
   * `make_guess`: rank the list by the costs its own frequency table gives,
   * then refine it with the trimmed guess and the decoded feedback line.
   * `next` is `None` where the original panics.
   */
  method MakeGuess(words: seq<string>, guessLine: string, feedbackLine: string)
    returns (suggestions: seq<string>, next: Option<seq<string>>)
    ensures forall w :: w in suggestions <==> w in words
    ensures NoDuplicates(suggestions)
    ensures forall p, q :: 0 <= p < q < |suggestions| ==>
      WordCost(suggestions[p], Frequencies(words)) >= WordCost(suggestions[q], Frequencies(words))
    ensures Decode(feedbackLine).None? ==> next.None?
    ensures Decode(feedbackLine).Some? ==> next == RefineWordlist(Trim(guessLine), Decode(feedbackLine).value, words)
    ensures next.Some? ==> IsSubsequence(next.value, words)
  {
    var frequencies := CountFrequencies(words);
    suggestions := GetMostLikely(words, frequencies);
    match Decode(feedbackLine)
    case None =>
      next := None;
    case Some(code) =>
      next := RefineWordlist(Trim(guessLine), code, words);
      if next.Some? {
        RefineWordlistKeepsConsistent(Trim(guessLine), code, words, next.value);
      }
  }

  /** One round as the refinement sees it: the trimmed guess and its decoded colours. */
  type Turn = (string, Code)

  /**
   * Line 25: each round refines the list the previous round returned. The
   * suggestions of each round are only printed, so they are left out here.
   */
  function RefineRounds(words: seq<string>, turns: seq<Turn>): Option<seq<string>>
    decreases |turns|
  {
    if turns == [] then Some(words)
    else
      match RefineWordlist(turns[0].0, turns[0].1, words)
      case None => None
      case Some(next) => RefineRounds(next, turns[1..])
  }

  /** `w` agrees with the feedback of every round so far. */
  predicate ConsistentWithAll(w: string, turns: seq<Turn>) {
    forall k :: 0 <= k < |turns| ==> |turns[k].0| <= 5 && Consistent(w, turns[k].0, turns[k].1)
  }

  /**
   * After any number of rounds the list is an order-preserving selection of
   * the starting list holding exactly the words that agree with every round:
   * re-filtering round by round is the same as accumulating all constraints.
   */
  lemma {:induction false} RefineRoundsKeepConsistent(words: seq<string>, turns: seq<Turn>, kept: seq<string>)
    requires RefineRounds(words, turns) == Some(kept)
    ensures IsSubsequence(kept, words)
    ensures forall w :: w in kept <==> w in words && ConsistentWithAll(w, turns)
    decreases |turns|
  {
    if turns == [] {
      SubsequenceReflexive(words);
    } else {
      var next := RefineWordlist(turns[0].0, turns[0].1, words).value;
      RefineWordlistKeepsConsistent(turns[0].0, turns[0].1, words, next);
      RefineRoundsKeepConsistent(next, turns[1..], kept);
      SubsequenceTransitive(kept, next, words);
      forall w ensures ConsistentWithAll(w, turns)
        <==> |turns[0].0| <= 5 && Consistent(w, turns[0].0, turns[0].1) && ConsistentWithAll(w, turns[1..])
      {
        if ConsistentWithAll(w, turns[1..]) && |turns[0].0| <= 5 && Consistent(w, turns[0].0, turns[0].1) {
          forall k | 0 <= k < |turns| ensures |turns[k].0| <= 5 && Consistent(w, turns[k].0, turns[k].1) {
            if k > 0 {
              assert turns[k] == turns[1..][k - 1];
            }
          }
        }
        if ConsistentWithAll(w, turns) {
          forall k | 0 <= k < |turns[1..]| ensures |turns[1..][k].0| <= 5 && Consistent(w, turns[1..][k].0, turns[1..][k].1) {
            assert turns[1..][k] == turns[k + 1];
          }
        }
      }
    }
  }

  /**
   * Starting from five-letter words, the rounds never panic as long as every
   * guess has at most five characters.
   */
  lemma {:induction false} RefineRoundsTotal(words: seq<string>, turns: seq<Turn>)
    requires forall w :: w in words ==> |w| == 5
    requires forall k :: 0 <= k < |turns| ==> |turns[k].0| <= 5
    ensures RefineRounds(words, turns).Some?
    decreases |turns|
  {
    if turns != [] {
      RefineWordlistTotal(turns[0].0, turns[0].1, words);
      var next := RefineWordlist(turns[0].0, turns[0].1, words).value;
      RefineWordlistKeepsConsistent(turns[0].0, turns[0].1, words, next);
      forall k | 0 <= k < |turns[1..]| ensures |turns[1..][k].0| <= 5 {
        assert turns[1..][k] == turns[k + 1];
      }
      RefineRoundsTotal(next, turns[1..]);
    }
  }

  /**
   * Lines 12-25: starting from an ASCII dictionary, the word list never makes a
   * round panic as long as every guess has at most five characters and every
   * feedback line decoded (a turn holds the decoded colours), and what is left
   * after the rounds is exactly the dictionary words that agree with all of
   * them. Line 21 counts bytes, so for non-ASCII lines the word list is not
   * `Wordlist(lines)`.
   */
  lemma SessionOutcome(lines: seq<string>, turns: seq<Turn>)
    requires forall l, i :: l in lines && 0 <= i < |l| ==> l[i] as int < 128
    requires forall k :: 0 <= k < |turns| ==> |turns[k].0| <= 5
    ensures RefineRounds(Wordlist(lines), turns).Some?
    ensures var kept := RefineRounds(Wordlist(lines), turns).value;
      forall w :: w in kept <==> w in lines && IsWordlistWord(w) && ConsistentWithAll(w, turns)
  {
    WordlistIsFilter(lines);
    RefineRoundsTotal(Wordlist(lines), turns);
    RefineRoundsKeepConsistent(Wordlist(lines), turns, RefineRounds(Wordlist(lines), turns).value);
  }
}
