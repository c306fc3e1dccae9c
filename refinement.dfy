/**
 * One round of candidate filtering, `refine_wordlist` (src/main.rs lines 74-111).
 * The guess and its colour code give four constraint collections; the words of
 * the previous list that meet all four are kept, in order. A panic of the
 * original (`answers[i]` past the fifth position, `nth(i).unwrap()` past the
 * end of a word) is the result `None`.
 */
module Refinement {
  import opened Wrappers
  import opened Seqs
  import opened Feedback

  /** The four collections the guess and its colours give. */
  datatype Constraints = Constraints(
    mustContain: set<char>,
    mustNotContain: set<char>,
    exact: seq<(nat, char)>,
    notExact: seq<(nat, char)>)

  /** Lines 79-84: the letters shown at a non-Grey position. */
  function MustContain(guess: string, code: Code): set<char>
    requires |guess| <= 5
  {
    set i | 0 <= i < |guess| && code[i] != Grey :: guess[i]
  }

  /** Lines 85-90: the letters shown at a Grey position. */
  function MustNotContain(guess: string, code: Code): set<char>
    requires |guess| <= 5
  {
    set i | 0 <= i < |guess| && code[i] == Grey :: guess[i]
  }

  /**
   * Lines 91-102: the positions of the guess that have colour `colour`, with
   * their letters, in increasing position order.
   */
  function Positions(guess: string, code: Code, colour: Colour): (r: seq<(nat, char)>)
    requires |guess| <= 5
    ensures forall k :: 0 <= k < |r| ==> r[k].0 < |guess| && code[r[k].0] == colour && guess[r[k].0] == r[k].1
    ensures forall i :: 0 <= i < |guess| && code[i] == colour ==> (i, guess[i]) in r
    decreases |guess|
  {
    if guess == [] then []
    else
      var n := |guess| - 1;
      Positions(guess[..n], code, colour) + (if code[n] == colour then [(n, guess[n])] else [])
  }

  function Derive(guess: string, code: Code): Constraints
    requires |guess| <= 5
  {
    Constraints(MustContain(guess, code), MustNotContain(guess, code),
                Positions(guess, code, Green), Positions(guess, code, Amber))
  }

  /**
   * Line 107: every Green position of the word holds the guess's letter there.
   * Stops at the first mismatch; a position past the end of `w` panics (`None`).
   */
  function AllExact(w: string, exact: seq<(nat, char)>): (r: Option<bool>)
    ensures r == Some(true) <==> forall k :: 0 <= k < |exact| ==> exact[k].0 < |w| && w[exact[k].0] == exact[k].1
    ensures r == None ==> exists k :: 0 <= k < |exact| && exact[k].0 >= |w|
    ensures (forall k :: 0 <= k < |exact| ==> exact[k].0 < |w|) ==> r.Some?
  {
    if exact == [] then Some(true)
    else if exact[0].0 >= |w| then None
    else if w[exact[0].0] != exact[0].1 then Some(false)
    else AllExact(w, exact[1..])
  }

  /**
   * Line 108: some Amber position of the word holds the guess's letter there.
   * Stops at the first match; a position past the end of `w` panics (`None`).
   */
  function AnyNotExact(w: string, notExact: seq<(nat, char)>): (r: Option<bool>)
    ensures r == Some(false) <==> forall k :: 0 <= k < |notExact| ==> notExact[k].0 < |w| && w[notExact[k].0] != notExact[k].1
    ensures r == None ==> exists k :: 0 <= k < |notExact| && notExact[k].0 >= |w|
    ensures (forall k :: 0 <= k < |notExact| ==> notExact[k].0 < |w|) ==> r.Some?
  {
    if notExact == [] then Some(false)
    else if notExact[0].0 >= |w| then None
    else if w[notExact[0].0] == notExact[0].1 then Some(true)
    else AnyNotExact(w, notExact[1..])
  }

  /**
   * Lines 105-108 for one word: the four filters in their order, each reached
   * only when the previous one kept the word.
   */
  function Verdict(w: string, k: Constraints): Option<bool> {
    if !(forall c :: c in k.mustContain ==> c in w) then Some(false)
    else if exists c :: c in k.mustNotContain && c in w then Some(false)
    else
      match AllExact(w, k.exact)
      case None => None
      case Some(false) => Some(false)
      case Some(true) =>
        match AnyNotExact(w, k.notExact)
        case None => None
        case Some(hit) => Some(!hit)
  }

  /** Lines 103-110: the words the filters keep, in order; `None` if any word panics. */
  function KeepAll(words: seq<string>, k: Constraints): Option<seq<string>> {
    if words == [] then Some([])
    else
      match Verdict(words[0], k)
      case None => None
      case Some(keep) =>
        match KeepAll(words[1..], k)
        case None => None
        case Some(rest) => Some(if keep then [words[0]] + rest else rest)
  }

  /**
   * `refine_wordlist`. A guess longer than five characters indexes
   * `answers` out of bounds while the collections are built.
   */
  function RefineWordlist(guess: string, code: Code, words: seq<string>): Option<seq<string>> {
    if |guess| > 5 then None else KeepAll(words, Derive(guess, code))
  }

  // ---------------------------------------------------------------------
  // The reference definition: what a word consistent with the feedback is.

  /**
   * `w` agrees with the feedback on `guess`: it holds every letter shown at a
   * Green or Amber position and no letter shown at a Grey one; it has the
   * guess's letter at every Green position and another letter at every Amber one.
   */
  predicate Consistent(w: string, guess: string, code: Code)
    requires |guess| <= 5
  {
    && (forall i :: 0 <= i < |guess| && code[i] != Grey ==> guess[i] in w)
    && (forall i :: 0 <= i < |guess| && code[i] == Grey ==> guess[i] !in w)
    && (forall i :: 0 <= i < |guess| && code[i] == Green ==> i < |w| && w[i] == guess[i])
    && (forall i :: 0 <= i < |guess| && code[i] == Amber ==> i < |w| && w[i] != guess[i])
  }

  /** The words of the list consistent with the feedback, in list order. */
  function Candidates(words: seq<string>, guess: string, code: Code): seq<string>
    requires |guess| <= 5
  {
    if words == [] then []
    else (if Consistent(words[0], guess, code) then [words[0]] else []) + Candidates(words[1..], guess, code)
  }

  /**
   * A word passes the four filters exactly when it is consistent with the
   * feedback, and a word at least as long as the guess never panics them.
   */
  lemma VerdictIsConsistent(w: string, guess: string, code: Code)
    requires |guess| <= 5
    ensures Verdict(w, Derive(guess, code)) == Some(true) <==> Consistent(w, guess, code)
    ensures |guess| <= |w| ==> Verdict(w, Derive(guess, code)).Some?
  {
  }

  // ---------------------------------------------------------------------
  // What `refine_wordlist` computes.

  lemma {:induction false} KeepAllIsCandidates(words: seq<string>, guess: string, code: Code)
    requires |guess| <= 5
    ensures var k := Derive(guess, code);
      KeepAll(words, k).None? <==> exists i :: 0 <= i < |words| && Verdict(words[i], k).None?
    ensures KeepAll(words, Derive(guess, code)).Some? ==> KeepAll(words, Derive(guess, code)).value == Candidates(words, guess, code)
    decreases |words|
  {
    if words != [] {
      var k := Derive(guess, code);
      KeepAllIsCandidates(words[1..], guess, code);
      VerdictIsConsistent(words[0], guess, code);
      if exists i :: 0 <= i < |words[1..]| && Verdict(words[1..][i], k).None? {
        var i :| 0 <= i < |words[1..]| && Verdict(words[1..][i], k).None?;
        assert Verdict(words[i + 1], k).None?;
      }
      if exists i :: 0 <= i < |words| && Verdict(words[i], k).None? {
        var i :| 0 <= i < |words| && Verdict(words[i], k).None?;
        if i > 0 {
          assert Verdict(words[1..][i - 1], k).None?;
        }
      }
    }
  }

  /**
   * `refine_wordlist` panics exactly when the guess is longer than five
   * characters or some word panics the positional filters; otherwise it
   * returns the words consistent with the feedback, in list order.
   */
  lemma RefineWordlistIsCandidates(guess: string, code: Code, words: seq<string>)
    ensures RefineWordlist(guess, code, words).None?
        <==> |guess| > 5 || exists i :: 0 <= i < |words| && Verdict(words[i], Derive(guess, code)).None?
    ensures RefineWordlist(guess, code, words).Some?
        ==> |guess| <= 5 && RefineWordlist(guess, code, words).value == Candidates(words, guess, code)
  {
    if |guess| <= 5 {
      KeepAllIsCandidates(words, guess, code);
    }
  }

  /** The candidates are a subsequence of the list and hold exactly its consistent words. */
  lemma {:induction false} CandidatesFilter(words: seq<string>, guess: string, code: Code)
    requires |guess| <= 5
    ensures IsSubsequence(Candidates(words, guess, code), words)
    ensures forall w :: w in Candidates(words, guess, code) <==> w in words && Consistent(w, guess, code)
    decreases |words|
  {
    if words != [] {
      CandidatesFilter(words[1..], guess, code);
      var rest := Candidates(words[1..], guess, code);
      var r := Candidates(words, guess, code);
      assert words == [words[0]] + words[1..];
      if Consistent(words[0], guess, code) {
        assert r[0] == words[0] && r[1..] == rest;
      } else {
        assert r == rest;
      }
    }
  }

  lemma {:induction false} CandidatesIdempotent(words: seq<string>, guess: string, code: Code)
    requires |guess| <= 5
    ensures Candidates(Candidates(words, guess, code), guess, code) == Candidates(words, guess, code)
    decreases |words|
  {
    if words != [] {
      CandidatesIdempotent(words[1..], guess, code);
      var rest := Candidates(words[1..], guess, code);
      if Consistent(words[0], guess, code) {
        var r := [words[0]] + rest;
        assert r[0] == words[0] && r[1..] == rest;
        assert Candidates(words, guess, code) == r;
        assert Candidates(r, guess, code) == [words[0]] + Candidates(rest, guess, code);
      } else {
        assert Candidates(words, guess, code) == rest;
      }
    }
  }

  /**
   * What a round keeps: an order-preserving selection of the previous list
   * holding exactly the words consistent with the feedback.
   */
  lemma RefineWordlistKeepsConsistent(guess: string, code: Code, words: seq<string>, kept: seq<string>)
    requires RefineWordlist(guess, code, words) == Some(kept)
    ensures |guess| <= 5
    ensures IsSubsequence(kept, words)
    ensures |kept| <= |words|
    ensures forall w :: w in kept <==> w in words && Consistent(w, guess, code)
  {
    RefineWordlistIsCandidates(guess, code, words);
    CandidatesFilter(words, guess, code);
    SubsequenceMembers(kept, words);
  }

  /** No panic when the guess has at most five characters and no word is shorter than it. */
  lemma RefineWordlistTotal(guess: string, code: Code, words: seq<string>)
    requires |guess| <= 5
    requires forall w :: w in words ==> |guess| <= |w|
    ensures RefineWordlist(guess, code, words).Some?
  {
    RefineWordlistIsCandidates(guess, code, words);
    forall i | 0 <= i < |words| ensures Verdict(words[i], Derive(guess, code)).Some? {
      VerdictIsConsistent(words[i], guess, code);
    }
  }

  /** Refining the kept words again with the same guess and colours changes nothing. */
  lemma RefineWordlistIdempotent(guess: string, code: Code, words: seq<string>, kept: seq<string>)
    requires RefineWordlist(guess, code, words) == Some(kept)
    ensures RefineWordlist(guess, code, kept) == Some(kept)
  {
    RefineWordlistIsCandidates(guess, code, words);
    CandidatesFilter(words, guess, code);
    CandidatesIdempotent(words, guess, code);
    RefineWordlistIsCandidates(guess, code, kept);
    forall i | 0 <= i < |kept| ensures Verdict(kept[i], Derive(guess, code)).Some? {
      VerdictIsConsistent(kept[i], guess, code);
    }
  }

  /**
   * A letter shown Grey at one position and Green or Amber at another lands in
   * both `must_contain` and `must_not_contain`, so nothing survives the round.
   */
  lemma {:induction false} ConflictingLetterEmptiesList(guess: string, code: Code, words: seq<string>, i: nat, j: nat)
    requires i < |guess| <= 5 && j < |guess|
    requires guess[i] == guess[j] && code[i] == Grey && code[j] != Grey
    ensures RefineWordlist(guess, code, words) == Some([])
    decreases |words|
  {
    if words != [] {
      assert guess[i] in Derive(guess, code).mustNotContain;
      assert guess[j] in Derive(guess, code).mustContain;
      ConflictingLetterEmptiesList(guess, code, words[1..], i, j);
    }
  }

  lemma {:induction false} NothingConsistentNoCandidates(words: seq<string>, guess: string, code: Code)
    requires |guess| <= 5
    requires forall w :: w in words ==> !Consistent(w, guess, code)
    ensures Candidates(words, guess, code) == []
    decreases |words|
  {
    if words != [] {
      assert words[0] in words;
      NothingConsistentNoCandidates(words[1..], guess, code);
    }
  }

  /** All-Green feedback on a five-letter guess keeps that word alone (every copy of it). */
  lemma AllGreenKeepsOnlyGuess(guess: string, code: Code, words: seq<string>)
    requires |guess| == 5 && forall i :: 0 <= i < 5 ==> code[i] == Green
    requires forall w :: w in words ==> |w| == 5
    ensures RefineWordlist(guess, code, words).Some?
    ensures forall w :: w in RefineWordlist(guess, code, words).value <==> w in words && w == guess
  {
    RefineWordlistTotal(guess, code, words);
    RefineWordlistIsCandidates(guess, code, words);
    CandidatesFilter(words, guess, code);
    forall w | w in words ensures Consistent(w, guess, code) <==> w == guess {
      if Consistent(w, guess, code) {
        assert forall i :: 0 <= i < 5 ==> w[i] == guess[i];
      }
      if w == guess {
        assert forall i :: 0 <= i < 5 ==> guess[i] in w;
      }
    }
  }

  /**
   * Guessing "apple" and seeing Green, Green, Grey, Grey, Grey leaves no
   * candidate among "apple", "angle", "ankle", "apply": the second 'p' is Grey
   * while the first is Green.
   */
  lemma AppleExample()
    ensures RefineWordlist("apple", [Green, Green, Grey, Grey, Grey], ["apple", "angle", "ankle", "apply"]) == Some([])
  {
    var words := ["apple", "angle", "ankle", "apply"];
    RefineWordlistTotal("apple", [Green, Green, Grey, Grey, Grey], words);
    ConflictingLetterEmptiesList("apple", [Green, Green, Grey, Grey, Grey], words, 2, 1);
  }
}
