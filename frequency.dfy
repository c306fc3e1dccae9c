/**
 * The letter-frequency table of `make_guess` (src/main.rs lines 29-34): a fold
 * over the word list whose inner loop adds one to the counter of each
 * character it meets, starting a missing counter at zero (line 31).
 */
module Frequency {

  /** Occurrences of `c` in `w`, every repetition counted. */
  function Count(w: string, c: char): nat {
    if w == [] then 0 else Count(w[..|w| - 1], c) + (if w[|w| - 1] == c then 1 else 0)
  }

  /** Occurrences of `c` across all words, every repetition counted. */
  function Occurrences(words: seq<string>, c: char): nat {
    if words == [] then 0 else Occurrences(words[..|words| - 1], c) + Count(words[|words| - 1], c)
  }

  /** All the words written one after the other. */
  function Concat(words: seq<string>): string {
    if words == [] then [] else Concat(words[..|words| - 1]) + words[|words| - 1]
  }

  /** The table the fold builds: each character that occurs, with its number of occurrences. */
  function Frequencies(words: seq<string>): (freq: map<char, nat>)
    ensures forall w :: w in words ==> Covers(freq, w)
  {
    ConcatHoldsLetters(words);
    map c | c in Concat(words) :: Occurrences(words, c)
  }

  /** `freq` has a key for every character of `w`: `word_cost` does not panic on it. */
  predicate Covers(freq: map<char, nat>, w: string) {
    forall j :: 0 <= j < |w| ==> w[j] in freq
  }

  lemma {:induction false} ConcatHoldsLetters(words: seq<string>)
    ensures forall i, j :: 0 <= i < |words| && 0 <= j < |words[i]| ==> words[i][j] in Concat(words)
    decreases |words|
  {
    if words != [] {
      var n := |words| - 1;
      ConcatHoldsLetters(words[..n]);
      forall i, j | 0 <= i < |words| && 0 <= j < |words[i]| ensures words[i][j] in Concat(words) {
        if i < n {
          assert words[i] == words[..n][i];
        }
      }
    }
  }

  lemma {:induction false} CountIsMultiplicity(w: string, c: char)
    ensures Count(w, c) == multiset(w)[c]
    decreases |w|
  {
    if w != [] {
      var n := |w| - 1;
      CountIsMultiplicity(w[..n], c);
      assert w == w[..n] + [w[n]];
      assert multiset(w) == multiset(w[..n]) + multiset{w[n]};
    }
  }

  /**
   * The table's count for a character is its multiplicity in all the words
   * together: a letter repeated within one word counts each time.
   */
  lemma {:induction false} OccurrencesIsMultiplicity(words: seq<string>, c: char)
    ensures Occurrences(words, c) == multiset(Concat(words))[c]
    decreases |words|
  {
    if words != [] {
      var n := |words| - 1;
      OccurrencesIsMultiplicity(words[..n], c);
      CountIsMultiplicity(words[n], c);
      assert multiset(Concat(words)) == multiset(Concat(words[..n])) + multiset(words[n]);
    }
  }

  /** The keys are exactly the characters that occur, and each maps to its number of occurrences. */
  lemma FrequenciesAreMultiplicities(words: seq<string>)
    ensures forall c :: c in Frequencies(words) <==> c in Concat(words)
    ensures forall c :: c in Frequencies(words) ==> Frequencies(words)[c] == multiset(Concat(words))[c]
  {
    forall c | c in Frequencies(words) ensures Frequencies(words)[c] == multiset(Concat(words))[c] {
      OccurrencesIsMultiplicity(words, c);
    }
  }

  lemma CountStep(w: string, j: nat, c: char)
    requires j < |w|
    ensures Count(w[..j + 1], c) == Count(w[..j], c) + (if w[j] == c then 1 else 0)
  {
    assert w[..j + 1][..j] == w[..j];
  }

  lemma OccurrencesStep(words: seq<string>, i: nat, c: char)
    requires i < |words|
    ensures Occurrences(words[..i + 1], c) == Occurrences(words[..i], c) + Count(words[i], c)
  {
    assert words[..i + 1][..i] == words[..i];
  }

  /** The fold of lines 29-34. */
  method CountFrequencies(words: seq<string>) returns (freq: map<char, nat>)
    ensures forall c :: c in freq <==> Occurrences(words, c) > 0
    ensures forall c :: c in freq ==> freq[c] == Occurrences(words, c)
    ensures freq == Frequencies(words)
  {
    freq := map[];
    var i := 0;
    while i < |words|
      invariant 0 <= i <= |words|
      invariant forall c :: c in freq <==> Occurrences(words[..i], c) > 0
      invariant forall c :: c in freq ==> freq[c] == Occurrences(words[..i], c)
    {
      var w := words[i];
      var j := 0;
      while j < |w|
        invariant 0 <= j <= |w|
        invariant forall c :: c in freq <==> Occurrences(words[..i], c) + Count(w[..j], c) > 0
        invariant forall c :: c in freq ==> freq[c] == Occurrences(words[..i], c) + Count(w[..j], c)
      {
        var c := w[j];
        freq := freq[c := (if c in freq then freq[c] else 0) + 1];
        forall d ensures Count(w[..j + 1], d) == Count(w[..j], d) + (if c == d then 1 else 0) {
          CountStep(w, j, d);
        }
        j := j + 1;
      }
      assert w[..j] == w;
      forall d ensures Occurrences(words[..i + 1], d) == Occurrences(words[..i], d) + Count(w, d) {
        OccurrencesStep(words, i, d);
      }
      i := i + 1;
    }
    assert words[..i] == words;
    forall c ensures c in Concat(words) <==> Occurrences(words, c) > 0 {
      OccurrencesIsMultiplicity(words, c);
    }
  }
}
