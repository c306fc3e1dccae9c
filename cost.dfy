/**
 * `word_cost` (src/main.rs lines 124-129): the frequencies of a word's
 * distinct letters, summed. The original folds over a `HashSet` of the
 * characters; here each letter is counted where it occurs for the last time,
 * and `SumOver` is the order-free sum the `HashSet` fold stands for.
 */
module Cost {
  import opened Frequency

  function WordCost(w: string, freq: map<char, nat>): nat
    requires Covers(freq, w)
  {
    if w == [] then 0
    else
      assert Covers(freq, w[1..]) by {
        forall j | 0 <= j < |w[1..]| ensures w[1..][j] in freq {
          assert w[1..][j] == w[j + 1];
        }
      }
      (if w[0] in w[1..] then 0 else freq[w[0]]) + WordCost(w[1..], freq)
  }

  /** The distinct letters of a word. */
  ghost function Letters(w: string): set<char> {
    set c | c in w
  }

  /** The sum of the frequencies of a set of letters, in no particular order. */
  ghost function SumOver(letters: set<char>, freq: map<char, nat>): nat
    requires letters <= freq.Keys
  {
    if letters == {} then 0
    else
      var c :| c in letters;
      freq[c] + SumOver(letters - {c}, freq)
  }

  /** Any letter may be taken out of the sum first: the order of the set fold does not matter. */
  lemma {:induction false} SumOverRemove(letters: set<char>, freq: map<char, nat>, c: char)
    requires letters <= freq.Keys && c in letters
    ensures SumOver(letters, freq) == freq[c] + SumOver(letters - {c}, freq)
    decreases |letters|
  {
    var d :| d in letters && SumOver(letters, freq) == freq[d] + SumOver(letters - {d}, freq);
    if d != c {
      SumOverRemove(letters - {d}, freq, c);
      SumOverRemove(letters - {c}, freq, d);
      assert letters - {d} - {c} == letters - {c} - {d};
    }
  }

  /** `word_cost` is the sum of the frequencies of the word's distinct letters. */
  lemma {:induction false} WordCostIsSumOverLetters(w: string, freq: map<char, nat>)
    requires Covers(freq, w)
    ensures Letters(w) <= freq.Keys
    ensures WordCost(w, freq) == SumOver(Letters(w), freq)
    decreases |w|
  {
    if w == [] {
      assert Letters(w) == {};
    } else {
      var rest := w[1..];
      assert w == [w[0]] + rest;
      assert Covers(freq, rest) by {
        forall j | 0 <= j < |rest| ensures rest[j] in freq {
          assert rest[j] == w[j + 1];
        }
      }
      WordCostIsSumOverLetters(rest, freq);
      assert Letters(w) == {w[0]} + Letters(rest);
      if w[0] in rest {
        assert Letters(w) == Letters(rest);
      } else {
        assert Letters(w) - {w[0]} == Letters(rest);
        SumOverRemove(Letters(w), freq, w[0]);
      }
    }
  }

  /**
   * Repeated letters count once and order does not matter: two words with
   * the same set of letters cost the same.
   */
  lemma SameLettersSameCost(u: string, v: string, freq: map<char, nat>)
    requires Covers(freq, u) && Covers(freq, v)
    requires Letters(u) == Letters(v)
    ensures WordCost(u, freq) == WordCost(v, freq)
  {
    WordCostIsSumOverLetters(u, freq);
    WordCostIsSumOverLetters(v, freq);
  }
}
