/**
 * `get_most_likley` (src/main.rs lines 113-122): score every word once (the
 * words are the keys of a `HashMap`, so duplicates collapse), collect the
 * (word, score) pairs in the map's iteration order, sort them by descending
 * score in place and keep the words.
 */
module Ranking {
  import opened Seqs
  import opened Frequency
  import opened Cost

  function Words(pairs: seq<(string, nat)>): (r: seq<string>)
    ensures |r| == |pairs| && forall k :: 0 <= k < |pairs| ==> r[k] == pairs[k].0
  {
    seq(|pairs|, k requires 0 <= k < |pairs| => pairs[k].0)
  }

  method Swap(a: array<(string, nat)>, i: nat, j: nat)
    requires i < a.Length && j < a.Length
    modifies a
    ensures a[i] == old(a[j]) && a[j] == old(a[i])
    ensures forall k :: 0 <= k < a.Length && k != i && k != j ==> a[k] == old(a[k])
    ensures multiset(a[..]) == old(multiset(a[..]))
  {
    a[i], a[j] := a[j], a[i];
  }

  /** Line 120: the pairs sorted by score in place, highest score first. */
  method SortByScore(a: array<(string, nat)>)
    modifies a
    ensures forall p, q :: 0 <= p < q < a.Length ==> a[p].1 >= a[q].1
    ensures multiset(a[..]) == old(multiset(a[..]))
  {
    var i := 0;
    while i < a.Length
      invariant 0 <= i <= a.Length
      invariant forall p, q :: 0 <= p < q < i ==> a[p].1 >= a[q].1
      invariant multiset(a[..]) == old(multiset(a[..]))
    {
      var j := i;
      while j > 0 && a[j - 1].1 < a[j].1
        invariant 0 <= j <= i
        invariant forall p, q :: 0 <= p < q <= i && q != j ==> a[p].1 >= a[q].1
        invariant multiset(a[..]) == old(multiset(a[..]))
      {
        Swap(a, j - 1, j);
        j := j - 1;
      }
      i := i + 1;
    }
  }

  /** Lines 114-117: one entry per distinct word, mapped to its cost. */
  method ScoreWords(words: seq<string>, freq: map<char, nat>) returns (scores: map<string, nat>)
    requires forall w :: w in words ==> Covers(freq, w)
    ensures forall w :: w in scores <==> w in words
    ensures forall w :: w in scores ==> Covers(freq, w) && scores[w] == WordCost(w, freq)
  {
    scores := map[];
    var i := 0;
    while i < |words|
      invariant 0 <= i <= |words|
      invariant forall w :: w in scores <==> w in words[..i]
      invariant forall w :: w in scores ==> Covers(freq, w) && scores[w] == WordCost(w, freq)
    {
      scores := scores[words[i] := WordCost(words[i], freq)];
      i := i + 1;
    }
    assert words[..i] == words;
  }

  /** Line 119: the map's entries as pairs, in its iteration order, which is unspecified. */
  method CollectPairs(scores: map<string, nat>) returns (pairs: seq<(string, nat)>)
    ensures forall w :: w in Words(pairs) <==> w in scores
    ensures NoDuplicates(Words(pairs))
    ensures forall k :: 0 <= k < |pairs| ==> pairs[k].0 in scores && pairs[k].1 == scores[pairs[k].0]
  {
    pairs := [];
    var left := scores.Keys;
    while left != {}
      invariant left <= scores.Keys
      invariant forall w :: w in Words(pairs) <==> w in scores && w !in left
      invariant NoDuplicates(Words(pairs))
      invariant forall k :: 0 <= k < |pairs| ==> pairs[k].0 in scores && pairs[k].1 == scores[pairs[k].0]
      decreases |left|
    {
      var w :| w in left;
      assert w !in Words(pairs);
      assert Words(pairs + [(w, scores[w])]) == Words(pairs) + [w];
      pairs := pairs + [(w, scores[w])];
      left := left - {w};
    }
  }

  /** Reordering pairs whose score is a function of their word keeps the words and their distinctness. */
  lemma ReorderedPairsKeepWords(pairs: seq<(string, nat)>, sorted: seq<(string, nat)>, scores: map<string, nat>)
    requires multiset(sorted) == multiset(pairs)
    requires NoDuplicates(Words(pairs))
    requires forall k :: 0 <= k < |pairs| ==> pairs[k].0 in scores && pairs[k].1 == scores[pairs[k].0]
    ensures forall k :: 0 <= k < |sorted| ==> sorted[k].0 in scores && sorted[k].1 == scores[sorted[k].0]
    ensures forall w :: w in Words(sorted) <==> w in Words(pairs)
    ensures NoDuplicates(Words(sorted))
  {
    forall k | 0 <= k < |sorted| ensures sorted[k] in pairs {
      assert sorted[k] in multiset(sorted);
    }
    forall k | 0 <= k < |pairs| ensures pairs[k] in sorted {
      assert pairs[k] in multiset(pairs);
    }
    assert NoDuplicates(pairs) by {
      forall p, q | 0 <= p < q < |pairs| ensures pairs[p] != pairs[q] {
        assert Words(pairs)[p] != Words(pairs)[q];
      }
    }
    NoDuplicatesMultiplicity(pairs);
    NoDuplicatesMultiplicity(sorted);
    forall p, q | 0 <= p < q < |sorted| ensures Words(sorted)[p] != Words(sorted)[q] {
      assert sorted[p] != sorted[q];
    }
  }

  /**
   * The ranking: every distinct word of the list exactly once, highest
   * `word_cost` first. Words of equal cost come in no specified order.
   */
  method GetMostLikely(words: seq<string>, freq: map<char, nat>) returns (ranking: seq<string>)
    requires forall w :: w in words ==> Covers(freq, w)
    ensures forall w :: w in ranking <==> w in words
    ensures NoDuplicates(ranking)
    ensures forall p, q :: 0 <= p < q < |ranking| ==> WordCost(ranking[p], freq) >= WordCost(ranking[q], freq)
  {
    var scores := ScoreWords(words, freq);
    var pairs := CollectPairs(scores);
    // Line 120: sort the vector in place.
    var a := new (string, nat)[|pairs|](k requires 0 <= k < |pairs| => pairs[k]);
    assert a[..] == pairs;
    SortByScore(a);
    var sorted := a[..];
    ReorderedPairsKeepWords(pairs, sorted, scores);
    // Line 121: keep the words.
    ranking := Words(sorted);
  }
}
