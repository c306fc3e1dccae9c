/**
 * The word list the solver starts from (src/main.rs lines 14-23): the lines of
 * the system dictionary that equal their lower-case form, and of those the
 * ones five characters long. The file itself is a parameter here.
 */
module Dictionary {
  import opened Text
  import opened Seqs

  /** Line 17: keep the lines that equal their lower-case form (drops proper nouns). */
  function KeepLowercase(lines: seq<string>): seq<string> {
    if lines == [] then []
    else (if lines[0] == ToLower(lines[0]) then [lines[0]] else []) + KeepLowercase(lines[1..])
  }

  /** Line 21: keep the five-character entries. */
  function KeepFiveLong(dict: seq<string>): seq<string> {
    if dict == [] then []
    else (if |dict[0]| == 5 then [dict[0]] else []) + KeepFiveLong(dict[1..])
  }

  function Wordlist(lines: seq<string>): seq<string> {
    KeepFiveLong(KeepLowercase(lines))
  }

  /** The words the two filters let through: five characters, none of them an upper-case letter. */
  predicate IsWordlistWord(w: string) {
    |w| == 5 && forall i :: 0 <= i < |w| ==> !IsUpper(w[i])
  }

  /** Both filters in one pass over the lines. */
  lemma {:induction false} WordlistStep(lines: seq<string>)
    requires lines != []
    ensures Wordlist(lines) == (if IsWordlistWord(lines[0]) then [lines[0]] else []) + Wordlist(lines[1..])
  {
    LowercaseFixedPoint(lines[0]);
    var rest := KeepLowercase(lines[1..]);
    if lines[0] == ToLower(lines[0]) {
      assert KeepLowercase(lines) == [lines[0]] + rest;
      assert ([lines[0]] + rest)[1..] == rest;
    } else {
      assert KeepLowercase(lines) == rest;
    }
  }

  /**
   * The word list is exactly the dictionary lines that are five characters
   * long and hold no upper-case letter, in dictionary order.
   */
  lemma {:induction false} WordlistIsFilter(lines: seq<string>)
    ensures IsSubsequence(Wordlist(lines), lines)
    ensures forall w :: w in Wordlist(lines) <==> w in lines && IsWordlistWord(w)
    decreases |lines|
  {
    if lines != [] {
      WordlistStep(lines);
      WordlistIsFilter(lines[1..]);
      var rest := Wordlist(lines[1..]);
      assert lines == [lines[0]] + lines[1..];
      var r := Wordlist(lines);
      if IsWordlistWord(lines[0]) {
        assert r[0] == lines[0] && r[1..] == rest;
      } else {
        assert r == rest;
      }
    }
  }

  /** Every word of the list has exactly five characters. */
  lemma WordlistWordsAreFiveLong(lines: seq<string>)
    ensures forall w :: w in Wordlist(lines) ==> |w| == 5
  {
    WordlistIsFilter(lines);
  }

  /**
   * The lower-case test keeps entries with apostrophes and other non-letters:
   * "don't" stays, "Paris" and "apples" go.
   */
  lemma WordlistKeepsNonLetters()
    ensures Wordlist(["don't", "Paris", "apple", "apples"]) == ["don't", "apple"]
  {
    var lines := ["don't", "Paris", "apple", "apples"];
    assert IsWordlistWord("don't");
    assert !IsWordlistWord("Paris") by { assert IsUpper("Paris"[0]); }
    assert IsWordlistWord("apple");
    assert !IsWordlistWord("apples");
    WordlistStep(lines);
    WordlistStep(lines[1..]);
    WordlistStep(lines[2..]);
    WordlistStep(lines[3..]);
    assert lines[1..][1..] == lines[2..] && lines[2..][1..] == lines[3..] && lines[3..][1..] == [];
  }
}
