/**
 * The colour feedback the player types after each guess (src/main.rs lines 5-10
 * and 48-67): one symbol per position, 'G' Green, 'X' Grey, 'A' Amber.
 */
module Feedback {
  import opened Wrappers
  import opened Text

  datatype Colour = Green | Grey | Amber

  /** `[Colours; 5]`: one colour per position of a five-letter guess. */
  type Code = s: seq<Colour> | |s| == 5 witness [Grey, Grey, Grey, Grey, Grey]

  /** The `match` arms of the decoder; `None` is the `Invalid char` panic. */
  function ColourOf(c: char): Option<Colour> {
    match c
    case 'G' => Some(Green)
    case 'X' => Some(Grey)
    case 'A' => Some(Amber)
    case _ => None
  }

  /** The symbol the prompt asks the player to type for a colour. */
  function Symbol(colour: Colour): (c: char)
    ensures ColourOf(c) == Some(colour)
    ensures !IsWhitespace(c)
  {
    match colour
    case Green => 'G'
    case Grey => 'X'
    case Amber => 'A'
  }

  /** The `chars().map(...)` pass: every character decoded, or `None` at the first invalid one. */
  function DecodeSymbols(t: string): (r: Option<seq<Colour>>)
    ensures r.Some? <==> forall i :: 0 <= i < |t| ==> ColourOf(t[i]).Some?
    ensures r.Some? ==> |r.value| == |t| && forall i :: 0 <= i < |t| ==> ColourOf(t[i]) == Some(r.value[i])
  {
    if t == [] then Some([])
    else
      match ColourOf(t[0])
      case None => None
      case Some(colour) =>
        match DecodeSymbols(t[1..])
        case None => None
        case Some(rest) => Some([colour] + rest)
  }

  /**
   * The feedback decoder: trims the line, panics (here: `None`) unless exactly
   * five characters remain, and maps each to its colour, panicking on any
   * character other than 'G', 'X' and 'A'.
   */
  function Decode(line: string): (r: Option<Code>)
    ensures r.Some? <==> |Trim(line)| == 5 && forall i :: 0 <= i < 5 ==> ColourOf(Trim(line)[i]).Some?
    ensures r.Some? ==> forall i :: 0 <= i < 5 ==> ColourOf(Trim(line)[i]) == Some(r.value[i])
  {
    var t := Trim(line);
    if |t| != 5 then None
    else
      match DecodeSymbols(t)
      case None => None
      case Some(colours) => Some(colours)
  }

  /** The line a player types for a code, e.g. "XGXXA". */
  function Encode(code: Code): (line: string)
    ensures |line| == 5
  {
    seq(5, i requires 0 <= i < 5 => Symbol(code[i]))
  }

  /** Typing the symbols of a code is decoded back to that code. */
  lemma DecodeEncode(code: Code)
    ensures Decode(Encode(code)) == Some(code)
  {
    var line := Encode(code);
    TrimUntouched(line);
    var r := Decode(line);
    assert r.Some?;
    assert r.value == code by {
      forall i | 0 <= i < 5 ensures r.value[i] == code[i] {
        assert ColourOf(line[i]) == Some(code[i]);
      }
    }
  }

  /** A line the decoder accepts is, once trimmed, exactly the symbols of the decoded code. */
  lemma EncodeDecode(line: string)
    requires Decode(line).Some?
    ensures Encode(Decode(line).value) == Trim(line)
  {
  }
}
