/** The cut-line colour lookup of arrange_cards_from_json: the requested name
    is lower-cased and looked up among seven reportlab colours; any other name
    prints a warning and falls back to black. */
module Colour {

  /** The reportlab colours the palette offers. */
  datatype Colour = Black | White | Blue | Red | Green | Yellow | Orange

  /** colour_map: each palette name and its colour. */
  const ColourMap: map<string, Colour> :=
    map["black" := Black, "white" := White, "blue" := Blue, "red" := Red,
        "green" := Green, "yellow" := Yellow, "orange" := Orange]

  /** The palette name of each colour. */
  function Name(c: Colour): string {
    match c
    case Black => "black"
    case White => "white"
    case Blue => "blue"
    case Red => "red"
    case Green => "green"
    case Yellow => "yellow"
    case Orange => "orange"
  }

  /** The palette maps exactly the seven names, each to its own colour. */
  lemma ColourMapIsPalette()
    ensures forall c: Colour :: Name(c) in ColourMap && ColourMap[Name(c)] == c
    ensures forall s :: s in ColourMap ==> Name(ColourMap[s]) == s
  {
    assert ColourMap.Keys == {"black", "white", "blue", "red", "green", "yellow", "orange"};
  }

  /** U+212A KELVIN SIGN, whose lower-case form is the ASCII letter k. */
  const Kelvin: char := '\U{212A}'

  /** U+0130 LATIN CAPITAL LETTER I WITH DOT ABOVE, whose lower-case form is
      the two characters i and U+0307 COMBINING DOT ABOVE. */
  const DottedCapitalI: char := '\U{0130}'
  const CombiningDot: char := '\U{0307}'

  /** Python's str.lower on one character: exact for ASCII, for the Kelvin
      sign and for the dotted capital I. Every other character is kept. */
  function LowerChar(ch: char): (r: string)
    ensures 1 <= |r| <= 2 && (|r| == 2 <==> ch == DottedCapitalI)
    ensures forall i :: 0 <= i < |r| ==> !('A' <= r[i] <= 'Z')
  {
    if 'A' <= ch <= 'Z' then [(ch as int + 32) as char]
    else if ch == Kelvin then "k"
    else if ch == DottedCapitalI then ['i', CombiningDot]
    else [ch]
  }

  /** str.lower, character by character. */
  function Lower(s: string): (r: string)
    ensures |s| <= |r| <= 2 * |s|
    decreases |s|
  {
    if s == [] then [] else Lower(s[..|s| - 1]) + LowerChar(s[|s| - 1])
  }

  /** Lines 176-181: the colour for cut_line_colour and whether the warning
      about an invalid name is printed. */
  function CutLineColour(cutLineColour: string): (r: (Colour, bool))
    ensures r.0 in ColourMap.Values
    ensures r.1 ==> r.0 == Black
  {
    var key := Lower(cutLineColour);
    if key in ColourMap then (ColourMap[key], false)
    else assert ColourMap["black"] == Black; (Black, true)
  }

  /** A word of lower-case ASCII letters, as every palette name is. */
  predicate LowerAsciiWord(t: string) {
    forall i :: 0 <= i < |t| ==> 'a' <= t[i] <= 'z'
  }

  /** ch is the lower-case ASCII letter l written in either case, or the
      Kelvin sign standing for k. */
  predicate SameLetter(ch: char, l: char)
    requires 'a' <= l <= 'z'
  {
    ch == l || ch as int == l as int - 32 || (l == 'k' && ch == Kelvin)
  }

  /** s spells the word t, letter by letter, in any mix of cases. */
  predicate CaseVariant(s: string, t: string)
    requires LowerAsciiWord(t)
  {
    |s| == |t| && forall i :: 0 <= i < |s| ==> SameLetter(s[i], t[i])
  }

  /** One character lower-cases to the single letter l exactly when it is l
      in either case, and when its lower-case form ends in a letter that form
      is one character long. */
  lemma LowerCharLetter(ch: char, l: char)
    requires 'a' <= l <= 'z'
    ensures LowerChar(ch) == [l] <==> SameLetter(ch, l)
    ensures |LowerChar(ch)| >= 1
    ensures LowerChar(ch)[|LowerChar(ch)| - 1] == l ==> |LowerChar(ch)| == 1
  {
  }

  /** Lower-casing gives a word of lower-case letters exactly when the
      string is a case variant of that word. */
  lemma LowerIsWord(s: string, t: string)
    requires LowerAsciiWord(t)
    ensures Lower(s) == t <==> CaseVariant(s, t)
  {
    if Lower(s) == t {
      LowerGivesVariant(s, t);
    }
    if CaseVariant(s, t) {
      VariantLowers(s, t);
    }
  }

  lemma {:induction false} LowerGivesVariant(s: string, t: string)
    requires LowerAsciiWord(t) && Lower(s) == t
    ensures CaseVariant(s, t)
    decreases |s|
  {
    if s != [] {
      LowerLast(s, t);
      WordPrefix(t);
      LowerGivesVariant(s[..|s| - 1], t[..|t| - 1]);
      VariantSnoc(s, t);
    }
  }

  /** A non-empty string lower-cases to a non-empty string; when that ends in
      a letter, the string ends in that letter written in either case and
      the rest lower-cases to the rest. */
  lemma LowerLast(s: string, t: string)
    requires s != [] && Lower(s) == t
    ensures t != []
    ensures 'a' <= t[|t| - 1] <= 'z' ==>
      SameLetter(s[|s| - 1], t[|t| - 1]) && Lower(s[..|s| - 1]) == t[..|t| - 1]
  {
    var n := |s| - 1;
    LowerCharLetter(s[n], 'a');
    var m := |t| - 1;
    if 'a' <= t[m] <= 'z' {
      LowerCharLetter(s[n], t[m]);
      assert LowerChar(s[n]) == [t[m]];
      assert t == t[..m] + [t[m]];
    }
  }

  /** A prefix of a word is a word. */
  lemma WordPrefix(t: string)
    requires LowerAsciiWord(t) && t != []
    ensures LowerAsciiWord(t[..|t| - 1]) && 'a' <= t[|t| - 1] <= 'z'
  {
    assert forall i :: 0 <= i < |t| - 1 ==> t[..|t| - 1][i] == t[i];
  }

  /** A case variant of a word, extended by the same letter in either case,
      is a case variant of the extended word. */
  lemma VariantSnoc(s: string, t: string)
    requires LowerAsciiWord(t) && s != [] && t != []
    requires LowerAsciiWord(t[..|t| - 1]) && CaseVariant(s[..|s| - 1], t[..|t| - 1])
    requires SameLetter(s[|s| - 1], t[|t| - 1])
    ensures CaseVariant(s, t)
  {
    assert forall i :: 0 <= i < |s| - 1 ==> s[..|s| - 1][i] == s[i] && t[..|t| - 1][i] == t[i];
  }

  lemma {:induction false} VariantLowers(s: string, t: string)
    requires LowerAsciiWord(t) && CaseVariant(s, t)
    ensures Lower(s) == t
    decreases |s|
  {
    if s != [] {
      var n := |s| - 1;
      LowerCharLetter(s[n], t[n]);
      VariantLowers(s[..n], t[..n]);
      assert t == t[..n] + [t[n]];
    }
  }

  /** Any case variant of a palette name gives that colour, without warning. */
  lemma CaseVariantsResolve(c: Colour, s: string)
    requires LowerAsciiWord(Name(c)) && CaseVariant(s, Name(c))
    ensures CutLineColour(s) == (c, false)
  {
    LowerIsWord(s, Name(c));
    ColourMapIsPalette();
  }

  /** The lookup never fails: a name that is no case variant of any palette
      name gives black and the warning, and a name that gives no warning is
      a case variant of the name of the colour it gives. */
  lemma LookupNeverFails(s: string)
    ensures CutLineColour(s).1 ==> CutLineColour(s).0 == Black
    ensures !CutLineColour(s).1 ==>
      LowerAsciiWord(Name(CutLineColour(s).0)) && CaseVariant(s, Name(CutLineColour(s).0))
  {
    ColourMapIsPalette();
    if !CutLineColour(s).1 {
      var c := CutLineColour(s).0;
      assert Lower(s) == Name(c);
      LowerIsWord(s, Name(c));
    }
  }

  /** "purple" is no palette name: it falls back to black with a warning. */
  lemma PurpleFallsBack()
    ensures CutLineColour("purple") == (Black, true)
  {
    VariantLowers("purple", "purple");
    assert "purple" !in ColourMap;
  }
}
