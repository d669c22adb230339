/**
 * The plate helpers of the version that does not classify vehicles
 * (utils_final.py): correction only from seven glyphs on, with the text
 * cut to nine first, and one formatter for every plate.
 */
module FinalUtils {
  import opened PlateText

  // ---------------------------------------------------------------------
  // Confusion tables
  // ---------------------------------------------------------------------

  /** Letters read where the plate must hold a digit, and the digit meant. */
  const CharToNum: map<char, char> := map[
    'J' := '3', 'I' := '1', 'L' := '1',
    'O' := '0', 'Q' := '0', 'D' := '0',
    'B' := '8', 'S' := '5', 'Z' := '7',
    'G' := '9', 'A' := '4'
  ]

  /** Digits read where the plate must hold a letter, and the letter meant. */
  const NumToChar: map<char, char> := map[
    '0' := 'O', '1' := 'I', '2' := 'Z',
    '4' := 'A', '8' := 'B', '5' := 'S',
    '7' := 'Z', '9' := 'G', '6' := 'G'
  ]

  /** The letter-to-digit table only maps letters to digits, and the other table the reverse. */
  lemma TablesShape()
    ensures IsConfusionTable(CharToNum) && IsConfusionTable(NumToChar)
  {
    assert LettersToDigits(CharToNum);
    assert DigitsToLetters(NumToChar);
  }

  // ---------------------------------------------------------------------
  // Positional glyph correction
  // ---------------------------------------------------------------------

  /** Slot 2, the series letter, is the only letter slot. */
  function SlotTable(i: nat): map<char, char> {
    if i == 2 then NumToChar else CharToNum
  }

  /**
   * What fix_plate_chars returns: the raw text itself when it cleans to
   * fewer than seven glyphs; otherwise the cleaned text cut to nine glyphs,
   * each slot looked up in its slot's table.
   */
  function Corrected(rawText: string): (r: string)
    ensures |Clean(rawText)| < 7 ==> r == rawText
    ensures |Clean(rawText)| >= 7 ==> |r| == |Truncate9(Clean(rawText))|
  {
    var text := Clean(rawText);
    if |text| < 7 then rawText
    else
      var cut := Truncate9(text);
      seq(|cut|, i requires 0 <= i < |cut| => Apply(SlotTable(i), cut[i]))
  }

  /**
   * Cleans the text, gives up on fewer than seven glyphs, cuts to nine,
   * then corrects a buffer slot by slot: slots 0-1 as digits, slot 2 as a
   * letter, the rest as digits.
   */
  method FixPlateChars(rawText: string) returns (r: string)
    ensures r == Corrected(rawText)
  {
    var text := Clean(rawText);
    if |text| < 7 {
      return rawText;
    }
    if |text| > 9 {
      text := text[..9];
    }
    var chars := new char[|text|](i requires 0 <= i < |text| => text[i]);
    for i := 0 to 2
      invariant forall j :: 0 <= j < i ==> chars[j] == Apply(SlotTable(j), text[j])
      invariant forall j :: i <= j < chars.Length ==> chars[j] == text[j]
    {
      if chars[i] in CharToNum {
        chars[i] := CharToNum[chars[i]];
      }
    }
    if chars[2] in NumToChar {
      chars[2] := NumToChar[chars[2]];
    }
    for i := 3 to chars.Length
      invariant forall j :: 0 <= j < i ==> chars[j] == Apply(SlotTable(j), text[j])
      invariant forall j :: i <= j < chars.Length ==> chars[j] == text[j]
    {
      if chars[i] in CharToNum {
        chars[i] := CharToNum[chars[i]];
      }
    }
    r := chars[..];
  }

  /** Slot by slot, the corrected text is the cut text looked up in the slot's table. */
  lemma CorrectedAt(rawText: string, i: nat)
    requires 7 <= |Clean(rawText)| && i < |Truncate9(Clean(rawText))|
    ensures Corrected(rawText)[i] == Apply(SlotTable(i), Truncate9(Clean(rawText))[i])
  {
  }

  /** From seven glyphs on, the result is plate text of seven to nine glyphs. */
  lemma CorrectedIsPlateText(rawText: string)
    requires |Clean(rawText)| >= 7
    ensures IsPlateText(Corrected(rawText))
    ensures 7 <= |Corrected(rawText)| <= 9
  {
    var cut := Truncate9(Clean(rawText));
    TablesShape();
    forall i | 0 <= i < |cut| ensures IsPlateChar(Corrected(rawText)[i]) {
      ApplyProperties(SlotTable(i), cut[i]);
    }
  }

  /**
   * From seven glyphs on, a slot of the cut text changes exactly when its
   * glyph is a key of its slot's table, it then takes the table's value,
   * and afterwards it holds no key of that table.
   */
  lemma CorrectionBySlot(rawText: string, i: nat)
    requires 7 <= |Clean(rawText)| && i < |Truncate9(Clean(rawText))|
    ensures var t, r, table := Truncate9(Clean(rawText)), Corrected(rawText),
                               if i == 2 then NumToChar else CharToNum;
      && (r[i] != t[i] <==> t[i] in table)
      && (t[i] in table ==> r[i] == table[t[i]])
      && r[i] !in table
  {
    TablesShape();
  }

  /** Correcting an already corrected text changes nothing, whichever branch the first call took. */
  lemma CorrectedIdempotent(rawText: string)
    ensures Corrected(Corrected(rawText)) == Corrected(rawText)
  {
    var r := Corrected(rawText);
    if |Clean(rawText)| >= 7 {
      CorrectedIsPlateText(rawText);
      CleanKeepsPlateText(r);
      TablesShape();
      var cut := Truncate9(Clean(rawText));
      forall i | 0 <= i < |r|
        ensures Apply(SlotTable(i), r[i]) == r[i]
      {
        ApplyProperties(SlotTable(i), cut[i]);
      }
    }
  }

  // ---------------------------------------------------------------------
  // Formatting
  // ---------------------------------------------------------------------

  /**
   * format_plate: cut to nine glyphs, then insert separators by length
   * alone; lengths other than seven to nine come back as cut.
   */
  function FormatPlate(text: string): (r: string)
    ensures |r| <= 12
    ensures |r| >= |Truncate9(text)|
  {
    var t := Truncate9(text);
    if |t| == 9 then t[..2] + "-" + t[2..4] + " " + t[4..7] + "." + t[7..]
    else if |t| == 8 then t[..2] + [t[2]] + "-" + t[3..6] + "." + t[6..]
    else if |t| == 7 then t[..2] + [t[2]] + "-" + t[3..]
    else t
  }

  /**
   * The separator layouts on plate text: NN-XX NNN.NN at nine glyphs,
   * NNL-NNN.NN at eight, NNL-NNNN at seven, unformatted otherwise.
   */
  lemma FormatLayout(text: string)
    requires IsPlateText(text)
    ensures var t, r := Truncate9(text), FormatPlate(text);
      && (|t| == 9 ==> FitsPattern(r, "##-## ###.##"))
      && (|t| == 8 ==> FitsPattern(r, "###-###.##"))
      && (|t| == 7 ==> FitsPattern(r, "###-####"))
      && (|t| < 7 ==> r == t)
  {
    var t := Truncate9(text);
    assert IsPlateText(t);
    assert FormatPlate(text) == FormatPlate(t);
    if |t| == 9 {
      NineGlyphLayout(t);
    } else if |t| == 8 {
      EightGlyphLayout(t);
    } else if |t| == 7 {
      SevenGlyphLayout(t);
    }
  }

  lemma NineGlyphLayout(t: string)
    requires IsPlateText(t) && |t| == 9
    ensures FitsPattern(FormatPlate(t), "##-## ###.##")
  {
    assert Truncate9(t) == t;
  }

  lemma EightGlyphLayout(t: string)
    requires IsPlateText(t) && |t| == 8
    ensures FitsPattern(FormatPlate(t), "###-###.##")
  {
    assert Truncate9(t) == t;
  }

  lemma SevenGlyphLayout(t: string)
    requires IsPlateText(t) && |t| == 7
    ensures FitsPattern(FormatPlate(t), "###-####")
  {
    assert Truncate9(t) == t;
  }

  /** Deleting the inserted separators gives back the text cut to nine glyphs. */
  lemma FormatRoundTrip(text: string)
    requires HasNoSeparator(text)
    ensures StripSeparators(FormatPlate(text)) == Truncate9(text)
  {
    var t := Truncate9(text);
    assert HasNoSeparator(t);
    if |t| == 9 {
      StripAfterSeparator(t[..2] + "-" + t[2..4] + " " + t[4..7], '.', t[7..]);
      StripAfterSeparator(t[..2] + "-" + t[2..4], ' ', t[4..7]);
      StripAfterSeparator(t[..2], '-', t[2..4]);
      StripKeeps(t[..2]);
      assert t[..2] + t[2..4] + t[4..7] + t[7..] == t;
    } else if 7 <= |t| {
      var head := t[..2] + [t[2]];
      StripKeeps(head);
      if |t| == 7 {
        StripAfterSeparator(head, '-', t[3..]);
        assert head + t[3..] == t;
      } else {
        StripAfterSeparator(head + "-" + t[3..6], '.', t[6..]);
        StripAfterSeparator(head, '-', t[3..6]);
        assert head + t[3..6] + t[6..] == t;
      }
    } else {
      StripKeeps(t);
    }
  }

  /** The motorbike layout format_plate documents with an example. */
  lemma MotorbikeExample()
    ensures FormatPlate("59P112345") == "59-P1 123.45"
  {
    assert Truncate9("59P112345") == "59P112345";
  }

  /** The eight-glyph car layout format_plate documents with an example. */
  lemma EightGlyphExample()
    ensures FormatPlate("30K12345") == "30K-123.45"
  {
    assert Truncate9("30K12345") == "30K12345";
  }

  /** The seven-glyph car layout format_plate documents with an example. */
  lemma SevenGlyphExample()
    ensures FormatPlate("30A1234") == "30A-1234"
  {
    assert Truncate9("30A1234") == "30A1234";
  }
}
