/**
 * The earlier plate helpers at the top of the repository (utils.py): the
 * two-way classification, positional correction without a 50cc case, and
 * a formatter whose car layout keeps a ninth glyph.
 */
module RootUtils {
  import opened PlateText

  // ---------------------------------------------------------------------
  // Confusion tables
  // ---------------------------------------------------------------------

  /** Letters read where the plate must hold a digit, and the digit meant. */
  const CharToNum: map<char, char> := map[
    'J' := '3', 'I' := '1', 'L' := '1',
    'O' := '0', 'Q' := '0', 'D' := '0', 'U' := '0', 'C' := '0',
    'B' := '8', 'S' := '5', 'Z' := '7',
    'G' := '9', 'A' := '4',
    'T' := '1'
  ]

  /** Digits read where the plate must hold a letter, and the letter meant. */
  const NumToChar: map<char, char> := map[
    '0' := 'O', '1' := 'I', '2' := 'Z',
    '4' := 'A', '8' := 'B', '5' := 'S',
    '7' := 'Z', '9' := 'G', '6' := 'G'
  ]

  /** The letter-to-digit table only maps letters to digits, and the other table the reverse. */
  lemma TablesShape()
    ensures IsConfusionTable(CharToNum) && IsConfusionTable(NumToChar)
  {
    assert LettersToDigits(CharToNum);
    assert DigitsToLetters(NumToChar);
  }

  // ---------------------------------------------------------------------
  // Vehicle classification
  // ---------------------------------------------------------------------

  /**
   * One line is a car; no line is unknown; with two or more lines the
   * cleaned first line decides: empty is unknown, ending in a digit is a
   * motorbike, anything else a car.
   */
  function ClassifyVehicle(lines: seq<string>): (v: VehicleType)
    ensures |lines| == 1 ==> v == Car
    ensures v == Unknown <==> |lines| == 0 || (|lines| >= 2 && Clean(lines[0]) == [])
    ensures v == Motorbike <==>
      |lines| >= 2 && Clean(lines[0]) != [] && IsDigit(Clean(lines[0])[|Clean(lines[0])| - 1])
  {
    if |lines| == 1 then Car
    else if |lines| >= 2 then
      var line1 := Clean(lines[0]);
      if |line1| == 0 then Unknown
      else if IsDigit(line1[|line1| - 1]) then Motorbike
      else Car
    else Unknown
  }

  // ---------------------------------------------------------------------
  // Positional glyph correction
  // ---------------------------------------------------------------------

  /** Slot 2, the series letter, is the only letter slot. */
  function SlotTable(i: nat): map<char, char> {
    if i == 2 then NumToChar else CharToNum
  }

  /**
   * What fix_plate_chars returns: the cleaned text, and when it has at least
   * six glyphs, each slot looked up in its slot's table.
   */
  function Corrected(rawText: string): (r: string)
    ensures |r| == |Clean(rawText)|
  {
    var text := Clean(rawText);
    if |text| < 6 then text
    else seq(|text|, i requires 0 <= i < |text| => Apply(SlotTable(i), text[i]))
  }

  /**
   * Copies the cleaned text into a buffer and corrects it slot by slot:
   * slots 0-1 as digits, slot 2 as a letter, the rest as digits.
   */
  method FixPlateChars(rawText: string) returns (r: string)
    ensures r == Corrected(rawText)
    ensures |Clean(rawText)| < 6 ==> r == Clean(rawText)
  {
    var text := Clean(rawText);
    var chars := new char[|text|](i requires 0 <= i < |text| => text[i]);
    if chars.Length < 6 {
      return text;
    }
    for i := 0 to 2
      invariant forall j :: 0 <= j < i ==> chars[j] == Apply(SlotTable(j), text[j])
      invariant forall j :: i <= j < chars.Length ==> chars[j] == text[j]
    {
      if chars[i] in CharToNum {
        chars[i] := CharToNum[chars[i]];
      }
    }
    if chars[2] in NumToChar {
      chars[2] := NumToChar[chars[2]];
    }
    for i := 3 to chars.Length
      invariant forall j :: 0 <= j < i ==> chars[j] == Apply(SlotTable(j), text[j])
      invariant forall j :: i <= j < chars.Length ==> chars[j] == text[j]
    {
      if chars[i] in CharToNum {
        chars[i] := CharToNum[chars[i]];
      }
    }
    r := chars[..];
  }

  /** Slot by slot, the corrected text is the cleaned text looked up in the slot's table. */
  lemma CorrectedAt(rawText: string, i: nat)
    requires 6 <= |Clean(rawText)| && i < |Clean(rawText)|
    ensures Corrected(rawText)[i] == Apply(SlotTable(i), Clean(rawText)[i])
  {
  }

  /** The corrected text is still made of plate glyphs only. */
  lemma CorrectedIsPlateText(rawText: string)
    ensures IsPlateText(Corrected(rawText))
  {
    var t := Clean(rawText);
    TablesShape();
    if |t| >= 6 {
      forall i | 0 <= i < |t| ensures IsPlateChar(Corrected(rawText)[i]) {
        ApplyProperties(SlotTable(i), t[i]);
      }
    }
  }

  /**
   * On an input of six or more glyphs, a slot changes exactly when its glyph
   * is a key of its slot's table, it then takes the table's value, and
   * afterwards it holds no key of that table.
   */
  lemma CorrectionBySlot(rawText: string, i: nat)
    requires 6 <= |Clean(rawText)| && i < |Clean(rawText)|
    ensures var t, r, table := Clean(rawText), Corrected(rawText), if i == 2 then NumToChar else CharToNum;
      && (r[i] != t[i] <==> t[i] in table)
      && (t[i] in table ==> r[i] == table[t[i]])
      && r[i] !in table
  {
    TablesShape();
  }

  /** Correcting an already corrected text changes nothing. */
  lemma CorrectedIdempotent(rawText: string)
    ensures Corrected(Corrected(rawText)) == Corrected(rawText)
  {
    var r := Corrected(rawText);
    CorrectedIsPlateText(rawText);
    CleanKeepsPlateText(r);
    TablesShape();
    if |r| >= 6 {
      var t := Clean(rawText);
      forall i | 0 <= i < |r|
        ensures Apply(SlotTable(i), r[i]) == r[i]
      {
        ApplyProperties(SlotTable(i), t[i]);
      }
    }
  }

  // ---------------------------------------------------------------------
  // Formatting
  // ---------------------------------------------------------------------

  /**
   * format_plate: cut to nine glyphs; a motorbike is formatted at nine and
   * eight glyphs, every other type at seven glyphs or more; any other text
   * comes back as cut.
   */
  function FormatPlate(text: string, vehicleType: VehicleType): (r: string)
    ensures |r| <= 12
    ensures |r| >= |Truncate9(text)|
  {
    var t := Truncate9(text);
    if vehicleType == Motorbike then
      if |t| == 9 then t[..2] + "-" + t[2..4] + " " + t[4..7] + "." + t[7..]
      else if |t| == 8 then t[..2] + "-" + t[2..4] + " " + t[4..]
      else t
    else
      if |t| >= 8 then t[..2] + [t[2]] + "-" + t[3..6] + "." + t[6..]
      else if |t| == 7 then t[..2] + [t[2]] + "-" + t[3..]
      else t
  }

  /**
   * The separator layouts on plate text: a motorbike gets NN-XX NNN.NN at
   * nine glyphs and NN-XX NNNN at eight; another type gets NNL-NNN.NNN at
   * nine, NNL-NNN.NN at eight and NNL-NNNN at seven; every other length
   * comes back unformatted.
   */
  lemma FormatLayout(text: string, vehicleType: VehicleType)
    requires IsPlateText(text)
    ensures var t, r := Truncate9(text), FormatPlate(text, vehicleType);
      if vehicleType == Motorbike then
        && (|t| == 9 ==> FitsPattern(r, "##-## ###.##"))
        && (|t| == 8 ==> FitsPattern(r, "##-## ####"))
        && (|t| < 8 ==> r == t)
      else
        && (|t| == 9 ==> FitsPattern(r, "###-###.###"))
        && (|t| == 8 ==> FitsPattern(r, "###-###.##"))
        && (|t| == 7 ==> FitsPattern(r, "###-####"))
        && (|t| < 7 ==> r == t)
  {
    var t := Truncate9(text);
    assert IsPlateText(t);
    assert FormatPlate(text, vehicleType) == FormatPlate(t, vehicleType);
    if vehicleType == Motorbike {
      if |t| == 9 {
        MotorbikeNineLayout(t);
      } else if |t| == 8 {
        MotorbikeEightLayout(t);
      }
    } else {
      if |t| == 9 {
        CarNineLayout(t, vehicleType);
      } else if |t| == 8 {
        CarEightLayout(t, vehicleType);
      } else if |t| == 7 {
        CarSevenLayout(t, vehicleType);
      }
    }
  }

  lemma MotorbikeNineLayout(t: string)
    requires IsPlateText(t) && |t| == 9
    ensures FitsPattern(FormatPlate(t, Motorbike), "##-## ###.##")
  {
    assert Truncate9(t) == t;
  }

  lemma MotorbikeEightLayout(t: string)
    requires IsPlateText(t) && |t| == 8
    ensures FitsPattern(FormatPlate(t, Motorbike), "##-## ####")
  {
    assert Truncate9(t) == t;
  }

  lemma CarNineLayout(t: string, vehicleType: VehicleType)
    requires IsPlateText(t) && |t| == 9 && vehicleType != Motorbike
    ensures FitsPattern(FormatPlate(t, vehicleType), "###-###.###")
  {
    assert Truncate9(t) == t;
  }

  lemma CarEightLayout(t: string, vehicleType: VehicleType)
    requires IsPlateText(t) && |t| == 8 && vehicleType != Motorbike
    ensures FitsPattern(FormatPlate(t, vehicleType), "###-###.##")
  {
    assert Truncate9(t) == t;
  }

  lemma CarSevenLayout(t: string, vehicleType: VehicleType)
    requires IsPlateText(t) && |t| == 7 && vehicleType != Motorbike
    ensures FitsPattern(FormatPlate(t, vehicleType), "###-####")
  {
    assert Truncate9(t) == t;
  }

  /** Deleting the inserted separators gives back the text cut to nine glyphs, whatever the type. */
  lemma FormatRoundTrip(text: string, vehicleType: VehicleType)
    requires HasNoSeparator(text)
    ensures StripSeparators(FormatPlate(text, vehicleType)) == Truncate9(text)
  {
    var t := Truncate9(text);
    assert HasNoSeparator(t);
    assert FormatPlate(text, vehicleType) == FormatPlate(t, vehicleType);
    if vehicleType == Motorbike && 8 <= |t| {
      MotorbikeRoundTrip(t);
    } else if vehicleType != Motorbike && 7 <= |t| {
      CarRoundTrip(t, vehicleType);
    } else {
      StripKeeps(t);
    }
  }

  lemma MotorbikeRoundTrip(t: string)
    requires HasNoSeparator(t) && 8 <= |t| <= 9
    ensures StripSeparators(FormatPlate(t, Motorbike)) == t
  {
    if |t| == 9 {
      StripAfterSeparator(t[..2] + "-" + t[2..4] + " " + t[4..7], '.', t[7..]);
      StripAfterSeparator(t[..2] + "-" + t[2..4], ' ', t[4..7]);
      assert t[..2] + t[2..4] + t[4..7] + t[7..] == t;
    } else {
      StripAfterSeparator(t[..2] + "-" + t[2..4], ' ', t[4..]);
    }
    StripAfterSeparator(t[..2], '-', t[2..4]);
    StripKeeps(t[..2]);
    assert t[..2] + t[2..4] + t[4..] == t;
  }

  lemma CarRoundTrip(t: string, vehicleType: VehicleType)
    requires HasNoSeparator(t) && 7 <= |t| <= 9 && vehicleType != Motorbike
    ensures StripSeparators(FormatPlate(t, vehicleType)) == t
  {
    var head := t[..2] + [t[2]];
    StripKeeps(head);
    if |t| == 7 {
      StripAfterSeparator(head, '-', t[3..]);
      assert head + t[3..] == t;
    } else {
      StripAfterSeparator(head + "-" + t[3..6], '.', t[6..]);
      StripAfterSeparator(head, '-', t[3..6]);
      assert head + t[3..6] + t[6..] == t;
    }
  }
}
