/**
 * The live plate helpers of the package (modules/utils.py): vehicle
 * classification from the recogniser's lines, the province-code check,
 * positional correction of ambiguous glyphs and separator re-insertion.
 */
module PlateUtils {
  import opened Wrappers
  import opened PlateText

  // ---------------------------------------------------------------------
  // Confusion tables
  // ---------------------------------------------------------------------

  /** Letters read where the plate must hold a digit, and the digit meant. */
  const CharToNum: map<char, char> := map[
    'I' := '1', 'L' := '1', 'T' := '1',
    'O' := '0', 'Q' := '0', 'D' := '0', 'U' := '0',
    'B' := '8', 'E' := '8',
    'S' := '5',
    'Z' := '2', 'R' := '2',
    'G' := '6', 'C' := '6',
    'A' := '4',
    'J' := '3'
  ]

  /** Digits read where the plate must hold a letter, and the letter meant. */
  const NumToChar: map<char, char> := map[
    '0' := 'D', '1' := 'I', '2' := 'Z',
    '3' := 'B', '4' := 'A', '5' := 'S',
    '6' := 'G', '8' := 'B'
  ]

  /** The letter-to-digit table only maps letters to digits, and the other table the reverse. */
  lemma TablesShape()
    ensures LettersToDigits(CharToNum) && DigitsToLetters(NumToChar)
    ensures IsConfusionTable(CharToNum) && IsConfusionTable(NumToChar)
  {
    assert LettersToDigits(CharToNum);
    assert DigitsToLetters(NumToChar);
  }

  // ---------------------------------------------------------------------
  // Vehicle classification
  // ---------------------------------------------------------------------

  /** A cleaned first line of four or more glyphs ending in two letters, as on a 50cc plate ("29AA"). */
  predicate EndsInTwoLetters(line1: string) {
    |line1| >= 4 && IsUpperLetter(line1[|line1| - 1]) && IsUpperLetter(line1[|line1| - 2])
  }

  /**
   * The first line of a two-row motorbike plate: it ends in a digit
   * ("29A1"), or it ends in two letters with four or more glyphs ("29AA").
   */
  predicate IsMotorbikeFirstLine(line1: string) {
    |line1| > 0 && (IsDigit(line1[|line1| - 1]) || EndsInTwoLetters(line1))
  }

  /**
   * One line is a car; no line is unknown; otherwise the cleaned first line
   * decides: empty is unknown, a motorbike first line is a motorbike, and
   * anything else ("37A") is a two-row car plate.
   */
  function ClassifyVehicle(lines: seq<string>): (v: VehicleType)
    ensures |lines| == 1 ==> v == Car
    ensures v == Unknown <==> |lines| == 0 || (|lines| >= 2 && Clean(lines[0]) == [])
    ensures v == Motorbike <==> |lines| >= 2 && IsMotorbikeFirstLine(Clean(lines[0]))
  {
    if |lines| == 1 then Car
    else if |lines| >= 2 then
      var line1 := Clean(lines[0]);
      if |line1| == 0 then Unknown
      else
        var last := line1[|line1| - 1];
        if IsDigit(last) then Motorbike
        else if |line1| >= 4 && !IsDigit(line1[|line1| - 2]) then Motorbike
        else Car
    else Unknown
  }

  /** With two or more lines, only the first line is looked at. */
  lemma ClassifyReadsFirstLineOnly(lines: seq<string>, other: seq<string>)
    requires |lines| >= 2 && |other| >= 2 && Clean(lines[0]) == Clean(other[0])
    ensures ClassifyVehicle(lines) == ClassifyVehicle(other)
  {
  }

  // ---------------------------------------------------------------------
  // Province code
  // ---------------------------------------------------------------------

  /** VALID_PROVINCE_CODES: the numbers 11 to 99. */
  const ValidProvinceCodes: set<int> := set n: int | 11 <= n < 100

  /** The characters `int()` strips from both ends (ASCII whitespace, including the separators 0x1C-0x1F). */
  predicate IsPySpace(c: char) {
    c == ' ' || 9 <= c as int <= 13 || 28 <= c as int <= 31
  }

  function TrimLeft(s: string): (r: string)
    ensures |r| <= |s|
  {
    if s != [] && IsPySpace(s[0]) then TrimLeft(s[1..]) else s
  }

  function TrimRight(s: string): (r: string)
    ensures |r| <= |s|
  {
    if s != [] && IsPySpace(s[|s| - 1]) then TrimRight(s[..|s| - 1]) else s
  }

  /** Trimming removes whitespace only: every other character of s stays. */
  lemma {:induction false} TrimKeeps(s: string, c: char)
    requires c in s && !IsPySpace(c)
    ensures c in TrimLeft(s) && c in TrimRight(s)
  {
    if s != [] && IsPySpace(s[0]) {
      assert s == [s[0]] + s[1..];
      TrimKeeps(s[1..], c);
      assert c in TrimLeft(s);
    }
    if s != [] && IsPySpace(s[|s| - 1]) {
      assert s == s[..|s| - 1] + [s[|s| - 1]];
      TrimKeeps(s[..|s| - 1], c);
    }
  }

  /** A base-10 literal as `int()` reads it: digits, with single underscores between digits. */
  predicate IsDecimalLiteral(t: string) {
    |t| > 0 && IsDigit(t[0]) && IsDigit(t[|t| - 1]) &&
    (forall i :: 0 <= i < |t| ==> IsDigit(t[i]) || t[i] == '_') &&
    (forall i :: 0 <= i < |t| - 1 ==> !(t[i] == '_' && t[i + 1] == '_'))
  }

  /** The value of the digits of t, underscores skipped. */
  function DigitsValue(t: string): int
    requires forall i :: 0 <= i < |t| ==> IsDigit(t[i]) || t[i] == '_'
  {
    if t == [] then 0
    else if t[|t| - 1] == '_' then DigitsValue(t[..|t| - 1])
    else 10 * DigitsValue(t[..|t| - 1]) + (t[|t| - 1] as int - '0' as int)
  }

  /**
   * Python's `int(s)` on ASCII text: None where it raises ValueError. A
   * string of digits alone reads as its decimal value.
   */
  function ParseInt(s: string): (r: Option<int>)
    ensures |s| > 0 && (forall i :: 0 <= i < |s| ==> IsDigit(s[i])) ==> r == Some(DigitsValue(s))
  {
    var t := TrimRight(TrimLeft(s));
    var signed := |t| > 0 && (t[0] == '-' || t[0] == '+');
    var digits := if signed then t[1..] else t;
    if IsDecimalLiteral(digits) then
      var n := DigitsValue(digits);
      var value: int := if signed && t[0] == '-' then -n else n;
      Some(value)
    else None
  }

  /** A string `int()` accepts holds only whitespace, a sign, digits and underscores. */
  lemma ParseIntAlphabet(s: string, i: nat)
    requires i < |s| && ParseInt(s).Some?
    ensures IsPySpace(s[i]) || IsDigit(s[i]) || s[i] == '_' || s[i] == '-' || s[i] == '+'
  {
    var c := s[i];
    if !IsPySpace(c) {
      var t := TrimRight(TrimLeft(s));
      TrimKeeps(s, c);
      TrimKeeps(TrimLeft(s), c);
      var signed := |t| > 0 && (t[0] == '-' || t[0] == '+');
      var digits := if signed then t[1..] else t;
      if signed {
        assert t == [t[0]] + t[1..];
      }
      if c in digits {
        var j :| 0 <= j < |digits| && digits[j] == c;
      }
    }
  }

  /**
   * `int(code_str) in VALID_PROVINCE_CODES`, with every parse error answered
   * False: the check holds exactly when the text reads as a number from 11 to 99.
   */
  function ValidateProvinceCode(codeStr: string): (valid: bool)
    ensures valid <==> ParseInt(codeStr).Some? && 11 <= ParseInt(codeStr).value <= 99
  {
    match ParseInt(codeStr)
    case None => false
    case Some(code) => code in ValidProvinceCodes
  }

  /**
   * On two plate glyphs, as the corrector passes it, the check accepts exactly
   * two digits that do not start with '0' and are not "10".
   */
  lemma ProvinceCodeOfTwoGlyphs(code: string)
    requires |code| == 2 && IsPlateText(code)
    ensures ValidateProvinceCode(code) <==>
      IsDigit(code[0]) && IsDigit(code[1]) && code[0] != '0' && code != "10"
  {
    assert IsPlateChar(code[0]) && IsPlateChar(code[1]);
    assert TrimLeft(code) == code;
    assert TrimRight(code) == code;
    if IsDigit(code[0]) && IsDigit(code[1]) {
      assert IsDecimalLiteral(code);
      assert code[..1][..0] == [];
      assert DigitsValue(code[..1]) == code[0] as int - '0' as int;
      assert DigitsValue(code) == 10 * (code[0] as int - '0' as int) + (code[1] as int - '0' as int);
      assert code == "10" <==> code[0] == '1' && code[1] == '0';
    } else {
      assert !IsDecimalLiteral(code);
    }
  }

  /** A string holding any letter is no integer, so it is never a valid code. */
  lemma ProvinceCodeRejectsLetters(codeStr: string, i: nat)
    requires i < |codeStr| && IsUpperLetter(codeStr[i])
    ensures !ValidateProvinceCode(codeStr)
  {
    if ParseInt(codeStr).Some? {
      ParseIntAlphabet(codeStr, i);
    }
  }

  // ---------------------------------------------------------------------
  // Positional glyph correction
  // ---------------------------------------------------------------------

  /** The slots that must hold a letter: the series letter, and on a 50cc plate the second one. */
  predicate IsLetterSlot(i: nat, is50cc: bool) {
    i == 2 || (i == 3 && is50cc)
  }

  /** The table the corrector consults at slot i. */
  function SlotTable(i: nat, is50cc: bool): map<char, char> {
    if IsLetterSlot(i, is50cc) then NumToChar else CharToNum
  }

  /** Each glyph of text looked up in its slot's table, the slots numbered from `first`. */
  function CorrectSlots(text: string, first: nat, is50cc: bool): (r: string)
    ensures |r| == |text|
  {
    if text == [] then []
    else [Apply(SlotTable(first, is50cc), text[0])] + CorrectSlots(text[1..], first + 1, is50cc)
  }

  lemma {:induction false} CorrectSlotsAt(text: string, first: nat, is50cc: bool, i: nat)
    requires i < |text|
    ensures CorrectSlots(text, first, is50cc)[i] == Apply(SlotTable(first + i, is50cc), text[i])
  {
    if i > 0 {
      CorrectSlotsAt(text[1..], first + 1, is50cc, i - 1);
    }
  }

  /** A text whose every slot is the slot's lookup is the corrected text. */
  lemma CorrectSlotsExactly(s: string, text: string, is50cc: bool)
    requires |s| == |text|
    requires forall j :: 0 <= j < |s| ==> s[j] == Apply(SlotTable(j, is50cc), text[j])
    ensures s == CorrectSlots(text, 0, is50cc)
  {
    forall j | 0 <= j < |text| ensures s[j] == CorrectSlots(text, 0, is50cc)[j] {
      CorrectSlotsAt(text, 0, is50cc, j);
    }
  }

  /**
   * What fix_plate_chars returns: the cleaned text, and when it has at least
   * six glyphs, each slot looked up in its slot's table.
   */
  function Corrected(rawText: string, is50cc: bool): (r: string)
    ensures |r| == |Clean(rawText)|
  {
    var text := Clean(rawText);
    if |text| < 6 then text else CorrectSlots(text, 0, is50cc)
  }

  /** Slot by slot, the corrected text is the cleaned text looked up in the slot's table. */
  lemma CorrectedAt(rawText: string, is50cc: bool, i: nat)
    requires 6 <= |Clean(rawText)| && i < |Clean(rawText)|
    ensures Corrected(rawText, is50cc)[i] == Apply(SlotTable(i, is50cc), Clean(rawText)[i])
  {
    CorrectSlotsAt(Clean(rawText), 0, is50cc, i);
  }

  /**
   * Copies the cleaned text into a buffer and corrects it slot by slot:
   * slots 0-1 as digits, slot 2 as a letter, slot 3 as a letter on a 50cc
   * plate, the rest as digits. The province check it runs on the way has no
   * effect on the result.
   */
  method FixPlateChars(rawText: string, is50cc: bool) returns (r: string)
    ensures r == Corrected(rawText, is50cc)
    ensures |Clean(rawText)| < 6 ==> r == Clean(rawText)
  {
    var text := Clean(rawText);
    var chars := new char[|text|](i requires 0 <= i < |text| => text[i]);
    if chars.Length < 6 {
      return text;
    }
    CorrectRange(chars, 0, 2, CharToNum);
    // fix_plate_chars checks the province code here and then ignores the answer.
    var provinceCodeValid := ValidateProvinceCode(chars[0..2]);
    if chars[2] in NumToChar {
      chars[2] := NumToChar[chars[2]];
    }
    var startIndexForNumbers := 3;
    if is50cc {
      if chars.Length > 3 {
        if chars[3] in NumToChar {
          chars[3] := NumToChar[chars[3]];
        }
      }
      startIndexForNumbers := 4;
    }
    CorrectRange(chars, startIndexForNumbers, chars.Length, CharToNum);
    r := chars[..];
    CorrectSlotsExactly(r, text, is50cc);
  }

  /** Looks every slot from lo up to hi up in the table, in place. */
  method CorrectRange(chars: array<char>, lo: nat, hi: nat, table: map<char, char>)
    requires lo <= hi <= chars.Length
    modifies chars
    ensures forall j :: 0 <= j < chars.Length ==>
      chars[j] == if lo <= j < hi then Apply(table, old(chars[j])) else old(chars[j])
  {
    for i := lo to hi
      invariant forall j :: 0 <= j < chars.Length ==>
        chars[j] == if lo <= j < i then Apply(table, old(chars[j])) else old(chars[j])
    {
      if chars[i] in table {
        chars[i] := table[chars[i]];
      }
    }
  }

  /**
   * On an input of six or more glyphs, a slot changes exactly when its glyph
   * is a key of its slot's table, it then takes the table's value, and
   * afterwards it holds no key of that table: a digit slot holds no letter
   * the table knows, a letter slot no digit the table knows.
   */
  lemma CorrectionBySlot(rawText: string, is50cc: bool, i: nat)
    requires 6 <= |Clean(rawText)| && i < |Clean(rawText)|
    ensures var t, r, table := Clean(rawText), Corrected(rawText, is50cc),
                               if IsLetterSlot(i, is50cc) then NumToChar else CharToNum;
      && (r[i] != t[i] <==> t[i] in table)
      && (t[i] in table ==> r[i] == table[t[i]])
      && r[i] !in table
  {
    TablesShape();
    CorrectedAt(rawText, is50cc, i);
  }

  /** The corrected text is still made of plate glyphs only. */
  lemma CorrectedIsPlateText(rawText: string, is50cc: bool)
    ensures IsPlateText(Corrected(rawText, is50cc))
  {
    var t := Clean(rawText);
    TablesShape();
    if |t| >= 6 {
      forall i | 0 <= i < |t| ensures IsPlateChar(Corrected(rawText, is50cc)[i]) {
        CorrectedAt(rawText, is50cc, i);
        ApplyProperties(SlotTable(i, is50cc), t[i]);
      }
    }
  }

  /** Correcting an already corrected text changes nothing. */
  lemma CorrectedIdempotent(rawText: string, is50cc: bool)
    ensures Corrected(Corrected(rawText, is50cc), is50cc) == Corrected(rawText, is50cc)
  {
    var r := Corrected(rawText, is50cc);
    CorrectedIsPlateText(rawText, is50cc);
    CleanKeepsPlateText(r);
    TablesShape();
    if |r| >= 6 {
      var t := Clean(rawText);
      forall i | 0 <= i < |r|
        ensures Corrected(r, is50cc)[i] == r[i]
      {
        CorrectedAt(rawText, is50cc, i);
        CorrectedAt(r, is50cc, i);
        ApplyProperties(SlotTable(i, is50cc), t[i]);
      }
    }
  }

  // ---------------------------------------------------------------------
  // Formatting
  // ---------------------------------------------------------------------

  /**
   * format_plate: cut to nine glyphs, then insert '-', ' ' and '.' by
   * vehicle type and length. Every type other than motorbike takes the car
   * layouts.
   */
  function FormatPlate(text: string, vehicleType: VehicleType): (r: string)
    ensures |r| <= 12
    ensures |r| > 5 <==> |text| > 5
  {
    var t := Truncate9(text);
    if vehicleType == Motorbike then
      if |t| >= 6 && !IsDigit(t[3]) then
        // a letter at slot 3: the two-letter series of a 50cc plate
        if |t| == 9 then t[..2] + "-" + t[2..4] + " " + t[4..7] + "." + t[7..]
        else if |t| == 8 then t[..2] + "-" + t[2..4] + " " + t[4..]
        else t[..2] + "-" + t[2..4] + " " + t[4..]
      else
        // a digit at slot 3: a series letter followed by a digit
        if |t| == 9 then t[..2] + "-" + t[2..4] + " " + t[4..7] + "." + t[7..]
        else if |t| == 8 then t[..2] + "-" + t[2..4] + " " + t[4..]
        else if |t| == 7 then t[..2] + "-" + t[2..4] + " " + t[4..]
        else if |t| >= 6 then t[..2] + "-" + t[2..4] + " " + t[4..]
        else t
    else
      // every other type: the car layouts, a ninth glyph dropped
      if |t| == 8 then t[..2] + [t[2]] + "-" + t[3..6] + "." + t[6..]
      else if |t| == 7 then t[..2] + [t[2]] + "-" + t[3..]
      else if |t| == 9 then t[..2] + [t[2]] + "-" + t[3..6] + "." + t[6..8]
      else t
  }

  /**
   * The separator layouts on plate text: a motorbike gets NN-XX NNN.NN at nine
   * glyphs and NN-XX followed by the rest at six to eight; a car gets
   * NNL-NNN.NN at eight or nine glyphs and NNL-NNNN at seven; every other
   * length comes back unformatted.
   */
  lemma FormatLayout(text: string, vehicleType: VehicleType)
    requires IsPlateText(text)
    ensures var t, r := Truncate9(text), FormatPlate(text, vehicleType);
      if vehicleType == Motorbike then
        && (|t| == 9 ==> FitsPattern(r, "##-## ###.##"))
        && (6 <= |t| <= 8 ==> FitsPattern(r, "##-## " + Glyphs(|t| - 4)))
        && (|t| < 6 ==> r == t)
      else
        && (8 <= |t| ==> FitsPattern(r, "###-###.##"))
        && (|t| == 7 ==> FitsPattern(r, "###-####"))
        && (|t| < 7 ==> r == t)
  {
    var t := Truncate9(text);
    assert IsPlateText(t);
    assert FormatPlate(text, vehicleType) == FormatPlate(t, vehicleType);
    if vehicleType == Motorbike {
      if |t| == 9 {
        MotorbikeNineLayout(t);
      } else if 6 <= |t| {
        MotorbikeShortLayout(t);
      }
    } else {
      if 8 <= |t| {
        CarLongLayout(t, vehicleType);
      } else if |t| == 7 {
        CarSevenLayout(t, vehicleType);
      }
    }
  }

  lemma MotorbikeNineLayout(t: string)
    requires IsPlateText(t) && |t| == 9
    ensures FitsPattern(FormatPlate(t, Motorbike), "##-## ###.##")
  {
    assert Truncate9(t) == t;
  }

  lemma MotorbikeShortLayout(t: string)
    requires IsPlateText(t) && 6 <= |t| <= 8
    ensures FitsPattern(FormatPlate(t, Motorbike), "##-## " + Glyphs(|t| - 4))
  {
    assert Truncate9(t) == t;
  }

  lemma CarLongLayout(t: string, vehicleType: VehicleType)
    requires IsPlateText(t) && 8 <= |t| <= 9 && vehicleType != Motorbike
    ensures FitsPattern(FormatPlate(t, vehicleType), "###-###.##")
  {
    assert Truncate9(t) == t;
  }

  lemma CarSevenLayout(t: string, vehicleType: VehicleType)
    requires IsPlateText(t) && |t| == 7 && vehicleType != Motorbike
    ensures FitsPattern(FormatPlate(t, vehicleType), "###-####")
  {
    assert Truncate9(t) == t;
  }

  /**
   * Deleting the inserted separators gives back the text cut to nine
   * glyphs, except that a nine-glyph car plate loses its ninth glyph.
   */
  lemma FormatRoundTrip(text: string, vehicleType: VehicleType)
    requires HasNoSeparator(text)
    ensures StripSeparators(FormatPlate(text, vehicleType)) ==
      if vehicleType != Motorbike && |Truncate9(text)| == 9 then text[..8] else Truncate9(text)
  {
    var t := Truncate9(text);
    assert HasNoSeparator(t);
    if vehicleType == Motorbike && |t| >= 6 {
      MotorbikeRoundTrip(t);
      assert FormatPlate(text, vehicleType) == FormatPlate(t, Motorbike);
    } else if vehicleType != Motorbike && 7 <= |t| {
      CarRoundTrip(t, vehicleType);
      assert FormatPlate(text, vehicleType) == FormatPlate(t, vehicleType);
    } else {
      StripKeeps(t);
    }
  }

  lemma MotorbikeRoundTrip(t: string)
    requires HasNoSeparator(t) && 6 <= |t| <= 9
    ensures StripSeparators(FormatPlate(t, Motorbike)) == t
  {
    if |t| == 9 {
      StripAfterSeparator(t[..2] + "-" + t[2..4] + " " + t[4..7], '.', t[7..]);
      StripAfterSeparator(t[..2] + "-" + t[2..4], ' ', t[4..7]);
      assert t[..2] + t[2..4] + t[4..7] + t[7..] == t;
    } else {
      StripAfterSeparator(t[..2] + "-" + t[2..4], ' ', t[4..]);
    }
    StripAfterSeparator(t[..2], '-', t[2..4]);
    StripKeeps(t[..2]);
    assert t[..2] + t[2..4] + t[4..] == t;
  }

  lemma CarRoundTrip(t: string, vehicleType: VehicleType)
    requires HasNoSeparator(t) && 7 <= |t| <= 9 && vehicleType != Motorbike
    ensures StripSeparators(FormatPlate(t, vehicleType)) == t[..if |t| == 9 then 8 else |t|]
  {
    var head := t[..2] + [t[2]];
    StripKeeps(head);
    if |t| == 7 {
      StripAfterSeparator(head, '-', t[3..]);
      assert head + t[3..] == t;
    } else {
      var tail := if |t| == 8 then t[6..] else t[6..8];
      StripAfterSeparator(head + "-" + t[3..6], '.', tail);
      StripAfterSeparator(head, '-', t[3..6]);
      assert head + t[3..6] + t[6..] == t;
      assert head + t[3..6] + t[6..8] == t[..8];
    }
  }

  /** The car layouts format_plate documents with examples. */
  lemma CarExamples()
    ensures FormatPlate("30A12345", Car) == "30A-123.45"
    ensures FormatPlate("30A1234", Car) == "30A-1234"
    ensures FormatPlate("30A123456", Car) == "30A-123.45"
  {
    assert Truncate9("30A12345") == "30A12345";
    assert Truncate9("30A1234") == "30A1234";
    assert Truncate9("30A123456") == "30A123456";
  }

  /** The motorbike layouts format_plate documents with examples. */
  lemma MotorbikeExamples()
    ensures FormatPlate("29A112345", Motorbike) == "29-A1 123.45"
    ensures FormatPlate("29AA12345", Motorbike) == "29-AA 123.45"
    ensures FormatPlate("29A11234", Motorbike) == "29-A1 1234"
  {
    assert Truncate9("29A112345") == "29A112345";
    assert Truncate9("29AA12345") == "29AA12345";
    assert Truncate9("29A11234") == "29A11234";
  }
}
