/**
 * Where the three versions of the plate helpers (modules/utils.py,
 * utils.py, utils_final.py) part ways: the classification of two-row
 * plates, the layouts, and the correction tables and thresholds.
 */
module VersionDiffs {
  import opened PlateText
  import PlateUtils
  import RootUtils
  import FinalUtils

  /**
   * The two classifiers disagree exactly on two or more lines whose cleaned
   * first line ends in two letters: the live version calls that a
   * motorbike, the earlier one a car.
   */
  lemma ClassifiersDisagreeExactly(lines: seq<string>)
    ensures PlateUtils.ClassifyVehicle(lines) != RootUtils.ClassifyVehicle(lines) <==>
      |lines| >= 2 && PlateUtils.EndsInTwoLetters(Clean(lines[0]))
    ensures PlateUtils.ClassifyVehicle(lines) != RootUtils.ClassifyVehicle(lines) ==>
      PlateUtils.ClassifyVehicle(lines) == Motorbike && RootUtils.ClassifyVehicle(lines) == Car
  {
    if |lines| >= 2 {
      var line1 := Clean(lines[0]);
      if |line1| >= 2 {
        assert IsPlateChar(line1[|line1| - 1]) && IsPlateChar(line1[|line1| - 2]);
      }
    }
  }

  /**
   * On a nine-glyph car plate the live layout is the earlier one without its
   * last glyph: NNL-NNN.NN against NNL-NNN.NNN.
   */
  lemma NineGlyphCarLayouts(text: string, vehicleType: VehicleType)
    requires |text| == 9 && vehicleType != Motorbike
    ensures |RootUtils.FormatPlate(text, vehicleType)| == 11
    ensures PlateUtils.FormatPlate(text, vehicleType) == RootUtils.FormatPlate(text, vehicleType)[..10]
  {
    assert Truncate9(text) == text;
  }

  /** At eight glyphs all three versions lay a car plate out as NNL-NNN.NN. */
  lemma EightGlyphCarLayouts(text: string, vehicleType: VehicleType)
    requires |text| == 8 && vehicleType != Motorbike
    ensures PlateUtils.FormatPlate(text, vehicleType) == RootUtils.FormatPlate(text, vehicleType)
    ensures RootUtils.FormatPlate(text, vehicleType) == FinalUtils.FormatPlate(text)
  {
    assert Truncate9(text) == text;
  }

  /** At nine glyphs all three versions lay a motorbike plate out as NN-XX NNN.NN. */
  lemma NineGlyphMotorbikeLayouts(text: string)
    requires |text| == 9
    ensures PlateUtils.FormatPlate(text, Motorbike) == RootUtils.FormatPlate(text, Motorbike)
    ensures RootUtils.FormatPlate(text, Motorbike) == FinalUtils.FormatPlate(text)
  {
    assert Truncate9(text) == text;
  }

  /**
   * The versions' tables read the same glyph in a digit slot differently:
   * a 'Z' becomes 2 in the live version and 7 in the two earlier ones; a
   * 'C' becomes 6, 0, and stays 'C'.
   */
  lemma DigitSlotReadings(rawText: string, is50cc: bool, i: nat)
    requires 7 <= |Clean(rawText)| && i < 9 && i < |Clean(rawText)| && (i < 2 || 4 <= i)
    ensures Clean(rawText)[i] == 'Z' ==>
      && PlateUtils.Corrected(rawText, is50cc)[i] == '2'
      && RootUtils.Corrected(rawText)[i] == '7'
      && FinalUtils.Corrected(rawText)[i] == '7'
    ensures Clean(rawText)[i] == 'C' ==>
      && PlateUtils.Corrected(rawText, is50cc)[i] == '6'
      && RootUtils.Corrected(rawText)[i] == '0'
      && FinalUtils.Corrected(rawText)[i] == 'C'
  {
    PlateUtils.CorrectedAt(rawText, is50cc, i);
    RootUtils.CorrectedAt(rawText, i);
    FinalUtils.CorrectedAt(rawText, i);
    assert Truncate9(Clean(rawText))[i] == Clean(rawText)[i];
  }

  /**
   * A '0' in the series slot becomes 'D' in the live version and 'O' in the
   * two earlier ones.
   */
  lemma SeriesSlotReadings(rawText: string, is50cc: bool)
    requires 7 <= |Clean(rawText)| && Clean(rawText)[2] == '0'
    ensures PlateUtils.Corrected(rawText, is50cc)[2] == 'D'
    ensures RootUtils.Corrected(rawText)[2] == 'O'
    ensures FinalUtils.Corrected(rawText)[2] == 'O'
  {
    PlateUtils.CorrectedAt(rawText, is50cc, 2);
    RootUtils.CorrectedAt(rawText, 2);
    FinalUtils.CorrectedAt(rawText, 2);
    assert Truncate9(Clean(rawText))[2] == '0';
  }

  /**
   * A text that cleans to six glyphs is corrected by the live and the
   * earlier version but handed back as typed by the last one, separators
   * and lower case included.
   */
  lemma SixGlyphThreshold(rawText: string, is50cc: bool)
    requires |Clean(rawText)| == 6
    ensures |PlateUtils.Corrected(rawText, is50cc)| == 6 && IsPlateText(PlateUtils.Corrected(rawText, is50cc))
    ensures |RootUtils.Corrected(rawText)| == 6 && IsPlateText(RootUtils.Corrected(rawText))
    ensures FinalUtils.Corrected(rawText) == rawText
  {
    PlateUtils.CorrectedIsPlateText(rawText, is50cc);
    RootUtils.CorrectedIsPlateText(rawText);
  }
}
