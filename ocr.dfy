/**
 * Candidate building and selection of the recogniser wrapper
 * (modules/ocr.py, class LicensePlateOCR). The recogniser is a parameter
 * `read` from an image to its text lines; images are values of the type
 * parameter I that the model never looks into.
 */
module Ocr {
  import opened Wrappers
  import opened PlateText
  import PlateUtils
  import StableSort

  datatype Point = Point(x: real, y: real)

  /** A text line's box as the recogniser gives it: four corners, starting top-left and going clockwise. */
  datatype Box = Box(p0: Point, p1: Point, p2: Point, p3: Point)

  /** One recognised line: `[bbox, text, conf]`. */
  datatype Reading = Reading(box: Box, text: string, confidence: real)

  /** One preprocessed rendering of the plate region and the name of the method that produced it. */
  datatype Variant<I> = Variant(image: I, methodName: string)

  /** The `plate_info` dictionary of one candidate. */
  datatype PlateInfo<I> = PlateInfo(
    rawText: string,
    vehicleType: VehicleType,
    cleanText: string,
    formattedText: string,
    is50cc: bool,
    ocrLines: seq<string>,
    preprocessedImage: I,
    preprocessingMethod: string,
    intermediateImages: map<string, I>,
    confidence: real)

  // ---------------------------------------------------------------------
  // Line order
  // ---------------------------------------------------------------------

  /**
   * (y_center, x_center) from the box's first and third corners: each
   * centre lies between the two corners' coordinates.
   */
  function SortKey(item: Reading): (k: StableSort.Key)
    ensures var a, b := item.box.p0, item.box.p2;
      && (a.y <= b.y ==> a.y <= k.0 <= b.y) && (b.y <= a.y ==> b.y <= k.0 <= a.y)
      && (a.x <= b.x ==> a.x <= k.1 <= b.x) && (b.x <= a.x ==> b.x <= k.1 <= a.x)
  {
    ((item.box.p0.y + item.box.p2.y) / 2.0, (item.box.p0.x + item.box.p2.x) / 2.0)
  }

  /**
   * `_sort_ocr_results_top_to_bottom`: the same lines, top row first and left
   * to right within a row; lines with equal centres keep the recogniser's
   * order. Empty input comes back as it is.
   */
  function SortTopToBottom(ocrOutput: seq<Reading>): (r: seq<Reading>)
    ensures multiset(r) == multiset(ocrOutput)
    ensures StableSort.SortedBy(r, SortKey)
    ensures StableSort.Stable(r, ocrOutput, SortKey)
    ensures |ocrOutput| == 0 ==> r == ocrOutput
  {
    if |ocrOutput| == 0 then ocrOutput
    else StableSort.SortBy(ocrOutput, SortKey)
  }

  // ---------------------------------------------------------------------
  // One candidate
  // ---------------------------------------------------------------------

  function Texts(items: seq<Reading>): (lines: seq<string>)
    ensures |lines| == |items|
    ensures forall i :: 0 <= i < |items| ==> lines[i] == items[i].text
  {
    if items == [] then [] else [items[0].text] + Texts(items[1..])
  }

  /** `"".join(lines)`: a single line is itself, and every character comes from some line. */
  function Join(lines: seq<string>): (r: string)
    ensures |lines| == 1 ==> r == lines[0]
    ensures forall c :: c in r <==> exists i :: 0 <= i < |lines| && c in lines[i]
  {
    if lines == [] then []
    else
      var rest := Join(lines[1..]);
      assert forall i :: 1 <= i < |lines| ==> lines[i] == lines[1..][i - 1];
      assert |lines| == 1 ==> rest == [];
      lines[0] + rest
  }

  /** Each line cleaned on its own. */
  function CleanLines(lines: seq<string>): (cleaned: seq<string>)
    ensures |cleaned| == |lines|
    ensures forall i :: 0 <= i < |lines| ==> cleaned[i] == Clean(lines[i])
  {
    seq(|lines|, i requires 0 <= i < |lines| => Clean(lines[i]))
  }

  /** Cleaning the joined lines is joining the lines cleaned one by one. */
  lemma {:induction false} CleanJoin(lines: seq<string>)
    ensures Clean(Join(lines)) == Join(CleanLines(lines))
  {
    if lines != [] {
      CleanConcat(lines[0], Join(lines[1..]));
      CleanJoin(lines[1..]);
      assert CleanLines(lines)[1..] == CleanLines(lines[1..]);
    }
  }

  function SumConfidence(items: seq<Reading>): real {
    if items == [] then 0.0 else items[0].confidence + SumConfidence(items[1..])
  }

  lemma {:induction false} SumConfidenceInsert(x: Reading, s: seq<Reading>)
    ensures SumConfidence(StableSort.Insert(x, s, SortKey)) == x.confidence + SumConfidence(s)
  {
    if s != [] && !StableSort.KeyLe(SortKey(x), SortKey(s[0])) {
      SumConfidenceInsert(x, s[1..]);
    }
  }

  /** Reordering the lines does not change the sum of their confidences. */
  lemma {:induction false} SumConfidenceSorted(s: seq<Reading>)
    ensures SumConfidence(SortTopToBottom(s)) == SumConfidence(s)
  {
    if s != [] {
      SumConfidenceSorted(s[1..]);
      SumConfidenceInsert(s[0], SortTopToBottom(s[1..]));
    }
  }

  /**
   * A motorbike whose cleaned first line has four or more glyphs and does
   * not end in a digit, so that it ends in a letter.
   */
  function FiftyCcFlag(textLines: seq<string>, vehicleType: VehicleType): (flag: bool)
    requires |textLines| > 0
    ensures flag ==> vehicleType == Motorbike
    ensures flag <==> vehicleType == Motorbike && |Clean(textLines[0])| >= 4
                      && IsUpperLetter(Clean(textLines[0])[|Clean(textLines[0])| - 1])
  {
    var line1Clean := Clean(textLines[0]);
    vehicleType == Motorbike && |line1Clean| >= 4 && !IsDigit(line1Clean[|line1Clean| - 1])
  }

  /**
   * `_process_ocr_result`: no candidate and confidence 0.0 for an empty
   * reading; otherwise the candidate built from the sorted lines, whose
   * confidence is the mean of the lines' confidences.
   */
  function ProcessOcrResult<I>(ocrOutput: seq<Reading>, preprocessed: I, methodName: string,
                               intermediates: map<string, I>): (r: (Option<PlateInfo<I>>, real))
    ensures r.0.None? <==> |ocrOutput| == 0
    ensures r.0.None? ==> r.1 == 0.0
    ensures r.0.Some? ==> r.0.value.confidence == r.1
    ensures r.0.Some? ==> r.1 == SumConfidence(ocrOutput) / |ocrOutput| as real
  {
    if |ocrOutput| == 0 then (None, 0.0)
    else
      var sorted := SortTopToBottom(ocrOutput);
      var textLines := Texts(sorted);
      SumConfidenceSorted(ocrOutput);
      var avgConf := if |sorted| > 0 then SumConfidence(sorted) / |sorted| as real else 0.0;
      var vehicleType := PlateUtils.ClassifyVehicle(textLines);
      var is50cc := FiftyCcFlag(textLines, vehicleType);
      var rawText := Join(textLines);
      var cleanText := PlateUtils.Corrected(rawText, is50cc);
      var formattedText := PlateUtils.FormatPlate(cleanText, vehicleType);
      var plateInfo := PlateInfo(rawText, vehicleType, cleanText, formattedText, is50cc, textLines,
                                 preprocessed, methodName, intermediates, avgConf);
      (Some(plateInfo), avgConf)
  }

  /**
   * A candidate's lines are the recognised texts, reordered; its raw text
   * joins them; its clean text is plate text as long as the cleaned raw text;
   * and its formatted text, separators deleted, is the clean text cut to nine
   * glyphs (to eight for a nine-glyph car plate).
   */
  lemma CandidateShape<I>(ocrOutput: seq<Reading>, preprocessed: I, methodName: string,
                          intermediates: map<string, I>)
    requires |ocrOutput| > 0
    ensures var p := ProcessOcrResult(ocrOutput, preprocessed, methodName, intermediates).0.value;
      && multiset(p.ocrLines) == multiset(Texts(ocrOutput))
      && p.rawText == Join(p.ocrLines)
      && Clean(p.rawText) == Join(CleanLines(p.ocrLines))
      && IsPlateText(p.cleanText) && |p.cleanText| == |Clean(p.rawText)|
      && StripSeparators(p.formattedText) ==
           (if p.vehicleType != Motorbike && |p.cleanText| >= 9 then p.cleanText[..8] else Truncate9(p.cleanText))
      && p.preprocessingMethod == methodName && p.preprocessedImage == preprocessed
  {
    var p := ProcessOcrResult(ocrOutput, preprocessed, methodName, intermediates).0.value;
    TextsSorted(ocrOutput);
    CleanJoin(p.ocrLines);
    PlateUtils.CorrectedIsPlateText(p.rawText, p.is50cc);
    PlateTextHasNoSeparator(p.cleanText);
    PlateUtils.FormatRoundTrip(p.cleanText, p.vehicleType);
  }

  lemma {:induction false} TextsInsert(x: Reading, s: seq<Reading>)
    ensures multiset(Texts(StableSort.Insert(x, s, SortKey))) == multiset(Texts(s)) + multiset{x.text}
  {
    if s == [] || StableSort.KeyLe(SortKey(x), SortKey(s[0])) {
      assert Texts(StableSort.Insert(x, s, SortKey)) == [x.text] + Texts(s);
    } else {
      TextsInsert(x, s[1..]);
      assert Texts(StableSort.Insert(x, s, SortKey)) == [s[0].text] + Texts(StableSort.Insert(x, s[1..], SortKey));
      assert Texts(s) == [s[0].text] + Texts(s[1..]);
    }
  }

  /** Sorting reorders the texts and keeps each of them. */
  lemma {:induction false} TextsSorted(s: seq<Reading>)
    ensures multiset(Texts(SortTopToBottom(s))) == multiset(Texts(s))
  {
    if s != [] {
      TextsSorted(s[1..]);
      TextsInsert(s[0], SortTopToBottom(s[1..]));
      assert Texts(s) == [s[0].text] + Texts(s[1..]);
    }
  }

  /**
   * The 50cc flag is raised exactly when there are at least two lines and the
   * cleaned top line has four or more glyphs ending in two letters; so it is
   * raised only on motorbikes.
   */
  lemma Is50ccExactly<I>(ocrOutput: seq<Reading>, preprocessed: I, methodName: string,
                         intermediates: map<string, I>)
    requires |ocrOutput| > 0
    ensures var p := ProcessOcrResult(ocrOutput, preprocessed, methodName, intermediates).0.value;
      var line1 := Clean(p.ocrLines[0]);
      && (p.is50cc <==> |ocrOutput| >= 2 && PlateUtils.EndsInTwoLetters(line1))
      && (p.is50cc ==> p.vehicleType == Motorbike)
  {
    var lines := Texts(SortTopToBottom(ocrOutput));
    FiftyCcFlagExactly(lines);
  }

  /** The flag on the classified lines, stated on the lines alone. */
  lemma FiftyCcFlagExactly(lines: seq<string>)
    requires |lines| > 0
    ensures var line1 := Clean(lines[0]);
      && (FiftyCcFlag(lines, PlateUtils.ClassifyVehicle(lines)) <==>
            |lines| >= 2 && PlateUtils.EndsInTwoLetters(line1))
      && (FiftyCcFlag(lines, PlateUtils.ClassifyVehicle(lines)) ==> PlateUtils.ClassifyVehicle(lines) == Motorbike)
  {
    var line1 := Clean(lines[0]);
    if |line1| >= 4 {
      assert IsPlateChar(line1[|line1| - 1]) && IsPlateChar(line1[|line1| - 2]);
    }
  }

  lemma {:induction false} SumConfidenceBounds(items: seq<Reading>, lo: real, hi: real)
    requires forall i :: 0 <= i < |items| ==> lo <= items[i].confidence <= hi
    ensures lo * |items| as real <= SumConfidence(items) <= hi * |items| as real
  {
    if items != [] {
      SumConfidenceBounds(items[1..], lo, hi);
    }
  }

  lemma MeanBounds(sum: real, n: real, lo: real, hi: real)
    requires n > 0.0 && lo * n <= sum <= hi * n
    ensures lo <= sum / n <= hi
  {
    var mean := sum / n;
    assert mean * n == sum;
    assert (mean - lo) * n == sum - lo * n;
    assert (hi - mean) * n == hi * n - sum;
  }

  /** The candidate's confidence lies between the smallest and the largest line confidence. */
  lemma ConfidenceWithinLines<I>(ocrOutput: seq<Reading>, preprocessed: I, methodName: string,
                                 intermediates: map<string, I>, lo: real, hi: real)
    requires |ocrOutput| > 0
    requires forall i :: 0 <= i < |ocrOutput| ==> lo <= ocrOutput[i].confidence <= hi
    ensures lo <= ProcessOcrResult(ocrOutput, preprocessed, methodName, intermediates).1 <= hi
  {
    SumConfidenceBounds(ocrOutput, lo, hi);
    MeanBounds(SumConfidence(ocrOutput), |ocrOutput| as real, lo, hi);
  }

  // ---------------------------------------------------------------------
  // Validity gate
  // ---------------------------------------------------------------------

  /** `is_valid_plate`: a candidate, formatted longer than five characters, of a known vehicle type. */
  predicate IsValidPlate<I>(plateInfo: Option<PlateInfo<I>>)
    ensures IsValidPlate(plateInfo) <==>
      plateInfo.Some? && |plateInfo.value.formattedText| > 5 && plateInfo.value.vehicleType != Unknown
  {
    match plateInfo
    case None => false
    case Some(info) =>
      if |info.formattedText| <= 5 then false
      else if info.vehicleType == Unknown then false
      else true
  }

  /**
   * A reading yields a valid candidate exactly when it is not empty, its
   * joined text cleans to six glyphs or more, and its vehicle type is known
   * (which fails only for two or more lines whose top line cleans to nothing).
   */
  lemma ValidCandidateExactly<I>(ocrOutput: seq<Reading>, preprocessed: I, methodName: string,
                                 intermediates: map<string, I>)
    ensures var r := ProcessOcrResult(ocrOutput, preprocessed, methodName, intermediates).0;
      IsValidPlate(r) <==>
        && |ocrOutput| > 0
        && |Clean(r.value.rawText)| >= 6
        && !(|ocrOutput| >= 2 && Clean(r.value.ocrLines[0]) == [])
  {
  }

  // ---------------------------------------------------------------------
  // Selection over the variants
  // ---------------------------------------------------------------------

  /** The candidate one variant yields: its image read, then built into a candidate. */
  function CandidateOf<I>(variant: Variant<I>, read: I -> seq<Reading>): (c: Option<PlateInfo<I>>)
    ensures c.None? <==> |read(variant.image)| == 0
    ensures c.Some? ==> && c.value.preprocessedImage == variant.image
                        && c.value.preprocessingMethod == variant.methodName
                        && c.value.intermediateImages == map[variant.methodName := variant.image]
  {
    ProcessOcrResult(read(variant.image), variant.image, variant.methodName, map[variant.methodName := variant.image]).0
  }

  /** CandidateOf as a function value, so that the selection below can be stated for any candidate builder. */
  function CandidateFn<I>(read: I -> seq<Reading>): Variant<I> -> Option<PlateInfo<I>> {
    variant => CandidateOf(variant, read)
  }

  /** The candidate of every variant, in the variants' order. */
  function Outcomes<I>(variants: seq<Variant<I>>, candidate: Variant<I> -> Option<PlateInfo<I>>)
    : (outcomes: seq<Option<PlateInfo<I>>>)
    ensures |outcomes| == |variants|
  {
    seq(|variants|, i requires 0 <= i < |variants| => candidate(variants[i]))
  }

  /** The images of the variants, in their order. */
  function Images<I>(variants: seq<Variant<I>>): (images: seq<I>)
    ensures |images| == |variants|
    ensures forall i :: 0 <= i < |variants| ==> images[i] == variants[i].image
  {
    if variants == [] then [] else Images(variants[..|variants| - 1]) + [variants[|variants| - 1].image]
  }

  /** Reading one more variant reads its image last. */
  lemma ImagesSnoc<I>(variants: seq<Variant<I>>, k: nat)
    requires k < |variants|
    ensures Images(variants[..k + 1]) == Images(variants[..k]) + [variants[k].image]
  {
    assert variants[..k + 1][..k] == variants[..k];
  }

  /** Reading one more variant keeps its candidate, at the end, exactly when it is valid. */
  lemma CollectStep<I>(variants: seq<Variant<I>>, candidate: Variant<I> -> Option<PlateInfo<I>>, k: nat,
                       next: Option<PlateInfo<I>>)
    requires k < |variants| && next == candidate(variants[k])
    ensures ValidCandidates(Outcomes(variants[..k + 1], candidate))
         == ValidCandidates(Outcomes(variants[..k], candidate)) + (if IsValidPlate(next) then [next.value] else [])
  {
    OutcomesSnoc(variants, candidate, k);
    ValidCandidatesSnoc(Outcomes(variants[..k], candidate), next);
  }

  /** Reading one more variant adds its candidate at the end. */
  lemma OutcomesSnoc<I>(variants: seq<Variant<I>>, candidate: Variant<I> -> Option<PlateInfo<I>>, k: nat)
    requires k < |variants|
    ensures Outcomes(variants[..k + 1], candidate) == Outcomes(variants[..k], candidate) + [candidate(variants[k])]
  {
    assert variants[..k + 1][..k] == variants[..k];
  }

  /** The valid candidates among the outcomes, in their order. */
  function ValidCandidates<I>(outcomes: seq<Option<PlateInfo<I>>>): (cands: seq<PlateInfo<I>>)
    ensures |cands| <= |outcomes|
  {
    if outcomes == [] then []
    else
      var init := outcomes[..|outcomes| - 1];
      var last := outcomes[|outcomes| - 1];
      if IsValidPlate(last) then ValidCandidates(init) + [last.value]
      else ValidCandidates(init)
  }

  /** One more outcome adds its candidate at the end when it is valid. */
  lemma ValidCandidatesSnoc<I>(outcomes: seq<Option<PlateInfo<I>>>, next: Option<PlateInfo<I>>)
    ensures ValidCandidates(outcomes + [next])
         == ValidCandidates(outcomes) + (if IsValidPlate(next) then [next.value] else [])
  {
    assert (outcomes + [next])[..|outcomes|] == outcomes;
  }

  /** The positions of the valid outcomes: valid ones only, increasing, and every one of them. */
  function ValidIndices<I>(outcomes: seq<Option<PlateInfo<I>>>): (idx: seq<nat>)
    ensures forall c :: 0 <= c < |idx| ==> idx[c] < |outcomes| && IsValidPlate(outcomes[idx[c]])
    ensures forall c, d :: 0 <= c < d < |idx| ==> idx[c] < idx[d]
    ensures forall i :: 0 <= i < |outcomes| && IsValidPlate(outcomes[i]) ==> i in idx
  {
    if outcomes == [] then []
    else
      var init := outcomes[..|outcomes| - 1];
      assert forall i :: 0 <= i < |init| ==> init[i] == outcomes[i];
      if IsValidPlate(outcomes[|outcomes| - 1]) then ValidIndices(init) + [|outcomes| - 1]
      else ValidIndices(init)
  }

  /** As many candidates are kept as there are valid positions. */
  lemma {:induction false} ValidCountsAgree<I>(outcomes: seq<Option<PlateInfo<I>>>)
    ensures |ValidIndices(outcomes)| == |ValidCandidates(outcomes)|
  {
    if outcomes != [] {
      ValidCountsAgree(outcomes[..|outcomes| - 1]);
    }
  }

  /** The c-th kept candidate is the outcome at the c-th valid position. */
  lemma {:induction false} ValidCandidateAt<I>(outcomes: seq<Option<PlateInfo<I>>>, c: nat)
    requires c < |ValidIndices(outcomes)|
    ensures c < |ValidCandidates(outcomes)|
    ensures outcomes[ValidIndices(outcomes)[c]] == Some(ValidCandidates(outcomes)[c])
    decreases |outcomes|
  {
    var n := |outcomes|;
    var init := outcomes[..n - 1];
    ValidCountsAgree(outcomes);
    ValidCountsAgree(init);
    var o := outcomes[n - 1];
    if IsValidPlate(o) && c == |ValidIndices(init)| {
      assert o == Some(o.value);
    } else {
      ValidCandidateAt(init, c);
      assert outcomes[ValidIndices(init)[c]] == init[ValidIndices(init)[c]];
    }
  }

  /**
   * The kept candidates are the valid outcomes, all of them, in their order:
   * the c-th one is the outcome at the c-th valid position.
   */
  lemma ValidCandidatesExactly<I>(outcomes: seq<Option<PlateInfo<I>>>)
    ensures var cands, idx := ValidCandidates(outcomes), ValidIndices(outcomes);
      && |idx| == |cands|
      && (forall c :: 0 <= c < |idx| ==> outcomes[idx[c]] == Some(cands[c]))
  {
    ValidCountsAgree(outcomes);
    forall c | 0 <= c < |ValidIndices(outcomes)|
      ensures outcomes[ValidIndices(outcomes)[c]] == Some(ValidCandidates(outcomes)[c])
    {
      ValidCandidateAt(outcomes, c);
    }
  }

  /** `reverse=True` on the confidence: a stable ascending sort on the negated confidence. */
  function ConfidenceKey<I>(info: PlateInfo<I>): StableSort.Key {
    (-info.confidence, 0.0)
  }

  /**
   * After the descending stable sort on confidence, the head is the
   * earliest candidate of highest confidence.
   */
  lemma HighestConfidenceFirst<I>(cands: seq<PlateInfo<I>>)
    requires |cands| > 0
    ensures var i := StableSort.FirstLeast(cands, ConfidenceKey);
      && StableSort.SortBy(cands, ConfidenceKey)[0] == cands[i]
      && (forall j :: 0 <= j < |cands| ==> cands[j].confidence <= cands[i].confidence)
      && (forall j :: 0 <= j < i ==> cands[j].confidence < cands[i].confidence)
  {
    StableSort.SortByHead(cands, ConfidenceKey);
    StableSort.FirstLeastIsLeast(cands, ConfidenceKey);
    var i := StableSort.FirstLeast(cands, ConfidenceKey);
    forall j | 0 <= j < |cands| ensures cands[j].confidence <= cands[i].confidence {
      ConfidenceKeyOrder(cands[i], cands[j]);
    }
    forall j | 0 <= j < i ensures cands[j].confidence < cands[i].confidence {
      ConfidenceKeyOrder(cands[j], cands[i]);
    }
  }

  /** The key orders candidates by descending confidence. */
  lemma ConfidenceKeyOrder<I>(a: PlateInfo<I>, b: PlateInfo<I>)
    ensures StableSort.KeyLe(ConfidenceKey(a), ConfidenceKey(b)) <==> b.confidence <= a.confidence
  {
  }

  /**
   * Outcome i is valid and of highest confidence among the valid outcomes,
   * and every valid outcome before it has a strictly lower confidence.
   */
  predicate IsEarliestBest<I>(outcomes: seq<Option<PlateInfo<I>>>, i: int) {
    && 0 <= i < |outcomes| && IsValidPlate(outcomes[i])
    && (forall j :: 0 <= j < |outcomes| && IsValidPlate(outcomes[j]) ==>
          outcomes[j].value.confidence <= outcomes[i].value.confidence)
    && (forall j :: 0 <= j < i && IsValidPlate(outcomes[j]) ==>
          outcomes[j].value.confidence < outcomes[i].value.confidence)
  }

  /** The earliest candidate of highest confidence sits at the earliest best outcome. */
  lemma EarliestBestCandidate<I>(outcomes: seq<Option<PlateInfo<I>>>, c: int)
    requires var cands := ValidCandidates(outcomes);
      && 0 <= c < |cands|
      && (forall j :: 0 <= j < |cands| ==> cands[j].confidence <= cands[c].confidence)
      && (forall j :: 0 <= j < c ==> cands[j].confidence < cands[c].confidence)
    ensures c < |ValidIndices(outcomes)|
    ensures IsEarliestBest(outcomes, ValidIndices(outcomes)[c])
    ensures outcomes[ValidIndices(outcomes)[c]] == Some(ValidCandidates(outcomes)[c])
  {
    var cands, idx := ValidCandidates(outcomes), ValidIndices(outcomes);
    ValidCandidatesExactly(outcomes);
    var i := idx[c];
    forall j | 0 <= j < |outcomes| && IsValidPlate(outcomes[j])
      ensures outcomes[j].value.confidence <= outcomes[i].value.confidence
              && (j < i ==> outcomes[j].value.confidence < outcomes[i].value.confidence)
    {
      assert j in idx;
      var d :| 0 <= d < |idx| && idx[d] == j;
      assert c < d ==> idx[c] < idx[d];
      if j < i {
        assert d < c;
      }
    }
  }

  /** The head of the valid candidates sorted by descending confidence is the earliest best outcome. */
  lemma SortedHeadIsEarliestBest<I>(outcomes: seq<Option<PlateInfo<I>>>)
    requires ValidCandidates(outcomes) != []
    ensures exists i :: IsEarliestBest(outcomes, i)
                        && outcomes[i] == Some(StableSort.SortBy(ValidCandidates(outcomes), ConfidenceKey)[0])
  {
    var cands := ValidCandidates(outcomes);
    HighestConfidenceFirst(cands);
    EarliestBestCandidate(outcomes, StableSort.FirstLeast(cands, ConfidenceKey));
  }

  /** None is kept exactly when no outcome is valid. */
  lemma NoneKeptExactly<I>(outcomes: seq<Option<PlateInfo<I>>>)
    ensures ValidCandidates(outcomes) == [] <==> forall i :: 0 <= i < |outcomes| ==> !IsValidPlate(outcomes[i])
  {
    ValidCandidatesExactly(outcomes);
    var idx := ValidIndices(outcomes);
    if idx != [] {
      assert IsValidPlate(outcomes[idx[0]]);
    }
  }

  /**
   * The loop of `process_plate`: reads every variant once, in order, builds
   * its candidate and keeps the valid ones, in the variants' order.
   */
  method CollectCandidates<I>(variants: seq<Variant<I>>, read: I -> seq<Reading>)
    returns (candidates: seq<PlateInfo<I>>, ghost imagesRead: seq<I>)
    ensures candidates == ValidCandidates(Outcomes(variants, CandidateFn(read)))
    ensures imagesRead == Images(variants)
  {
    candidates := [];
    imagesRead := [];
    for k := 0 to |variants|
      invariant candidates == ValidCandidates(Outcomes(variants[..k], CandidateFn(read)))
      invariant imagesRead == Images(variants[..k])
    {
      var image, methodName := variants[k].image, variants[k].methodName;
      var ocrOutput := read(image);
      imagesRead := imagesRead + [image];
      var intermediates := map[methodName := image];
      var result := ProcessOcrResult(ocrOutput, image, methodName, intermediates);
      var plateInfo, conf := result.0, result.1;
      CollectStep(variants, CandidateFn(read), k, plateInfo);
      ImagesSnoc(variants, k);
      if plateInfo.Some? && IsValidPlate(plateInfo) {
        candidates := candidates + [plateInfo.value];
      }
    }
    assert variants[..|variants|] == variants;
  }

  /**
   * `process_plate`: no candidate when no variant yields a valid one;
   * otherwise the candidate of the earliest variant whose valid candidate
   * has the highest confidence.
   */
  method ProcessPlate<I>(variants: seq<Variant<I>>, read: I -> seq<Reading>)
    returns (best: Option<PlateInfo<I>>, ghost imagesRead: seq<I>)
    ensures imagesRead == Images(variants)
    ensures best.None? <==> forall i :: 0 <= i < |variants| ==> !IsValidPlate(CandidateOf(variants[i], read))
    ensures best.Some? ==> exists i :: IsEarliestBest(Outcomes(variants, CandidateFn(read)), i) && best == CandidateOf(variants[i], read)
  {
    var candidates;
    candidates, imagesRead := CollectCandidates(variants, read);
    ghost var outcomes := Outcomes(variants, CandidateFn(read));
    assert forall i :: 0 <= i < |variants| ==> outcomes[i] == CandidateOf(variants[i], read);
    NoneKeptExactly(outcomes);
    if candidates == [] {
      return None, imagesRead;
    }
    var ordered := StableSort.SortBy(candidates, ConfidenceKey);
    best := Some(ordered[0]);
    SortedHeadIsEarliestBest(outcomes);
  }
}
