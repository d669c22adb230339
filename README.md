# Vietnamese licence-plate post-processing, modelled in Dafny

This project models the text post-processing layer of a Vietnamese
licence-plate reader. An external recogniser returns boxed text lines for
each preprocessed image of a plate. The layer:

- orders those lines top to bottom;
- classifies the vehicle as car ("Ô TÔ"), motorbike ("XE MÁY") or unknown
  ("KHÔNG RÕ") from the lines;
- corrects ambiguous glyphs by position (a letter where the plate needs a
  digit, a digit where it needs a letter);
- re-inserts the separators '-', ' ' and '.';
- builds one candidate per image and keeps the valid ones;
- returns the candidate with the highest mean confidence, ties going to
  the earliest image.

The live version lives in `modules/utils.py` and `modules/ocr.py`. Two
earlier versions of the string helpers, `utils.py` and `utils_final.py`,
are modelled as separate modules so that their differences can be stated
exactly.

Modules:

- `Wrappers` (wrappers.dfy): `Option`.
- `PlateText` (plate_text.dfy): the shared vocabulary.
  - ASCII digits and capitals.
  - `Clean`, the upper-casing filter `re.sub(r'[^A-Z0-9]', '', s.upper())`.
  - The separators and `StripSeparators`, which deletes them.
  - Table lookup `Apply` (`table[c] if c in table else c`).
  - `Truncate9` and layout patterns.
- `StableSort` (stable_sort.dfy): a stable sort by a pair of reals.
  - It stands for Python's `sorted(..., key=...)` and `list.sort`.
  - It is proved to be a sorted, stable permutation.
  - Any sorted, stable permutation is proved to equal it, so the model
    does not depend on the sorting algorithm.
- `PlateUtils` (plate_utils.dfy): `modules/utils.py`.
  - `fix_plate_chars` is an imperative method over a character array,
    proved equal to the function `Corrected`.
- `Ocr` (ocr.dfy): `modules/ocr.py`.
  - The recogniser is a function parameter `read`.
  - Images are values of a type parameter.
  - `process_plate` is a method with the candidate-collecting loop.
- `RootUtils` (root_utils.dfy): `utils.py`.
- `FinalUtils` (final_utils.dfy): `utils_final.py`.
- `VersionDiffs` (version_diffs.dfy): lemmas stating where the three
  versions agree and where they part ways.

Facts about the code that the model keeps:

- **Formatted length.** The formatted text can reach 12 characters
  ("29-A1 123.45"). The cut to nine glyphs happens before the separators
  are inserted.
- **Selection.** Every variant is read. The plain mean confidence of each
  valid candidate decides, and ties go to the earliest variant.
- **Classification.** A single line is a car. With two or more lines,
  only the cleaned first line is looked at: empty, it gives unknown; ending
  in a digit, or of four or more glyphs ending in two letters, it gives a
  motorbike; otherwise a car.
- **Motorbike layout.** In the live formatter, a motorbike plate of six to
  eight glyphs becomes `NN-XX` followed by the rest, whatever the glyph at
  slot 3.

## Model

| member | source | states |
|---|---|---|
| PlateText.ToUpper | modules/utils.py:67 | an ASCII lower-case letter becomes its own capital (same offset from 'A' as from 'a'); every other character is left as it is |
| PlateText.Clean | modules/utils.py:138 | the cleaned text holds only A-Z and 0-9 and is no longer than the input |
| PlateText.CleanChar | modules/utils.py:138 | one character cleans to its capital if it is a lower-case letter, to itself if it is A-Z or 0-9, and to nothing otherwise |
| PlateText.CleanExample | modules/utils.py:138 | "29a-1" cleans to "29A1" |
| PlateText.CleanKeepsPlateText | modules/utils.py:138 | cleaning text that is already A-Z/0-9 returns it unchanged |
| PlateText.CleanConcat | modules/ocr.py:105-106 | cleaning the joined lines is joining the cleaned lines |
| PlateText.ApplyProperties | modules/utils.py:145-147 | a lookup in a letter-to-digit or digit-to-letter table keeps plate glyphs plate glyphs, never yields a key of the table, and a second lookup changes nothing |
| PlateText.Truncate9 | modules/utils.py:200-201 | the result is the first min(9, length) characters of the text |
| StableSort.SortBy | modules/ocr.py:73 | the result is a permutation of the input (same multiset), ordered non-decreasingly by the key, and elements of equal key keep their input order |
| StableSort.SortByIsUnique | modules/ocr.py:73 | any ordering that is sorted by the key and stable equals SortBy's, so any stable sort (such as Python's) returns the same list |
| StableSort.FirstLeastIsLeast | modules/ocr.py:153-155 | the chosen index holds a least key, and every element before it has a strictly greater key |
| StableSort.SortByHead | modules/ocr.py:153-155 | the head of the stably sorted list is the earliest element of least key |
| PlateUtils.TablesShape | modules/utils.py:13-29 | dict_char_to_num maps letters to digits and dict_num_to_char maps digits to letters, so no value is a key of its own table |
| PlateUtils.ClassifyVehicle | modules/utils.py:61-90 | one line is a car; the result is unknown iff there are no lines, or two or more lines whose cleaned first line is empty; it is a motorbike iff there are two or more lines and the cleaned first line ends in a digit, or has at least four glyphs and ends in two letters |
| PlateUtils.ClassifyReadsFirstLineOnly | modules/utils.py:65-90 | with two or more lines, two inputs whose first lines clean alike are classified alike |
| PlateUtils.ParseInt | modules/utils.py:104 | `int()` of a non-empty string of ASCII digits is their decimal value |
| PlateUtils.ParseIntAlphabet | modules/utils.py:103-107 | a string `int()` accepts holds only whitespace, digits, '_', '-' and '+' |
| PlateUtils.ValidateProvinceCode | modules/utils.py:93-107 | true iff `int()` accepts the string and its value is in 11..99; a string `int()` rejects gives false |
| PlateUtils.ProvinceCodeOfTwoGlyphs | modules/utils.py:93-107 | on two plate glyphs the check is true iff both are digits and their value is in 11..99 (first digit not '0', not "10") |
| PlateUtils.ProvinceCodeRejectsLetters | modules/utils.py:103-107 | a string containing a letter makes `int()` fail, so the check answers false |
| PlateUtils.CorrectedAt | modules/utils.py:141-174 | on six or more cleaned glyphs, slot i of the result is the cleaned glyph looked up in the table of slot i (digit table at 0-1 and from 3 or 4 on, letter table at 2 and, for 50cc, at 3) |
| PlateUtils.FixPlateChars | modules/utils.py:110-176 | the in-place slot correction returns exactly Corrected: the cleaned text, unchanged below six glyphs, otherwise each slot looked up in its table; the province check does not affect the result |
| PlateUtils.CorrectRange | modules/utils.py:171-174 | the loop replaces exactly the slots lo..hi-1 that are keys of the table by their values and leaves every other slot untouched |
| PlateUtils.Corrected | modules/utils.py:138-176 | the result has exactly the length of the cleaned input: nothing is cut |
| PlateUtils.CorrectionBySlot | modules/utils.py:145-174 | on six or more glyphs, a slot changes iff its glyph is a key of its slot's table, it then takes the table's value, and it ends up holding no key of that table |
| PlateUtils.CorrectedIsPlateText | modules/utils.py:138-176 | the result contains only A-Z and 0-9 |
| PlateUtils.CorrectedIdempotent | modules/utils.py:138-176 | correcting a corrected text with the same is_50cc gives it back unchanged |
| PlateUtils.FormatPlate | modules/utils.py:179-243 | the result is at most 12 characters long, and longer than 5 iff the input is |
| PlateUtils.FormatLayout | modules/utils.py:199-243 | on plate text cut to nine: a motorbike gives NN-XX NNN.NN at 9 glyphs, NN-XX followed by the rest at 6-8 and the text unchanged below 6; any other type gives NNL-NNN.NN at 8-9, NNL-NNNN at 7 and the text unchanged below 7 |
| PlateUtils.MotorbikeNineLayout | modules/utils.py:203-219 | a nine-glyph motorbike plate is laid out as NN-XX NNN.NN |
| PlateUtils.MotorbikeShortLayout | modules/utils.py:203-228 | a motorbike plate of 6 to 8 glyphs is laid out as NN-XX followed by the remaining glyphs |
| PlateUtils.CarLongLayout | modules/utils.py:230-241 | a non-motorbike plate of 8 or 9 glyphs is laid out as NNL-NNN.NN |
| PlateUtils.CarSevenLayout | modules/utils.py:235-237 | a non-motorbike plate of 7 glyphs is laid out as NNL-NNNN |
| PlateUtils.FormatRoundTrip | modules/utils.py:199-243 | deleting '-', ' ' and '.' from the output on separator-free input gives the input cut to nine, except that a nine-glyph non-motorbike plate gives its first eight |
| PlateUtils.MotorbikeRoundTrip | modules/utils.py:203-228 | deleting the separators from a formatted 6-9 glyph motorbike plate gives the plate back |
| PlateUtils.CarRoundTrip | modules/utils.py:230-241 | deleting the separators from a formatted 7-9 glyph car plate gives the plate back, cut to eight at nine |
| PlateUtils.CarExamples | modules/utils.py:230-241 | 30A12345 becomes 30A-123.45, 30A1234 becomes 30A-1234, 30A123456 becomes 30A-123.45 |
| PlateUtils.MotorbikeExamples | modules/utils.py:183-222 | 29A112345 becomes 29-A1 123.45, 29AA12345 becomes 29-AA 123.45, 29A11234 becomes 29-A1 1234 |
| Ocr.SortTopToBottom | modules/ocr.py:46-74 | the result is a permutation of the lines, ordered by (y centre, x centre) of corners 0 and 2, stable, and empty input is returned as is |
| Ocr.SortKey | modules/ocr.py:65-71 | the key's y lies between the y of corners 0 and 2 and its x between their x (their midpoints) |
| Ocr.Texts | modules/ocr.py:89 | one text per line, the i-th being the i-th line's text |
| Ocr.Join | modules/ocr.py:105 | joining one line gives that line; a character is in the joined text iff it is in one of the lines |
| Ocr.CleanLines | modules/ocr.py:105-106 | one cleaned line per line, the i-th being the i-th line cleaned |
| Ocr.CleanJoin | modules/ocr.py:105-106 | cleaning the joined lines is joining the cleaned lines |
| Ocr.FiftyCcFlag | modules/ocr.py:96-102 | is_50cc is set iff the vehicle is a motorbike and the cleaned first line has at least four glyphs and ends in a letter |
| Ocr.SumConfidenceSorted | modules/ocr.py:85-91 | reordering the lines leaves the sum of their confidences unchanged |
| Ocr.TextsSorted | modules/ocr.py:85-89 | the candidate's lines are the recognised texts, reordered, each kept |
| Ocr.ProcessOcrResult | modules/ocr.py:77-122 | no candidate iff the reading is empty, and then confidence 0.0; otherwise the returned confidence equals the candidate's and is the arithmetic mean of the line confidences |
| Ocr.CandidateShape | modules/ocr.py:104-118 | the lines are a reordering of the recognised texts; raw text joins them, and cleaning it equals joining the cleaned lines; clean text is A-Z/0-9 as long as the cleaned raw text; the formatted text minus separators is the clean text cut to nine (eight for a nine-glyph non-motorbike); method and image are the variant's |
| Ocr.Is50ccExactly | modules/ocr.py:96-102 | is_50cc holds iff there are two or more lines and the cleaned top line has at least four glyphs and ends in two letters (the motorbike first line that ends in a letter); is_50cc implies motorbike |
| Ocr.FiftyCcFlagExactly | modules/ocr.py:96-102 | the same iff, stated on the classified lines alone |
| Ocr.ConfidenceWithinLines | modules/ocr.py:89-91 | the candidate's confidence lies between any lower and upper bound of the line confidences |
| Ocr.IsValidPlate | modules/ocr.py:163-181 | a candidate is valid iff there is one, its formatted text is longer than five characters, and its vehicle type is not unknown |
| Ocr.ValidCandidateExactly | modules/ocr.py:163-181 | a reading gives a valid candidate iff it is non-empty, its joined text cleans to at least six glyphs and its vehicle type is not unknown |
| Ocr.CandidateOf | modules/ocr.py:134-143 | a variant gives no candidate iff its image reads as nothing; a candidate carries the variant's image and method, and the one-entry dictionary from the method to the image |
| Ocr.Images | modules/ocr.py:134-136 | the i-th image read is the i-th variant's image, one per variant |
| Ocr.CollectStep | modules/ocr.py:143-146 | reading one more variant appends its candidate to the kept ones iff it is valid |
| Ocr.ValidCandidatesSnoc | modules/ocr.py:145-146 | one more outcome appends its candidate iff it is valid |
| Ocr.ValidIndices | modules/ocr.py:145-146 | the valid positions: each is a valid outcome, they increase, and every valid outcome's position is among them |
| Ocr.ValidCountsAgree | modules/ocr.py:145-146 | as many candidates are kept as there are valid positions |
| Ocr.ValidCandidateAt | modules/ocr.py:145-146 | the c-th kept candidate is the outcome at the c-th valid position |
| Ocr.ValidCandidatesExactly | modules/ocr.py:132-146 | the kept candidates are the valid outcomes, all of them and in variant order: one per valid position, the c-th being the outcome at the c-th |
| Ocr.NoneKeptExactly | modules/ocr.py:148-150 | nothing is kept iff no variant gives a valid candidate |
| Ocr.ConfidenceKeyOrder | modules/ocr.py:153 | the sort key orders candidates by descending confidence |
| Ocr.HighestConfidenceFirst | modules/ocr.py:152-155 | after the descending stable sort the head has the highest confidence, and every earlier candidate has a strictly lower one |
| Ocr.EarliestBestCandidate | modules/ocr.py:148-155 | the earliest kept candidate of highest confidence is the outcome of the earliest variant of highest valid confidence |
| Ocr.SortedHeadIsEarliestBest | modules/ocr.py:152-155 | the head of the sorted kept candidates is the candidate of the earliest variant whose valid candidate has the highest confidence |
| Ocr.CollectCandidates | modules/ocr.py:132-146 | the loop reads every variant once, in order, and keeps exactly the valid candidates, in variant order |
| Ocr.ProcessPlate | modules/ocr.py:124-161 | every variant's image is read once, in order; the result is None iff no variant gives a valid candidate; otherwise it is the candidate of a variant whose valid candidate has the highest confidence, every earlier valid one having strictly less |
| RootUtils.TablesShape | utils.py:13-25 | both tables of this version map letters to digits and digits to letters respectively |
| RootUtils.ClassifyVehicle | utils.py:28-46 | one line is a car; unknown iff no lines or an empty cleaned first line among two or more; motorbike iff two or more lines and the cleaned first line ends in a digit (no 50cc case) |
| RootUtils.FixPlateChars | utils.py:49-77 | the in-place correction returns Corrected: the cleaned text, unchanged below six glyphs, else digit table at 0-1 and from 3 on, letter table at 2 |
| RootUtils.Corrected | utils.py:54-77 | the result has exactly the length of the cleaned input |
| RootUtils.CorrectedAt | utils.py:62-75 | on six or more cleaned glyphs, slot i of the result is the cleaned glyph looked up in the table of slot i |
| RootUtils.CorrectedIsPlateText | utils.py:54-77 | the result contains only A-Z and 0-9 |
| RootUtils.CorrectionBySlot | utils.py:62-75 | a slot changes iff its glyph is a key of its slot's table, takes the table's value, and holds no key of that table afterwards |
| RootUtils.CorrectedIdempotent | utils.py:54-77 | correcting twice equals correcting once |
| RootUtils.FormatPlate | utils.py:80-96 | the result is at most 12 characters and never shorter than the text cut to nine |
| RootUtils.FormatLayout | utils.py:80-96 | motorbike: NN-XX NNN.NN at 9, NN-XX NNNN at 8, unchanged below; other types: NNL-NNN.NNN at 9, NNL-NNN.NN at 8, NNL-NNNN at 7, unchanged below |
| RootUtils.MotorbikeNineLayout | utils.py:84-86 | a nine-glyph motorbike plate is laid out as NN-XX NNN.NN |
| RootUtils.MotorbikeEightLayout | utils.py:87-88 | an eight-glyph motorbike plate is laid out as NN-XX NNNN |
| RootUtils.CarNineLayout | utils.py:91-92 | a nine-glyph car plate keeps its ninth glyph: NNL-NNN.NNN |
| RootUtils.CarEightLayout | utils.py:91-92 | an eight-glyph car plate is laid out as NNL-NNN.NN |
| RootUtils.CarSevenLayout | utils.py:93-94 | a seven-glyph car plate is laid out as NNL-NNNN |
| RootUtils.FormatRoundTrip | utils.py:80-96 | deleting the separators from the output on separator-free input gives the input cut to nine, for every vehicle type |
| RootUtils.MotorbikeRoundTrip | utils.py:84-88 | deleting the separators from a formatted 8-9 glyph motorbike plate gives the plate back |
| RootUtils.CarRoundTrip | utils.py:90-94 | deleting the separators from a formatted 7-9 glyph car plate gives the plate back |
| FinalUtils.TablesShape | utils_final.py:13-25 | both tables of this version map letters to digits and digits to letters respectively |
| FinalUtils.Corrected | utils_final.py:28-66 | below seven cleaned glyphs the raw text itself is returned; otherwise the result is as long as the cleaned text cut to nine |
| FinalUtils.FixPlateChars | utils_final.py:28-66 | the in-place correction returns Corrected: raw text below seven cleaned glyphs, else the cleaned text cut to nine with digit table at 0-1 and from 3 on and letter table at 2 |
| FinalUtils.CorrectedAt | utils_final.py:50-64 | on seven or more cleaned glyphs, slot i of the result is the glyph of the text cut to nine looked up in the table of slot i |
| FinalUtils.CorrectedIsPlateText | utils_final.py:34-66 | from seven cleaned glyphs on, the result is A-Z/0-9 of length 7 to 9 |
| FinalUtils.CorrectionBySlot | utils_final.py:50-64 | a slot of the cut text changes iff its glyph is a key of its slot's table, takes the value, and holds no key of that table afterwards |
| FinalUtils.CorrectedIdempotent | utils_final.py:28-66 | correcting twice equals correcting once, on both branches |
| FinalUtils.FormatPlate | utils_final.py:69-100 | the result is at most 12 characters and never shorter than the text cut to nine |
| FinalUtils.FormatLayout | utils_final.py:78-100 | on plate text: NN-XX NNN.NN at 9 glyphs, NNL-NNN.NN at 8, NNL-NNNN at 7, unchanged below |
| FinalUtils.NineGlyphLayout | utils_final.py:82-85 | a nine-glyph plate is laid out as NN-XX NNN.NN |
| FinalUtils.EightGlyphLayout | utils_final.py:87-93 | an eight-glyph plate is laid out as NNL-NNN.NN |
| FinalUtils.SevenGlyphLayout | utils_final.py:95-98 | a seven-glyph plate is laid out as NNL-NNNN |
| FinalUtils.FormatRoundTrip | utils_final.py:78-100 | deleting the separators from the output on separator-free input gives the input cut to nine |
| FinalUtils.MotorbikeExample | utils_final.py:83-85 | 59P112345 becomes 59-P1 123.45 |
| FinalUtils.EightGlyphExample | utils_final.py:88-93 | 30K12345 becomes 30K-123.45 |
| FinalUtils.SevenGlyphExample | utils_final.py:96-98 | 30A1234 becomes 30A-1234 |
| VersionDiffs.ClassifiersDisagreeExactly | modules/utils.py:72-88 | the live and the earlier classifier disagree iff there are two or more lines and the cleaned first line has at least four glyphs ending in two letters; the live one then says motorbike, the earlier one car |
| VersionDiffs.NineGlyphCarLayouts | modules/utils.py:239-241 | on nine glyphs the live car layout is the earlier one (11 characters) without its last glyph |
| VersionDiffs.EightGlyphCarLayouts | modules/utils.py:231-233 | on eight glyphs all three versions give the same car layout |
| VersionDiffs.NineGlyphMotorbikeLayouts | modules/utils.py:217-219 | on nine glyphs all three versions give the same motorbike layout |
| VersionDiffs.DigitSlotReadings | modules/utils.py:13-22 | in a digit slot a 'Z' reads 2 in the live version and 7 in both earlier ones; a 'C' reads 6, 0, and stays 'C' |
| VersionDiffs.SeriesSlotReadings | modules/utils.py:25-29 | a '0' in the series slot reads 'D' in the live version and 'O' in both earlier ones |
| VersionDiffs.SixGlyphThreshold | utils_final.py:36-38 | a text cleaning to six glyphs is corrected to six plate glyphs by the live and the first earlier version, but returned as typed by the last one |

## Left out

- The GUI and web front ends, vehicle detection, image preprocessing and geometry, logging, and the configuration and re-export modules are not part of this model.
- `process_and_predict` in utils.py and utils_final.py is not part of this model (detector, recogniser and drawing on a pixel buffer).
- The recogniser (`read_text`, EasyOCR) is a foreign call. It is the parameter `read`, a total function from an image to its boxed lines. Images are opaque values of a type parameter.
- `preprocess_for_ocr` is not modelled. `Ocr.ProcessPlate` takes the list of (image, method) variants as input, which is how `process_plate` iterates it.
- The debug `print` in `process_plate` (modules/ocr.py:158-159) is output only and is left out.
- Ocr.ProcessPlate: "each variant is read exactly once, in order" is stated through a ghost sequence of the images passed to `read`. The recogniser's own side effects are not modelled.
- Character handling is ASCII only. `str.upper()`, `isdigit()` and the whitespace `int()` strips are modelled on ASCII; non-ASCII letters and digits (which Python would upper-case, or accept as digits) are outside the model.
- PlateUtils.ValidateProvinceCode: `int()` is modelled for ASCII text only (whitespace trim, one optional sign, digits with single underscores between them).
- Confidences and box coordinates are real numbers. There is no floating-point rounding and no NaN; the mean and the comparisons are exact.
- StableSort.SortBy is an insertion sort, not Timsort. `StableSort.SortByIsUnique` shows that any stable sort by the same key yields the same list, so the choice does not matter.
- Python's `list.sort(key=..., reverse=True)` is modelled as a stable ascending sort on the negated confidence, which keeps the same tie order.
- The `intermediate_images` dictionary holds just the variant's own image, as `process_plate` builds it. It is carried as a value and never inspected.
