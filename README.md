# Battle screenshot extraction, modelled in Dafny

This project models the deterministic core of a tool that turns a screenshot
of a two-player battle-result screen into one spreadsheet row. The tool is a
Flask app (`app.py`) with a command-line twin (`main.py`). The row holds:

- the date;
- the attacking side's player name, Win/Lose result and six character names;
- one empty column;
- the defending side's player name, result and six character names.

The model covers five parts.

- **Header parsing** (`parse_ocr_text`).
  - The recognised text of the masked frame is split into stripped, non-empty lines.
  - The header block is cut off at the first `"VS"` line.
  - The first two `"Lv."` lines name the left and right player.
  - "Win"/"Lose" go to the sides by the nearest-line rule, with the exact `<=` tie-breaks.
  - Modules `Text`, `HeaderParser` and `HeaderExamples`.
- **`clean_text`**, applied to every character-slot reading: deletes `*`, `\n`, `\r` and then all whitespace. Module `Cleaning`.
- **`mask_regions`**: three rectangles are painted white, in place, on the 1611×696 frame. Module `Frame`.
  - The frame is an `array2<Pixel>` indexed `[y, x]` as numpy indexes it.
  - Each `cv2.rectangle` fill is a pair of nested loops.
- **The fixed geometry** (module `Geometry`): the twelve character regions, the icon region, the template size and numpy's slicing.
- **Record assembly and the sword decision** of `process_image`. Modules `Record` and `Pipeline`.
  - The text recogniser is a function parameter from a pixel grid to a string, and so is the template matcher's best score (a `real`).
  - The timestamp is a string parameter.

`main.py` repeats app.py's logic line for line:

| main.py | app.py |
|---|---|
| 54-60 | 57-63 |
| 86-98 | 89-101 |
| 100-145 | 103-148 |
| 147-158 | 150-161 |
| 160-249 | 163-253 |

The members cited against app.py below model both files.

The one difference that matters is `match_icon`'s default threshold, 0.5 in `main.py` against 0.4 in `app.py`. It is modelled in module `MainScript`.

Python's text primitives are modelled with Python's own definitions:

- the 29 characters of `str.isspace()`;
- the ten line boundaries of `str.splitlines()`, with `"\r\n"` as one boundary;
- `str.strip()`;
- `str.replace(old, "")`, scanning left to right without overlap and without rescanning;
- substring `in` and `startswith`.

There is no Unicode normalisation.

Notes on what `parse_ocr_text` in `app.py` does:

- **Placeholder sides still get results.** With fewer than two `"Lv."` lines, win/lose inference still runs with both sides at index -1. See `HeaderParser.PlaceholderHeader` and the three `Placeholder…` lemmas.
- **Only the literal `"Lv.90"` is removed from a name.** It is not the level prefix in general, so a player at another level keeps it (`HeaderExamples.OtherLevelKept`).
- **The right side's distances are ignored when both keywords appear.** The right side just takes the complement of the left side's result (`HeaderParser.BothKeywordsIgnoreRight`).
- **Without "VS" only the first half of the lines is the header.** The lines `Lv.90 Alice / Win / Lose / Lv.90 Bob`, given as a header block, give the proximity result (`HeaderExamples.ProximityExample`). Given as recognised lines with no `"VS"`, only their first half is kept, so the placeholders are used with "Win" on the left (`HeaderExamples.NoVsExample`).

## Model

| member | source | states |
|---|---|---|
| Text.Strip | app.py:108 | `str.strip()`: neither end of the result is whitespace |
| Text.StripIsSlice | app.py:108 | the strip is the contiguous slice of the text starting where its leading whitespace ends |
| Text.StripDropsSpace | app.py:108 | everything the strip leaves out, before and after the slice, is whitespace |
| Text.SplitLines | app.py:108 | `str.splitlines()`: no produced line contains a line boundary |
| Text.SplitJoinLines | app.py:108 | splitting undoes joining with `"\n"` when no line holds a boundary and the last line is non-empty |
| Text.RemoveAll | app.py:118 | `str.replace(tag, "")`: never lengthens the text |
| Text.RemoveAllAbsent | app.py:118 | a text that does not contain the tag is left as it was |
| Text.RemoveAllShortens | app.py:118 | a text that contains a non-empty tag loses at least the tag's length |
| Text.RemoveAllFirst | app.py:118 | the text before the first occurrence of the tag is kept, that occurrence is deleted, and the scan goes on after it |
| Text.RemoveAllSubsequence | app.py:63 | `str.replace(pat, "")` only deletes characters: the result is a subsequence of the input |
| Text.MissingCharNotContained | app.py:123-124 | a text lacking some character of the pattern does not contain the pattern (the `in` test is false) |
| Cleaning.JoinWordsDeletesSpace | app.py:63 | `"".join(s.split())` deletes exactly the whitespace of `s`, keeping everything else in order |
| Cleaning.CleanTextIsFilter | app.py:57-63 | clean_text keeps exactly the characters other than `*` and whitespace, in their original order |
| Cleaning.CleanTextShape | app.py:57-63 | the output has no `*` and no whitespace and is a subsequence of the input |
| Cleaning.CleanTextIdempotent | app.py:57-63 | cleaning twice equals cleaning once |
| Cleaning.CleanTextKeepsToken | app.py:57-63 | a text without `*` or whitespace is returned unchanged |
| Cleaning.CleanTextJoinsTokens | app.py:57-63 | three tokens with runs of `*`/whitespace after each clean to the three tokens run together |
| Cleaning.CleanTextDocExample | app.py:61 | `"シロコ テ ラー"` cleans to `"シロコテラー"` |
| Cleaning.CleanTextStarExample | app.py:59-63 | `"シロコ* テ\n ラー "` also cleans to `"シロコテラー"` |
| HeaderParser.StrippedNonBlankShape | app.py:108 | every line kept by the strip-and-filter comprehension is non-empty and stripped |
| HeaderParser.LinesShape | app.py:108 | the lines of the text are non-empty and stripped |
| HeaderParser.StrippedNonBlankConcat | app.py:108 | the comprehension works piece by piece: on a concatenation of piece lists it is the concatenation of the two results |
| HeaderParser.StrippedNonBlankOfStripped | app.py:108 | pieces that are already non-empty and stripped are all kept, unchanged and in order |
| HeaderParser.LinesOfJoin | app.py:108 | the lines of a text made by joining non-empty, stripped lines without line boundaries are exactly those lines |
| HeaderParser.IndexOf | app.py:109-112 | `lines.index(x)`: None exactly when `x` is absent, otherwise the first position holding `x` |
| HeaderParser.HeaderBlockSpec | app.py:109-113 | with a `"VS"` line, the block is the prefix before the first `"VS"` and holds no `"VS"`; without one, it is the first `len//2` lines |
| HeaderParser.HeaderBlockBeforeVs | app.py:109-113 | a `"VS"` at position k with none earlier ends the block at k |
| HeaderParser.Positions | app.py:114 | the enumerate-filter: exactly the indices of the lines satisfying the test, increasing |
| HeaderParser.LocatePlayers | app.py:114-122 | fewer than two `"Lv."` lines gives the placeholders at -1; otherwise the first two `"Lv."` lines, in order, named with `"Lv.90"` removed and stripped |
| HeaderParser.LocateFirstTwo | app.py:114-119 | conversely, two `"Lv."` lines with no other before the second are the ones picked |
| HeaderParser.PlayerNameOfTaggedLine | app.py:118-119 | `"Lv.90 " + name` yields `name` when the name is stripped and has no `"Lv.90"` |
| HeaderParser.PlayerNameWithoutTag | app.py:118-119 | a stripped line without `"Lv.90"` is its own player name |
| HeaderParser.MinDist | app.py:126-127 | `min(abs(idx - p) for p)`: attained by some position and no larger than any |
| HeaderParser.Outcomes | app.py:123-147 | the pair is (Win, Lose), (Lose, Win) or ("", ""), and it is empty iff no header line contains "Win" or "Lose" |
| HeaderParser.MinDistCompare | app.py:126-128 | comparing two minimum distances with `<=` is the same as some p-line being at least as close as every q-line |
| HeaderParser.BothKeywordsRule | app.py:125-131 | both keywords: the left side wins iff some "Win" line is at least as close to it as every "Lose" line; otherwise the pair is (Lose, Win) |
| HeaderParser.BothKeywordsIgnoreRight | app.py:125-131 | both keywords: the right side's index does not affect the pair |
| HeaderParser.OnlyWinRule | app.py:132-138 | only "Win": the left side wins iff it is at least as close to a "Win" line as the right side; otherwise (Lose, Win) |
| HeaderParser.OnlyLoseRule | app.py:139-145 | only "Lose": the left side loses iff it is at least as close to a "Lose" line as the right side; otherwise (Win, Lose) |
| HeaderParser.NoPositions | app.py:123-124 | no line satisfying the test means no positions |
| HeaderParser.PlaceholderHeader | app.py:120-122 | with fewer than two `"Lv."` lines the result is the placeholders with the outcomes computed at index -1 for both sides |
| HeaderParser.PlaceholderOnlyWin | app.py:132-138 | both at -1 with only "Win": the distances tie and the left side wins |
| HeaderParser.PlaceholderOnlyLose | app.py:139-145 | both at -1 with only "Lose": the left side loses |
| HeaderParser.PlaceholderBothKeywords | app.py:125-131 | both at -1 with both keywords: the left side wins iff some "Win" line comes no later than every "Lose" line |
| HeaderParser.ParseHeader | app.py:114-148 | on a header block, the results are complementary or both empty, and empty iff no keyword |
| HeaderParser.ParseOcrText | app.py:103-148 | parse_ocr_text: the results are complementary or both empty, and empty iff the header block of the text's lines has no keyword |
| HeaderExamples.LayoutAboveVs | app.py:108-131 | name line, result line, name line, result line, `"VS"`: each side gets the result on the line below its name |
| HeaderExamples.VsExample | app.py:108-148 | `Lv.90 Alice / Win / Lv.90 Bob / Lose / VS` gives (Alice, Win, Bob, Lose) |
| HeaderExamples.OcrTextExample | app.py:103-148 | the same five lines joined by `"\n"` into one recognised text give (Alice, Win, Bob, Lose) through parse_ocr_text |
| HeaderExamples.LayoutWithoutVs | app.py:108-138 | no `"VS"`, and the first half is a line and a "Win" line: placeholders, left side wins |
| HeaderExamples.NoVsExample | app.py:108-138 | `Lv.90 Alice / Win / Lose / Lv.90 Bob` without `"VS"` gives (LeftPlayer, Win, RightPlayer, Lose) |
| HeaderExamples.LayoutResultsBetween | app.py:114-131 | block name, "Win", "Lose", name: the first player wins, the second loses |
| HeaderExamples.ProximityExample | app.py:114-131 | block `Lv.90 Alice / Win / Lose / Lv.90 Bob` gives (Alice, Win, Bob, Lose) |
| HeaderExamples.OtherLevelKept | app.py:114-118 | `"Lv.85 Bob"` is a player line whose name keeps its level |
| HeaderExamples.NamesAreClean | app.py:118-119 | the example names are stripped and contain no `"Lv.90"` |
| Frame.FrameOf | app.py:171 | the frame value has the array's size and its pixels |
| Frame.FillRect | app.py:98-100 | `cv2.rectangle(..., thickness=-1)`: every in-image pixel between the two corners, both included, gets the colour; every other pixel keeps its old value |
| Frame.MaskRegions | app.py:89-101 | mask_regions: the same array is returned; a pixel inside any of the three rectangles is white and every other pixel is unchanged; as a value, the new frame is MaskFrame of the old |
| Frame.MaskFrameIdempotent | app.py:89-101 | masking an already masked frame changes nothing |
| Frame.MaskFrameGrid | app.py:89-101 | masking keeps the frame's size and rectangular shape |
| Frame.MaskWhitensBand | app.py:100 | on a 1611×696 frame, rows 240 to 565 become white from edge to edge (the corner at x=1611 is clipped) |
| Frame.MaskKeeps | app.py:89-101 | a pixel outside the three rectangles is unchanged by masking |
| Frame.CopyFrame | app.py:171 | `image.copy()`: a fresh array of the same size with the same pixels |
| Geometry.Slice | app.py:156 | numpy slicing with non-negative bounds, clipped to the length: element i of the slice is element lo + i |
| Geometry.Crop | app.py:156 | `image[y1:y2, x1:x2]`: row j of the crop is the clipped slice of frame row y1 + j |
| Geometry.CropOfFullFrame | app.py:156 | a region inside a full-size frame is cut out whole, (y2-y1) rows of (x2-x1) pixels, pixel (j, i) being (y1+j, x1+i) |
| Geometry.RegionsInFrame | app.py:211-226 | six regions a side, each inside the 1611×696 frame, all on rows 637 to 680 |
| Geometry.RegionsOrdered | app.py:211-226 | each team's regions run left to right without overlapping |
| Geometry.TeamsApart | app.py:211-226 | left regions end at column 680 or before, right regions start at 922 or later, so no left region meets a right one |
| Geometry.IconFitsTemplate | app.py:186 | the icon region is inside the frame and 80×80, the template's size from app.py:42 |
| Geometry.RegionsUnmasked | app.py:98-100 | the icon region and all twelve character regions avoid the three mask rectangles |
| Geometry.CropRowIgnoresMask | app.py:156 | a row of an unmasked region reads the same from the masked frame |
| Geometry.CropIgnoresMask | app.py:156 | a region avoiding the mask is cut out the same from the masked and the unmasked frame |
| Record.AssembleRow | app.py:239-253 | the row has 3 + 1 + 2 columns beside the character lists, and starts with the date |
| Record.RowLayout | app.py:199-253 | with six slots a side: 18 columns, index 9 empty, columns 1-8 the sword side's name, result and slots, columns 10-17 the other side's, slots in region order |
| Record.SwapSymmetry | app.py:199-244 | no sword on the left gives the row of the mirrored screen with the sword on the left |
| Record.RowResults | app.py:199-253 | a complementary or empty result pair stays one in columns 2 and 11 |
| Record.RowDetermines | app.py:199-253 | once the sword side is known, the row determines the header and both character lists |
| Pipeline.MatchIconMonotone | app.py:47-55 | a higher score or a lower threshold never turns a match into a miss |
| Pipeline.CallSiteThreshold | app.py:195 | at the call site's 0.4 the sword is detected iff the score is at least 0.4; exactly 0.4 counts |
| Pipeline.OcrRegion | app.py:150-161 | ocr_region: the result is exactly the recognised text of the crop with every `*` and whitespace character removed, the rest kept in order |
| Pipeline.OcrRegions | app.py:228-229 | one text per region, in region order; the k-th is the recognised text of the k-th crop with `*` and whitespace removed |
| Pipeline.ProcessFrame | app.py:163-256 | process_image's row has 18 columns and its two results are complementary or both empty |
| Pipeline.RowCharsClean | app.py:228-253 | character columns built from cleaned readings hold only cleaned text |
| Pipeline.RowShape | app.py:228-253 | the row starts with the date, index 9 is empty, and all twelve character columns are cleaned text |
| Pipeline.SwordSideAttacks | app.py:194-253 | score at least 0.4: columns 1-8 are the left side and 10-17 the right; below 0.4: the other way round |
| Pipeline.RowResultsEmpty | app.py:183-253 | both results in the row are empty iff no header line of the masked frame's text mentions "Win" or "Lose" |
| Pipeline.CropsIgnoreMask | app.py:171-229 | the icon decision and the twelve readings are the same whether cut from the masked copy or the frame |
| Pipeline.ProcessImage | app.py:163-256 | the method, which masks a fresh copy and does not modify the frame, returns ProcessFrame of the frame |
| MainScript.CallSiteAgrees | main.py:45-52 | main.py's match_icon with the 0.4 passed at main.py:189 decides as app.py's, for every score |
| MainScript.DefaultWouldDiffer | main.py:45-52 | a score of exactly 0.4 is the sword at the call site but not under main.py's default 0.5 |

## Left out

- preprocess_image (app.py:65-87): grayscale, blur, Otsu threshold, contour search and area resize are OpenCV floating-point work. The frame is taken as given; the full-size lemmas assume the 1611×696 it produces.
- cv2.matchTemplate and cv2.minMaxLoc (app.py:52-53) are a floating-point library computation. The best score is a function parameter; only the `>=` threshold decision is modelled.
- cv2.rectangle's own rasterisation is not visible. Frame.FillRect takes a filled rectangle to cover both corners and to be clipped to the image.
- load_template and get_template_urls (app.py:21-45) are an HTTP download, image decoding and a resize. Only the 80×80 size is kept, as a constant.
- perform_google_vision_ocr comes from ocr_processing, which is not part of this model. It is a function parameter from a pixel grid to a string. The temporary image files around it are not modelled.
- The Flask routes, HTML templates and the NFKC normalisation in the confirm route are web-layer and Unicode-library code.
- spreadsheet_manager.py is spreadsheet persistence, call_gas.py an OAuth flow and HTTP call, and static/script.js browser code.
- update_spreadsheet is spreadsheet persistence. main.py's process_image calls it with the row itself (main.py:251); app.py's process_image hands the row to the confirmation form instead, and the confirm route saves it (app.py:382).
- main.py's main() (main.py:254-261) walks file paths and runs call_gas.py as a subprocess.
- The wall-clock timestamp (app.py:246, main.py:240) is a string parameter.
- All print and imwrite debug output has no effect on the row.
- The two trailing None values of parse_ocr_text are always None and discarded by the caller, so HeaderParser.Header has four fields.
- Pixel channels are 8-bit values. No arithmetic is done on them.
