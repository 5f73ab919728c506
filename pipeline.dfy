/** process_image (app.py) with its services as parameters: the text
    recogniser is a function from a pixel grid to its text, the template
    matcher a function from the icon crop to its best score, and the
    timestamp a string. */
module Pipeline {
  import opened Text
  import opened Cleaning
  import opened HeaderParser
  import opened Frame
  import opened Geometry
  import opened Record

  /** match_icon: the icon is the sword when the best match score reaches
      the threshold; app.py's default threshold is 0.4. */
  function MatchIcon(maxVal: real, thresh: real := 0.4): bool {
    maxVal >= thresh
  }

  /** A higher score never turns a match into a miss, nor does a lower
      threshold. */
  lemma MatchIconMonotone(v: real, w: real, t: real, u: real)
    requires v <= w && u <= t
    ensures MatchIcon(v, t) ==> MatchIcon(w, u)
  {
  }

  /** The call site's threshold 0.4: a score of exactly 0.4 is the sword,
      any lower score is not. */
  lemma CallSiteThreshold(v: real)
    ensures MatchIcon(v, 0.4) <==> v >= 0.4
    ensures MatchIcon(0.4, 0.4)
  {
  }

  /** ocr_region: the recognised text of image[y1:y2, x1:x2], cleaned. */
  function OcrRegion(f: seq<seq<Pixel>>, r: Region, ocr: seq<seq<Pixel>> -> string): (t: string)
    ensures IsToken(t)
    ensures IsSubsequence(t, ocr(Crop(f, r)))
    ensures t == Filter(ocr(Crop(f, r)), IsTokenChar)
  {
    var text := ocr(Crop(f, r));
    CleanTextShape(text);
    CleanTextIsFilter(text);
    CleanText(text)
  }

  /** [ocr_region(image, region) for region in regions] */
  function OcrRegions(f: seq<seq<Pixel>>, rs: seq<Region>, ocr: seq<seq<Pixel>> -> string): (ts: seq<string>)
    ensures |ts| == |rs|
    ensures forall k :: 0 <= k < |ts| ==> IsToken(ts[k])
    ensures forall k :: 0 <= k < |ts| ==> ts[k] == Filter(ocr(Crop(f, rs[k])), IsTokenChar)
  {
    seq(|rs|, k requires 0 <= k < |rs| => OcrRegion(f, rs[k], ocr))
  }

  /** The header of a frame: the recognised text of the masked frame,
      parsed. */
  function HeaderOf(f: seq<seq<Pixel>>, ocr: seq<seq<Pixel>> -> string): (h: Header)
    ensures IsResultPair(h.leftResult, h.rightResult)
  {
    ParseOcrText(ocr(MaskFrame(f)))
  }

  /** Whether the left side's icon slot shows the sword. */
  function LeftHasSword(f: seq<seq<Pixel>>, score: seq<seq<Pixel>> -> real): bool {
    MatchIcon(score(Crop(f, IconRegion)), 0.4)
  }

  /** process_image on a preprocessed frame. */
  function ProcessFrame(f: seq<seq<Pixel>>, ocr: seq<seq<Pixel>> -> string, score: seq<seq<Pixel>> -> real, date: string): (row: seq<string>)
    ensures |row| == 18
    ensures IsResultPair(row[2], row[11])
  {
    var header := HeaderOf(f, ocr);
    var leftHasSword := LeftHasSword(f, score);
    var leftChars := OcrRegions(f, LeftRegions, ocr);
    var rightChars := OcrRegions(f, RightRegions, ocr);
    var row := AssembleRow(date, header, leftHasSword, leftChars, rightChars);
    RowResults(date, header, leftHasSword, leftChars, rightChars);
    row
  }

  /** A row built from cleaned slot texts holds only cleaned texts in its
      character columns. */
  lemma RowCharsClean(date: string, h: Header, leftHasSword: bool, lc: seq<string>, rc: seq<string>)
    requires |lc| == 6 && |rc| == 6
    requires forall k :: 0 <= k < 6 ==> IsToken(lc[k]) && IsToken(rc[k])
    ensures var row := AssembleRow(date, h, leftHasSword, lc, rc);
      forall k :: 3 <= k < 9 || 12 <= k < 18 ==> IsToken(row[k])
  {
    var row := AssembleRow(date, h, leftHasSword, lc, rc);
    RowLayout(date, h, leftHasSword, lc, rc);
    assert forall k :: 3 <= k < 9 ==> row[k] == AttackOf(row).chars[k - 3];
    assert forall k :: 12 <= k < 18 ==> row[k] == DefenseOf(row).chars[k - 12];
  }

  /** The row starts with the date, its tenth column is empty, and every
      character column holds a cleaned text without '*' or whitespace. */
  lemma RowShape(f: seq<seq<Pixel>>, ocr: seq<seq<Pixel>> -> string, score: seq<seq<Pixel>> -> real, date: string)
    ensures var row := ProcessFrame(f, ocr, score, date);
      && row[0] == date && row[9] == ""
      && forall k :: 3 <= k < 9 || 12 <= k < 18 ==> IsToken(row[k])
  {
    var h := HeaderOf(f, ocr);
    var lc, rc := OcrRegions(f, LeftRegions, ocr), OcrRegions(f, RightRegions, ocr);
    RowLayout(date, h, LeftHasSword(f, score), lc, rc);
    RowCharsClean(date, h, LeftHasSword(f, score), lc, rc);
  }

  /** The side whose icon slot matches the sword fills columns B to I with
      its name, result and character slots; the other side fills K to R. */
  lemma SwordSideAttacks(f: seq<seq<Pixel>>, ocr: seq<seq<Pixel>> -> string, score: seq<seq<Pixel>> -> real, date: string)
    ensures var row := ProcessFrame(f, ocr, score, date);
      var h := HeaderOf(f, ocr);
      var lc, rc := OcrRegions(f, LeftRegions, ocr), OcrRegions(f, RightRegions, ocr);
      && (score(Crop(f, IconRegion)) >= 0.4 ==> AttackOf(row) == LeftSide(h, lc) && DefenseOf(row) == RightSide(h, rc))
      && (score(Crop(f, IconRegion)) < 0.4 ==> AttackOf(row) == RightSide(h, rc) && DefenseOf(row) == LeftSide(h, lc))
  {
    var h := HeaderOf(f, ocr);
    var lc, rc := OcrRegions(f, LeftRegions, ocr), OcrRegions(f, RightRegions, ocr);
    RowLayout(date, h, LeftHasSword(f, score), lc, rc);
  }

  /** Both results in the row are empty exactly when no header line of the
      masked frame's text mentions "Win" or "Lose". */
  lemma RowResultsEmpty(f: seq<seq<Pixel>>, ocr: seq<seq<Pixel>> -> string, score: seq<seq<Pixel>> -> real, date: string)
    ensures var row := ProcessFrame(f, ocr, score, date);
      (row[2] == "" && row[11] == "") <==> NoKeyword(HeaderBlock(Lines(ocr(MaskFrame(f)))))
  {
    var h := HeaderOf(f, ocr);
    var lc, rc := OcrRegions(f, LeftRegions, ocr), OcrRegions(f, RightRegions, ocr);
    RowLayout(date, h, LeftHasSword(f, score), lc, rc);
  }

  /** The icon and the character slots lie outside the mask, so cutting
      them from the masked frame would read the same pixels: the copy that
      process_image masks changes none of them. */
  lemma CropsIgnoreMask(f: seq<seq<Pixel>>, ocr: seq<seq<Pixel>> -> string, score: seq<seq<Pixel>> -> real)
    ensures LeftHasSword(MaskFrame(f), score) == LeftHasSword(f, score)
    ensures OcrRegions(MaskFrame(f), LeftRegions, ocr) == OcrRegions(f, LeftRegions, ocr)
    ensures OcrRegions(MaskFrame(f), RightRegions, ocr) == OcrRegions(f, RightRegions, ocr)
  {
    RegionsUnmasked();
    CropIgnoresMask(f, IconRegion);
    forall k | 0 <= k < 6
      ensures OcrRegion(MaskFrame(f), LeftRegions[k], ocr) == OcrRegion(f, LeftRegions[k], ocr)
      ensures OcrRegion(MaskFrame(f), RightRegions[k], ocr) == OcrRegion(f, RightRegions[k], ocr)
    {
      CropIgnoresMask(f, LeftRegions[k]);
      CropIgnoresMask(f, RightRegions[k]);
    }
  }

  /** process_image after preprocessing: the header is read from a masked
      copy, the icon and the twelve slots from the frame itself, which the
      method does not change. */
  method ProcessImage(img: array2<Pixel>, ocr: seq<seq<Pixel>> -> string, score: seq<seq<Pixel>> -> real, date: string)
    returns (row: seq<string>)
    ensures row == ProcessFrame(FrameOf(img), ocr, score, date)
  {
    var copy := CopyFrame(img);
    var masked := MaskRegions(copy);
    var fullText := ocr(FrameOf(masked));
    var header := ParseOcrText(fullText);
    var iconRoi := Crop(FrameOf(img), IconRegion);
    var leftHasSword := MatchIcon(score(iconRoi), 0.4);
    var leftChars := OcrRegions(FrameOf(img), LeftRegions, ocr);
    var rightChars := OcrRegions(FrameOf(img), RightRegions, ocr);
    row := AssembleRow(date, header, leftHasSword, leftChars, rightChars);
  }
}
