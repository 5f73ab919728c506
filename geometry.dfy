/** The fixed geometry of process_image (app.py): the twelve character-name
    regions, the sword-icon region and the template size, and the numpy
    slicing that cuts them out of the frame. */
module Geometry {
  import opened Frame

  /** A region (x1, y1, x2, y2), cut out as image[y1:y2, x1:x2]. */
  datatype Region = Region(x1: nat, y1: nat, x2: nat, y2: nat)

  /** The six character slots of the left team, left to right. */
  const LeftRegions: seq<Region> := [
    Region(87, 637, 183, 680),
    Region(186, 637, 280, 680),
    Region(284, 637, 379, 680),
    Region(383, 637, 478, 680),
    Region(481, 637, 576, 680),
    Region(579, 637, 679, 680)
  ]

  /** The six character slots of the right team, left to right. */
  const RightRegions: seq<Region> := [
    Region(922, 637, 1017, 680),
    Region(1020, 637, 1115, 680),
    Region(1118, 637, 1213, 680),
    Region(1216, 637, 1311, 680),
    Region(1314, 637, 1409, 680),
    Region(1412, 637, 1512, 680)
  ]

  /** The sword icon of the left side: preprocessed_img[115:195, 35:115]. */
  const IconRegion := Region(35, 115, 115, 195)

  /** load_template resizes the sword template to 80 by 80. */
  const TemplateSize := 80

  function RegionWidth(r: Region): int { r.x2 - r.x1 }
  function RegionHeight(r: Region): int { r.y2 - r.y1 }

  /** The region is non-empty and lies inside a full-size frame. */
  predicate InFrame(r: Region) {
    r.x1 < r.x2 <= Frame.Width && r.y1 < r.y2 <= Frame.Height
  }

  /** s[lo:hi] for non-negative bounds: both are cut down to |s|, and a
      slice whose start is not before its end is empty. */
  function Slice<T>(s: seq<T>, lo: nat, hi: nat): (r: seq<T>)
    ensures |r| == (if Min(hi, |s|) <= Min(lo, |s|) then 0 else Min(hi, |s|) - lo)
    ensures forall i :: 0 <= i < |r| ==> lo + i < |s| && r[i] == s[lo + i]
  {
    var a, b := Min(lo, |s|), Min(hi, |s|);
    if a < b then s[a..b] else []
  }

  /** image[y1:y2, x1:x2] */
  function Crop(f: seq<seq<Pixel>>, r: Region): (c: seq<seq<Pixel>>)
    ensures |c| == |Slice(f, r.y1, r.y2)|
    ensures forall j :: 0 <= j < |c| ==> r.y1 + j < |f| && c[j] == Slice(f[r.y1 + j], r.x1, r.x2)
  {
    var rows := Slice(f, r.y1, r.y2);
    seq(|rows|, j requires 0 <= j < |rows| => Slice(rows[j], r.x1, r.x2))
  }

  /** On a full-size frame a region inside it is cut out whole: y2 - y1 rows
      of x2 - x1 pixels, pixel (j, i) of the crop being (y1 + j, x1 + i) of
      the frame. */
  lemma CropOfFullFrame(f: seq<seq<Pixel>>, r: Region)
    requires |f| == Frame.Height && IsGrid(f) && |f[0]| == Frame.Width && InFrame(r)
    ensures var c := Crop(f, r);
      && |c| == RegionHeight(r)
      && forall j :: 0 <= j < |c| ==>
           (|c[j]| == RegionWidth(r) && forall i :: 0 <= i < |c[j]| ==> c[j][i] == f[r.y1 + j][r.x1 + i])
  {
    var c := Crop(f, r);
    forall j | 0 <= j < |c| ensures |c[j]| == RegionWidth(r) {
      assert |f[r.y1 + j]| == Frame.Width;
    }
  }

  /** All twelve slots lie inside the frame, on one band of rows. */
  lemma RegionsInFrame()
    ensures |LeftRegions| == 6 && |RightRegions| == 6
    ensures forall k :: 0 <= k < 6 ==> InFrame(LeftRegions[k]) && LeftRegions[k].y1 == 637 && LeftRegions[k].y2 == 680
    ensures forall k :: 0 <= k < 6 ==> InFrame(RightRegions[k]) && RightRegions[k].y1 == 637 && RightRegions[k].y2 == 680
  {
  }

  /** The slots of each team run left to right without overlapping. */
  lemma RegionsOrdered()
    ensures forall k :: 0 <= k < 5 ==> LeftRegions[k].x2 <= LeftRegions[k + 1].x1
    ensures forall k :: 0 <= k < 5 ==> RightRegions[k].x2 <= RightRegions[k + 1].x1
  {
  }

  /** Every left slot ends before column 680 and every right slot starts at
      column 922 or later, so no pixel belongs to a slot of both teams. */
  lemma TeamsApart()
    ensures forall k :: 0 <= k < 6 ==> LeftRegions[k].x2 <= 680 && 922 <= RightRegions[k].x1
    ensures forall k, m :: 0 <= k < 6 && 0 <= m < 6 ==> LeftRegions[k].x2 <= RightRegions[m].x1
  {
  }

  /** The icon region is exactly the size of the template it is matched
      against, and lies inside the frame. */
  lemma IconFitsTemplate()
    ensures InFrame(IconRegion) && RegionWidth(IconRegion) == TemplateSize && RegionHeight(IconRegion) == TemplateSize
  {
  }

  /** No pixel of the region is painted by mask_regions. */
  predicate Unmasked(r: Region) {
    forall y, x :: r.y1 <= y < r.y2 && r.x1 <= x < r.x2 ==> !Masked(x, y)
  }

  /** The icon and every character slot avoid the three mask rectangles. */
  lemma RegionsUnmasked()
    ensures Unmasked(IconRegion)
    ensures forall k :: 0 <= k < 6 ==> Unmasked(LeftRegions[k]) && Unmasked(RightRegions[k])
  {
  }

  /** One row of the crop is the same for the masked frame. */
  lemma CropRowIgnoresMask(f: seq<seq<Pixel>>, r: Region, y: nat)
    requires Unmasked(r) && r.y1 <= y < r.y2 && y < |f|
    ensures Slice(MaskFrame(f)[y], r.x1, r.x2) == Slice(f[y], r.x1, r.x2)
  {
    var sa, sb := Slice(MaskFrame(f)[y], r.x1, r.x2), Slice(f[y], r.x1, r.x2);
    assert |sa| == |sb|;
    forall i | 0 <= i < |sa| ensures sa[i] == sb[i] {
      assert r.x1 + i < r.x2;
      MaskKeeps(f, y, r.x1 + i);
    }
  }

  /** Cutting a region that avoids the mask gives the same pixels whether
      or not the frame was masked first. */
  lemma CropIgnoresMask(f: seq<seq<Pixel>>, r: Region)
    requires Unmasked(r)
    ensures Crop(MaskFrame(f), r) == Crop(f, r)
  {
    var a, b := Crop(MaskFrame(f), r), Crop(f, r);
    assert |a| == |b|;
    forall j | 0 <= j < |a| ensures a[j] == b[j] {
      CropRowIgnoresMask(f, r, r.y1 + j);
    }
  }
}
