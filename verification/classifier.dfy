/**
  The per-cell colour classifier: a cell of the schedule table is cut into a
  left half (first half-hour) and a right half (second half-hour); each half
  is tested for red (certain outage) and yellow (possible outage) by counting
  matching pixels, and the four answers are combined into one status.
*/
module CellClassifier {
  import opened Statuses

  type Channel = c: int | 0 <= c < 256

  /** A pixel in OpenCV's blue, green, red channel order. */
  datatype Pixel = Pixel(b: Channel, g: Channel, r: Channel)

  /** An image or a crop of one: rows of pixels, top to bottom. */
  type Image = seq<seq<Pixel>>

  /** Every row as wide as the first, as for any numpy image array. */
  predicate Rectangular(img: Image) {
    forall i :: 0 <= i < |img| ==> |img[i]| == |img[0]|
  }

  function Height(img: Image): nat {
    |img|
  }

  function Width(img: Image): nat {
    if |img| == 0 then 0 else |img[0]|
  }

  function Min(a: int, b: int): int {
    if a <= b then a else b
  }

  /** The length of numpy's `s[a:b]` for a sequence of length `n` and non-negative bounds. */
  function SliceLength(n: nat, a: nat, b: nat): nat {
    if b <= a || n <= a then 0 else Min(b, n) - a
  }

  /** numpy's `s[a:b]` for non-negative bounds: the bounds are clamped to the sequence. */
  function Slice<T>(s: seq<T>, a: nat, b: nat): (r: seq<T>)
    ensures |r| == SliceLength(|s|, a, b)
    ensures forall k :: 0 <= k < |r| ==> a + k < |s| && r[k] == s[a + k]
  {
    if b <= a || |s| <= a then [] else s[a..Min(b, |s|)]
  }

  /** numpy's `img[top:bottom, left:right]`. */
  function Crop(img: Image, top: nat, bottom: nat, left: nat, right: nat): (c: Image)
    requires Rectangular(img)
    ensures Rectangular(c)
    ensures Height(c) == SliceLength(Height(img), top, bottom)
    ensures Height(c) > 0 ==> Width(c) == SliceLength(Width(img), left, right)
    ensures forall i, j :: 0 <= i < Height(c) && 0 <= j < Width(c) ==>
              top + i < Height(img) && left + j < Width(img) && c[i][j] == img[top + i][left + j]
  {
    var rows := Slice(img, top, bottom);
    seq(|rows|, i requires 0 <= i < |rows| => Slice(rows[i], left, right))
  }

  // Colour thresholds (policy constants of the recognizer).
  const RED_MIN_R := 150
  const RED_MAX_G := 100
  const RED_MAX_B := 100
  const RED_MARGIN := 50
  const YELLOW_MIN_R := 150
  const YELLOW_MIN_G := 150
  const YELLOW_MAX_B := 150
  const YELLOW_MAX_SPREAD := 50

  /** A half counts as coloured when more than 3/10 of its inner pixels match. */
  const SHARE_NUM := 3
  const SHARE_DEN := 10

  /** Size floors and border insets, in pixels. */
  const CELL_MIN := 10
  const CELL_INSET := 3
  const SECTION_MIN := 5
  const SECTION_INSET := 2

  /** numpy `uint8` addition wraps modulo 256. */
  function Wrap8(x: int): int {
    x % 256
  }

  function Abs(x: int): nat {
    if x < 0 then -x else x
  }

  /** The red mask; `g + 50` and `b + 50` are computed on `uint8` channels. */
  predicate IsRed(p: Pixel) {
    && p.r > RED_MIN_R
    && p.g < RED_MAX_G
    && p.b < RED_MAX_B
    && p.r > Wrap8(p.g + RED_MARGIN)
    && p.r > Wrap8(p.b + RED_MARGIN)
  }

  /** The yellow mask; the difference is taken on `int`, so it does not wrap. */
  predicate IsYellow(p: Pixel) {
    && p.r > YELLOW_MIN_R
    && p.g > YELLOW_MIN_G
    && p.b < YELLOW_MAX_B
    && Abs(p.r - p.g) < YELLOW_MAX_SPREAD
  }

  datatype Colour = Red | Yellow

  predicate Matches(c: Colour, p: Pixel) {
    match c
    case Red => IsRed(p)
    case Yellow => IsYellow(p)
  }

  /** The wrap-around of `uint8` never matters: G and B are already below 100. */
  lemma RedWithoutWrap(p: Pixel)
    ensures IsRed(p) <==> p.r > 150 && p.g < 100 && p.b < 100 && p.r > p.g + 50 && p.r > p.b + 50
  {
  }

  /** Red needs G below 100 and yellow needs G above 150, so no pixel is both. */
  lemma RedIsNotYellow(p: Pixel)
    ensures !(Matches(Red, p) && Matches(Yellow, p))
  {
  }

  /** The number of pixels in `row` that match `c`. */
  function CountInRow(c: Colour, row: seq<Pixel>): (n: nat)
    ensures n <= |row|
  {
    if row == [] then 0
    else CountInRow(c, row[..|row| - 1]) + (if Matches(c, row[|row| - 1]) then 1 else 0)
  }

  function PixelCount(img: Image): nat {
    if img == [] then 0 else PixelCount(img[..|img| - 1]) + |img[|img| - 1]|
  }

  /** The number of pixels in `img` that match `c` (numpy's `np.sum(mask)`); never more than there are pixels. */
  function CountIn(c: Colour, img: Image): (n: nat)
    ensures n <= PixelCount(img)
  {
    if img == [] then 0 else CountIn(c, img[..|img| - 1]) + CountInRow(c, img[|img| - 1])
  }

  lemma {:induction false} PixelCountOfRectangle(img: Image)
    requires Rectangular(img)
    ensures PixelCount(img) == Height(img) * Width(img)
  {
    if img != [] {
      var front := img[..|img| - 1];
      assert Rectangular(front);
      PixelCountOfRectangle(front);
      assert Width(front) == (if front == [] then 0 else Width(img));
    }
  }

  predicate AllMatch(c: Colour, img: Image) {
    forall i, j :: 0 <= i < |img| && 0 <= j < |img[i]| ==> Matches(c, img[i][j])
  }

  predicate NoneMatch(c: Colour, img: Image) {
    forall i, j :: 0 <= i < |img| && 0 <= j < |img[i]| ==> !Matches(c, img[i][j])
  }

  lemma {:induction false} CountInRowBounds(c: Colour, row: seq<Pixel>)
    ensures (forall j :: 0 <= j < |row| ==> Matches(c, row[j])) ==> CountInRow(c, row) == |row|
    ensures (forall j :: 0 <= j < |row| ==> !Matches(c, row[j])) ==> CountInRow(c, row) == 0
  {
    if row != [] {
      CountInRowBounds(c, row[..|row| - 1]);
    }
  }

  lemma {:induction false} CountInBounds(c: Colour, img: Image)
    ensures AllMatch(c, img) ==> CountIn(c, img) == PixelCount(img)
    ensures NoneMatch(c, img) ==> CountIn(c, img) == 0
  {
    if img != [] {
      var front := img[..|img| - 1];
      CountInBounds(c, front);
      CountInRowBounds(c, img[|img| - 1]);
      assert AllMatch(c, img) ==> AllMatch(c, front);
      assert NoneMatch(c, img) ==> NoneMatch(c, front);
    }
  }

  /** The result of `_is_red_section` / `_is_yellow_section`: the verdict and the two counts. */
  datatype SectionResult = SectionResult(found: bool, count: nat, total: nat)

  /** The inner part of a section that is inspected: a 2-pixel border is cut off. */
  function SectionInner(section: Image): (inner: Image)
    requires Rectangular(section) && Height(section) >= SECTION_MIN && Width(section) >= SECTION_MIN
  {
    Crop(section, SECTION_INSET, Height(section) - SECTION_INSET, SECTION_INSET, Width(section) - SECTION_INSET)
  }

  /**
    Whether a section of a cell shows colour `c`: false for an empty section or
    one under 5 x 5; otherwise true exactly when more than 30 % of the pixels
    of the inner crop match, with the count never above the total.
  */
  function TestSection(c: Colour, section: Image): (r: SectionResult)
    requires Rectangular(section)
    ensures r.count <= r.total
    ensures r.found <==> SHARE_DEN * r.count > SHARE_NUM * r.total
    ensures r.found ==> Height(section) >= SECTION_MIN && Width(section) >= SECTION_MIN
    ensures Height(section) >= SECTION_MIN && Width(section) >= SECTION_MIN ==>
              && r.total == (Height(section) - 2 * SECTION_INSET) * (Width(section) - 2 * SECTION_INSET)
              && r.count == CountIn(c, SectionInner(section))
  {
    var h, w := Height(section), Width(section);
    if h * w == 0 then SectionResult(false, 0, 0)
    else if h < SECTION_MIN || w < SECTION_MIN then SectionResult(false, 0, 0)
    else
      var crop := SectionInner(section);
      if Height(crop) * Width(crop) == 0 then SectionResult(false, 0, 0)
      else
        PixelCountOfRectangle(crop);
        var total := Height(crop) * Width(crop);
        var count := CountIn(c, crop);
        SectionResult(SHARE_DEN * count > SHARE_NUM * total, count, total)
  }

  /** The cell without its 3-pixel border (against grid-line bleed). */
  function InnerCell(cell: Image): Image
    requires Rectangular(cell) && Height(cell) >= CELL_MIN && Width(cell) >= CELL_MIN
  {
    Crop(cell, CELL_INSET, Height(cell) - CELL_INSET, CELL_INSET, Width(cell) - CELL_INSET)
  }

  /** The left half of the inner cell: the first half-hour. */
  function LeftHalf(cell: Image): Image
    requires Rectangular(cell) && Height(cell) >= CELL_MIN && Width(cell) >= CELL_MIN
  {
    var crop := InnerCell(cell);
    Crop(crop, 0, Height(crop), 0, Width(crop) / 2)
  }

  /** The right half of the inner cell (the wider one when the width is odd): the second half-hour. */
  function RightHalf(cell: Image): Image
    requires Rectangular(cell) && Height(cell) >= CELL_MIN && Width(cell) >= CELL_MIN
  {
    var crop := InnerCell(cell);
    Crop(crop, 0, Height(crop), Width(crop) / 2, Width(crop))
  }

  predicate HalfShows(c: Colour, half: Image)
    requires Rectangular(half)
  {
    TestSection(c, half).found
  }

  /**
    The priority table: yellow in either half gives a possible-outage status
    whatever the red flags say; only without yellow does red give a
    certain-outage status; otherwise the power is on.
  */
  function CombineHalves(leftRed: bool, rightRed: bool, leftYellow: bool, rightYellow: bool): (s: Status)
    ensures ReadingOf(s) == Strongest(leftRed, rightRed, leftYellow, rightYellow)
    ensures IsPossibleStatus(s) <==> leftYellow || rightYellow
    ensures IsCertainStatus(s) <==> !leftYellow && !rightYellow && (leftRed || rightRed)
  {
    if leftYellow && rightYellow then Maybe
    else if leftYellow then MFirst
    else if rightYellow then MSecond
    else if leftRed && rightRed then No
    else if leftRed then First
    else if rightRed then Second
    else Yes
  }

  predicate IsPossibleStatus(s: Status) {
    s == Maybe || s == MFirst || s == MSecond
  }

  predicate IsCertainStatus(s: Status) {
    s == No || s == First || s == Second
  }

  /**
    The hourly status of one cell. A cell under 10 pixels high or wide is
    `Yes`; so is one whose inner crop is under 2 pixels wide. Otherwise the
    two halves are tested for each colour and combined by priority.
  */
  function ClassifyCell(cell: Image): (r: Status)
    requires Rectangular(cell)
    ensures Height(cell) < CELL_MIN || Width(cell) < CELL_MIN ==> r == Yes
    ensures Height(cell) >= CELL_MIN && Width(cell) >= CELL_MIN ==>
              r == CombineHalves(HalfShows(Red, LeftHalf(cell)), HalfShows(Red, RightHalf(cell)),
                                 HalfShows(Yellow, LeftHalf(cell)), HalfShows(Yellow, RightHalf(cell)))
  {
    var h, w := Height(cell), Width(cell);
    if h < CELL_MIN || w < CELL_MIN then Yes
    else
      var crop := InnerCell(cell);
      if Width(crop) < 2 then Yes
      else
        var left := LeftHalf(cell);
        var right := RightHalf(cell);
        CombineHalves(TestSection(Red, left).found, TestSection(Red, right).found,
                      TestSection(Yellow, left).found, TestSection(Yellow, right).found)
  }

  /** Cropping keeps a colour that covers, or misses, every pixel. */
  lemma CropKeepsUniform(c: Colour, img: Image, top: nat, bottom: nat, left: nat, right: nat)
    requires Rectangular(img)
    ensures AllMatch(c, img) ==> AllMatch(c, Crop(img, top, bottom, left, right))
    ensures NoneMatch(c, img) ==> NoneMatch(c, Crop(img, top, bottom, left, right))
  {
  }

  /** A section of at least 5 x 5 pixels all of colour `c` shows `c`. */
  lemma UniformSectionShows(c: Colour, section: Image)
    requires Rectangular(section) && Height(section) >= SECTION_MIN && Width(section) >= SECTION_MIN
    requires AllMatch(c, section)
    ensures TestSection(c, section).found
  {
    var inner := SectionInner(section);
    CropKeepsUniform(c, section, SECTION_INSET, Height(section) - SECTION_INSET, SECTION_INSET, Width(section) - SECTION_INSET);
    CountInBounds(c, inner);
    PixelCountOfRectangle(inner);
  }

  /** A section with no pixel of colour `c` does not show `c`. */
  lemma BlankSectionHides(c: Colour, section: Image)
    requires Rectangular(section)
    requires NoneMatch(c, section)
    ensures !TestSection(c, section).found
  {
    if Height(section) >= SECTION_MIN && Width(section) >= SECTION_MIN {
      var inner := SectionInner(section);
      CropKeepsUniform(c, section, SECTION_INSET, Height(section) - SECTION_INSET, SECTION_INSET, Width(section) - SECTION_INSET);
      CountInBounds(c, inner);
    }
  }

  /**
    The sizes of the pieces of a cell: the inner crop is 6 pixels smaller each
    way, so never under 4 pixels wide (the `w_c < 2` guard never fires), and
    the left half is the narrower one.
  */
  lemma HalfSizes(cell: Image)
    requires Rectangular(cell) && Height(cell) >= CELL_MIN && Width(cell) >= CELL_MIN
    ensures Height(InnerCell(cell)) == Height(cell) - 2 * CELL_INSET
    ensures Width(InnerCell(cell)) == Width(cell) - 2 * CELL_INSET >= 4
    ensures Height(LeftHalf(cell)) == Height(RightHalf(cell)) == Height(cell) - 2 * CELL_INSET
    ensures Width(LeftHalf(cell)) == (Width(cell) - 2 * CELL_INSET) / 2
    ensures Width(RightHalf(cell)) == Width(cell) - 2 * CELL_INSET - (Width(cell) - 2 * CELL_INSET) / 2
  {
  }

  /** A cell under 11 pixels high leaves halves under 5 pixels high: nothing is ever detected. */
  lemma ShortCellIsYes(cell: Image)
    requires Rectangular(cell) && Height(cell) < CELL_MIN + 1
    ensures ClassifyCell(cell) == Yes
  {
  }

  /** A cell under 16 pixels wide has a left half under 5 pixels wide: the first half-hour is never flagged. */
  lemma NarrowCellHidesFirstHalf(cell: Image)
    requires Rectangular(cell) && Width(cell) < 16
    ensures !ReadingOf(ClassifyCell(cell)).first
    ensures ClassifyCell(cell) in {Yes, Second, MSecond}
  {
  }

  /** The halves of a cell keep a colour that covers, or misses, the whole cell. */
  lemma HalvesKeepUniform(c: Colour, cell: Image)
    requires Rectangular(cell) && Height(cell) >= CELL_MIN && Width(cell) >= CELL_MIN
    ensures AllMatch(c, cell) ==> AllMatch(c, LeftHalf(cell)) && AllMatch(c, RightHalf(cell))
    ensures NoneMatch(c, cell) ==> NoneMatch(c, LeftHalf(cell)) && NoneMatch(c, RightHalf(cell))
  {
    var crop := InnerCell(cell);
    CropKeepsUniform(c, cell, CELL_INSET, Height(cell) - CELL_INSET, CELL_INSET, Width(cell) - CELL_INSET);
    CropKeepsUniform(c, crop, 0, Height(crop), 0, Width(crop) / 2);
    CropKeepsUniform(c, crop, 0, Height(crop), Width(crop) / 2, Width(crop));
  }

  /** A cell of at least 11 x 16 pixels, all red, is a full-hour certain outage. */
  lemma RedCellIsNo(cell: Image)
    requires Rectangular(cell) && Height(cell) >= CELL_MIN + 1 && Width(cell) >= 16
    requires AllMatch(Red, cell)
    ensures ClassifyCell(cell) == No
  {
    HalfSizes(cell);
    HalvesKeepUniform(Red, cell);
    assert NoneMatch(Yellow, cell) by {
      forall i, j | 0 <= i < |cell| && 0 <= j < |cell[i]| ensures !Matches(Yellow, cell[i][j]) {
        RedIsNotYellow(cell[i][j]);
      }
    }
    HalvesKeepUniform(Yellow, cell);
    UniformSectionShows(Red, LeftHalf(cell));
    UniformSectionShows(Red, RightHalf(cell));
    BlankSectionHides(Yellow, LeftHalf(cell));
    BlankSectionHides(Yellow, RightHalf(cell));
  }

  /** A cell of at least 11 x 16 pixels, all yellow, is a full-hour possible outage. */
  lemma YellowCellIsMaybe(cell: Image)
    requires Rectangular(cell) && Height(cell) >= CELL_MIN + 1 && Width(cell) >= 16
    requires AllMatch(Yellow, cell)
    ensures ClassifyCell(cell) == Maybe
  {
    HalfSizes(cell);
    HalvesKeepUniform(Yellow, cell);
    UniformSectionShows(Yellow, LeftHalf(cell));
    UniformSectionShows(Yellow, RightHalf(cell));
  }

  /** A cell with neither a red nor a yellow pixel is `Yes`. */
  lemma UncolouredCellIsYes(cell: Image)
    requires Rectangular(cell)
    requires NoneMatch(Red, cell) && NoneMatch(Yellow, cell)
    ensures ClassifyCell(cell) == Yes
  {
    if Height(cell) >= CELL_MIN && Width(cell) >= CELL_MIN {
      HalvesKeepUniform(Red, cell);
      HalvesKeepUniform(Yellow, cell);
      BlankSectionHides(Red, LeftHalf(cell));
      BlankSectionHides(Red, RightHalf(cell));
      BlankSectionHides(Yellow, LeftHalf(cell));
      BlankSectionHides(Yellow, RightHalf(cell));
    }
  }
}
