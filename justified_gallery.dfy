/** Justified image rows (src/components/JustifiedGallery.jsx): the images
    are cut into rows of a fixed quota, `ceil(n / rows)`, and every row is
    scaled to one common height so that its widths and gutters fill a
    container 1000 units wide. Geometry is over `real`. */
module JustifiedGallery {
  import opened JsonValues

  const ContainerWidth: real := 1000.0

  /** An entry of `images`: its pixel dimensions and the rest of the object. */
  datatype GalleryImage = GalleryImage(width: real, height: real, data: Json)

  /** An image waiting in the current row, with its aspect ratio and its
      index in `images`. */
  datatype PendingItem = PendingItem(image: GalleryImage, aspectRatio: real, index: nat)

  /** A placed image: the pending item plus its width and height. */
  datatype LayoutItem = LayoutItem(image: GalleryImage, aspectRatio: real, index: nat, width: real, height: real)

  predicate ValidImages(images: seq<GalleryImage>) {
    forall i | 0 <= i < |images| :: images[i].width > 0.0 && images[i].height > 0.0
  }

  function Ratio(image: GalleryImage): (r: real)
    requires image.width > 0.0 && image.height > 0.0
    ensures r > 0.0
    ensures r * image.height == image.width
  {
    image.width / image.height
  }

  /** The defaults of the `rows` and `gutter` props. */
  const DefaultRows: int := 3
  const DefaultGutter: real := 8.0

  /** `Math.max(1, rows)`. */
  function TargetRows(rows: int): (t: nat)
    ensures t >= 1 && t >= rows
    ensures rows >= 1 ==> t == rows
  {
    if rows < 1 then 1 else rows
  }

  /** `Math.ceil(n / targetRows)`. */
  function ImagesPerRow(n: nat, targetRows: nat): (k: nat)
    requires targetRows >= 1
    ensures k * targetRows >= n
    ensures k > 0 ==> (k - 1) * targetRows < n
    ensures n > 0 ==> k >= 1
  {
    (n + targetRows - 1) / targetRows
  }

  /** The running `currentRowWidth`: the aspect ratios of `images[lo..hi]`,
      added left to right. */
  function SumRatios(images: seq<GalleryImage>, lo: nat, hi: nat): (r: real)
    requires lo <= hi <= |images| && ValidImages(images)
    ensures lo < hi ==> r > 0.0
    decreases hi
  {
    if lo == hi then 0.0 else SumRatios(images, lo, hi - 1) + Ratio(images[hi - 1])
  }

  /** `currentRow` while images `lo .. hi - 1` are waiting in it. */
  function Pending(images: seq<GalleryImage>, lo: nat, hi: nat): (r: seq<PendingItem>)
    requires lo <= hi <= |images| && ValidImages(images)
    ensures |r| == hi - lo
  {
    seq(hi - lo, j requires 0 <= j < hi - lo =>
      PendingItem(images[lo + j], Ratio(images[lo + j]), lo + j))
  }

  /** `availableWidth`: the container less the gutters between `count` images. */
  function AvailableWidth(gutter: real, count: int): real {
    ContainerWidth - gutter * (count - 1) as real
  }

  /** The common height of the row holding images `lo .. hi - 1`. */
  function RowHeight(images: seq<GalleryImage>, gutter: real, lo: nat, hi: nat): real
    requires lo < hi <= |images| && ValidImages(images)
  {
    AvailableWidth(gutter, hi - lo) / SumRatios(images, lo, hi)
  }

  function Place(item: PendingItem, rowHeight: real): LayoutItem {
    LayoutItem(item.image, item.aspectRatio, item.index, item.aspectRatio * rowHeight, rowHeight)
  }

  /** `row.map(item => ({ ...item, width: item.aspectRatio * rowHeight, height: rowHeight }))`. */
  function PlaceAll(row: seq<PendingItem>, rowHeight: real): (r: seq<LayoutItem>)
    ensures |r| == |row|
  {
    seq(|row|, j requires 0 <= j < |row| => Place(row[j], rowHeight))
  }

  /** The row holding images `lo .. hi - 1`, scaled to the row height. */
  function PlaceRow(images: seq<GalleryImage>, gutter: real, lo: nat, hi: nat): (row: seq<LayoutItem>)
    requires lo < hi <= |images| && ValidImages(images)
    ensures |row| == hi - lo
  {
    var h := RowHeight(images, gutter, lo, hi);
    PlaceAll(Pending(images, lo, hi), h)
  }

  /** The rows from image `start` on, each taking `k` images or what is left. */
  function RowsFrom(images: seq<GalleryImage>, gutter: real, k: nat, start: nat): seq<seq<LayoutItem>>
    requires k >= 1 && start <= |images| && ValidImages(images)
    decreases |images| - start
  {
    if start == |images| then []
    else
      var end := if start + k <= |images| then start + k else |images|;
      [PlaceRow(images, gutter, start, end)] + RowsFrom(images, gutter, k, end)
  }

  /** The layout the effect computes for a non-empty list. */
  function Layout(images: seq<GalleryImage>, rows: int, gutter: real): seq<seq<LayoutItem>>
    requires |images| > 0 && ValidImages(images)
  {
    RowsFrom(images, gutter, ImagesPerRow(|images|, TargetRows(rows)), 0)
  }

  /** The body of the `useEffect` for a non-empty `images`: the `forEach`
      loop that fills `currentRow` and closes it into `newLayout`. */
  method ComputeLayout(images: seq<GalleryImage>, rows: int, gutter: real) returns (newLayout: seq<seq<LayoutItem>>)
    requires |images| > 0 && ValidImages(images)
    ensures newLayout == Layout(images, rows, gutter)
  {
    var targetRows := TargetRows(rows);
    var imagesPerRow := ImagesPerRow(|images|, targetRows);
    newLayout := [];
    var currentRow: seq<PendingItem> := [];
    var currentRowWidth := 0.0;
    ghost var rowStart := 0;
    ghost var total := Layout(images, rows, gutter);
    var index := 0;
    while index < |images|
      invariant 0 <= rowStart <= index <= |images|
      invariant index - rowStart < imagesPerRow
      invariant index == |images| ==> rowStart == |images|
      invariant currentRow == Pending(images, rowStart, index)
      invariant currentRowWidth == SumRatios(images, rowStart, index)
      invariant newLayout + RowsFrom(images, gutter, imagesPerRow, rowStart) == total
    {
      newLayout, currentRow, currentRowWidth, rowStart :=
        AddImage(images, gutter, imagesPerRow, index, newLayout, currentRow, currentRowWidth, rowStart, total);
      index := index + 1;
    }
  }

  /** The `forEach` callback for the image at `index`: it joins the current
      row, and the row is placed and closed once it holds `imagesPerRow`
      images or the image is the last one. The ghost `rowStart` is the index
      of the first image of the current row. */
  method AddImage(images: seq<GalleryImage>, gutter: real, imagesPerRow: nat, index: nat,
                  newLayout: seq<seq<LayoutItem>>, currentRow: seq<PendingItem>, currentRowWidth: real,
                  ghost rowStart: nat, ghost total: seq<seq<LayoutItem>>)
    returns (newLayout': seq<seq<LayoutItem>>, currentRow': seq<PendingItem>, currentRowWidth': real,
             ghost rowStart': nat)
    requires ValidImages(images) && imagesPerRow >= 1
    requires rowStart <= index < |images| && index - rowStart < imagesPerRow
    requires currentRow == Pending(images, rowStart, index)
    requires currentRowWidth == SumRatios(images, rowStart, index)
    requires newLayout + RowsFrom(images, gutter, imagesPerRow, rowStart) == total
    ensures rowStart' <= index + 1 && index + 1 - rowStart' < imagesPerRow
    ensures index + 1 == |images| ==> rowStart' == |images|
    ensures currentRow' == Pending(images, rowStart', index + 1)
    ensures currentRowWidth' == SumRatios(images, rowStart', index + 1)
    ensures newLayout' + RowsFrom(images, gutter, imagesPerRow, rowStart') == total
  {
    var image := images[index];
    var aspectRatio := Ratio(image);
    PendingSnoc(images, rowStart, index);
    currentRow' := currentRow + [PendingItem(image, aspectRatio, index)];
    currentRowWidth' := currentRowWidth + aspectRatio;
    var isLastImage := index == |images| - 1;
    if |currentRow'| >= imagesPerRow || isLastImage {
      var availableWidth := AvailableWidth(gutter, |currentRow'|);
      var rowHeight := availableWidth / currentRowWidth';
      var layoutRow := PlaceAll(currentRow', rowHeight);
      CloseRow(images, gutter, imagesPerRow, rowStart, index + 1, currentRow', rowHeight,
               newLayout, total);
      newLayout' := newLayout + [layoutRow];
      currentRow' := [];
      currentRowWidth' := 0.0;
      rowStart' := index + 1;
    } else {
      newLayout' := newLayout;
      rowStart' := rowStart;
    }
  }

  lemma PendingSnoc(images: seq<GalleryImage>, lo: nat, hi: nat)
    requires lo <= hi < |images| && ValidImages(images)
    ensures Pending(images, lo, hi + 1)
            == Pending(images, lo, hi) + [PendingItem(images[hi], Ratio(images[hi]), hi)]
  {
    var a := Pending(images, lo, hi + 1);
    var b := Pending(images, lo, hi) + [PendingItem(images[hi], Ratio(images[hi]), hi)];
    assert |a| == |b|;
    forall i | 0 <= i < |a|
      ensures a[i] == b[i]
    {
      if i < hi - lo {
        assert b[i] == Pending(images, lo, hi)[i];
      } else {
        assert lo + i == hi;
        assert a[i] == PendingItem(images[hi], Ratio(images[hi]), hi);
      }
    }
  }

  /** Closing the row `lo .. hi - 1` keeps the layout built so far a
      prefix of the whole layout. */
  lemma CloseRow(images: seq<GalleryImage>, gutter: real, k: nat, lo: nat, hi: nat,
                 row: seq<PendingItem>, rowHeight: real, done: seq<seq<LayoutItem>>, total: seq<seq<LayoutItem>>)
    requires k >= 1 && lo < hi <= |images| && ValidImages(images)
    requires hi == lo + k || (hi == |images| && hi - lo <= k)
    requires row == Pending(images, lo, hi)
    requires rowHeight == AvailableWidth(gutter, |row|) / SumRatios(images, lo, hi)
    requires done + RowsFrom(images, gutter, k, lo) == total
    ensures (done + [PlaceAll(row, rowHeight)]) + RowsFrom(images, gutter, k, hi) == total
  {
    var placed := PlaceAll(row, rowHeight);
    ClosedRowHeight(images, gutter, lo, hi, row, rowHeight);
    RowsFromStep(images, gutter, k, lo, hi);
    AppendAssoc(done, [placed], RowsFrom(images, gutter, k, hi));
  }

  /** The height the loop computes for a full row is the row's height. */
  lemma ClosedRowHeight(images: seq<GalleryImage>, gutter: real, lo: nat, hi: nat, row: seq<PendingItem>, rowHeight: real)
    requires lo < hi <= |images| && ValidImages(images)
    requires row == Pending(images, lo, hi)
    requires rowHeight == AvailableWidth(gutter, |row|) / SumRatios(images, lo, hi)
    ensures PlaceAll(row, rowHeight) == PlaceRow(images, gutter, lo, hi)
  {
    assert |row| == hi - lo;
    assert rowHeight == RowHeight(images, gutter, lo, hi);
  }

  lemma AppendAssoc<T>(a: seq<T>, b: seq<T>, c: seq<T>)
    ensures (a + b) + c == a + (b + c)
  {
  }

  /** One step of `RowsFrom`: a row ends after `k` images or at the last one. */
  lemma RowsFromStep(images: seq<GalleryImage>, gutter: real, k: nat, start: nat, end: nat)
    requires k >= 1 && start < end <= |images| && ValidImages(images)
    requires end == start + k || (end == |images| && end - start <= k)
    ensures RowsFrom(images, gutter, k, start) == [PlaceRow(images, gutter, start, end)] + RowsFrom(images, gutter, k, end)
  {
  }

  /** Every row but the last holds exactly `k` images, and the last holds 1 to `k`. */
  lemma {:induction false} RowSizes(images: seq<GalleryImage>, gutter: real, k: nat, start: nat)
    requires k >= 1 && start <= |images| && ValidImages(images)
    ensures var rs := RowsFrom(images, gutter, k, start);
            (forall r | 0 <= r < |rs| - 1 :: |rs[r]| == k)
            && (|rs| > 0 ==> 1 <= |rs[|rs| - 1]| <= k)
    decreases |images| - start
  {
    if start < |images| {
      var end := if start + k <= |images| then start + k else |images|;
      RowSizes(images, gutter, k, end);
      RowsFromStep(images, gutter, k, start, end);
      var tail := RowsFrom(images, gutter, k, end);
      var rs := [PlaceRow(images, gutter, start, end)] + tail;
      assert |rs[0]| == end - start;
      forall r | 1 <= r < |rs|
        ensures rs[r] == tail[r - 1]
      {
      }
    }
  }

  /** The rows from `start` on number `ceil((n - start) / k)`. */
  lemma {:induction false} RowCount(images: seq<GalleryImage>, gutter: real, k: nat, start: nat)
    requires k >= 1 && start <= |images| && ValidImages(images)
    ensures var m := |RowsFrom(images, gutter, k, start)|;
            m * k >= |images| - start && (m > 0 ==> (m - 1) * k < |images| - start)
    decreases |images| - start
  {
    if start < |images| {
      var end := if start + k <= |images| then start + k else |images|;
      RowCount(images, gutter, k, end);
      RowsFromStep(images, gutter, k, start, end);
      var m := |RowsFrom(images, gutter, k, end)|;
      assert |RowsFrom(images, gutter, k, start)| == m + 1;
      MulSucc(m, k);
      if m > 0 {
        MulSucc(m - 1, k);
        assert end == start + k;
      }
    }
  }

  lemma MulSucc(a: nat, k: nat)
    ensures (a + 1) * k == a * k + k
  {
  }

  /** There are never more rows than the target row count. */
  lemma RowCountBound(images: seq<GalleryImage>, rows: int, gutter: real)
    requires |images| > 0 && ValidImages(images)
    ensures |Layout(images, rows, gutter)| <= TargetRows(rows)
  {
    var t := TargetRows(rows);
    var k := ImagesPerRow(|images|, t);
    var m := |Layout(images, rows, gutter)|;
    RowCount(images, gutter, k, 0);
    MulCancel(m - 1, t, k);
  }

  lemma MulCancel(a: int, b: int, k: nat)
    requires k >= 1 && a * k < b * k
    ensures a < b
  {
  }

  /** The indices of all items, row after row. */
  function FlatIndices(rs: seq<seq<LayoutItem>>): seq<nat> {
    if rs == [] then [] else RowIndices(rs[0]) + FlatIndices(rs[1..])
  }

  function RowIndices(row: seq<LayoutItem>): (r: seq<nat>)
    ensures |r| == |row| && forall j | 0 <= j < |row| :: r[j] == row[j].index
  {
    seq(|row|, j requires 0 <= j < |row| => row[j].index)
  }

  function Range(lo: nat, hi: nat): (r: seq<nat>)
    requires lo <= hi
    ensures |r| == hi - lo && forall j | 0 <= j < |r| :: r[j] == lo + j
  {
    seq(hi - lo, j requires 0 <= j < hi - lo => lo + j)
  }

  /** Reading the rows in order lists every image index exactly once, in
      the order of `images`. */
  lemma {:induction false} RowsCoverInOrder(images: seq<GalleryImage>, gutter: real, k: nat, start: nat)
    requires k >= 1 && start <= |images| && ValidImages(images)
    ensures FlatIndices(RowsFrom(images, gutter, k, start)) == Range(start, |images|)
    decreases |images| - start
  {
    if start < |images| {
      var end := if start + k <= |images| then start + k else |images|;
      RowsCoverInOrder(images, gutter, k, end);
      var row := PlaceRow(images, gutter, start, end);
      var tail := RowsFrom(images, gutter, k, end);
      RowsFromStep(images, gutter, k, start, end);
      assert ([row] + tail)[1..] == tail;
      forall j | 0 <= j < end - start
        ensures RowIndices(row)[j] == start + j
      {
        RowItem(images, gutter, start, end, j);
      }
      assert RowIndices(row) == Range(start, end);
      assert Range(start, end) + Range(end, |images|) == Range(start, |images|);
    }
  }

  /** The item at position `j` of a placed row is image `lo + j`. */
  lemma RowItem(images: seq<GalleryImage>, gutter: real, lo: nat, hi: nat, j: nat)
    requires lo < hi <= |images| && ValidImages(images) && j < hi - lo
    ensures var item := PlaceRow(images, gutter, lo, hi)[j];
            item == Place(PendingItem(images[lo + j], Ratio(images[lo + j]), lo + j), RowHeight(images, gutter, lo, hi))
  {
  }

  /** Each item of each row is the image at its recorded index, and the
      click handler of row `r`, position `j`, reports index `start + r * k + j`. */
  lemma {:induction false} ItemsAreIndexed(images: seq<GalleryImage>, gutter: real, k: nat, start: nat, r: nat, j: nat)
    requires k >= 1 && start <= |images| && ValidImages(images)
    requires r < |RowsFrom(images, gutter, k, start)| && j < |RowsFrom(images, gutter, k, start)[r]|
    ensures var item := RowsFrom(images, gutter, k, start)[r][j];
            item.index == start + r * k + j && item.index < |images| && item.image == images[item.index]
    decreases r
  {
    var end := if start + k <= |images| then start + k else |images|;
    var rs := RowsFrom(images, gutter, k, start);
    var tail := RowsFrom(images, gutter, k, end);
    RowsFromStep(images, gutter, k, start, end);
    if r > 0 {
      assert rs[r] == tail[r - 1];
      ItemsAreIndexed(images, gutter, k, end, r - 1, j);
      NextRowOffset(start, k, r);
    } else {
      assert rs[0] == PlaceRow(images, gutter, start, end);
      RowItem(images, gutter, start, end, j);
    }
  }

  lemma NextRowOffset(start: nat, k: nat, r: nat)
    requires r > 0
    ensures start + k + (r - 1) * k == start + r * k
  {
  }

  /** Within a row every item has the row's height and the width of its
      aspect ratio times that height. */
  lemma RowGeometry(images: seq<GalleryImage>, gutter: real, lo: nat, hi: nat, j: nat)
    requires lo < hi <= |images| && ValidImages(images) && j < hi - lo
    ensures var row := PlaceRow(images, gutter, lo, hi);
            row[j].height == row[0].height == RowHeight(images, gutter, lo, hi)
            && row[j].width == row[j].aspectRatio * row[j].height
            && row[j].aspectRatio * row[j].image.height == row[j].image.width
  {
    RowItem(images, gutter, lo, hi, j);
    RowItem(images, gutter, lo, hi, 0);
  }

  function SumWidths(row: seq<LayoutItem>): real {
    if row == [] then 0.0 else SumWidths(row[..|row| - 1]) + row[|row| - 1].width
  }

  /** The first `m` widths of a row scaled to height `h` add up to `h`
      times the first `m` aspect ratios. */
  lemma {:induction false} SumWidthsOfPlaced(images: seq<GalleryImage>, lo: nat, hi: nat, h: real, m: nat)
    requires lo < hi <= |images| && ValidImages(images) && m <= hi - lo
    ensures SumWidths(PlaceAll(Pending(images, lo, hi), h)[..m]) == SumRatios(images, lo, lo + m) * h
  {
    var row := PlaceAll(Pending(images, lo, hi), h);
    if m > 0 {
      SumWidthsOfPlaced(images, lo, hi, h, m - 1);
      assert row[..m][..m - 1] == row[..m - 1];
      var a := Ratio(images[lo + m - 1]);
      var s := SumRatios(images, lo, lo + m - 1);
      assert SumWidths(row[..m]) == SumWidths(row[..m - 1]) + row[m - 1].width;
      assert row[m - 1].width == a * h;
      assert SumRatios(images, lo, lo + m) == s + a;
      Distribute(s, a, h);
    }
  }

  lemma Distribute(x: real, y: real, h: real)
    ensures x * h + y * h == (x + y) * h
  {
  }

  /** The widths of a row plus its gutters fill the container exactly. */
  lemma RowFillsContainer(images: seq<GalleryImage>, gutter: real, lo: nat, hi: nat)
    requires lo < hi <= |images| && ValidImages(images)
    ensures SumWidths(PlaceRow(images, gutter, lo, hi)) + gutter * (hi - lo - 1) as real == ContainerWidth
  {
    var row := PlaceRow(images, gutter, lo, hi);
    SumWidthsOfPlaced(images, lo, hi, RowHeight(images, gutter, lo, hi), hi - lo);
    assert row[..hi - lo] == row;
    var s := SumRatios(images, lo, hi);
    var avail := AvailableWidth(gutter, hi - lo);
    assert RowHeight(images, gutter, lo, hi) == avail / s;
    assert s * (avail / s) == avail;
  }

  /** What the component shows. */
  datatype GalleryView = NoImages | Rows(rows: seq<seq<LayoutItem>>)

  /** The component's `layout` state. */
  class GalleryState {
    var layout: seq<seq<LayoutItem>>

    constructor ()
      ensures layout == []
    {
      layout := [];
    }

    /** The effect: a missing or empty list leaves the layout as it was;
        otherwise the layout is recomputed, an omitted `rows` being 3 and an
        omitted `gutter` 8. */
    method Update(images: Option<seq<GalleryImage>>, rows: Option<int>, gutter: Option<real>)
      requires images.Some? ==> ValidImages(images.value)
      modifies this
      ensures images.None? || images.value == [] ==> layout == old(layout)
      ensures images.Some? && images.value != [] ==>
                layout == Layout(images.value, PropOr(rows, DefaultRows), PropOr(gutter, DefaultGutter))
    {
      if images.None? || |images.value| == 0 {
        return;
      }
      var targetRowsProp := if rows.Some? then rows.value else DefaultRows;
      var gutterProp := if gutter.Some? then gutter.value else DefaultGutter;
      layout := ComputeLayout(images.value, targetRowsProp, gutterProp);
    }

    /** The render: the placeholder for a missing or empty list, the rows otherwise. */
    function View(images: Option<seq<GalleryImage>>): (v: GalleryView)
      reads this
      ensures v == NoImages <==> images.None? || images.value == []
      ensures v.Rows? ==> v.rows == layout
    {
      if images.None? || images.value == [] then NoImages else Rows(layout)
    }
  }
}
