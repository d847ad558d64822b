/** The ColorNamer class of color_namer.py: naming a colour after its nearest
    palette entry, the mean colour of an image, and picking the dominant
    cluster from a k-means labelling. Every member is a pure function. */
module ColorNamer {
  import opened Outcome
  import opened Colors
  import opened Extremes

  // ---------------------------------------------------------------- naming

  /** Every entry carries exactly three channels, so its distance is defined. */
  predicate WellFormed(palette: seq<Color>)
  {
    forall i :: 0 <= i < |palette| ==> IsTriple(palette[i])
  }

  function EntryDist(input: Rgb, palette: seq<Color>, i: int): nat
    requires WellFormed(palette) && 0 <= i < |palette|
  {
    SqDist(input, RgbOf(palette[i]))
  }

  /** Entry `i` is nearest to `input`, and every earlier entry is strictly farther. */
  predicate IsFirstNearest(input: Rgb, palette: seq<Color>, i: int)
    requires WellFormed(palette)
  {
    && 0 <= i < |palette|
    && (forall j :: 0 <= j < |palette| ==> EntryDist(input, palette, i) <= EntryDist(input, palette, j))
    && (forall j :: 0 <= j < i ==> EntryDist(input, palette, i) < EntryDist(input, palette, j))
  }

  function Distances(input: Rgb, palette: seq<Color>): (ds: seq<int>)
    requires WellFormed(palette)
    ensures |ds| == |palette|
    ensures forall i :: 0 <= i < |palette| ==> ds[i] == EntryDist(input, palette, i)
  {
    seq(|palette|, i requires 0 <= i < |palette| => EntryDist(input, palette, i))
  }

  /** `name_color`: the name of the first palette entry at minimum distance
      from `input`; an empty palette is an error, as `np.argmin([])` is. */
  function NameColor(input: Rgb, palette: seq<Color>): (r: Result<string>)
    requires WellFormed(palette)
    ensures r.Err? <==> |palette| == 0
    ensures r.Err? ==> r.error == EmptyPalette
    ensures r.Ok? ==> exists i :: IsFirstNearest(input, palette, i) && palette[i].name == r.value
  {
    if |palette| == 0 then Err(EmptyPalette)
    else
      var ds := Distances(input, palette);
      var i := ArgminFirst(ds);
      assert IsFirstNearest(input, palette, i);
      Ok(palette[i].name)
  }

  /** At most one entry is the first nearest, so the name above is determined. */
  lemma FirstNearestUnique(input: Rgb, palette: seq<Color>, i: int, j: int)
    requires WellFormed(palette)
    requires IsFirstNearest(input, palette, i) && IsFirstNearest(input, palette, j)
    ensures i == j
  {
    var ds := Distances(input, palette);
    FirstMinUnique(ds, i, j);
  }

  /** Naming picks exactly the first nearest entry. */
  lemma NameColorIsFirstNearest(input: Rgb, palette: seq<Color>, i: int)
    requires WellFormed(palette)
    requires IsFirstNearest(input, palette, i)
    ensures NameColor(input, palette) == Ok(palette[i].name)
  {
    var r := NameColor(input, palette);
    var k :| IsFirstNearest(input, palette, k) && palette[k].name == r.value;
    FirstNearestUnique(input, palette, i, k);
  }

  /** A colour present in the palette is named after its first exact occurrence. */
  lemma ExactMatchWins(input: Rgb, palette: seq<Color>, k: int)
    requires WellFormed(palette)
    requires 0 <= k < |palette| && RgbOf(palette[k]) == input
    requires forall j :: 0 <= j < k ==> RgbOf(palette[j]) != input
    ensures NameColor(input, palette) == Ok(palette[k].name)
  {
    forall j | 0 <= j < |palette|
      ensures EntryDist(input, palette, j) == 0 <==> RgbOf(palette[j]) == input
    {
      SqDistZero(input, RgbOf(palette[j]));
    }
    assert IsFirstNearest(input, palette, k);
    NameColorIsFirstNearest(input, palette, k);
  }

  // ---------------------------------------------------------------- mean colour

  /** Sum of one channel over the pixels. */
  function ChannelSum(img: seq<Bgr>, ch: Channel): (s: nat)
    ensures s <= 255 * |img|
    decreases |img|
  {
    if |img| == 0 then 0 else ChannelSum(img[..|img| - 1], ch) + Pick(img[|img| - 1], ch)
  }

  /** `v` is the mean of channel `ch`, truncated toward zero as `int()` does. */
  predicate IsTruncatedMean(img: seq<Bgr>, ch: Channel, v: int)
  {
    |img| > 0 && v * |img| <= ChannelSum(img, ch) < (v + 1) * |img|
  }

  lemma MulSucc(a: int, n: nat)
    ensures a * (n + 1) == a * n + a
  {
  }

  /** Channel sums lie between `n * lo` and `n * hi` when every pixel does. */
  lemma {:induction false} ChannelSumBounds(img: seq<Bgr>, ch: Channel, lo: int, hi: int)
    requires forall i :: 0 <= i < |img| ==> lo <= Pick(img[i], ch) <= hi
    ensures lo * |img| <= ChannelSum(img, ch) <= hi * |img|
    decreases |img|
  {
    if |img| > 0 {
      var n := |img| - 1;
      assert forall i :: 0 <= i < n ==> img[..n][i] == img[i];
      ChannelSumBounds(img[..n], ch, lo, hi);
      MulSucc(lo, n);
      MulSucc(hi, n);
    }
  }

  lemma MulCancel(a: int, b: int, n: int)
    requires n > 0 && a * n <= b * n
    ensures a <= b
  {
    assert (b - a) * n == b * n - a * n;
  }

  lemma MulCancelStrict(a: int, b: int, n: int)
    requires n > 0 && a * n < b * n
    ensures a < b
  {
    assert (b - a) * n == b * n - a * n;
  }

  /** A truncated mean of values in `[lo, hi]` stays in `[lo, hi]`. */
  lemma MeanWithin(img: seq<Bgr>, ch: Channel, v: int, lo: int, hi: int)
    requires forall i :: 0 <= i < |img| ==> lo <= Pick(img[i], ch) <= hi
    requires IsTruncatedMean(img, ch, v)
    ensures lo <= v <= hi
  {
    var n := |img|;
    ChannelSumBounds(img, ch, lo, hi);
    MulCancel(v, hi, n);
    MulCancelStrict(lo, v + 1, n);
  }

  lemma TruncatedDivision(s: nat, n: nat)
    requires n > 0
    ensures (s / n) * n <= s < (s / n + 1) * n
  {
  }

  /** `avg_color`: the per-channel mean over all pixels, truncated, read from
      BGR positions 2, 1, 0 into (R, G, B). An image with no pixels has no mean. */
  function AvgColor(img: seq<Bgr>): (r: Result<Rgb>)
    ensures r.Err? <==> |img| == 0
    ensures r.Err? ==> r.error == EmptyImage
    ensures r.Ok? ==> forall ch :: IsTruncatedMean(img, ch, Component(r.value, ch))
    ensures r.Ok? ==> forall ch :: 0 <= Component(r.value, ch) <= 255
  {
    if |img| == 0 then Err(EmptyImage)
    else
      var n := |img|;
      var c := Rgb(ChannelSum(img, Red) / n, ChannelSum(img, Green) / n, ChannelSum(img, Blue) / n);
      assert forall ch :: IsTruncatedMean(img, ch, Component(c, ch)) by {
        forall ch
          ensures IsTruncatedMean(img, ch, Component(c, ch))
        {
          TruncatedDivision(ChannelSum(img, ch), n);
        }
      }
      assert forall ch :: 0 <= Component(c, ch) <= 255 by {
        forall ch
          ensures 0 <= Component(c, ch) <= 255
        {
          MeanWithin(img, ch, Component(c, ch), 0, 255);
        }
      }
      Ok(c)
  }

  /** Every channel of the mean lies between that channel's least and greatest pixel value. */
  lemma AvgColorWithin(img: seq<Bgr>, ch: Channel, lo: int, hi: int)
    requires |img| > 0
    requires forall i :: 0 <= i < |img| ==> lo <= Pick(img[i], ch) <= hi
    ensures AvgColor(img).Ok? && lo <= Component(AvgColor(img).value, ch) <= hi
  {
    MeanWithin(img, ch, Component(AvgColor(img).value, ch), lo, hi);
  }

  /** An image of one colour averages to that colour exactly. */
  lemma ConstantImageAverage(img: seq<Bgr>, p: Bgr)
    requires |img| > 0
    requires forall i :: 0 <= i < |img| ==> img[i] == p
    ensures AvgColor(img) == Ok(ToRgb(p))
  {
    forall ch
      ensures Component(AvgColor(img).value, ch) == Pick(p, ch)
    {
      AvgColorWithin(img, ch, Pick(p, ch), Pick(p, ch));
    }
  }

  // ---------------------------------------------------------------- dominant colour

  /** One row of `itemfreq(labels)`: a distinct label and how often it occurs. */
  datatype FreqRow = FreqRow(item: int, freq: nat)

  /** How many pixels carry label `x`. */
  function Count(labels: seq<int>, x: int): (c: nat)
    ensures c <= |labels|
    ensures c > 0 <==> x in labels
    decreases |labels|
  {
    if |labels| == 0 then 0
    else
      var n := |labels| - 1;
      assert labels == labels[..n] + [labels[n]];
      Count(labels[..n], x) + (if labels[n] == x then 1 else 0)
  }

  /** Every label names one of `k` clusters, as `cv2.kmeans` guarantees. */
  predicate LabelsBelow(labels: seq<int>, k: int)
  {
    forall i :: 0 <= i < |labels| ==> 0 <= labels[i] < k
  }

  /** Rows of `itemfreq` for the label values `v..k-1`. */
  function FreqRowsFrom(labels: seq<int>, v: nat, k: nat): (rows: seq<FreqRow>)
    requires v <= k
    ensures |rows| <= k - v
    ensures forall i :: 0 <= i < |rows| ==> v <= rows[i].item < k
    ensures forall i :: 0 <= i < |rows| ==> 0 < rows[i].freq == Count(labels, rows[i].item)
    ensures forall i, j :: 0 <= i < j < |rows| ==> rows[i].item < rows[j].item
    decreases k - v
  {
    if v == k then []
    else
      var rest := FreqRowsFrom(labels, v + 1, k);
      var count := Count(labels, v);
      if count > 0 then [FreqRow(v, count)] + rest else rest
  }

  /** Every label value in `v..k-1` that occurs has its row. */
  lemma {:induction false} FreqRowsCover(labels: seq<int>, v: nat, k: nat, x: int)
    requires v <= x < k && Count(labels, x) > 0
    ensures exists i :: 0 <= i < |FreqRowsFrom(labels, v, k)| && FreqRowsFrom(labels, v, k)[i].item == x
    decreases k - v
  {
    var rows := FreqRowsFrom(labels, v, k);
    if x == v {
      assert rows[0].item == x;
    } else {
      var rest := FreqRowsFrom(labels, v + 1, k);
      FreqRowsCover(labels, v + 1, k, x);
      var i :| 0 <= i < |rest| && rest[i].item == x;
      if Count(labels, v) > 0 {
        assert rows[i + 1].item == x;
      } else {
        assert rows[i].item == x;
      }
    }
  }

  /** `itemfreq(labels)`: the distinct labels in increasing order, each with its count. */
  function ItemFreq(labels: seq<int>, k: nat): (rows: seq<FreqRow>)
    requires LabelsBelow(labels, k)
    ensures |rows| <= k
    ensures forall i :: 0 <= i < |rows| ==> 0 < rows[i].freq == Count(labels, rows[i].item)
    ensures forall i, j :: 0 <= i < j < |rows| ==> rows[i].item < rows[j].item
    ensures forall j :: 0 <= j < |labels| ==> exists i :: 0 <= i < |rows| && rows[i].item == labels[j]
  {
    var rows := FreqRowsFrom(labels, 0, k);
    assert forall j :: 0 <= j < |labels| ==> exists i :: 0 <= i < |rows| && rows[i].item == labels[j] by {
      forall j | 0 <= j < |labels|
        ensures exists i :: 0 <= i < |rows| && rows[i].item == labels[j]
      {
        FreqRowsCover(labels, 0, k, labels[j]);
      }
    }
    rows
  }

  /** The last column of the `itemfreq` table. */
  function Freqs(rows: seq<FreqRow>): (fs: seq<int>)
    ensures |fs| == |rows|
    ensures forall i :: 0 <= i < |rows| ==> fs[i] == rows[i].freq
  {
    seq(|rows|, i requires 0 <= i < |rows| => rows[i].freq)
  }

  /** The tail of `dominant_color` after `cv2.kmeans`: the row index of the first
      largest count in `itemfreq(labels)` indexes the centroid table, and that
      centroid is returned as (R, G, B) from BGR positions 2, 1, 0. */
  function DominantColor(labels: seq<int>, centroids: seq<Bgr>): (r: Result<Rgb>)
    requires LabelsBelow(labels, |centroids|)
    ensures r.Err? <==> |labels| == 0
    ensures r.Err? ==> r.error == EmptyImage
    ensures r.Ok? ==> exists row :: IsFirstMax(Freqs(ItemFreq(labels, |centroids|)), row)
                                    && row < |centroids| && r.value == ToRgb(centroids[row])
  {
    if |labels| == 0 then Err(EmptyImage)
    else
      var rows := ItemFreq(labels, |centroids|);
      var row := ArgmaxFirst(Freqs(rows));
      Ok(ToRgb(centroids[row]))
  }

  /** Member count of every cluster `0..k-1`. */
  function ClusterSizes(labels: seq<int>, k: nat): (sizes: seq<int>)
    ensures |sizes| == k
    ensures forall c :: 0 <= c < k ==> sizes[c] == Count(labels, c)
  {
    seq(k, c requires 0 <= c < k => Count(labels, c))
  }

  /** When every cluster `v..k-1` has a member, the rows are exactly one per cluster, in order. */
  lemma {:induction false} FreqRowsAllPresent(labels: seq<int>, v: nat, k: nat)
    requires v <= k
    requires forall c :: v <= c < k ==> Count(labels, c) > 0
    ensures |FreqRowsFrom(labels, v, k)| == k - v
    ensures forall i :: 0 <= i < k - v ==> FreqRowsFrom(labels, v, k)[i] == FreqRow(v + i, Count(labels, v + i))
    decreases k - v
  {
    if v < k {
      FreqRowsAllPresent(labels, v + 1, k);
      var rest := FreqRowsFrom(labels, v + 1, k);
      assert Count(labels, v) > 0;
      assert FreqRowsFrom(labels, v, k) == [FreqRow(v, Count(labels, v))] + rest;
    }
  }

  /** With no empty cluster, the count column of `itemfreq` is the list of cluster sizes. */
  lemma CountsAreClusterSizes(labels: seq<int>, k: nat)
    requires LabelsBelow(labels, k)
    requires forall c :: 0 <= c < k ==> Count(labels, c) > 0
    ensures Freqs(ItemFreq(labels, k)) == ClusterSizes(labels, k)
  {
    var rows := FreqRowsFrom(labels, 0, k);
    assert ItemFreq(labels, k) == rows;
    FreqRowsAllPresent(labels, 0, k);
    var fs := Freqs(rows);
    var sizes := ClusterSizes(labels, k);
    forall i | 0 <= i < k
      ensures fs[i] == sizes[i]
    {
      assert rows[i] == FreqRow(i, Count(labels, i));
    }
  }

  /** With no empty cluster, the `itemfreq` row index is the cluster index, so the
      result is the centroid of the first largest cluster. */
  lemma DominantIsLargestCluster(labels: seq<int>, centroids: seq<Bgr>, c: int)
    requires LabelsBelow(labels, |centroids|)
    requires forall c' :: 0 <= c' < |centroids| ==> Count(labels, c') > 0
    requires IsFirstMax(ClusterSizes(labels, |centroids|), c)
    ensures DominantColor(labels, centroids) == Ok(ToRgb(centroids[c]))
  {
    var k := |centroids|;
    assert Count(labels, c) > 0;
    CountsAreClusterSizes(labels, k);
    var r := DominantColor(labels, centroids);
    var row :| IsFirstMax(Freqs(ItemFreq(labels, k)), row) && row < k && r.value == ToRgb(centroids[row]);
    FirstMaxUnique(ClusterSizes(labels, k), row, c);
  }

  /** With an empty cluster the row index and the cluster index part: for labels
      [0, 2, 2] over three clusters, cluster 2 is largest, yet row 1 of the
      `itemfreq` table is chosen and centroid 1 is returned. */
  lemma EmptyClusterShiftsIndex(c0: Bgr, c1: Bgr, c2: Bgr)
    ensures IsFirstMax(ClusterSizes([0, 2, 2], 3), 2)
    ensures DominantColor([0, 2, 2], [c0, c1, c2]) == Ok(ToRgb(c1))
  {
    var labels := [0, 2, 2];
    LargestClusterExample();
    ItemFreqExample();
    var rows := ItemFreq(labels, 3);
    assert IsFirstMax(Freqs(rows), 1);
    var r := DominantColor(labels, [c0, c1, c2]);
    var row :| IsFirstMax(Freqs(rows), row) && row < 3 && r.value == ToRgb([c0, c1, c2][row]);
    FirstMaxUnique(Freqs(rows), row, 1);
  }

  /** Cluster 2 is the largest of the three clusters of [0, 2, 2]. */
  lemma LargestClusterExample()
    ensures IsFirstMax(ClusterSizes([0, 2, 2], 3), 2)
  {
    LabelCountsExample();
    var sizes := ClusterSizes([0, 2, 2], 3);
    assert sizes[0] == 1 && sizes[1] == 0 && sizes[2] == 2;
  }

  lemma LabelCountsExample()
    ensures Count([0, 2, 2], 0) == 1 && Count([0, 2, 2], 1) == 0 && Count([0, 2, 2], 2) == 2
  {
    var labels := [0, 2, 2];
    assert labels[..2] == [0, 2] && [0, 2][..1] == [0] && [0][..0] == [];
    assert Count(labels, 0) == 1;
    assert Count(labels, 1) == 0;
    assert Count(labels, 2) == 2;
  }

  /** `itemfreq([0, 2, 2])` has two rows, for labels 0 and 2. */
  lemma ItemFreqExample()
    ensures ItemFreq([0, 2, 2], 3) == [FreqRow(0, 1), FreqRow(2, 2)]
  {
    var labels := [0, 2, 2];
    LabelCountsExample();
    assert FreqRowsFrom(labels, 3, 3) == [];
    assert FreqRowsFrom(labels, 2, 3) == [FreqRow(2, 2)];
    assert FreqRowsFrom(labels, 1, 3) == [FreqRow(2, 2)];
    assert FreqRowsFrom(labels, 0, 3) == [FreqRow(0, 1), FreqRow(2, 2)];
  }

  // ---------------------------------------------------------------- worked example

  /** A 2x2 image of two red and two blue pixels: the mean truncates to (127, 0, 127). */
  lemma RedBlueAverage()
    ensures AvgColor([Bgr(0, 0, 255), Bgr(0, 0, 255), Bgr(255, 0, 0), Bgr(255, 0, 0)]) == Ok(Rgb(127, 0, 127))
  {
    var red := Bgr(0, 0, 255);
    var blue := Bgr(255, 0, 0);
    var img := [red, red, blue, blue];
    assert img[..3] == [red, red, blue] && [red, red, blue][..2] == [red, red] && [red, red][..1] == [red];
    assert [red][..0] == [];
    assert ChannelSum([red], Red) == 255;
    assert ChannelSum([red], Green) == 0;
    assert ChannelSum([red], Blue) == 0;
    assert ChannelSum([red, red], Red) == 510;
    assert ChannelSum([red, red], Green) == 0;
    assert ChannelSum([red, red], Blue) == 0;
    assert ChannelSum([red, red, blue], Red) == 510;
    assert ChannelSum([red, red, blue], Green) == 0;
    assert ChannelSum([red, red, blue], Blue) == 255;
    assert ChannelSum(img, Red) == 510 && ChannelSum(img, Green) == 0 && ChannelSum(img, Blue) == 510;
  }

  /** (127, 0, 127) is equally far from `red 255 0 0` and `blue 0 0 255`; the first entry wins. */
  lemma RedBlueTie()
    ensures NameColor(Rgb(127, 0, 127), [Color([255, 0, 0], "red"), Color([0, 0, 255], "blue")]) == Ok("red")
  {
    var palette := [Color([255, 0, 0], "red"), Color([0, 0, 255], "blue")];
    var input := Rgb(127, 0, 127);
    assert EntryDist(input, palette, 0) == 32513;
    assert EntryDist(input, palette, 1) == 32513;
    assert IsFirstNearest(input, palette, 0);
    NameColorIsFirstNearest(input, palette, 0);
  }
}
