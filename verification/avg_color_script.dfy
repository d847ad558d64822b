/** The naming and per-image steps of the avg_color.py script. Its colour table is
    webcolors' CSS3 table, given here as a sequence of (rgb, name) entries in the
    table's iteration order; its exact lookup `rgb_to_name` is a given partial function. */
module AvgColorScript {
  import opened Outcome
  import opened Colors
  import opened Extremes
  import ColorNamer

  /** One table entry: `(hex_to_rgb(key), name)`. */
  type Entry = (Rgb, string)

  /** `(r_c - r)**2 + (g_c - g)**2 + (b_c - b)**2` for entry `i`. */
  function TableDist(req: Rgb, table: seq<Entry>, i: int): nat
    requires 0 <= i < |table|
  {
    SqDist(table[i].0, req)
  }

  /** The dictionary `min_colours` after the loop has visited every entry:
      distance -> name, where a later entry overwrites an earlier one at the same
      distance. Its keys are exactly the distances of the entries. */
  function MinColours(req: Rgb, table: seq<Entry>): (m: map<int, string>)
    ensures forall i :: 0 <= i < |table| ==> TableDist(req, table, i) in m
    ensures forall d :: d in m ==> exists i :: 0 <= i < |table| && TableDist(req, table, i) == d
    decreases |table|
  {
    if |table| == 0 then map[]
    else
      var n := |table| - 1;
      assert forall i :: 0 <= i < n ==> TableDist(req, table[..n], i) == TableDist(req, table, i);
      MinColours(req, table[..n])[TableDist(req, table, n) := table[n].1]
  }

  /** The value stored under an entry's distance is that entry's name when no later
      entry has the same distance: the last writer wins. */
  lemma {:induction false} MinColoursLastWriter(req: Rgb, table: seq<Entry>, i: int)
    requires 0 <= i < |table|
    requires forall j :: i < j < |table| ==> TableDist(req, table, j) != TableDist(req, table, i)
    ensures TableDist(req, table, i) in MinColours(req, table)
    ensures MinColours(req, table)[TableDist(req, table, i)] == table[i].1
    decreases |table|
  {
    var n := |table| - 1;
    if i < n {
      assert forall j :: 0 <= j < n ==> TableDist(req, table[..n], j) == TableDist(req, table, j);
      MinColoursLastWriter(req, table[..n], i);
    }
  }

  /** Entry `i` is nearest to `req`, and every later entry is strictly farther. */
  predicate IsLastNearest(req: Rgb, table: seq<Entry>, i: int)
  {
    && 0 <= i < |table|
    && (forall j :: 0 <= j < |table| ==> TableDist(req, table, i) <= TableDist(req, table, j))
    && (forall j :: i < j < |table| ==> TableDist(req, table, i) < TableDist(req, table, j))
  }

  /** Entry `i` is nearest to `req`, with no tie-break. */
  predicate IsNearest(req: Rgb, table: seq<Entry>, i: int)
  {
    && 0 <= i < |table|
    && (forall j :: 0 <= j < |table| ==> TableDist(req, table, i) <= TableDist(req, table, j))
  }

  function TableDistances(req: Rgb, table: seq<Entry>): (ds: seq<int>)
    ensures |ds| == |table|
    ensures forall i :: 0 <= i < |table| ==> ds[i] == TableDist(req, table, i)
  {
    seq(|table|, i requires 0 <= i < |table| => TableDist(req, table, i))
  }

  /** `closest_colour`: `min_colours[min(min_colours.keys())]`. The smallest key is
      the smallest entry distance, and the name stored there is that of the last
      entry at that distance. `min()` of no keys is an error. */
  function ClosestColour(req: Rgb, table: seq<Entry>): (r: Result<string>)
    ensures r.Err? <==> |table| == 0
    ensures r.Err? ==> r.error == EmptyPalette
    ensures r.Ok? ==> exists i :: IsLastNearest(req, table, i) && table[i].1 == r.value
  {
    if |table| == 0 then Err(EmptyPalette)
    else
      var m := MinColours(req, table);
      var ds := TableDistances(req, table);
      var key := Min(ds);
      assert key in m && forall d :: d in m ==> key <= d;
      var i := ArgminLast(ds);
      assert IsLastNearest(req, table, i);
      MinColoursLastWriter(req, table, i);
      assert key == ds[i];
      Ok(m[key])
  }

  lemma LastNearestUnique(req: Rgb, table: seq<Entry>, i: int, j: int)
    requires IsLastNearest(req, table, i) && IsLastNearest(req, table, j)
    ensures i == j
  {
    LastMinUnique(TableDistances(req, table), i, j);
  }

  /** `closest_colour` names exactly the last nearest entry. */
  lemma ClosestColourIsLastNearest(req: Rgb, table: seq<Entry>, i: int)
    requires IsLastNearest(req, table, i)
    ensures ClosestColour(req, table) == Ok(table[i].1)
  {
    var r := ClosestColour(req, table);
    var k :| IsLastNearest(req, table, k) && table[k].1 == r.value;
    LastNearestUnique(req, table, i, k);
  }

  /** `get_colour_name`: the exact name twice when `rgb_to_name` knows the colour,
      otherwise no exact name and the closest table name. */
  function GetColourName(req: Rgb, table: seq<Entry>, lookup: Rgb -> Option<string>): (r: Result<(Option<string>, string)>)
    ensures lookup(req).Some? ==> r == Ok((lookup(req), lookup(req).value))
    ensures lookup(req).None? ==> (r.Err? <==> |table| == 0)
    ensures lookup(req).None? && r.Err? ==> r.error == EmptyPalette
    ensures lookup(req).None? && r.Ok? ==>
              r.value.0 == None && exists i :: IsLastNearest(req, table, i) && table[i].1 == r.value.1
  {
    match lookup(req)
    case Some(name) => Ok((Some(name), name))
    case None =>
      match ClosestColour(req, table)
      case Err(e) => Err(e)
      case Ok(name) => Ok((None, name))
  }

  /** On colours within 0..255, `rgb_to_name` answers only with names the table
      gives that exact colour. (Outside that range it first clips the channels.) */
  ghost predicate LookupAgrees(table: seq<Entry>, lookup: Rgb -> Option<string>)
  {
    forall c :: InByteRange(c) && lookup(c).Some? ==> exists i :: 0 <= i < |table| && table[i] == (c, lookup(c).value)
  }

  /** For a colour within 0..255 and a lookup that agrees with the table, the
      second result of `get_colour_name` always names a nearest table entry. */
  lemma GetColourNameIsNearest(req: Rgb, table: seq<Entry>, lookup: Rgb -> Option<string>)
    requires InByteRange(req)
    requires LookupAgrees(table, lookup)
    ensures var r := GetColourName(req, table, lookup);
            r.Ok? ==> exists i :: IsNearest(req, table, i) && table[i].1 == r.value.1
  {
    var r := GetColourName(req, table, lookup);
    if r.Ok? {
      if lookup(req).Some? {
        var i :| 0 <= i < |table| && table[i] == (req, lookup(req).value);
        SqDistZero(req, req);
        assert TableDist(req, table, i) == 0;
        assert IsNearest(req, table, i);
      } else {
        var i :| IsLastNearest(req, table, i) && table[i].1 == r.value.1;
        assert IsNearest(req, table, i);
      }
    }
  }

  /** The two naming routines break ties oppositely: at (127, 0, 127), equally far
      from red and blue, `name_color` answers "red" and `closest_colour` "blue". */
  lemma TieBreaksDiffer()
    ensures ColorNamer.NameColor(Rgb(127, 0, 127), [Color([255, 0, 0], "red"), Color([0, 0, 255], "blue")]) == Ok("red")
    ensures ClosestColour(Rgb(127, 0, 127), [(Rgb(255, 0, 0), "red"), (Rgb(0, 0, 255), "blue")]) == Ok("blue")
  {
    ColorNamer.RedBlueTie();
    var table := [(Rgb(255, 0, 0), "red"), (Rgb(0, 0, 255), "blue")];
    var req := Rgb(127, 0, 127);
    assert TableDist(req, table, 0) == 32513;
    assert TableDist(req, table, 1) == 32513;
    assert IsLastNearest(req, table, 1);
    ClosestColourIsLastNearest(req, table, 1);
  }

  /** The script's average-colour step: the truncated per-channel mean, emitted as
      (R, G, B) from BGR positions 2, 1, 0, and named by `get_colour_name(...)[1]`. */
  function AverageStep(img: seq<Bgr>, table: seq<Entry>, lookup: Rgb -> Option<string>): (r: Result<(Rgb, string)>)
    ensures |img| == 0 ==> r == Err(EmptyImage)
    ensures |img| > 0 ==> (r.Err? <==> lookup(ColorNamer.AvgColor(img).value).None? && |table| == 0)
    ensures |img| > 0 && r.Err? ==> r.error == EmptyPalette
    ensures r.Ok? ==> forall ch :: ColorNamer.IsTruncatedMean(img, ch, Component(r.value.0, ch))
    ensures r.Ok? ==> var (avg, name) := r.value;
              lookup(avg) == Some(name) || (lookup(avg).None? && exists i :: IsLastNearest(avg, table, i) && table[i].1 == name)
  {
    match ColorNamer.AvgColor(img)
    case Err(e) => Err(e)
    case Ok(avg) =>
      match GetColourName(avg, table, lookup)
      case Err(e) => Err(e)
      case Ok(names) => Ok((avg, names.1))
  }

  /** The script's dominant-colour step with its k-means labels and centroids given:
      the centroid at the first largest `itemfreq` count, emitted as (R, G, B) from
      BGR positions 2, 1, 0, and named by `get_colour_name(...)[1]`. */
  function DominantStep(labels: seq<int>, centroids: seq<Bgr>, table: seq<Entry>, lookup: Rgb -> Option<string>)
    : (r: Result<(Rgb, string)>)
    requires ColorNamer.LabelsBelow(labels, |centroids|)
    ensures |labels| == 0 ==> r == Err(EmptyImage)
    ensures |labels| > 0 ==> (r.Err? <==> lookup(ColorNamer.DominantColor(labels, centroids).value).None? && |table| == 0)
    ensures |labels| > 0 && r.Err? ==> r.error == EmptyPalette
    ensures r.Ok? ==> exists row :: IsFirstMax(ColorNamer.Freqs(ColorNamer.ItemFreq(labels, |centroids|)), row)
                                    && row < |centroids| && r.value.0 == ToRgb(centroids[row])
    ensures r.Ok? ==> var (dom, name) := r.value;
              lookup(dom) == Some(name) || (lookup(dom).None? && exists i :: IsLastNearest(dom, table, i) && table[i].1 == name)
  {
    match ColorNamer.DominantColor(labels, centroids)
    case Err(e) => Err(e)
    case Ok(dom) =>
      match GetColourName(dom, table, lookup)
      case Err(e) => Err(e)
      case Ok(names) => Ok((dom, names.1))
  }
}
