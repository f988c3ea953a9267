/**
 * The raster rules of dashboard/app_utils/data.py: masking and rescaling the
 * stored predictions, normalising a band to [0, 1] (clip-then-rescale with an
 * explicit range, or the band's own finite minimum and maximum), flipping a band
 * upside down, and the loop of write_tif_to_pngs that renders each band to a PNG
 * file unless the file is already there.
 */
module Raster {
  import opened Wrappers
  import opened Geometry

  /** One raster cell: a number, or no-data (numpy's NaN). */
  datatype Cell = NoData | Value(v: real)

  /** One band, as rows of cells in the order the raster stores them. */
  type Grid = seq<seq<Cell>>

  /** A band of the dataset, under the name taken from the tif's long_name list. */
  datatype NamedBand = NamedBand(name: string, grid: Grid)

  /** The prediction raster as stored: band names, integer cells, bounds and EPSG code. */
  datatype StoredRaster = StoredRaster(longNames: seq<string>, bands: seq<seq<seq<int>>>, bounds: Bounds, crs: int)

  /** The prediction raster after load_predictions: one named band per model. */
  datatype RasterDataset = RasterDataset(bands: seq<NamedBand>, bounds: Bounds, crs: int)

  // ---------------------------------------------------------------------------
  // Masking and rescale (load_predictions)
  // ---------------------------------------------------------------------------

  /** A stored cell below 0 is no-data; any other is a score in hundredths. */
  function MaskCell(raw: int): (c: Cell)
    ensures c.NoData? <==> raw < 0
    ensures c.Value? ==> c.v * 100.0 == raw as real
    ensures 0 <= raw <= 100 ==> c.Value? && 0.0 <= c.v <= 1.0
  {
    if raw >= 0 then Value(raw as real / 100.0) else NoData
  }

  /** `where(band >= 0, nan) / 100` over one band. */
  function MaskBand(raw: seq<seq<int>>): (g: Grid)
    ensures |g| == |raw| && forall i :: 0 <= i < |raw| ==> |g[i]| == |raw[i]|
    ensures forall i, j :: 0 <= i < |raw| && 0 <= j < |raw[i]| ==> g[i][j] == MaskCell(raw[i][j])
  {
    seq(|raw|, i requires 0 <= i < |raw| => seq(|raw[i]|, j requires 0 <= j < |raw[i]| => MaskCell(raw[i][j])))
  }

  /**
   * load_predictions after the blob is parsed: each band gets its long name and
   * is masked and rescaled. Assigning the band coordinate needs one name per band.
   */
  function LoadPredictions(stored: StoredRaster): (ds: RasterDataset)
    requires |stored.longNames| == |stored.bands|
    ensures |ds.bands| == |stored.bands|
    ensures forall k :: 0 <= k < |ds.bands| ==>
      ds.bands[k].name == stored.longNames[k] && ds.bands[k].grid == MaskBand(stored.bands[k])
    ensures ds.bounds == stored.bounds && ds.crs == stored.crs
  {
    RasterDataset(
      seq(|stored.bands|, k requires 0 <= k < |stored.bands| => NamedBand(stored.longNames[k], MaskBand(stored.bands[k]))),
      stored.bounds, stored.crs)
  }

  /** Every stored score in 0..100 loads as a value in [0, 1]; every negative one as no-data. */
  lemma LoadedScoresInUnitRange(stored: StoredRaster, k: nat, i: nat, j: nat)
    requires |stored.longNames| == |stored.bands|
    requires k < |stored.bands| && i < |stored.bands[k]| && j < |stored.bands[k][i]|
    ensures var c := LoadPredictions(stored).bands[k].grid[i][j];
      (stored.bands[k][i][j] < 0 ==> c == NoData) &&
      (0 <= stored.bands[k][i][j] <= 100 ==> c.Value? && 0.0 <= c.v <= 1.0 && c.v * 100.0 == stored.bands[k][i][j] as real)
  {
  }

  // ---------------------------------------------------------------------------
  // Normalisation (normalize)
  // ---------------------------------------------------------------------------

  /** numpy's clip with lo <= hi. */
  function Clip(x: real, lo: real, hi: real): (r: real)
    requires lo <= hi
    ensures lo <= r <= hi
    ensures lo <= x <= hi ==> r == x
    ensures x < lo ==> r == lo
    ensures x > hi ==> r == hi
  {
    if x < lo then lo else if x > hi then hi else x
  }

  /** A quotient of a number in [0, d] by d is in [0, 1]. */
  lemma QuotientInUnitRange(a: real, d: real)
    requires d > 0.0
    ensures 0.0 <= a <= d ==> 0.0 <= a / d <= 1.0
  {
  }

  /** Dividing by a positive number keeps the order. */
  lemma QuotientMonotone(a: real, b: real, d: real)
    requires d > 0.0 && a <= b
    ensures a / d <= b / d
  {
  }

  /** The explicit-range branch for one value: clip to [vmin, vmax], then rescale. */
  function ClipRescale(x: real, vmin: real, vmax: real): (r: real)
    requires vmin < vmax
    ensures 0.0 <= r <= 1.0
    ensures x <= vmin ==> r == 0.0
    ensures x >= vmax ==> r == 1.0
    ensures vmin <= x <= vmax ==> r * (vmax - vmin) == x - vmin
  {
    var c := Clip(x, vmin, vmax);
    QuotientInUnitRange(c - vmin, vmax - vmin);
    (c - vmin) / (vmax - vmin)
  }

  /** The automatic branch for one value: rescale by the band's own extremes, no clipping. */
  function Rescale(x: real, lo: real, hi: real): (r: real)
    requires lo < hi
    ensures r * (hi - lo) == x - lo
    ensures lo <= x <= hi ==> 0.0 <= r <= 1.0
    ensures x == lo ==> r == 0.0
    ensures x == hi ==> r == 1.0
  {
    QuotientInUnitRange(x - lo, hi - lo);
    (x - lo) / (hi - lo)
  }

  /** Clip-then-rescale never reverses the order of two values. */
  lemma ClipRescaleMonotone(x: real, y: real, vmin: real, vmax: real)
    requires vmin < vmax && x <= y
    ensures ClipRescale(x, vmin, vmax) <= ClipRescale(y, vmin, vmax)
  {
    QuotientMonotone(Clip(x, vmin, vmax) - vmin, Clip(y, vmin, vmax) - vmin, vmax - vmin);
  }

  /** No-data stays no-data (NaN survives clip and arithmetic); a value is rescaled. */
  function NormalizeCell(c: Cell, lo: real, hi: real, clip: bool): (r: Cell)
    requires lo < hi
    ensures r.NoData? <==> c.NoData?
  {
    match c
    case NoData => NoData
    case Value(x) => Value(if clip then ClipRescale(x, lo, hi) else Rescale(x, lo, hi))
  }

  /** np.nanmin of one row: None when every cell is no-data. */
  function RowMin(row: seq<Cell>): (m: Option<real>)
    ensures m.None? <==> forall j :: 0 <= j < |row| ==> row[j].NoData?
    ensures m.Some? ==> exists j :: 0 <= j < |row| && row[j] == Value(m.value)
    ensures m.Some? ==> forall j :: 0 <= j < |row| && row[j].Value? ==> m.value <= row[j].v
    decreases |row|
  {
    if row == [] then None
    else
      var rest := RowMin(row[1..]);
      assert forall j :: 1 <= j < |row| ==> row[j] == row[1..][j - 1];
      match row[0]
      case NoData => rest
      case Value(x) => if rest.Some? && rest.value < x then rest else Some(x)
  }

  /** np.nanmax of one row: None when every cell is no-data. */
  function RowMax(row: seq<Cell>): (m: Option<real>)
    ensures m.None? <==> forall j :: 0 <= j < |row| ==> row[j].NoData?
    ensures m.Some? ==> exists j :: 0 <= j < |row| && row[j] == Value(m.value)
    ensures m.Some? ==> forall j :: 0 <= j < |row| && row[j].Value? ==> row[j].v <= m.value
    decreases |row|
  {
    if row == [] then None
    else
      var rest := RowMax(row[1..]);
      assert forall j :: 1 <= j < |row| ==> row[j] == row[1..][j - 1];
      match row[0]
      case NoData => rest
      case Value(x) => if rest.Some? && rest.value > x then rest else Some(x)
  }

  /** np.nanmin of a band: the least value over all cells, None when all are no-data. */
  function NanMin(g: Grid): Option<real>
    decreases |g|
  {
    if g == [] then None
    else
      var first, rest := RowMin(g[0]), NanMin(g[1..]);
      if first.None? then rest
      else if rest.Some? && rest.value < first.value then rest
      else first
  }

  /** np.nanmax of a band: the greatest value over all cells, None when all are no-data. */
  function NanMax(g: Grid): Option<real>
    decreases |g|
  {
    if g == [] then None
    else
      var first, rest := RowMax(g[0]), NanMax(g[1..]);
      if first.None? then rest
      else if rest.Some? && rest.value > first.value then rest
      else first
  }

  /** normalize divides by zero unless the range it uses is non-degenerate. */
  predicate NormalizeDefined(g: Grid, vmin: Option<real>, vmax: Option<real>)
  {
    if vmin.Some? && vmax.Some? then vmin.value < vmax.value
    else NanMin(g).Some? && NanMax(g).Some? && NanMin(g).value < NanMax(g).value
  }

  /** Applies one cell rule to every cell of a band, keeping its shape. */
  function MapCells(g: Grid, lo: real, hi: real, clip: bool): (r: Grid)
    requires lo < hi
    ensures |r| == |g| && forall i :: 0 <= i < |g| ==> |r[i]| == |g[i]|
    ensures forall i, j :: 0 <= i < |g| && 0 <= j < |g[i]| ==> r[i][j] == NormalizeCell(g[i][j], lo, hi, clip)
  {
    seq(|g|, i requires 0 <= i < |g| => seq(|g[i]|, j requires 0 <= j < |g[i]| => NormalizeCell(g[i][j], lo, hi, clip)))
  }

  /**
   * normalize(array, vmin, vmax): when either end is None, rescale by the band's
   * finite minimum and maximum; otherwise clip to [vmin, vmax] and rescale.
   * The result keeps the band's shape and its no-data cells, and every value is in [0, 1].
   */
  function Normalize(g: Grid, vmin: Option<real>, vmax: Option<real>): (r: Grid)
    requires NormalizeDefined(g, vmin, vmax)
    ensures |r| == |g| && forall i :: 0 <= i < |g| ==> |r[i]| == |g[i]|
    ensures forall i, j :: 0 <= i < |g| && 0 <= j < |g[i]| ==> (r[i][j].NoData? <==> g[i][j].NoData?)
    ensures forall i, j :: 0 <= i < |g| && 0 <= j < |g[i]| && r[i][j].Value? ==> 0.0 <= r[i][j].v <= 1.0
  {
    if vmin.Some? && vmax.Some? then MapCells(g, vmin.value, vmax.value, true)
    else
      NanMinIsLeast(g);
      NanMaxIsGreatest(g);
      MapCells(g, NanMin(g).value, NanMax(g).value, false)
  }

  /** With an explicit range, values at or below vmin become 0 and values at or above vmax become 1. */
  lemma NormalizeExplicitClips(g: Grid, vmin: real, vmax: real, i: nat, j: nat)
    requires vmin < vmax && i < |g| && j < |g[i]| && g[i][j].Value?
    ensures var r := Normalize(g, Some(vmin), Some(vmax))[i][j];
      r.Value? &&
      (g[i][j].v <= vmin ==> r.v == 0.0) &&
      (g[i][j].v >= vmax ==> r.v == 1.0) &&
      (vmin <= g[i][j].v <= vmax ==> r.v * (vmax - vmin) == g[i][j].v - vmin)
  {
  }

  /** With an explicit range, normalisation is monotone non-decreasing across the band. */
  lemma NormalizeExplicitMonotone(g: Grid, vmin: real, vmax: real, i: nat, j: nat, k: nat, l: nat)
    requires vmin < vmax && i < |g| && j < |g[i]| && k < |g| && l < |g[k]|
    requires g[i][j].Value? && g[k][l].Value? && g[i][j].v <= g[k][l].v
    ensures var r := Normalize(g, Some(vmin), Some(vmax));
      r[i][j].Value? && r[k][l].Value? && r[i][j].v <= r[k][l].v
  {
    ClipRescaleMonotone(g[i][j].v, g[k][l].v, vmin, vmax);
  }

  /** Without a range, some cell becomes 0 and some cell becomes 1: the band's minimum and maximum. */
  lemma NormalizeAutoSpansUnitRange(g: Grid)
    requires NormalizeDefined(g, None, None)
    ensures var r := Normalize(g, None, None);
      (exists i, j :: 0 <= i < |g| && 0 <= j < |g[i]| && g[i][j] == Value(NanMin(g).value) && r[i][j] == Value(0.0)) &&
      (exists i, j :: 0 <= i < |g| && 0 <= j < |g[i]| && g[i][j] == Value(NanMax(g).value) && r[i][j] == Value(1.0))
  {
    NanMinIsLeast(g);
    NanMaxIsGreatest(g);
    var lo, hi := NanMin(g).value, NanMax(g).value;
    var r := Normalize(g, None, None);
    var i, j :| 0 <= i < |g| && 0 <= j < |g[i]| && g[i][j] == Value(lo);
    var k, l :| 0 <= k < |g| && 0 <= l < |g[k]| && g[k][l] == Value(hi);
    assert r[i][j] == Value(Rescale(lo, lo, hi));
    assert r[k][l] == Value(Rescale(hi, lo, hi));
  }

  /** Without a range, a valid cell becomes its distance from the band's minimum, divided by the band's span. */
  lemma NormalizeAutoValue(g: Grid, i: nat, j: nat)
    requires NormalizeDefined(g, None, None)
    requires i < |g| && j < |g[i]| && g[i][j].Value?
    ensures Normalize(g, None, None)[i][j] == Value(Rescale(g[i][j].v, NanMin(g).value, NanMax(g).value))
  {
    NanMinIsLeast(g);
    NanMaxIsGreatest(g);
  }

  // ---------------------------------------------------------------------------
  // Vertical flip (np.flipud)
  // ---------------------------------------------------------------------------

  /** np.flipud: row i of the result is row n-1-i of the band. */
  function FlipUd(g: Grid): (r: Grid)
    ensures |r| == |g|
    ensures forall i :: 0 <= i < |g| ==> r[i] == g[|g| - 1 - i]
  {
    seq(|g|, i requires 0 <= i < |g| => g[|g| - 1 - i])
  }

  /** Flipping twice gives the band back. */
  lemma FlipUdInvolution(g: Grid)
    ensures FlipUd(FlipUd(g)) == g
  {
  }

  /** Every cell of the band is no-data. */
  ghost predicate AllNoData(g: Grid)
  {
    forall i, j :: 0 <= i < |g| && 0 <= j < |g[i]| ==> g[i][j].NoData?
  }

  /** Some cell of the band is `c`. */
  ghost predicate HasCell(g: Grid, c: Cell)
  {
    exists i, j :: 0 <= i < |g| && 0 <= j < |g[i]| && g[i][j] == c
  }

  /** No value of the band is below `v`. */
  ghost predicate AllAtLeast(g: Grid, v: real)
  {
    forall i, j :: 0 <= i < |g| && 0 <= j < |g[i]| && g[i][j].Value? ==> v <= g[i][j].v
  }

  /** No value of the band is above `v`. */
  ghost predicate AllAtMost(g: Grid, v: real)
  {
    forall i, j :: 0 <= i < |g| && 0 <= j < |g[i]| && g[i][j].Value? ==> g[i][j].v <= v
  }

  /** `m` is np.nanmin of `g`, stated by what it means rather than how it is computed. */
  ghost predicate IsLeastValue(g: Grid, m: Option<real>)
  {
    (m.None? <==> AllNoData(g)) && (m.Some? ==> HasCell(g, Value(m.value)) && AllAtLeast(g, m.value))
  }

  /** `m` is np.nanmax of `g`. */
  ghost predicate IsGreatestValue(g: Grid, m: Option<real>)
  {
    (m.None? <==> AllNoData(g)) && (m.Some? ==> HasCell(g, Value(m.value)) && AllAtMost(g, m.value))
  }

  /** np.nanmin of a band is its least value: None iff every cell is no-data, else the value of some cell, below no other. */
  lemma {:induction false} NanMinIsLeast(g: Grid)
    ensures IsLeastValue(g, NanMin(g))
    decreases |g|
  {
    if g != [] {
      var t := g[1..];
      NanMinIsLeast(t);
      assert forall i :: 1 <= i < |g| ==> g[i] == t[i - 1];
      var first, m := RowMin(g[0]), NanMin(g);
      if first.Some? {
        var j :| 0 <= j < |g[0]| && g[0][j] == Value(first.value);
        assert HasCell(g, Value(first.value));
      }
      if NanMin(t).Some? {
        var i, j :| 0 <= i < |t| && 0 <= j < |t[i]| && t[i][j] == Value(NanMin(t).value);
        assert g[i + 1][j] == Value(NanMin(t).value);
      }
    }
  }

  /** np.nanmax of a band is its greatest value: None iff every cell is no-data, else the value of some cell, above no other. */
  lemma {:induction false} NanMaxIsGreatest(g: Grid)
    ensures IsGreatestValue(g, NanMax(g))
    decreases |g|
  {
    if g != [] {
      var t := g[1..];
      NanMaxIsGreatest(t);
      assert forall i :: 1 <= i < |g| ==> g[i] == t[i - 1];
      var first, m := RowMax(g[0]), NanMax(g);
      if first.Some? {
        var j :| 0 <= j < |g[0]| && g[0][j] == Value(first.value);
        assert HasCell(g, Value(first.value));
      }
      if NanMax(t).Some? {
        var i, j :| 0 <= i < |t| && 0 <= j < |t[i]| && t[i][j] == Value(NanMax(t).value);
        assert g[i + 1][j] == Value(NanMax(t).value);
      }
    }
  }

  lemma FlipAllNoData(g: Grid)
    requires AllNoData(g)
    ensures AllNoData(FlipUd(g))
  {
    var f: Grid, n := FlipUd(g), |g|;
    forall i: int, j: int | 0 <= i < n && 0 <= j < |f[i]| ensures f[i][j].NoData? {
      assert f[i] == g[n - 1 - i];
    }
  }

  lemma FlipHasCell(g: Grid, c: Cell)
    requires HasCell(g, c)
    ensures HasCell(FlipUd(g), c)
  {
    var f: Grid, n := FlipUd(g), |g|;
    var i, j :| 0 <= i < n && 0 <= j < |g[i]| && g[i][j] == c;
    assert f[n - 1 - i] == g[i];
  }

  lemma FlipAllAtLeast(g: Grid, v: real)
    requires AllAtLeast(g, v)
    ensures AllAtLeast(FlipUd(g), v)
  {
    var f: Grid, n := FlipUd(g), |g|;
    forall i: int, j: int | 0 <= i < n && 0 <= j < |f[i]| && f[i][j].Value? ensures v <= f[i][j].v {
      assert f[i] == g[n - 1 - i];
    }
  }

  lemma FlipAllAtMost(g: Grid, v: real)
    requires AllAtMost(g, v)
    ensures AllAtMost(FlipUd(g), v)
  {
    var f: Grid, n := FlipUd(g), |g|;
    forall i: int, j: int | 0 <= i < n && 0 <= j < |f[i]| && f[i][j].Value? ensures f[i][j].v <= v {
      assert f[i] == g[n - 1 - i];
    }
  }

  /** The flipped band has the same least value as the band. */
  lemma FlipKeepsLeastValue(g: Grid)
    ensures IsLeastValue(FlipUd(g), NanMin(g))
  {
    var f, m := FlipUd(g), NanMin(g);
    NanMinIsLeast(g);
    if AllNoData(g) {
      FlipAllNoData(g);
    }
    if AllNoData(f) {
      FlipAllNoData(f);
      FlipUdInvolution(g);
    }
    if m.Some? {
      FlipHasCell(g, Value(m.value));
      FlipAllAtLeast(g, m.value);
    }
  }

  /** The flipped band has the same greatest value as the band. */
  lemma FlipKeepsGreatestValue(g: Grid)
    ensures IsGreatestValue(FlipUd(g), NanMax(g))
  {
    var f, m := FlipUd(g), NanMax(g);
    NanMaxIsGreatest(g);
    if AllNoData(g) {
      FlipAllNoData(g);
    }
    if AllNoData(f) {
      FlipAllNoData(f);
      FlipUdInvolution(g);
    }
    if m.Some? {
      FlipHasCell(g, Value(m.value));
      FlipAllAtMost(g, m.value);
    }
  }

  /** A band has only one least value. */
  lemma LeastValueUnique(g: Grid, a: Option<real>, b: Option<real>)
    requires IsLeastValue(g, a) && IsLeastValue(g, b)
    ensures a == b
  {
    if a.Some? && b.Some? {
      var i, j :| 0 <= i < |g| && 0 <= j < |g[i]| && g[i][j] == Value(a.value);
      var k, l :| 0 <= k < |g| && 0 <= l < |g[k]| && g[k][l] == Value(b.value);
      assert b.value <= a.value && a.value <= b.value;
    }
  }

  /** A band has only one greatest value. */
  lemma GreatestValueUnique(g: Grid, a: Option<real>, b: Option<real>)
    requires IsGreatestValue(g, a) && IsGreatestValue(g, b)
    ensures a == b
  {
    if a.Some? && b.Some? {
      var i, j :| 0 <= i < |g| && 0 <= j < |g[i]| && g[i][j] == Value(a.value);
      var k, l :| 0 <= k < |g| && 0 <= l < |g[k]| && g[k][l] == Value(b.value);
      assert a.value <= b.value && b.value <= a.value;
    }
  }

  /** Flipping does not change the band's finite minimum and maximum. */
  lemma FlipKeepsExtremes(g: Grid)
    ensures NanMin(FlipUd(g)) == NanMin(g) && NanMax(FlipUd(g)) == NanMax(g)
  {
    var f := FlipUd(g);
    FlipKeepsLeastValue(g);
    NanMinIsLeast(f);
    LeastValueUnique(f, NanMin(f), NanMin(g));
    FlipKeepsGreatestValue(g);
    NanMaxIsGreatest(f);
    GreatestValueUnique(f, NanMax(f), NanMax(g));
  }

  /** A band can be normalised exactly when its flipped image can. */
  lemma FlipKeepsNormalizeDefined(g: Grid, vmin: Option<real>, vmax: Option<real>)
    ensures NormalizeDefined(FlipUd(g), vmin, vmax) == NormalizeDefined(g, vmin, vmax)
  {
    FlipKeepsExtremes(g);
  }

  /** Flip-then-normalise (what write_tif_to_pngs does) equals normalise-then-flip. */
  lemma FlipCommutesWithNormalize(g: Grid, vmin: Option<real>, vmax: Option<real>)
    requires NormalizeDefined(g, vmin, vmax)
    ensures NormalizeDefined(FlipUd(g), vmin, vmax)
    ensures Normalize(FlipUd(g), vmin, vmax) == FlipUd(Normalize(g, vmin, vmax))
  {
    FlipKeepsExtremes(g);
    if vmin.Some? && vmax.Some? {
      MapCellsFlip(g, vmin.value, vmax.value, true);
    } else {
      MapCellsFlip(g, NanMin(g).value, NanMax(g).value, false);
    }
  }

  /** Applying a cell rule commutes with flipping. */
  lemma MapCellsFlip(g: Grid, lo: real, hi: real, clip: bool)
    requires lo < hi
    ensures MapCells(FlipUd(g), lo, hi, clip) == FlipUd(MapCells(g, lo, hi, clip))
  {
    var a, b, n := MapCells(FlipUd(g), lo, hi, clip), FlipUd(MapCells(g, lo, hi, clip)), |g|;
    forall i | 0 <= i < n ensures a[i] == b[i] {
      assert FlipUd(g)[i] == g[n - 1 - i];
      assert b[i] == MapCells(g, lo, hi, clip)[n - 1 - i];
      assert |a[i]| == |b[i]|;
    }
  }

  // ---------------------------------------------------------------------------
  // write_tif_to_pngs
  // ---------------------------------------------------------------------------

  /** The image written for one band, as the loop computes it: the band flipped, then normalised. */
  function RenderBand(g: Grid, vmin: Option<real>, vmax: Option<real>): Grid
    requires NormalizeDefined(g, vmin, vmax)
  {
    FlipKeepsNormalizeDefined(g, vmin, vmax);
    Normalize(FlipUd(g), vmin, vmax)
  }

  /** The image written for a band is the normalised band upside down, with every value in [0, 1]. */
  lemma RenderBandIsFlippedNormalize(g: Grid, vmin: Option<real>, vmax: Option<real>)
    requires NormalizeDefined(g, vmin, vmax)
    ensures RenderBand(g, vmin, vmax) == FlipUd(Normalize(g, vmin, vmax))
    ensures forall i, j :: 0 <= i < |g| && 0 <= j < |RenderBand(g, vmin, vmax)[i]| && RenderBand(g, vmin, vmax)[i][j].Value? ==>
      0.0 <= RenderBand(g, vmin, vmax)[i][j].v <= 1.0
  {
    FlipCommutesWithNormalize(g, vmin, vmax);
  }

  /** `out_dir / f"{band_name}.png"`. */
  function PngPath(outDir: string, band: string): string
  {
    outDir + "/" + band + ".png"
  }

  /** Different band names give different output files. */
  lemma PngPathInjective(outDir: string, a: string, b: string)
    ensures PngPath(outDir, a) == PngPath(outDir, b) <==> a == b
  {
    if PngPath(outDir, a) == PngPath(outDir, b) {
      var p := PngPath(outDir, a);
      var n := |outDir| + 1;
      assert |a| == |b|;
      assert a == p[n..n + |a|];
      assert b == PngPath(outDir, b)[n..n + |b|];
    }
  }

  /** The files under the output directory: path to the image it holds. */
  type Disk = map<string, Grid>

  /** The names of a dataset's bands. */
  function BandNames(bands: seq<NamedBand>): (names: set<string>)
    ensures forall k :: 0 <= k < |bands| ==> bands[k].name in names
    ensures forall n :: n in names ==> exists k :: 0 <= k < |bands| && bands[k].name == n
  {
    set k | 0 <= k < |bands| :: bands[k].name
  }

  /** The output_paths dictionary after the loop has visited the first `n` bands. */
  function OutputPaths(bands: seq<NamedBand>, n: nat, outDir: string): map<string, string>
    requires n <= |bands|
  {
    if n == 0 then map[]
    else OutputPaths(bands, n - 1, outDir)[bands[n - 1].name := PngPath(outDir, bands[n - 1].name)]
  }

  /** output_paths has one key per band name seen so far, each mapped to that band's PNG path. */
  lemma {:induction false} OutputPathsSpec(bands: seq<NamedBand>, n: nat, outDir: string)
    requires n <= |bands|
    ensures OutputPaths(bands, n, outDir).Keys == set k | 0 <= k < n :: bands[k].name
    ensures forall x :: x in OutputPaths(bands, n, outDir) ==> OutputPaths(bands, n, outDir)[x] == PngPath(outDir, x)
  {
    if n > 0 {
      OutputPathsSpec(bands, n - 1, outDir);
      var before := set k | 0 <= k < n - 1 :: bands[k].name;
      var after := set k | 0 <= k < n :: bands[k].name;
      assert after == before + {bands[n - 1].name} by {
        forall x | x in after ensures x in before + {bands[n - 1].name} {
          var k :| 0 <= k < n && bands[k].name == x;
          if k < n - 1 {
            assert x in before;
          }
        }
      }
    }
  }

  /** Band names of a dataset are its data_vars keys, hence distinct. */
  predicate DistinctNames(bands: seq<NamedBand>)
  {
    forall k, l :: 0 <= k < l < |bands| ==> bands[k].name != bands[l].name
  }

  /** A band the loop renders must be normalisable; a skipped one is never looked at. */
  predicate RenderableWhereWritten(bands: seq<NamedBand>, outDir: string, vmin: Option<real>, vmax: Option<real>,
                                   overwrite: bool, disk: Disk)
  {
    forall k :: 0 <= k < |bands| && (overwrite || PngPath(outDir, bands[k].name) !in disk) ==>
      NormalizeDefined(bands[k].grid, vmin, vmax)
  }

  /** The files after the loop of write_tif_to_pngs, band by band in dataset order. */
  function WrittenDisk(bands: seq<NamedBand>, outDir: string, vmin: Option<real>, vmax: Option<real>,
                       overwrite: bool, disk: Disk): (d: Disk)
    requires RenderableWhereWritten(bands, outDir, vmin, vmax, overwrite, disk)
    ensures disk.Keys <= d.Keys
    ensures forall k :: 0 <= k < |bands| ==> PngPath(outDir, bands[k].name) in d
    decreases |bands|
  {
    if bands == [] then disk
    else
      var path := PngPath(outDir, bands[0].name);
      var next := if path in disk && !overwrite then disk
                  else disk[path := RenderBand(bands[0].grid, vmin, vmax)];
      assert forall k :: 1 <= k < |bands| ==> bands[k] == bands[1..][k - 1];
      WrittenDisk(bands[1..], outDir, vmin, vmax, overwrite, next)
  }

  /** Without overwrite, a file that was already there keeps its contents. */
  lemma {:induction false} WrittenDiskKeepsExisting(bands: seq<NamedBand>, outDir: string, vmin: Option<real>,
                                                    vmax: Option<real>, disk: Disk, p: string)
    requires RenderableWhereWritten(bands, outDir, vmin, vmax, false, disk)
    requires p in disk
    ensures WrittenDisk(bands, outDir, vmin, vmax, false, disk)[p] == disk[p]
    decreases |bands|
  {
    if bands != [] {
      var path := PngPath(outDir, bands[0].name);
      var next := if path in disk then disk else disk[path := RenderBand(bands[0].grid, vmin, vmax)];
      assert forall k :: 1 <= k < |bands| ==> bands[k] == bands[1..][k - 1];
      WrittenDiskKeepsExisting(bands[1..], outDir, vmin, vmax, next, p);
    }
  }

  /** A file no band writes keeps its contents, with or without overwrite. */
  lemma {:induction false} WrittenDiskKeepsOthers(bands: seq<NamedBand>, outDir: string, vmin: Option<real>,
                                                  vmax: Option<real>, overwrite: bool, disk: Disk, p: string)
    requires RenderableWhereWritten(bands, outDir, vmin, vmax, overwrite, disk)
    requires p in disk && forall k :: 0 <= k < |bands| ==> PngPath(outDir, bands[k].name) != p
    ensures WrittenDisk(bands, outDir, vmin, vmax, overwrite, disk)[p] == disk[p]
    decreases |bands|
  {
    if bands != [] {
      var path := PngPath(outDir, bands[0].name);
      var next := if path in disk && !overwrite then disk else disk[path := RenderBand(bands[0].grid, vmin, vmax)];
      assert forall k :: 1 <= k < |bands| ==> bands[k] == bands[1..][k - 1];
      WrittenDiskKeepsOthers(bands[1..], outDir, vmin, vmax, overwrite, next, p);
    }
  }

  /** A band whose file is missing, or every band under overwrite, ends up rendered in its own file. */
  lemma {:induction false} WrittenDiskRenders(bands: seq<NamedBand>, outDir: string, vmin: Option<real>,
                                              vmax: Option<real>, overwrite: bool, disk: Disk, k: nat)
    requires RenderableWhereWritten(bands, outDir, vmin, vmax, overwrite, disk)
    requires DistinctNames(bands)
    requires k < |bands| && (overwrite || PngPath(outDir, bands[k].name) !in disk)
    ensures NormalizeDefined(bands[k].grid, vmin, vmax)
    ensures WrittenDisk(bands, outDir, vmin, vmax, overwrite, disk)[PngPath(outDir, bands[k].name)]
         == RenderBand(bands[k].grid, vmin, vmax)
    decreases |bands|
  {
    if k == 0 {
      WrittenDiskRendersFirst(bands, outDir, vmin, vmax, overwrite, disk);
    } else {
      var rest := bands[1..];
      var path := PngPath(outDir, bands[0].name);
      var next := if path in disk && !overwrite then disk else disk[path := RenderBand(bands[0].grid, vmin, vmax)];
      assert rest[k - 1] == bands[k];
      PngPathInjective(outDir, bands[k].name, bands[0].name);
      assert DistinctNames(rest) by {
        assert forall l :: 0 <= l < |rest| ==> rest[l] == bands[l + 1];
      }
      WrittenDiskStep(bands, outDir, vmin, vmax, overwrite, disk);
      WrittenDiskRenders(rest, outDir, vmin, vmax, overwrite, next, k - 1);
    }
  }

  /** The first band's file, once written, is left alone by the bands after it. */
  lemma WrittenDiskRendersFirst(bands: seq<NamedBand>, outDir: string, vmin: Option<real>,
                                vmax: Option<real>, overwrite: bool, disk: Disk)
    requires RenderableWhereWritten(bands, outDir, vmin, vmax, overwrite, disk)
    requires DistinctNames(bands)
    requires 0 < |bands| && (overwrite || PngPath(outDir, bands[0].name) !in disk)
    ensures NormalizeDefined(bands[0].grid, vmin, vmax)
    ensures WrittenDisk(bands, outDir, vmin, vmax, overwrite, disk)[PngPath(outDir, bands[0].name)]
         == RenderBand(bands[0].grid, vmin, vmax)
  {
    var rest := bands[1..];
    var path := PngPath(outDir, bands[0].name);
    var next := disk[path := RenderBand(bands[0].grid, vmin, vmax)];
    forall l | 0 <= l < |rest| ensures PngPath(outDir, rest[l].name) != path {
      assert rest[l] == bands[l + 1];
      PngPathInjective(outDir, rest[l].name, bands[0].name);
    }
    assert RenderableWhereWritten(rest, outDir, vmin, vmax, overwrite, next) by {
      assert forall l :: 0 <= l < |rest| ==> rest[l] == bands[l + 1];
    }
    WrittenDiskKeepsOthers(rest, outDir, vmin, vmax, overwrite, next, path);
  }

  /** When every band's file already exists and overwrite is off, nothing is written. */
  lemma {:induction false} WrittenDiskSkipsAll(bands: seq<NamedBand>, outDir: string, vmin: Option<real>,
                                               vmax: Option<real>, disk: Disk)
    requires forall k :: 0 <= k < |bands| ==> PngPath(outDir, bands[k].name) in disk
    ensures RenderableWhereWritten(bands, outDir, vmin, vmax, false, disk)
    ensures WrittenDisk(bands, outDir, vmin, vmax, false, disk) == disk
    decreases |bands|
  {
    if bands != [] {
      assert forall k :: 1 <= k < |bands| ==> bands[k] == bands[1..][k - 1];
      WrittenDiskSkipsAll(bands[1..], outDir, vmin, vmax, disk);
    }
  }

  /** Re-running without overwrite after a run leaves every file as the first run left it. */
  lemma WrittenDiskIdempotent(bands: seq<NamedBand>, outDir: string, vmin: Option<real>, vmax: Option<real>, disk: Disk)
    requires RenderableWhereWritten(bands, outDir, vmin, vmax, false, disk)
    ensures var once := WrittenDisk(bands, outDir, vmin, vmax, false, disk);
      RenderableWhereWritten(bands, outDir, vmin, vmax, false, once) &&
      WrittenDisk(bands, outDir, vmin, vmax, false, once) == once
  {
    var once := WrittenDisk(bands, outDir, vmin, vmax, false, disk);
    assert forall k :: 0 <= k < |bands| ==> PngPath(outDir, bands[k].name) in once;
    WrittenDiskSkipsAll(bands, outDir, vmin, vmax, once);
  }

  /**
   * write_tif_to_pngs: records out_dir/"{band}.png" for every band, and renders
   * the band into that file unless the file exists and overwrite is off. Returns
   * the paths and the raster's bounds and EPSG code; `disk` is the output directory
   * before the call and `written` after it.
   */
  method WriteTifToPngs(dataset: RasterDataset, outDir: string, vmin: Option<real>, vmax: Option<real>,
                        overwrite: bool, disk: Disk)
    returns (outputPaths: map<string, string>, bounds: Bounds, crs: int, written: Disk)
    requires RenderableWhereWritten(dataset.bands, outDir, vmin, vmax, overwrite, disk)
    ensures outputPaths.Keys == BandNames(dataset.bands)
    ensures forall n :: n in outputPaths ==> outputPaths[n] == PngPath(outDir, n)
    ensures written == WrittenDisk(dataset.bands, outDir, vmin, vmax, overwrite, disk)
    ensures bounds == dataset.bounds && crs == dataset.crs
  {
    var bands := dataset.bands;
    outputPaths := map[];
    written := disk;
    bounds, crs := dataset.bounds, dataset.crs;
    var i := 0;
    assert bands[i..] == bands;
    while i < |bands|
      invariant 0 <= i <= |bands|
      invariant RenderableWhereWritten(bands[i..], outDir, vmin, vmax, overwrite, written)
      invariant WrittenDisk(bands[i..], outDir, vmin, vmax, overwrite, written)
             == WrittenDisk(bands, outDir, vmin, vmax, overwrite, disk)
      invariant outputPaths == OutputPaths(bands, i, outDir)
    {
      outputPaths, written := WriteBand(bands, i, outDir, vmin, vmax, overwrite, outputPaths, written);
      i := i + 1;
    }
    assert bands[i..] == [];
    assert outputPaths.Keys == BandNames(bands) && forall n :: n in outputPaths ==> outputPaths[n] == PngPath(outDir, n) by {
      OutputPathsSpec(bands, i, outDir);
    }
  }

  /**
   * One turn of the loop of write_tif_to_pngs, for band i: record its path,
   * then render it into that file unless the file exists and overwrite is off.
   */
  method WriteBand(bands: seq<NamedBand>, i: nat, outDir: string, vmin: Option<real>, vmax: Option<real>,
                   overwrite: bool, paths: map<string, string>, disk: Disk)
    returns (nextPaths: map<string, string>, next: Disk)
    requires i < |bands| && RenderableWhereWritten(bands[i..], outDir, vmin, vmax, overwrite, disk)
    requires paths == OutputPaths(bands, i, outDir)
    ensures nextPaths == OutputPaths(bands, i + 1, outDir)
    ensures var path := PngPath(outDir, bands[i].name);
      next == if path in disk && !overwrite then disk else disk[path := RenderBand(bands[i].grid, vmin, vmax)]
    ensures RenderableWhereWritten(bands[i + 1..], outDir, vmin, vmax, overwrite, next)
    ensures WrittenDisk(bands[i + 1..], outDir, vmin, vmax, overwrite, next)
         == WrittenDisk(bands[i..], outDir, vmin, vmax, overwrite, disk)
  {
    var name := bands[i].name;
    var outPath := PngPath(outDir, name);
    nextPaths := paths[name := outPath];
    WrittenDiskStep(bands[i..], outDir, vmin, vmax, overwrite, disk);
    assert bands[i..][1..] == bands[i + 1..];
    if outPath in disk && !overwrite {
      next := disk;
    } else {
      next := disk[outPath := RenderBand(bands[i].grid, vmin, vmax)];
    }
  }

  /** One turn of the loop of write_tif_to_pngs. */
  lemma WrittenDiskStep(bands: seq<NamedBand>, outDir: string, vmin: Option<real>, vmax: Option<real>,
                        overwrite: bool, disk: Disk)
    requires 0 < |bands| && RenderableWhereWritten(bands, outDir, vmin, vmax, overwrite, disk)
    ensures NormalizeDefined(bands[0].grid, vmin, vmax) || (PngPath(outDir, bands[0].name) in disk && !overwrite)
    ensures var path := PngPath(outDir, bands[0].name);
      var next := if path in disk && !overwrite then disk else disk[path := RenderBand(bands[0].grid, vmin, vmax)];
      RenderableWhereWritten(bands[1..], outDir, vmin, vmax, overwrite, next) &&
      WrittenDisk(bands, outDir, vmin, vmax, overwrite, disk) == WrittenDisk(bands[1..], outDir, vmin, vmax, overwrite, next)
  {
    var path := PngPath(outDir, bands[0].name);
    var next := if path in disk && !overwrite then disk else disk[path := RenderBand(bands[0].grid, vmin, vmax)];
    var rest := bands[1..];
    forall l | 0 <= l < |rest| && (overwrite || PngPath(outDir, rest[l].name) !in next)
      ensures NormalizeDefined(rest[l].grid, vmin, vmax)
    {
      assert rest[l] == bands[l + 1];
      assert overwrite || PngPath(outDir, bands[l + 1].name) !in disk;
    }
  }

  /** The PNG paths of the bands are the first band's path and those of the rest. */
  function BandPngPaths(bands: seq<NamedBand>, outDir: string): set<string>
  {
    set k | 0 <= k < |bands| :: PngPath(outDir, bands[k].name)
  }

  lemma BandPngPathsCons(bands: seq<NamedBand>, outDir: string)
    requires 0 < |bands|
    ensures BandPngPaths(bands, outDir) == {PngPath(outDir, bands[0].name)} + BandPngPaths(bands[1..], outDir)
  {
    var rest := bands[1..];
    var path := PngPath(outDir, bands[0].name);
    forall x | x in BandPngPaths(bands, outDir) ensures x in {path} + BandPngPaths(rest, outDir) {
      var k :| 0 <= k < |bands| && PngPath(outDir, bands[k].name) == x;
      if k > 0 {
        assert rest[k - 1] == bands[k];
      }
    }
    forall x | x in BandPngPaths(rest, outDir) ensures x in BandPngPaths(bands, outDir) {
      var k :| 0 <= k < |rest| && PngPath(outDir, rest[k].name) == x;
      assert rest[k] == bands[k + 1];
    }
  }

  /** The loop creates one file per band and no other: the directory afterwards holds exactly the old files and the bands' PNGs. */
  lemma {:induction false} WrittenDiskKeys(bands: seq<NamedBand>, outDir: string, vmin: Option<real>, vmax: Option<real>,
                                           overwrite: bool, disk: Disk)
    requires RenderableWhereWritten(bands, outDir, vmin, vmax, overwrite, disk)
    ensures WrittenDisk(bands, outDir, vmin, vmax, overwrite, disk).Keys == disk.Keys + BandPngPaths(bands, outDir)
    decreases |bands|
  {
    if bands != [] {
      WrittenDiskStep(bands, outDir, vmin, vmax, overwrite, disk);
      var path := PngPath(outDir, bands[0].name);
      var next := if path in disk && !overwrite then disk else disk[path := RenderBand(bands[0].grid, vmin, vmax)];
      WrittenDiskKeys(bands[1..], outDir, vmin, vmax, overwrite, next);
      BandPngPathsCons(bands, outDir);
      assert next.Keys == disk.Keys + {path};
    }
  }
}
