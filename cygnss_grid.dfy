/**
 * preprocess_cygnss_wind.py, gridding: each wind sample is snapped to the
 * nearest latitude and longitude of a fixed grid, and its values are written
 * into one 2-D array per variable. An empty cell (NaN in the script, `None`
 * here) takes the sample's value; an occupied cell becomes the average of
 * its old value and the sample's value.
 */
module CygnssGrid {
  import opened Optional
  import opened Numeric

  /**
   * `abs(grid - x).argmin()`: an index whose grid value is closest to `x`,
   * the first one on ties.
   */
  function NearestIndex(grid: seq<real>, x: real): (i: nat)
    requires |grid| > 0
    ensures i < |grid|
    ensures forall j :: 0 <= j < |grid| ==> Abs(grid[i] - x) <= Abs(grid[j] - x)
    ensures forall j :: 0 <= j < i ==> Abs(grid[i] - x) < Abs(grid[j] - x)
  {
    if |grid| == 1 then 0
    else
      var k := NearestIndex(grid[..|grid| - 1], x);
      var last := |grid| - 1;
      assert forall j :: 0 <= j < last ==> grid[..last][j] == grid[j];
      if Abs(grid[last] - x) < Abs(grid[k] - x) then last else k
  }

  /** The grid value nearest to a grid value is that value, at the index found for the original point. */
  lemma {:induction false} NearestOfNearest(grid: seq<real>, x: real)
    requires |grid| > 0
    ensures NearestIndex(grid, grid[NearestIndex(grid, x)]) == NearestIndex(grid, x)
  {
    var i := NearestIndex(grid, x);
    var j := NearestIndex(grid, grid[i]);
    assert Abs(grid[j] - grid[i]) <= Abs(grid[i] - grid[i]);
    assert grid[j] == grid[i];
  }

  /** A value that is on the grid is found at an index holding it; on a grid without repeats, the only one. */
  lemma {:induction false} NearestOfGridValue(grid: seq<real>, y: real)
    requires y in grid
    ensures grid[NearestIndex(grid, y)] == y
    ensures (forall a, b :: 0 <= a < b < |grid| ==> grid[a] != grid[b]) ==>
      forall k :: 0 <= k < |grid| && grid[k] == y ==> k == NearestIndex(grid, y)
  {
    var n :| 0 <= n < |grid| && grid[n] == y;
    assert Abs(grid[n] - y) == 0.0;
  }

  /**
   * The column replacement of `process_remap_indexes`: every value becomes
   * the grid value nearest to it.
   */
  function Snap(grid: seq<real>, xs: seq<real>): (snapped: seq<real>)
    requires |grid| > 0
    ensures |snapped| == |xs|
    ensures forall k :: 0 <= k < |xs| ==> snapped[k] in grid
    ensures forall k, j :: 0 <= k < |xs| && 0 <= j < |grid| ==> Abs(snapped[k] - xs[k]) <= Abs(grid[j] - xs[k])
  {
    seq(|xs|, k requires 0 <= k < |xs| => grid[NearestIndex(grid, xs[k])])
  }

  /** Snapping twice is snapping once. */
  lemma {:induction false} SnapIdempotent(grid: seq<real>, xs: seq<real>)
    requires |grid| > 0
    ensures Snap(grid, Snap(grid, xs)) == Snap(grid, xs)
  {
    var once := Snap(grid, xs);
    forall k | 0 <= k < |xs| ensures Snap(grid, once)[k] == once[k] {
      NearestOfNearest(grid, xs[k]);
    }
  }

  /**
   * The sample table: one row per sample, the `lat` and `lon` columns and
   * the value columns by name.
   */
  class Frame {
    var lat: seq<real>
    var lon: seq<real>
    var columns: map<string, seq<real>>

    predicate Valid()
      reads this
    {
      |lon| == |lat| && forall c :: c in columns ==> |columns[c]| == |lat|
    }

    constructor (lat: seq<real>, lon: seq<real>, columns: map<string, seq<real>>)
      requires |lon| == |lat| && forall c :: c in columns ==> |columns[c]| == |lat|
      ensures Valid()
      ensures this.lat == lat && this.lon == lon && this.columns == columns
    {
      this.lat := lat;
      this.lon := lon;
      this.columns := columns;
    }
  }

  /**
   * `process_remap_indexes`: replaces the frame's `lat` and `lon` columns by
   * the nearest grid coordinates; the rows and the other columns stay.
   */
  method ProcessRemapIndexes(latitude: seq<real>, longitude: seq<real>, df: Frame)
    requires |latitude| > 0 && |longitude| > 0
    requires df.Valid()
    modifies df
    ensures df.Valid()
    ensures df.lat == Snap(latitude, old(df.lat))
    ensures df.lon == Snap(longitude, old(df.lon))
    ensures df.columns == old(df.columns)
  {
    df.lat := Snap(latitude, df.lat);
    df.lon := Snap(longitude, df.lon);
  }

  /** The variables the script grids by default. */
  const DefaultVariables: seq<string> := ["wind_speed", "wind_speed_uncertainty"]

  /**
   * `create_variable_arrays`: one new `|latitude| x |longitude|` array per
   * variable name, every cell empty.
   */
  method CreateVariableArrays(latitude: seq<real>, longitude: seq<real>, variables: seq<string>)
    returns (arrays: map<string, array2<Option<real>>>)
    ensures forall v :: v in arrays <==> v in variables
    ensures forall v :: v in arrays ==> fresh(arrays[v])
    ensures forall v :: v in arrays ==>
      arrays[v].Length0 == |latitude| && arrays[v].Length1 == |longitude|
    ensures forall v, a, b :: v in arrays && 0 <= a < arrays[v].Length0 && 0 <= b < arrays[v].Length1 ==>
      arrays[v][a, b] == None
    ensures forall v, w :: v in arrays && w in arrays && v != w ==> arrays[v] != arrays[w]
  {
    arrays := map[];
    var k := 0;
    while k < |variables|
      invariant 0 <= k <= |variables|
      invariant forall v :: v in arrays <==> v in variables[..k]
      invariant forall v :: v in arrays ==> fresh(arrays[v])
      invariant forall v :: v in arrays ==>
        arrays[v].Length0 == |latitude| && arrays[v].Length1 == |longitude|
      invariant forall v, a, b :: v in arrays && 0 <= a < arrays[v].Length0 && 0 <= b < arrays[v].Length1 ==>
        arrays[v][a, b] == None
      invariant forall v, w :: v in arrays && w in arrays && v != w ==> arrays[v] != arrays[w]
    {
      var cells := new Option<real>[|latitude|, |longitude|]((a, b) => None);
      arrays := arrays[variables[k] := cells];
      assert variables[..k + 1] == variables[..k] + [variables[k]];
      k := k + 1;
    }
    assert variables[..k] == variables;
  }

  /**
   * The template built once at start-up: `create_variable_arrays` with its
   * default variables, one empty array for the wind speed and one for its
   * uncertainty.
   */
  method VariableArraysTemplate(latitude: seq<real>, longitude: seq<real>)
    returns (arrays: map<string, array2<Option<real>>>)
    ensures arrays.Keys == {"wind_speed", "wind_speed_uncertainty"}
    ensures arrays["wind_speed"] != arrays["wind_speed_uncertainty"]
    ensures forall v :: v in arrays ==>
      arrays[v].Length0 == |latitude| && arrays[v].Length1 == |longitude|
    ensures forall v, a, b :: v in arrays && 0 <= a < arrays[v].Length0 && 0 <= b < arrays[v].Length1 ==>
      arrays[v][a, b] == None
  {
    arrays := CreateVariableArrays(latitude, longitude, DefaultVariables);
    assert "wind_speed" != "wind_speed_uncertainty";
  }

  /** The cell update: an empty cell takes the value, an occupied one the mean of old and new. */
  function Merge(cell: Option<real>, x: real): (r: Option<real>)
    ensures r.Some?
    ensures cell.None? ==> r.value == x
    ensures cell.Some? ==> r.value - cell.value == x - r.value
  {
    if cell.None? then Some(x) else Some((cell.value + x) / 2.0)
  }

  /** Three samples in one cell: the last counts for half, not a third. */
  lemma {:induction false} RunningAverageWeighsLastSample(x: real, y: real, z: real)
    ensures Merge(Merge(Merge(None, x), y), z) == Some(x / 4.0 + y / 4.0 + z / 2.0)
  {
  }

  /** Whether sample `r` falls into cell (`a`, `b`). */
  predicate Hits(latitude: seq<real>, longitude: seq<real>, lats: seq<real>, lons: seq<real>, r: nat, a: nat, b: nat)
    requires |latitude| > 0 && |longitude| > 0
    requires r < |lats| && r < |lons|
  {
    NearestIndex(latitude, lats[r]) == a && NearestIndex(longitude, lons[r]) == b
  }

  /**
   * The value cell (`a`, `b`) of one variable holds after the first `n`
   * samples, starting from `init`: the samples that fall into it merged in
   * order.
   */
  function Binned(init: Option<real>, latitude: seq<real>, longitude: seq<real>,
                  lats: seq<real>, lons: seq<real>, vals: seq<real>, n: nat, a: nat, b: nat): (cell: Option<real>)
    requires n <= |lats| && n <= |lons| && n <= |vals|
    requires n > 0 ==> |latitude| > 0 && |longitude| > 0
    ensures (exists r :: 0 <= r < n && Hits(latitude, longitude, lats, lons, r, a, b)) ==> cell.Some?
    decreases n
  {
    if n == 0 then init
    else
      var prev := Binned(init, latitude, longitude, lats, lons, vals, n - 1, a, b);
      if Hits(latitude, longitude, lats, lons, n - 1, a, b) then Merge(prev, vals[n - 1]) else prev
  }

  /** A cell no sample falls into keeps its value; a new array's cell stays empty. */
  lemma {:induction false} BinnedUntouched(init: Option<real>, latitude: seq<real>, longitude: seq<real>,
                                           lats: seq<real>, lons: seq<real>, vals: seq<real>, n: nat, a: nat, b: nat)
    requires n <= |lats| && n <= |lons| && n <= |vals|
    requires n > 0 ==> |latitude| > 0 && |longitude| > 0
    requires forall r :: 0 <= r < n ==> !Hits(latitude, longitude, lats, lons, r, a, b)
    ensures Binned(init, latitude, longitude, lats, lons, vals, n, a, b) == init
  {
    if n > 0 {
      BinnedUntouched(init, latitude, longitude, lats, lons, vals, n - 1, a, b);
    }
  }

  /**
   * The value of a cell stays within the range of the samples that fall
   * into it (and of its starting value).
   */
  lemma {:induction false} BinnedWithinRange(init: Option<real>, latitude: seq<real>, longitude: seq<real>,
                                             lats: seq<real>, lons: seq<real>, vals: seq<real>, n: nat, a: nat, b: nat,
                                             lo: real, hi: real)
    requires n <= |lats| && n <= |lons| && n <= |vals|
    requires n > 0 ==> |latitude| > 0 && |longitude| > 0
    requires init.Some? ==> lo <= init.value <= hi
    requires forall r :: 0 <= r < n && Hits(latitude, longitude, lats, lons, r, a, b) ==> lo <= vals[r] <= hi
    ensures var cell := Binned(init, latitude, longitude, lats, lons, vals, n, a, b);
      cell.Some? ==> lo <= cell.value <= hi
  {
    if n > 0 {
      BinnedWithinRange(init, latitude, longitude, lats, lons, vals, n - 1, a, b, lo, hi);
    }
  }

  /** A sample falls into the same cell before and after its coordinates are snapped. */
  lemma {:induction false} HitsAfterSnap(latitude: seq<real>, longitude: seq<real>, lats: seq<real>, lons: seq<real>, r: nat, a: nat, b: nat)
    requires |latitude| > 0 && |longitude| > 0
    requires r < |lats| && r < |lons|
    ensures Hits(latitude, longitude, Snap(latitude, lats), Snap(longitude, lons), r, a, b)
      == Hits(latitude, longitude, lats, lons, r, a, b)
  {
    NearestOfNearest(latitude, lats[r]);
    NearestOfNearest(longitude, lons[r]);
    assert Snap(latitude, lats)[r] == latitude[NearestIndex(latitude, lats[r])];
    assert Snap(longitude, lons)[r] == longitude[NearestIndex(longitude, lons[r])];
  }

  /** Two coordinate columns that put every sample into the same cells bin alike. */
  lemma {:induction false} BinnedSameHits(init: Option<real>, latitude: seq<real>, longitude: seq<real>,
                                          lats: seq<real>, lons: seq<real>, lats': seq<real>, lons': seq<real>,
                                          vals: seq<real>, n: nat, a: nat, b: nat)
    requires |latitude| > 0 && |longitude| > 0
    requires n <= |lats| && n <= |lons| && n <= |lats'| && n <= |lons'| && n <= |vals|
    requires forall r :: 0 <= r < n ==>
      Hits(latitude, longitude, lats, lons, r, a, b) == Hits(latitude, longitude, lats', lons', r, a, b)
    ensures Binned(init, latitude, longitude, lats', lons', vals, n, a, b)
      == Binned(init, latitude, longitude, lats, lons, vals, n, a, b)
  {
    if n > 0 {
      BinnedSameHits(init, latitude, longitude, lats, lons, lats', lons', vals, n - 1, a, b);
    }
  }

  /**
   * Snapping the coordinates first, as `main` does, puts every sample into
   * the same cell as the raw coordinates would.
   */
  lemma {:induction false} BinnedAfterSnap(init: Option<real>, latitude: seq<real>, longitude: seq<real>,
                        lats: seq<real>, lons: seq<real>, vals: seq<real>, n: nat, a: nat, b: nat)
    requires |latitude| > 0 && |longitude| > 0
    requires n <= |lats| && n <= |lons| && n <= |vals|
    ensures Binned(init, latitude, longitude, Snap(latitude, lats), Snap(longitude, lons), vals, n, a, b)
      == Binned(init, latitude, longitude, lats, lons, vals, n, a, b)
  {
    forall r | 0 <= r < n
      ensures Hits(latitude, longitude, lats, lons, r, a, b)
        == Hits(latitude, longitude, Snap(latitude, lats), Snap(longitude, lons), r, a, b)
    {
      HitsAfterSnap(latitude, longitude, lats, lons, r, a, b);
    }
    BinnedSameHits(init, latitude, longitude, lats, lons, Snap(latitude, lats), Snap(longitude, lons), vals, n, a, b);
  }

  /**
   * `map_to_variables`: every sample, in row order, is merged into the cell
   * nearest to its coordinates, in every variable's array. Afterwards each
   * cell holds what `Binned` says of its old value.
   */
  method MapToVariables(latitude: seq<real>, longitude: seq<real>, df: Frame,
                        arrays: map<string, array2<Option<real>>>)
    requires df.Valid()
    requires |df.lat| > 0 ==> |latitude| > 0 && |longitude| > 0
    requires forall v :: v in arrays ==> v in df.columns
    requires forall v :: v in arrays ==>
      arrays[v].Length0 >= |latitude| && arrays[v].Length1 >= |longitude|
    requires forall v, w :: v in arrays && w in arrays && v != w ==> arrays[v] != arrays[w]
    modifies arrays.Values
    ensures forall v, a, b :: v in arrays && 0 <= a < arrays[v].Length0 && 0 <= b < arrays[v].Length1 ==>
      arrays[v][a, b] == Binned(old(arrays[v][a, b]), latitude, longitude, df.lat, df.lon, df.columns[v], |df.lat|, a, b)
  {
    var lats, lons, columns := df.lat, df.lon, df.columns;
    var r := 0;
    while r < |lats|
      invariant 0 <= r <= |lats|
      invariant forall v, a, b :: v in arrays && 0 <= a < arrays[v].Length0 && 0 <= b < arrays[v].Length1 ==>
        arrays[v][a, b] == Binned(old(arrays[v][a, b]), latitude, longitude, lats, lons, columns[v], r, a, b)
    {
      var i := NearestIndex(latitude, lats[r]);
      var j := NearestIndex(longitude, lons[r]);
      MergeSample(arrays, i, j, columns, r);
      forall v, a, b | v in arrays && 0 <= a < arrays[v].Length0 && 0 <= b < arrays[v].Length1
        ensures arrays[v][a, b] == Binned(old(arrays[v][a, b]), latitude, longitude, lats, lons, columns[v], r + 1, a, b)
      {
        assert Hits(latitude, longitude, lats, lons, r, a, b) <==> a == i && b == j;
      }
      r := r + 1;
    }
  }

  /** The inner loop over the variables: sample `r` merged into cell (`i`, `j`) of every array. */
  method MergeSample(arrays: map<string, array2<Option<real>>>, i: nat, j: nat, columns: map<string, seq<real>>, r: nat)
    requires forall v :: v in arrays ==> v in columns && r < |columns[v]| && i < arrays[v].Length0 && j < arrays[v].Length1
    requires forall v, w :: v in arrays && w in arrays && v != w ==> arrays[v] != arrays[w]
    modifies arrays.Values
    ensures forall v, a, b :: v in arrays && 0 <= a < arrays[v].Length0 && 0 <= b < arrays[v].Length1 ==>
      arrays[v][a, b] == if a == i && b == j then Merge(old(arrays[v][a, b]), columns[v][r]) else old(arrays[v][a, b])
  {
    var todo := arrays.Keys;
    while todo != {}
      invariant todo <= arrays.Keys
      invariant forall v, a, b :: v in arrays && 0 <= a < arrays[v].Length0 && 0 <= b < arrays[v].Length1 ==>
        arrays[v][a, b] == if v !in todo && a == i && b == j then Merge(old(arrays[v][a, b]), columns[v][r])
                           else old(arrays[v][a, b])
    {
      var v :| v in todo;
      Accumulate(arrays[v], i, j, columns[v][r]);
      todo := todo - {v};
    }
  }

  /** One cell update: cell (`i`, `j`) merges `x`, every other cell stays. */
  method Accumulate(cells: array2<Option<real>>, i: nat, j: nat, x: real)
    requires i < cells.Length0 && j < cells.Length1
    modifies cells
    ensures cells[i, j] == Merge(old(cells[i, j]), x)
    ensures forall a, b :: 0 <= a < cells.Length0 && 0 <= b < cells.Length1 && (a != i || b != j) ==>
      cells[a, b] == old(cells[a, b])
  {
    cells[i, j] := Merge(cells[i, j], x);
  }
}
