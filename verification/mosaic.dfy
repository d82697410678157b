/**
 * Mosaicking of NHDPlus RPU tiles into one raster per VPU and dataset
 * (scripts/process_NHD_by_vpu.py).
 *
 * Tiles are read with their nodata mask applied, so a cell is `None` where the
 * tile has no data.  All tiles of a VPU are placed on one frame anchored at a
 * common origin; a tile smaller than the frame has no data beyond its edge, and
 * the merged grid covers the union of the tiles (the largest height and width).
 */
module Mosaic {
  import opened Core

  type Cell = Option<int>
  type Grid = seq<seq<Cell>>

  /** One RPU tile: the CRS string it declares and its masked cells. */
  datatype Tile = Tile(crs: string, grid: Grid)

  /** One dataset entry of a VPU's configuration, in configuration order. */
  datatype Dataset = Dataset(name: string, rpus: seq<string>, output: string)

  /** The paths that exist, and the tile stored in every readable raster folder. */
  datatype Disk = Disk(paths: set<string>, tiles: map<string, Tile>)

  const BasePath: string := "/caldera/hovenweep/projects/usgs/water/impd/nhgf/gfv2_param"
  const GridHeader: string := "hdr.adf"

  /** A configured path, taken relative to the base directory. */
  function Resolve(p: string): string
  {
    Join(BasePath, LStrip(p, '/'))
  }

  // ---------------------------------------------------------------------
  // Reading and validating the RPU folders
  // ---------------------------------------------------------------------

  /** One RPU folder: existence first, then the ESRI Grid header, then the read. */
  function ReadFolder(rpu: string, disk: Disk): (r: Result<Tile>)
    ensures r.Ok? <==> Resolve(rpu) in disk.paths && Join(Resolve(rpu), GridHeader) in disk.paths && Resolve(rpu) in disk.tiles
    ensures r.Ok? ==> r.value == disk.tiles[Resolve(rpu)]
    ensures Resolve(rpu) !in disk.paths ==> r == Err(MissingPath(Resolve(rpu)))
    ensures Resolve(rpu) in disk.paths && Join(Resolve(rpu), GridHeader) !in disk.paths ==> r == Err(InvalidGrid(Resolve(rpu)))
  {
    var d := Resolve(rpu);
    if d !in disk.paths then Err(MissingPath(d))
    else if Join(d, GridHeader) !in disk.paths then Err(InvalidGrid(d))
    else if d !in disk.tiles then Err(Unreadable(d))
    else Ok(disk.tiles[d])
  }

  /** The results in order, or the first failure among them. */
  function Collect<T>(rs: seq<Result<T>>): (r: Result<seq<T>>)
    ensures r.Ok? ==> |r.value| == |rs|
    decreases |rs|
  {
    if |rs| == 0 then Ok([])
    else if rs[0].Err? then Err(rs[0].failure)
    else
      match Collect(rs[1..])
      case Err(f) => Err(f)
      case Ok(vs) => Ok([rs[0].value] + vs)
  }

  /**
   * Collecting succeeds exactly when every result is a success, yielding the
   * values in order; otherwise it yields the first failure, all results before
   * it being successes.
   */
  lemma {:induction false} CollectFirstFailure<T>(rs: seq<Result<T>>)
    ensures var r := Collect(rs);
      && (r.Ok? <==> forall k :: 0 <= k < |rs| ==> rs[k].Ok?)
      && (r.Ok? ==> forall k :: 0 <= k < |rs| ==> rs[k] == Ok(r.value[k]))
      && (r.Err? ==> exists k :: 0 <= k < |rs| && rs[k] == Err(r.failure) && forall j :: 0 <= j < k ==> rs[j].Ok?)
    decreases |rs|
  {
    if |rs| > 0 && rs[0].Ok? {
      CollectFirstFailure(rs[1..]);
      assert forall k :: 1 <= k < |rs| ==> rs[k] == rs[1..][k - 1];
      var rest := Collect(rs[1..]);
      if rest.Err? {
        var k :| 0 <= k < |rs[1..]| && rs[1..][k] == Err(rest.failure) && forall j :: 0 <= j < k ==> rs[1..][j].Ok?;
        assert rs[k + 1] == Err(rest.failure);
      }
    }
  }

  /** The folders in list order; the first folder that fails stops the read. */
  function ReadTiles(rpus: seq<string>, disk: Disk): (r: Result<seq<Tile>>)
    ensures r.Ok? ==> |r.value| == |rpus|
  {
    Collect(seq(|rpus|, k requires 0 <= k < |rpus| => ReadFolder(rpus[k], disk)))
  }

  /**
   * Reading succeeds exactly when every folder reads, yielding the folders'
   * tiles in order; otherwise the failure is that of the first folder that
   * fails, all folders before it having passed.
   */
  lemma ReadTilesFirstFailure(rpus: seq<string>, disk: Disk)
    ensures var r := ReadTiles(rpus, disk);
      && (r.Ok? <==> forall k :: 0 <= k < |rpus| ==> ReadFolder(rpus[k], disk).Ok?)
      && (r.Ok? ==> forall k :: 0 <= k < |rpus| ==> ReadFolder(rpus[k], disk) == Ok(r.value[k]))
      && (r.Err? ==> exists k :: 0 <= k < |rpus| && ReadFolder(rpus[k], disk) == Err(r.failure)
                                 && forall j :: 0 <= j < k ==> ReadFolder(rpus[j], disk).Ok?)
  {
    var rs := seq(|rpus|, k requires 0 <= k < |rpus| => ReadFolder(rpus[k], disk));
    var r := Collect(rs);
    assert ReadTiles(rpus, disk) == r;
    assert forall k :: 0 <= k < |rpus| ==> rs[k] == ReadFolder(rpus[k], disk);
    CollectFirstFailure(rs);
    if r.Err? {
      var k :| 0 <= k < |rs| && rs[k] == Err(r.failure) && forall j :: 0 <= j < k ==> rs[j].Ok?;
      assert ReadFolder(rpus[k], disk) == Err(r.failure);
    }
  }

  // ---------------------------------------------------------------------
  // The frame and the two merge rules
  // ---------------------------------------------------------------------

  function Max(a: nat, b: nat): nat { if a >= b then a else b }

  function RowWidth(g: Grid): (w: nat)
    ensures forall i :: 0 <= i < |g| ==> |g[i]| <= w
    ensures |g| > 0 ==> exists i :: 0 <= i < |g| && |g[i]| == w
    ensures |g| == 0 ==> w == 0
  {
    if |g| == 0 then 0
    else
      var w := Max(|g[0]|, RowWidth(g[1..]));
      assert forall i :: 1 <= i < |g| ==> g[i] == g[1..][i - 1];
      w
  }

  function FrameHeight(tiles: seq<Tile>): (h: nat)
    ensures forall k :: 0 <= k < |tiles| ==> |tiles[k].grid| <= h
    ensures |tiles| > 0 ==> exists k :: 0 <= k < |tiles| && |tiles[k].grid| == h
    ensures |tiles| == 0 ==> h == 0
  {
    if |tiles| == 0 then 0
    else
      assert forall k :: 1 <= k < |tiles| ==> tiles[k] == tiles[1..][k - 1];
      Max(|tiles[0].grid|, FrameHeight(tiles[1..]))
  }

  function FrameWidth(tiles: seq<Tile>): (w: nat)
    ensures forall k :: 0 <= k < |tiles| ==> RowWidth(tiles[k].grid) <= w
    ensures |tiles| > 0 ==> exists k :: 0 <= k < |tiles| && RowWidth(tiles[k].grid) == w
    ensures |tiles| == 0 ==> w == 0
  {
    if |tiles| == 0 then 0
    else
      assert forall k :: 1 <= k < |tiles| ==> tiles[k] == tiles[1..][k - 1];
      Max(RowWidth(tiles[0].grid), FrameWidth(tiles[1..]))
  }

  /** A cell of a tile on the common frame; beyond the tile's edge it is missing. */
  function CellAt(g: Grid, i: nat, j: nat): Cell
  {
    if i < |g| && j < |g[i]| then g[i][j] else None
  }

  /** The cells the tiles hold at one position, in tile order. */
  function Column(tiles: seq<Tile>, i: nat, j: nat): (cs: seq<Cell>)
    ensures |cs| == |tiles|
    ensures forall k :: 0 <= k < |tiles| ==> cs[k] == CellAt(tiles[k].grid, i, j)
  {
    seq(|tiles|, k requires 0 <= k < |tiles| => CellAt(tiles[k].grid, i, j))
  }

  /** Cell-wise minimum of the present values; missing where none is present. */
  function MinPresent(cs: seq<Cell>): (r: Cell)
    ensures r.None? <==> forall k :: 0 <= k < |cs| ==> cs[k].None?
    ensures r.Some? ==> exists k :: 0 <= k < |cs| && cs[k] == r
    ensures r.Some? ==> forall k :: 0 <= k < |cs| && cs[k].Some? ==> r.value <= cs[k].value
    decreases |cs|
  {
    if |cs| == 0 then None
    else
      var rest := MinPresent(cs[1..]);
      assert forall k :: 1 <= k < |cs| ==> cs[k] == cs[1..][k - 1];
      match cs[0]
      case None => rest
      case Some(v) =>
        match rest
        case None => Some(v)
        case Some(u) => if v <= u then Some(v) else Some(u)
  }

  /** The first present value in tile order; missing where none is present. */
  function FirstPresent(cs: seq<Cell>): (r: Cell)
    ensures r.None? <==> forall k :: 0 <= k < |cs| ==> cs[k].None?
    ensures r.Some? ==> exists k :: 0 <= k < |cs| && cs[k] == r && forall j :: 0 <= j < k ==> cs[j].None?
    decreases |cs|
  {
    if |cs| == 0 then None
    else if cs[0].Some? then cs[0]
    else
      var rest := FirstPresent(cs[1..]);
      assert forall k :: 1 <= k < |cs| ==> cs[k] == cs[1..][k - 1];
      if rest.Some? then
        ghost var k :| 0 <= k < |cs[1..]| && cs[1..][k] == rest && forall j :: 0 <= j < k ==> cs[1..][j].None?;
        assert cs[k + 1] == rest;
        rest
      else rest
  }

  datatype MergeMethod = CellMin | FirstValid

  /** Elevation-like datasets keep the lowest value at overlaps; all others the first. */
  function MergeMethodFor(name: string): MergeMethod
  {
    if name == "NEDSnapshot" || name == "Hydrodem" then CellMin else FirstValid
  }

  function Combine(m: MergeMethod, cs: seq<Cell>): Cell
  {
    match m
    case CellMin => MinPresent(cs)
    case FirstValid => FirstPresent(cs)
  }

  function MergeTiles(tiles: seq<Tile>, m: MergeMethod): (g: Grid)
    ensures |g| == FrameHeight(tiles)
    ensures forall i :: 0 <= i < |g| ==> |g[i]| == FrameWidth(tiles)
  {
    seq(FrameHeight(tiles), i requires 0 <= i => seq(FrameWidth(tiles), j requires 0 <= j => Combine(m, Column(tiles, i, j))))
  }

  /** `c` is the lowest value the tiles hold at (i, j), missing where none has one. */
  ghost predicate IsLowestAt(c: Cell, tiles: seq<Tile>, i: nat, j: nat)
  {
    && (c.None? <==> forall k :: 0 <= k < |tiles| ==> CellAt(tiles[k].grid, i, j).None?)
    && (c.Some? ==> exists k :: 0 <= k < |tiles| && CellAt(tiles[k].grid, i, j) == c)
    && (c.Some? ==> forall k :: 0 <= k < |tiles| && CellAt(tiles[k].grid, i, j).Some? ==> c.value <= CellAt(tiles[k].grid, i, j).value)
  }

  /** `c` is the value of the first tile (in list order) that has one at (i, j). */
  ghost predicate IsFirstAt(c: Cell, tiles: seq<Tile>, i: nat, j: nat)
  {
    && (c.None? <==> forall k :: 0 <= k < |tiles| ==> CellAt(tiles[k].grid, i, j).None?)
    && (c.Some? ==> exists k :: 0 <= k < |tiles| && CellAt(tiles[k].grid, i, j) == c
                                && forall l :: 0 <= l < k ==> CellAt(tiles[l].grid, i, j).None?)
  }

  /**
   * The merge step: a single tile is used as it is; several tiles are merged by
   * the dataset's rule over the union frame; no tile at all fails as the merge
   * library does when it indexes the first array.
   */
  function MergeDataset(tiles: seq<Tile>, name: string): (r: Result<Grid>)
    ensures r.Err? <==> |tiles| == 0
    ensures r.Err? ==> r.failure == EmptyMerge
    ensures |tiles| == 1 ==> r == Ok(tiles[0].grid)
    ensures |tiles| > 1 ==> r == Ok(MergeTiles(tiles, MergeMethodFor(name)))
  {
    if |tiles| == 0 then Err(EmptyMerge)
    else if |tiles| == 1 then Ok(tiles[0].grid)
    else Ok(MergeTiles(tiles, MergeMethodFor(name)))
  }

  /** The minimum over one column is the lowest value the tiles hold there. */
  lemma MinOfColumn(tiles: seq<Tile>, i: nat, j: nat)
    ensures IsLowestAt(MinPresent(Column(tiles, i, j)), tiles, i, j)
  {
  }

  /** The first present value of one column is the first tile's value there. */
  lemma FirstOfColumn(tiles: seq<Tile>, i: nat, j: nat)
    ensures IsFirstAt(FirstPresent(Column(tiles, i, j)), tiles, i, j)
  {
    var cs := Column(tiles, i, j);
    var c := FirstPresent(cs);
    if c.Some? {
      var k :| 0 <= k < |cs| && cs[k] == c && forall l :: 0 <= l < k ==> cs[l].None?;
      assert CellAt(tiles[k].grid, i, j) == c;
    }
  }

  /** Every cell of a minimum merge is the lowest value the tiles hold there. */
  lemma MinMergeTakesLowest(tiles: seq<Tile>)
    ensures var g := MergeTiles(tiles, CellMin);
      forall i, j :: 0 <= i < |g| && 0 <= j < |g[i]| ==> IsLowestAt(g[i][j], tiles, i, j)
  {
    var g := MergeTiles(tiles, CellMin);
    forall i, j | 0 <= i < |g| && 0 <= j < |g[i]|
      ensures IsLowestAt(g[i][j], tiles, i, j)
    {
      assert g[i][j] == MinPresent(Column(tiles, i, j));
      MinOfColumn(tiles, i, j);
    }
  }

  /** Every cell of a first-valid merge is the first tile's value that is present there. */
  lemma FirstMergeTakesFirst(tiles: seq<Tile>)
    ensures var g := MergeTiles(tiles, FirstValid);
      forall i, j :: 0 <= i < |g| && 0 <= j < |g[i]| ==> IsFirstAt(g[i][j], tiles, i, j)
  {
    var g := MergeTiles(tiles, FirstValid);
    forall i, j | 0 <= i < |g| && 0 <= j < |g[i]|
      ensures IsFirstAt(g[i][j], tiles, i, j)
    {
      assert g[i][j] == FirstPresent(Column(tiles, i, j));
      FirstOfColumn(tiles, i, j);
    }
  }

  /** Two cells that are both the lowest value over the same tiles are equal. */
  lemma LowestIsUnique(c: Cell, d: Cell, tiles: seq<Tile>, tiles': seq<Tile>, i: nat, j: nat)
    requires forall t :: t in tiles <==> t in tiles'
    requires IsLowestAt(c, tiles, i, j) && IsLowestAt(d, tiles', i, j)
    ensures c == d
  {
    if c.Some? {
      var k :| 0 <= k < |tiles| && CellAt(tiles[k].grid, i, j) == c;
      assert tiles[k] in tiles';
      var k' :| 0 <= k' < |tiles'| && tiles'[k'] == tiles[k];
      assert CellAt(tiles'[k'].grid, i, j).Some?;
      assert d.Some? && d.value <= c.value;
      var l' :| 0 <= l' < |tiles'| && CellAt(tiles'[l'].grid, i, j) == d;
      assert tiles'[l'] in tiles;
      var l :| 0 <= l < |tiles| && tiles[l] == tiles'[l'];
      assert c.value <= d.value;
    } else {
      forall k' | 0 <= k' < |tiles'|
        ensures CellAt(tiles'[k'].grid, i, j).None?
      {
        assert tiles'[k'] in tiles;
        var k :| 0 <= k < |tiles| && tiles[k] == tiles'[k'];
      }
    }
  }

  lemma SameTilesSameHeight(tiles: seq<Tile>, tiles': seq<Tile>)
    requires forall t :: t in tiles <==> t in tiles'
    ensures FrameHeight(tiles) == FrameHeight(tiles')
  {
    if |tiles'| > 0 {
      assert tiles'[0] in tiles;
    }
    if |tiles| > 0 {
      var k :| 0 <= k < |tiles| && |tiles[k].grid| == FrameHeight(tiles);
      assert tiles[k] in tiles';
      var k' :| 0 <= k' < |tiles'| && tiles'[k'] == tiles[k];
      var m' :| 0 <= m' < |tiles'| && |tiles'[m'].grid| == FrameHeight(tiles');
      assert tiles'[m'] in tiles;
      var m :| 0 <= m < |tiles| && tiles[m] == tiles'[m'];
    }
  }

  lemma SameTilesSameWidth(tiles: seq<Tile>, tiles': seq<Tile>)
    requires forall t :: t in tiles <==> t in tiles'
    ensures FrameWidth(tiles) == FrameWidth(tiles')
  {
    if |tiles'| > 0 {
      assert tiles'[0] in tiles;
    }
    if |tiles| > 0 {
      var k :| 0 <= k < |tiles| && RowWidth(tiles[k].grid) == FrameWidth(tiles);
      assert tiles[k] in tiles';
      var k' :| 0 <= k' < |tiles'| && tiles'[k'] == tiles[k];
      var m' :| 0 <= m' < |tiles'| && RowWidth(tiles'[m'].grid) == FrameWidth(tiles');
      assert tiles'[m'] in tiles;
      var m :| 0 <= m < |tiles| && tiles[m] == tiles'[m'];
    }
  }

  /**
   * The cell-minimum merge does not depend on the order (or repetition) of the
   * tiles: any two lists of the same tiles merge to the same grid.
   */
  lemma MinMergeIgnoresOrder(tiles: seq<Tile>, tiles': seq<Tile>)
    requires forall t :: t in tiles <==> t in tiles'
    ensures MergeTiles(tiles, CellMin) == MergeTiles(tiles', CellMin)
  {
    var a := MergeTiles(tiles, CellMin);
    var b := MergeTiles(tiles', CellMin);
    SameTilesSameHeight(tiles, tiles');
    SameTilesSameWidth(tiles, tiles');
    MinMergeTakesLowest(tiles);
    MinMergeTakesLowest(tiles');
    assert |a| == |b|;
    forall i | 0 <= i < |a|
      ensures a[i] == b[i]
    {
      forall j | 0 <= j < |a[i]|
        ensures a[i][j] == b[i][j]
      {
        LowestIsUnique(a[i][j], b[i][j], tiles, tiles', i, j);
      }
    }
  }

  /** Merging a single rectangular tile by either rule gives the tile back. */
  lemma MergeOfOneTileIsIdentity(t: Tile, m: MergeMethod, w: nat)
    requires forall i :: 0 <= i < |t.grid| ==> |t.grid[i]| == w
    requires |t.grid| > 0
    ensures MergeTiles([t], m) == t.grid
  {
    var g := MergeTiles([t], m);
    assert RowWidth(t.grid) == w;
    assert FrameWidth([t]) == w;
    assert |g| == |t.grid|;
    forall i | 0 <= i < |g|
      ensures g[i] == t.grid[i]
    {
      assert |g[i]| == w;
      forall j | 0 <= j < w
        ensures g[i][j] == t.grid[i][j]
      {
        var cs := Column([t], i, j);
        assert cs == [t.grid[i][j]];
        assert cs[1..] == [];
        assert g[i][j] == Combine(m, cs);
      }
    }
  }

  // ---------------------------------------------------------------------
  // Per-dataset policy: fill, unit, cast, nodata, write options
  // ---------------------------------------------------------------------

  datatype Cast = Float32 | UInt8 | Int32

  /**
   * The per-dataset table: the value holes are filled with, whether values are
   * divided by 100 (centimetres to metres) after that fill, the cast, the nodata
   * value written into the metadata and the predictor used when writing.
   */
  datatype Policy = Policy(fill: int, centimetresToMetres: bool, cast: Cast, nodata: int, predictor: Option<int>)

  function PolicyFor(name: string): (p: Option<Policy>)
    ensures p.Some? <==> name == "NEDSnapshot" || name == "Hydrodem" || name == "FdrFac_Fdr" || name == "FdrFac_Fac"
    // Holes are filled with the nodata value the output declares.
    ensures p.Some? ==> p.value.fill == p.value.nodata
    // Only the elevation datasets are converted to metres, as float32, and written with predictor 2.
    ensures p.Some? ==> (p.value.centimetresToMetres <==> name == "NEDSnapshot" || name == "Hydrodem")
    ensures p.Some? ==> (p.value.centimetresToMetres <==> p.value.cast == Float32)
    ensures p.Some? ==> (p.value.centimetresToMetres <==> p.value.predictor == Some(2))
    ensures p.Some? ==> (!p.value.centimetresToMetres <==> p.value.predictor.None?)
  {
    match name
    case "NEDSnapshot" => Some(Policy(-9999, true, Float32, -9999, Some(2)))
    case "Hydrodem" => Some(Policy(-9999, true, Float32, -9999, Some(2)))
    case "FdrFac_Fdr" => Some(Policy(255, false, UInt8, 255, None))
    case "FdrFac_Fac" => Some(Policy(-9999, false, Int32, -9999, None))
    case _ => None
  }

  /** Output cells: metres for elevation-like datasets, integer codes otherwise. */
  datatype Raster = Metres(metres: seq<seq<real>>) | Codes(codes: seq<seq<int>>)

  function FillCell(c: Cell, fill: int): int
  {
    match c
    case Some(v) => v
    case None => fill
  }

  /** Holes take the policy's fill; elevation values are then divided by 100. */
  function Finish(g: Grid, p: Policy): (r: Raster)
    ensures r.Metres? <==> p.centimetresToMetres
    ensures r.Metres? ==> |r.metres| == |g| && forall i :: 0 <= i < |g| ==> |r.metres[i]| == |g[i]|
    ensures r.Metres? ==> forall i, j :: 0 <= i < |g| && 0 <= j < |g[i]| ==>
              r.metres[i][j] * 100.0 == (if g[i][j].Some? then g[i][j].value else p.fill) as real
    ensures r.Codes? ==> |r.codes| == |g| && forall i :: 0 <= i < |g| ==> |r.codes[i]| == |g[i]|
    ensures r.Codes? ==> forall i, j :: 0 <= i < |g| && 0 <= j < |g[i]| ==>
              r.codes[i][j] == if g[i][j].Some? then g[i][j].value else p.fill
  {
    if p.centimetresToMetres then
      Metres(seq(|g|, i requires 0 <= i < |g| => seq(|g[i]|, j requires 0 <= j < |g[i]| => FillCell(g[i][j], p.fill) as real / 100.0)))
    else
      Codes(seq(|g|, i requires 0 <= i < |g| => seq(|g[i]|, j requires 0 <= j < |g[i]| => FillCell(g[i][j], p.fill))))
  }

  datatype WriteOptions = WriteOptions(compress: string, predictor: Option<int>, tiled: bool, blockXSize: nat, blockYSize: nat)

  function OptionsFor(p: Policy): WriteOptions
  {
    WriteOptions("lzw", p.predictor, true, 512, 512)
  }

  datatype RasterWrite = RasterWrite(path: string, crs: string, nodata: int, raster: Raster, options: WriteOptions)

  function CrsSet(tiles: seq<Tile>): set<string>
  {
    set k | 0 <= k < |tiles| :: tiles[k].crs
  }

  /**
   * What the script does with the tiles it read: merge, check for one CRS,
   * then fill, scale and cast by the dataset's policy and write with the first
   * tile's CRS.  An unknown dataset name is only noticed after the merge and
   * the CRS check.
   */
  function Produce(output: string, tiles: seq<Tile>, name: string): (r: Result<RasterWrite>)
    ensures |tiles| == 0 ==> r == Err(EmptyMerge)
    ensures r.Ok? ==> r.value.path == output && |tiles| > 0 && PolicyFor(name).Some?
    ensures r.Ok? ==> forall k :: 0 <= k < |tiles| ==> tiles[k].crs == r.value.crs
  {
    match MergeDataset(tiles, name)
    case Err(f) => Err(f)
    case Ok(merged) =>
      var crs := CrsSet(tiles);
      if |crs| > 1 then Err(InconsistentCrs(crs))
      else
        match PolicyFor(name)
        case None => Err(UnknownName(name))
        case Some(p) =>
          OneCrs(tiles);
          Ok(RasterWrite(output, tiles[0].crs, p.nodata, Finish(merged, p), OptionsFor(p)))
  }

  /**
   * One dataset of a VPU: skipped (`Ok(None)`) when its output exists, with no
   * folder looked at; otherwise its folders are validated and read, and the
   * tiles produce the raster to write.
   */
  function ProcessDataset(d: Dataset, disk: Disk): (r: Result<Option<RasterWrite>>)
    ensures r == Ok(None) <==> Resolve(d.output) in disk.paths
    ensures r.Ok? && r.value.Some? ==> r.value.value.path == Resolve(d.output) && ReadTiles(d.rpus, disk).Ok?
  {
    var output := Resolve(d.output);
    if output in disk.paths then Ok(None)
    else
      match ReadTiles(d.rpus, disk)
      case Err(f) => Err(f)
      case Ok(tiles) =>
        match Produce(output, tiles, d.name)
        case Err(f) => Err(f)
        case Ok(w) => Ok(Some(w))
  }

  /** At most one CRS among non-empty tiles means every tile has the first one's. */
  lemma OneCrs(tiles: seq<Tile>)
    requires |tiles| > 0
    ensures |CrsSet(tiles)| <= 1 <==> forall k :: 0 <= k < |tiles| ==> tiles[k].crs == tiles[0].crs
  {
    var s := CrsSet(tiles);
    assert tiles[0].crs in s;
    if forall k :: 0 <= k < |tiles| ==> tiles[k].crs == tiles[0].crs {
      assert s == {tiles[0].crs};
    } else {
      var k :| 0 <= k < |tiles| && tiles[k].crs != tiles[0].crs;
      assert {tiles[0].crs, tiles[k].crs} <= s;
      assert |{tiles[0].crs, tiles[k].crs}| == 2;
      SubsetCard({tiles[0].crs, tiles[k].crs}, s);
    }
  }

  lemma SubsetCard<T>(a: set<T>, b: set<T>)
    requires a <= b
    ensures |a| <= |b|
  {
    assert b == a + (b - a);
  }

  /**
   * What a written raster satisfies: there was at least one tile, all tiles
   * share the CRS that is written, the name has a policy whose nodata is
   * written, and every write is LZW-compressed and tiled in 512 x 512 blocks,
   * with predictor 2 exactly for the elevation-like datasets.
   */
  lemma ProducedRaster(output: string, tiles: seq<Tile>, name: string)
    requires Produce(output, tiles, name).Ok?
    ensures var w := Produce(output, tiles, name).value;
      && w.path == output && |tiles| > 0
      && (forall k :: 0 <= k < |tiles| ==> tiles[k].crs == w.crs)
      && w.crs == tiles[0].crs
      && PolicyFor(name).Some? && w.nodata == PolicyFor(name).value.nodata
      && w.options.compress == "lzw" && w.options.tiled
      && w.options.blockXSize == 512 && w.options.blockYSize == 512
      && (w.options.predictor == Some(2) <==> name == "NEDSnapshot" || name == "Hydrodem")
      && (w.options.predictor.None? <==> name == "FdrFac_Fdr" || name == "FdrFac_Fac")
  {
    OneCrs(tiles);
  }

  /**
   * Failures after a successful read, in the script's order: no tile fails the
   * merge, differing CRSs fail next, and an unknown dataset name only when the
   * tiles merged and agreed on one CRS.
   */
  lemma ProduceFailureOrder(output: string, tiles: seq<Tile>, name: string)
    requires Produce(output, tiles, name).Err?
    ensures var f := Produce(output, tiles, name).failure;
      && (f == EmptyMerge <==> |tiles| == 0)
      && (f.InconsistentCrs? ==> |tiles| > 0 && exists k :: 0 <= k < |tiles| && tiles[k].crs != tiles[0].crs)
      && (f.UnknownName? ==> |tiles| > 0 && (forall k :: 0 <= k < |tiles| ==> tiles[k].crs == tiles[0].crs)
                             && f.name == name && PolicyFor(name).None?)
      && (f == EmptyMerge || f.InconsistentCrs? || f.UnknownName?)
  {
    if |tiles| > 0 {
      OneCrs(tiles);
    }
  }

  /** A dataset whose output already exists is skipped without touching its RPUs. */
  lemma ExistingOutputIsSkipped(d: Dataset, disk: Disk)
    requires Resolve(d.output) in disk.paths
    ensures ProcessDataset(d, disk) == Ok(None)
  {
  }

  /**
   * A dataset is written only when its output is absent and every RPU folder
   * exists and has an ESRI Grid header; folder failures are reported before
   * anything is merged.
   */
  lemma WrittenOnlyFromValidFolders(d: Dataset, disk: Disk)
    requires ProcessDataset(d, disk).Ok? && ProcessDataset(d, disk).value.Some?
    ensures var w := ProcessDataset(d, disk).value.value;
      && w.path == Resolve(d.output) && w.path !in disk.paths && |d.rpus| > 0
      && ReadTiles(d.rpus, disk).Ok?
      && w == Produce(Resolve(d.output), ReadTiles(d.rpus, disk).value, d.name).value
      && forall k :: 0 <= k < |d.rpus| ==> Resolve(d.rpus[k]) in disk.paths && Join(Resolve(d.rpus[k]), GridHeader) in disk.paths
  {
    ReadTilesFirstFailure(d.rpus, disk);
    ProducedRaster(Resolve(d.output), ReadTiles(d.rpus, disk).value, d.name);
    forall k | 0 <= k < |d.rpus|
      ensures Resolve(d.rpus[k]) in disk.paths && Join(Resolve(d.rpus[k]), GridHeader) in disk.paths
    {
      assert ReadFolder(d.rpus[k], disk).Ok?;
    }
  }

  /**
   * Elevation-like output cells: a present value v becomes v / 100, and a hole
   * becomes -9999 / 100 = -99.99, because the fill happens before the division;
   * the nodata written for the raster stays -9999, so holes are not nodata.
   */
  lemma ElevationHolesBecomeScaledFill(output: string, tiles: seq<Tile>, name: string)
    requires name == "NEDSnapshot" || name == "Hydrodem"
    requires Produce(output, tiles, name).Ok?
    ensures var w := Produce(output, tiles, name).value;
      var merged := MergeDataset(tiles, name).value;
      && w.nodata == -9999
      && w.raster.Metres?
      && |w.raster.metres| == |merged|
      && forall i, j :: 0 <= i < |merged| && 0 <= j < |merged[i]| ==>
           j < |w.raster.metres[i]|
           && (merged[i][j].Some? ==> w.raster.metres[i][j] == merged[i][j].value as real / 100.0)
           && (merged[i][j].None? ==> w.raster.metres[i][j] == -99.99 != w.nodata as real)
  {
  }

  /**
   * Flow-direction and flow-accumulation outputs have no hole left: missing
   * cells hold 255 (direction) or -9999 (accumulation), present values are kept.
   */
  lemma FlowCodesHaveNoHoles(output: string, tiles: seq<Tile>, name: string)
    requires name == "FdrFac_Fdr" || name == "FdrFac_Fac"
    requires Produce(output, tiles, name).Ok?
    ensures var w := Produce(output, tiles, name).value;
      var merged := MergeDataset(tiles, name).value;
      var fill := if name == "FdrFac_Fdr" then 255 else -9999;
      && w.nodata == fill
      && w.raster.Codes?
      && |w.raster.codes| == |merged|
      && forall i, j :: 0 <= i < |merged| && 0 <= j < |merged[i]| ==>
           j < |w.raster.codes[i]|
           && w.raster.codes[i][j] == (if merged[i][j].Some? then merged[i][j].value else fill)
  {
  }

  // ---------------------------------------------------------------------
  // The VPU run
  // ---------------------------------------------------------------------

  /** The rasters written, in order, and the failure that stopped the run, if any. */
  datatype Run = Run(writes: seq<RasterWrite>, failure: Option<Failure>)

  /** The datasets in configuration order; a written output exists for later ones. */
  function MergeAll(ds: seq<Dataset>, disk: Disk): (r: Run)
    ensures |r.writes| <= |ds|
    ensures Fresh(r.writes, disk.paths)
    decreases |ds|
  {
    if |ds| == 0 then Run([], None)
    else
      match ProcessDataset(ds[0], disk)
      case Err(f) => Run([], Some(f))
      case Ok(None) => MergeAll(ds[1..], disk)
      case Ok(Some(w)) =>
        var rest := MergeAll(ds[1..], disk.(paths := disk.paths + {w.path}));
        FreshCons(w, rest.writes, disk.paths);
        Run([w] + rest.writes, rest.failure)
  }

  /** The script's entry point: the VPU must be configured before anything runs. */
  function MergeVpu(config: map<string, seq<Dataset>>, vpu: string, disk: Disk): (r: Run)
    ensures vpu !in config ==> r == Run([], Some(UnknownVpu(vpu)))
    ensures vpu in config ==> Fresh(r.writes, disk.paths) && |r.writes| <= |config[vpu]|
  {
    if vpu !in config then Run([], Some(UnknownVpu(vpu)))
    else MergeAll(config[vpu], disk)
  }

  /** No write goes to a path that existed before the run. */
  ghost predicate Fresh(ws: seq<RasterWrite>, paths: set<string>)
  {
    forall k :: 0 <= k < |ws| ==> ws[k].path !in paths
  }

  /** The output paths the datasets are configured with. */
  function OutputPaths(ds: seq<Dataset>): set<string>
  {
    set d | d in ds :: Resolve(d.output)
  }

  /** Every write goes to the output path of one of the datasets. */
  ghost predicate FromDatasets(ws: seq<RasterWrite>, ds: seq<Dataset>)
  {
    forall k :: 0 <= k < |ws| ==> ws[k].path in OutputPaths(ds)
  }

  /** No path is written twice. */
  ghost predicate DistinctPaths(ws: seq<RasterWrite>)
  {
    forall k, l :: 0 <= k < l < |ws| ==> ws[k].path != ws[l].path
  }

  /**
   * No overwriting: each write goes to the output path of one of the
   * datasets, no path is written twice and no path that existed is written.
   */
  ghost predicate NeverOverwrites(r: Run, ds: seq<Dataset>, disk: Disk)
  {
    Fresh(r.writes, disk.paths) && FromDatasets(r.writes, ds) && DistinctPaths(r.writes)
  }

  lemma FromDatasetsSkip(ws: seq<RasterWrite>, ds: seq<Dataset>)
    requires |ds| > 0 && FromDatasets(ws, ds[1..])
    ensures FromDatasets(ws, ds)
  {
    assert OutputPaths(ds[1..]) <= OutputPaths(ds);
  }

  lemma NeverOverwritesSkip(r: Run, ds: seq<Dataset>, disk: Disk)
    requires |ds| > 0 && NeverOverwrites(r, ds[1..], disk)
    ensures NeverOverwrites(r, ds, disk)
  {
    FromDatasetsSkip(r.writes, ds);
  }

  lemma FreshCons(w: RasterWrite, ws: seq<RasterWrite>, paths: set<string>)
    requires w.path !in paths && Fresh(ws, paths + {w.path})
    ensures Fresh([w] + ws, paths)
  {
    forall k | 0 <= k < |[w] + ws|
      ensures ([w] + ws)[k].path !in paths
    {
      if k > 0 {
        assert ([w] + ws)[k] == ws[k - 1];
      }
    }
  }

  lemma FromDatasetsCons(w: RasterWrite, ws: seq<RasterWrite>, ds: seq<Dataset>)
    requires |ds| > 0 && w.path == Resolve(ds[0].output) && FromDatasets(ws, ds[1..])
    ensures FromDatasets([w] + ws, ds)
  {
    FromDatasetsSkip(ws, ds);
    assert w.path in OutputPaths(ds);
    forall k | 0 <= k < |[w] + ws|
      ensures ([w] + ws)[k].path in OutputPaths(ds)
    {
      if k > 0 {
        assert ([w] + ws)[k] == ws[k - 1];
      }
    }
  }

  lemma DistinctCons(w: RasterWrite, ws: seq<RasterWrite>, paths: set<string>)
    requires Fresh(ws, paths + {w.path}) && DistinctPaths(ws)
    ensures DistinctPaths([w] + ws)
  {
    forall k, l | 0 <= k < l < |[w] + ws|
      ensures ([w] + ws)[k].path != ([w] + ws)[l].path
    {
      assert ([w] + ws)[l] == ws[l - 1];
      if k > 0 {
        assert ([w] + ws)[k] == ws[k - 1];
      }
    }
  }

  lemma NeverOverwritesCons(w: RasterWrite, rest: Run, ds: seq<Dataset>, disk: Disk)
    requires |ds| > 0 && w.path == Resolve(ds[0].output) && w.path !in disk.paths
    requires NeverOverwrites(rest, ds[1..], disk.(paths := disk.paths + {w.path}))
    ensures NeverOverwrites(Run([w] + rest.writes, rest.failure), ds, disk)
  {
    FreshCons(w, rest.writes, disk.paths);
    FromDatasetsCons(w, rest.writes, ds);
    DistinctCons(w, rest.writes, disk.paths);
  }

  /** A run over a VPU's datasets never overwrites an output. */
  lemma {:induction false} MergeAllNeverOverwrites(ds: seq<Dataset>, disk: Disk)
    ensures NeverOverwrites(MergeAll(ds, disk), ds, disk)
    decreases |ds|
  {
    if |ds| > 0 {
      var p := ProcessDataset(ds[0], disk);
      if p.Ok? && p.value.None? {
        MergeAllNeverOverwrites(ds[1..], disk);
        NeverOverwritesSkip(MergeAll(ds[1..], disk), ds, disk);
      } else if p.Ok? {
        var w := p.value.value;
        WrittenOnlyFromValidFolders(ds[0], disk);
        var disk' := disk.(paths := disk.paths + {w.path});
        MergeAllNeverOverwrites(ds[1..], disk');
        NeverOverwritesCons(w, MergeAll(ds[1..], disk'), ds, disk);
      }
    }
  }

  /** A skipped dataset leaves the rest of the run exactly as if it were absent. */
  lemma SkippedDatasetDoesNotStopRun(ds: seq<Dataset>, disk: Disk)
    requires |ds| > 0 && Resolve(ds[0].output) in disk.paths
    ensures MergeAll(ds, disk) == MergeAll(ds[1..], disk)
  {
  }

  /**
   * Two overlapping NEDSnapshot tiles in one row: tile A holds [100, 200] and
   * tile B holds [150, 50] (centimetres).  The minimum merge keeps 100 and 50,
   * which are written as 1.00 and 0.50 metres under nodata -9999.
   */
  lemma TwoTileElevationExample()
    ensures Produce("out.tif", [Tile("EPSG:4269", [[Some(100), Some(200)]]), Tile("EPSG:4269", [[Some(150), Some(50)]])], "NEDSnapshot")
         == Ok(RasterWrite("out.tif", "EPSG:4269", -9999, Metres([[1.0, 0.5]]), WriteOptions("lzw", Some(2), true, 512, 512)))
  {
    var a := Tile("EPSG:4269", [[Some(100), Some(200)]]);
    var b := Tile("EPSG:4269", [[Some(150), Some(50)]]);
    TwoTileMinMerge(a, b);
    var m: Grid := [[Some(100), Some(50)]];
    assert MergeDataset([a, b], "NEDSnapshot") == Ok(m);
    assert CrsSet([a, b]) == {"EPSG:4269"};
    assert |CrsSet([a, b])| == 1;
    var p := Policy(-9999, true, Float32, -9999, Some(2));
    assert PolicyFor("NEDSnapshot") == Some(p);
    TwoCellsToMetres(m, p);
  }

  lemma TwoCellsToMetres(m: Grid, p: Policy)
    requires m == [[Some(100), Some(50)]] && p.centimetresToMetres
    ensures Finish(m, p) == Metres([[1.0, 0.5]])
  {
    var f := Finish(m, p);
    assert |f.metres| == 1 && |f.metres[0]| == 2;
    assert f.metres[0][0] == 1.0 && f.metres[0][1] == 0.5;
    assert f.metres[0] == [1.0, 0.5];
  }

  lemma TwoTileMinMerge(a: Tile, b: Tile)
    requires a.grid == [[Some(100), Some(200)]] && b.grid == [[Some(150), Some(50)]]
    ensures MergeTiles([a, b], CellMin) == [[Some(100), Some(50)]]
  {
    var g: Grid := [[Some(100), Some(50)]];
    TwoTileFrame(a, b);
    TwoTileCells(a, b);
    forall i, j | 0 <= i < |g| && 0 <= j < |g[i]|
      ensures g[i][j] == Combine(CellMin, Column([a, b], i, j))
    {
      assert i == 0 && (j == 0 || j == 1);
    }
    MergeTilesIs([a, b], CellMin, g);
  }

  /** A grid of the frame's shape holding the combined column at every cell is the merge. */
  lemma MergeTilesIs(tiles: seq<Tile>, m: MergeMethod, g: Grid)
    requires |g| == FrameHeight(tiles)
    requires forall i :: 0 <= i < |g| ==> |g[i]| == FrameWidth(tiles)
    requires forall i, j :: 0 <= i < |g| && 0 <= j < |g[i]| ==> g[i][j] == Combine(m, Column(tiles, i, j))
    ensures MergeTiles(tiles, m) == g
  {
    var r := MergeTiles(tiles, m);
    forall i | 0 <= i < |g|
      ensures r[i] == g[i]
    {
      var row, want := r[i], g[i];
      assert |row| == |want|;
      forall j | 0 <= j < |want|
        ensures row[j] == want[j]
      {
        assert want[j] == Combine(m, Column(tiles, i, j));
      }
    }
  }

  lemma TwoTileFrame(a: Tile, b: Tile)
    requires a.grid == [[Some(100), Some(200)]] && b.grid == [[Some(150), Some(50)]]
    ensures FrameHeight([a, b]) == 1 && FrameWidth([a, b]) == 2
  {
    assert [a, b][1..] == [b];
    assert RowWidth(a.grid) == 2 && RowWidth(b.grid) == 2;
  }

  lemma TwoTileCells(a: Tile, b: Tile)
    requires a.grid == [[Some(100), Some(200)]] && b.grid == [[Some(150), Some(50)]]
    ensures Combine(CellMin, Column([a, b], 0, 0)) == Some(100)
    ensures Combine(CellMin, Column([a, b], 0, 1)) == Some(50)
  {
    assert Column([a, b], 0, 0) == [Some(100), Some(150)];
    assert Column([a, b], 0, 1) == [Some(200), Some(50)];
  }
}
