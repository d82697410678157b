/**
 * Soils parameters (scripts/4_create_soils_params.py): the dominant soil
 * class per HRU from categorical zonal statistics, the soil-moisture maximum
 * from continuous zonal statistics, the derived-raster generation that feeds
 * the latter, and the output files.  The zonal-statistics table is the
 * library's result and enters as a parameter.
 */
module Soils {
  import opened Core
  import Sorting
  import DemParams

  /** One HRU's row of the zonal-statistics table, indexed by `hru_id`. */
  datatype StatsRow = StatsRow(id: int, values: seq<real>)

  /** Column labels (as `str(col)` renders them) and rows. */
  datatype StatsTable = StatsTable(columns: seq<string>, rows: seq<StatsRow>)

  predicate Rectangular(t: StatsTable)
  {
    forall i :: 0 <= i < |t.rows| ==> |t.rows[i].values| == |t.columns|
  }

  // ---------------------------------------------------------------------
  // Dominant category
  // ---------------------------------------------------------------------

  /**
   * The column filter as written: `str(col) not in ("count")` tests whether
   * the heading is a SUBSTRING of "count", because `("count")` is a string.
   */
  predicate IsCategoryLabel(heading: string)
  {
    !IsSubstring(heading, "count")
  }

  /** Positions of the category columns, in column order. */
  function CategoryColumns(columns: seq<string>): (ks: seq<nat>)
    ensures forall i :: 0 <= i < |ks| ==> ks[i] < |columns| && IsCategoryLabel(columns[ks[i]])
    ensures forall i, j :: 0 <= i < j < |ks| ==> ks[i] < ks[j]
    ensures forall c :: 0 <= c < |columns| && IsCategoryLabel(columns[c]) ==> c in ks
    decreases |columns|
  {
    if |columns| == 0 then []
    else
      var init := CategoryColumns(columns[..|columns| - 1]);
      if IsCategoryLabel(columns[|columns| - 1]) then init + [|columns| - 1] else init
  }

  /** The heading "count" itself and every other piece of it are excluded. */
  lemma CountPiecesAreExcluded(heading: string)
    requires OccursAt(heading, "count", 0) || OccursAt(heading, "count", 1) || OccursAt(heading, "count", 2)
          || OccursAt(heading, "count", 3) || OccursAt(heading, "count", 4) || OccursAt(heading, "count", 5)
    ensures !IsCategoryLabel(heading)
  {
    IsSubstringMeans(heading, "count");
  }

  /** A heading that is not a piece of "count" is a category. */
  lemma OtherLabelsAreCategories(heading: string)
    requires forall i :: !OccursAt(heading, "count", i)
    ensures IsCategoryLabel(heading)
  {
    IsSubstringMeans(heading, "count");
  }

  /** Numeric class codes, the labels categorical statistics produce, are all categories. */
  lemma NumericLabelsAreCategories(heading: string)
    requires |heading| > 0
    requires forall k :: 0 <= k < |heading| ==> '0' <= heading[k] <= '9'
    ensures IsCategoryLabel(heading)
  {
    forall i
      ensures !OccursAt(heading, "count", i)
    {
      if 0 <= i && i + |heading| <= |"count"| {
        assert "count"[i..i + |heading|][0] == "count"[i];
        assert "count"[i] != heading[0];
      }
    }
    IsSubstringMeans(heading, "count");
  }

  /** `p` is the first position in `ks` whose value is maximal: `idxmax`. */
  predicate IsFirstMax(values: seq<real>, ks: seq<nat>, p: int)
    requires forall i :: 0 <= i < |ks| ==> ks[i] < |values|
  {
    && 0 <= p < |ks|
    && (forall j :: 0 <= j < |ks| ==> values[ks[j]] <= values[ks[p]])
    && (forall j :: 0 <= j < p ==> values[ks[j]] < values[ks[p]])
  }

  function FirstMax(values: seq<real>, ks: seq<nat>): (p: nat)
    requires |ks| > 0
    requires forall i :: 0 <= i < |ks| ==> ks[i] < |values|
    ensures IsFirstMax(values, ks, p)
    decreases |ks|
  {
    if |ks| == 1 then 0
    else
      var p := FirstMax(values, ks[..|ks| - 1]);
      if values[ks[|ks| - 1]] > values[ks[p]] then |ks| - 1 else p
  }

  /** There is only one first maximum. */
  lemma FirstMaxIsUnique(values: seq<real>, ks: seq<nat>, p: int, q: int)
    requires forall i :: 0 <= i < |ks| ==> ks[i] < |values|
    requires IsFirstMax(values, ks, p) && IsFirstMax(values, ks, q)
    ensures p == q
  {
    assert values[ks[q]] <= values[ks[p]] && values[ks[p]] <= values[ks[q]];
  }

  datatype CategoryRow = CategoryRow(id: int, soils: string)

  ghost predicate IsDominant(t: StatsTable, i: int, heading: string)
    requires Rectangular(t)
    requires 0 <= i < |t.rows|
  {
    var ks := CategoryColumns(t.columns);
    exists p :: IsFirstMax(t.rows[i].values, ks, p) && heading == t.columns[ks[p]]
  }

  function CategoryOf(t: StatsTable, ks: seq<nat>, row: StatsRow): CategoryRow
    requires |ks| > 0
    requires forall i :: 0 <= i < |ks| ==> ks[i] < |t.columns| && ks[i] < |row.values|
  {
    CategoryRow(row.id, t.columns[ks[FirstMax(row.values, ks)]])
  }

  /**
   * `idxmax(axis=1)` over the category columns, row by row. With rows but no
   * category column pandas refuses the argmax of an empty sequence.
   */
  function DominantCategories(t: StatsTable): (r: Result<seq<CategoryRow>>)
    requires Rectangular(t)
    ensures r.Err? <==> |t.rows| > 0 && |CategoryColumns(t.columns)| == 0
    ensures r.Err? ==> r.failure == EmptyArgmax
    ensures r.Ok? ==> |r.value| == |t.rows|
    ensures r.Ok? ==> forall i :: 0 <= i < |t.rows| ==>
              r.value[i].id == t.rows[i].id && IsDominant(t, i, r.value[i].soils)
  {
    var ks := CategoryColumns(t.columns);
    if |t.rows| == 0 then Ok([])
    else if |ks| == 0 then Err(EmptyArgmax)
    else
      var rows := seq(|t.rows|, i requires 0 <= i < |t.rows| => CategoryOf(t, ks, t.rows[i]));
      assert forall i :: 0 <= i < |t.rows| ==> IsFirstMax(t.rows[i].values, ks, FirstMax(t.rows[i].values, ks));
      Ok(rows)
  }

  function ById(a: CategoryRow, b: CategoryRow): bool
  {
    a.id <= b.id
  }

  /**
   * `sort_index()`: the dominant categories in ascending `hru_id` order.  The
   * ids are the layer's unique `hru_id`s, so the order is determined; for
   * repeated ids this sort keeps their input order, one of the orders the
   * library may return.
   */
  function SortedCategories(rows: seq<CategoryRow>): (r: seq<CategoryRow>)
    ensures Sorting.Sorted(r, ById)
    ensures multiset(r) == multiset(rows)
    ensures forall i, j :: 0 <= i < j < |r| ==> r[i].id <= r[j].id
    ensures forall y :: Sorting.Tied(r, y, ById) == Sorting.Tied(rows, y, ById)
  {
    assert Sorting.TotalPreorder(ById);
    Sorting.SortByIsStable(rows, ById);
    Sorting.SortBy(rows, ById)
  }

  /** Reordering the dominant categories keeps each row traceable to its input row. */
  lemma SortedKeepsProvenance(t: StatsTable, rows: seq<CategoryRow>, sorted: seq<CategoryRow>)
    requires Rectangular(t)
    requires |rows| == |t.rows|
    requires forall i :: 0 <= i < |t.rows| ==> rows[i].id == t.rows[i].id && IsDominant(t, i, rows[i].soils)
    requires multiset(sorted) == multiset(rows)
    ensures forall row :: row in sorted ==>
              exists i :: 0 <= i < |t.rows| && row.id == t.rows[i].id && IsDominant(t, i, row.soils)
  {
    forall row | row in sorted
      ensures exists i :: 0 <= i < |t.rows| && row.id == t.rows[i].id && IsDominant(t, i, row.soils)
    {
      assert row in multiset(rows);
      var i :| 0 <= i < |rows| && rows[i] == row;
      assert row.id == t.rows[i].id && IsDominant(t, i, row.soils);
    }
  }

  // ---------------------------------------------------------------------
  // Soil-moisture maximum
  // ---------------------------------------------------------------------

  function MeanColumn(columns: seq<string>): (k: Option<nat>)
    ensures k.Some? ==> k.value < |columns| && columns[k.value] == "mean"
    ensures k.None? <==> "mean" !in columns
    ensures k.Some? ==> forall j :: 0 <= j < k.value ==> columns[j] != "mean"
  {
    if |columns| == 0 then None
    else if columns[0] == "mean" then Some(0)
    else match MeanColumn(columns[1..])
      case None => None
      case Some(k) => Some(k + 1)
  }

  datatype MeanRow = MeanRow(id: int, mean: real)

  /** `stats[["mean"]]`: the mean column in row order, or a `KeyError`. */
  function Means(t: StatsTable): (r: Result<seq<MeanRow>>)
    requires Rectangular(t)
    ensures r.Err? <==> "mean" !in t.columns
    ensures r.Err? ==> r.failure == AbsentLabel("mean")
    ensures r.Ok? ==> |r.value| == |t.rows|
    ensures r.Ok? ==> forall i :: 0 <= i < |t.rows| ==>
              r.value[i].id == t.rows[i].id
              && exists k :: 0 <= k < |t.columns| && t.columns[k] == "mean" && r.value[i].mean == t.rows[i].values[k]
  {
    match MeanColumn(t.columns)
    case None => Err(AbsentLabel("mean"))
    case Some(k) => Ok(seq(|t.rows|, i requires 0 <= i < |t.rows| => MeanRow(t.rows[i].id, t.rows[i].values[k])))
  }

  /** A raster derivation performed by an external helper. */
  datatype Derivation =
    | Resample(rootDepth: string, awc: string, temp: string, final: string)
    | Multiply(left: string, right: string, out: string)

  function Output(d: Derivation): string
  {
    match d
    case Resample(_, _, _, final) => final
    case Multiply(_, _, out) => out
  }

  function SoilMoistMaxRaster(base: string): string { Join(base, "soils_litho/soil_moist_max.tif") }
  function RootDepthRaster(base: string): string { Join(base, "lulc_veg/RootDepth.tif") }
  function AwcRaster(base: string): string { Join(base, "soils_litho/AWC.tif") }
  /** The resample writes its temporary and its final raster to the same file. */
  function ResampledRaster(base: string): string { Join(base, "lulc_veg/rd_250_raw.tif") }

  /**
   * Validation of the two source rasters, then generation of the resampled
   * and the multiplied raster, each only when it is absent.
   */
  function DeriveSoilMoistMax(base: string, paths: set<string>): (r: Result<seq<Derivation>>)
    ensures RootDepthRaster(base) !in paths ==> r == Err(MissingPath(RootDepthRaster(base)))
    ensures RootDepthRaster(base) in paths && AwcRaster(base) !in paths ==> r == Err(MissingPath(AwcRaster(base)))
    ensures r.Ok? <==> RootDepthRaster(base) in paths && AwcRaster(base) in paths
    ensures r.Ok? ==> forall k :: 0 <= k < |r.value| ==> Output(r.value[k]) !in paths
    ensures r.Ok? ==> SoilMoistMaxRaster(base) in paths + set k | 0 <= k < |r.value| :: Output(r.value[k])
    ensures r.Ok? ==> (|r.value| == 0 <==> ResampledRaster(base) in paths && SoilMoistMaxRaster(base) in paths)
    // The resample reads RootDepth.tif on AWC.tif's grid and writes its temporary and final raster to one file.
    ensures r.Ok? ==> (Resample(RootDepthRaster(base), AwcRaster(base), ResampledRaster(base), ResampledRaster(base)) in r.value
                       <==> ResampledRaster(base) !in paths)
    // The multiply reads the resampled raster and AWC.tif.
    ensures r.Ok? ==> (Multiply(ResampledRaster(base), AwcRaster(base), SoilMoistMaxRaster(base)) in r.value
                       <==> SoilMoistMaxRaster(base) !in paths)
    ensures r.Ok? ==> forall k :: 0 <= k < |r.value| ==>
              r.value[k] in [Resample(RootDepthRaster(base), AwcRaster(base), ResampledRaster(base), ResampledRaster(base)),
                             Multiply(ResampledRaster(base), AwcRaster(base), SoilMoistMaxRaster(base))]
    // Each step runs at most once, and the resample before the multiply.
    ensures r.Ok? ==> |r.value| <= 2 && (|r.value| == 2 ==> r.value[0].Resample? && r.value[1].Multiply?)
  {
    var rd := RootDepthRaster(base);
    var awc := AwcRaster(base);
    var smm := SoilMoistMaxRaster(base);
    var fin := ResampledRaster(base);
    if rd !in paths then Err(MissingPath(rd))
    else if awc !in paths then Err(MissingPath(awc))
    else
      var resample := if fin !in paths then [Resample(rd, awc, fin, fin)] else [];
      var multiply := if smm !in paths then [Multiply(fin, awc, smm)] else [];
      var steps := resample + multiply;
      assert |multiply| > 0 ==> steps[|steps| - 1] == multiply[0];
      Ok(steps)
  }

  // ---------------------------------------------------------------------
  // Output shaping and the script
  // ---------------------------------------------------------------------

  /** The CSV written per VPU: `hru_id` and one parameter column. */
  datatype ParamCsv = CategoryCsv(categories: seq<CategoryRow>) | MeanCsv(column: string, means: seq<MeanRow>)

  datatype SoilsRun = SoilsRun(
    derivations: seq<Derivation>,
    zonal: DemParams.ZonalJob,
    output: string,
    csv: ParamCsv,
    paths: set<string>)

  function TempCsv(outputPath: string, sourceType: string, vpu: string): string
  {
    Join(outputPath, "base_nhm_" + sourceType + "_" + vpu + "_param_temp.csv")
  }

  function ParamCsvPath(outputPath: string, sourceType: string, vpu: string): string
  {
    Join(outputPath, "base_nhm_" + sourceType + "_" + vpu + "_param.csv")
  }

  /** The temporary and final file names never coincide. */
  lemma TempIsNotFinal(outputPath: string, sourceType: string, vpu: string)
    ensures TempCsv(outputPath, sourceType, vpu) != ParamCsvPath(outputPath, sourceType, vpu)
  {
    var t := "base_nhm_" + sourceType + "_" + vpu + "_param_temp.csv";
    var f := "base_nhm_" + sourceType + "_" + vpu + "_param.csv";
    assert t[|t| - 5] == 'p' && f[|f| - 5] == 'm';
    assert |t| > 0 && |f| > 0 && t[0] != '/' && f[0] != '/';
  }

  /**
   * Disk after a zonal run: the library writes the temporary CSV, which is
   * then deleted, and the final CSV is written.
   */
  function AfterZonal(paths: set<string>, temp: string, final: string): (r: set<string>)
    requires temp != final
    ensures temp !in r && final in r
    ensures forall p :: p != temp && p != final ==> (p in r <==> p in paths)
  {
    (paths + {temp}) - {temp} + {final}
  }

  function ZonalJobFor(raster: string, gpkg: string, outputPath: string, sourceType: string, vpu: string, categorical: bool): DemParams.ZonalJob
  {
    DemParams.ZonalJob(raster, gpkg, "nhru", "hru_id", outputPath,
                       "base_nhm_" + sourceType + "_" + vpu + "_param_temp", categorical, "parallel", "csv", 4)
  }

  /** `process_soils` once the raster is known to exist. */
  function ProcessSoils(raster: string, gpkg: string, outputPath: string, vpu: string, categorical: bool, paths: set<string>, stats: StatsTable): (r: Result<SoilsRun>)
    requires Rectangular(stats)
    ensures r.Err? <==> |stats.rows| > 0 && |CategoryColumns(stats.columns)| == 0
    ensures r.Ok? ==> r.value.csv.CategoryCsv? && |r.value.csv.categories| == |stats.rows|
    ensures r.Ok? ==> forall i, j :: 0 <= i < j < |r.value.csv.categories| ==> r.value.csv.categories[i].id <= r.value.csv.categories[j].id
    ensures r.Ok? ==> r.value.output == ParamCsvPath(outputPath, "soils", vpu)
    ensures r.Ok? ==> r.value.zonal.raster == raster
    ensures r.Ok? ==> forall row :: row in r.value.csv.categories ==>
              exists i :: 0 <= i < |stats.rows| && row.id == stats.rows[i].id && IsDominant(stats, i, row.soils)
    ensures r.Ok? ==> DominantCategories(stats).Ok?
                      && multiset(r.value.csv.categories) == multiset(DominantCategories(stats).value)
  {
    match DominantCategories(stats)
    case Err(f) => Err(f)
    case Ok(rows) =>
      var sorted := SortedCategories(rows);
      SortedKeepsProvenance(stats, rows, sorted);
      TempIsNotFinal(outputPath, "soils", vpu);
      var temp := TempCsv(outputPath, "soils", vpu);
      var final := ParamCsvPath(outputPath, "soils", vpu);
      Ok(SoilsRun([], ZonalJobFor(raster, gpkg, outputPath, "soils", vpu, categorical), final,
                  CategoryCsv(sorted), AfterZonal(paths, temp, final)))
  }

  /** `process_soil_moist_max`: derive, then take the zonal means unsorted. */
  function ProcessSoilMoistMax(base: string, gpkg: string, outputPath: string, vpu: string, categorical: bool, paths: set<string>, stats: StatsTable): (r: Result<SoilsRun>)
    requires Rectangular(stats)
    ensures r.Ok? ==> Means(stats).Ok? && r.value.csv == MeanCsv("soil_moist_max", Means(stats).value)
    ensures r.Ok? ==> r.value.zonal.raster == SoilMoistMaxRaster(base)
    ensures r.Ok? ==> SoilMoistMaxRaster(base) in r.value.paths && ResampledRaster(base) in r.value.paths
    ensures r.Err? <==> RootDepthRaster(base) !in paths || AwcRaster(base) !in paths || "mean" !in stats.columns
    ensures r.Ok? ==> DeriveSoilMoistMax(base, paths).Ok? && r.value.derivations == DeriveSoilMoistMax(base, paths).value
    ensures RootDepthRaster(base) !in paths ==> r == Err(MissingPath(RootDepthRaster(base)))
    ensures RootDepthRaster(base) in paths && AwcRaster(base) !in paths ==> r == Err(MissingPath(AwcRaster(base)))
  {
    match DeriveSoilMoistMax(base, paths)
    case Err(f) => Err(f)
    case Ok(steps) =>
      var derived := paths + set k | 0 <= k < |steps| :: Output(steps[k]);
      var smm := SoilMoistMaxRaster(base);
      // The raster is opened before its existence is checked; both see it.
      if smm !in derived then Err(Unreadable(smm))
      else match Means(stats)
        case Err(f) => Err(f)
        case Ok(rows) =>
          TempIsNotFinal(outputPath, "soil_moist_max", vpu);
          var temp := TempCsv(outputPath, "soil_moist_max", vpu);
          var final := ParamCsvPath(outputPath, "soil_moist_max", vpu);
          assert ResampledRaster(base) in derived by {
            if ResampledRaster(base) !in paths {
              assert Output(steps[0]) == ResampledRaster(base);
            }
          }
          ResampledIsNotCsv(base, outputPath, vpu);
          Ok(SoilsRun(steps, ZonalJobFor(smm, gpkg, outputPath, "soil_moist_max", vpu, categorical), final,
                      MeanCsv("soil_moist_max", rows), AfterZonal(derived, temp, final)))
  }

  lemma ResampledIsNotCsv(base: string, outputPath: string, vpu: string)
    ensures ResampledRaster(base) != TempCsv(outputPath, "soil_moist_max", vpu)
    ensures SoilMoistMaxRaster(base) != TempCsv(outputPath, "soil_moist_max", vpu)
  {
    var stem := "base_nhm_soil_moist_max_" + vpu + "_param_temp";
    assert TempCsv(outputPath, "soil_moist_max", vpu) == Join(outputPath, stem + ".csv");
    TifIsNotCsv(base, "lulc_veg/rd_250_raw.tif", outputPath, stem);
    TifIsNotCsv(base, "soils_litho/soil_moist_max.tif", outputPath, stem);
  }

  /** A `.tif` path and a `.csv` path are different files. */
  lemma TifIsNotCsv(d1: string, n1: string, d2: string, stem: string)
    requires |n1| >= 4 && n1[|n1| - 4..] == ".tif"
    ensures Join(d1, n1) != Join(d2, stem + ".csv")
  {
    var n2 := stem + ".csv";
    var a := Join(d1, n1);
    var b := Join(d2, n2);
    assert n1[|n1| - 2] == 'i';
    assert a[|a| - 2] == n1[|n1| - 2];
    assert b[|b| - 2] == n2[|n2| - 2] == 's';
  }

  /**
   * The script: the geopackage is checked first, then the source type is
   * dispatched; any other type is refused.
   */
  function CreateSoilsParams(
    baseSourceDir: string, targetSourceDir: string, outputDir: string,
    sourceType: string, categorical: bool, vpu: string, paths: set<string>, stats: StatsTable): (r: Result<SoilsRun>)
    requires Rectangular(stats)
    ensures DemParams.GpkgPath(targetSourceDir, vpu) !in paths ==> r == Err(MissingPath(DemParams.GpkgPath(targetSourceDir, vpu)))
    ensures DemParams.GpkgPath(targetSourceDir, vpu) in paths && sourceType !in {"soils", "soil_moist_max"} ==>
              r == Err(UnknownName(sourceType))
    ensures DemParams.GpkgPath(targetSourceDir, vpu) in paths && sourceType == "soils"
              && Join(baseSourceDir, "soils_litho/TEXT_PRMS.tif") !in paths ==>
              r == Err(MissingPath(Join(baseSourceDir, "soils_litho/TEXT_PRMS.tif")))
    ensures r.Ok? ==> r.value.output == Join(Join(outputDir, sourceType), "base_nhm_" + sourceType + "_" + vpu + "_param.csv")
    ensures r.Ok? ==> r.value.zonal.gpkg == DemParams.GpkgPath(targetSourceDir, vpu)
    ensures r.Ok? ==> r.value.output in r.value.paths
    ensures r.Ok? ==> Join(Join(outputDir, sourceType), "base_nhm_" + sourceType + "_" + vpu + "_param_temp.csv") !in r.value.paths
    // Dispatch to `process_soils`: the categorical raster, failing only for rows without a category column.
    ensures (DemParams.GpkgPath(targetSourceDir, vpu) in paths && sourceType == "soils"
             && Join(baseSourceDir, "soils_litho/TEXT_PRMS.tif") in paths) ==>
              (r.Err? <==> |stats.rows| > 0 && |CategoryColumns(stats.columns)| == 0)
    ensures r.Ok? && sourceType == "soils" ==>
              r.value.csv.CategoryCsv? && r.value.zonal.raster == Join(baseSourceDir, "soils_litho/TEXT_PRMS.tif")
              && DominantCategories(stats).Ok?
              && multiset(r.value.csv.categories) == multiset(DominantCategories(stats).value)
    // Dispatch to `process_soil_moist_max`: both source rasters and the `mean` column are needed.
    ensures DemParams.GpkgPath(targetSourceDir, vpu) in paths && sourceType == "soil_moist_max" ==>
              (r.Err? <==> RootDepthRaster(baseSourceDir) !in paths || AwcRaster(baseSourceDir) !in paths || "mean" !in stats.columns)
    ensures (DemParams.GpkgPath(targetSourceDir, vpu) in paths && sourceType == "soil_moist_max"
             && RootDepthRaster(baseSourceDir) !in paths) ==>
              r == Err(MissingPath(RootDepthRaster(baseSourceDir)))
    ensures (DemParams.GpkgPath(targetSourceDir, vpu) in paths && sourceType == "soil_moist_max"
             && RootDepthRaster(baseSourceDir) in paths && AwcRaster(baseSourceDir) !in paths) ==>
              r == Err(MissingPath(AwcRaster(baseSourceDir)))
    ensures r.Ok? && sourceType == "soil_moist_max" ==>
              Means(stats).Ok? && r.value.csv == MeanCsv("soil_moist_max", Means(stats).value)
              && r.value.zonal.raster == SoilMoistMaxRaster(baseSourceDir)
              && r.value.derivations == DeriveSoilMoistMax(baseSourceDir, paths).value
  {
    var outputPath := Join(outputDir, sourceType);
    var gpkg := DemParams.GpkgPath(targetSourceDir, vpu);
    if gpkg !in paths then Err(MissingPath(gpkg))
    else if sourceType == "soils" then
      var raster := Join(baseSourceDir, "soils_litho/TEXT_PRMS.tif");
      if raster !in paths then Err(MissingPath(raster))
      else ProcessSoils(raster, gpkg, outputPath, vpu, categorical, paths, stats)
    else if sourceType == "soil_moist_max" then
      ProcessSoilMoistMax(baseSourceDir, gpkg, outputPath, vpu, categorical, paths, stats)
    else Err(UnknownName(sourceType))
  }
}
