/**
 * Repair of the merged DEM and naming of the terrain outputs
 * (scripts/process_slope_and_aspect.py).  The slope and aspect computations
 * themselves belong to the terrain library; the model records which raster
 * each one is computed from, with which nodata value, and where it is saved.
 */
module Terrain {
  import opened Core

  /** A raster as stored: its values and the nodata value its metadata declares. */
  datatype StoredRaster = StoredRaster(values: seq<seq<real>>, nodata: Option<real>)

  const FillValue: real := -9999.0

  /** Reading with the nodata mask applied: declared-nodata cells become holes. */
  function MaskedRead(r: StoredRaster): (g: seq<seq<Option<real>>>)
    ensures |g| == |r.values|
    ensures forall i :: 0 <= i < |g| ==> |g[i]| == |r.values[i]|
    ensures forall i, j :: 0 <= i < |g| && 0 <= j < |g[i]| ==>
              (g[i][j].None? <==> r.nodata == Some(r.values[i][j]))
              && (g[i][j].Some? ==> g[i][j].value == r.values[i][j])
  {
    seq(|r.values|, i requires 0 <= i < |r.values| =>
      seq(|r.values[i]|, j requires 0 <= j < |r.values[i]| =>
        if r.nodata == Some(r.values[i][j]) then None else Some(r.values[i][j])))
  }

  /** `fillna(-9999)`: every hole takes the fill value. */
  function Repair(g: seq<seq<Option<real>>>): (f: seq<seq<real>>)
    ensures |f| == |g|
    ensures forall i :: 0 <= i < |f| ==> |f[i]| == |g[i]|
  {
    seq(|g|, i requires 0 <= i < |g| =>
      seq(|g[i]|, j requires 0 <= j < |g[i]| =>
        match g[i][j]
        case Some(v) => v
        case None => FillValue))
  }

  /** Holes become -9999 and every present cell keeps its value. */
  lemma RepairFillsOnlyHoles(g: seq<seq<Option<real>>>)
    ensures var f := Repair(g);
      forall i, j :: 0 <= i < |g| && 0 <= j < |g[i]| ==>
        (g[i][j].None? ==> f[i][j] == FillValue) && (g[i][j].Some? ==> f[i][j] == g[i][j].value)
  {
  }

  /**
   * Masking by -9999 undoes the repair when no present cell holds -9999:
   * the repaired raster, read back with its declared nodata, has the same holes.
   */
  lemma MaskUndoesRepair(g: seq<seq<Option<real>>>)
    requires forall i, j :: 0 <= i < |g| && 0 <= j < |g[i]| && g[i][j].Some? ==> g[i][j].value != FillValue
    ensures MaskedRead(StoredRaster(Repair(g), Some(FillValue))) == g
  {
    var m := MaskedRead(StoredRaster(Repair(g), Some(FillValue)));
    assert |m| == |g|;
    forall i | 0 <= i < |g|
      ensures m[i] == g[i]
    {
      assert |m[i]| == |g[i]|;
      forall j | 0 <= j < |g[i]|
        ensures m[i][j] == g[i][j]
      {
      }
    }
  }

  /** Repairing a raster read with nodata -9999 gives back its stored values. */
  lemma RepairUndoesMask(values: seq<seq<real>>)
    ensures Repair(MaskedRead(StoredRaster(values, Some(FillValue)))) == values
  {
    var f := Repair(MaskedRead(StoredRaster(values, Some(FillValue))));
    assert |f| == |values|;
    forall i | 0 <= i < |values|
      ensures f[i] == values[i]
    {
      assert |f[i]| == |values[i]|;
    }
  }

  function VpuDir(dir: string, vpu: string): string
  {
    Join(dir, vpu)
  }

  function DemPath(inputDir: string, vpu: string): string
  {
    Join(VpuDir(inputDir, vpu), "NEDSnapshot_merged_" + vpu + ".tif")
  }

  function FixedDemPath(inputDir: string, vpu: string): string
  {
    Join(VpuDir(inputDir, vpu), "NEDSnapshot_merged_fixed_" + vpu + ".tif")
  }

  function SlopePath(outputDir: string, vpu: string): string
  {
    Join(VpuDir(outputDir, vpu), "NEDSnapshot_merged_slope_" + vpu + ".tif")
  }

  function AspectPath(outputDir: string, vpu: string): string
  {
    Join(VpuDir(outputDir, vpu), "NEDSnapshot_merged_aspect_" + vpu + ".tif")
  }

  /** One terrain-library computation: its source raster, nodata, attribute and output. */
  datatype TerrainJob = TerrainJob(source: string, noData: real, attribute: string, output: string)

  /** The repaired DEM that is written, and the two terrain computations. */
  datatype TerrainPlan = TerrainPlan(fixedPath: string, fixed: StoredRaster, slope: TerrainJob, aspect: TerrainJob)

  /**
   * The script: the DEM must exist; its masked read is repaired and written
   * with nodata -9999 (unconditionally), then slope in degrees and aspect are
   * computed from the ORIGINAL DEM path with nodata -9999.
   */
  function SlopeAndAspect(inputDir: string, outputDir: string, vpu: string, paths: set<string>, dem: StoredRaster): (r: Result<TerrainPlan>)
    ensures DemPath(inputDir, vpu) !in paths <==> r == Err(MissingPath(DemPath(inputDir, vpu)))
    ensures r.Ok? ==>
      && r.value.fixedPath == Join(Join(inputDir, vpu), "NEDSnapshot_merged_fixed_" + vpu + ".tif")
      && r.value.fixed.nodata == Some(-9999.0)
      && |r.value.fixed.values| == |dem.values|
      && (forall i, j :: 0 <= i < |dem.values| && 0 <= j < |dem.values[i]| ==>
            j < |r.value.fixed.values[i]|
            && r.value.fixed.values[i][j] == (if dem.nodata == Some(dem.values[i][j]) then -9999.0 else dem.values[i][j]))
      && r.value.slope == TerrainJob(DemPath(inputDir, vpu), -9999.0, "slope_degrees",
                                     Join(Join(outputDir, vpu), "NEDSnapshot_merged_slope_" + vpu + ".tif"))
      && r.value.aspect == TerrainJob(DemPath(inputDir, vpu), -9999.0, "aspect",
                                      Join(Join(outputDir, vpu), "NEDSnapshot_merged_aspect_" + vpu + ".tif"))
      && r.value.slope.source != r.value.fixedPath
  {
    var demPath := DemPath(inputDir, vpu);
    if demPath !in paths then Err(MissingPath(demPath))
    else
      var fixed := StoredRaster(Repair(MaskedRead(dem)), Some(FillValue));
      assert "NEDSnapshot_merged_" + vpu + ".tif" != "NEDSnapshot_merged_fixed_" + vpu + ".tif" by {
        assert ("NEDSnapshot_merged_" + vpu + ".tif")[19] != ("NEDSnapshot_merged_fixed_" + vpu + ".tif")[19]
            || |vpu| + 23 != |vpu| + 29;
      }
      Ok(TerrainPlan(FixedDemPath(inputDir, vpu), fixed,
                     TerrainJob(demPath, FillValue, "slope_degrees", SlopePath(outputDir, vpu)),
                     TerrainJob(demPath, FillValue, "aspect", AspectPath(outputDir, vpu))))
  }
}
