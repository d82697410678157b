/**
 * Path resolution for the DEM-derived HRU parameters
 * (scripts/1_create_dem_params.py): compound VPU codes share the raster of
 * their parent VPU, the source type picks one of the three terrain rasters,
 * and the zonal-statistics job is described by its inputs and output prefix.
 * The zonal statistics themselves are computed by a library and left out.
 */
module DemParams {
  import opened Core
  import Terrain

  /** The VPU used to find the raster and the VPU used to find the geopackage. */
  datatype Vpus = Vpus(raster: string, gpkg: string)

  const SplitSouthAtlantic: set<string> := {"03N", "03S", "03W"}
  const SplitMissouri: set<string> := {"10U", "10L"}

  function SplitVpus(vpu: string): (v: Vpus)
    ensures v.gpkg == vpu
    ensures IsPrefix(v.raster, vpu)
    ensures v.raster != vpu <==> vpu in SplitSouthAtlantic + SplitMissouri
    ensures v.raster != vpu ==> |v.raster| == 2
  {
    if vpu in SplitSouthAtlantic then Vpus("03", vpu)
    else if vpu in SplitMissouri then Vpus("10", vpu)
    else Vpus(vpu, vpu)
  }

  /** Collapsing a VPU twice collapses it once: raster VPUs are never compound. */
  lemma RasterVpuIsStable(vpu: string)
    ensures SplitVpus(SplitVpus(vpu).raster).raster == SplitVpus(vpu).raster
  {
  }

  /** The three parts of one split VPU all read the same raster. */
  lemma SplitPartsShareRaster(a: string, b: string)
    requires (a in SplitSouthAtlantic && b in SplitSouthAtlantic) || (a in SplitMissouri && b in SplitMissouri)
    ensures SplitVpus(a).raster == SplitVpus(b).raster
    ensures a != b ==> SplitVpus(a).gpkg != SplitVpus(b).gpkg
  {
  }

  /** The input raster for a source type, or `UnknownName` for any other type. */
  function InputRaster(baseSourceDir: string, sourceType: string, rasterVpu: string): (r: Result<string>)
    ensures r.Err? <==> sourceType !in {"slope", "aspect", "elevation"}
    ensures r.Err? ==> r.failure == UnknownName(sourceType)
  {
    var dir := Join(baseSourceDir, rasterVpu);
    if sourceType == "slope" then Ok(Join(dir, "NEDSnapshot_merged_slope_" + rasterVpu + ".tif"))
    else if sourceType == "aspect" then Ok(Join(dir, "NEDSnapshot_merged_aspect_" + rasterVpu + ".tif"))
    else if sourceType == "elevation" then Ok(Join(dir, "NEDSnapshot_merged_fixed_" + rasterVpu + ".tif"))
    else Err(UnknownName(sourceType))
  }

  /**
   * The rasters read here are the ones the terrain stage writes: slope and
   * aspect from its output directory, elevation from the repaired DEM in its
   * input directory.
   */
  lemma ReadsTerrainOutputs(baseSourceDir: string, rasterVpu: string)
    ensures InputRaster(baseSourceDir, "slope", rasterVpu) == Ok(Terrain.SlopePath(baseSourceDir, rasterVpu))
    ensures InputRaster(baseSourceDir, "aspect", rasterVpu) == Ok(Terrain.AspectPath(baseSourceDir, rasterVpu))
    ensures InputRaster(baseSourceDir, "elevation", rasterVpu) == Ok(Terrain.FixedDemPath(baseSourceDir, rasterVpu))
  {
  }

  function GpkgPath(targetSourceDir: string, gpkgVpu: string): string
  {
    Join(targetSourceDir, "NHM_" + gpkgVpu + "_draft.gpkg")
  }

  /** Output file prefix of a zonal run: it names the requested VPU. */
  function ParamPrefix(sourceType: string, vpu: string): string
  {
    "base_nhm_" + sourceType + "_" + vpu + "_param"
  }

  /** One zonal-statistics run as the library is asked to perform it. */
  datatype ZonalJob = ZonalJob(
    raster: string,
    gpkg: string,
    layer: string,
    idFeature: string,
    outPath: string,
    filePrefix: string,
    categorical: bool,
    engine: string,
    writer: string,
    jobs: nat)

  /**
   * The script: resolve the VPUs, select the raster by source type, check the
   * raster and then the geopackage, and describe the zonal run.
   */
  function CreateDemParams(
    baseSourceDir: string, targetSourceDir: string, outputDir: string,
    sourceType: string, categorical: bool, vpu: string, paths: set<string>): (r: Result<ZonalJob>)
    ensures sourceType !in {"slope", "aspect", "elevation"} <==> r == Err(UnknownName(sourceType))
    ensures r.Ok? <==>
      && InputRaster(baseSourceDir, sourceType, SplitVpus(vpu).raster).Ok?
      && InputRaster(baseSourceDir, sourceType, SplitVpus(vpu).raster).value in paths
      && GpkgPath(targetSourceDir, vpu) in paths
    ensures r.Err? && r.failure.MissingPath? ==>
      var raster := InputRaster(baseSourceDir, sourceType, SplitVpus(vpu).raster).value;
      r.failure.path == (if raster !in paths then raster else GpkgPath(targetSourceDir, vpu))
    ensures r.Ok? ==>
      && r.value.raster == InputRaster(baseSourceDir, sourceType, SplitVpus(vpu).raster).value
      && r.value.gpkg == GpkgPath(targetSourceDir, vpu)
      && r.value.outPath == Join(outputDir, sourceType)
      && r.value.filePrefix == "base_nhm_" + sourceType + "_" + vpu + "_param"
      && r.value.categorical == categorical
      && r.value.layer == "nhru" && r.value.idFeature == "hru_id"
      && r.value.jobs == 4
  {
    var vpus := SplitVpus(vpu);
    match InputRaster(baseSourceDir, sourceType, vpus.raster)
    case Err(f) => Err(f)
    case Ok(raster) =>
      if raster !in paths then Err(MissingPath(raster))
      else
        var gpkg := GpkgPath(targetSourceDir, vpus.gpkg);
        if gpkg !in paths then Err(MissingPath(gpkg))
        else Ok(ZonalJob(raster, gpkg, "nhru", "hru_id", Join(outputDir, sourceType),
                         ParamPrefix(sourceType, vpu), categorical, "parallel", "csv", 4))
  }

  /** An unknown source type fails the same way whatever files exist. */
  lemma UnknownSourceTypeIgnoresDisk(
    baseSourceDir: string, targetSourceDir: string, outputDir: string,
    sourceType: string, categorical: bool, vpu: string, paths: set<string>, paths': set<string>)
    requires CreateDemParams(baseSourceDir, targetSourceDir, outputDir, sourceType, categorical, vpu, paths).Err?
    requires CreateDemParams(baseSourceDir, targetSourceDir, outputDir, sourceType, categorical, vpu, paths).failure.UnknownName?
    ensures CreateDemParams(baseSourceDir, targetSourceDir, outputDir, sourceType, categorical, vpu, paths')
         == CreateDemParams(baseSourceDir, targetSourceDir, outputDir, sourceType, categorical, vpu, paths)
  {
  }

  /**
   * For 03N the raster of VPU 03 and the geopackage of 03N are used, and the
   * output prefix names 03N.
   */
  lemma CompoundVpuExample(base: string, target: string, out: string, paths: set<string>)
    requires Join(Join(base, "03"), "NEDSnapshot_merged_slope_03.tif") in paths
    requires Join(target, "NHM_03N_draft.gpkg") in paths
    ensures CreateDemParams(base, target, out, "slope", false, "03N", paths)
         == Ok(ZonalJob(Join(Join(base, "03"), "NEDSnapshot_merged_slope_03.tif"),
                        Join(target, "NHM_03N_draft.gpkg"), "nhru", "hru_id", Join(out, "slope"),
                        "base_nhm_slope_03N_param", false, "parallel", "csv", 4))
  {
    assert SplitVpus("03N") == Vpus("03", "03N");
    assert "NEDSnapshot_merged_slope_" + "03" + ".tif" == "NEDSnapshot_merged_slope_03.tif";
    assert "NHM_" + "03N" + "_draft.gpkg" == "NHM_03N_draft.gpkg";
    assert ParamPrefix("slope", "03N") == "base_nhm_slope_03N_param";
  }
}
