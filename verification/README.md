# gfv2-params pipeline core in Dafny

This project models the core of the gfv2-params parameter pipeline. The pipeline derives hydrologic model
parameters for the HRUs (hydrologic response units) of the National Hydrologic Model. It works VPU by VPU (vector
processing unit, a drainage-basin partition such as `01` or `03N`). Each VPU is made of RPUs (raster
processing units). The model covers seven parts of the pipeline:

- **Download** (`src/download_rpu_rasters.py`): every RPU of every VPU, for each of three components.
  For each one the download tries the archive name in every spelling and version, skips the unit when an
  archive is already on disk, and fetches the first archive the server answers for.
- **Mosaic** (`scripts/process_NHD_by_vpu.py`): merges the RPU tiles of a VPU into one raster per dataset.
  - NEDSnapshot and Hydrodem keep the cell-wise minimum at overlaps; the flow datasets keep the first valid value.
  - It then checks the CRS and applies the per-dataset fill, unit, cast and nodata policy.
  - It never overwrites an existing output.
- **Terrain** (`scripts/process_slope_and_aspect.py`): repairs the holes of the merged DEM with -9999, and names
  the slope and aspect rasters computed from the DEM.
- **DemParams** (`scripts/1_create_dem_params.py`): compound VPUs (`03N`/`03S`/`03W`, `10U`/`10L`) read their
  parent VPU's raster. The source type selects the raster, and the two input files are checked in order.
- **Soils** (`scripts/4_create_soils_params.py`): the dominant soil class per HRU, taken as the row-wise argmax
  over the category columns and written in ascending id order. It also covers the soil-moisture maximum: its
  derived rasters are generated only when absent, and its zonal mean is taken.
- **SsFlux** (`scripts/6_create_ssflux_params.py`): lithology permeability is floored at -16.48 and prorated by
  area weight, then summed per HRU. Seven raw fluxes are combined from it and min-max rescaled onto fixed
  calibration bounds.
- **Stitch** (`scripts/7_add_nat_hru_id.py`): the per-VPU files are ordered by the fourth `_` token of their
  name. Each gets `nat_hru_id` (its `hru_id` plus the rows of all earlier files) and a `vpu` column, and all of
  them are concatenated.

The model makes these modelling choices:

- The file system is a set of existing paths.
- Raster cells and tables enter as values. Functions computed by outside libraries enter as parameters: the
  HEAD answers, `10**x`, degrees to fraction, polygon areas, and zonal statistics.
- Every raised exception is a `Failure` value in a `Result`.
- A script's side effects are recorded in the value it returns, except where "## Left out" says otherwise.

The shared module `Core` holds path joining with `/`, `lstrip`, Python's `in` on strings, `split`, ASCII `lower`
and Python's string order. `Sorting` holds a stable insertion sort. It models `sorted`, which is stable, and `sort_index` on unique ids, where the order is determined.

Some behaviour of the code is easy to miss; the model keeps it as written:

- **Elevation holes.** The centimetre-to-metre conversion of NEDSnapshot and Hydrodem fills holes with -9999
  before dividing by 100. Holes therefore become -99.99 under a declared nodata of -9999
  (`Mosaic.ElevationHolesBecomeScaledFill`).
- **Constant flux column.** A flux column with zero range is rescaled by dividing 0 by 0, so every value of
  that column becomes NaN (`SsFlux.Normalize`, where NaN is the missing value `None`).
- **The `count` filter.** The filter `str(col) not in ("count")` tests whether a label is a substring of
  "count", because `("count")` is a string and not a tuple. Any piece of "count" is dropped, not only the
  label itself (`Soils.CountPiecesAreExcluded`). Numeric class codes are never affected
  (`Soils.NumericLabelsAreCategories`).
- **Stopping the download search.** `found = True; break` leaves both loops. The model returns at that point,
  with the same outcome and the same requests made.
- **The `soil_moist_max` token.** The name `base_nhm_soil_moist_max_<vpu>_param.csv` has "moist" as its fourth
  token, so every VPU's file of that type gets the same sort key and the same `vpu` label
  (`Stitch.TokenOfSoilMoistMax`).

## Model

| member | source | states |
|---|---|---|
| Core.JoinTwice | scripts/6_create_ssflux_params.py:55 | joining a directory with `sub` and then `name` gives the same path as joining it with `sub/name` |
| Core.Join | scripts/process_NHD_by_vpu.py:37-41 | the `/` operator on paths: an absolute name replaces the directory, and an empty name leaves it. Otherwise exactly one `/` is added: the result is one character longer than the directory and the name together (`JoinInjective` reads the name back) |
| Core.JoinInjective | src/download_rpu_rasters.py:167 | under one directory, different relative names give different paths |
| Core.LStrip | scripts/process_NHD_by_vpu.py:29 | `lstrip("/")` removes exactly the leading run of the character: the result is a suffix of the input, all dropped characters are that character, and the result does not start with it |
| Core.IsSubstring | src/download_rpu_rasters.py:149 | Python's `needle in hay`: a needle that occurs is no longer than the haystack. The empty string occurs in every string, and so does every suffix of the haystack |
| Core.IsSubstringMeans | scripts/4_create_soils_params.py:73 | Python's `needle in hay` on strings holds exactly when the needle occurs at some offset of the hay |
| Core.Split | scripts/7_add_nat_hru_id.py:40 | `str.split` on one character yields at least one piece, and no piece contains the separator |
| Core.JoinSplit | scripts/7_add_nat_hru_id.py:53 | re-joining the pieces of `split` with the separator gives back the string |
| Core.SplitCount | scripts/7_add_nat_hru_id.py:53 | `split` yields one more piece than the string has separators |
| Core.SplitAround | scripts/7_add_nat_hru_id.py:53 | splitting `a + sep + b` yields the pieces of `a` followed by the pieces of `b` |
| Core.SplitNoSeparator | scripts/7_add_nat_hru_id.py:53 | a string without the separator splits into itself alone |
| Core.Lower | src/download_rpu_rasters.py:156 | `lower()` keeps the length and lowers each character in place |
| Core.LexLeq | scripts/7_add_nat_hru_id.py:40 | Python's `<=` on strings: a prefix of a string orders before or equal to it |
| Core.LexTotal | scripts/7_add_nat_hru_id.py:40 | Python's `<=` on strings compares any two strings |
| Core.LexTransitive | scripts/7_add_nat_hru_id.py:40 | Python's `<=` on strings is transitive |
| Core.LexAntisymmetric | scripts/7_add_nat_hru_id.py:40 | two strings each `<=` the other are equal |
| Sorting.Insert | scripts/7_add_nat_hru_id.py:40 | inserting into a sorted list keeps it sorted, and the result is the old elements plus the new one |
| Sorting.SortBy | scripts/7_add_nat_hru_id.py:40 | `sorted(..., key=...)`: the result is ordered by the key and is a permutation of the input |
| Sorting.SortByIsStable | scripts/7_add_nat_hru_id.py:40 | `sorted` is stable: for every key, the elements with that key come out in the order they went in |
| Sorting.InsertTied | scripts/7_add_nat_hru_id.py:40 | inserting an element puts it in front of the elements it ties with and leaves their order alone |
| Sorting.SortBySortedIsIdentity | scripts/4_create_soils_params.py:77 | sorting a list that is already in order returns it unchanged |
| Terrain.MaskedRead | scripts/process_slope_and_aspect.py:34 | reading with `masked=True` keeps the shape; a cell is missing exactly when it equals the declared nodata, and otherwise keeps its value |
| Terrain.Repair | scripts/process_slope_and_aspect.py:35 | `fillna(-9999)` keeps the raster's shape: the same number of rows, with each row's length unchanged |
| Terrain.RepairFillsOnlyHoles | scripts/process_slope_and_aspect.py:35 | `fillna(-9999)` puts -9999 in every hole and keeps every present value |
| Terrain.MaskUndoesRepair | scripts/process_slope_and_aspect.py:34-36 | when no present cell holds -9999, reading the repaired raster with nodata -9999 gives back the same holes and values |
| Terrain.RepairUndoesMask | scripts/process_slope_and_aspect.py:34-36 | repairing a raster read with nodata -9999 gives back its stored values |
| Terrain.SlopeAndAspect | scripts/process_slope_and_aspect.py:28-55 | fails exactly when the DEM is missing. Otherwise it writes the repaired DEM to `NEDSnapshot_merged_fixed_<vpu>.tif` with nodata -9999, each hole of the original becoming -9999 and each other cell kept. Slope in degrees and aspect are computed from the original DEM, not the fixed one, with nodata -9999, and are saved under the output directory |
| DemParams.SplitVpus | scripts/1_create_dem_params.py:35-44 | the geopackage always uses the requested VPU. The raster VPU differs from it exactly for 03N/03S/03W and 10U/10L, and is then the two-character parent code that prefixes it |
| DemParams.RasterVpuIsStable | scripts/1_create_dem_params.py:35-44 | a raster VPU is never itself compound |
| DemParams.SplitPartsShareRaster | scripts/1_create_dem_params.py:35-44 | two parts of one split VPU read the same raster but different geopackages |
| DemParams.InputRaster | scripts/1_create_dem_params.py:46-54 | slope, aspect and elevation select a raster; any other source type fails with that source type's name |
| DemParams.ReadsTerrainOutputs | scripts/1_create_dem_params.py:47-52 | the slope, aspect and elevation rasters read are the slope, aspect and fixed-DEM paths the terrain step writes |
| DemParams.CreateDemParams | scripts/1_create_dem_params.py:30-103 | an unknown source type fails first, then a missing raster, then a missing geopackage. The run succeeds exactly when both files exist. The zonal job reads the parent raster and the requested VPU's geopackage, layer `nhru`, id `hru_id`, 4 jobs, and writes to `<output_dir>/<source_type>` with the prefix naming the requested VPU |
| DemParams.UnknownSourceTypeIgnoresDisk | scripts/1_create_dem_params.py:53-56 | an unknown source type fails the same way whatever files exist |
| DemParams.CompoundVpuExample | scripts/1_create_dem_params.py:35-61 | for 03N the slope raster of 03 and the geopackage of 03N are used, and the prefix is `base_nhm_slope_03N_param` |
| Mosaic.Collect | scripts/process_NHD_by_vpu.py:36-44 | a successful collection has one value per result |
| Mosaic.ReadFolder | scripts/process_NHD_by_vpu.py:37-43 | the folder is resolved under the base path. A missing folder raises FileNotFoundError, and then a folder without `hdr.adf` raises ValueError. Only a folder that has both is read, and the result is the tile stored there |
| Mosaic.CollectFirstFailure | scripts/process_NHD_by_vpu.py:36-44 | collecting succeeds exactly when every result does, yielding the values in order. Otherwise it reports the first failure, every earlier result having succeeded |
| Mosaic.ReadTiles | scripts/process_NHD_by_vpu.py:36-44 | a successful read yields one tile per listed RPU |
| Mosaic.ReadTilesFirstFailure | scripts/process_NHD_by_vpu.py:36-44 | the folders are read in list order. The read succeeds exactly when every folder exists, has `hdr.adf` and is readable; otherwise the first failing folder's error is raised |
| Mosaic.FrameHeight | scripts/process_NHD_by_vpu.py:50 | the union frame is as tall as the tallest tile |
| Mosaic.FrameWidth | scripts/process_NHD_by_vpu.py:50 | the union frame is as wide as the widest tile |
| Mosaic.MinPresent | scripts/process_NHD_by_vpu.py:52 | `method="min"` at one cell: missing exactly when no tile has a value, otherwise a value some tile holds that is at most every present value |
| Mosaic.FirstPresent | scripts/process_NHD_by_vpu.py:54 | `method="first"` at one cell: missing exactly when no tile has a value, otherwise the value of the first tile that has one |
| Mosaic.MergeTiles | scripts/process_NHD_by_vpu.py:50-54 | the merged grid covers the union of the tile extents |
| Mosaic.MergeDataset | scripts/process_NHD_by_vpu.py:46-54 | no tile fails as `merge_arrays([])` does. One tile is used as read; several are merged by minimum for NEDSnapshot and Hydrodem and by first value otherwise |
| Mosaic.MinOfColumn | scripts/process_NHD_by_vpu.py:52 | the minimum of one cell's tile values is the lowest value any tile holds there |
| Mosaic.FirstOfColumn | scripts/process_NHD_by_vpu.py:54 | the first present value of one cell is that of the first tile holding one |
| Mosaic.MinMergeTakesLowest | scripts/process_NHD_by_vpu.py:52 | every cell of a minimum merge is the lowest value the tiles hold there, and missing where none has one |
| Mosaic.FirstMergeTakesFirst | scripts/process_NHD_by_vpu.py:54 | every cell of a first-valid merge is the value of the first tile, in list order, that has one there |
| Mosaic.LowestIsUnique | scripts/process_NHD_by_vpu.py:52 | two cells that are both the lowest over the same tiles are equal |
| Mosaic.SameTilesSameHeight | scripts/process_NHD_by_vpu.py:50 | lists of the same tiles have the same union height |
| Mosaic.SameTilesSameWidth | scripts/process_NHD_by_vpu.py:50 | lists of the same tiles have the same union width |
| Mosaic.MinMergeIgnoresOrder | scripts/process_NHD_by_vpu.py:50-52 | the minimum merge depends only on which tiles are given, not on their order or repetition |
| Mosaic.MergeOfOneTileIsIdentity | scripts/process_NHD_by_vpu.py:47-54 | merging one rectangular tile by either rule gives the tile back, as the single-tile shortcut does |
| Mosaic.OneCrs | scripts/process_NHD_by_vpu.py:57-59 | the set of CRS strings has at most one element exactly when every tile has the first tile's CRS |
| Mosaic.PolicyFor | scripts/process_NHD_by_vpu.py:62-88 | exactly NEDSnapshot, Hydrodem, FdrFac_Fdr and FdrFac_Fac have a policy. Holes are filled with the nodata value the output declares. Only the two elevation datasets are converted to metres, cast to float32 and written with predictor 2 |
| Mosaic.Finish | scripts/process_NHD_by_vpu.py:63-85 | the grid keeps its shape. Holes take the fill value and present cells keep theirs. Elevation cells are then divided by 100, so multiplying by 100 gives back the filled value |
| Mosaic.Produce | scripts/process_NHD_by_vpu.py:46-94 | no tiles fail as an empty merge. A written raster goes to the given output, its dataset name has a policy, and every tile has the CRS it is written with |
| Mosaic.ProcessDataset | scripts/process_NHD_by_vpu.py:27-44 | the dataset is skipped, with nothing read, exactly when its output exists. A written raster goes to the resolved output path, and only after every folder was read |
| Mosaic.ProducedRaster | scripts/process_NHD_by_vpu.py:46-113 | a produced raster has at least one input tile. Every tile shares the CRS that is written, and the dataset has a policy whose nodata is written. The write is LZW-compressed and tiled in 512 x 512 blocks, with predictor 2 exactly for NEDSnapshot and Hydrodem and none for the flow datasets |
| Mosaic.ProduceFailureOrder | scripts/process_NHD_by_vpu.py:46-88 | after a read, the only failures are: no tile (exactly when none was read), differing CRSs, or an unknown dataset name. An unknown name is reported only once the tiles merged and agreed on one CRS |
| Mosaic.ExistingOutputIsSkipped | scripts/process_NHD_by_vpu.py:31-33 | a dataset whose output exists is skipped before any RPU folder is looked at |
| Mosaic.WrittenOnlyFromValidFolders | scripts/process_NHD_by_vpu.py:31-44 | a dataset is written only to its absent output, from a non-empty RPU list whose folders all exist and have `hdr.adf` |
| Mosaic.ElevationHolesBecomeScaledFill | scripts/process_NHD_by_vpu.py:62-77 | for NEDSnapshot and Hydrodem a present value v is written as v / 100. A hole is written as -99.99, while the declared nodata stays -9999 |
| Mosaic.FlowCodesHaveNoHoles | scripts/process_NHD_by_vpu.py:79-85 | flow-direction holes hold 255 and flow-accumulation holes -9999, equal to the nodata written, and present values are kept |
| Mosaic.MergeVpu | scripts/process_NHD_by_vpu.py:21-33 | a VPU missing from the configuration fails before anything is written. For a configured VPU, every written output was absent from the disk before the run (existing outputs are skipped), and at most one output is written per configured dataset |
| Mosaic.MergeAll | scripts/process_NHD_by_vpu.py:25-115 | at most one write per dataset, and no write goes to a path that existed before the run |
| Mosaic.MergeAllNeverOverwrites | scripts/process_NHD_by_vpu.py:25-115 | over a VPU's datasets, every write goes to one of the configured outputs. No path is written twice, and no path that existed before the run is written |
| Mosaic.SkippedDatasetDoesNotStopRun | scripts/process_NHD_by_vpu.py:31-33 | a skipped dataset leaves the rest of the run as if it were absent |
| Mosaic.TwoTileElevationExample | scripts/process_NHD_by_vpu.py:46-105 | NEDSnapshot tiles [100, 200] and [150, 50] in centimetres merge to [1.00, 0.50] metres, written with nodata -9999 and predictor 2 |
| Mosaic.TwoCellsToMetres | scripts/process_NHD_by_vpu.py:66-68 | cells 100 and 50 are written as 1.0 and 0.5 metres |
| Mosaic.TwoTileMinMerge | scripts/process_NHD_by_vpu.py:52 | tiles [100, 200] and [150, 50] merge by minimum to [100, 50] |
| Soils.CategoryColumns | scripts/4_create_soils_params.py:73 | the category columns are exactly the columns whose label passes the filter, in column order |
| Soils.CountPiecesAreExcluded | scripts/4_create_soils_params.py:73 | any label that is a piece of "count", including "count" itself, is excluded |
| Soils.OtherLabelsAreCategories | scripts/4_create_soils_params.py:73 | a label that occurs nowhere in "count" is a category |
| Soils.NumericLabelsAreCategories | scripts/4_create_soils_params.py:73 | numeric class codes are always categories |
| Soils.FirstMax | scripts/4_create_soils_params.py:75 | `idxmax`: the chosen position holds a maximal value and every earlier position holds a smaller one |
| Soils.FirstMaxIsUnique | scripts/4_create_soils_params.py:75 | only one position is the first maximum |
| Soils.DominantCategories | scripts/4_create_soils_params.py:73-76 | rows but no category column fail as an empty argmax does. Otherwise each row gets its own id and the label of its first maximal category column |
| Soils.SortedCategories | scripts/4_create_soils_params.py:77 | `sort_index()`: the rows are in ascending id order and are a permutation of the input rows. On the unique hru_ids this determines the order; repeated ids would keep their input order, one order pandas may return |
| Soils.SortedKeepsProvenance | scripts/4_create_soils_params.py:73-77 | after sorting, each output row is still the id and dominant class of some statistics row |
| Soils.MeanColumn | scripts/4_create_soils_params.py:169 | the first column labelled `mean`, or none exactly when no column has that label |
| Soils.Means | scripts/4_create_soils_params.py:169 | `stats[["mean"]]` raises a KeyError exactly when there is no `mean` column. Otherwise each row keeps its id and its `mean` value, in the table's order |
| Soils.DeriveSoilMoistMax | scripts/4_create_soils_params.py:98-117 | the root-depth raster is checked first, then the AWC raster, and both are needed. Each derivation writes only a file that is absent. The resample of RootDepth.tif onto AWC.tif's grid, with the same file rd_250_raw.tif as its temporary and final output, runs exactly when that file is absent. The multiply of rd_250_raw.tif by AWC.tif into soil_moist_max.tif runs exactly when soil_moist_max.tif is absent. Nothing else runs, each step runs at most once, and the resample comes first. Afterwards the soil-moisture raster exists |
| Soils.TempIsNotFinal | scripts/4_create_soils_params.py:68-80 | the zonal temporary CSV and the final CSV are different files |
| Soils.AfterZonal | scripts/4_create_soils_params.py:63-80 | after a run the temporary CSV is gone, the final CSV exists, and every other path is unchanged |
| Soils.ProcessSoils | scripts/4_create_soils_params.py:23-81 | fails only for rows without a category column. Otherwise it writes `base_nhm_soils_<vpu>_param.csv` in ascending id order, and its rows are exactly the per-HRU dominant classes, rearranged: a permutation of them |
| Soils.ProcessSoilMoistMax | scripts/4_create_soils_params.py:84-172 | fails exactly when the root-depth or AWC raster is missing or the statistics lack `mean`. Otherwise the zonal job reads the soil-moisture raster, both derived rasters exist, and the CSV holds the `mean` column renamed `soil_moist_max`. The recorded derivations are exactly `DeriveSoilMoistMax`'s |
| Soils.CreateSoilsParams | scripts/4_create_soils_params.py:100-225 | a missing geopackage fails first, then an unknown source type. For `soils`, a missing `TEXT_PRMS.tif` fails. Otherwise the run fails exactly when rows exist but none has a category column, and a success is a category CSV over `TEXT_PRMS.tif` that holds the dominant category of every HRU. For `soil_moist_max`, a missing root-depth raster fails first, then a missing AWC raster. Otherwise the run fails exactly when the statistics lack a `mean` column, and a success is the `soil_moist_max` mean CSV over the derived `soil_moist_max.tif`, with the derivations the missing rasters call for. Every success writes the final CSV under `<output_dir>/<source_type>`, reads the requested VPU's geopackage and leaves no temporary CSV |
| SsFlux.FloorZero | scripts/6_create_ssflux_params.py:92-93 | `replace(0, -16.48)`: zero becomes -16.48, other values are kept, and the result is never zero |
| SsFlux.FloorZeroIdempotent | scripts/6_create_ssflux_params.py:92-93 | flooring twice floors once |
| SsFlux.InnerJoin | scripts/6_create_ssflux_params.py:84-87 | the inner merge on `flux_id` keeps exactly the weight rows that name a polygon, each with that polygon's permeability |
| SsFlux.MatchedFrom | scripts/6_create_ssflux_params.py:84-87 | the weight rows that name a polygon, by position: increasing, each matched, and every matched position present |
| SsFlux.InnerJoinInOrder | scripts/6_create_ssflux_params.py:84-87 | the merge is the matched weight rows joined to their polygons, in weight-table order and once each |
| SsFlux.InnerJoinKeepsMatchedRows | scripts/6_create_ssflux_params.py:84-87 | when every `flux_id` names a polygon, the merge drops nothing and keeps the weight rows' order |
| SsFlux.FloorAll | scripts/6_create_ssflux_params.py:92-93 | every joined row keeps its fields except the permeability, which is floored and non-zero |
| SsFlux.Keys | scripts/6_create_ssflux_params.py:104-113 | the group keys are strictly ascending, and are exactly the `hru_id`s that occur |
| SsFlux.Aggregate | scripts/6_create_ssflux_params.py:98-113 | the groups are in strictly ascending id order, each for an HRU that occurs in the joined rows. Each gets the sum of `10**k_perm * area_weight / flux_id_area` over that HRU's joined rows |
| SsFlux.AggregateCoversRows | scripts/6_create_ssflux_params.py:104-108 | every HRU with a contribution gets an aggregated row |
| SsFlux.AggregateConservesTotal | scripts/6_create_ssflux_params.py:98-108 | the per-HRU sums add up to the prorated permeability of all joined rows |
| SsFlux.SumFor | scripts/6_create_ssflux_params.py:101-108 | the prorated permeability summed over one HRU's rows. An HRU that no row names sums to 0 |
| SsFlux.LeftMerge | scripts/6_create_ssflux_params.py:118-126 | each HRU keeps its id and sum. It gets its converted slope exactly when the slope table lists it, and its area exactly when the layer does; otherwise the value is missing |
| SsFlux.BoundsAreOrdered | scripts/6_create_ssflux_params.py:140-141 | every calibration lower bound is below its upper bound |
| SsFlux.RawAliases | scripts/6_create_ssflux_params.py:129-135 | gwflow equals slowcoef, dprst_seep equals ssr2gw, dprst_flow equals fastcoef, and fastcoef is twice slowcoef. soil2gw is always defined, ssr2gw exactly when the slope is, and slowcoef exactly when slope and area are |
| SsFlux.Raw | scripts/6_create_ssflux_params.py:129-135 | `r_soil2gw_max` is always defined. The slope-based rates need the slope, and the coefficients that divide by `hru_area` need both slope and area |
| SsFlux.RawColumn | scripts/6_create_ssflux_params.py:129-135 | a raw column holds each HRU's formula value in row order |
| SsFlux.ColumnMin | scripts/6_create_ssflux_params.py:143 | `min` skipping NaN: missing only for an all-missing column, otherwise a value of the column that is at most every present value |
| SsFlux.ColumnMax | scripts/6_create_ssflux_params.py:143 | `max` skipping NaN: missing only for an all-missing column, otherwise a value of the column that is at least every present value |
| SsFlux.RescaleEnds | scripts/6_create_ssflux_params.py:148-152 | the observed minimum maps to the lower bound and the maximum to the upper bound |
| SsFlux.Rescale | scripts/6_create_ssflux_params.py:151-152 | the rescale is linear: the offset from lo, times the input range, equals the offset from minIn times the output range |
| SsFlux.RescaleMonotone | scripts/6_create_ssflux_params.py:148-152 | rescaling keeps order |
| SsFlux.RescaleWithin | scripts/6_create_ssflux_params.py:148-152 | values within the observed range land within the bounds |
| SsFlux.Normalize | scripts/6_create_ssflux_params.py:143-152 | an output value is present exactly when the input is present and the column has a positive range, so a constant column is all NaN. Present values are rescaled from the observed min and max onto the bounds |
| SsFlux.NormalizeProperties | scripts/6_create_ssflux_params.py:143-152 | in a normalized column the observed minimum becomes the lower bound and the maximum the upper bound. Every value lies between the bounds and order is kept |
| SsFlux.Soil2gwExample | scripts/6_create_ssflux_params.py:138-152 | raw soil2gw values 1, 2, 3 become 0.1, 0.2, 0.3 |
| SsFlux.Header | scripts/6_create_ssflux_params.py:118-154 | the output columns are the four HRU columns followed by the seven parameter names in order |
| SsFlux.HeaderHasNoIntermediates | scripts/6_create_ssflux_params.py:154 | no `r_` intermediate survives in the output header |
| SsFlux.Flux | scripts/6_create_ssflux_params.py:128-154 | one output row per HRU with its id, sum, slope and area. Parameter k is the normalized raw column of parameter k, onto that parameter's bounds |
| SsFlux.SlowcoefEqualsGwflow | scripts/6_create_ssflux_params.py:131-152 | slowcoef_lin and gwflow_coef agree on every row, since they share raw values and bounds |
| SsFlux.PermeabilityTable | scripts/6_create_ssflux_params.py:98-154 | the output has one row per aggregated HRU, in strictly ascending id order. Each row carries that HRU's prorated permeability sum, under the final header |
| SsFlux.SlopeTableName | scripts/6_create_ssflux_params.py:55 | the slope table's file name is the DEM-parameter prefix for slope plus `.csv` |
| SsFlux.SlopeTableIsDemParamsOutput | scripts/6_create_ssflux_params.py:54-56 | the slope table read is the file the DEM-parameter step writes for source type `slope` |
| SsFlux.CreateSsfluxParams | scripts/6_create_ssflux_params.py:33-157 | a missing geopackage fails first. The run succeeds exactly when the geopackage, the lithology layer and the slope table exist. Weights are generated and saved exactly when the weight file is absent. The CSV goes to `ssflux/base_nhm_<source_type>_<vpu>_param.csv` and holds the permeability table of the floored join |
| Stitch.MatchedNameHasToken | scripts/7_add_nat_hru_id.py:39-40 | every globbed name splits into more than three `_` pieces, so `split("_")[3]` never fails |
| Stitch.Token | scripts/7_add_nat_hru_id.py:53 | `stem.split("_")[3]` is one of the stem's `_`-separated pieces, so it never contains `_` |
| Stitch.TokenIsVpu | scripts/7_add_nat_hru_id.py:53 | when neither the source type nor the VPU holds `_`, the token is the VPU |
| Stitch.TokenOfSoilMoistMax | scripts/7_add_nat_hru_id.py:53 | for `soil_moist_max` files the token is "moist" whatever the VPU |
| Stitch.Select | scripts/7_add_nat_hru_id.py:39-40 | the glob keeps exactly the listed files matching `base_nhm_<source_type>_*_param.csv` |
| Stitch.ByTokenIsTotalPreorder | scripts/7_add_nat_hru_id.py:40 | comparing files by token is a total preorder |
| Stitch.Ordered | scripts/7_add_nat_hru_id.py:39-40 | the processed files are exactly the matching ones, a permutation of them, in ascending token order; files with the same token keep their directory-listing order |
| Stitch.OneTokenKeepsListingOrder | scripts/7_add_nat_hru_id.py:39-40 | when every matching file has the same token, the processing order is the directory-listing order |
| Stitch.SoilMoistMaxKeepsListingOrder | scripts/7_add_nat_hru_id.py:39-40 | the `soil_moist_max` files, whose token is always "moist", are processed in directory-listing order |
| Stitch.SetColumn | scripts/7_add_nat_hru_id.py:56-57 | assigning a column keeps the existing columns in place, appends it only when it is new, adds nothing else, and keeps the columns free of duplicates |
| Stitch.SetColumns | scripts/7_add_nat_hru_id.py:56-57 | assigning several columns keeps the existing ones in place, ends with all of them present, adds nothing else, and keeps the columns free of duplicates |
| Stitch.SetColumnsAppendsNew | scripts/7_add_nat_hru_id.py:56-57 | the columns after the assignments are the old columns followed by the new names, once each, in first-seen order |
| Stitch.Shift | scripts/7_add_nat_hru_id.py:56 | adding the offset keeps an integer id integer and a float id float |
| Stitch.RewriteRows | scripts/7_add_nat_hru_id.py:55-57 | every row is rewritten, none added or dropped |
| Stitch.Rewrite | scripts/7_add_nat_hru_id.py:49-57 | a file without `hru_id` fails with the missing-column error, and a text id fails the addition. Otherwise the rows are kept in number, and the columns are the old ones followed by whichever of `nat_hru_id` and `vpu` are new, without duplicates |
| Stitch.RewriteEffect | scripts/7_add_nat_hru_id.py:55-57 | on each row `vpu` is the file's token. `nat_hru_id` is `hru_id` plus the offset, missing exactly where `hru_id` is, and every other cell is kept |
| Stitch.RewriteIsIdempotent | scripts/7_add_nat_hru_id.py:55-63 | rewriting a rewritten file with the same offset changes nothing |
| Stitch.Concat | scripts/7_add_nat_hru_id.py:67 | `pd.concat`: rows appended in order; the columns are the first table's, in place, followed by exactly the second table's new columns (`NewColumns`), so no column is duplicated and nothing else is added |
| Stitch.MergeAll | scripts/7_add_nat_hru_id.py:67 | the repeated `pd.concat` keeps the rows and the column order accumulated so far as a prefix, and never introduces a duplicate column |
| Stitch.NewColumns | scripts/7_add_nat_hru_id.py:67 | the columns added by a concatenation are exactly the names of the second table missing from the first, each once |
| Stitch.NewColumnsInFirstSeenOrder | scripts/7_add_nat_hru_id.py:67 | the added columns come in the order the second table first has them |
| Stitch.MergeAllContents | scripts/7_add_nat_hru_id.py:43-70 | the merged table holds every row of every rewritten file in file order, and every column of any of them |
| Stitch.FoldLength | scripts/7_add_nat_hru_id.py:45-60 | at most every file is rewritten: all of them when nothing fails, and fewer when something does |
| Stitch.Fold | scripts/7_add_nat_hru_id.py:42-63 | at most one rewrite per file, and one for every file when nothing failed. The rewrites are of the files in order, under the same names |
| Stitch.FoldRewrites | scripts/7_add_nat_hru_id.py:42-63 | the k-th rewritten file is the k-th file, rewritten with the offset equal to the rows of all files before it |
| Stitch.FoldFailure | scripts/7_add_nat_hru_id.py:45-50 | a stopped loop stopped at the first file not rewritten, whose own rewrite fails at its offset |
| Stitch.ProcessFiles | scripts/7_add_nat_hru_id.py:31-70 | a missing input directory fails before anything is read. The merged file is written exactly when no file failed, to `<output_dir>/<merged_file>` |
| Stitch.ProcessFilesRuns | scripts/7_add_nat_hru_id.py:35-70 | with the input directory present, the files rewritten and the failure are those of the loop over the ordered files from offset 0. The merged table is their concatenation |
| Stitch.OffsetExample | scripts/7_add_nat_hru_id.py:42-60 | files of 10, 7 and 5 rows: the third is shifted by 17, and the total is 22 |
| Stitch.OffsetsAreIncreasing | scripts/7_add_nat_hru_id.py:56-60 | an earlier file's shifted range ends before a later file's begins |
| Stitch.NationalIdsAreDistinct | scripts/7_add_nat_hru_id.py:56-60 | rows of different files whose ids lie in their files' 1..n ranges get different national ids |
| Download.BaseUrl | src/download_rpu_rasters.py:149-152 | the base URL extends `.../NHDPlus<dd>`, and equals it exactly when no sub-folder code occurs in the VPU |
| Download.TwoCharacterSubfolder | src/download_rpu_rasters.py:149 | a two-character VPU has a sub-folder exactly when it is one of the nine codes |
| Download.SplitVpusHaveSubfolder | src/download_rpu_rasters.py:149-150 | 03N/03S/03W and 10U/10L contain "03" or "10", so their archives sit under `NHDPlus<vpu>` |
| Download.Variants | src/download_rpu_rasters.py:154-157 | one spelling unless the lower-cased component is "hydrodem", in which case "Hydrodem" then "HydroDem". The spellings are distinct and have the component's length |
| Download.VariantsAreSpellings | src/download_rpu_rasters.py:155-157 | every spelling tried lower-cases to the component's lower-case name |
| Download.LowerSpelling | src/download_rpu_rasters.py:157 | "Hydrodem" and "HydroDem" both lower-case to "hydrodem" |
| Download.FileNameInjective | src/download_rpu_rasters.py:165 | archive names of equally long spellings and versions differ when those do |
| Download.VersionCandidates | src/download_rpu_rasters.py:160-167 | one spelling is tried in five versions |
| Download.CandidatesOf | src/download_rpu_rasters.py:163-167 | five candidates per spelling |
| Download.Candidates | src/download_rpu_rasters.py:163-167 | five candidates per spelling of the component |
| Download.CandidateAt | src/download_rpu_rasters.py:163-167 | candidate `5 i + j` is spelling `i` in version `j`, versions from 05 down to 01 |
| Download.VersionsDistinct | src/download_rpu_rasters.py:160 | the five versions are distinct two-character codes |
| Download.ChoicePathsDistinct | src/download_rpu_rasters.py:165-167 | two different spelling-and-version choices are saved to different local paths |
| Download.CandidatePathsDistinct | src/download_rpu_rasters.py:163-167 | no two candidates of one unit share a local path |
| Download.ScanStopsAtFirst | src/download_rpu_rasters.py:163-178 | the search stops at the first candidate on disk or answered for. A candidate on disk stops it before its request, an answered one after it, and every earlier candidate was requested |
| Download.Scan | src/download_rpu_rasters.py:163-180 | at most one HEAD request per candidate, and one for each when nothing is found. The search stops at an archive on disk without a request, or at a URL that answered 200 after requesting it last. A candidate found by URL is not on disk |
| Download.ScanExhausts | src/download_rpu_rasters.py:163-184 | with no candidate on disk or answered for, every URL is requested and nothing is found |
| Download.ScanAppend | src/download_rpu_rasters.py:163-180 | a later spelling is searched only when the earlier ones found nothing |
| Download.VariantStep | src/download_rpu_rasters.py:163-180 | the search over one more spelling continues the previous search with that spelling's five versions |
| Download.VariantStops | src/download_rpu_rasters.py:179-180 | once a spelling has stopped the search, later spellings are never looked at |
| Download.TryVersions | src/download_rpu_rasters.py:164-178 | the inner loop's stop and requests are those of the reference search over one spelling's five versions |
| Download.DownloadAndExtract | src/download_rpu_rasters.py:147-205 | the outcome and the requests are those of the reference search over all candidates. An archive on disk skips the unit, no answer reports it missing, and an answered archive is fetched and extracted under the component's own name |
| Download.ExtractPath | src/download_rpu_rasters.py:196 | extraction goes under the extraction directory into a folder named after the logical component, whichever spelling was found |
| Download.AttemptFor | src/download_rpu_rasters.py:147-205 | a skip names an archive already on disk. A fetch is of a URL that answered 200, for an archive not on disk, extracted to ExtractPath. A miss probed every candidate |
| Download.ScanNoRedownload | src/download_rpu_rasters.py:169-178 | over candidates with distinct paths, a search that fetched an archive, repeated with it on disk, stops there without its request |
| Download.NoRedownload | src/download_rpu_rasters.py:169-193 | after a fetch, the same call with the archive on disk skips it, having made exactly the requests made before the fetched one |
| Download.UnitCalls | src/download_rpu_rasters.py:211-213 | each RPU of a VPU gets one call per component, in the order NEDSnapshot, FdrFac, Hydrodem |
| Download.Calls | src/download_rpu_rasters.py:208-213 | the main loop makes three calls per RPU |
| Download.EveryVpuHasRpus | src/download_rpu_rasters.py:7-96 | every VPU of the index lists at least one RPU |
| Download.UnitCallsCover | src/download_rpu_rasters.py:211-213 | a VPU's calls are exactly its RPUs crossed with the three components |
| Download.CallsCover | src/download_rpu_rasters.py:208-213 | the main loop calls exactly every component of every RPU of every VPU in the index, and nothing else |
| Download.CallsAreBlocks | src/download_rpu_rasters.py:208-213 | the main loop's calls are the per-VPU blocks of calls, one after the other in index order |
| Download.BlockAt | src/download_rpu_rasters.py:208-213 | the `k`-th block is the calls of the `k`-th VPU: its RPUs in order, three components each |
| Download.BlocksBefore | src/download_rpu_rasters.py:208-213 | the blocks before the `k`-th hold three calls per RPU of the earlier VPUs |
| Download.FlattenBlock | src/download_rpu_rasters.py:208-213 | in blocks laid one after the other, block `k` starts right after the blocks before it |
| Download.CallsBlock | src/download_rpu_rasters.py:208-213 | the calls of the `k`-th VPU are one contiguous run, right after three calls per RPU of every earlier VPU |
| Download.LoopAt | src/download_rpu_rasters.py:208-213 | in the loop, call `k` sees the archives on disk at the start plus exactly those fetched by earlier calls |
| Download.RunAll | src/download_rpu_rasters.py:208-213 | one outcome per call. Each outcome is the download attempt for that call against the disk at the start plus the archives the earlier calls fetched |

## Left out

- Configuration loading, argument parsing and `print` output: the configuration values and the VPU are parameters.
- Directory creation (`mkdir`) is not modelled. The path set only records the files that are checked, read or written.
- The raster and vector libraries are parameters or recorded jobs, not computations:
  - raster reads, georeferencing and affine transforms;
  - the terrain library's slope and aspect;
  - zonal statistics;
  - the polygon-overlap weights;
  - polygon areas.
  Tiles are placed on one frame with a common origin.
- `deg_to_fraction`, `resample` and `mult_rasters` are not part of this model. They enter as a parameter or as recorded derivation steps.
- Floating point: values are exact reals. In SsFlux and Mosaic, NaN is a missing value; elsewhere it is not modelled.
- Soils.SortedCategories: pandas' `sort_index` uses an unstable quicksort by default. The model's stable order is one the library may return; the two agree on the unique `hru_id`s of the `nhru` layer.
- Soils.ProcessSoilMoistMax: when the statistics have no `mean` column, the script has already written `rd_250_raw.tif` and `soil_moist_max.tif` before the KeyError. The failure value does not carry those derivations. `DeriveSoilMoistMax` states them, and they are its result on the same input.
- SsFlux.LeftMerge: the slope table and the `nhru` layer are maps from `hru_id`, so each lists an HRU at most once. pandas' left merge emits one row per matching right row, so a repeated `hru_id` would add rows. The model cannot represent this, and its row count equals the number of HRU groups only under this assumption.
- Soils.DominantCategories: zonal-statistics cells are present reals. NaN cells are not modelled: `idxmax` skips them, and an all-NaN row has no argmax.
- Core.Join: joins with one "/" by string concatenation. Separators are not normalised: a trailing "/" gives "//", and an empty directory gives a leading "/". Path facts are facts about these strings, which the scripts build from configured directories and fixed names.
- SsFlux.Aggregate: `flux_id_area` is a positive real. A zero polygon area, where the division gives inf or NaN in pandas, is excluded by the `Area` type.
- SsFlux.PermeabilityTable: `hru_area` is a positive real when present. A zero HRU area, where the division gives inf or NaN in pandas, is excluded by the `Area` type.
- Mosaic.FlowCodesHaveNoHoles: the `uint8` and `int32` casts are recorded but not applied. An out-of-range value is not wrapped, because the model has unbounded integers.
- Mosaic.ElevationHolesBecomeScaledFill: the `float32` rounding of the converted values is not modelled.
- HTTP requests and 7z extraction are not modelled:
  - a HEAD answer is membership of the URL in a fixed set of URLs answering 200;
  - a download is the archive path added to the disk;
  - a failing download (`raise_for_status`) and the extraction error that is caught and printed are not modelled.
- `download_and_extract_old` (src/download_rpu_rasters.py:109-145) is never called and is not modelled.
- DemParams.CreateDemParams: the source type is a string. A configuration without `source_type` is not modelled: there `output_dir / None` raises a TypeError before any check.
- Soils.CreateSoilsParams: the same applies to a missing `source_type`.
- The `nhru` layer read from the geopackage, and the pandas type coercions of `hru_id`, are not modelled. Ids are integers.
- Stitch: CSV parsing and writing are not modelled. A file's table is given with the listing, and the rewrite in place is the rewritten entry.
