/**
 * The NHDPlus V2.1 raster download (src/download_rpu_rasters.py): for every
 * raster processing unit (RPU) of every VPU and every component, try the
 * archive names from the newest version down, skip the unit when an archive
 * is already on disk, and otherwise fetch the first archive the server
 * answers for.  The HTTP HEAD answers and the files already downloaded are
 * parameters: `available` holds the URLs answering 200 and `local` the
 * existing paths.
 */
module Download {
  import opened Core
  import DemParams

  datatype VpuEntry = VpuEntry(vpu: string, dd: string, rpuIds: seq<string>)

  /** The VPUs in processing order, with their drainage-area code and RPUs. */
  const RpuIndex: seq<VpuEntry> := [
    VpuEntry("01", "NE", ["01a"]),
    VpuEntry("02", "MA", ["02a", "02b"]),
    VpuEntry("03N", "SA", ["03a", "03b"]),
    VpuEntry("03S", "SA", ["03c", "03d"]),
    VpuEntry("03W", "SA", ["03e", "03f"]),
    VpuEntry("04", "GL", ["04a", "04b", "04c", "04d"]),
    VpuEntry("05", "MS", ["05a", "05b", "05c", "05d"]),
    VpuEntry("06", "MS", ["06a"]),
    VpuEntry("07", "MS", ["07a", "07b", "07c"]),
    VpuEntry("08", "MS", ["08a", "08b", "03g"]),
    VpuEntry("09", "SR", ["09a"]),
    VpuEntry("10L", "MS", ["10a", "10b", "10c", "10d"]),
    VpuEntry("10U", "MS", ["10e", "10f", "10g", "10h", "10i"]),
    VpuEntry("11", "MS", ["11a", "11b", "11c", "11d"]),
    VpuEntry("12", "TX", ["12a", "12b", "12c", "12d"]),
    VpuEntry("13", "RG", ["13a", "13b", "13c", "13d"]),
    VpuEntry("14", "CO", ["14a", "14b"]),
    VpuEntry("15", "CO", ["15a", "15b"]),
    VpuEntry("16", "GB", ["16a", "16b"]),
    VpuEntry("17", "PN", ["17a", "17b", "17c", "17d"]),
    VpuEntry("18", "CA", ["18a", "18b", "18c"]),
    VpuEntry("20", "HI", ["20a", "20b", "20c", "20d", "20e", "20f", "20g", "20h"])
  ]

  const Components: seq<string> := ["NEDSnapshot", "FdrFac", "Hydrodem"]

  /** Archive versions, newest first. */
  const Versions: seq<string> := ["05", "04", "03", "02", "01"]

  /** VPU codes whose archives sit in a per-VPU sub-folder. */
  const SubfolderCodes: seq<string> := ["03", "10", "05", "06", "07", "08", "11", "14", "15"]

  const DataUrl: string := "https://dmap-data-commons-ow.s3.amazonaws.com/NHDPlusV21/Data/NHDPlus"
  const DownloadDir: string := "/caldera/hovenweep/projects/usgs/water/impd/nhgf/gfv2_param/source_data/NHDPlus_Downloads"
  const ExtractDir: string := "/caldera/hovenweep/projects/usgs/water/impd/nhgf/gfv2_param/source_data/NHDPlus_Extracted"

  // ---------------------------------------------------------------------
  // Candidate archives
  // ---------------------------------------------------------------------

  /** `any(code in vpu for code in {...})`: a substring test on the VPU. */
  predicate HasSubfolder(vpu: string)
  {
    exists k :: 0 <= k < |SubfolderCodes| && IsSubstring(SubfolderCodes[k], vpu)
  }

  function BaseUrl(dd: string, vpu: string): (u: string)
    ensures IsPrefix(DataUrl + dd, u)
    ensures u == DataUrl + dd <==> !HasSubfolder(vpu)
  {
    if HasSubfolder(vpu) then DataUrl + dd + "/NHDPlus" + vpu else DataUrl + dd
  }

  /** Two strings of equal length are substrings of each other only when equal. */
  lemma {:induction false} SameLengthSubstring(needle: string, hay: string)
    requires |needle| == |hay|
    ensures IsSubstring(needle, hay) <==> needle == hay
  {
    if |hay| > 0 {
      LongerIsNotSubstring(needle, hay[1..]);
    }
  }

  /** A two-character VPU has a sub-folder exactly when it is one of the codes. */
  lemma TwoCharacterSubfolder(vpu: string)
    requires |vpu| == 2
    ensures HasSubfolder(vpu) <==> vpu in SubfolderCodes
  {
    forall k | 0 <= k < |SubfolderCodes|
      ensures IsSubstring(SubfolderCodes[k], vpu) <==> SubfolderCodes[k] == vpu
    {
      SameLengthSubstring(SubfolderCodes[k], vpu);
    }
  }

  /**
   * The split South Atlantic and Missouri VPUs contain "03" or "10", so their
   * archives sit in a sub-folder named after the split VPU.
   */
  lemma SplitVpusHaveSubfolder(dd: string, vpu: string)
    requires vpu in DemParams.SplitSouthAtlantic + DemParams.SplitMissouri
    ensures BaseUrl(dd, vpu) == DataUrl + dd + "/NHDPlus" + vpu
  {
    var k := if vpu in DemParams.SplitSouthAtlantic then 0 else 1;
    assert IsPrefix(SubfolderCodes[k], vpu);
  }

  /** The two capitalisations under which the hydro-conditioned DEM is published. */
  const HydrodemVariants: seq<string> := ["Hydrodem", "HydroDem"]

  /** The spellings tried for a component: both capitalisations of "Hydrodem", else the name itself. */
  function Variants(component: string): (v: seq<string>)
    ensures |v| >= 1
    ensures Lower(component) != "hydrodem" ==> v == [component]
    ensures Lower(component) == "hydrodem" ==> v == ["Hydrodem", "HydroDem"]
    ensures forall k :: 0 <= k < |v| ==> |v[k]| == |component|
    ensures forall a, b :: 0 <= a < b < |v| ==> v[a] != v[b]
  {
    if Lower(component) == "hydrodem" then
      assert |component| == |Lower(component)| == 8;
      assert HydrodemVariants[0][5] != HydrodemVariants[1][5];
      HydrodemVariants
    else [component]
  }

  lemma LowersTo(s: string, t: string)
    requires |s| == |t| && forall k :: 0 <= k < |s| ==> LowerChar(s[k]) == t[k]
    ensures Lower(s) == t
  {
  }

  /** Every spelling tried is the component up to case: `component.lower()` is what selects them. */
  lemma VariantsAreSpellings(component: string)
    ensures forall k :: 0 <= k < |Variants(component)| ==> Lower(Variants(component)[k]) == Lower(component)
  {
    if Lower(component) == "hydrodem" {
      assert Variants(component) == HydrodemVariants;
      forall k | 0 <= k < |HydrodemVariants|
        ensures Lower(HydrodemVariants[k]) == "hydrodem"
      {
        LowerSpelling(k);
      }
    }
  }

  /** Each spelling of the hydro-conditioned DEM lowers to the same name. */
  lemma LowerSpelling(k: nat)
    requires k < |HydrodemVariants|
    ensures Lower(HydrodemVariants[k]) == "hydrodem"
  {
    var s := HydrodemVariants[k];
    assert |s| == 8;
    assert LowerChar(s[0]) == 'h' && LowerChar(s[5]) == 'd';
    assert s[1..5] == "ydro" && s[6..] == "em";
    LowersTo(s, "hydrodem");
  }

  function FileName(dd: string, vpu: string, rpu: string, variant: string, version: string): string
  {
    "NHDPlusV21_" + dd + "_" + vpu + "_" + rpu + "_" + variant + "_" + version + ".7z"
  }

  /** Names built from equally long variants and versions differ when those do. */
  lemma FileNameInjective(dd: string, vpu: string, rpu: string, v1: string, v2: string, ver1: string, ver2: string)
    requires |v1| == |v2| && |ver1| == |ver2|
    requires FileName(dd, vpu, rpu, v1, ver1) == FileName(dd, vpu, rpu, v2, ver2)
    ensures v1 == v2 && ver1 == ver2
  {
    var p := "NHDPlusV21_" + dd + "_" + vpu + "_" + rpu + "_";
    var f1, f2 := FileName(dd, vpu, rpu, v1, ver1), FileName(dd, vpu, rpu, v2, ver2);
    assert f1 == p + v1 + "_" + ver1 + ".7z";
    assert f2 == p + v2 + "_" + ver2 + ".7z";
    assert f1[|p|..|p| + |v1|] == v1;
    assert f2[|p|..|p| + |v2|] == v2;
    assert f1[|p| + |v1| + 1..|p| + |v1| + 1 + |ver1|] == ver1;
    assert f2[|p| + |v2| + 1..|p| + |v2| + 1 + |ver2|] == ver2;
  }

  /** The URL probed for an archive and the path it is saved to. */
  datatype Candidate = Candidate(url: string, localPath: string)

  function CandidateFor(dd: string, vpu: string, rpu: string, variant: string, version: string): Candidate
  {
    var f := FileName(dd, vpu, rpu, variant, version);
    Candidate(BaseUrl(dd, vpu) + "/" + f, Join(DownloadDir, f))
  }

  /** One variant with every version, newest first. */
  function VersionCandidates(dd: string, vpu: string, rpu: string, variant: string): (c: seq<Candidate>)
    ensures |c| == 5
  {
    seq(5, j requires 0 <= j < 5 => CandidateFor(dd, vpu, rpu, variant, Versions[j]))
  }

  function CandidatesOf(dd: string, vpu: string, rpu: string, variants: seq<string>): (c: seq<Candidate>)
    ensures |c| == |variants| * 5
    decreases |variants|
  {
    if |variants| == 0 then []
    else VersionCandidates(dd, vpu, rpu, variants[0]) + CandidatesOf(dd, vpu, rpu, variants[1..])
  }

  /** Every variant with every version, variant by variant, newest version first. */
  function Candidates(dd: string, vpu: string, rpu: string, component: string): (c: seq<Candidate>)
    ensures |c| == |Variants(component)| * 5
  {
    CandidatesOf(dd, vpu, rpu, Variants(component))
  }

  lemma {:induction false} CandidateAtOf(dd: string, vpu: string, rpu: string, variants: seq<string>, i: int, j: int)
    requires 0 <= i < |variants| && 0 <= j < 5
    ensures i * 5 + j < |CandidatesOf(dd, vpu, rpu, variants)|
    ensures CandidatesOf(dd, vpu, rpu, variants)[i * 5 + j] == CandidateFor(dd, vpu, rpu, variants[i], Versions[j])
    decreases i
  {
    var head, tail := VersionCandidates(dd, vpu, rpu, variants[0]), CandidatesOf(dd, vpu, rpu, variants[1..]);
    assert CandidatesOf(dd, vpu, rpu, variants) == head + tail;
    if i == 0 {
      assert (head + tail)[j] == head[j];
    } else {
      CandidateAtOf(dd, vpu, rpu, variants[1..], i - 1, j);
      assert variants[1..][i - 1] == variants[i];
      assert (head + tail)[i * 5 + j] == tail[(i - 1) * 5 + j];
    }
  }

  /** A candidate's position in the list: variant by variant, five versions each. */
  lemma CandidateAt(dd: string, vpu: string, rpu: string, component: string, i: int, j: int)
    requires 0 <= i < |Variants(component)| && 0 <= j < 5
    ensures i * 5 + j < |Candidates(dd, vpu, rpu, component)|
    ensures Candidates(dd, vpu, rpu, component)[i * 5 + j] == CandidateFor(dd, vpu, rpu, Variants(component)[i], Versions[j])
  {
    CandidateAtOf(dd, vpu, rpu, Variants(component), i, j);
  }

  lemma VersionsDistinct()
    ensures forall x :: 0 <= x < 5 ==> |Versions[x]| == 2
    ensures forall x, y :: 0 <= x < y < 5 ==> Versions[x] != Versions[y]
  {
    forall x, y | 0 <= x < y < 5
      ensures Versions[x] != Versions[y]
    {
      assert Versions[x][1] != Versions[y][1];
    }
  }

  /** Two different (variant, version) choices are saved to different paths. */
  lemma ChoicePathsDistinct(dd: string, vpu: string, rpu: string, component: string, i1: int, j1: int, i2: int, j2: int)
    requires 0 <= i1 < |Variants(component)| && 0 <= j1 < 5
    requires 0 <= i2 < |Variants(component)| && 0 <= j2 < 5
    requires i1 != i2 || j1 != j2
    ensures CandidateFor(dd, vpu, rpu, Variants(component)[i1], Versions[j1]).localPath
         != CandidateFor(dd, vpu, rpu, Variants(component)[i2], Versions[j2]).localPath
  {
    var v := Variants(component);
    VersionsDistinct();
    var f1, f2 := FileName(dd, vpu, rpu, v[i1], Versions[j1]), FileName(dd, vpu, rpu, v[i2], Versions[j2]);
    if Join(DownloadDir, f1) == Join(DownloadDir, f2) {
      assert f1[0] == 'N' && f2[0] == 'N';
      JoinInjective(DownloadDir, f1, f2);
      FileNameInjective(dd, vpu, rpu, v[i1], v[i2], Versions[j1], Versions[j2]);
    }
  }

  /** The same, by position in the candidate list. */
  lemma PositionPathsDistinct(dd: string, vpu: string, rpu: string, component: string, i1: int, j1: int, i2: int, j2: int)
    requires 0 <= i1 < |Variants(component)| && 0 <= j1 < 5
    requires 0 <= i2 < |Variants(component)| && 0 <= j2 < 5
    requires i1 != i2 || j1 != j2
    ensures i1 * 5 + j1 < |Candidates(dd, vpu, rpu, component)| && i2 * 5 + j2 < |Candidates(dd, vpu, rpu, component)|
    ensures Candidates(dd, vpu, rpu, component)[i1 * 5 + j1].localPath != Candidates(dd, vpu, rpu, component)[i2 * 5 + j2].localPath
  {
    CandidateAt(dd, vpu, rpu, component, i1, j1);
    CandidateAt(dd, vpu, rpu, component, i2, j2);
    ChoicePathsDistinct(dd, vpu, rpu, component, i1, j1, i2, j2);
  }

  /** No two candidates of one unit are saved to the same path. */
  lemma CandidatePathsDistinct(dd: string, vpu: string, rpu: string, component: string, a: int, b: int)
    requires 0 <= a < b < |Candidates(dd, vpu, rpu, component)|
    ensures Candidates(dd, vpu, rpu, component)[a].localPath != Candidates(dd, vpu, rpu, component)[b].localPath
  {
    var ia, ja, ib, jb := a / 5, a % 5, b / 5, b % 5;
    assert a == ia * 5 + ja && b == ib * 5 + jb;
    PositionPathsDistinct(dd, vpu, rpu, component, ia, ja, ib, jb);
  }

  // ---------------------------------------------------------------------
  // The search
  // ---------------------------------------------------------------------

  /** A candidate ends the search: it is on disk, or the server answers for it. */
  predicate Decides(c: Candidate, local: set<string>, available: set<string>)
  {
    c.localPath in local || c.url in available
  }

  datatype Stop = Exhausted | Present(at: Candidate) | Available(at: Candidate)

  /** None of the first `p` candidates ends the search. */
  predicate NoneDecide(cands: seq<Candidate>, local: set<string>, available: set<string>, p: nat)
    requires p <= |cands|
  {
    p == 0 || (NoneDecide(cands, local, available, p - 1) && !Decides(cands[p - 1], local, available))
  }

  lemma {:induction false} NoneDecideMeans(cands: seq<Candidate>, local: set<string>, available: set<string>, p: nat)
    requires p <= |cands|
    ensures NoneDecide(cands, local, available, p) <==> forall m :: 0 <= m < p ==> !Decides(cands[m], local, available)
  {
    if p > 0 {
      NoneDecideMeans(cands, local, available, p - 1);
    }
  }

  /** Where the search stopped and the URLs it sent a HEAD request to, in order. */
  datatype ScanResult = ScanResult(stop: Stop, probed: seq<string>)

  /** The search as a reference definition over the candidate list. */
  function Scan(cands: seq<Candidate>, local: set<string>, available: set<string>): (r: ScanResult)
    ensures |r.probed| <= |cands|
    ensures r.stop.Exhausted? ==> |r.probed| == |cands|
    ensures r.stop.Present? ==> r.stop.at in cands && r.stop.at.localPath in local
    ensures r.stop.Available? ==> r.stop.at in cands && r.stop.at.url in available && r.stop.at.localPath !in local
    ensures r.stop.Available? ==> |r.probed| > 0 && r.probed[|r.probed| - 1] == r.stop.at.url
    decreases |cands|
  {
    if |cands| == 0 then ScanResult(Exhausted, [])
    else if cands[0].localPath in local then ScanResult(Present(cands[0]), [])
    else if cands[0].url in available then ScanResult(Available(cands[0]), [cands[0].url])
    else
      var r := Scan(cands[1..], local, available);
      ScanResult(r.stop, [cands[0].url] + r.probed)
  }

  function Urls(cands: seq<Candidate>): (u: seq<string>)
    ensures |u| == |cands| && forall k :: 0 <= k < |cands| ==> u[k] == cands[k].url
  {
    seq(|cands|, k requires 0 <= k < |cands| => cands[k].url)
  }

  lemma UrlsSnoc(cands: seq<Candidate>, p: int)
    requires 0 <= p < |cands|
    ensures Urls(cands[..p + 1]) == Urls(cands[..p]) + [cands[p].url]
  {
  }

  /**
   * The search stops at the first deciding candidate: an archive on disk
   * ends it without a request, an answering URL after its request, and every
   * candidate before it was probed.
   */
  lemma {:induction false} ScanStopsAtFirst(cands: seq<Candidate>, local: set<string>, available: set<string>, k: nat)
    requires k < |cands| && Decides(cands[k], local, available)
    requires forall m :: 0 <= m < k ==> !Decides(cands[m], local, available)
    ensures Scan(cands, local, available) ==
      if cands[k].localPath in local then ScanResult(Present(cands[k]), Urls(cands[..k]))
      else ScanResult(Available(cands[k]), Urls(cands[..k]) + [cands[k].url])
    decreases k
  {
    if k > 0 {
      var tail := cands[1..];
      TailStillUndecided(cands, local, available, k);
      ScanStopsAtFirst(tail, local, available, k - 1);
      ScanSkip(cands, local, available);
      UrlsCons(cands, k);
    }
  }

  /** Dropping an undecided head keeps the first deciding candidate, one place earlier. */
  lemma TailStillUndecided(cands: seq<Candidate>, local: set<string>, available: set<string>, k: nat)
    requires 0 < k < |cands| && Decides(cands[k], local, available)
    requires forall m :: 0 <= m < k ==> !Decides(cands[m], local, available)
    ensures Decides(cands[1..][k - 1], local, available)
    ensures forall m :: 0 <= m < k - 1 ==> !Decides(cands[1..][m], local, available)
  {
    assert forall m :: 0 <= m < k - 1 ==> cands[1..][m] == cands[m + 1];
  }

  /** An undecided head is probed and the search goes on with the rest. */
  lemma ScanSkip(cands: seq<Candidate>, local: set<string>, available: set<string>)
    requires |cands| > 0 && !Decides(cands[0], local, available)
    ensures Scan(cands, local, available)
         == ScanResult(Scan(cands[1..], local, available).stop, [cands[0].url] + Scan(cands[1..], local, available).probed)
  {
  }

  lemma UrlsCons(cands: seq<Candidate>, k: nat)
    requires 0 < k <= |cands|
    ensures Urls(cands[..k]) == [cands[0].url] + Urls(cands[1..][..k - 1])
  {
    assert cands[..k] == [cands[0]] + cands[1..][..k - 1];
  }

  /** With no deciding candidate every URL is probed and nothing is found. */
  lemma {:induction false} ScanExhausts(cands: seq<Candidate>, local: set<string>, available: set<string>)
    requires forall m :: 0 <= m < |cands| ==> !Decides(cands[m], local, available)
    ensures Scan(cands, local, available) == ScanResult(Exhausted, Urls(cands))
    decreases |cands|
  {
    if |cands| > 0 {
      assert forall m :: 0 <= m < |cands| - 1 ==> cands[1..][m] == cands[m + 1];
      ScanExhausts(cands[1..], local, available);
      assert Urls(cands) == [cands[0].url] + Urls(cands[1..]);
    }
  }

  /** What one call does: skip, report the archive missing, or fetch and extract it. */
  datatype Outcome = AlreadyDownloaded(localPath: string) | NotFound | Fetched(url: string, localPath: string, extractPath: string)

  datatype Attempt = Attempt(outcome: Outcome, probed: seq<string>)

  /** Extraction uses the logical component name, not the spelling that was found. */
  function ExtractPath(vpu: string, rpu: string, component: string): (p: string)
    ensures |vpu| > 0 && vpu[0] != '/' && |rpu| > 0 && rpu[0] != '/' && |component| > 0 && component[0] != '/' ==>
              IsPrefix(ExtractDir + "/", p) && IsSuffix("/" + component, p)
  {
    Join(Join(Join(ExtractDir, vpu), rpu), component)
  }

  function AttemptFor(dd: string, vpu: string, rpu: string, component: string, local: set<string>, available: set<string>): (a: Attempt)
    ensures a.outcome.AlreadyDownloaded? ==> a.outcome.localPath in local
    ensures a.outcome.Fetched? ==> a.outcome.url in available && a.outcome.localPath !in local
    ensures a.outcome.Fetched? ==> a.outcome.extractPath == ExtractPath(vpu, rpu, component)
    ensures a.outcome.NotFound? ==> |a.probed| == |Candidates(dd, vpu, rpu, component)|
  {
    var r := Scan(Candidates(dd, vpu, rpu, component), local, available);
    match r.stop
    case Exhausted => Attempt(NotFound, r.probed)
    case Present(c) => Attempt(AlreadyDownloaded(c.localPath), r.probed)
    case Available(c) => Attempt(Fetched(c.url, c.localPath, ExtractPath(vpu, rpu, component)), r.probed)
  }

  /** Scanning a concatenation: the second part is reached only when the first is exhausted. */
  lemma {:induction false} ScanAppend(a: seq<Candidate>, b: seq<Candidate>, local: set<string>, available: set<string>)
    ensures Scan(a + b, local, available) ==
      if Scan(a, local, available).stop.Exhausted? then
        ScanResult(Scan(b, local, available).stop, Scan(a, local, available).probed + Scan(b, local, available).probed)
      else Scan(a, local, available)
    decreases |a|
  {
    if |a| == 0 {
      assert a + b == b;
    } else {
      assert (a + b)[0] == a[0];
      assert (a + b)[1..] == a[1..] + b;
      if !Decides(a[0], local, available) {
        ScanAppend(a[1..], b, local, available);
        var ra, rb := Scan(a[1..], local, available), Scan(b, local, available);
        if ra.stop.Exhausted? {
          assert [a[0].url] + (ra.probed + rb.probed) == ([a[0].url] + ra.probed) + rb.probed;
        }
      }
    }
  }

  lemma {:induction false} CandidatesOfAppend(dd: string, vpu: string, rpu: string, v: seq<string>, w: seq<string>)
    ensures CandidatesOf(dd, vpu, rpu, v + w) == CandidatesOf(dd, vpu, rpu, v) + CandidatesOf(dd, vpu, rpu, w)
    decreases |v|
  {
    if |v| == 0 {
      assert v + w == w;
    } else {
      assert (v + w)[0] == v[0];
      assert (v + w)[1..] == v[1..] + w;
      CandidatesOfAppend(dd, vpu, rpu, v[1..], w);
    }
  }

  lemma CandidatesOfSnoc(dd: string, vpu: string, rpu: string, variants: seq<string>, i: nat)
    requires i < |variants|
    ensures CandidatesOf(dd, vpu, rpu, variants[..i + 1])
         == CandidatesOf(dd, vpu, rpu, variants[..i]) + VersionCandidates(dd, vpu, rpu, variants[i])
  {
    var vc := VersionCandidates(dd, vpu, rpu, variants[i]);
    assert variants[..i] + [variants[i]] == variants[..i + 1];
    CandidatesOfAppend(dd, vpu, rpu, variants[..i], [variants[i]]);
    assert CandidatesOf(dd, vpu, rpu, [variants[i]]) == vc + CandidatesOf(dd, vpu, rpu, []);
    assert vc + [] == vc;
  }

  /**
   * The search over the first `i + 1` variants continues the search over the
   * first `i` with the five versions of variant `i`.
   */
  lemma VariantStep(dd: string, vpu: string, rpu: string, variants: seq<string>, i: nat, local: set<string>, available: set<string>)
    requires i < |variants|
    requires Scan(CandidatesOf(dd, vpu, rpu, variants[..i]), local, available).stop.Exhausted?
    ensures var before, here := Scan(CandidatesOf(dd, vpu, rpu, variants[..i]), local, available),
                                Scan(VersionCandidates(dd, vpu, rpu, variants[i]), local, available);
      Scan(CandidatesOf(dd, vpu, rpu, variants[..i + 1]), local, available) == ScanResult(here.stop, before.probed + here.probed)
  {
    CandidatesOfSnoc(dd, vpu, rpu, variants, i);
    ScanAppend(CandidatesOf(dd, vpu, rpu, variants[..i]), VersionCandidates(dd, vpu, rpu, variants[i]), local, available);
  }

  /** Once the search over the first `n` variants has stopped, the remaining variants are never looked at. */
  lemma VariantStops(dd: string, vpu: string, rpu: string, variants: seq<string>, n: nat, local: set<string>, available: set<string>)
    requires n <= |variants|
    requires !Scan(CandidatesOf(dd, vpu, rpu, variants[..n]), local, available).stop.Exhausted?
    ensures Scan(CandidatesOf(dd, vpu, rpu, variants), local, available) == Scan(CandidatesOf(dd, vpu, rpu, variants[..n]), local, available)
  {
    assert variants[..n] + variants[n..] == variants;
    CandidatesOfAppend(dd, vpu, rpu, variants[..n], variants[n..]);
    ScanAppend(CandidatesOf(dd, vpu, rpu, variants[..n]), CandidatesOf(dd, vpu, rpu, variants[n..]), local, available);
  }

  /**
   * The inner loop of `download_and_extract`: the five versions of one
   * variant, newest first, stopping at an archive on disk (before its
   * request) or at the first URL the server answers for.
   */
  method TryVersions(dd: string, vpu: string, rpu: string, variant: string, baseUrl: string, local: set<string>, available: set<string>)
    returns (stop: Stop, urls: seq<string>)
    requires baseUrl == BaseUrl(dd, vpu)
    ensures ScanResult(stop, urls) == Scan(VersionCandidates(dd, vpu, rpu, variant), local, available)
  {
    ghost var vc := VersionCandidates(dd, vpu, rpu, variant);
    assert |Versions| == 5;
    urls := [];
    var j := 0;
    while j < |Versions|
      invariant 0 <= j <= |Versions|
      invariant urls == Urls(vc[..j])
      invariant NoneDecide(vc, local, available, j)
    {
      var fileName := FileName(dd, vpu, rpu, variant, Versions[j]);
      var url := baseUrl + "/" + fileName;
      var localPath := Join(DownloadDir, fileName);
      assert vc[j] == Candidate(url, localPath);
      if localPath in local {
        NoneDecideMeans(vc, local, available, j);
        ScanStopsAtFirst(vc, local, available, j);
        return Present(Candidate(url, localPath)), urls;
      }
      UrlsSnoc(vc, j);
      urls := urls + [url];
      if url in available {
        NoneDecideMeans(vc, local, available, j);
        ScanStopsAtFirst(vc, local, available, j);
        return Available(Candidate(url, localPath)), urls;
      }
      j := j + 1;
    }
    NoneDecideMeans(vc, local, available, j);
    ScanExhausts(vc, local, available);
    assert vc[..j] == vc;
    return Exhausted, urls;
  }

  /**
   * `download_and_extract`: the search over variants and versions; a found
   * archive is downloaded and extracted under the logical component name.
   */
  method DownloadAndExtract(dd: string, vpu: string, rpu: string, component: string, local: set<string>, available: set<string>)
    returns (o: Outcome, probed: seq<string>)
    ensures Attempt(o, probed) == AttemptFor(dd, vpu, rpu, component, local, available)
  {
    var baseUrl := BaseUrl(dd, vpu);
    var variants := Variants(component);
    probed := [];
    var i := 0;
    while i < |variants|
      invariant 0 <= i <= |variants|
      invariant Scan(CandidatesOf(dd, vpu, rpu, variants[..i]), local, available) == ScanResult(Exhausted, probed)
    {
      var stop, urls := TryVersions(dd, vpu, rpu, variants[i], baseUrl, local, available);
      VariantStep(dd, vpu, rpu, variants, i, local, available);
      probed := probed + urls;
      match stop
      case Present(c) =>
        VariantStops(dd, vpu, rpu, variants, i + 1, local, available);
        return AlreadyDownloaded(c.localPath), probed;
      case Available(c) =>
        // `found = True; break` out of both loops, then download and extract
        VariantStops(dd, vpu, rpu, variants, i + 1, local, available);
        return Fetched(c.url, c.localPath, ExtractPath(vpu, rpu, component)), probed;
      case Exhausted =>
      i := i + 1;
    }
    assert variants[..i] == variants;
    return NotFound, probed;
  }

  /**
   * A search over candidates with distinct paths that fetched an archive,
   * repeated with that archive on disk, stops at the same candidate without
   * its request.
   */
  lemma ScanNoRedownload(cands: seq<Candidate>, local: set<string>, available: set<string>)
    requires forall a, b :: 0 <= a < b < |cands| ==> cands[a].localPath != cands[b].localPath
    requires Scan(cands, local, available).stop.Available?
    ensures var r := Scan(cands, local, available);
      && |r.probed| > 0
      && Scan(cands, local + {r.stop.at.localPath}, available) == ScanResult(Present(r.stop.at), r.probed[..|r.probed| - 1])
  {
    FirstDeciderExists(cands, local, available);
    var k := FirstDecider(cands, local, available);
    ScanStopsAtFirst(cands, local, available, k);
    var lp := cands[k].localPath;
    forall m | 0 <= m < k
      ensures !Decides(cands[m], local + {lp}, available)
    {
    }
    ScanStopsAtFirst(cands, local + {lp}, available, k);
    assert (Urls(cands[..k]) + [cands[k].url])[..k] == Urls(cands[..k]);
  }

  /**
   * After a fetch, running the same call again with the archive on disk
   * skips it, having probed exactly the URLs probed before the fetch.
   */
  lemma NoRedownload(dd: string, vpu: string, rpu: string, component: string, local: set<string>, available: set<string>)
    requires AttemptFor(dd, vpu, rpu, component, local, available).outcome.Fetched?
    ensures var a := AttemptFor(dd, vpu, rpu, component, local, available);
      && |a.probed| > 0
      && AttemptFor(dd, vpu, rpu, component, local + {a.outcome.localPath}, available)
           == Attempt(AlreadyDownloaded(a.outcome.localPath), a.probed[..|a.probed| - 1])
  {
    var cands := Candidates(dd, vpu, rpu, component);
    forall a, b | 0 <= a < b < |cands|
      ensures cands[a].localPath != cands[b].localPath
    {
      CandidatePathsDistinct(dd, vpu, rpu, component, a, b);
    }
    ScanNoRedownload(cands, local, available);
  }

  /** The position where a stopped search stopped. */
  lemma {:induction false} FirstDeciderExists(cands: seq<Candidate>, local: set<string>, available: set<string>)
    requires !Scan(cands, local, available).stop.Exhausted?
    ensures exists k :: 0 <= k < |cands| && Decides(cands[k], local, available)
    decreases |cands|
  {
    if !Decides(cands[0], local, available) {
      FirstDeciderExists(cands[1..], local, available);
      var k :| 0 <= k < |cands[1..]| && Decides(cands[1..][k], local, available);
      assert Decides(cands[k + 1], local, available);
    }
  }

  function FirstDecider(cands: seq<Candidate>, local: set<string>, available: set<string>): (k: nat)
    requires exists k :: 0 <= k < |cands| && Decides(cands[k], local, available)
    ensures k < |cands| && Decides(cands[k], local, available)
    ensures forall m :: 0 <= m < k ==> !Decides(cands[m], local, available)
    decreases |cands|
  {
    if Decides(cands[0], local, available) then 0
    else
      var k :| 0 <= k < |cands| && Decides(cands[k], local, available);
      assert Decides(cands[1..][k - 1], local, available);
      1 + FirstDecider(cands[1..], local, available)
  }

  // ---------------------------------------------------------------------
  // The main loop
  // ---------------------------------------------------------------------

  datatype Call = Call(dd: string, vpu: string, rpu: string, component: string)

  function TotalRpus(index: seq<VpuEntry>): nat
  {
    if |index| == 0 then 0 else |index[0].rpuIds| + TotalRpus(index[1..])
  }

  function UnitCalls(dd: string, vpu: string, rpus: seq<string>): (c: seq<Call>)
    ensures |c| == 3 * |rpus|
    ensures forall k :: 0 <= k < |c| ==> c[k].vpu == vpu && c[k].dd == dd && c[k].component in Components
    ensures forall k, m :: 0 <= k < |rpus| && 0 <= m < 3 ==> c[3 * k + m] == Call(dd, vpu, rpus[k], Components[m])
  {
    if |rpus| == 0 then []
    else [Call(dd, vpu, rpus[0], Components[0]), Call(dd, vpu, rpus[0], Components[1]), Call(dd, vpu, rpus[0], Components[2])]
         + UnitCalls(dd, vpu, rpus[1..])
  }

  /** The calls of the main loop, VPU by VPU, RPU by RPU, component by component. */
  function Calls(index: seq<VpuEntry>): (c: seq<Call>)
    ensures |c| == 3 * TotalRpus(index)
  {
    if |index| == 0 then [] else UnitCalls(index[0].dd, index[0].vpu, index[0].rpuIds) + Calls(index[1..])
  }

  /** Every VPU of the index lists at least one RPU, so every VPU is downloaded. */
  lemma EveryVpuHasRpus()
    ensures forall k :: 0 <= k < |RpuIndex| ==> |RpuIndex[k].rpuIds| > 0
  {
  }

  lemma {:induction false} UnitCallsCover(dd: string, vpu: string, rpus: seq<string>, c: Call)
    ensures c in UnitCalls(dd, vpu, rpus) <==> c.dd == dd && c.vpu == vpu && c.rpu in rpus && c.component in Components
    decreases |rpus|
  {
    if |rpus| > 0 {
      UnitCallsCover(dd, vpu, rpus[1..], c);
      assert c.rpu in rpus <==> c.rpu == rpus[0] || c.rpu in rpus[1..];
    }
  }

  /** Every component of every RPU of every VPU is processed, and nothing else. */
  lemma {:induction false} CallsCover(index: seq<VpuEntry>, c: Call)
    ensures c in Calls(index) <==>
      exists e :: e in index && c.dd == e.dd && c.vpu == e.vpu && c.rpu in e.rpuIds && c.component in Components
    decreases |index|
  {
    if |index| > 0 {
      UnitCallsCover(index[0].dd, index[0].vpu, index[0].rpuIds, c);
      CallsCover(index[1..], c);
      assert forall e :: e in index <==> e == index[0] || e in index[1..];
    }
  }

  /** The RPUs of the VPUs before position `k` of the index. */
  function RpusBefore(index: seq<VpuEntry>, k: nat): nat
    requires k <= |index|
  {
    if k == 0 then 0 else |index[0].rpuIds| + RpusBefore(index[1..], k - 1)
  }

  /**
   * The calls of the `k`-th VPU form one block, its RPUs in order with the
   * three components each (`UnitCalls`), right after the three calls per RPU
   * of every earlier VPU: with `CallsAreBlocks`, the loop runs VPU by VPU in
   * index order.
   */
  lemma CallsBlock(index: seq<VpuEntry>, k: nat)
    requires k < |index|
    ensures 3 * RpusBefore(index, k) + 3 * |index[k].rpuIds| <= |Flatten(Blocks(index))|
    ensures Flatten(Blocks(index))[3 * RpusBefore(index, k)..3 * RpusBefore(index, k) + 3 * |index[k].rpuIds|]
         == UnitCalls(index[k].dd, index[k].vpu, index[k].rpuIds)
  {
    BlockAt(index, k);
    BlocksBefore(index, k);
    FlattenBlock(Blocks(index), k);
  }

  /** Each VPU's calls, one block per VPU. */
  function Blocks(index: seq<VpuEntry>): (b: seq<seq<Call>>)
    ensures |b| == |index|
  {
    if |index| == 0 then [] else [UnitCalls(index[0].dd, index[0].vpu, index[0].rpuIds)] + Blocks(index[1..])
  }

  lemma {:induction false} BlockAt(index: seq<VpuEntry>, k: nat)
    requires k < |index|
    ensures Blocks(index)[k] == UnitCalls(index[k].dd, index[k].vpu, index[k].rpuIds)
    decreases k
  {
    if k > 0 {
      BlockAt(index[1..], k - 1);
      assert index[1..][k - 1] == index[k];
    }
  }

  /** The main loop's calls are the VPUs' blocks one after the other. */
  lemma {:induction false} CallsAreBlocks(index: seq<VpuEntry>)
    ensures Calls(index) == Flatten(Blocks(index))
    decreases |index|
  {
    if |index| > 0 {
      CallsAreBlocks(index[1..]);
      var u := UnitCalls(index[0].dd, index[0].vpu, index[0].rpuIds);
      assert Blocks(index) == [u] + Blocks(index[1..]);
      assert ([u] + Blocks(index[1..]))[1..] == Blocks(index[1..]);
    }
  }

  lemma {:induction false} BlocksBefore(index: seq<VpuEntry>, k: nat)
    requires k <= |index|
    ensures LengthBefore(Blocks(index), k) == 3 * RpusBefore(index, k)
    decreases k
  {
    if k > 0 {
      BlocksBefore(index[1..], k - 1);
      var u := UnitCalls(index[0].dd, index[0].vpu, index[0].rpuIds);
      assert Blocks(index) == [u] + Blocks(index[1..]);
      assert ([u] + Blocks(index[1..]))[1..] == Blocks(index[1..]);
    }
  }

  /** The blocks one after the other. */
  function Flatten<T>(blocks: seq<seq<T>>): seq<T>
  {
    if |blocks| == 0 then [] else blocks[0] + Flatten(blocks[1..])
  }

  /** The length of the blocks before position `k`. */
  function LengthBefore<T>(blocks: seq<seq<T>>, k: nat): nat
    requires k <= |blocks|
  {
    if k == 0 then 0 else |blocks[0]| + LengthBefore(blocks[1..], k - 1)
  }

  /** Block `k` sits right after the blocks before it. */
  lemma {:induction false} FlattenBlock<T>(blocks: seq<seq<T>>, k: nat)
    requires k < |blocks|
    ensures LengthBefore(blocks, k) + |blocks[k]| <= |Flatten(blocks)|
    ensures Flatten(blocks)[LengthBefore(blocks, k)..LengthBefore(blocks, k) + |blocks[k]|] == blocks[k]
    decreases k
  {
    var first, rest := blocks[0], Flatten(blocks[1..]);
    assert Flatten(blocks) == first + rest;
    if k == 0 {
      assert (first + rest)[0..|first|] == first;
    } else {
      FlattenBlock(blocks[1..], k - 1);
      var lo := LengthBefore(blocks[1..], k - 1);
      assert blocks[1..][k - 1] == blocks[k];
      SliceShift(first, rest, lo, lo + |blocks[k]|);
    }
  }

  lemma SliceShift<T>(a: seq<T>, b: seq<T>, i: nat, j: nat)
    requires i <= j <= |b|
    ensures (a + b)[|a| + i..|a| + j] == b[i..j]
  {
  }

  /** The archives the given outcomes fetched. */
  function FetchedPaths(os: seq<Outcome>): set<string>
  {
    if |os| == 0 then {}
    else (if os[0].Fetched? then {os[0].localPath} else {}) + FetchedPaths(os[1..])
  }

  /**
   * Runs `step` on each call in turn, the disk growing by every archive a
   * step fetches.
   */
  function Loop(calls: seq<Call>, local: set<string>, step: (Call, set<string>) -> Outcome): (outcomes: seq<Outcome>)
    ensures |outcomes| == |calls|
    decreases |calls|
  {
    if |calls| == 0 then []
    else
      var o := step(calls[0], local);
      var local' := if o.Fetched? then local + {o.localPath} else local;
      [o] + Loop(calls[1..], local', step)
  }

  /**
   * Call `k` of the loop sees the archives on disk at the start plus those
   * fetched by the calls before it, and nothing else.
   */
  lemma {:induction false} LoopAt(calls: seq<Call>, local: set<string>, step: (Call, set<string>) -> Outcome, k: nat)
    requires k < |calls|
    ensures Loop(calls, local, step)[k] == step(calls[k], local + FetchedPaths(Loop(calls, local, step)[..k]))
    decreases k
  {
    var o := step(calls[0], local);
    var local' := if o.Fetched? then local + {o.localPath} else local;
    var rest := Loop(calls[1..], local', step);
    assert Loop(calls, local, step) == [o] + rest;
    if k == 0 {
      assert Loop(calls, local, step)[..0] == [];
      assert local + FetchedPaths([]) == local;
    } else {
      LoopAt(calls[1..], local', step, k - 1);
      assert calls[k] == calls[1..][k - 1] && ([o] + rest)[k] == rest[k - 1];
      FetchedPathsCons(o, rest, k - 1);
      assert local + FetchedPaths(([o] + rest)[..k]) == local' + FetchedPaths(rest[..k - 1]);
    }
  }

  lemma LoopInOrder(calls: seq<Call>, local: set<string>, step: (Call, set<string>) -> Outcome)
    ensures forall k :: 0 <= k < |calls| ==>
      Loop(calls, local, step)[k] == step(calls[k], local + FetchedPaths(Loop(calls, local, step)[..k]))
  {
    forall k | 0 <= k < |calls|
      ensures Loop(calls, local, step)[k] == step(calls[k], local + FetchedPaths(Loop(calls, local, step)[..k]))
    {
      LoopAt(calls, local, step, k);
    }
  }

  /** The archives fetched by a prefix that starts with one more outcome. */
  lemma FetchedPathsCons(o: Outcome, rest: seq<Outcome>, j: nat)
    requires j <= |rest|
    ensures FetchedPaths(([o] + rest)[..j + 1])
         == (if o.Fetched? then {o.localPath} else {}) + FetchedPaths(rest[..j])
  {
    var p := ([o] + rest)[..j + 1];
    assert p[0] == o && p[1..] == rest[..j];
  }

  /**
   * The script's main loop over a list of calls: each call's outcome is the
   * download attempt against the archives on disk at the start plus those
   * fetched by the calls before it.
   */
  function RunAll(calls: seq<Call>, local: set<string>, available: set<string>): (outcomes: seq<Outcome>)
    ensures |outcomes| == |calls|
    ensures forall k :: 0 <= k < |calls| ==>
      outcomes[k] == AttemptFor(calls[k].dd, calls[k].vpu, calls[k].rpu, calls[k].component,
                                local + FetchedPaths(outcomes[..k]), available).outcome
  {
    var step := (c: Call, seen: set<string>) => AttemptFor(c.dd, c.vpu, c.rpu, c.component, seen, available).outcome;
    LoopInOrder(calls, local, step);
    Loop(calls, local, step)
  }
}
