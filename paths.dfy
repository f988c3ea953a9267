/**
 * setup_paths and setup_pngs of dashboard/app_utils/data.py: the gs:// URIs
 * of the dashboard's inputs and of the per-band prediction images, all under
 * the app-data folder of the "sygb-data" bucket.
 */
module Paths {
  import opened Geometry
  import opened Raster

  /** The files the dashboard reads, keyed by role, in the order setup_paths lists them. */
  const FileDependencies: seq<(string, string)> := [
    ("results", "results.csv"),
    ("bat_records", "bat-records.parquet"),
    ("predictions", "predictions_cog.tif"),
    ("boundary", "boundary.parquet"),
    ("partial_dependence", "partial-dependence-data.parquet")]

  /** `f"gs://sygb-data/{app_data_folder}"`. */
  function RemoteDir(folder: string): string
  {
    "gs://sygb-data/" + folder
  }

  /** `f"{remote_dir}/{file}"`. */
  function RemoteUri(folder: string, file: string): string
  {
    RemoteDir(folder) + "/" + file
  }

  /** The file part of a URI built by RemoteUri. */
  function FileOfUri(folder: string, uri: string): (file: string)
    requires |RemoteDir(folder)| + 1 <= |uri| && uri[..|RemoteDir(folder)| + 1] == RemoteDir(folder) + "/"
    ensures uri == RemoteDir(folder) + "/" + file
  {
    assert uri == uri[..|RemoteDir(folder)| + 1] + uri[|RemoteDir(folder)| + 1..];
    uri[|RemoteDir(folder)| + 1..]
  }

  /** A remote URI keeps the bucket, the folder and the file name, so the file can be read back. */
  lemma RemoteUriRoundTrip(folder: string, file: string)
    ensures RemoteUri(folder, file)[..|RemoteDir(folder)|] == RemoteDir(folder)
    ensures FileOfUri(folder, RemoteUri(folder, file)) == file
  {
    var uri := RemoteUri(folder, file);
    assert uri == RemoteDir(folder) + ("/" + file);
    assert uri[..|RemoteDir(folder)| + 1] == RemoteDir(folder) + "/";
    assert uri[|RemoteDir(folder)| + 1..] == file;
  }

  /**
   * setup_paths: fill the role -> URI dictionary file by file. The result has
   * exactly the five roles, each mapped to the URI of its file in the folder.
   */
  method SetupPaths(folder: string) returns (filePaths: map<string, string>)
    ensures filePaths.Keys == Roles
    ensures filePaths["results"] == "gs://sygb-data/" + folder + "/results.csv"
    ensures forall i :: 0 <= i < |FileDependencies| ==>
      filePaths[FileDependencies[i].0] == RemoteUri(folder, FileDependencies[i].1)
  {
    RolesDistinct();
    filePaths := map[];
    for i := 0 to |FileDependencies|
      invariant filePaths.Keys <= Roles
      invariant forall j :: 0 <= j < i ==>
        FileDependencies[j].0 in filePaths && filePaths[FileDependencies[j].0] == RemoteUri(folder, FileDependencies[j].1)
    {
      var (key, file) := FileDependencies[i];
      filePaths := filePaths[key := RemoteUri(folder, file)];
    }
    assert filePaths.Keys == Roles by {
      assert FileDependencies[0].0 in filePaths && FileDependencies[1].0 in filePaths && FileDependencies[2].0 in filePaths
          && FileDependencies[3].0 in filePaths && FileDependencies[4].0 in filePaths;
    }
  }

  /** The five roles of setup_paths. */
  const Roles := {"results", "bat_records", "predictions", "boundary", "partial_dependence"}

  /** Each role is listed once, and every listed role is one of the five. */
  lemma RolesDistinct()
    ensures forall j, k :: 0 <= j < k < |FileDependencies| ==> FileDependencies[j].0 != FileDependencies[k].0
    ensures forall j :: 0 <= j < |FileDependencies| ==> FileDependencies[j].0 in Roles
  {
  }

  /** `f"gs://sygb-data/{app_data_folder}/predictions_png"`. */
  function PngBase(folder: string): string
  {
    RemoteDir(folder) + "/predictions_png"
  }

  /**
   * `f"{base_uri}/{band_name}.png"`. The `replace(" ", "%20")` on the next
   * line of the source builds a new string and drops it, so the band name
   * goes into the URL unescaped.
   */
  function PngUrl(folder: string, band: string): string
  {
    PngBase(folder) + "/" + band + ".png"
  }

  /** The band name sits in the URL verbatim, between the base and ".png"; a space in it stays a space. */
  lemma PngUrlKeepsBand(folder: string, band: string)
    ensures var url := PngUrl(folder, band);
      var n := |PngBase(folder)| + 1;
      |url| == n + |band| + 4 && url[n..n + |band|] == band && url[..n - 1] == PngBase(folder)
    ensures ' ' in band ==> ' ' in PngUrl(folder, band)
  {
    var url := PngUrl(folder, band);
    var n := |PngBase(folder)| + 1;
    assert url == PngBase(folder) + "/" + band + ".png";
    assert url[n..n + |band|] == band;
    assert url[..n - 1] == PngBase(folder);
    if ' ' in band {
      var k :| 0 <= k < |band| && band[k] == ' ';
      assert url[n + k] == ' ';
    }
  }

  /** Different bands get different URLs. */
  lemma PngUrlInjective(folder: string, a: string, b: string)
    ensures PngUrl(folder, a) == PngUrl(folder, b) <==> a == b
  {
    if PngUrl(folder, a) == PngUrl(folder, b) {
      PngUrlKeepsBand(folder, a);
      PngUrlKeepsBand(folder, b);
    }
  }

  /**
   * setup_pngs, given the loaded predictions: one URL per band and the
   * raster's bounds and EPSG code.
   */
  method SetupPngs(folder: string, dataset: RasterDataset)
    returns (outputPaths: map<string, string>, bounds: Bounds, crs: int)
    ensures outputPaths.Keys == BandNames(dataset.bands)
    ensures forall n :: n in outputPaths ==> outputPaths[n] == PngUrl(folder, n)
    ensures bounds == dataset.bounds && crs == dataset.crs
  {
    var bands := dataset.bands;
    outputPaths := map[];
    bounds, crs := dataset.bounds, dataset.crs;
    for i := 0 to |bands|
      invariant forall k :: 0 <= k < i ==> bands[k].name in outputPaths
      invariant outputPaths.Keys <= BandNames(bands)
      invariant forall n :: n in outputPaths ==> outputPaths[n] == PngUrl(folder, n)
    {
      var pngUrl := PngUrl(folder, bands[i].name);
      outputPaths := outputPaths[bands[i].name := pngUrl];
    }
  }
}
