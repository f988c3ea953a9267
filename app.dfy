/**
 * The server of dashboard/app.py: the rows the user's species and activity
 * choice selects, the influence-range table, the lookups that read the first
 * selected result, and the map update that swaps the prediction overlay and
 * the species records.
 */
module App {
  import opened Wrappers
  import opened Geometry
  import opened Tables
  import opened Dependence
  import opened MapLayers
  import opened Cloud
  import opened Paths

  /** One row of results.csv: a fitted model for one species and activity. */
  datatype ModelResult = ModelResult(latinName: string, activityType: string, meanCvScore: real, stdCvScore: real,
                                     nPresence: int, nBackground: int, folds: int, bandName: string)

  /** One bat record of the training data, with its point location as (latitude, longitude). */
  datatype TrainingRecord = TrainingRecord(latinName: string, activityType: string, location: Corner)

  // ---------------------------------------------------------------------------
  // Selections
  // ---------------------------------------------------------------------------

  /** selected_results: the results of the chosen species and activity, in table order. */
  function SelectedResults(results: seq<ModelResult>, species: string, activity: string): (r: seq<ModelResult>)
    ensures IsSubsequence(r, results)
    ensures forall x :: x in r <==> x in results && x.latinName == species && x.activityType == activity
    ensures forall x: ModelResult :: x.latinName == species && x.activityType == activity ==> multiset(r)[x] == multiset(results)[x]
  {
    Where(results, (x: ModelResult) => x.latinName == species && x.activityType == activity)
  }

  /** partial_dependence_range: the influence ranges of the chosen species and activity. */
  function PartialDependenceRange(ranges: seq<DependenceRange>, species: string, activity: string)
    : (r: seq<DependenceRange>)
    ensures IsSubsequence(r, ranges)
    ensures forall x :: x in r <==> x in ranges && x.latinName == species && x.activityType == activity
    ensures forall x: DependenceRange :: x.latinName == species && x.activityType == activity ==> multiset(r)[x] == multiset(ranges)[x]
  {
    Where(ranges, (x: DependenceRange) => x.latinName == species && x.activityType == activity)
  }

  /** partial_dependence_df_model: the partial-dependence samples of the chosen species and activity. */
  function PartialDependenceDfModel(samples: seq<DependenceSample>, species: string, activity: string)
    : (r: seq<DependenceSample>)
    ensures IsSubsequence(r, samples)
    ensures forall x :: x in r <==> x in samples && x.latinName == species && x.activityType == activity
    ensures forall x: DependenceSample :: x.latinName == species && x.activityType == activity ==> multiset(r)[x] == multiset(samples)[x]
  {
    Where(samples, (x: DependenceSample) => x.latinName == species && x.activityType == activity)
  }

  /** The curve partial_dependence_plot draws: the model's samples of one feature. */
  function FeatureCurve(samples: seq<DependenceSample>, feature: string): (r: seq<DependenceSample>)
    ensures IsSubsequence(r, samples)
    ensures forall x :: x in r <==> x in samples && x.feature == feature
    ensures forall x: DependenceSample :: x.feature == feature ==> multiset(r)[x] == multiset(samples)[x]
  {
    Where(samples, (x: DependenceSample) => x.feature == feature)
  }

  /** The activity choice that stands for every activity. */
  const AllActivities := "All"

  /**
   * selected_training_data: the records of the chosen species, narrowed to the
   * chosen activity unless that is "All".
   */
  function SelectedTrainingData(records: seq<TrainingRecord>, species: string, activity: string)
    : (r: seq<TrainingRecord>)
    ensures IsSubsequence(r, records)
    ensures forall x :: x in r <==> x in records && x.latinName == species &&
                                    (activity == AllActivities || x.activityType == activity)
    ensures forall x: TrainingRecord :: x.latinName == species && (activity == AllActivities || x.activityType == activity) ==>
                          multiset(r)[x] == multiset(records)[x]
  {
    var subset := Where(records, (x: TrainingRecord) => x.latinName == species);
    if activity != AllActivities then
      var narrowed := Where(subset, (x: TrainingRecord) => x.activityType == activity);
      SubsequenceTransitive(narrowed, subset, records);
      narrowed
    else subset
  }

  /** With "All", every record of the species is kept, whatever its activity. */
  lemma AllKeepsEverySpeciesRecord(records: seq<TrainingRecord>, species: string, i: nat)
    requires i < |records| && records[i].latinName == species
    ensures records[i] in SelectedTrainingData(records, species, AllActivities)
  {
    assert records[i] in records;
  }

  /** The results table has one row per (species, activity) pair. */
  predicate OneResultPerChoice(results: seq<ModelResult>)
  {
    forall i, j :: 0 <= i < j < |results| ==>
      (results[i].latinName, results[i].activityType) != (results[j].latinName, results[j].activityType)
  }

  /** When each choice has one row, selecting a listed choice gives exactly that row. */
  lemma SelectionOfListedChoice(results: seq<ModelResult>, k: nat)
    requires OneResultPerChoice(results) && k < |results|
    ensures SelectedResults(results, results[k].latinName, results[k].activityType) == [results[k]]
  {
    var species, activity := results[k].latinName, results[k].activityType;
    var keep := (x: ModelResult) => x.latinName == species && x.activityType == activity;
    forall i | 0 <= i < |results| && i != k ensures !keep(results[i]) {
      if i < k {
        assert (results[i].latinName, results[i].activityType) != (results[k].latinName, results[k].activityType);
      } else {
        assert (results[k].latinName, results[k].activityType) != (results[i].latinName, results[i].activityType);
      }
    }
    WhereSingle(results, keep, k);
  }

  // ---------------------------------------------------------------------------
  // dependence_summary_table
  // ---------------------------------------------------------------------------

  /** A row of the summary: the feature and its influence range. */
  datatype SummaryRow = SummaryRow(feature: string, influence: real)

  /** The column headers after the rename. */
  const SummaryColumns := ["Feature", "Influence Range"]

  /** `pd_df[["feature", "average"]]`: keep the two columns, row by row. */
  function SummaryRows(ranges: seq<DependenceRange>): (rows: seq<SummaryRow>)
    ensures |rows| == |ranges|
    ensures forall i :: 0 <= i < |ranges| ==> rows[i] == SummaryRow(ranges[i].feature, ranges[i].average)
  {
    seq(|ranges|, i requires 0 <= i < |ranges| => SummaryRow(ranges[i].feature, ranges[i].average))
  }

  /** Largest influence first. */
  predicate SortedDescending(rows: seq<SummaryRow>)
  {
    forall i, j :: 0 <= i < j < |rows| ==> rows[i].influence >= rows[j].influence
  }

  /** Insert one row into a table sorted largest first, keeping it so. */
  function InsertDescending(x: SummaryRow, rows: seq<SummaryRow>): (r: seq<SummaryRow>)
    requires SortedDescending(rows)
    ensures SortedDescending(r)
    ensures multiset(r) == multiset(rows) + multiset{x}
    decreases |rows|
  {
    if rows == [] || x.influence >= rows[0].influence then
      ConsSorted(x, rows);
      [x] + rows
    else
      var rest := InsertDescending(x, rows[1..]);
      assert rows == [rows[0]] + rows[1..];
      HeadDominates(rows, x, rest);
      ConsSorted(rows[0], rest);
      [rows[0]] + rest
  }

  /** A row no smaller than the head of a sorted table can go in front of it. */
  lemma ConsSorted(h: SummaryRow, rows: seq<SummaryRow>)
    requires SortedDescending(rows) && (rows == [] || h.influence >= rows[0].influence)
    ensures SortedDescending([h] + rows)
  {
    var r := [h] + rows;
    assert forall i :: 0 < i < |r| ==> r[i] == rows[i - 1];
  }

  /** A head no smaller than the tail and than `x` is no smaller than any row of the tail with `x` inserted. */
  lemma HeadDominates(rows: seq<SummaryRow>, x: SummaryRow, rest: seq<SummaryRow>)
    requires |rows| > 0 && SortedDescending(rows) && rows[0].influence >= x.influence
    requires multiset(rest) == multiset(rows[1..]) + multiset{x}
    ensures forall j :: 0 <= j < |rest| ==> rows[0].influence >= rest[j].influence
  {
    forall j | 0 <= j < |rest| ensures rows[0].influence >= rest[j].influence {
      assert rest[j] in multiset(rest);
      if rest[j] != x {
        assert rest[j] in rows[1..];
        var m :| 0 <= m < |rows[1..]| && rows[1..][m] == rest[j];
        assert rows[m + 1] == rest[j];
      }
    }
  }

  /**
   * `sort_values("average", ascending=False)`: the same rows, largest influence
   * first. Rows with equal influence may come out in any order in pandas;
   * this is one of those orders.
   */
  function SortDescending(rows: seq<SummaryRow>): (r: seq<SummaryRow>)
    ensures SortedDescending(r)
    ensures multiset(r) == multiset(rows)
    ensures |r| == |rows|
    decreases |rows|
  {
    if rows == [] then []
    else
      assert rows == [rows[0]] + rows[1..];
      var r := InsertDescending(rows[0], SortDescending(rows[1..]));
      assert |r| == |multiset(r)|;
      r
  }

  /** `Series.replace(feature_names)`: a feature with a display name gets it; any other stays. */
  function DisplayName(feature: string, featureNames: map<string, string>): (name: string)
    ensures feature in featureNames ==> name == featureNames[feature]
    ensures feature !in featureNames ==> name == feature
  {
    if feature in featureNames then featureNames[feature] else feature
  }

  /**
   * dependence_summary_table: select, keep feature and average, sort by
   * average largest first, replace feature codes by display names in place,
   * rename the columns. The table holds one row per selected range, largest
   * first, each row being a selected range under its display name.
   */
  method DependenceSummaryTable(dependenceRange: seq<DependenceRange>, species: string, activity: string,
                                featureNames: map<string, string>)
    returns (columns: seq<string>, rows: seq<SummaryRow>)
    ensures columns == ["Feature", "Influence Range"]
    ensures SortedDescending(rows)
    ensures var sorted := SortDescending(SummaryRows(PartialDependenceRange(dependenceRange, species, activity)));
      |rows| == |sorted| &&
      forall i :: 0 <= i < |rows| ==>
        rows[i] == SummaryRow(DisplayName(sorted[i].feature, featureNames), sorted[i].influence)
  {
    var pdDf := PartialDependenceRange(dependenceRange, species, activity);
    var sorted := SortDescending(SummaryRows(pdDf));
    rows := sorted;
    var i := 0;
    while i < |rows|
      invariant 0 <= i <= |rows| == |sorted|
      invariant forall j :: 0 <= j < i ==> rows[j] == SummaryRow(DisplayName(sorted[j].feature, featureNames), sorted[j].influence)
      invariant forall j :: i <= j < |rows| ==> rows[j] == sorted[j]
    {
      rows := rows[i := rows[i].(feature := DisplayName(rows[i].feature, featureNames))];
      i := i + 1;
    }
    assert SortedDescending(rows) by {
      assert forall j :: 0 <= j < |rows| ==> rows[j].influence == sorted[j].influence;
    }
    columns := SummaryColumns;
  }

  /**
   * Every selected range is in the summary once per occurrence, under its
   * display name, and nothing else is: the sort only reorders.
   */
  lemma SummaryIsPermutationOfSelection(ranges: seq<DependenceRange>)
    ensures multiset(SortDescending(SummaryRows(ranges))) == multiset(SummaryRows(ranges))
    ensures forall x :: x in SortDescending(SummaryRows(ranges)) <==>
      exists i :: 0 <= i < |ranges| && x == SummaryRow(ranges[i].feature, ranges[i].average)
  {
    var rows := SummaryRows(ranges);
    var sorted := SortDescending(rows);
    forall x ensures x in sorted <==> x in rows {
      assert x in sorted <==> x in multiset(sorted);
      assert x in rows <==> x in multiset(rows);
    }
  }

  // ---------------------------------------------------------------------------
  // First-row lookups
  // ---------------------------------------------------------------------------

  /** `f"app_data/predictions_png/{band_name}.png"`: the blob of a band's image in the bucket. */
  function PngBlobPath(band: string): string
  {
    "app_data/predictions_png/" + band + ".png"
  }

  /**
   * The blob predictions_png_path signs is the image setup_pngs points at
   * exactly when the app-data folder is "app_data": the folder is fixed here
   * but comes from the environment there.
   */
  lemma PngBlobMatchesSetupPngs(folder: string, band: string)
    ensures "gs://sygb-data/" + PngBlobPath(band) == PngUrl(folder, band) <==> folder == "app_data"
  {
    var tail := "/predictions_png/" + band + ".png";
    var fixed := "gs://sygb-data/" + PngBlobPath(band);
    var url := PngUrl(folder, band);
    assert fixed == "gs://sygb-data/" + ("app_data" + tail);
    assert url == "gs://sygb-data/" + (folder + tail);
    if fixed == url {
      assert "app_data" + tail == folder + tail by {
        assert fixed[15..] == "app_data" + tail && url[15..] == folder + tail;
      }
      assert |folder| == 8;
      assert folder == (folder + tail)[..8] && "app_data" == ("app_data" + tail)[..8];
    }
  }

  /** The band of the first selected result, or None where `values[0]` raises IndexError. */
  function FirstBand(selected: seq<ModelResult>): (band: Option<string>)
    ensures band.None? <==> selected == []
    ensures band.Some? ==> band.value == selected[0].bandName
  {
    if selected == [] then None else Some(selected[0].bandName)
  }

  /** Why predictions_png_path gives no URL. */
  datatype PngUrlError = NoSelectedResult | SigningFailed(error: CloudError)

  /**
   * predictions_png_path: sign the PNG of the first selected result's band in
   * the sygb-data bucket, with the default 60-second lifetime.
   */
  method PredictionsPngPath(env: Env, blobs: set<string>, now: int, results: seq<ModelResult>,
                            species: string, activity: string)
    returns (r: Result<SignRequest, PngUrlError>)
    ensures SelectedResults(results, species, activity) == [] ==> r == Failure(NoSelectedResult)
    ensures r.Success? ==>
      var first := SelectedResults(results, species, activity)[0];
      first in results && first.latinName == species && first.activityType == activity &&
      r.value.bucketName == "sygb-data" && r.value.blobName == PngBlobPath(first.bandName) &&
      r.value.expiration == now + 60
    ensures r.Success? ==>
      CredentialsSpec(env).Success? && r.value.client == StorageClient("sy-bat", CredentialsSpec(env).value)
    ensures SelectedResults(results, species, activity) != [] && CredentialsSpec(env).Failure? ==>
      r == Failure(SigningFailed(CredentialsSpec(env).error))
    ensures var selected := SelectedResults(results, species, activity);
      selected != [] && CredentialsSpec(env).Success? && PngBlobPath(selected[0].bandName) !in blobs ==>
      r == Failure(SigningFailed(BlobNotFound(PngBlobPath(selected[0].bandName))))
    ensures var selected := SelectedResults(results, species, activity);
      r.Success? <==> selected != [] && CredentialsSpec(env).Success? && PngBlobPath(selected[0].bandName) in blobs
  {
    var selected := SelectedResults(results, species, activity);
    var band := FirstBand(selected);
    if band.None? {
      return Failure(NoSelectedResult);
    }
    assert selected[0] in selected;
    var filePath := PngBlobPath(band.value);
    var url := GenerateSignedUrl(env, blobs, now, "sygb-data", filePath);
    if url.Failure? {
      return Failure(SigningFailed(url.error));
    }
    return Success(url.value);
  }

  /** The accuracy text of model_description, before rounding for display. */
  datatype AccuracySummary = AccuracySummary(accuracyPercent: real, stdPercent: real, nPresence: int)

  /** model_description: the first selected result's scores as percentages, or None where it raises IndexError. */
  function ModelDescription(selected: seq<ModelResult>): (d: Option<AccuracySummary>)
    ensures d.None? <==> selected == []
    ensures d.Some? ==> d.value.accuracyPercent / 100.0 == selected[0].meanCvScore &&
                        d.value.stdPercent / 100.0 == selected[0].stdCvScore &&
                        d.value.nPresence == selected[0].nPresence
  {
    if selected == [] then None
    else
      var first := selected[0];
      Some(AccuracySummary(first.meanCvScore * 100.0, first.stdCvScore * 100.0, first.nPresence))
  }

  /** Both first-row lookups read the same row: the image and the accuracy text describe one model. */
  lemma LookupsAgree(results: seq<ModelResult>, species: string, activity: string)
    ensures var selected := SelectedResults(results, species, activity);
      FirstBand(selected).Some? <==> ModelDescription(selected).Some?
    ensures var selected := SelectedResults(results, species, activity);
      selected != [] ==>
        exists i :: 0 <= i < |results| && results[i] == selected[0] &&
          FirstBand(selected) == Some(results[i].bandName) &&
          ModelDescription(selected).value.accuracyPercent == results[i].meanCvScore * 100.0
  {
    var selected := SelectedResults(results, species, activity);
    if selected != [] {
      assert selected[0] in selected;
      var i :| 0 <= i < |results| && results[i] == selected[0];
    }
  }

  /** A Daubenton's bat foraging model with a mean CV score of 0.82 is described as 82% accurate. */
  lemma DaubentonForagingExample()
    ensures var results := [
      ModelResult("Myotis daubentonii", "Commuting", 0.7, 0.05, 40, 400, 5, "Myotis daubentonii_Commuting"),
      ModelResult("Myotis daubentonii", "Foraging", 0.82, 0.03, 120, 1200, 5, "Myotis daubentonii_Foraging")];
      var selected := SelectedResults(results, "Myotis daubentonii", "Foraging");
      ModelDescription(selected) == Some(AccuracySummary(82.0, 3.0, 120)) &&
      FirstBand(selected) == Some("Myotis daubentonii_Foraging")
  {
    var results := [
      ModelResult("Myotis daubentonii", "Commuting", 0.7, 0.05, 40, 400, 5, "Myotis daubentonii_Commuting"),
      ModelResult("Myotis daubentonii", "Foraging", 0.82, 0.03, 120, 1200, 5, "Myotis daubentonii_Foraging")];
    assert "Commuting" != "Foraging";
    SelectionOfListedChoice(results, 1);
  }

  // ---------------------------------------------------------------------------
  // main_map
  // ---------------------------------------------------------------------------

  /** The overlay's corners `[[b0, b1], [b2, b3]]` from the projected tif bounds, in tuple order. */
  function OverlayBounds(b: Bounds): (c: CornerPair)
    ensures c.southWest == Corner(b.minx, b.miny) && c.northEast == Corner(b.maxx, b.maxy)
  {
    CornerPair(Corner(b.minx, b.miny), Corner(b.maxx, b.maxy))
  }

  /**
   * The overlay keeps the tuple's order while the base map's fit swaps x and
   * y: they agree exactly when the overlay's tuple already lists latitude
   * before longitude.
   */
  lemma OverlayAndFitAgree(b: Bounds)
    ensures OverlayBounds(Bounds(b.miny, b.minx, b.maxy, b.maxx)) == FitBounds(b)
    ensures OverlayBounds(b) == FitBounds(b) <==> b.minx == b.miny && b.maxx == b.maxy
  {
  }

  /** The points of the selected records, drawn by the GeoData layer. */
  function RecordPoints(records: seq<TrainingRecord>): (points: seq<Corner>)
    ensures |points| == |records|
    ensures forall i :: 0 <= i < |records| ==> points[i] == records[i].location
  {
    seq(|records|, i requires 0 <= i < |records| => records[i].location)
  }

  const PredictionsLayer := "HSM Predictions"
  const RecordsLayer := "Species Records"

  /**
   * main_map: replace the prediction overlay, then the species records.
   * `overlayId` and `recordsId` are the widget ids of the two layers the call
   * creates. Afterwards the map holds exactly one layer of each name if it
   * held at most one before, and every other name is as it was.
   */
  method MainMap(m: LeafletMap, pngUrl: string, tifBounds: Bounds, opacity: real, records: seq<TrainingRecord>,
                 overlayId: nat, recordsId: nat)
    requires m.Valid()
    requires overlayId != recordsId
    requires forall i :: 0 <= i < |m.layers| ==> m.layers[i].id != overlayId && m.layers[i].id != recordsId
    modifies m
    ensures m.Valid()
    ensures m.layers == ReplaceNamed(
      ReplaceNamed(old(m.layers), Layer(overlayId, PredictionsLayer, ImageOverlay(pngUrl, OverlayBounds(tifBounds), opacity))),
      Layer(recordsId, RecordsLayer, GeoData(RecordPoints(records))))
    ensures CountNamed(old(m.layers), PredictionsLayer) <= 1 ==> CountNamed(m.layers, PredictionsLayer) == 1
    ensures CountNamed(old(m.layers), RecordsLayer) <= 1 ==> CountNamed(m.layers, RecordsLayer) == 1
    ensures forall name :: name != PredictionsLayer && name != RecordsLayer ==>
      CountNamed(m.layers, name) == CountNamed(old(m.layers), name)
  {
    var before := m.layers;
    var imageOverlay := Layer(overlayId, PredictionsLayer, ImageOverlay(pngUrl, OverlayBounds(tifBounds), opacity));
    var geoData := Layer(recordsId, RecordsLayer, GeoData(RecordPoints(records)));
    ReplaceLayer(m, imageOverlay);
    var middle := m.layers;
    ReplaceLayer(m, geoData);
    forall name
      ensures name != PredictionsLayer ==> CountNamed(middle, name) == CountNamed(before, name)
      ensures name == PredictionsLayer && CountNamed(before, name) <= 1 ==> CountNamed(middle, name) == 1
    {
      ReplaceNamedCount(before, imageOverlay, name);
    }
    forall name
      ensures name != RecordsLayer ==> CountNamed(m.layers, name) == CountNamed(middle, name)
      ensures name == RecordsLayer && CountNamed(middle, name) <= 1 ==> CountNamed(m.layers, name) == 1
    {
      ReplaceNamedCount(middle, geoData, name);
    }
  }

  /**
   * One replacement as main_map writes it: if the map has a layer named like
   * `l`, remove the first one get_layer finds; then add `l`.
   */
  method ReplaceLayer(m: LeafletMap, l: Layer)
    requires m.Valid()
    requires forall i :: 0 <= i < |m.layers| ==> m.layers[i].id != l.id
    modifies m
    ensures m.Valid()
    ensures m.layers == ReplaceNamed(old(m.layers), l)
    ensures forall i :: 0 <= i < |m.layers| ==> m.layers[i] == l || m.layers[i] in old(m.layers)
  {
    if LayerExists(m.layers, l.name) {
      var oldLayer := GetLayer(m.layers, l.name).value;
      m.RemoveLayer(oldLayer);
    }
    m.AddLayer(l);
  }
}
