# South Yorkshire bat habitat-suitability dashboard: a Dafny model of its core rules

The dashboard shows where bat species are likely to forage or commute. The
model covers the parts of the dashboard that compute something:

- the raster rules that turn the stored prediction scores into [0, 1] images:
  - no-data masking and the /100 rescale;
  - `normalize`;
  - the vertical flip;
  - the skip-if-exists loop of `write_tif_to_pngs`;
- the influence range of each (species, activity, feature) group of the
  partial-dependence table;
- the `gs://sygb-data/...` URIs of the inputs and of the per-band PNGs;
- looking up map layers by name, and the fit-to-bounds corner order;
- the row selections of the server, including the "All" activity wildcard;
- the sorted influence-range table and the first-row lookups;
- the replacement of the "HSM Predictions" and "Species Records" layers;
- the validation and merge of the Google service-account credentials, and
  the signed-URL expiry;
- the login state machine (`logged_in` and `auth_error`).

## Conventions

- Tables are sequences of records, and a pandas boolean mask is `Tables.Where`.
- Numbers are `real`. A raster cell is `Value(v)` or `NoData` (numpy's NaN).
- The process environment is a `map<string, string>`. A name missing from the
  map is unset, which is what `os.getenv` reports as `None`.
- The output directory of `write_tif_to_pngs` is a map from path to image.
- Files the dashboard reads and the current time are parameters.
- The ipyleaflet map is the class `MapLayers.LeafletMap`.
  - Its layers are a sequence.
  - Each layer carries the widget id that `remove_layer` matches on.
- The login session is the class `Login.LoginSession`, with one method per
  event.

| file | module | source |
|---|---|---|
| common.dfy | `Wrappers`, `Geometry` | Option/Result; bounds tuples and corner pairs |
| tables.dfy | `Tables` | boolean-mask selection |
| raster.dfy | `Raster` | dashboard/app_utils/data.py (`normalize`, `load_predictions`, `write_tif_to_pngs`) |
| dependence.dfy | `Dependence` | dashboard/app_utils/data.py (`calculate_dependence_range`) |
| paths.dfy | `Paths` | dashboard/app_utils/data.py (`setup_paths`, `setup_pngs`) |
| layers.dfy | `MapLayers` | dashboard/app_utils/map.py, and ipyleaflet's `add_layer`/`remove_layer` |
| cloud.dfy | `Cloud` | dashboard/app_utils/cloud.py |
| login.dfy | `Login` | dashboard/modules/login.py |
| app.dfy | `App` | dashboard/app.py |

## Model

| member | source | states |
|---|---|---|
| Raster.MaskCell | dashboard/app_utils/data.py:161-167 | a stored cell is no-data iff it is below 0; any other cell's value times 100 is the stored score, so 0..100 lands in [0, 1] |
| Raster.MaskBand | dashboard/app_utils/data.py:162-167 | the masked band has the stored band's shape and each cell is masked on its own |
| Raster.LoadPredictions | dashboard/app_utils/data.py:149-169 | one band per stored band, named by the long_name list in order, masked and rescaled; bounds and EPSG code pass through |
| Raster.LoadedScoresInUnitRange | dashboard/app_utils/data.py:162-167 | every loaded cell from a negative score is no-data; every cell from a score in 0..100 is a value in [0, 1] equal to score/100 |
| Raster.Clip | dashboard/app_utils/data.py:27 | the clipped value lies in [lo, hi]: a value below lo becomes lo, a value above hi becomes hi, and a value already inside is unchanged |
| Raster.ClipRescale | dashboard/app_utils/data.py:26-28 | with vmin < vmax the result is in [0, 1]; values at or below vmin give 0 and at or above vmax give 1; inside the range the result is (x - vmin)/(vmax - vmin) |
| Raster.Rescale | dashboard/app_utils/data.py:23-24 | the automatic branch: the band minimum maps to 0 and the maximum to 1, values between them land in [0, 1] |
| Raster.ClipRescaleMonotone | dashboard/app_utils/data.py:27-28 | clip-then-rescale never reverses the order of two values |
| Raster.NormalizeCell | dashboard/app_utils/data.py:23-28 | a NaN cell stays NaN through both branches |
| Raster.RowMin | dashboard/app_utils/data.py:24 | np.nanmin of a row: None iff all cells are NaN, otherwise a value of the row not above any other value |
| Raster.RowMax | dashboard/app_utils/data.py:24 | np.nanmax of a row, dually |
| Raster.NanMinIsLeast | dashboard/app_utils/data.py:24 | np.nanmin of a band: None iff every cell is NaN, otherwise the value of some cell and not above any value of the band |
| Raster.NanMaxIsGreatest | dashboard/app_utils/data.py:24 | np.nanmax of a band: None iff every cell is NaN, otherwise the value of some cell and not below any value of the band |
| Raster.LeastValueUnique | dashboard/app_utils/data.py:24 | a band has exactly one least value, so np.nanmin is determined by what it means |
| Raster.GreatestValueUnique | dashboard/app_utils/data.py:24 | a band has exactly one greatest value |
| Raster.MapCells | dashboard/app_utils/data.py:23-28 | the element-wise array expression keeps the band's shape and treats each cell on its own |
| Raster.Normalize | dashboard/app_utils/data.py:19-29 | either branch keeps the shape and the NaN cells, and every value of the result is in [0, 1] |
| Raster.NormalizeExplicitClips | dashboard/app_utils/data.py:26-28 | with an explicit range, a value at or below vmin becomes 0, at or above vmax becomes 1, and in between is rescaled linearly |
| Raster.NormalizeExplicitMonotone | dashboard/app_utils/data.py:27-28 | with an explicit range, x <= y anywhere in the band implies norm(x) <= norm(y) |
| Raster.NormalizeAutoSpansUnitRange | dashboard/app_utils/data.py:23-24 | without a range, the cell holding the band minimum becomes 0 and the cell holding the maximum becomes 1 |
| Raster.NormalizeAutoValue | dashboard/app_utils/data.py:23-24 | without a range, every valid cell becomes (x - min)/(max - min) with the band's own minimum and maximum |
| Raster.FlipUd | dashboard/app_utils/data.py:74 | row i of the flipped band is row n-1-i of the band |
| Raster.FlipUdInvolution | dashboard/app_utils/data.py:74 | flipping twice gives the band back |
| Raster.FlipKeepsLeastValue | dashboard/app_utils/data.py:72-76 | the flipped band's least value is the band's np.nanmin |
| Raster.FlipKeepsGreatestValue | dashboard/app_utils/data.py:72-76 | the flipped band's greatest value is the band's np.nanmax |
| Raster.FlipKeepsExtremes | dashboard/app_utils/data.py:72-76 | flipping changes neither np.nanmin nor np.nanmax of a band |
| Raster.FlipKeepsNormalizeDefined | dashboard/app_utils/data.py:74-76 | a band can be normalised iff its flipped image can |
| Raster.MapCellsFlip | dashboard/app_utils/data.py:74-76 | an element-wise rule gives the same result before or after the flip |
| Raster.FlipCommutesWithNormalize | dashboard/app_utils/data.py:74-76 | flip-then-normalise, as the loop does it, equals normalise-then-flip |
| Raster.RenderBandIsFlippedNormalize | dashboard/app_utils/data.py:72-76 | the image written for a band is the normalised band upside down, every value in [0, 1] |
| Raster.OutputPathsSpec | dashboard/app_utils/data.py:63-65 | after n bands the recorded paths have exactly those bands' names as keys, each mapped to out_dir/"{band}.png" |
| Raster.PngPathInjective | dashboard/app_utils/data.py:64 | two bands share an output path iff they share a name |
| Raster.BandNames | dashboard/app_utils/data.py:56 | the names are exactly those of the dataset's bands |
| Raster.WrittenDisk | dashboard/app_utils/data.py:63-80 | after the loop every file that existed still exists and every band has a file |
| Raster.WrittenDiskKeys | dashboard/app_utils/data.py:63-80 | the loop creates no other file: the files afterwards are exactly the old files plus one PNG per band |
| Raster.BandPngPathsCons | dashboard/app_utils/data.py:63-64 | the bands' PNG paths are the first band's path together with the paths of the remaining bands |
| Raster.WrittenDiskKeepsExisting | dashboard/app_utils/data.py:67-69 | without overwrite, a file that already existed keeps its contents |
| Raster.WrittenDiskKeepsOthers | dashboard/app_utils/data.py:63-80 | a file that is no band's output keeps its contents |
| Raster.WrittenDiskRenders | dashboard/app_utils/data.py:63-80 | a band whose file was missing, or any band under overwrite, ends with its rendered image in its own file |
| Raster.WrittenDiskRendersFirst | dashboard/app_utils/data.py:63-80 | the first band's file, when written, holds its rendered image at the end, since no later band shares its path |
| Raster.WrittenDiskSkipsAll | dashboard/app_utils/data.py:67-69 | when every band's file exists and overwrite is off, nothing is written |
| Raster.WrittenDiskStep | dashboard/app_utils/data.py:63-80 | one loop turn: the first band is renderable or skipped, the rest stay renderable, and the final directory is what the rest of the loop makes of the updated one |
| Raster.WrittenDiskIdempotent | dashboard/app_utils/data.py:63-80 | a second run without overwrite leaves the directory as the first run left it |
| Raster.WriteBand | dashboard/app_utils/data.py:63-80 | one turn of the loop records band i's path; the directory afterwards is unchanged when the file exists and overwrite is off, and otherwise differs only in that file, which holds the band's rendered image; the rest of the loop then ends as WrittenDisk says |
| Raster.WriteTifToPngs | dashboard/app_utils/data.py:44-82 | output_paths has exactly the band names as keys, each mapped to out_dir/"{band}.png", skipped bands included; the directory afterwards is WrittenDisk; bounds and CRS pass through |
| Dependence.SeqMax | dashboard/app_utils/data.py:193 | Series.max: an element of the column not below any other |
| Dependence.SeqMin | dashboard/app_utils/data.py:193 | Series.min: an element of the column not above any other |
| Dependence.GroupAverages | dashboard/app_utils/data.py:192 | a group's `average` column is non-empty iff some sample has that key |
| Dependence.DistinctKeys | dashboard/app_utils/data.py:192 | the group keys are listed without repetition |
| Dependence.SampleKeyInDistinctKeys | dashboard/app_utils/data.py:192 | every sample's key is one of the group keys |
| Dependence.DistinctKeyFromSample | dashboard/app_utils/data.py:192 | every group key is the key of some sample |
| Dependence.Spread | dashboard/app_utils/data.py:193 | max minus min of a non-empty column is never negative |
| Dependence.CalculateDependenceRange | dashboard/app_utils/data.py:181-197 | empty input gives empty output |
| Dependence.DependenceRangeDistinct | dashboard/app_utils/data.py:191-195 | no (latin_name, activity_type, feature) triple has two rows |
| Dependence.DependenceRangeRowFromSample | dashboard/app_utils/data.py:191-195 | every row's triple occurs in the input |
| Dependence.DependenceRangeSampleHasRow | dashboard/app_utils/data.py:191-195 | every input triple has a row |
| Dependence.DependenceRangeValues | dashboard/app_utils/data.py:193 | each row's value is >= 0 and is the difference between two samples of its group that bound all the group's averages |
| Dependence.SpreadIsGroupSpread | dashboard/app_utils/data.py:192-193 | max - min of a group's column is realised by a largest and a smallest sample of the group |
| Dependence.SpreadZeroIffConstant | dashboard/app_utils/data.py:193 | max - min is 0 iff all values are equal |
| Dependence.RangeZeroIffGroupConstant | dashboard/app_utils/data.py:191-195 | a row is 0 iff every sample of its group has the same average, so a single-sample group gives 0 |
| Dependence.WoodlandCoverExample | dashboard/app_utils/data.py:191-195 | averages 0.1, 0.4, 0.2 of one feature give one row with range 0.3 |
| Paths.FileOfUri | dashboard/app_utils/data.py:120 | for a URI that starts with the remote folder and "/", the file part is what follows them: folder, "/" and file give the URI back |
| Paths.RemoteUriRoundTrip | dashboard/app_utils/data.py:110-120 | a remote URI starts with gs://sygb-data/{folder} and the file name can be read back from it |
| Paths.SetupPaths | dashboard/app_utils/data.py:109-122 | exactly the five keys results, bat_records, predictions, boundary, partial_dependence, each mapped to gs://sygb-data/{folder}/{file} |
| Paths.PngUrlKeepsBand | dashboard/app_utils/data.py:101-102 | the band name sits unescaped between the predictions_png base and ".png", so a space stays a space |
| Paths.PngUrlInjective | dashboard/app_utils/data.py:101 | two bands share a URL iff they share a name |
| Paths.SetupPngs | dashboard/app_utils/data.py:85-105 | exactly the band names as keys, each mapped to gs://sygb-data/{folder}/predictions_png/{band}.png; bounds and CRS pass through |
| MapLayers.LayerExists | dashboard/app_utils/map.py:8-24 | true iff some layer of the list has that name |
| MapLayers.GetLayer | dashboard/app_utils/map.py:27-43 | None iff layer_exists is false; otherwise a layer with that name that no earlier layer's name matches |
| MapLayers.GetLayerIndex | dashboard/app_utils/map.py:40-42 | the layer get_layer returns is the first one with that name |
| MapLayers.CountNamed | dashboard/app_utils/map.py:21-24 | the number of layers with a name is positive iff layer_exists holds |
| MapLayers.RemoveId | dashboard/app.py:192 | remove_layer keeps exactly the layers whose widget id differs, and never adds one |
| MapLayers.RemoveIdIsWhere | dashboard/app.py:192 | removing a layer is the boolean-mask selection of the layers with another widget id |
| MapLayers.RemoveIdInOrder | dashboard/app.py:192 | remove_layer keeps the other layers in their drawing order, each as often as before |
| MapLayers.RemoveIdCount | dashboard/app.py:191-192 | removing one layer of a map takes one off the count of its own name and no other |
| MapLayers.RemoveIdDistinct | dashboard/app.py:192 | removing a layer keeps widget ids unique |
| MapLayers.RemoveIdLength | dashboard/app.py:192 | removing a layer that is on the map drops exactly one layer |
| MapLayers.CountNamedAppend | dashboard/app.py:207 | adding a layer adds one to the count of its name only |
| MapLayers.ReplaceNamed | dashboard/app.py:190-207 | after a replacement the new layer is the top layer |
| MapLayers.ReplaceNamedCount | dashboard/app.py:190-207 | after a replacement there is exactly one layer of that name if there was at most one before, and every other name keeps its count |
| MapLayers.ReplaceNamedDistinct | dashboard/app.py:190-207 | a replacement with a new widget keeps widget ids unique |
| MapLayers.FitBounds | dashboard/app_utils/map.py:57-59 | the fit corners are (miny, minx) and (maxy, maxx) of total_bounds: x and y trade places |
| MapLayers.FitBoundsOrdered | dashboard/app_utils/map.py:57-59 | a well-formed box gives a south-west corner below and left of the north-east corner |
| MapLayers.LeafletMap.constructor | dashboard/app_utils/map.py:49 | a map starts with the given layers, all with distinct widget ids |
| MapLayers.LeafletMap.AddLayer | dashboard/app.py:207 | add_layer appends a new widget on top and keeps ids unique |
| MapLayers.LeafletMap.RemoveLayer | dashboard/app.py:192 | remove_layer leaves exactly the other layers, in their order, and one fewer layer; ids stay unique |
| Cloud.GetEnv | dashboard/app_utils/cloud.py:17-20 | os.getenv is None iff the variable is unset; an empty string is a value |
| Cloud.ErrorMessage | dashboard/app_utils/cloud.py:25 | the message is "Environment variable {key} is not set." with the record field's name |
| Cloud.FirstMissing | dashboard/app_utils/cloud.py:23-25 | None iff every variable is set; otherwise the index of an unset variable with every earlier one set |
| Cloud.PrivateCredentialsFieldNames | dashboard/app_utils/cloud.py:16-21 | the private dict built from the first n fields has exactly those fields' names as keys |
| Cloud.PrivateCredentialsKeys | dashboard/app_utils/cloud.py:16-21 | the private part of an accepted record has exactly the keys private_key_id, private_key, client_email, client_id |
| Cloud.GcCredentialsDict | dashboard/app_utils/cloud.py:13-38 | the loop that raises on the first None, gathering the values it checked, then the one dict.update merge, produce CredentialsSpec |
| Cloud.CredentialsRefusedIffUnset | dashboard/app_utils/cloud.py:16-25 | the record is refused iff one of the four variables is unset, and the error names the first unset one in the order private_key_id, private_key, client_email, client_id |
| Cloud.SecondFieldMissing | dashboard/app_utils/cloud.py:23-25 | with SP_PRIVATE_KEY_ID set and SP_PRIVATE_KEY unset, the error names private_key |
| Cloud.EmptyValuesAccepted | dashboard/app_utils/cloud.py:24 | four empty strings pass validation and land in the record |
| Cloud.CredentialsKeys | dashboard/app_utils/cloud.py:27-36 | an accepted record has the seven fixed fields and the four private ones |
| Cloud.CredentialsPrivateValues | dashboard/app_utils/cloud.py:16-36 | each private field of an accepted record holds its variable's value |
| Cloud.CredentialsFixedFields | dashboard/app_utils/cloud.py:28-29 | type is always service_account and project_id always sy-bat |
| Cloud.OverlayKeepsFixedFields | dashboard/app_utils/cloud.py:27-36 | the update cannot override type or project_id |
| Cloud.PrivateCredentialsValues | dashboard/app_utils/cloud.py:17-20 | each private field maps to its variable's value |
| Cloud.GenerateSignedUrl | dashboard/app_utils/cloud.py:43-64 | refused credentials fail before any client exists; a missing blob fails; otherwise the request is for that bucket and blob under the sy-bat client and expires now + expiration_time_seconds (60 by default) |
| Cloud.OpenCloudBucket | dashboard/app_utils/cloud.py:67-73 | fails iff the credentials are refused, before a client is made; otherwise the bucket handle is for that bucket under the sy-bat project |
| Login.OnTrigger | dashboard/modules/login.py:70-81 | matching username and password give logged in, no error, modal closed; a mismatch while logged out sets "Invalid user credentials." and stays logged out; a mismatch while logged in only closes the modal |
| Login.OnCredentialsEdited | dashboard/modules/login.py:89-94 | an edit clears auth_error and changes nothing else |
| Login.ErrorText | dashboard/modules/login.py:84-87 | the error line is hidden iff auth_error is empty |
| Login.StepConsistent | dashboard/modules/login.py:70-94 | every event keeps the modal open exactly while logged out, and keeps the only possible error the failed-login message of a logged-out session |
| Login.RunConsistent | dashboard/modules/login.py:43-94 | every state reachable from the start is consistent |
| Login.LoggedInStays | dashboard/modules/login.py:73-81 | logged_in is never reset once set |
| Login.LoggedInIffSomeSuccess | dashboard/modules/login.py:43-76 | after any events, logged in iff some trigger had username == password |
| Login.ErrorMeansLastAttemptFailed | dashboard/modules/login.py:78-94 | an error on screen means the latest event was a failed attempt, the app is not shown and the error is the invalid-credentials message |
| Login.MismatchAfterLogin | dashboard/modules/login.py:75-79 | a mismatched trigger after a login keeps the user logged in with the app shown and no error |
| Login.LoginSession.constructor | dashboard/modules/login.py:43-68 | a session starts logged out, with no error and the modal shown |
| Login.LoginSession.Trigger | dashboard/modules/login.py:70-81 | the button handler's two statements do what OnTrigger says, and keep the session consistent |
| Login.LoginSession.CredentialsEdited | dashboard/modules/login.py:89-94 | the edit handler does what OnCredentialsEdited says, and keeps the session consistent |
| App.SelectedResults | dashboard/app.py:76-81 | exactly the rows with the chosen latin_name and activity_type, each as often as in the table, in table order |
| App.PartialDependenceRange | dashboard/app.py:84-89 | exactly the influence ranges of the chosen species and activity, in table order |
| App.PartialDependenceDfModel | dashboard/app.py:103-108 | exactly the partial-dependence samples of the chosen species and activity, in table order |
| App.FeatureCurve | dashboard/app.py:114 | exactly the samples of the chosen feature, each as often as in the table, in table order |
| App.SelectedTrainingData | dashboard/app.py:144-157 | exactly the records of the species, and of the activity unless it is "All", in table order |
| App.AllKeepsEverySpeciesRecord | dashboard/app.py:152-156 | with "All" every record of the species is kept |
| App.SelectionOfListedChoice | dashboard/app.py:76-81 | when each (species, activity) has one result row, choosing a listed pair selects exactly that row |
| App.SummaryRows | dashboard/app.py:96 | the summary keeps only feature and average, row by row |
| App.InsertDescending | dashboard/app.py:96 | inserting into a table sorted by influence, largest first, keeps it sorted and adds exactly that row |
| App.SortDescending | dashboard/app.py:96 | sort_values descending: sorted largest first and a permutation of the rows |
| App.DisplayName | dashboard/app.py:97 | replace gives a feature its display name when it has one and keeps it otherwise |
| App.DependenceSummaryTable | dashboard/app.py:91-101 | columns Feature and Influence Range; rows sorted largest first; row i is the i-th sorted selected range under its display name |
| App.SummaryIsPermutationOfSelection | dashboard/app.py:94-96 | the sorted summary holds exactly the selected ranges' feature and average, as often as the selection does |
| App.PngBlobMatchesSetupPngs | dashboard/app.py:169 | the signed blob is the image setup_pngs points at iff the app-data folder is "app_data" |
| App.FirstBand | dashboard/app.py:161 | the first selected row's band_name; None, where values[0] raises, iff the selection is empty |
| App.PredictionsPngPath | dashboard/app.py:159-171 | an empty selection fails; otherwise it signs iff the credentials are accepted and the blob app_data/predictions_png/{band_name}.png of the first selected row exists, failing with the credentials error or BlobNotFound; a signed request is for that blob in bucket sygb-data under the sy-bat client with the accepted credentials, expiring 60 seconds from now |
| App.ModelDescription | dashboard/app.py:125-142 | None iff the selection is empty; otherwise the first row's mean and std scores times 100 and its n_presence |
| App.LookupsAgree | dashboard/app.py:130-161 | the image and the accuracy text read the same first row of the selection |
| App.DaubentonForagingExample | dashboard/app.py:128-137 | a Myotis daubentonii foraging model scoring 0.82 is described as 82% with its own band |
| App.OverlayBounds | dashboard/app.py:195-197 | the overlay corners are [b0, b1] and [b2, b3] |
| App.OverlayAndFitAgree | dashboard/app.py:195-197 | the overlay keeps the tuple's order where the basemap fit swaps it |
| App.RecordPoints | dashboard/app.py:173-178 | the GeoData layer draws one point per selected record |
| App.ReplaceLayer | dashboard/app.py:190-207 | remove the first layer of that name if any, then add the new one, which is ReplaceNamed |
| App.MainMap | dashboard/app.py:185-226 | the new prediction overlay then the species records replace their namesakes; each name is held by exactly one layer if it was held by at most one before; every other name keeps its count |
| Tables.Where | dashboard/app.py:78-81 | a boolean mask keeps a subsequence: exactly the rows that pass, each as often as before, in order |
| Tables.SubsequenceTransitive | dashboard/app.py:149-156 | filtering a filtered table still gives a subsequence of the original |
| Tables.SubsequenceLength | dashboard/app.py:78-81 | a selection is never longer than its table |
| Tables.WhereSingle | dashboard/app.py:78-81 | a mask that holds for exactly one row selects that row alone |

## Left out

- I/O is not modelled:
  - blob downloads and file parsing (`CloudBucket.get_blob_bytes`, `read_csv`, `read_parquet`, `open_rasterio`);
  - `load_dotenv`;
  - `plt.imsave` and the PNG encoding;
  - `png_dir.mkdir`.

  The parsed tables, the environment, the existing output files and the bucket's blob names are parameters.
- The colormap (`get_cmap`, `array_to_rgb`) is not modelled; a band's image is its normalised grid.
- `project_bbox` and `to_crs` are not modelled. They are pyproj/geopandas reprojection with floating-point geodesy. The overlay takes the already projected tuple.
- Floating point is not modelled: scores are `real`. Rounding for display (`round(..., 1)`, `.round(3)`) is left out, so `App.ModelDescription` and `App.DependenceSummaryTable` give unrounded numbers.
- NaN appears only as the `NoData` cell. There is no NaN among partial-dependence averages or scores.
- Raster.Normalize: requires vmin < vmax, or, without a range, a band with two distinct finite values. The source accepts the other inputs, and the model does not cover them:
  - with vmin > vmax, `clip` gives vmax everywhere, so every finite cell becomes 1.0;
  - with vmin == vmax, or a band that is all NaN or constant, the division is 0/0, and numpy gives NaN cells with a RuntimeWarning rather than an error.
- Raster.WriteTifToPngs: requires that every band it actually renders can be normalised (RenderableWhereWritten), because `Raster.Normalize` requires it.
- Raster.PngPath: the output path is the string out_dir + "/" + band + ".png". pathlib's joining is not modelled: `Path("out/") / "x.png"` is `out/x.png`, where the model gives `out//x.png`. `Raster.PngPathInjective` is about these strings, not about files.
- Raster.LoadPredictions: requires one long name per band. Assigning the band coordinate fails otherwise, and that failure is not modelled.
- Dependence.CalculateDependenceRange: rows come out in first-appearance order of their key. pandas sorts the group keys. The set of rows and their values are the same; only the order differs.
- App.SortDescending: the sort is one admissible order for rows with equal influence. pandas' default quicksort is not stable, so ties may come out in another order.
- App.DependenceSummaryTable: the display-name replacement is modelled as changing the table, as `inplace=True` does when the column is a view of the frame. pandas copy-on-write semantics are not modelled.
- App.PredictionsPngPath: the signing call itself (`blob.generate_signed_url`) is foreign code. The model returns the request it is given: bucket, blob, expiry.
  - A blob that `get_blob` does not find (None, so the call fails) is the error `BlobNotFound`.
  - An empty selection (IndexError at `values[0]`) is `NoSelectedResult`.
- Cloud.GenerateSignedUrl: the foreign steps are taken to succeed whenever the credentials record is accepted: `service_account.Credentials.from_service_account_info`, `storage.Client(...)` and `bucket.get_blob` beyond the blob's presence. For example, four empty environment values are accepted and sign, although google-auth would reject an empty private key.
- Cloud.OpenCloudBucket: succeeds whenever the credentials record is accepted, on the same assumption about credential parsing and client creation.
- App.MainMap: takes the signed URL as the parameter `pngUrl`. When the selection is empty, main_map fails early through predictions_png_path; that failure is stated by `App.PredictionsPngPath`, not by `App.MainMap`.
- `get_env_folder`, imported by data.py from app_utils/cloud.py, is not part of this model; the cloud.py modelled here does not define it. The app-data folder is the `folder` parameter of `Paths.SetupPaths` and `Paths.SetupPngs`.
- Shiny reactivity and caching are not modelled:
  - which reactive recomputes when;
  - the order in which effects run;
  - the semantics of stacking two `reactive.event` decorators on the credential-clearing effect.

  Each login event is one call, and an edit of either field is one `CredentialsEdited` event. If the stacked decorators make only username edits fire the effect, then a password edit would leave auth_error as it was; `Login.OnCredentialsEdited` does not capture that reading.
- The rendered UI (ui.py, the about page, the modal's widgets, `generate_basemap`'s styling and controls, the partial-dependence plot's drawing and axis labels, the `feature_names` lookup for its label) is layout and plotting, and is not modelled.
- MapLayers.LeafletMap.AddLayer: requires a widget not already on the map. ipyleaflet raises otherwise, and `main_map` only ever adds newly created widgets (the `overlayId` and `recordsId` parameters of `App.MainMap`).
- MapLayers.LeafletMap.RemoveLayer: requires a layer that is on the map, which `main_map` guarantees by calling `get_layer` on the same list first.
