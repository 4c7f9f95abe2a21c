# Geotag pipeline of the Geospatial Flask App, in Dafny

The app shows drone photographs of wetland plants on a map. This project models the parts of
it that compute something, as pure functions over immutable data, and proves what the code
promises about them.

- **GPS decoding** (`GpsDecode`, gps_decode.dfy). Exif GPS rationals (section 4.6.6 of the
  Exif standard, CIPA DC-008) and a hemisphere reference become signed decimal degrees.
- **The image listing** (`GeotagScan`, geotag_scan.dfy). This is the per-image body of
  `/images`:
  - the required-tag filter;
  - the fixed differential offset (0.00004° latitude, 0° longitude);
  - the optional heading and MSL altitude;
  - the ground-elevation lookup at the corrected position;
  - the above-ground-level (AGL) rule: metres and feet are both numeric or both "undefined".

  It also covers the upload filter `allowed_file`.
- **Pitch sorting** (`PitchSort`, pitch_sort.dfy): `batch_iterable`, the `.JPG` selection, and
  the pitch band that picks `range_44_46` or `range_not_44_46`.
- **The JPEG census** (`JpgCount`, jpg_count.dfy): per-directory `.jpg` count and size, the
  plant-category buckets and totals, and the unit choice of `format_size`.
- **Plant renaming** (`PlantRename`, plant_rename.dfy). The persistent per-plant counter and the
  name `{plant}-{day}-{month}-{year}-{counter}{ext}` given to each image.
- **Helpers**. `Text` (text.dfy) holds Python string operations: `lower`, `endswith`, `in`,
  `rsplit`/`rfind`, `split('-')` and `str(int)`. `Seqs` (seqs.dfy) holds flatten and filter.
  `Wrappers` (wrappers.dfy) holds `Option` and `Result`.

The model takes the outside world as inputs:
- a directory walk is a sequence of entries;
- the Exif reader's output is a tag map;
- the elevation service is a function from a position to a response;
- the exiftool pitch is a function from a file name to an optional real;
- the JSON count file is a map.

Moves and renames are returned as plans instead of being performed. Python floats are modelled
as exact `real`s. `round(x, 2)` is modelled concretely as exact round-half-to-even on the 0.01
grid.

## Model

| member | source | states |
|---|---|---|
| GpsDecode.RatioValue | app/routes.py:112-114 | a rational's value is the x with x·den = num |
| GpsDecode.ConvertToDegrees | app/routes.py:111-118 | degrees · 3600 is the arc d·3600 + m·60 + s, negated exactly when the reference is "S" or "W" |
| GpsDecode.SignFollowsReference | app/routes.py:115-117 | for a non-zero arc with non-negative components, the result is negative iff the reference is "S" or "W", and its magnitude is the arc whatever the reference |
| GpsDecode.NorthernExample | app/routes.py:111-118 | 40/1, 30/1, 0/1 with "N" decodes to 40.5 |
| GpsDecode.SouthernExample | app/routes.py:111-118 | the same triple with "S" decodes to -40.5 |
| GpsDecode.FirstRatio | app/routes.py:62-70 | a scalar tag's value is its first rational, num/den |
| GeotagScan.GroundElevation | app/routes.py:98-109 | present iff the service returned a non-empty result list, and then it is the first elevation; absent for ApiError, Timeout and TransportError, none of which reaches the caller |
| GeotagScan.RoundHalfEven | app/routes.py:79 | the integer chosen lies within 0.5 of the value, strictly unless the value is halfway, and a halfway value goes to the even neighbour |
| GeotagScan.Round2 | app/routes.py:79 | round(x, 2) is a whole number of hundredths within 0.005 of x, strictly unless x is halfway between two hundredths, and then it is the even one |
| GeotagScan.Round2Idempotent | app/routes.py:79 | rounding twice to two decimals equals rounding once |
| GeotagScan.Agl | app/routes.py:77-82 | AGL metres is numeric iff AGL feet is, iff both MSL altitude and ground elevation are present; then agl + ground = msl and feet = round(agl·3.28084 − 10, 2) |
| GeotagScan.AglExample | app/routes.py:77-79 | MSL 100 over ground 90 gives 10 m and 22.81 ft |
| GeotagScan.AglUndefinedOnFailure | app/routes.py:77-82 | a missing MSL altitude or any failed lookup makes both AGL fields "undefined", never zero |
| GeotagScan.ScanFile | app/routes.py:52-94 | a record exists iff latitude, longitude and both reference tags are present; unreadable rationals raise; the record's lat + 0.00004 and lon + 0 are the decoded values; yaw is Unknown iff the direction tag is absent, else its first rational; MSL is None iff the altitude tag is absent, else its first rational; AGL is the rule applied to the lookup at the corrected position |
| GeotagScan.ScanAll | app/routes.py:44-96 | the listing succeeds iff no scanned, geotagged file has an unreadable rational; it then holds, in walk order, exactly the records of the scanned ".jpg" files with the required tags |
| GeotagScan.AllDecodableCons | app/routes.py:46-59 | the listing's success condition splits into the first file and the rest |
| GeotagScan.SampleTagsDecode | app/routes.py:52-72 | sample tags at d°30' N carry the required tags and decode to latitude d + 0.5 and 100 m MSL |
| GeotagScan.SampleRecord | app/routes.py:60-94 | a sample image's record has its name and 100 m MSL; AGL is 10 m where the service answers 90 m and "undefined" where it times out |
| GeotagScan.ScenarioNames | app/routes.py:47 | "a.jpg" and "b.JPG" pass the case-insensitive ".jpg" test |
| GeotagScan.ScenarioListing | app/routes.py:47-59 | of three files, the two geotagged ones are listed and none raises |
| GeotagScan.ThreeImageScenario | app/routes.py:44-96 | the listing of one good image, one whose lookup times out and one without GPS holds two records: numeric AGL, then "undefined" |
| GeotagScan.AllowedFile | app/routes.py:33-34 | an allowed name holds a '.' and ends in ".jpg" or ".jpeg" after lower-casing; AllowedFileByExtension and NoDotNotAllowed give the exact condition |
| GeotagScan.AllowedFileByExtension | app/routes.py:26-34 | stem.ext with a dot-free ext is allowed iff lower(ext) is "jpg" or "jpeg", whatever the stem |
| GeotagScan.NoDotNotAllowed | app/routes.py:34 | a name without '.' is never allowed |
| GeotagScan.ScannedNamesAreAllowed | app/routes.py:34-47 | every name the listing scans would pass allowed_file |
| GeotagScan.JpegAllowedButNotScanned | app/routes.py:26-47 | a ".jpeg" name can be uploaded but is never scanned |
| PitchSort.BatchIterable | process_images.py:72-88 | the batches concatenate back to the input; each holds 1 to batch_size items; all but the last are full; there are ceil(n / batch_size) of them |
| PitchSort.BatchesUnique | process_images.py:72-88 | any cut with those four properties is the one batch_iterable yields |
| PitchSort.BatchExample | process_images.py:72-88 | ten items in batches of four: 4, 4, 2 |
| PitchSort.SelectJpg | process_images.py:64 | the selected names are exactly the listing's names ending in ".JPG", case-sensitive |
| PitchSort.SelectJpgOrder | process_images.py:64 | the selection keeps listing order and every occurrence: it distributes over concatenation and keeps a single name iff it ends in ".JPG" |
| PitchSort.Classify | process_images.py:44-49 | range_44_46 iff -47 ≤ pitch ≤ -43, range_not_44_46 otherwise |
| PitchSort.BandWiderThanDocumented | process_images.py:37-44 | the whole documented -46..-44 band is in range, and so are -43.5 and -46.5 outside it |
| PitchSort.ProcessImageAsWritten | process_images.py:40-51 | as written, the call fails iff there is no pitch; otherwise it moves the file into the band's directory |
| PitchSort.ProcessImage | process_images.py:40-49 | as intended, a move happens iff there is a pitch; it moves that file into the directory the band picks |
| PitchSort.Pitched | process_images.py:40-41 | the pitched files are files of the listing that have a pitch, and every listed file with a pitch is among them |
| PitchSort.PitchedOrder | process_images.py:40-41 | the pitched files keep listing order and every occurrence: the selection distributes over concatenation and keeps a single file iff it has a pitch |
| PitchSort.Plan | process_images.py:64-70 | there is exactly one move per pitched file, in listing order, each into the directory its pitch's band picks |
| PitchSort.PlanAppend | process_images.py:67-70 | planning a concatenation is planning each part in turn |
| PitchSort.RunBatchesIsPlan | process_images.py:67-70 | running batch by batch makes the moves of one pass over the concatenated batches |
| PitchSort.MoveImagesBasedOnPitch | process_images.py:53-70 | one move per pitched ".JPG" file of the listing, each into its band's directory; BatchSizeIrrelevant shows the batch size does not change them |
| PitchSort.BatchSizeIrrelevant | process_images.py:53-70 | for every batch size, the run makes the same moves as one pass over the ".JPG" files |
| PitchSort.RunBatchesAsWritten | process_images.py:50-70 | as written, the run aborts iff some batch holds an image without a pitch; it then makes exactly the intended moves of the batches up to and including the first such batch, and all the intended moves when it does not abort |
| PitchSort.MissingPitchAbortsRun | process_images.py:50-70 | with "a.JPG" pitchless and batch size 1, as written nothing moves and the run aborts, while as intended "b.JPG" goes to range_44_46 |
| JpgCount.NoJpgsTallyZero | total_count_counter.py:27-35 | a directory with no ".jpg" file has tally (0, 0) |
| JpgCount.Categorize | total_count_counter.py:38-49 | the bucket is the first of "phragmites", "narrowleaf_cattail", "purple_loosetrife" contained in the lower-cased path, else uncategorized |
| JpgCount.LastTally | total_count_counter.py:35 | a path has an entry iff some walked directory has that path |
| JpgCount.CategoryStep | total_count_counter.py:38-49 | one more directory adds its tally to its own bucket only |
| JpgCount.BucketsPartitionTotal | total_count_counter.py:38-52 | the four buckets sum to the walk's total count and size |
| JpgCount.CountDir | total_count_counter.py:27-33 | the inner loop counts the directory's ".jpg" files and sums their sizes |
| JpgCount.CountAndSizeJpgFiles | total_count_counter.py:25-58 | there is one entry per walked path, holding that directory's tally; each bucket is its directories' sum; the total is the sum of the buckets; for distinct paths, the total is the sum of the entries |
| JpgCount.SumAtWalk | total_count_counter.py:35-52 | for distinct paths, summing the entries over the walk's paths gives the walk's total |
| JpgCount.DistinctPathsKeepEveryTally | total_count_counter.py:35 | when paths are distinct, each directory's entry is its own tally |
| JpgCount.FirstPatternWins | total_count_counter.py:38-41 | a path naming phragmites and narrowleaf_cattail counts as phragmites |
| JpgCount.LoosestrifeSpellingUncategorized | total_count_counter.py:44 | "purple_loosestrife", spelled correctly, is uncategorized |
| JpgCount.LowerKeepsLowerCase | total_count_counter.py:38 | lower-casing a path without capitals leaves it unchanged |
| JpgCount.ScaleMeaning | total_count_counter.py:64-67 | the unit search gives no result iff the size is at least 1024^5; otherwise it gives v and the j-th unit with v·1024^j = size, v < 1024, and size ≥ 1024^j for j > 0 |
| JpgCount.FormatSize | total_count_counter.py:60-67 | no value for sizes ≥ 1024^5; otherwise the first unit among B..TB whose scaled value is below 1024, with value·1024^j = size |
| PlantRename.SplitDate | change_image_names.py:24 | the name unpacks iff it has exactly two '-'; the three fields are then dash-free and join back to the name |
| PlantRename.DateFields | change_image_names.py:24 | day-month-year with dash-free fields unpacks to exactly those fields |
| PlantRename.SplitExt | change_image_names.py:30 | the extension is empty, or it starts with '.', holds no other '.', and ends the name |
| PlantRename.ExtensionAfterLastDot | change_image_names.py:30 | stem.ext, with a stem not starting with '.', has extension ".ext" |
| PlantRename.FolderCounters | change_image_names.py:26-29 | a folder renames each of its images once, in order, the k-th to the plant's count + k + 1; the last counter is the new count; other plants are unchanged |
| PlantRename.FolderNaming | change_image_names.py:24-33 | each rename in a well-named folder is an image, renamed to plant-day-month-year-counter+ext |
| PlantRename.ConcatRuns | change_image_names.py:18-29 | two consecutive stretches of renames compose: counters still increase and stay within the counts |
| PlantRename.FolderThenRest | change_image_names.py:21-33 | a folder's renames followed by the rest of the loop keep every naming and counting invariant |
| PlantRename.RenameDates | change_image_names.py:21-33 | only one plant's counter changes; the renames are well named, increasing per plant, and above the starting counts; a stop names a folder that does not unpack |
| PlantRename.RenamePlants | change_image_names.py:18-33 | counts only grow; the renames are well named and strictly increasing per plant |
| PlantRename.RenameImages | change_image_names.py:16-35 | saved counts only grow; every rename is well named; counters strictly increase per plant; for each plant p the renames of p take, in order, the images under the directory folders named p, the k-th to counter loaded count + k + 1; their number is the images the run reaches before a badly named directory date folder, which is all of them when counts are saved |
| PlantRename.RenameImagesPerPlant | change_image_names.py:16-35 | after a saved run, plant p has exactly as many renames as it has images, the k-th renaming the k-th image to counter loaded count + k + 1 |
| PlantRename.DatesNumbered | change_image_names.py:23-29 | the date loop renames the images of its directory date folders in order, counting on from the plant's count, all of them unless a folder stops it |
| PlantRename.FirstBadDate | change_image_names.py:23-24 | the position of the first directory date folder whose name does not unpack: every directory folder before it unpacks |
| PlantRename.FirstBadPlant | change_image_names.py:18-24 | the position of the first directory plant folder holding such a date folder: every one before it has only well-named date directories |
| PlantRename.DatesReached | change_image_names.py:21-33 | the date loop renames exactly as many images as the directory date folders before the first badly named one hold, and stops naming that folder exactly when there is one |
| PlantRename.PlantsReached | change_image_names.py:18-33 | the plant loop renames, for each plant type, exactly the images it reaches before the first badly named directory date folder |
| PlantRename.PlantsNumbered | change_image_names.py:18-29 | the plant loop renames the images under the folders named p in order, counting on from p's count, all of them unless a folder stops it |
| PlantRename.PlantEntriesCount | change_image_names.py:18-25 | the images listed for plant p are as many as the count adds for p |
| PlantRename.DatesStopLaw | change_image_names.py:23-24 | the date loop stops iff some directory date folder does not unpack |
| PlantRename.DatesCountLaw | change_image_names.py:23-29 | the date loop adds the plant's image count to its counter, and adds the key iff a date directory exists |
| PlantRename.PlantsStopLaw | change_image_names.py:18-24 | the plant loop stops iff some directory date folder under a directory plant folder does not unpack |
| PlantRename.PlantsCountLaw | change_image_names.py:18-29 | after the plant loop, each plant's count is its starting count plus its images |
| PlantRename.RenameImagesCountLaw | change_image_names.py:16-35 | counts are saved iff every date folder unpacks; then counts[p] = loaded (0 if absent) + images under p, and p is a key iff it was loaded or visited |
| PlantRename.NewName | change_image_names.py:30 | the new name starts with the plant and '-' and ends with the counter and the extension; NewNameInjective shows the date fields, counter and extension can all be read back from it |
| PlantRename.DigitsThenExtension | change_image_names.py:30 | counter and extension can both be read back from their concatenation |
| PlantRename.NewNameInjective | change_image_names.py:30 | two new names for one plant are equal only if their day, month, year, counter and extension all are |
| PlantRename.NamesDistinct | change_image_names.py:28-30 | within a run, names given to one plant's images are pairwise distinct |
| PlantRename.ExampleName | change_image_names.py:30 | phragmites, 01-02-2024, counter 5 and IMG_1.JPG give "phragmites-01-02-2024-5.JPG" |
| PlantRename.ExampleImages | change_image_names.py:25 | of IMG_1.JPG and notes.txt, only the photograph is renamed |
| PlantRename.RenameExample | change_image_names.py:16-35 | with a saved counter of 4, the photograph becomes ...-5.JPG and 5 is saved |
| PlantRename.BadDateFolderExample | change_image_names.py:24-35 | a date folder named "2024" stops the run: nothing renamed, nothing saved |
| PlantRename.StopKeepsEarlierRenames | change_image_names.py:21-35 | a bad date folder after a good one: the good folder's photograph has already been renamed to ...-5.JPG when the run stops, and nothing is saved |
| Text.LastIndexOf | app/routes.py:34 | rsplit('.', 1) splits at the last '.', with none after it; there is no split iff the name has no '.' |
| Text.Split | change_image_names.py:24 | split('-') yields one more dash-free piece than there are dashes, and the pieces join back to the name |
| Text.IntToStringInjective | change_image_names.py:30 | different counters render differently |
| Seqs.FlattenAppend | process_images.py:67 | flattening distributes over concatenation |
| Seqs.FilterAppend | change_image_names.py:25 | a list comprehension with an if distributes over concatenation; with FilterSingleton this fixes its result on every list |

## Left out

- Flask wiring: the blueprint, templates, `index`, `upload_file`, the categorize route, and the
  folder creation. These are framework plumbing with no logic of their own.
- The Exif reader, the googlemaps client and the exiftool subprocess are foreign code. Their
  outputs are inputs to the model:
  - a tag map;
  - an elevation service returning a result list or one of the three caught failures;
  - a function from file name to optional pitch.

  Other googlemaps exceptions are not modelled.
- The listing walks `UPLOAD_FOLDERS`. That list includes the parent `static/images`, so every
  image under a plant subfolder is walked twice. The model scans whatever file sequence it is
  given, so a caller passing that walk gets the duplicates.
- Python floats are modelled as exact reals. `.2f` formatting, the `logging` and `print` calls
  are left out.
- `GeotagScan.ScanFile` does not take `den != 0` as a precondition. It models what the code
  does: a zero denominator, a non-rational value or a short rational list raises, and the
  exception aborts the whole listing (`Failure`).
- The ThreadPoolExecutor concurrency is left out. Moves are planned in listing order.
  `future.result()` re-raises as soon as `as_completed` yields the failed future, while other
  images of the batch may still be in flight. The executor's shutdown at the end of the `with`
  block waits for them, so every submitted image of that batch is processed before the
  exception leaves `move_images_based_on_pitch`.
- `PitchSort.BatchIterable` requires a batch size of at least 1. With 0, the generator yields
  nothing at all.
- Filesystem effects (`os.walk`, `listdir`, `isdir`, `getsize`, `shutil.move`, `os.rename`) are
  inputs and returned plans. A rename that collides with an existing file is not modelled.
- The JSON load and save of the count file are left out. The loaded map is an input and the
  saved map is part of the outcome.
- `Text.Lower` lower-cases ASCII letters only. Python's `lower()` also maps other characters,
  but the only non-ASCII characters it maps to ASCII letters are KELVIN SIGN (U+212A, to 'k')
  and 'İ' (U+0130, to 'i' followed by U+0307). Neither can complete ".jpg", ".jpeg", ".png",
  "phragmites", "narrowleaf_cattail" or "purple_loosetrife": no 'k' occurs in them, and every
  'i' in them is followed by a letter, not U+0307. So the comparisons decide the same way.
- image_mover_app.py (Tkinter UI), move_images_from_image_date.py (date-based moves) and
  categorize_images.py (interactive, exiftool-driven) are not part of this model.
- JpgCount.CountAndSizeJpgFiles: the total is proved equal to the sum of the per-path entries
  only for walks whose relative paths are distinct, which `os.walk` always produces. When a path
  repeats, a later entry overwrites an earlier one, as in the code.
- `write_counts_and_sizes_to_file` in total_count_counter.py is report formatting and is left
  out.

Two behaviours of the code are easy to misread; the model follows the code:
- `get_images` has no `try` around the decoding in app/routes.py:60-70, so a malformed rational
  raises out of the loop and aborts the whole `/images` response, not just that image.
- The pitch band tested on process_images.py:44 is -47..-43, while the docstrings at
  process_images.py:37-38 describe -44..-46.

## Findings

| source | as written | input that shows it | evidently intended | confidence | as-written member | corrected member |
|---|---|---|---|---|---|---|
| process_images.py:50-51 | when there is no pitch, the else-branch prints `filename`, which is bound only on line 42. The call raises UnboundLocalError, `future.result()` re-raises it, and no later batch runs | listing ["a.JPG", "b.JPG"], batch size 1, "a.JPG" without pitch data: nothing is moved and the run aborts | report the missing pitch, leave the image in place, and go on with the rest | not executed; high | PitchSort.RunBatchesAsWritten, PitchSort.MissingPitchAbortsRun | PitchSort.ProcessImage, PitchSort.BatchSizeIrrelevant |
