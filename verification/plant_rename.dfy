/** Bulk renaming of plant photographs: a persistent per-plant counter, and the name
    {plant}-{day}-{month}-{year}-{counter}{ext} given to every image of every date folder. */
module PlantRename {
  import opened Wrappers
  import opened Text
  import opened Seqs

  /** A date folder listed under a plant folder: its name, whether it is a directory, and
      the names it lists. */
  datatype DateFolder = DateFolder(name: string, isDir: bool, entries: seq<string>)

  /** An entry of the base folder: a plant type, whether it is a directory, and its listing. */
  datatype PlantFolder = PlantFolder(name: string, isDir: bool, dates: seq<DateFolder>)

  /** One os.rename inside a date folder, with the counter value the new name carries. */
  datatype Rename = Rename(plant: string, folder: string, from: string, to: string, counter: int)

  /** The state of a run: renames done so far, the counts, and the date folder whose name
      failed to unpack into three fields, if the run stopped on one. */
  datatype Run = Run(renames: seq<Rename>, counts: map<string, int>, badFolder: Option<string>)

  /** What rename_images leaves behind: every rename it performed, and the counts it saved
      (none when it stopped on a badly named date folder before saving). */
  datatype Outcome = Outcome(renames: seq<Rename>, saved: Option<map<string, int>>)

  /** A file is renamed when its lower-cased name ends in ".jpg", ".jpeg" or ".png". */
  predicate IsImage(name: string) {
    var n := Lower(name);
    EndsWith(n, ".jpg") || EndsWith(n, ".jpeg") || EndsWith(n, ".png")
  }

  function Images(entries: seq<string>): seq<string> {
    Filter(IsImage, entries)
  }

  /** The counter of a plant type, 0 when it has none yet. */
  function Current(counts: map<string, int>, plant: string): int {
    if plant in counts then counts[plant] else 0
  }

  /** day, month, year = name.split('-'): exactly three fields, or the unpacking fails. */
  function SplitDate(name: string): (r: Option<(string, string, string)>)
    ensures r.Some? <==> Count(name, '-') == 2
    ensures r.Some? ==>
      var (day, month, year) := r.value;
      && name == day + "-" + month + "-" + year
      && '-' !in day && '-' !in month && '-' !in year
  {
    var parts := Split(name, '-');
    if |parts| == 3 then
      assert Join(parts, '-') == parts[0] + "-" + (parts[1] + "-" + parts[2]) by {
        assert parts[1..][1..] == [parts[2]];
        assert Join(parts[1..][1..], '-') == parts[2];
        assert Join(parts[1..], '-') == parts[1] + "-" + parts[2];
      }
      Some((parts[0], parts[1], parts[2]))
    else None
  }

  /** Every character of s is a '.'. */
  predicate AllDots(s: string) {
    forall k :: 0 <= k < |s| ==> s[k] == '.'
  }

  /** os.path.splitext(name)[1] for a bare file name: from the last '.' to the end, unless
      nothing but dots comes before that '.' (a leading-dot name has no extension). */
  function SplitExt(name: string): (ext: string)
    ensures ext == "" || (ext[0] == '.' && '.' !in ext[1..] && EndsWith(name, ext))
  {
    match LastIndexOf(name, '.')
    case None => ""
    case Some(i) =>
      if AllDots(name[..i]) then ""
      else
        assert name[i..][1..] == name[i + 1..];
        name[i..]
  }

  /** The new name of an image: plant, day, month, year and counter joined by '-', then the
      original extension. */
  function NewName(plant: string, day: string, month: string, year: string, counter: int, image: string): (r: string)
    ensures |r| > |plant| && r[..|plant| + 1] == plant + "-"
    ensures EndsWith(r, IntToString(counter) + SplitExt(image))
  {
    plant + "-" + (day + "-" + (month + "-" + (year + "-" + (IntToString(counter) + SplitExt(image)))))
  }

  /** The rename was made inside a well-named date folder, of an image, to the name built
      from its plant, the folder's date fields, its counter and its extension. */
  predicate WellNamed(r: Rename) {
    && IsImage(r.from)
    && SplitDate(r.folder).Some?
    && var date := SplitDate(r.folder).value;
       r.to == NewName(r.plant, date.0, date.1, date.2, r.counter, r.from)
  }

  /** Every rename of the sequence is well named. */
  predicate AllWellNamed(rs: seq<Rename>) {
    forall k :: 0 <= k < |rs| ==> WellNamed(rs[k])
  }

  /** Every rename of the sequence belongs to the given plant type. */
  predicate OfPlant(rs: seq<Rename>, plant: string) {
    forall k :: 0 <= k < |rs| ==> rs[k].plant == plant
  }

  lemma ConcatKeepsNaming(a: seq<Rename>, b: seq<Rename>)
    requires AllWellNamed(a) && AllWellNamed(b)
    ensures AllWellNamed(a + b)
  {
    forall k | 0 <= k < |a + b| ensures WellNamed((a + b)[k]) {
      if k < |a| { assert (a + b)[k] == a[k]; } else { assert (a + b)[k] == b[k - |a|]; }
    }
  }

  lemma ConcatKeepsPlant(a: seq<Rename>, b: seq<Rename>, plant: string)
    requires OfPlant(a, plant) && OfPlant(b, plant)
    ensures OfPlant(a + b, plant)
  {
    forall k | 0 <= k < |a + b| ensures (a + b)[k].plant == plant {
      if k < |a| { assert (a + b)[k] == a[k]; } else { assert (a + b)[k] == b[k - |a|]; }
    }
  }

  /** Counters of one plant type strictly increase along the renames. */
  ghost predicate Increasing(rs: seq<Rename>) {
    forall i, j :: 0 <= i < j < |rs| && rs[i].plant == rs[j].plant ==> rs[i].counter < rs[j].counter
  }

  /** Every rename's counter has been recorded in counts. */
  ghost predicate AtMost(rs: seq<Rename>, counts: map<string, int>) {
    forall k :: 0 <= k < |rs| ==> rs[k].plant in counts && rs[k].counter <= counts[rs[k].plant]
  }

  /** Every rename's counter is past what counts held for its plant type. */
  ghost predicate Above(rs: seq<Rename>, counts: map<string, int>) {
    forall k :: 0 <= k < |rs| ==> Current(counts, rs[k].plant) < rs[k].counter
  }

  /** Counts only gain keys and only grow. */
  ghost predicate Grows(before: map<string, int>, after: map<string, int>) {
    && (forall p :: p in before ==> p in after)
    && (forall p :: Current(before, p) <= Current(after, p))
  }

  /** Two consecutive stretches of a run, the second starting from the counts the first
      left, make one stretch from the first's counts to the second's. */
  lemma ConcatRuns(a: seq<Rename>, b: seq<Rename>, before: map<string, int>, mid: map<string, int>,
                   after: map<string, int>)
    requires AtMost(a, mid) && Above(a, before) && Increasing(a)
    requires AtMost(b, after) && Above(b, mid) && Increasing(b)
    requires Grows(before, mid) && Grows(mid, after)
    ensures AtMost(a + b, after) && Above(a + b, before) && Increasing(a + b) && Grows(before, after)
  {
    forall k | 0 <= k < |a + b|
      ensures (a + b)[k].plant in after && (a + b)[k].counter <= after[(a + b)[k].plant]
      ensures Current(before, (a + b)[k].plant) < (a + b)[k].counter
    {
      if k < |a| {
        assert (a + b)[k] == a[k];
        assert Current(mid, a[k].plant) <= Current(after, a[k].plant);
      } else {
        assert (a + b)[k] == b[k - |a|];
        assert Current(before, b[k - |a|].plant) <= Current(mid, b[k - |a|].plant);
      }
    }
    forall i, j | 0 <= i < j < |a + b| && (a + b)[i].plant == (a + b)[j].plant
      ensures (a + b)[i].counter < (a + b)[j].counter
    {
      if j < |a| {
        assert (a + b)[i] == a[i] && (a + b)[j] == a[j];
      } else if i >= |a| {
        assert (a + b)[i] == b[i - |a|] && (a + b)[j] == b[j - |a|];
      } else {
        assert (a + b)[i] == a[i] && (a + b)[j] == b[j - |a|];
      }
    }
    forall p ensures Current(before, p) <= Current(after, p) {
      assert Current(before, p) <= Current(mid, p);
    }
  }

  /** Renames the images of one date folder, counting on from start: the k-th image gets
      counter start + k + 1. */
  function RenameAll(plant: string, folder: string, day: string, month: string, year: string,
                     images: seq<string>, start: int): seq<Rename>
  {
    seq(|images|, k requires 0 <= k < |images| =>
      Rename(plant, folder, images[k], NewName(plant, day, month, year, start + k + 1, images[k]), start + k + 1))
  }

  /** The renames of one date folder: counters run from just past the plant's count to the
      count recorded afterwards, increasing, all for that plant type. */
  lemma FolderCounters(plant: string, folder: string, day: string, month: string, year: string,
                       images: seq<string>, counts: map<string, int>)
    ensures
      var start := Current(counts, plant);
      var here := RenameAll(plant, folder, day, month, year, images, start);
      var next := counts[plant := start + |images|];
      && AtMost(here, next) && Above(here, counts) && Increasing(here) && Grows(counts, next)
      && OfPlant(here, plant)
      && |here| == |images|
      && (forall k :: 0 <= k < |here| ==> here[k].from == images[k] && here[k].counter == start + k + 1)
      && (|here| > 0 ==> here[|here| - 1].counter == next[plant])
  {
    var start := Current(counts, plant);
    var here := RenameAll(plant, folder, day, month, year, images, start);
    var next := counts[plant := start + |images|];
    forall k | 0 <= k < |here| ensures here[k].plant in next && here[k].counter <= next[here[k].plant] {
      assert here[k].plant == plant;
    }
    forall p ensures Current(counts, p) <= Current(next, p) {
      if p != plant {
        assert Current(next, p) == Current(counts, p);
      }
    }
  }

  /** The renames of a well-named date folder's images are well named. */
  lemma FolderNaming(plant: string, folder: string, day: string, month: string, year: string,
                     images: seq<string>, start: int)
    requires SplitDate(folder) == Some((day, month, year))
    requires forall k :: 0 <= k < |images| ==> IsImage(images[k])
    ensures AllWellNamed(RenameAll(plant, folder, day, month, year, images, start))
  {
    var here := RenameAll(plant, folder, day, month, year, images, start);
    forall k | 0 <= k < |here| ensures WellNamed(here[k]) {
      assert here[k].from == images[k] && here[k].folder == folder;
      assert here[k].to == NewName(plant, day, month, year, here[k].counter, images[k]);
    }
  }

  /** The counts after a well-named directory date folder: the plant's counter advanced by the
      folder's images. */
  function CountsAfter(plant: string, d: DateFolder, counts: map<string, int>): map<string, int> {
    counts[plant := Current(counts, plant) + |Images(d.entries)|]
  }

  /** The renames inside one well-named date folder, counting on from the plant's counter. */
  function FolderRenames(plant: string, d: DateFolder, counts: map<string, int>): seq<Rename>
    requires SplitDate(d.name).Some?
  {
    var (day, month, year) := SplitDate(d.name).value;
    RenameAll(plant, d.name, day, month, year, Images(d.entries), Current(counts, plant))
  }

  /** What one well-named date folder contributes, chained with the rest of the loop. */
  lemma FolderThenRest(plant: string, d: DateFolder, counts: map<string, int>, rest: Run)
    requires SplitDate(d.name).Some?
    requires Grows(CountsAfter(plant, d, counts), rest.counts)
    requires forall p :: p != plant ==>
      (p in rest.counts <==> p in CountsAfter(plant, d, counts))
      && Current(rest.counts, p) == Current(CountsAfter(plant, d, counts), p)
    requires OfPlant(rest.renames, plant) && AllWellNamed(rest.renames)
    requires AtMost(rest.renames, rest.counts) && Above(rest.renames, CountsAfter(plant, d, counts))
    requires Increasing(rest.renames)
    ensures
      var rs := FolderRenames(plant, d, counts) + rest.renames;
      && Grows(counts, rest.counts)
      && (forall p :: p != plant ==> (p in rest.counts <==> p in counts) && Current(rest.counts, p) == Current(counts, p))
      && OfPlant(rs, plant) && AllWellNamed(rs)
      && AtMost(rs, rest.counts) && Above(rs, counts) && Increasing(rs)
  {
    var (day, month, year) := SplitDate(d.name).value;
    var images := Images(d.entries);
    var start := Current(counts, plant);
    var here := FolderRenames(plant, d, counts);
    var next := CountsAfter(plant, d, counts);
    FolderCounters(plant, d.name, day, month, year, images, counts);
    FolderNaming(plant, d.name, day, month, year, images, start);
    ConcatRuns(here, rest.renames, counts, next, rest.counts);
    ConcatKeepsNaming(here, rest.renames);
    ConcatKeepsPlant(here, rest.renames, plant);
    forall p | p != plant
      ensures (p in rest.counts <==> p in counts) && Current(rest.counts, p) == Current(counts, p)
    {
      assert (p in next <==> p in counts) && Current(next, p) == Current(counts, p);
    }
  }

  /** The per-date-folder loop of one plant type. */
  function RenameDates(plant: string, dates: seq<DateFolder>, counts: map<string, int>): (r: Run)
    ensures Grows(counts, r.counts)
    ensures forall p :: p != plant ==> (p in r.counts <==> p in counts) && Current(r.counts, p) == Current(counts, p)
    ensures OfPlant(r.renames, plant) && AllWellNamed(r.renames)
    ensures AtMost(r.renames, r.counts) && Above(r.renames, counts) && Increasing(r.renames)
    ensures r.badFolder.Some? ==> SplitDate(r.badFolder.value).None?
  {
    if |dates| == 0 then Run([], counts, None)
    else if !dates[0].isDir then RenameDates(plant, dates[1..], counts)
    else if SplitDate(dates[0].name).None? then Run([], counts, Some(dates[0].name))
    else
      var rest := RenameDates(plant, dates[1..], CountsAfter(plant, dates[0], counts));
      FolderThenRest(plant, dates[0], counts, rest);
      Run(FolderRenames(plant, dates[0], counts) + rest.renames, rest.counts, rest.badFolder)
  }

  /** The per-plant-folder loop of rename_images. */
  function RenamePlants(plants: seq<PlantFolder>, counts: map<string, int>): (r: Run)
    ensures Grows(counts, r.counts)
    ensures AllWellNamed(r.renames)
    ensures AtMost(r.renames, r.counts) && Above(r.renames, counts) && Increasing(r.renames)
    ensures r.badFolder.Some? ==> SplitDate(r.badFolder.value).None?
  {
    if |plants| == 0 then Run([], counts, None)
    else
      var p := plants[0];
      if !p.isDir then RenamePlants(plants[1..], counts)
      else
        var first := RenameDates(p.name, p.dates, counts);
        if first.badFolder.Some? then first
        else
          var rest := RenamePlants(plants[1..], first.counts);
          ConcatRuns(first.renames, rest.renames, counts, first.counts, rest.counts);
          ConcatKeepsNaming(first.renames, rest.renames);
          Run(first.renames + rest.renames, rest.counts, rest.badFolder)
  }

  /** rename_images: counts loaded, every plant folder processed, counts saved at the end
      unless a date folder's name stopped the run first. */
  function RenameImages(plants: seq<PlantFolder>, loaded: map<string, int>): (o: Outcome)
    ensures o.saved.Some? ==> Grows(loaded, o.saved.value)
    ensures AllWellNamed(o.renames)
    ensures Increasing(o.renames)
    ensures forall p :: Numbered(ForPlant(o.renames, p), PlantEntries(plants, p), Current(loaded, p))
    ensures o.saved.Some? ==> forall p :: |ForPlant(o.renames, p)| == |PlantEntries(plants, p)|
    ensures forall p :: |ForPlant(o.renames, p)| == ReachedImages(plants, p)
  {
    var r := RenamePlants(plants, loaded);
    PlantsNumberedAll(plants, loaded);
    PlantsReachedAll(plants, loaded);
    Outcome(r.renames, if r.badFolder.None? then Some(r.counts) else None)
  }

  /** The image files of one date folder, each paired with the folder's name, in listing order. */
  function FolderEntries(d: DateFolder): seq<(string, string)> {
    var images := Images(d.entries);
    seq(|images|, k requires 0 <= k < |images| => (d.name, images[k]))
  }

  /** The (date folder, image) pairs of the directory date folders, in listing order. */
  function DateEntries(dates: seq<DateFolder>): seq<(string, string)> {
    if |dates| == 0 then []
    else (if dates[0].isDir then FolderEntries(dates[0]) else []) + DateEntries(dates[1..])
  }

  /** The (date folder, image) pairs under the directory plant folders named p, in listing order. */
  function PlantEntries(plants: seq<PlantFolder>, p: string): seq<(string, string)> {
    if |plants| == 0 then []
    else
      var here := if plants[0].isDir && plants[0].name == p then DateEntries(plants[0].dates) else [];
      here + PlantEntries(plants[1..], p)
  }

  /** The renames of plant type p, in the order they were made. */
  function ForPlant(rs: seq<Rename>, p: string): seq<Rename> {
    if |rs| == 0 then [] else (if rs[0].plant == p then [rs[0]] else []) + ForPlant(rs[1..], p)
  }

  /** rs renames the first |rs| entries in order, the k-th to counter start + k + 1. */
  predicate Numbered(rs: seq<Rename>, entries: seq<(string, string)>, start: int) {
    && |rs| <= |entries|
    && forall k :: 0 <= k < |rs| ==>
         rs[k].folder == entries[k].0 && rs[k].from == entries[k].1 && rs[k].counter == start + k + 1
  }

  /** A complete numbering followed by one counting on from where it ended is one numbering. */
  lemma NumberedAppend(a: seq<Rename>, ea: seq<(string, string)>, b: seq<Rename>, eb: seq<(string, string)>, start: int)
    requires Numbered(a, ea, start) && |a| == |ea|
    requires Numbered(b, eb, start + |ea|)
    ensures Numbered(a + b, ea + eb, start)
  {
    forall k | 0 <= k < |a + b|
      ensures (a + b)[k].folder == (ea + eb)[k].0 && (a + b)[k].from == (ea + eb)[k].1
      ensures (a + b)[k].counter == start + k + 1
    {
      if k >= |a| {
        assert (a + b)[k] == b[k - |a|] && (ea + eb)[k] == eb[k - |a|];
      } else {
        assert (a + b)[k] == a[k] && (ea + eb)[k] == ea[k];
      }
    }
  }

  /** A numbering of some entries numbers a prefix of any longer list of entries. */
  lemma NumberedExtend(a: seq<Rename>, ea: seq<(string, string)>, eb: seq<(string, string)>, start: int)
    requires Numbered(a, ea, start)
    ensures Numbered(a, ea + eb, start)
  {
    assert forall k :: 0 <= k < |a| ==> (ea + eb)[k] == ea[k];
  }

  lemma {:induction false} ForPlantAppend(a: seq<Rename>, b: seq<Rename>, p: string)
    ensures ForPlant(a + b, p) == ForPlant(a, p) + ForPlant(b, p)
  {
    if |a| > 0 {
      assert (a + b)[0] == a[0];
      assert (a + b)[1..] == a[1..] + b;
      ForPlantAppend(a[1..], b, p);
    } else {
      assert a + b == b;
    }
  }

  /** Renames all of plant type q: those of p are all of them when p == q, and none otherwise. */
  lemma {:induction false} ForPlantOf(rs: seq<Rename>, q: string, p: string)
    requires OfPlant(rs, q)
    ensures ForPlant(rs, p) == if p == q then rs else []
  {
    if |rs| > 0 {
      assert OfPlant(rs[1..], q) by {
        assert forall k :: 0 <= k < |rs| - 1 ==> rs[1..][k] == rs[k + 1];
      }
      ForPlantOf(rs[1..], q, p);
      assert rs == [rs[0]] + rs[1..];
    }
  }

  lemma {:induction false} DateEntriesCount(dates: seq<DateFolder>)
    ensures |DateEntries(dates)| == DateImages(dates)
  {
    if |dates| > 0 {
      DateEntriesCount(dates[1..]);
    }
  }

  lemma {:induction false} PlantEntriesCount(plants: seq<PlantFolder>, p: string)
    ensures |PlantEntries(plants, p)| == PlantImages(plants, p)
  {
    if |plants| > 0 {
      DateEntriesCount(plants[0].dates);
      PlantEntriesCount(plants[1..], p);
    }
  }

  /** One well-named date folder's renames number its images from the plant's counter on. */
  lemma FolderNumbered(plant: string, d: DateFolder, counts: map<string, int>)
    requires SplitDate(d.name).Some?
    ensures Numbered(FolderRenames(plant, d, counts), FolderEntries(d), Current(counts, plant))
    ensures |FolderRenames(plant, d, counts)| == |FolderEntries(d)|
  {
  }

  /** The date-folder loop renames the images of its directory date folders in order, counting
      on from the plant's counter; all of them unless it stopped on a badly named folder. */
  lemma {:induction false} DatesNumbered(plant: string, dates: seq<DateFolder>, counts: map<string, int>)
    ensures
      var r := RenameDates(plant, dates, counts);
      && Numbered(r.renames, DateEntries(dates), Current(counts, plant))
      && (r.badFolder.None? ==> |r.renames| == |DateEntries(dates)|)
  {
    if |dates| > 0 {
      var d := dates[0];
      if !d.isDir {
        SkipFile(plant, dates, counts);
        assert DateEntries(dates) == [] + DateEntries(dates[1..]);
        DatesNumbered(plant, dates[1..], counts);
      } else if SplitDate(d.name).Some? {
        var next := CountsAfter(plant, d, counts);
        var rest := RenameDates(plant, dates[1..], next);
        DatesNumbered(plant, dates[1..], next);
        FolderNumbered(plant, d, counts);
        assert Current(next, plant) == Current(counts, plant) + |FolderEntries(d)|;
        NumberedAppend(FolderRenames(plant, d, counts), FolderEntries(d), rest.renames, DateEntries(dates[1..]),
                       Current(counts, plant));
        assert RenameDates(plant, dates, counts).renames == FolderRenames(plant, d, counts) + rest.renames;
      }
    }
  }

  /** The plant-folder loop renames, for each plant type p, the images under p's directory
      folders in order, counting on from p's counter; all of them unless it stopped. */
  lemma {:induction false} PlantsNumbered(plants: seq<PlantFolder>, counts: map<string, int>, p: string)
    ensures PlantsNumberedFor(plants, counts, p)
  {
    if |plants| > 0 {
      var pf := plants[0];
      if !pf.isDir {
        SkipPlantFile(plants, counts);
        assert PlantEntries(plants, p) == [] + PlantEntries(plants[1..], p);
        PlantsNumbered(plants[1..], counts, p);
      } else {
        PlantsNumbered(plants[1..], RenameDates(pf.name, pf.dates, counts).counts, p);
        PlantEntered(plants, counts, p);
      }
    }
  }

  /** What the plant-folder loop, started from counts, does for plant type p: it renames the
      images under p's directory folders in order, counting on from p's counter, and all of
      them unless it stopped. */
  predicate PlantsNumberedFor(plants: seq<PlantFolder>, counts: map<string, int>, p: string) {
    var r := RenamePlants(plants, counts);
    && Numbered(ForPlant(r.renames, p), PlantEntries(plants, p), Current(counts, p))
    && (r.badFolder.None? ==> |ForPlant(r.renames, p)| == |PlantEntries(plants, p)|)
  }

  lemma PlantsNumberedAll(plants: seq<PlantFolder>, counts: map<string, int>)
    ensures
      var r := RenamePlants(plants, counts);
      && (forall p :: Numbered(ForPlant(r.renames, p), PlantEntries(plants, p), Current(counts, p)))
      && (r.badFolder.None? ==> forall p :: |ForPlant(r.renames, p)| == |PlantEntries(plants, p)|)
  {
    var r := RenamePlants(plants, counts);
    forall p ensures Numbered(ForPlant(r.renames, p), PlantEntries(plants, p), Current(counts, p)) {
      PlantsNumbered(plants, counts, p);
    }
    if r.badFolder.None? {
      forall p ensures |ForPlant(r.renames, p)| == |PlantEntries(plants, p)| {
        PlantsNumbered(plants, counts, p);
      }
    }
  }

  /** The step of PlantsNumbered for a directory plant folder. */
  lemma PlantEntered(plants: seq<PlantFolder>, counts: map<string, int>, p: string)
    requires |plants| > 0 && plants[0].isDir
    requires PlantsNumberedFor(plants[1..], RenameDates(plants[0].name, plants[0].dates, counts).counts, p)
    ensures PlantsNumberedFor(plants, counts, p)
  {
    var pf := plants[0];
    var first := RenameDates(pf.name, pf.dates, counts);
    var here := if pf.name == p then DateEntries(pf.dates) else [];
    assert PlantEntries(plants, p) == here + PlantEntries(plants[1..], p);
    DatesNumbered(pf.name, pf.dates, counts);
    ForPlantOf(first.renames, pf.name, p);
    if first.badFolder.Some? {
      assert RenamePlants(plants, counts) == first;
      NumberedExtend(ForPlant(first.renames, p), here, PlantEntries(plants[1..], p), Current(counts, p));
    } else {
      var rest := RenamePlants(plants[1..], first.counts);
      assert RenamePlants(plants, counts).renames == first.renames + rest.renames;
      ForPlantAppend(first.renames, rest.renames, p);
      DatesCountLaw(pf.name, pf.dates, counts);
      DateEntriesCount(pf.dates);
      assert Current(first.counts, p) == Current(counts, p) + |here|;
      NumberedAppend(ForPlant(first.renames, p), here, ForPlant(rest.renames, p), PlantEntries(plants[1..], p),
                     Current(counts, p));
    }
  }

  /** Position of the first directory date folder whose name does not unpack into three
      fields, or the number of folders when there is none. */
  function FirstBadDate(dates: seq<DateFolder>): (j: nat)
    ensures j <= |dates| && DatesSplit(dates[..j])
    ensures j < |dates| ==> dates[j].isDir && SplitDate(dates[j].name).None?
  {
    if |dates| == 0 then 0
    else if dates[0].isDir && SplitDate(dates[0].name).None? then 0
    else
      var j := 1 + FirstBadDate(dates[1..]);
      assert forall k :: 1 <= k < j ==> dates[..j][k] == dates[1..][..j - 1][k - 1];
      j
  }

  /** Position of the first directory plant folder holding a badly named directory date
      folder, or the number of folders when there is none. */
  function FirstBadPlant(plants: seq<PlantFolder>): (i: nat)
    ensures i <= |plants| && AllDatesSplit(plants[..i])
    ensures i < |plants| ==> plants[i].isDir && !DatesSplit(plants[i].dates)
  {
    if |plants| == 0 then 0
    else if plants[0].isDir && !DatesSplit(plants[0].dates) then 0
    else
      var i := 1 + FirstBadPlant(plants[1..]);
      assert forall k :: 1 <= k < i ==> plants[..i][k] == plants[1..][..i - 1][k - 1];
      i
  }

  /** How many images of plant type p rename_images reaches before a badly named date folder
      raises: all those under the directory plant folders before the first one holding such a
      folder and, if that one is named p, those of its date folders before the bad one. */
  function ReachedImages(plants: seq<PlantFolder>, p: string): nat {
    var i := FirstBadPlant(plants);
    var stopped :=
      if i < |plants| && plants[i].name == p then |DateEntries(plants[i].dates[..FirstBadDate(plants[i].dates)])|
      else 0;
    |PlantEntries(plants[..i], p)| + stopped
  }

  lemma DateEntriesPrefix(dates: seq<DateFolder>, j: nat)
    requires j < |dates|
    ensures DateEntries(dates[..j + 1]) == (if dates[0].isDir then FolderEntries(dates[0]) else []) + DateEntries(dates[1..][..j])
  {
    assert dates[..j + 1][1..] == dates[1..][..j];
  }

  lemma PlantEntriesPrefix(plants: seq<PlantFolder>, p: string, i: nat)
    requires i < |plants|
    ensures PlantEntries(plants[..i + 1], p) ==
      (if plants[0].isDir && plants[0].name == p then DateEntries(plants[0].dates) else []) + PlantEntries(plants[1..][..i], p)
  {
    assert plants[..i + 1][1..] == plants[1..][..i];
  }

  /** The date-folder loop renames exactly the images of the directory date folders before the
      first badly named one, and stops, naming that folder, exactly when there is one. */
  lemma {:induction false} DatesReached(plant: string, dates: seq<DateFolder>, counts: map<string, int>)
    ensures
      var r := RenameDates(plant, dates, counts);
      var j := FirstBadDate(dates);
      && |r.renames| == |DateEntries(dates[..j])|
      && r.badFolder == (if j < |dates| then Some(dates[j].name) else None)
  {
    if |dates| > 0 {
      var d := dates[0];
      var j := FirstBadDate(dates);
      if !d.isDir {
        SkipFile(plant, dates, counts);
        DatesReached(plant, dates[1..], counts);
        DateEntriesPrefix(dates, j - 1);
      } else if SplitDate(d.name).None? {
        assert dates[..j] == [];
      } else {
        var next := CountsAfter(plant, d, counts);
        DatesReached(plant, dates[1..], next);
        FolderNumbered(plant, d, counts);
        DateEntriesPrefix(dates, j - 1);
        assert RenameDates(plant, dates, counts).renames == FolderRenames(plant, d, counts) + RenameDates(plant, dates[1..], next).renames;
      }
    }
  }

  /** The plant-folder loop, started from counts, renames exactly the images of plant type p
      that it reaches. */
  predicate ReachedFor(plants: seq<PlantFolder>, counts: map<string, int>, p: string) {
    |ForPlant(RenamePlants(plants, counts).renames, p)| == ReachedImages(plants, p)
  }

  /** The plant-folder loop renames, for each plant type, exactly the images it reaches. */
  lemma {:induction false} PlantsReached(plants: seq<PlantFolder>, counts: map<string, int>, p: string)
    ensures ReachedFor(plants, counts, p)
  {
    if |plants| == 0 {
      assert plants[..0] == [];
    } else if !plants[0].isDir {
      PlantsReached(plants[1..], counts, p);
      ReachedSkip(plants, counts, p);
    } else if !DatesSplit(plants[0].dates) {
      ReachedStop(plants, counts, p);
    } else {
      PlantsReached(plants[1..], RenameDates(plants[0].name, plants[0].dates, counts).counts, p);
      ReachedEnter(plants, counts, p);
    }
  }

  /** The step of PlantsReached for a plant-folder entry that is not a directory. */
  lemma ReachedSkip(plants: seq<PlantFolder>, counts: map<string, int>, p: string)
    requires |plants| > 0 && !plants[0].isDir
    requires ReachedFor(plants[1..], counts, p)
    ensures ReachedFor(plants, counts, p)
  {
    SkipPlantFile(plants, counts);
    PlantEntriesPrefix(plants, p, FirstBadPlant(plants) - 1);
  }

  /** The step of PlantsReached for the directory plant folder where the run stops. */
  lemma ReachedStop(plants: seq<PlantFolder>, counts: map<string, int>, p: string)
    requires |plants| > 0 && plants[0].isDir && !DatesSplit(plants[0].dates)
    ensures ReachedFor(plants, counts, p)
  {
    var pf := plants[0];
    var first := RenameDates(pf.name, pf.dates, counts);
    DatesReached(pf.name, pf.dates, counts);
    DatesStopLaw(pf.name, pf.dates, counts);
    ForPlantOf(first.renames, pf.name, p);
    assert RenamePlants(plants, counts) == first;
    assert plants[..FirstBadPlant(plants)] == [];
  }

  /** The step of PlantsReached for a directory plant folder the run passes through. */
  lemma ReachedEnter(plants: seq<PlantFolder>, counts: map<string, int>, p: string)
    requires |plants| > 0 && plants[0].isDir && DatesSplit(plants[0].dates)
    requires ReachedFor(plants[1..], RenameDates(plants[0].name, plants[0].dates, counts).counts, p)
    ensures ReachedFor(plants, counts, p)
  {
    RenamedThrough(plants, counts, p);
    ReachedThrough(plants, p);
  }

  /** Passing through a directory plant folder renames all of its images for its plant type. */
  lemma RenamedThrough(plants: seq<PlantFolder>, counts: map<string, int>, p: string)
    requires |plants| > 0 && plants[0].isDir && DatesSplit(plants[0].dates)
    ensures
      var pf := plants[0];
      var first := RenameDates(pf.name, pf.dates, counts);
      |ForPlant(RenamePlants(plants, counts).renames, p)|
        == (if pf.name == p then |DateEntries(pf.dates)| else 0)
           + |ForPlant(RenamePlants(plants[1..], first.counts).renames, p)|
  {
    var pf := plants[0];
    var first := RenameDates(pf.name, pf.dates, counts);
    DatesReached(pf.name, pf.dates, counts);
    DatesStopLaw(pf.name, pf.dates, counts);
    ForPlantOf(first.renames, pf.name, p);
    var rest := RenamePlants(plants[1..], first.counts);
    assert pf.dates[..FirstBadDate(pf.dates)] == pf.dates;
    assert RenamePlants(plants, counts).renames == first.renames + rest.renames;
    ForPlantAppend(first.renames, rest.renames, p);
  }

  /** A directory plant folder without a badly named date folder is reached whole. */
  lemma ReachedThrough(plants: seq<PlantFolder>, p: string)
    requires |plants| > 0 && plants[0].isDir && DatesSplit(plants[0].dates)
    ensures ReachedImages(plants, p)
      == (if plants[0].name == p then |DateEntries(plants[0].dates)| else 0) + ReachedImages(plants[1..], p)
  {
    var i, i' := FirstBadPlant(plants), FirstBadPlant(plants[1..]);
    assert i == i' + 1;
    PlantEntriesPrefix(plants, p, i');
    assert i < |plants| ==> plants[i] == plants[1..][i'];
  }

  lemma PlantsReachedAll(plants: seq<PlantFolder>, counts: map<string, int>)
    ensures forall p :: |ForPlant(RenamePlants(plants, counts).renames, p)| == ReachedImages(plants, p)
  {
    forall p ensures |ForPlant(RenamePlants(plants, counts).renames, p)| == ReachedImages(plants, p) {
      PlantsReached(plants, counts, p);
      assert ReachedFor(plants, counts, p);
    }
  }

  /** Number of images in the directory date folders of one plant folder. */
  function DateImages(dates: seq<DateFolder>): nat {
    if |dates| == 0 then 0
    else (if dates[0].isDir then |Images(dates[0].entries)| else 0) + DateImages(dates[1..])
  }

  /** The plant folder lists at least one directory. */
  predicate AnyDateDir(dates: seq<DateFolder>) {
    exists k | 0 <= k < |dates| :: dates[k].isDir
  }

  /** Every directory date folder's name unpacks into day, month and year. */
  predicate DatesSplit(dates: seq<DateFolder>) {
    forall k | 0 <= k < |dates| :: dates[k].isDir ==> SplitDate(dates[k].name).Some?
  }

  /** Number of images under the directory plant folders named p. */
  function PlantImages(plants: seq<PlantFolder>, p: string): nat {
    if |plants| == 0 then 0
    else
      var here := if plants[0].isDir && plants[0].name == p then DateImages(plants[0].dates) else 0;
      here + PlantImages(plants[1..], p)
  }

  /** Some directory plant folder named p has a directory date folder, so p gets a counter. */
  predicate PlantVisited(plants: seq<PlantFolder>, p: string) {
    exists i | 0 <= i < |plants| :: plants[i].isDir && plants[i].name == p && AnyDateDir(plants[i].dates)
  }

  /** Every directory date folder under every directory plant folder has a well-formed name. */
  predicate AllDatesSplit(plants: seq<PlantFolder>) {
    forall i | 0 <= i < |plants| :: plants[i].isDir ==> DatesSplit(plants[i].dates)
  }

  /** A date-folder entry that is not a directory is skipped. */
  lemma SkipFile(plant: string, dates: seq<DateFolder>, counts: map<string, int>)
    requires |dates| > 0 && !dates[0].isDir
    ensures RenameDates(plant, dates, counts) == RenameDates(plant, dates[1..], counts)
  {
  }

  /** A directory whose name does not unpack stops the loop. */
  lemma StopAtBadFolder(plant: string, dates: seq<DateFolder>, counts: map<string, int>)
    requires |dates| > 0 && dates[0].isDir && SplitDate(dates[0].name).None?
    ensures RenameDates(plant, dates, counts).badFolder == Some(dates[0].name)
  {
  }

  /** A well-named directory advances the plant's counter by its images and the loop goes on. */
  lemma AdvancePastFolder(plant: string, dates: seq<DateFolder>, counts: map<string, int>)
    requires |dates| > 0 && dates[0].isDir && SplitDate(dates[0].name).Some?
    ensures
      var r := RenameDates(plant, dates, counts);
      var rest := RenameDates(plant, dates[1..], CountsAfter(plant, dates[0], counts));
      r.badFolder == rest.badFolder && r.counts == rest.counts
  {
  }

  lemma DatesSplitCons(dates: seq<DateFolder>)
    requires |dates| > 0
    ensures DatesSplit(dates) <==>
      (dates[0].isDir ==> SplitDate(dates[0].name).Some?) && DatesSplit(dates[1..])
  {
    assert forall k :: 1 <= k < |dates| ==> dates[k] == dates[1..][k - 1];
  }

  /** The stop law for one step, given it for the rest of the folders. */
  lemma DatesStopStep(plant: string, dates: seq<DateFolder>, counts: map<string, int>)
    requires |dates| > 0
    requires
      var next := if dates[0].isDir then CountsAfter(plant, dates[0], counts) else counts;
      RenameDates(plant, dates[1..], next).badFolder.None? <==> DatesSplit(dates[1..])
    ensures RenameDates(plant, dates, counts).badFolder.None? <==> DatesSplit(dates)
  {
    DatesSplitCons(dates);
    if !dates[0].isDir {
      SkipFile(plant, dates, counts);
    } else if SplitDate(dates[0].name).Some? {
      AdvancePastFolder(plant, dates, counts);
    } else {
      StopAtBadFolder(plant, dates, counts);
    }
  }

  /** The date-folder loop stops exactly when some directory date folder is badly named. */
  lemma {:induction false} DatesStopLaw(plant: string, dates: seq<DateFolder>, counts: map<string, int>)
    ensures RenameDates(plant, dates, counts).badFolder.None? <==> DatesSplit(dates)
  {
    if |dates| > 0 {
      var next := if dates[0].isDir then CountsAfter(plant, dates[0], counts) else counts;
      DatesStopLaw(plant, dates[1..], next);
      DatesStopStep(plant, dates, counts);
    }
  }

  /** When the date-folder loop does not stop, the plant's counter has grown by the number of
      images it renamed, starting from 0 when the plant had no counter, and the plant has a
      counter once any date folder was seen. */
  lemma {:induction false} DatesCountLaw(plant: string, dates: seq<DateFolder>, counts: map<string, int>)
    ensures
      var r := RenameDates(plant, dates, counts);
      r.badFolder.None? ==>
        && Current(r.counts, plant) == Current(counts, plant) + DateImages(dates)
        && (plant in r.counts <==> plant in counts || AnyDateDir(dates))
  {
    if |dates| > 0 {
      var d := dates[0];
      assert forall k :: 1 <= k < |dates| ==> dates[k] == dates[1..][k - 1];
      assert AnyDateDir(dates) <==> d.isDir || AnyDateDir(dates[1..]);
      if !d.isDir {
        SkipFile(plant, dates, counts);
        DatesCountLaw(plant, dates[1..], counts);
      } else if SplitDate(d.name).Some? {
        AdvancePastFolder(plant, dates, counts);
        DatesCountLaw(plant, dates[1..], CountsAfter(plant, d, counts));
      }
    }
  }

  /** The plant-folder loop stops exactly when some directory date folder is badly named. */
  lemma {:induction false} PlantsStopLaw(plants: seq<PlantFolder>, counts: map<string, int>)
    ensures RenamePlants(plants, counts).badFolder.None? <==> AllDatesSplit(plants)
  {
    if |plants| > 0 {
      var pf := plants[0];
      assert forall i :: 1 <= i < |plants| ==> plants[i] == plants[1..][i - 1];
      assert AllDatesSplit(plants) <==> (pf.isDir ==> DatesSplit(pf.dates)) && AllDatesSplit(plants[1..]);
      if !pf.isDir {
        PlantsStopLaw(plants[1..], counts);
      } else {
        var first := RenameDates(pf.name, pf.dates, counts);
        DatesStopLaw(pf.name, pf.dates, counts);
        if first.badFolder.None? {
          PlantsStopLaw(plants[1..], first.counts);
        }
      }
    }
  }

  /** One directory plant folder's step of the count law: a plant type other than the folder's
      keeps its counter, and the folder's own type gains its images. */
  lemma PlantStep(pf: PlantFolder, counts: map<string, int>, p: string)
    requires pf.isDir
    requires RenameDates(pf.name, pf.dates, counts).badFolder.None?
    ensures
      var next := RenameDates(pf.name, pf.dates, counts).counts;
      && (p in next <==> p in counts || (pf.name == p && AnyDateDir(pf.dates)))
      && Current(next, p) == Current(counts, p) + (if pf.name == p then DateImages(pf.dates) else 0)
  {
    DatesCountLaw(pf.name, pf.dates, counts);
  }

  /** The count law for plant type p: it has a counter exactly when it had one or was visited,
      and its counter has grown by the images under its folders. */
  ghost predicate CountLawFor(plants: seq<PlantFolder>, counts: map<string, int>, after: map<string, int>, p: string) {
    && (p in after <==> p in counts || PlantVisited(plants, p))
    && Current(after, p) == Current(counts, p) + PlantImages(plants, p)
  }

  /** A plant-folder entry that is not a directory is skipped. */
  lemma SkipPlantFile(plants: seq<PlantFolder>, counts: map<string, int>)
    requires |plants| > 0 && !plants[0].isDir
    ensures RenamePlants(plants, counts) == RenamePlants(plants[1..], counts)
  {
  }

  /** A directory plant folder: the run stops with its date loop, or goes on from its counts. */
  lemma EnterPlant(plants: seq<PlantFolder>, counts: map<string, int>)
    requires |plants| > 0 && plants[0].isDir
    ensures
      var first := RenameDates(plants[0].name, plants[0].dates, counts);
      var r := RenamePlants(plants, counts);
      && (first.badFolder.Some? ==> r.badFolder.Some?)
      && (first.badFolder.None? ==>
            var rest := RenamePlants(plants[1..], first.counts);
            r.badFolder == rest.badFolder && r.counts == rest.counts)
  {
  }

  lemma PlantsCons(plants: seq<PlantFolder>, p: string)
    requires |plants| > 0
    ensures PlantVisited(plants, p) <==>
      (plants[0].isDir && plants[0].name == p && AnyDateDir(plants[0].dates)) || PlantVisited(plants[1..], p)
  {
    assert forall i :: 1 <= i < |plants| ==> plants[i] == plants[1..][i - 1];
  }

  /** The count law for p across a skipped entry. */
  lemma CountLawSkip(plants: seq<PlantFolder>, counts: map<string, int>, after: map<string, int>, p: string)
    requires |plants| > 0 && !plants[0].isDir
    requires CountLawFor(plants[1..], counts, after, p)
    ensures CountLawFor(plants, counts, after, p)
  {
    PlantsCons(plants, p);
  }

  /** The count law for p across a directory plant folder whose date loop did not stop. */
  lemma CountLawEnter(plants: seq<PlantFolder>, counts: map<string, int>, after: map<string, int>, p: string)
    requires |plants| > 0 && plants[0].isDir
    requires RenameDates(plants[0].name, plants[0].dates, counts).badFolder.None?
    requires CountLawFor(plants[1..], RenameDates(plants[0].name, plants[0].dates, counts).counts, after, p)
    ensures CountLawFor(plants, counts, after, p)
  {
    PlantStep(plants[0], counts, p);
    PlantsCons(plants, p);
  }

  /** When the plant-folder loop does not stop, every plant type's counter has grown by the
      number of images under its folders, and exactly the visited plant types have gained one. */
  lemma {:induction false} PlantsCountLaw(plants: seq<PlantFolder>, counts: map<string, int>)
    ensures
      var r := RenamePlants(plants, counts);
      r.badFolder.None? ==> forall p ::
        && (p in r.counts <==> p in counts || PlantVisited(plants, p))
        && Current(r.counts, p) == Current(counts, p) + PlantImages(plants, p)
  {
    var r := RenamePlants(plants, counts);
    if r.badFolder.None? {
      forall p
        ensures p in r.counts <==> p in counts || PlantVisited(plants, p)
        ensures Current(r.counts, p) == Current(counts, p) + PlantImages(plants, p)
      {
        PlantsCountLawFor(plants, counts, p);
      }
    }
  }

  lemma {:induction false} PlantsCountLawFor(plants: seq<PlantFolder>, counts: map<string, int>, p: string)
    requires RenamePlants(plants, counts).badFolder.None?
    ensures CountLawFor(plants, counts, RenamePlants(plants, counts).counts, p)
  {
    if |plants| == 0 {
      assert RenamePlants(plants, counts).counts == counts;
    } else if !plants[0].isDir {
      SkipPlantFile(plants, counts);
      PlantsCountLawFor(plants[1..], counts, p);
      CountLawSkip(plants, counts, RenamePlants(plants, counts).counts, p);
    } else {
      var first := RenameDates(plants[0].name, plants[0].dates, counts);
      EnterPlant(plants, counts);
      PlantsCountLawFor(plants[1..], first.counts, p);
      CountLawEnter(plants, counts, RenamePlants(plants, counts).counts, p);
    }
  }

  /** What rename_images saves: it saves exactly when every directory date folder is well named,
      and then every plant type's count is its loaded count (0 if none) plus the images renamed
      under it; counts of plant types with no folder are untouched. */
  lemma RenameImagesCountLaw(plants: seq<PlantFolder>, loaded: map<string, int>)
    ensures
      var o := RenameImages(plants, loaded);
      && (o.saved.Some? <==> AllDatesSplit(plants))
      && (o.saved.Some? ==> forall p ::
            && (p in o.saved.value <==> p in loaded || PlantVisited(plants, p))
            && Current(o.saved.value, p) == Current(loaded, p) + PlantImages(plants, p))
  {
    PlantsStopLaw(plants, loaded);
    PlantsCountLaw(plants, loaded);
  }

  /** A completed run renames, for every plant type p, exactly as many images as the directory
      plant folders named p hold, in order, the k-th to counter Current(loaded, p) + k + 1. */
  lemma RenameImagesPerPlant(plants: seq<PlantFolder>, loaded: map<string, int>, p: string)
    ensures
      var o := RenameImages(plants, loaded);
      o.saved.Some? ==>
        && |ForPlant(o.renames, p)| == PlantImages(plants, p)
        && forall k :: 0 <= k < PlantImages(plants, p) ==>
             && ForPlant(o.renames, p)[k].from == PlantEntries(plants, p)[k].1
             && ForPlant(o.renames, p)[k].counter == Current(loaded, p) + k + 1
  {
    PlantEntriesCount(plants, p);
  }

  /** A counter and extension can be read back from their concatenation: the digits hold no
      '.', and the extension is empty or starts with one. */
  lemma DigitsThenExtension(c1: int, e1: string, c2: int, e2: string)
    requires e1 == "" || e1[0] == '.'
    requires e2 == "" || e2[0] == '.'
    requires IntToString(c1) + e1 == IntToString(c2) + e2
    ensures c1 == c2 && e1 == e2
  {
    var d1, d2 := IntToString(c1), IntToString(c2);
    TakeUntilHead(d1, e1, '.');
    TakeUntilHead(d2, e2, '.');
    IntToStringInjective(c1, c2);
    assert e1 == (d1 + e1)[|d1|..];
    assert e2 == (d2 + e2)[|d2|..];
  }

  /** A new name can be read back: for one plant type, two new names are equal only if their
      date fields, counters and extensions are, since the date fields hold no '-' and the
      counter's digits hold no '.'. */
  lemma NewNameInjective(plant: string, d1: string, m1: string, y1: string, c1: int, img1: string,
                         d2: string, m2: string, y2: string, c2: int, img2: string)
    requires '-' !in d1 && '-' !in m1 && '-' !in y1
    requires '-' !in d2 && '-' !in m2 && '-' !in y2
    requires NewName(plant, d1, m1, y1, c1, img1) == NewName(plant, d2, m2, y2, c2, img2)
    ensures d1 == d2 && m1 == m2 && y1 == y2
    ensures c1 == c2 && SplitExt(img1) == SplitExt(img2)
  {
    var e1, e2 := SplitExt(img1), SplitExt(img2);
    var t1 := IntToString(c1) + e1;
    var t2 := IntToString(c2) + e2;
    var u1, u2 := y1 + "-" + t1, y2 + "-" + t2;
    var v1, v2 := m1 + "-" + u1, m2 + "-" + u2;
    var w1, w2 := d1 + "-" + v1, d2 + "-" + v2;
    var prefix := plant + "-";
    assert w1 == (prefix + w1)[|prefix|..];
    assert w2 == (prefix + w2)[|prefix|..];
    SplitAtSeparator(d1, d2, v1, v2, '-');
    SplitAtSeparator(m1, m2, u1, u2, '-');
    SplitAtSeparator(y1, y2, t1, t2, '-');
    DigitsThenExtension(c1, e1, c2, e2);
  }

  /** Within one run, the names given to one plant type's images are pairwise distinct. */
  lemma NamesDistinct(plants: seq<PlantFolder>, loaded: map<string, int>)
    ensures
      var rs := RenameImages(plants, loaded).renames;
      forall i, j :: 0 <= i < j < |rs| && rs[i].plant == rs[j].plant ==> rs[i].to != rs[j].to
  {
    var rs := RenameImages(plants, loaded).renames;
    forall i, j | 0 <= i < j < |rs| && rs[i].plant == rs[j].plant ensures rs[i].to != rs[j].to {
      assert WellNamed(rs[i]) && WellNamed(rs[j]);
      assert rs[i].counter < rs[j].counter;
      var a, b := SplitDate(rs[i].folder).value, SplitDate(rs[j].folder).value;
      if rs[i].to == rs[j].to {
        NewNameInjective(rs[i].plant, a.0, a.1, a.2, rs[i].counter, rs[i].from,
                         b.0, b.1, b.2, rs[j].counter, rs[j].from);
      }
    }
  }

  /** SplitDate reads back the fields a date folder name was joined from, when none of them
      holds a '-'. */
  lemma DateFields(name: string, day: string, month: string, year: string)
    requires '-' !in day && '-' !in month && '-' !in year
    requires name == day + "-" + month + "-" + year
    ensures SplitDate(name) == Some((day, month, year))
  {
    assert name == day + "-" + (month + "-" + year);
    CountAbsent(day, '-');
    CountAbsent(month, '-');
    CountAbsent(year, '-');
    CountAppend(day + "-", month + "-" + year, '-');
    CountAppend(day, "-", '-');
    CountAppend(month + "-", year, '-');
    CountAppend(month, "-", '-');
    var (d, m, y) := SplitDate(name).value;
    assert d + "-" + (m + "-" + y) == day + "-" + (month + "-" + year);
    SplitAtSeparator(d, day, m + "-" + y, month + "-" + year, '-');
    SplitAtSeparator(m, month, y, year, '-');
  }

  lemma PhotoIsImage()
    ensures IsImage("IMG_1.JPG")
  {
    var n := Lower("IMG_1.JPG");
    assert n[5] == '.' && n[6] == 'j' && n[7] == 'p' && n[8] == 'g';
    assert n[5..] == ".jpg";
  }

  lemma NotesAreNotImages()
    ensures !IsImage("notes.txt")
  {
    var n := Lower("notes.txt");
    assert n[8] == 't';
    assert n[5..][3] == 't';
    assert n[4..][4] == 't';
  }

  lemma ExampleImages()
    ensures Images(["IMG_1.JPG", "notes.txt"]) == ["IMG_1.JPG"]
  {
    PhotoIsImage();
    NotesAreNotImages();
  }

  /** splitext keeps the last '.' and what follows it, when the name does not start with '.'. */
  lemma ExtensionAfterLastDot(stem: string, ext: string)
    requires |stem| > 0 && stem[0] != '.'
    requires '.' !in ext
    ensures SplitExt(stem + "." + ext) == "." + ext
  {
    var name := stem + "." + ext;
    assert name == stem + ['.'] + ext;
    LastIndexOfAfterStem(stem, ext, '.');
    assert name[..|stem|] == stem;
    assert !AllDots(name[..|stem|]) by {
      assert name[..|stem|][0] != '.';
    }
    assert name[|stem|..] == "." + ext;
  }

  lemma ExampleNameParts(counter: string, ext: string)
    requires counter == "5" && ext == ".JPG"
    ensures "phragmites" + "-" + ("01" + "-" + ("02" + "-" + ("2024" + "-" + (counter + ext))))
      == "phragmites-01-02-2024-5.JPG"
  {
  }

  lemma ExampleName()
    ensures NewName("phragmites", "01", "02", "2024", 5, "IMG_1.JPG") == "phragmites-01-02-2024-5.JPG"
  {
    assert IntToString(5) == "5";
    assert SplitExt("IMG_1.JPG") == ".JPG" by {
      ExtensionAfterLastDot("IMG_1", "JPG");
      assert "IMG_1" + "." + "JPG" == "IMG_1.JPG";
    }
    ExampleNameParts(IntToString(5), SplitExt("IMG_1.JPG"));
  }

  lemma BadDateExample()
    ensures SplitDate("2024") == None
  {
  }

  /** The steps of the example below: the folder's date, its images, the new name, the
      folder's renames and its counts. */
  lemma ExampleFolderName()
    ensures SplitDate("01-02-2024") == Some(("01", "02", "2024"))
  {
    DateFields("01-02-2024", "01", "02", "2024");
  }

  lemma ExampleRenameAll()
    ensures RenameAll("phragmites", "01-02-2024", "01", "02", "2024", ["IMG_1.JPG"], 4)
      == [Rename("phragmites", "01-02-2024", "IMG_1.JPG", "phragmites-01-02-2024-5.JPG", 5)]
  {
    ExampleName();
    assert ["IMG_1.JPG"][1..] == [];
  }

  lemma ExampleFolderRenames()
    ensures
      var d := DateFolder("01-02-2024", true, ["IMG_1.JPG", "notes.txt"]);
      && SplitDate(d.name).Some?
      && FolderRenames("phragmites", d, map["phragmites" := 4])
           == [Rename("phragmites", "01-02-2024", "IMG_1.JPG", "phragmites-01-02-2024-5.JPG", 5)]
  {
    ExampleFolderName();
    ExampleImages();
    ExampleRenameAll();
    assert Current(map["phragmites" := 4], "phragmites") == 4;
  }

  lemma ExampleFolderCounts()
    ensures
      var d := DateFolder("01-02-2024", true, ["IMG_1.JPG", "notes.txt"]);
      CountsAfter("phragmites", d, map["phragmites" := 4]) == map["phragmites" := 4]["phragmites" := 5]
  {
    ExampleImages();
    assert Current(map["phragmites" := 4], "phragmites") == 4;
  }

  /** A plant folder with a single well-named date folder: that folder's renames and counts. */
  lemma SingleFolder(plant: string, d: DateFolder, counts: map<string, int>)
    requires d.isDir && SplitDate(d.name).Some?
    ensures RenameDates(plant, [d], counts) == Run(FolderRenames(plant, d, counts), CountsAfter(plant, d, counts), None)
  {
    assert [d][1..] == [];
    assert FolderRenames(plant, d, counts) + [] == FolderRenames(plant, d, counts);
  }

  /** A base folder with a single plant folder: what its date loop does, saved if it did not stop. */
  lemma SinglePlant(pf: PlantFolder, loaded: map<string, int>)
    requires pf.isDir
    ensures
      var r := RenameDates(pf.name, pf.dates, loaded);
      RenameImages([pf], loaded) == Outcome(r.renames, if r.badFolder.None? then Some(r.counts) else None)
  {
    assert [pf][1..] == [];
    var r := RenameDates(pf.name, pf.dates, loaded);
    assert RenamePlants([], r.counts) == Run([], r.counts, None);
    assert r.renames + [] == r.renames;
  }

  /** One plant folder with one dated folder holding a photograph and a text file, with the
      plant's saved counter at 4: the photograph becomes phragmites-01-02-2024-5.JPG, the text
      file is left alone, and the counter saved is 5. */
  lemma RenameExample()
    ensures
      var plants := [PlantFolder("phragmites", true, [DateFolder("01-02-2024", true, ["IMG_1.JPG", "notes.txt"])])];
      var o := RenameImages(plants, map["phragmites" := 4]);
      && o.renames == [Rename("phragmites", "01-02-2024", "IMG_1.JPG", "phragmites-01-02-2024-5.JPG", 5)]
      && o.saved == Some(map["phragmites" := 4]["phragmites" := 5])
  {
    var d := DateFolder("01-02-2024", true, ["IMG_1.JPG", "notes.txt"]);
    ExampleFolderRenames();
    ExampleFolderCounts();
    SingleFolder("phragmites", d, map["phragmites" := 4]);
    SinglePlant(PlantFolder("phragmites", true, [d]), map["phragmites" := 4]);
  }

  /** A directory date folder named "2024" cannot be unpacked into day, month and year: nothing
      under it is renamed and the counts are not saved. */
  lemma BadDateFolderExample()
    ensures
      var plants := [PlantFolder("cattail", true, [DateFolder("2024", true, ["a.png"])])];
      RenameImages(plants, map[]) == Outcome([], None)
  {
    var d := DateFolder("2024", true, ["a.png"]);
    BadDateExample();
    StopAtBadFolder("cattail", [d], map[]);
    SinglePlant(PlantFolder("cattail", true, [d]), map[]);
  }

  /** A badly named date folder after a well-named one: the photograph of the first folder has
      already been renamed when the run stops, and the counts are not saved. */
  lemma StopKeepsEarlierRenames()
    ensures
      var d1 := DateFolder("01-02-2024", true, ["IMG_1.JPG", "notes.txt"]);
      var plants := [PlantFolder("phragmites", true, [d1, DateFolder("2024", true, [])])];
      RenameImages(plants, map["phragmites" := 4])
        == Outcome([Rename("phragmites", "01-02-2024", "IMG_1.JPG", "phragmites-01-02-2024-5.JPG", 5)], None)
  {
    var d1 := DateFolder("01-02-2024", true, ["IMG_1.JPG", "notes.txt"]);
    var d2 := DateFolder("2024", true, []);
    var counts := map["phragmites" := 4];
    ExampleFolderRenames();
    BadDateExample();
    assert [d1, d2][1..] == [d2];
    StopAtBadFolder("phragmites", [d2], CountsAfter("phragmites", d1, counts));
    assert RenameDates("phragmites", [d2], CountsAfter("phragmites", d1, counts)).renames == [];
    SinglePlant(PlantFolder("phragmites", true, [d1, d2]), counts);
  }
}
