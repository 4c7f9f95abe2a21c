/** The ".jpg" census of a directory tree: a count and a byte total per walked directory,
    per plant category, and overall; and the human-readable size unit. */
module JpgCount {
  import opened Wrappers
  import opened Text

  /** A file of a walked directory with its size in bytes. */
  datatype FileEntry = FileEntry(name: string, size: nat)

  /** One step of the walk: a directory's path relative to the walked root, and its files. */
  datatype WalkDir = WalkDir(relPath: string, files: seq<FileEntry>)

  /** A number of ".jpg" files and their total size. */
  datatype Tally = Tally(count: nat, size: nat) {
    function Plus(other: Tally): Tally {
      Tally(count + other.count, size + other.size)
    }
  }

  /** The four buckets a directory's tally is added to. */
  datatype Category = Phragmites | NarrowleafCattail | PurpleLoosetrife | Uncategorized

  /** Everything count_and_size_jpg_files returns. */
  datatype Census = Census(
    jpgCounts: map<string, Tally>,
    total: Tally,
    phragmites: Tally,
    narrowleafCattail: Tally,
    purpleLoosetrife: Tally,
    uncategorized: Tally)

  /** The census counts a file when its lower-cased name ends in ".jpg". */
  predicate IsJpg(f: FileEntry) {
    EndsWith(Lower(f.name), ".jpg")
  }

  /** The ".jpg" files of one directory, counted and summed. */
  function DirTally(files: seq<FileEntry>): Tally {
    if |files| == 0 then Tally(0, 0)
    else
      var last := files[|files| - 1];
      DirTally(files[..|files| - 1]).Plus(if IsJpg(last) then Tally(1, last.size) else Tally(0, 0))
  }

  /** A directory without ".jpg" files still gets its entry, with count and size 0. */
  lemma {:induction false} NoJpgsTallyZero(files: seq<FileEntry>)
    requires forall k :: 0 <= k < |files| ==> !IsJpg(files[k])
    ensures DirTally(files) == Tally(0, 0)
  {
    if |files| > 0 {
      var init := files[..|files| - 1];
      assert forall k :: 0 <= k < |init| ==> init[k] == files[k];
      NoJpgsTallyZero(init);
      assert !IsJpg(files[|files| - 1]);
      assert DirTally(files) == DirTally(init).Plus(Tally(0, 0));
    }
  }

  /** The bucket of a directory: the first of "phragmites", "narrowleaf_cattail" and
      "purple_loosetrife" (spelled so) found in its lower-cased relative path. */
  function Categorize(relPath: string): (c: Category)
    ensures c == Phragmites <==> Contains(Lower(relPath), "phragmites")
    ensures c == NarrowleafCattail <==>
      !Contains(Lower(relPath), "phragmites") && Contains(Lower(relPath), "narrowleaf_cattail")
    ensures c == PurpleLoosetrife <==>
      !Contains(Lower(relPath), "phragmites") && !Contains(Lower(relPath), "narrowleaf_cattail")
      && Contains(Lower(relPath), "purple_loosetrife")
  {
    var p := Lower(relPath);
    if Contains(p, "phragmites") then Phragmites
    else if Contains(p, "narrowleaf_cattail") then NarrowleafCattail
    else if Contains(p, "purple_loosetrife") then PurpleLoosetrife
    else Uncategorized
  }

  /** Sum of the directory tallies over the walk. */
  function WalkTally(walk: seq<WalkDir>): Tally {
    if |walk| == 0 then Tally(0, 0)
    else WalkTally(walk[..|walk| - 1]).Plus(DirTally(walk[|walk| - 1].files))
  }

  /** Sum of the directory tallies of the walked directories in bucket c. */
  function CategoryTally(walk: seq<WalkDir>, c: Category): Tally {
    if |walk| == 0 then Tally(0, 0)
    else
      var last := walk[|walk| - 1];
      CategoryTally(walk[..|walk| - 1], c).Plus(if Categorize(last.relPath) == c then DirTally(last.files) else Tally(0, 0))
  }

  /** The tally recorded for a path: that of the last walked directory with that path. */
  function LastTally(walk: seq<WalkDir>, p: string): (r: Option<Tally>)
    ensures r.Some? <==> exists k | 0 <= k < |walk| :: walk[k].relPath == p
  {
    if |walk| == 0 then None
    else if walk[|walk| - 1].relPath == p then Some(DirTally(walk[|walk| - 1].files))
    else
      var r := LastTally(walk[..|walk| - 1], p);
      assert forall k :: 0 <= k < |walk| - 1 ==> walk[..|walk| - 1][k] == walk[k];
      r
  }

  /** The sum of the four buckets. */
  function BucketSum(walk: seq<WalkDir>): Tally {
    CategoryTally(walk, Phragmites).Plus(CategoryTally(walk, NarrowleafCattail))
      .Plus(CategoryTally(walk, PurpleLoosetrife)).Plus(CategoryTally(walk, Uncategorized))
  }

  /** Appending one directory adds its tally to its own bucket and leaves the others alone. */
  lemma CategoryStep(walk: seq<WalkDir>, c: Category)
    requires |walk| > 0
    ensures
      var init, last := walk[..|walk| - 1], walk[|walk| - 1];
      CategoryTally(walk, c) ==
        if Categorize(last.relPath) == c then CategoryTally(init, c).Plus(DirTally(last.files))
        else CategoryTally(init, c)
  {
  }

  /** Every directory lands in exactly one bucket, so the four buckets add up to the total. */
  lemma {:induction false} BucketsPartitionTotal(walk: seq<WalkDir>)
    ensures WalkTally(walk) == BucketSum(walk)
  {
    if |walk| == 0 {
      assert CategoryTally(walk, Phragmites) == Tally(0, 0);
      assert CategoryTally(walk, NarrowleafCattail) == Tally(0, 0);
      assert CategoryTally(walk, PurpleLoosetrife) == Tally(0, 0);
      assert CategoryTally(walk, Uncategorized) == Tally(0, 0);
    } else {
      var init, last := walk[..|walk| - 1], walk[|walk| - 1];
      BucketsPartitionTotal(init);
      CategoryStep(walk, Phragmites);
      CategoryStep(walk, NarrowleafCattail);
      CategoryStep(walk, PurpleLoosetrife);
      CategoryStep(walk, Uncategorized);
      var t := DirTally(last.files);
      assert WalkTally(walk) == WalkTally(init).Plus(t);
      var a, b, d, e :=
        CategoryTally(init, Phragmites), CategoryTally(init, NarrowleafCattail),
        CategoryTally(init, PurpleLoosetrife), CategoryTally(init, Uncategorized);
      assert BucketSum(init) == a.Plus(b).Plus(d).Plus(e);
      match Categorize(last.relPath)
      case Phragmites =>
        assert BucketSum(walk) == a.Plus(t).Plus(b).Plus(d).Plus(e);
      case NarrowleafCattail =>
        assert BucketSum(walk) == a.Plus(b.Plus(t)).Plus(d).Plus(e);
      case PurpleLoosetrife =>
        assert BucketSum(walk) == a.Plus(b).Plus(d.Plus(t)).Plus(e);
      case Uncategorized =>
        assert BucketSum(walk) == a.Plus(b).Plus(d).Plus(e.Plus(t));
    }
  }

  /** The inner loop of the census: the ".jpg" files of one directory, counted and summed. */
  method CountDir(files: seq<FileEntry>) returns (t: Tally)
    ensures t == DirTally(files)
  {
    var count: nat, size: nat := 0, 0;
    var j := 0;
    while j < |files|
      invariant 0 <= j <= |files|
      invariant Tally(count, size) == DirTally(files[..j])
    {
      var f := files[j];
      assert files[..j + 1][..j] == files[..j];
      if EndsWith(Lower(f.name), ".jpg") {
        count := count + 1;
        size := size + f.size;
      }
      j := j + 1;
    }
    assert files[..j] == files;
    t := Tally(count, size);
  }

  /** The relative paths of the walk, in walk order. */
  function Paths(walk: seq<WalkDir>): (ps: seq<string>)
    ensures |ps| == |walk| && forall k :: 0 <= k < |walk| ==> ps[k] == walk[k].relPath
  {
    seq(|walk|, k requires 0 <= k < |walk| => walk[k].relPath)
  }

  /** os.walk yields every directory once: no two walked directories share a relative path. */
  predicate DistinctPaths(walk: seq<WalkDir>) {
    forall i, j | 0 <= i < j < |walk| :: walk[i].relPath != walk[j].relPath
  }

  /** The sum of the tallies a map holds for the given paths (a missing path adds nothing). */
  function SumAt(counts: map<string, Tally>, paths: seq<string>): Tally {
    if |paths| == 0 then Tally(0, 0)
    else
      var p := paths[|paths| - 1];
      SumAt(counts, paths[..|paths| - 1]).Plus(if p in counts then counts[p] else Tally(0, 0))
  }

  /** A map holding every walked directory's own tally at its path sums to the walk's total. */
  lemma {:induction false} SumAtWalk(walk: seq<WalkDir>, counts: map<string, Tally>)
    requires forall k :: 0 <= k < |walk| ==>
      walk[k].relPath in counts && counts[walk[k].relPath] == DirTally(walk[k].files)
    ensures SumAt(counts, Paths(walk)) == WalkTally(walk)
  {
    if |walk| > 0 {
      var init := walk[..|walk| - 1];
      assert Paths(walk)[..|walk| - 1] == Paths(init);
      SumAtWalk(init, counts);
    }
  }

  /** count_and_size_jpg_files over a walk listing. */
  method CountAndSizeJpgFiles(walk: seq<WalkDir>) returns (r: Census)
    ensures forall p :: p in r.jpgCounts <==> LastTally(walk, p).Some?
    ensures forall p :: p in r.jpgCounts ==> r.jpgCounts[p] == LastTally(walk, p).value
    ensures r.total == WalkTally(walk)
    ensures r.phragmites == CategoryTally(walk, Phragmites)
    ensures r.narrowleafCattail == CategoryTally(walk, NarrowleafCattail)
    ensures r.purpleLoosetrife == CategoryTally(walk, PurpleLoosetrife)
    ensures r.uncategorized == CategoryTally(walk, Uncategorized)
    ensures r.total == r.phragmites.Plus(r.narrowleafCattail).Plus(r.purpleLoosetrife).Plus(r.uncategorized)
    ensures DistinctPaths(walk) ==> r.total == SumAt(r.jpgCounts, Paths(walk))
  {
    var counts: map<string, Tally> := map[];
    var total, phr, cat, pur, unc := Tally(0, 0), Tally(0, 0), Tally(0, 0), Tally(0, 0), Tally(0, 0);
    var i := 0;
    while i < |walk|
      invariant 0 <= i <= |walk|
      invariant forall p :: p in counts <==> LastTally(walk[..i], p).Some?
      invariant forall p :: p in counts ==> counts[p] == LastTally(walk[..i], p).value
      invariant total == WalkTally(walk[..i])
      invariant phr == CategoryTally(walk[..i], Phragmites)
      invariant cat == CategoryTally(walk[..i], NarrowleafCattail)
      invariant pur == CategoryTally(walk[..i], PurpleLoosetrife)
      invariant unc == CategoryTally(walk[..i], Uncategorized)
    {
      var dir := walk[i];
      var tally := CountDir(dir.files);
      var prefix := walk[..i + 1];
      assert prefix[..i] == walk[..i] && prefix[i] == dir;
      forall p ensures LastTally(prefix, p) == if p == dir.relPath then Some(tally) else LastTally(walk[..i], p) {
      }
      CategoryStep(prefix, Phragmites);
      CategoryStep(prefix, NarrowleafCattail);
      CategoryStep(prefix, PurpleLoosetrife);
      CategoryStep(prefix, Uncategorized);
      counts := counts[dir.relPath := tally];
      match Categorize(dir.relPath) {
        case Phragmites => phr := phr.Plus(tally);
        case NarrowleafCattail => cat := cat.Plus(tally);
        case PurpleLoosetrife => pur := pur.Plus(tally);
        case Uncategorized => unc := unc.Plus(tally);
      }
      total := total.Plus(tally);
      i := i + 1;
    }
    assert walk[..i] == walk;
    BucketsPartitionTotal(walk);
    if DistinctPaths(walk) {
      forall k | 0 <= k < |walk|
        ensures walk[k].relPath in counts && counts[walk[k].relPath] == DirTally(walk[k].files)
      {
        DistinctPathsKeepEveryTally(walk, k);
      }
      SumAtWalk(walk, counts);
    }
    r := Census(counts, total, phr, cat, pur, unc);
  }

  /** os.walk never yields a directory twice; with distinct paths every directory keeps its own tally. */
  lemma {:induction false} DistinctPathsKeepEveryTally(walk: seq<WalkDir>, k: nat)
    requires DistinctPaths(walk)
    requires k < |walk|
    ensures LastTally(walk, walk[k].relPath) == Some(DirTally(walk[k].files))
  {
    if k < |walk| - 1 {
      DistinctPathsKeepEveryTally(walk[..|walk| - 1], k);
    }
  }

  /** A path naming two plants goes to the one searched first. */
  lemma FirstPatternWins()
    ensures Categorize("phragmites/narrowleaf_cattail") == Phragmites
  {
    var both := "phragmites/narrowleaf_cattail";
    assert Contains(Lower(both), "phragmites") by {
      LowerKeepsLowerCase(both);
      assert both[0..10] == "phragmites";
      assert OccursAt(both, "phragmites", 0);
    }
  }

  /** The third pattern is spelled "purple_loosetrife": a directory spelled
      "purple_loosestrife" is not recognised and counts as uncategorized. */
  lemma LoosestrifeSpellingUncategorized()
    ensures Categorize("purple_loosestrife") == Uncategorized
  {
    var other := "purple_loosestrife";
    LowerKeepsLowerCase(other);
    assert !Contains(other, "phragmites") by {
      forall i | 0 <= i <= |other| - 10 ensures !OccursAt(other, "phragmites", i) {
        assert other[i..i + 10][1] != "phragmites"[1];
      }
    }
    assert !Contains(other, "narrowleaf_cattail") by {
      assert other[0..18][0] != "narrowleaf_cattail"[0];
    }
    assert !Contains(other, "purple_loosetrife") by {
      assert other[0..17][12] != "purple_loosetrife"[12];
      assert other[1..18][0] != "purple_loosetrife"[0];
    }
  }

  /** Lower-casing leaves a string without upper-case ASCII letters unchanged. */
  lemma LowerKeepsLowerCase(s: string)
    requires forall i :: 0 <= i < |s| ==> !('A' <= s[i] <= 'Z')
    ensures Lower(s) == s
  {
  }

  /** The size units format_size tries, smallest first. */
  datatype Unit = B | KB | MB | GB | TB

  const Units: seq<Unit> := [B, KB, MB, GB, TB]

  /** 1024 to the power n. */
  function Pow1024(n: nat): (p: real)
    ensures p >= 1.0
  {
    if n == 0 then 1.0 else 1024.0 * Pow1024(n - 1)
  }

  /** v in unit u is how format_size prints size: u is the j-th unit, v times 1024^j is the
      size, v is below 1024, and past bytes the size reaches 1024^j. */
  predicate ScaledBy(size: real, v: real, u: Unit) {
    exists j | 0 <= j < 5 ::
      && Units[j] == u
      && v * Pow1024(j) == size
      && v < 1024.0
      && (j == 0 || size >= Pow1024(j))
  }

  /** The unit search of format_size from unit i on, with s the size already divided i times. */
  function Scale(s: real, i: nat): Option<(real, Unit)>
    requires i <= 5
    decreases 5 - i
  {
    if i == 5 then None
    else if s < 1024.0 then Some((s, Units[i]))
    else Scale(s / 1024.0, i + 1)
  }

  /** What the unit search finds: no unit when the size reaches 1024^5, and otherwise a unit
      1024^j and a value below 1024 that scales back to the size, with the size at least 1024^j
      for every unit past bytes. */
  lemma {:induction false} ScaleMeaning(s: real, i: nat, size: real)
    requires i <= 5
    requires s * Pow1024(i) == size
    requires i == 0 || s >= 1.0
    ensures Scale(s, i).None? <==> size >= Pow1024(5)
    ensures Scale(s, i).Some? ==> ScaledBy(size, Scale(s, i).value.0, Scale(s, i).value.1)
    decreases 5 - i
  {
    if i == 5 {
      ScaledAtLeast(s, Pow1024(5));
    } else if s < 1024.0 {
      PowBound(s, i);
      if i > 0 {
        ScaledAtLeast(s, Pow1024(i));
      }
      assert Units[i] == Scale(s, i).value.1;
    } else {
      ScaleStep(s, i);
      ScaleMeaning(s / 1024.0, i + 1, size);
    }
  }

  /** format_size without the text rendering: the scaled size and the unit it is printed in,
      or None when even terabytes leave 1024 or more (the loop then ends without a return). */
  method FormatSize(sizeInBytes: int) returns (r: Option<(real, Unit)>)
    ensures r.None? <==> sizeInBytes as real >= Pow1024(5)
    ensures r.Some? ==> ScaledBy(sizeInBytes as real, r.value.0, r.value.1)
  {
    ScaleMeaning(sizeInBytes as real, 0, sizeInBytes as real);
    var s := sizeInBytes as real;
    var i := 0;
    while i < |Units|
      invariant 0 <= i <= 5
      invariant Scale(s, i) == Scale(sizeInBytes as real, 0)
    {
      if s < 1024.0 {
        return Some((s, Units[i]));
      }
      s := s / 1024.0;
      i := i + 1;
    }
    return None;
  }

  lemma ScaledAtLeast(s: real, p: real)
    requires s >= 1.0 && p >= 1.0
    ensures s * p >= p
  {
    assert s * p - p == (s - 1.0) * p;
  }

  /** Dividing by 1024 and counting one more power of 1024 leaves the size unchanged. */
  lemma ScaleStep(s: real, i: nat)
    ensures (s / 1024.0) * Pow1024(i + 1) == s * Pow1024(i)
  {
    assert Pow1024(i + 1) == 1024.0 * Pow1024(i);
  }

  /** Below 1024 units of 1024^i is below 1024^5 bytes. */
  lemma {:induction false} PowBound(s: real, i: nat)
    requires s < 1024.0 && i < 5
    ensures s * Pow1024(i) < Pow1024(5)
    decreases 5 - i
  {
    if i < 4 {
      PowBound(s, i + 1);
      assert s * Pow1024(i + 1) == 1024.0 * (s * Pow1024(i));
    }
  }
}
