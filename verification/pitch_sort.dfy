/** Pitch sorting: selecting ".JPG" files, cutting them into batches, and sending each
    image to the in-band or out-of-band directory according to its camera pitch. */
module PitchSort {
  import opened Wrappers
  import opened Text
  import opened Seqs

  /** Splits xs into consecutive batches of batch_size items, the last possibly shorter
      (the generator batch_iterable, collected). */
  function BatchIterable<T>(xs: seq<T>, size: nat): (batches: seq<seq<T>>)
    requires size >= 1
    ensures Flatten(batches) == xs
    ensures forall k :: 0 <= k < |batches| ==> 1 <= |batches[k]| <= size
    ensures forall k :: 0 <= k < |batches| - 1 ==> |batches[k]| == size
    ensures |batches| == (|xs| + size - 1) / size
    decreases |xs|
  {
    if |xs| == 0 then
      DivUnique(size - 1, size, 0, size - 1);
      []
    else if |xs| <= size then
      assert Flatten([xs]) == xs + Flatten([]);
      DivUnique(|xs| + size - 1, size, 1, |xs| - 1);
      [xs]
    else
      var rest := BatchIterable(xs[size..], size);
      var batches := [xs[..size]] + rest;
      assert Flatten(batches) == xs by {
        assert batches[1..] == rest;
        assert xs[..size] + xs[size..] == xs;
      }
      assert |batches| == (|xs| + size - 1) / size by {
        DivShift(|xs| - 1, size);
      }
      assert forall k :: 1 <= k < |batches| ==> batches[k] == rest[k - 1];
      batches
  }

  /** Quotient and remainder are unique: n == d * q + r with 0 <= r < d fixes n / d. */
  lemma DivUnique(n: int, d: int, q: int, r: int)
    requires d >= 1 && 0 <= r < d && n == d * q + r
    ensures n / d == q
  {
    var q', r' := n / d, n % d;
    assert d * (q - q') == r' - r;
    if q > q' {
      assert d * (q - q') >= d by { MulAtLeast(d, q - q'); }
    } else if q < q' {
      assert d * (q' - q) >= d by { MulAtLeast(d, q' - q); }
    }
  }

  lemma MulAtLeast(d: int, k: int)
    requires d >= 1 && k >= 1
    ensures d * k >= d
  {
  }

  /** Adding the divisor to the dividend adds one to the quotient. */
  lemma DivShift(m: int, d: int)
    requires d >= 1
    ensures (m + d) / d == m / d + 1
  {
    DivUnique(m + d, d, m / d + 1, m % d);
  }

  /** The batches are determined by the input: any cut of xs into non-empty pieces of at most
      size items, all but the last full, is the one batch_iterable yields. */
  lemma {:induction false} BatchesUnique<T>(xs: seq<T>, size: nat, bs: seq<seq<T>>)
    requires size >= 1
    requires Flatten(bs) == xs
    requires forall k :: 0 <= k < |bs| ==> 1 <= |bs[k]| <= size
    requires forall k :: 0 <= k < |bs| - 1 ==> |bs[k]| == size
    ensures bs == BatchIterable(xs, size)
    decreases |bs|
  {
    if |bs| == 0 {
    } else if |bs| == 1 {
      assert Flatten(bs) == bs[0] + Flatten(bs[1..]);
      assert xs == bs[0];
    } else {
      var rest := bs[1..];
      assert Flatten(bs) == bs[0] + Flatten(rest);
      assert |Flatten(rest)| >= 1 by {
        assert Flatten(rest) == rest[0] + Flatten(rest[1..]);
      }
      assert xs[..size] == bs[0];
      assert xs[size..] == Flatten(rest);
      BatchesUnique(xs[size..], size, rest);
      assert bs == [bs[0]] + rest;
    }
  }

  /** batch_iterable on ten items with batch size four: two full batches and a last of two. */
  lemma BatchExample()
    ensures BatchIterable([0, 1, 2, 3, 4, 5, 6, 7, 8, 9], 4) == [[0, 1, 2, 3], [4, 5, 6, 7], [8, 9]]
  {
    var xs := [0, 1, 2, 3, 4, 5, 6, 7, 8, 9];
    assert xs[4..][4..] == [8, 9];
    assert BatchIterable([8, 9], 4) == [[8, 9]];
    assert xs[4..][..4] == [4, 5, 6, 7];
    assert BatchIterable(xs[4..], 4) == [[4, 5, 6, 7], [8, 9]];
    assert xs[..4] == [0, 1, 2, 3];
  }

  /** The name ends in ".JPG", upper case exactly. */
  predicate IsJpgName(name: string) {
    EndsWith(name, ".JPG")
  }

  /** Only names ending in ".JPG", upper case exactly, are processed. */
  function SelectJpg(names: seq<string>): (selected: seq<string>)
    ensures forall k :: 0 <= k < |selected| ==> selected[k] in names && EndsWith(selected[k], ".JPG")
    ensures forall k :: 0 <= k < |names| && EndsWith(names[k], ".JPG") ==> names[k] in selected
  {
    Filter(IsJpgName, names)
  }

  /** The selection keeps the listing's order and every occurrence: it distributes over
      concatenation, and a single name is kept exactly when it ends in ".JPG". */
  lemma SelectJpgOrder(a: seq<string>, b: seq<string>, name: string)
    ensures SelectJpg(a + b) == SelectJpg(a) + SelectJpg(b)
    ensures SelectJpg([name]) == if EndsWith(name, ".JPG") then [name] else []
  {
    FilterAppend(IsJpgName, a, b);
    FilterSingleton(IsJpgName, name);
  }

  /** The two target directories: range_44_46 and range_not_44_46. */
  datatype Destination = InBand | OutOfBand

  /** One planned shutil.move of a file into a target directory. */
  datatype Move = Move(file: string, dest: Destination)

  /** The band test as the code writes it: -47 <= pitch <= -43, both ends included. */
  function Classify(pitch: real): (d: Destination)
    ensures d == InBand <==> -47.0 <= pitch && pitch <= -43.0
  {
    if -47.0 <= pitch <= -43.0 then InBand else OutOfBand
  }

  /** The band is wider than the documented -44 to -46: -43.5 and -46.5 land in range_44_46. */
  lemma BandWiderThanDocumented()
    ensures Classify(-43.5) == InBand && Classify(-46.5) == InBand
    ensures forall p: real :: -46.0 <= p <= -44.0 ==> Classify(p) == InBand
  {
  }

  /** Why processing one image failed. */
  datatype ProcessError = UnboundFilename

  /** process_image as written: without a pitch the message on the else-branch reads a name
      bound only on the other branch, so the call raises instead of moving nothing. */
  function ProcessImageAsWritten(file: string, pitch: Option<real>): (r: Result<Move, ProcessError>)
    ensures r.Failure? <==> pitch.None?
    ensures r.Success? ==> r.value == Move(file, Classify(pitch.value))
  {
    match pitch
    case Some(p) => Success(Move(file, Classify(p)))
    case None => Failure(UnboundFilename)
  }

  /** process_image as intended: an image with a pitch goes to exactly one directory, chosen
      by the band; an image without one is reported and left where it is. */
  function ProcessImage(file: string, pitch: Option<real>): (r: Option<Move>)
    ensures r.Some? <==> pitch.Some?
    ensures r.Some? ==> r.value.file == file && (r.value.dest == InBand <==> -47.0 <= pitch.value <= -43.0)
  {
    match pitch
    case Some(p) => Some(Move(file, Classify(p)))
    case None => None
  }

  /** The files that have a pitch, in their original order, each occurrence kept. */
  function Pitched(files: seq<string>, pitchOf: string -> Option<real>): (ps: seq<string>)
    ensures forall k :: 0 <= k < |ps| ==> ps[k] in files && pitchOf(ps[k]).Some?
    ensures forall j :: 0 <= j < |files| && pitchOf(files[j]).Some? ==> files[j] in ps
  {
    if |files| == 0 then []
    else
      var rest := Pitched(files[1..], pitchOf);
      assert forall j :: 1 <= j < |files| ==> files[j] == files[1..][j - 1];
      if pitchOf(files[0]).Some? then [files[0]] + rest else rest
  }

  /** Pitched keeps the files' order and every occurrence: it distributes over concatenation,
      and a single file is kept exactly when it has a pitch. */
  lemma {:induction false} PitchedOrder(a: seq<string>, b: seq<string>, file: string, pitchOf: string -> Option<real>)
    ensures Pitched(a + b, pitchOf) == Pitched(a, pitchOf) + Pitched(b, pitchOf)
    ensures Pitched([file], pitchOf) == if pitchOf(file).Some? then [file] else []
  {
    assert [file][1..] == [];
    if |a| == 0 {
      assert a + b == b;
    } else {
      assert (a + b)[0] == a[0];
      assert (a + b)[1..] == a[1..] + b;
      PitchedOrder(a[1..], b, file, pitchOf);
    }
  }

  /** The moves for a list of files under the intended process_image: one move per file with
      a pitch, in order, into the directory its band picks; nothing for the other files. */
  function Plan(files: seq<string>, pitchOf: string -> Option<real>): (moves: seq<Move>)
    ensures |moves| == |Pitched(files, pitchOf)|
    ensures forall k :: 0 <= k < |moves| ==>
      var f := Pitched(files, pitchOf)[k];
      moves[k] == Move(f, Classify(pitchOf(f).value))
  {
    if |files| == 0 then []
    else
      var rest := Plan(files[1..], pitchOf);
      var ps := Pitched(files[1..], pitchOf);
      if pitchOf(files[0]).Some? then
        var m := Move(files[0], Classify(pitchOf(files[0]).value));
        assert Pitched(files, pitchOf) == [files[0]] + ps;
        assert forall k :: 1 <= k <= |rest| ==> ([m] + rest)[k] == rest[k - 1] && ([files[0]] + ps)[k] == ps[k - 1];
        [m] + rest
      else
        assert Pitched(files, pitchOf) == ps;
        rest
  }

  lemma {:induction false} PlanAppend(a: seq<string>, b: seq<string>, pitchOf: string -> Option<real>)
    ensures Plan(a + b, pitchOf) == Plan(a, pitchOf) + Plan(b, pitchOf)
  {
    if |a| == 0 {
      assert a + b == b;
    } else {
      assert (a + b)[0] == a[0];
      assert (a + b)[1..] == a[1..] + b;
      PlanAppend(a[1..], b, pitchOf);
    }
  }

  /** The intended run over a sequence of batches: every batch's moves, batch by batch. */
  function RunBatches(batches: seq<seq<string>>, pitchOf: string -> Option<real>): seq<Move> {
    if |batches| == 0 then [] else Plan(batches[0], pitchOf) + RunBatches(batches[1..], pitchOf)
  }

  /** Running batch by batch makes the same moves as one pass over the concatenated batches. */
  lemma {:induction false} RunBatchesIsPlan(batches: seq<seq<string>>, pitchOf: string -> Option<real>)
    ensures RunBatches(batches, pitchOf) == Plan(Flatten(batches), pitchOf)
  {
    if |batches| > 0 {
      RunBatchesIsPlan(batches[1..], pitchOf);
      PlanAppend(batches[0], Flatten(batches[1..]), pitchOf);
    }
  }

  /** move_images_based_on_pitch as intended: the ".JPG" files of the listing, in batches. */
  function MoveImagesBasedOnPitch(listing: seq<string>, pitchOf: string -> Option<real>, batchSize: nat): (moves: seq<Move>)
    requires batchSize >= 1
    ensures |moves| == |Pitched(SelectJpg(listing), pitchOf)|
    ensures forall k :: 0 <= k < |moves| ==>
      && moves[k].file in listing && EndsWith(moves[k].file, ".JPG")
      && pitchOf(moves[k].file).Some? && moves[k].dest == Classify(pitchOf(moves[k].file).value)
  {
    var batches := BatchIterable(SelectJpg(listing), batchSize);
    RunBatchesIsPlan(batches, pitchOf);
    RunBatches(batches, pitchOf)
  }

  /** The batch size does not change what is moved: every selected image with a pitch is moved
      once into the directory its band picks, and nothing else is moved. */
  lemma BatchSizeIrrelevant(listing: seq<string>, pitchOf: string -> Option<real>, batchSize: nat)
    requires batchSize >= 1
    ensures MoveImagesBasedOnPitch(listing, pitchOf, batchSize) == Plan(SelectJpg(listing), pitchOf)
  {
    RunBatchesIsPlan(BatchIterable(SelectJpg(listing), batchSize), pitchOf);
  }

  /** Some file of the batch has no pitch. */
  predicate MissingPitch(batch: seq<string>, pitchOf: string -> Option<real>) {
    exists k | 0 <= k < |batch| :: pitchOf(batch[k]).None?
  }

  /** The run as written: inside a batch every submitted image is processed (the pool waits for
      them), but the first failing result re-raises and no later batch is started. Returns the
      moves made and whether the run was aborted. */
  function RunBatchesAsWritten(batches: seq<seq<string>>, pitchOf: string -> Option<real>): (r: (seq<Move>, bool))
    ensures r.1 <==> exists k | 0 <= k < |batches| :: MissingPitch(batches[k], pitchOf)
    ensures !r.1 ==> r.0 == RunBatches(batches, pitchOf)
    ensures r.0 <= RunBatches(batches, pitchOf)
    ensures r.1 ==> exists j | 0 <= j < |batches| ::
      && MissingPitch(batches[j], pitchOf)
      && (forall i | 0 <= i < j :: !MissingPitch(batches[i], pitchOf))
      && r.0 == RunBatches(batches[..j + 1], pitchOf)
  {
    if |batches| == 0 then ([], false)
    else
      var moves := Plan(batches[0], pitchOf);
      if MissingPitch(batches[0], pitchOf) then
        AbortAtFirst(batches, pitchOf);
        (moves, true)
      else
        var (rest, aborted) := RunBatchesAsWritten(batches[1..], pitchOf);
        AsWrittenCons(batches, pitchOf, rest, aborted);
        (moves + rest, aborted)
  }

  /** A run whose first batch misses a pitch makes that batch's moves and aborts. */
  lemma AbortAtFirst(batches: seq<seq<string>>, pitchOf: string -> Option<real>)
    requires |batches| > 0 && MissingPitch(batches[0], pitchOf)
    ensures exists k | 0 <= k < |batches| :: MissingPitch(batches[k], pitchOf)
    ensures Plan(batches[0], pitchOf) <= RunBatches(batches, pitchOf)
    ensures Plan(batches[0], pitchOf) == RunBatches(batches[..1], pitchOf)
  {
    assert RunBatches(batches[..1], pitchOf) == Plan(batches[0], pitchOf) + RunBatches(batches[..1][1..], pitchOf);
    assert batches[..1][1..] == [];
  }

  /** The step of RunBatchesAsWritten past a first batch in which every image has a pitch. */
  lemma AsWrittenCons(batches: seq<seq<string>>, pitchOf: string -> Option<real>, rest: seq<Move>, aborted: bool)
    requires |batches| > 0 && !MissingPitch(batches[0], pitchOf)
    requires aborted <==> exists k | 0 <= k < |batches[1..]| :: MissingPitch(batches[1..][k], pitchOf)
    requires !aborted ==> rest == RunBatches(batches[1..], pitchOf)
    requires rest <= RunBatches(batches[1..], pitchOf)
    requires aborted ==> exists j | 0 <= j < |batches[1..]| ::
      && MissingPitch(batches[1..][j], pitchOf)
      && (forall i | 0 <= i < j :: !MissingPitch(batches[1..][i], pitchOf))
      && rest == RunBatches(batches[1..][..j + 1], pitchOf)
    ensures aborted <==> exists k | 0 <= k < |batches| :: MissingPitch(batches[k], pitchOf)
    ensures !aborted ==> Plan(batches[0], pitchOf) + rest == RunBatches(batches, pitchOf)
    ensures Plan(batches[0], pitchOf) + rest <= RunBatches(batches, pitchOf)
    ensures aborted ==> exists j | 0 <= j < |batches| ::
      && MissingPitch(batches[j], pitchOf)
      && (forall i | 0 <= i < j :: !MissingPitch(batches[i], pitchOf))
      && Plan(batches[0], pitchOf) + rest == RunBatches(batches[..j + 1], pitchOf)
  {
    assert forall k :: 1 <= k < |batches| ==> batches[k] == batches[1..][k - 1];
    if aborted {
      AbortWitness(batches, pitchOf, rest);
    }
  }

  /** The abort point of a run whose first batch is complete is one past that of the rest. */
  lemma AbortWitness(batches: seq<seq<string>>, pitchOf: string -> Option<real>, rest: seq<Move>)
    requires |batches| > 0 && !MissingPitch(batches[0], pitchOf)
    requires exists j | 0 <= j < |batches| - 1 ::
      && MissingPitch(batches[1..][j], pitchOf)
      && (forall i | 0 <= i < j :: !MissingPitch(batches[1..][i], pitchOf))
      && rest == RunBatches(batches[1..][..j + 1], pitchOf)
    ensures exists j | 0 <= j < |batches| ::
      && MissingPitch(batches[j], pitchOf)
      && (forall i | 0 <= i < j :: !MissingPitch(batches[i], pitchOf))
      && Plan(batches[0], pitchOf) + rest == RunBatches(batches[..j + 1], pitchOf)
  {
    var j :| 0 <= j < |batches| - 1
      && MissingPitch(batches[1..][j], pitchOf)
      && (forall i | 0 <= i < j :: !MissingPitch(batches[1..][i], pitchOf))
      && rest == RunBatches(batches[1..][..j + 1], pitchOf);
    var prefix := batches[..j + 2];
    assert prefix[1..] == batches[1..][..j + 1] && prefix[0] == batches[0];
    assert Plan(batches[0], pitchOf) + rest == RunBatches(prefix, pitchOf);
    assert MissingPitch(batches[j + 1], pitchOf) by {
      assert batches[j + 1] == batches[1..][j];
    }
    forall i | 0 <= i < j + 1 ensures !MissingPitch(batches[i], pitchOf) {
      if i > 0 {
        assert batches[i] == batches[1..][i - 1];
      }
    }
  }

  /** Two images in batches of one, the first without a pitch: as written nothing is moved and
      the run aborts; as intended the second image is moved into range_44_46. */
  lemma MissingPitchAbortsRun()
    ensures
      var pitchOf: string -> Option<real> := (f: string) => if f == "a.JPG" then None else Some(-45.0);
      var batches := BatchIterable(["a.JPG", "b.JPG"], 1);
      && RunBatchesAsWritten(batches, pitchOf) == ([], true)
      && RunBatches(batches, pitchOf) == [Move("b.JPG", InBand)]
  {
    var pitchOf: string -> Option<real> := (f: string) => if f == "a.JPG" then None else Some(-45.0);
    var xs: seq<string> := ["a.JPG", "b.JPG"];
    assert xs[1..] == ["b.JPG"];
    assert "b.JPG" != "a.JPG" by { assert "b.JPG"[0] != "a.JPG"[0]; }
    var batches: seq<seq<string>> := BatchIterable(xs, 1);
    assert BatchIterable(xs[1..], 1) == [["b.JPG"]];
    assert xs[..1] == ["a.JPG"];
    assert batches == [["a.JPG"], ["b.JPG"]];
    assert pitchOf(batches[0][0]).None?;
    assert Plan(["a.JPG"], pitchOf) == [];
    assert Plan(["b.JPG"], pitchOf) == [Move("b.JPG", InBand)];
    assert |batches[1..][1..]| == 0;
  }
}
