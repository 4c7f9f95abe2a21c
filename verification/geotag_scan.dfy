/** The /images listing: the per-image body of get_images, from the tags read from a file
    to one record with corrected coordinates and an above-ground-level (AGL) altitude. */
module GeotagScan {
  import opened Wrappers
  import opened Text
  import opened GpsDecode

  /** Differential correction subtracted from every decoded latitude, in degrees. */
  const LatitudeOffset: real := 0.00004
  /** Differential correction subtracted from every decoded longitude, in degrees. */
  const LongitudeOffset: real := 0.0
  /** Calibration added to the AGL once converted to feet. */
  const AglOffsetFeet: real := -10.0
  const FeetPerMetre: real := 3.28084

  /** What the elevation service answers for one position: a list of results (each one
      an elevation in metres) or one of the three failures the lookup catches. */
  datatype ElevationResponse = Results(elevations: seq<real>) | ApiError | Timeout | TransportError

  /** The elevation lookup get_ground_elevation makes: (latitude, longitude) to the service's response. */
  type ElevationService = (real, real) -> ElevationResponse

  /** Heading of the camera, or the explicit "Unknown" when the image carries none. */
  datatype Heading = Unknown | Degrees(deg: real)

  /** An AGL field: a number, or the string 'undefined' the listing reports instead. */
  datatype Measure = Undefined | Value(v: real)

  /** One entry of the image listing. */
  datatype ImageRecord = ImageRecord(
    filename: string,
    lat: real,
    lon: real,
    yaw: Heading,
    mslAlt: Option<real>,
    agl: Measure,
    aglFeet: Measure)

  /** An exception that escapes the per-image body and aborts the whole listing:
      a rational tag that is too short, not rational, or has a zero denominator. */
  datatype Fault = Malformed(tag: string)

  /** One file as the scan sees it: its name and the tags read from it. */
  datatype ImageFile = ImageFile(name: string, tags: TagMap)

  /** The ground elevation of a response: the first result's elevation; absent for an empty
      result list and for every caught failure, none of which is raised to the caller. */
  function GroundElevation(resp: ElevationResponse): (r: Option<real>)
    ensures r.Some? <==> resp.Results? && |resp.elevations| > 0
    ensures r.Some? ==> r.value == resp.elevations[0]
    ensures resp.ApiError? || resp.Timeout? || resp.TransportError? ==> r == None
  {
    match resp
    case Results(es) => if |es| > 0 then Some(es[0]) else None
    case _ => None
  }

  /** Python's round-half-to-even of an exact value to the nearest integer. */
  function RoundHalfEven(x: real): (n: int)
    ensures x - 0.5 <= n as real <= x + 0.5
    ensures x - x.Floor as real != 0.5 ==> x - 0.5 < n as real < x + 0.5
    ensures x - x.Floor as real == 0.5 ==> n % 2 == 0
  {
    var f := x.Floor;
    var frac := x - f as real;
    if frac < 0.5 then f
    else if frac > 0.5 then f + 1
    else if f % 2 == 0 then f
    else f + 1
  }

  /** Python's round(x, 2) on exact values: the nearest multiple of 0.01, ties to even. */
  function Round2(x: real): (r: real)
    ensures (r * 100.0).Floor as real == r * 100.0
    ensures x - 0.005 <= r <= x + 0.005
    ensures x * 100.0 - (x * 100.0).Floor as real != 0.5 ==> x - 0.005 < r < x + 0.005
    ensures x * 100.0 - (x * 100.0).Floor as real == 0.5 ==> (r * 100.0).Floor % 2 == 0
  {
    var n := RoundHalfEven(x * 100.0);
    var r := n as real / 100.0;
    assert r * 100.0 == n as real;
    assert (n as real).Floor == n;
    r
  }

  /** A value already on the 0.01 grid is left alone, so rounding twice equals rounding once. */
  lemma Round2Idempotent(x: real)
    ensures Round2(Round2(x)) == Round2(x)
  {
    var n := RoundHalfEven(x * 100.0);
    assert Round2(x) * 100.0 == n as real;
    assert (n as real).Floor == n;
  }

  /** The AGL rule: metres and feet are both numbers exactly when both the MSL altitude and the
      ground elevation are present, and both "undefined" otherwise. */
  function Agl(msl: Option<real>, ground: Option<real>): (r: (Measure, Measure))
    ensures r.0.Value? <==> r.1.Value?
    ensures r.0.Value? <==> msl.Some? && ground.Some?
    ensures r.0.Value? ==> r.0.v + ground.value == msl.value
    ensures r.1.Value? ==> r.1.v == Round2(r.0.v * FeetPerMetre + AglOffsetFeet)
  {
    if msl.Some? && ground.Some? then
      var agl := msl.value - ground.value;
      (Value(agl), Value(Round2(agl * FeetPerMetre + AglOffsetFeet)))
    else
      (Undefined, Undefined)
  }

  /** MSL 100 m over ground at 90 m is 10 m above ground, 22.81 ft after calibration. */
  lemma AglExample()
    ensures Agl(Some(100.0), Some(90.0)) == (Value(10.0), Value(22.81))
  {
    assert 10.0 * FeetPerMetre + AglOffsetFeet == 22.8084;
    assert RoundHalfEven(2280.84) == 2281;
  }

  /** A failed lookup or a missing MSL altitude makes both AGL fields 'undefined', never zero. */
  lemma AglUndefinedOnFailure(msl: Option<real>, resp: ElevationResponse)
    requires msl.None? || !resp.Results?
    ensures Agl(msl, GroundElevation(resp)) == (Undefined, Undefined)
  {
  }

  /** The four tags without which a file is not treated as geotagged. */
  predicate HasRequiredTags(tags: TagMap) {
    LatitudeTag in tags && LongitudeTag in tags && LatitudeRefTag in tags && LongitudeRefTag in tags
  }

  /** Every rational the per-image body reads is present and has a non-zero denominator. */
  predicate Decodable(tags: TagMap)
    requires HasRequiredTags(tags)
  {
    && HasRatios(tags[LatitudeTag], 3)
    && HasRatios(tags[LongitudeTag], 3)
    && (ImgDirectionTag in tags ==> HasRatios(tags[ImgDirectionTag], 1))
    && (AltitudeTag in tags ==> HasRatios(tags[AltitudeTag], 1))
  }

  /** The per-image body of the listing: no record for a file lacking a required tag, a fault
      for unreadable rationals (checked in the order the body reads them), and otherwise a record
      whose ground elevation is looked up at the corrected position. */
  function ScanFile(name: string, tags: TagMap, lookup: ElevationService): (r: Result<Option<ImageRecord>, Fault>)
    ensures !HasRequiredTags(tags) ==> r == Success(None)
    ensures HasRequiredTags(tags) ==> (r.Success? <==> Decodable(tags))
    ensures r.Success? ==> (r.value.Some? <==> HasRequiredTags(tags))
    ensures r.Success? && r.value.Some? ==>
      var rec := r.value.value;
      && rec.filename == name
      && rec.lat + LatitudeOffset == ConvertToDegrees(tags[LatitudeTag], tags[LatitudeRefTag])
      && rec.lon + LongitudeOffset == ConvertToDegrees(tags[LongitudeTag], tags[LongitudeRefTag])
      && (rec.yaw.Unknown? <==> ImgDirectionTag !in tags)
      && (rec.yaw.Degrees? ==> rec.yaw.deg == FirstRatio(tags[ImgDirectionTag]))
      && (rec.mslAlt.None? <==> AltitudeTag !in tags)
      && (rec.mslAlt.Some? ==> rec.mslAlt.value == FirstRatio(tags[AltitudeTag]))
      && (rec.agl, rec.aglFeet) == Agl(rec.mslAlt, GroundElevation(lookup(rec.lat, rec.lon)))
  {
    if !HasRequiredTags(tags) then Success(None)
    else if !HasRatios(tags[LatitudeTag], 3) then Failure(Malformed(LatitudeTag))
    else if !HasRatios(tags[LongitudeTag], 3) then Failure(Malformed(LongitudeTag))
    else if ImgDirectionTag in tags && !HasRatios(tags[ImgDirectionTag], 1) then Failure(Malformed(ImgDirectionTag))
    else if AltitudeTag in tags && !HasRatios(tags[AltitudeTag], 1) then Failure(Malformed(AltitudeTag))
    else
      var lat := ConvertToDegrees(tags[LatitudeTag], tags[LatitudeRefTag]) - LatitudeOffset;
      var lon := ConvertToDegrees(tags[LongitudeTag], tags[LongitudeRefTag]) - LongitudeOffset;
      var yaw := if ImgDirectionTag in tags then Degrees(FirstRatio(tags[ImgDirectionTag])) else Unknown;
      var msl := if AltitudeTag in tags then Some(FirstRatio(tags[AltitudeTag])) else None;
      var ground := GroundElevation(lookup(lat, lon));
      var (agl, aglFeet) := Agl(msl, ground);
      Success(Some(ImageRecord(name, lat, lon, yaw, msl, agl, aglFeet)))
  }

  /** The listing only opens files whose lower-cased name ends in ".jpg". */
  predicate IsScannedName(name: string) {
    EndsWith(Lower(name), ".jpg")
  }

  /** The files that yield a record: scanned names carrying all required tags, in listing order. */
  function Geotagged(files: seq<ImageFile>): seq<ImageFile> {
    if |files| == 0 then []
    else if IsScannedName(files[0].name) && HasRequiredTags(files[0].tags) then [files[0]] + Geotagged(files[1..])
    else Geotagged(files[1..])
  }

  /** No scanned file would raise while being processed. */
  predicate AllDecodable(files: seq<ImageFile>) {
    forall k :: 0 <= k < |files| && IsScannedName(files[k].name) && HasRequiredTags(files[k].tags) ==>
      Decodable(files[k].tags)
  }

  /** The image listing over the walked files: one record per geotagged ".jpg" file, in order;
      the first malformed rational aborts the whole listing. */
  function ScanAll(files: seq<ImageFile>, lookup: ElevationService): (r: Result<seq<ImageRecord>, Fault>)
    ensures r.Success? <==> AllDecodable(files)
    ensures r.Success? ==>
      var g := Geotagged(files);
      && |r.value| == |g|
      && forall k :: 0 <= k < |g| ==> ScanFile(g[k].name, g[k].tags, lookup) == Success(Some(r.value[k]))
  {
    if |files| == 0 then Success([])
    else
      var f := files[0];
      var rest := ScanAll(files[1..], lookup);
      AllDecodableCons(files);
      if !IsScannedName(f.name) then rest
      else
        match ScanFile(f.name, f.tags, lookup)
        case Failure(e) => Failure(e)
        case Success(None) => rest
        case Success(Some(rec)) =>
          if rest.Failure? then rest
          else
            var g := Geotagged(files);
            var recs := [rec] + rest.value;
            assert forall k :: 1 <= k < |g| ==> g[k] == Geotagged(files[1..])[k - 1] && recs[k] == rest.value[k - 1];
            Success(recs)
  }

  /** The listing condition for a non-empty walk: the first file, then the rest. */
  lemma AllDecodableCons(files: seq<ImageFile>)
    requires |files| > 0
    ensures AllDecodable(files) <==>
      (IsScannedName(files[0].name) && HasRequiredTags(files[0].tags) ==> Decodable(files[0].tags))
      && AllDecodable(files[1..])
  {
    assert forall k :: 0 <= k < |files[1..]| ==> files[1..][k] == files[k + 1];
  }

  /** Tags of a geotagged sample image at latitude d°30' N, longitude 77°30' W, 100 m MSL. */
  function SampleTags(d: int): TagMap {
    map[
      LatitudeTag := Ratios([Rational(d, 1), Rational(30, 1), Rational(0, 1)]),
      LatitudeRefTag := Ascii("N"),
      LongitudeTag := Ratios([Rational(77, 1), Rational(30, 1), Rational(0, 1)]),
      LongitudeRefTag := Ascii("W"),
      AltitudeTag := Ratios([Rational(100, 1)])]
  }

  /** A sample elevation service: ground at 90 m south of 41° N, a timeout elsewhere. */
  function SampleLookup(lat: real, lon: real): ElevationResponse {
    if lat < 41.0 then Results([90.0]) else Timeout
  }

  /** The sample tags carry every required tag and decode to latitude d + 0.5 and 100 m MSL. */
  lemma SampleTagsDecode(d: int)
    ensures HasRequiredTags(SampleTags(d)) && Decodable(SampleTags(d))
    ensures ConvertToDegrees(SampleTags(d)[LatitudeTag], SampleTags(d)[LatitudeRefTag]) == d as real + 0.5
    ensures ImgDirectionTag !in SampleTags(d) && AltitudeTag in SampleTags(d)
    ensures FirstRatio(SampleTags(d)[AltitudeTag]) == 100.0
  {
    assert LatitudeTag != AltitudeTag by { assert LatitudeTag[7] != AltitudeTag[7]; }
    assert ImgDirectionTag != AltitudeTag by { assert ImgDirectionTag[7] != AltitudeTag[7]; }
    assert ImgDirectionTag != LatitudeTag by { assert ImgDirectionTag[7] != LatitudeTag[7]; }
  }

  /** A sample image's record: its name, the corrected latitude, 100 m MSL, and an AGL of 10 m
      south of 41° N, where the sample service answers 90 m, and "undefined" elsewhere. */
  lemma SampleRecord(d: int, name: string, rec: ImageRecord)
    requires ScanFile(name, SampleTags(d), SampleLookup) == Success(Some(rec))
    ensures rec.filename == name && rec.mslAlt == Some(100.0)
    ensures d <= 40 ==> rec.agl == Value(10.0)
    ensures d >= 41 ==> rec.agl == Undefined && rec.aglFeet == Undefined
  {
    SampleTagsDecode(d);
    assert rec.lat == d as real + 0.5 - LatitudeOffset;
    if d <= 40 {
      assert GroundElevation(SampleLookup(rec.lat, rec.lon)) == Some(90.0);
    } else {
      assert GroundElevation(SampleLookup(rec.lat, rec.lon)) == None;
    }
  }

  /** The three files of the scenario below. */
  function ScenarioFiles(): seq<ImageFile> {
    [ImageFile("a.jpg", SampleTags(40)), ImageFile("b.JPG", SampleTags(41)), ImageFile("c.jpg", map[])]
  }

  lemma ScenarioNames()
    ensures IsScannedName("a.jpg") && IsScannedName("b.JPG")
  {
    assert Lower("a.jpg")[1..] == ".jpg";
    assert Lower("b.JPG")[1..] == ".jpg";
  }

  lemma ScenarioListing()
    ensures Geotagged(ScenarioFiles()) == ScenarioFiles()[..2]
    ensures AllDecodable(ScenarioFiles())
  {
    var files := ScenarioFiles();
    SampleTagsDecode(40);
    SampleTagsDecode(41);
    ScenarioNames();
    assert !HasRequiredTags(files[2].tags);
    assert Geotagged(files) == files[..2] by {
      assert files[1..][1..] == [files[2]];
      assert Geotagged([files[2]]) == [];
      assert Geotagged(files[1..]) == [files[1]];
    }
  }

  /** Three images: one geotagged whose lookup succeeds, one geotagged whose lookup times out,
      one without GPS tags. The listing holds two records, numeric AGL then "undefined". */
  lemma ThreeImageScenario()
    ensures
      var r := ScanAll(ScenarioFiles(), SampleLookup);
      && r.Success? && |r.value| == 2
      && r.value[0].filename == "a.jpg" && r.value[0].agl == Value(10.0)
      && r.value[1].filename == "b.JPG" && r.value[1].agl == Undefined && r.value[1].aglFeet == Undefined
  {
    var files := ScenarioFiles();
    ScenarioListing();
    var r := ScanAll(files, SampleLookup);
    assert Geotagged(files)[0] == ImageFile("a.jpg", SampleTags(40));
    assert Geotagged(files)[1] == ImageFile("b.JPG", SampleTags(41));
    SampleRecord(40, "a.jpg", r.value[0]);
    SampleRecord(41, "b.JPG", r.value[1]);
  }

  /** Python's allowed_file: the name has a '.' and the lower-cased text after the last '.'
      is "jpg" or "jpeg". */
  function AllowedFile(name: string): (b: bool)
    ensures b ==> '.' in name && (EndsWith(Lower(name), ".jpg") || EndsWith(Lower(name), ".jpeg"))
  {
    match LastIndexOf(name, '.')
    case None => false
    case Some(i) => AllowedAfter(name, i)
  }

  /** The test allowed_file applies to the text after the '.' at i. */
  function AllowedAfter(name: string, i: nat): (b: bool)
    requires i < |name| && name[i] == '.'
    ensures b ==> EndsWith(Lower(name), ".jpg") || EndsWith(Lower(name), ".jpeg")
  {
    var ext := Lower(name[i + 1..]);
    LowerAfterDot(name, i);
    SuffixExtension(Lower(name), ext);
    ext == "jpg" || ext == "jpeg"
  }

  /** A text ending in '.' and an extension ends in ".jpg" or ".jpeg" when that extension is. */
  lemma SuffixExtension(s: string, ext: string)
    requires EndsWith(s, "." + ext)
    ensures ext == "jpg" ==> EndsWith(s, ".jpg")
    ensures ext == "jpeg" ==> EndsWith(s, ".jpeg")
  {
  }

  /** The lower-cased name ends with the '.' at i and the lower-cased text after it. */
  lemma LowerAfterDot(name: string, i: nat)
    requires i < |name| && name[i] == '.'
    ensures EndsWith(Lower(name), "." + Lower(name[i + 1..]))
  {
    var head, ext := name[..i], name[i + 1..];
    assert name == head + ("." + ext);
    LowerAppend(head, "." + ext);
    LowerAppend(".", ext);
    assert Lower(".") == ".";
    assert Lower(name)[|head|..] == "." + Lower(ext);
  }

  /** The extension allowed_file inspects is whatever follows the final '.', however the
      stem is spelled: a name stem.ext with a dot-free ext is allowed exactly when ext is. */
  lemma AllowedFileByExtension(stem: string, ext: string)
    requires '.' !in ext
    ensures AllowedFile(stem + "." + ext) <==> Lower(ext) in {"jpg", "jpeg"}
  {
    var name := stem + "." + ext;
    LastIndexOfAfterStem(stem, ext, '.');
    assert name[|stem| + 1..] == ext;
  }

  /** A name without any '.' is never allowed. */
  lemma NoDotNotAllowed(name: string)
    requires '.' !in name
    ensures !AllowedFile(name)
  {
  }

  /** Every name the listing scans would also be accepted by allowed_file; the converse fails
      for ".jpeg" names, which can be uploaded but are never scanned. */
  lemma ScannedNamesAreAllowed(name: string)
    requires IsScannedName(name)
    ensures AllowedFile(name)
  {
    var n := |name|;
    var stem, ext := name[..n - 4], name[n - 3..];
    assert Lower(name)[n - 4..] == ".jpg";
    assert name[n - 4] == '.' by { assert Lower(name)[n - 4] == LowerChar(name[n - 4]); }
    assert Lower(ext) == "jpg" by {
      assert forall k :: 0 <= k < 3 ==> Lower(ext)[k] == Lower(name)[n - 3 + k];
    }
    assert '.' !in ext by {
      assert forall k :: 0 <= k < 3 ==> LowerChar(ext[k]) == "jpg"[k];
    }
    assert name == stem + "." + ext;
    AllowedFileByExtension(stem, ext);
  }

  /** Any name ending in ".jpeg" is allowed for upload but never scanned. */
  lemma JpegAllowedButNotScanned(stem: string)
    ensures AllowedFile(stem + ".jpeg") && !IsScannedName(stem + ".jpeg")
  {
    JpegAllowed(stem);
    JpegNotScanned(stem);
  }

  lemma JpegAllowed(stem: string)
    ensures AllowedFile(stem + ".jpeg")
  {
    assert stem + "." + "jpeg" == stem + ".jpeg";
    assert Lower("jpeg") == "jpeg" by {
      assert forall k :: 0 <= k < 4 ==> "jpeg"[k] == LowerChar("jpeg"[k]);
    }
    AllowedFileByExtension(stem, "jpeg");
  }

  lemma JpegNotScanned(stem: string)
    ensures !IsScannedName(stem + ".jpeg")
  {
    var name := stem + ".jpeg";
    var n := |name|;
    assert name[n - 4] == 'j';
    assert Lower(name)[n - 4] == 'j';
    assert Lower(name)[n - 4..][0] != ".jpg"[0];
  }
}
