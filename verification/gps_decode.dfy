/** convert_to_degrees and the tag reads of get_images: Exif GPS attribute values (section
    4.6.6 of the Exif standard, CIPA DC-008) turned into signed decimal degrees and scalar
    readings. */
module GpsDecode {

  /** An Exif RATIONAL, kept as its exact numerator and denominator. */
  datatype Rational = Rational(num: int, den: int)

  /** One tag's value as the Exif reader presents it: a list of rationals, or ASCII text
      (the hemisphere references "N", "S", "E", "W"). */
  datatype TagValue = Ratios(ratios: seq<Rational>) | Ascii(text: string)

  /** The reader's output for one image: tag identifier to value; an absent key is an absent tag. */
  type TagMap = map<string, TagValue>

  const LatitudeTag := "GPS GPSLatitude"
  const LongitudeTag := "GPS GPSLongitude"
  const LatitudeRefTag := "GPS GPSLatitudeRef"
  const LongitudeRefTag := "GPS GPSLongitudeRef"
  const AltitudeTag := "GPS GPSAltitude"
  const ImgDirectionTag := "GPS GPSImgDirection"

  /** num / den as an exact real: the unique x with x * den == num. */
  function RatioValue(q: Rational): (x: real)
    requires q.den != 0
    ensures x * q.den as real == q.num as real
  {
    q.num as real / q.den as real
  }

  /** The tag holds at least n rationals and none of the first n has a zero denominator,
      so reading them raises nothing. */
  predicate HasRatios(v: TagValue, n: nat) {
    v.Ratios? && |v.ratios| >= n && forall k :: 0 <= k < n ==> v.ratios[k].den != 0
  }

  /** A hemisphere reference that makes the coordinate negative: exactly the text "S" or "W".
      Any other value, including a non-text value, leaves the sign alone. */
  predicate IsNegativeRef(ref: TagValue) {
    ref == Ascii("S") || ref == Ascii("W")
  }

  /** The arc of a degree/minute/second triple expressed in seconds of arc. */
  function ArcSeconds(v: TagValue): real
    requires HasRatios(v, 3)
  {
    RatioValue(v.ratios[0]) * 3600.0 + RatioValue(v.ratios[1]) * 60.0 + RatioValue(v.ratios[2])
  }

  /** Signed decimal degrees from a degree/minute/second triple and its hemisphere reference. */
  function ConvertToDegrees(value: TagValue, ref: TagValue): (deg: real)
    requires HasRatios(value, 3)
    ensures deg * 3600.0 == (if IsNegativeRef(ref) then -ArcSeconds(value) else ArcSeconds(value))
  {
    var d := RatioValue(value.ratios[0]);
    var m := RatioValue(value.ratios[1]);
    var s := RatioValue(value.ratios[2]);
    var result := d + m / 60.0 + s / 3600.0;
    if IsNegativeRef(ref) then -result else result
  }

  /** The first rational of a scalar tag (altitude, image direction) as a real. */
  function FirstRatio(v: TagValue): (x: real)
    requires HasRatios(v, 1)
    ensures x * v.ratios[0].den as real == v.ratios[0].num as real
  {
    RatioValue(v.ratios[0])
  }

  /** With non-negative components (as Exif writes them) and a non-zero arc, the decoded
      value is negative exactly for the southern and western references, and its magnitude
      is the arc whatever the reference. */
  lemma SignFollowsReference(value: TagValue, ref: TagValue)
    requires HasRatios(value, 3)
    requires forall k :: 0 <= k < 3 ==> RatioValue(value.ratios[k]) >= 0.0
    requires ArcSeconds(value) > 0.0
    ensures ConvertToDegrees(value, ref) < 0.0 <==> IsNegativeRef(ref)
    ensures ConvertToDegrees(value, ref) * 3600.0 == ArcSeconds(value)
         || ConvertToDegrees(value, ref) * 3600.0 == -ArcSeconds(value)
  {
  }

  /** 40/1 degrees, 30/1 minutes, 0/1 seconds north decode to 40.5. */
  lemma NorthernExample()
    ensures ConvertToDegrees(Ratios([Rational(40, 1), Rational(30, 1), Rational(0, 1)]), Ascii("N")) == 40.5
  {
  }

  /** The same triple with a southern reference decodes to -40.5. */
  lemma SouthernExample()
    ensures ConvertToDegrees(Ratios([Rational(40, 1), Rational(30, 1), Rational(0, 1)]), Ascii("S")) == -40.5
  {
  }
}
