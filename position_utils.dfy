/**
 * Geographic position helpers (src/util/PositionUtils.js): the bounding box and
 * centre of a set of samples, and degrees-minutes-seconds notation.
 *
 * Coordinates are modelled as mathematical reals, not IEEE-754 doubles: every
 * statement below is about exact arithmetic, with `Math.trunc` of a non-negative
 * number as `Floor` and `Math.round(x)` as `Floor(x + 0.5)`.
 */
module PositionUtils {
  import opened Wrappers
  import Decimal

  /** A geographic sample; either coordinate may be missing. */
  datatype Sample = Sample(latitude: Option<real>, longitude: Option<real>)

  /** `value.latitude || 0`: a missing coordinate reads as 0. */
  function OrZero(c: Option<real>): (r: real)
    ensures c.None? ==> r == 0.0
    ensures c.Some? ==> r == c.value
  {
    c.GetOr(0.0)
  }

  function Latitude(s: Sample): real {
    OrZero(s.latitude)
  }

  function Longitude(s: Sample): real {
    OrZero(s.longitude)
  }

  /** `calcBounds`' result `[[minLongitude, minLatitude], [maxLongitude, maxLatitude]]`. */
  datatype Bounds = Bounds(minLongitude: real, minLatitude: real, maxLongitude: real, maxLatitude: real)

  /** The bounds reported when there are no samples: the whole earth. */
  const FullEarth := Bounds(-180.0, -90.0, 180.0, 90.0)

  /** `Math.min` and `Math.max` (NaN is not modelled). */
  function Min(a: real, b: real): real { if a <= b then a else b }
  function Max(a: real, b: real): real { if a >= b then a else b }

  /** Every sample lies inside the box. */
  ghost predicate Encloses(b: Bounds, values: seq<Sample>) {
    forall i :: 0 <= i < |values| ==>
      && b.minLongitude <= Longitude(values[i]) <= b.maxLongitude
      && b.minLatitude <= Latitude(values[i]) <= b.maxLatitude
  }

  /** Every side of the box touches some sample. */
  ghost predicate Attained(b: Bounds, values: seq<Sample>) {
    && (exists i :: 0 <= i < |values| && Longitude(values[i]) == b.minLongitude)
    && (exists i :: 0 <= i < |values| && Latitude(values[i]) == b.minLatitude)
    && (exists i :: 0 <= i < |values| && Longitude(values[i]) == b.maxLongitude)
    && (exists i :: 0 <= i < |values| && Latitude(values[i]) == b.maxLatitude)
  }

  /**
   * `calcBounds`: the full earth for no samples; otherwise the smallest box holding
   * every sample's (longitude, latitude), a missing coordinate counting as 0.
   */
  method CalcBounds(values: seq<Sample>) returns (b: Bounds)
    ensures |values| == 0 ==> b == FullEarth
    ensures |values| > 0 ==> Encloses(b, values) && Attained(b, values)
  {
    var minLatitude, maxLatitude, minLongitude, maxLongitude := -90.0, 90.0, -180.0, 180.0;
    var firstTime := true;
    // Ghost witnesses: the sample that attains each bound so far.
    ghost var atMinLat, atMaxLat, atMinLon, atMaxLon := 0, 0, 0, 0;
    for i := 0 to |values|
      invariant firstTime <==> i == 0
      invariant i == 0 ==> Bounds(minLongitude, minLatitude, maxLongitude, maxLatitude) == FullEarth
      invariant forall j :: 0 <= j < i ==>
        && minLongitude <= Longitude(values[j]) <= maxLongitude
        && minLatitude <= Latitude(values[j]) <= maxLatitude
      invariant i > 0 ==> atMinLat < i && Latitude(values[atMinLat]) == minLatitude
      invariant i > 0 ==> atMaxLat < i && Latitude(values[atMaxLat]) == maxLatitude
      invariant i > 0 ==> atMinLon < i && Longitude(values[atMinLon]) == minLongitude
      invariant i > 0 ==> atMaxLon < i && Longitude(values[atMaxLon]) == maxLongitude
    {
      if firstTime {
        minLatitude := Latitude(values[i]);
        minLongitude := Longitude(values[i]);
        maxLatitude := minLatitude;
        maxLongitude := minLongitude;
        firstTime := false;
        atMinLat, atMaxLat, atMinLon, atMaxLon := i, i, i, i;
      } else {
        var latitude := Latitude(values[i]);
        var longitude := Longitude(values[i]);
        if latitude < minLatitude { atMinLat := i; }
        if latitude > maxLatitude { atMaxLat := i; }
        if longitude < minLongitude { atMinLon := i; }
        if longitude > maxLongitude { atMaxLon := i; }
        minLatitude := Min(latitude, minLatitude);
        maxLatitude := Max(latitude, maxLatitude);
        minLongitude := Min(longitude, minLongitude);
        maxLongitude := Max(longitude, maxLongitude);
      }
    }
    b := Bounds(minLongitude, minLatitude, maxLongitude, maxLatitude);
  }

  /** The contract of `CalcBounds` determines its result: there is one tight box. */
  lemma TightBoxIsUnique(values: seq<Sample>, b1: Bounds, b2: Bounds)
    requires Encloses(b1, values) && Attained(b1, values)
    requires Encloses(b2, values) && Attained(b2, values)
    ensures b1 == b2
  {
  }

  /** `new Position(longitude, latitude)`. */
  datatype Position = Position(longitude: real, latitude: real)

  /**
   * `calcCenter`: (0, 0) for no samples, the sample itself for one sample. For two or
   * more samples the source takes the spherical mean with floating-point
   * trigonometry; that computation is the parameter `sphericalMean`.
   */
  function CalcCenter(values: seq<Sample>, sphericalMean: seq<Sample> -> Position): (p: Position)
    ensures |values| == 0 ==> p == Position(0.0, 0.0)
    ensures |values| == 1 ==> p == Position(Longitude(values[0]), Latitude(values[0]))
    ensures |values| >= 2 ==> p == sphericalMean(values)
  {
    if |values| == 0 then Position(0.0, 0.0)
    else if |values| == 1 then Position(values[0].longitude.GetOr(0.0), values[0].latitude.GetOr(0.0))
    else sphericalMean(values)
  }

  /** For a single sample, the bounding box collapses onto the centre. */
  lemma SingleSampleBoundsAtCenter(s: Sample, b: Bounds, sphericalMean: seq<Sample> -> Position)
    requires Encloses(b, [s]) && Attained(b, [s])
    ensures var c := CalcCenter([s], sphericalMean);
      b == Bounds(c.longitude, c.latitude, c.longitude, c.latitude)
  {
    assert [s][0] == s;
  }

  function Abs(x: real): real {
    if x < 0.0 then -x else x
  }

  /** `Math.round`: to the nearest integer, halves upwards. */
  function Round(x: real): int {
    (x + 0.5).Floor
  }

  /** An angle as whole degrees, minutes and seconds. */
  datatype Dms = Dms(degrees: nat, minutes: nat, seconds: nat)

  function ArcSeconds(d: Dms): nat {
    d.degrees * 3600 + d.minutes * 60 + d.seconds
  }

  /**
   * The three fields of `toDegreesMinutesSeconds` before the carries: minutes below
   * 60, seconds up to 60, together the angle rounded to the nearest arc-second.
   */
  function Truncated(orig: real): (d: Dms)
    ensures d.minutes < 60 && d.seconds <= 60
    ensures ArcSeconds(d) == Round(Abs(orig) * 3600.0)
  {
    var absOrig := Abs(orig);
    var degrees := absOrig.Floor;
    var minutesFraction := absOrig - degrees as real;
    var minutes := (minutesFraction * 60.0).Floor;
    var secondsFraction := minutesFraction * 60.0 - minutes as real;
    var seconds := Round(secondsFraction * 60.0);
    assert absOrig * 3600.0 + 0.5 == (degrees * 3600 + minutes * 60) as real + (secondsFraction * 60.0 + 0.5);
    Dms(degrees, minutes, seconds)
  }

  /**
   * The carries: 60 seconds become a minute, then 60 minutes a degree. Afterwards
   * both minutes and seconds are below 60 and the angle is unchanged.
   */
  function Carry(d: Dms): (r: Dms)
    requires d.minutes < 60 && d.seconds <= 60
    ensures r.minutes < 60 && r.seconds < 60
    ensures ArcSeconds(r) == ArcSeconds(d)
    ensures d.seconds < 60 ==> r == d
  {
    var minutes := if d.seconds == 60 then d.minutes + 1 else d.minutes;
    var seconds := if d.seconds == 60 then 0 else d.seconds;
    if minutes == 60 then Dms(d.degrees + 1, 0, seconds) else Dms(d.degrees, minutes, seconds)
  }

  /** The degrees, minutes and seconds `toDegreesMinutesSeconds` prints. */
  function DegreesMinutesSeconds(orig: real): (d: Dms)
    ensures d.minutes < 60 && d.seconds < 60
    ensures ArcSeconds(d) == Round(Abs(orig) * 3600.0)
  {
    Carry(Truncated(orig))
  }

  /** Whole degrees, minutes and seconds are a mixed-radix numeral: they are unique. */
  lemma MixedRadix(d: Dms)
    requires d.minutes < 60 && d.seconds < 60
    ensures d == Dms(ArcSeconds(d) / 3600, ArcSeconds(d) % 3600 / 60, ArcSeconds(d) % 60)
  {
    var t := ArcSeconds(d);
    var below := d.minutes * 60 + d.seconds;
    DivMod(t, 3600, d.degrees, below);
    DivMod(below, 60, d.minutes, d.seconds);
    assert t == (d.degrees * 60 + d.minutes) * 60 + d.seconds;
    DivMod(t, 60, d.degrees * 60 + d.minutes, d.seconds);
  }

  /** Euclidean division is determined by its quotient-remainder equation. */
  lemma DivMod(t: int, m: int, q: int, r: int)
    requires m > 0 && 0 <= r < m && t == q * m + r
    ensures t / m == q && t % m == r
  {
    var q', r' := t / m, t % m;
    assert q * m - q' * m == r' - r;
    if q > q' {
      assert (q - q') * m == q * m - q' * m;
      AtLeastOnce(q - q', m);
    } else if q < q' {
      assert (q' - q) * m == q' * m - q * m;
      AtLeastOnce(q' - q, m);
    }
  }

  lemma {:induction false} AtLeastOnce(k: int, m: int)
    requires k >= 1 && m > 0
    ensures k * m >= m
    decreases k
  {
    if k > 1 {
      AtLeastOnce(k - 1, m);
      assert k * m == (k - 1) * m + m;
    }
  }

  /**
   * The printed fields are the absolute value of the angle rounded to the nearest
   * arc-second and split into degrees, minutes and seconds.
   */
  lemma DmsIsRoundedAngle(orig: real)
    ensures var t := Round(Abs(orig) * 3600.0);
      t >= 0 && DegreesMinutesSeconds(orig) == Dms(t / 3600, t % 3600 / 60, t % 60)
  {
    MixedRadix(DegreesMinutesSeconds(orig));
  }

  /** Only the absolute value matters. */
  lemma DmsOfNegation(orig: real)
    ensures DegreesMinutesSeconds(-orig) == DegreesMinutesSeconds(orig)
  {
    assert Abs(-orig) == Abs(orig);
  }

  const DegreeSign: char := '\U{00B0}'
  const Prime: char := '\U{2032}'
  const DoublePrime: char := '\U{2033}'

  /** `${degrees}°${minutes}′${seconds}″`, or without the seconds part when they are 0. */
  function Format(d: Dms): (s: string)
    ensures var prefix := Decimal.NatToString(d.degrees) + [DegreeSign];
      |s| > |prefix| && s[..|prefix|] == prefix
    ensures s[|s| - 1] == if d.seconds > 0 then DoublePrime else Prime
  {
    Decimal.NatToString(d.degrees) + [DegreeSign] + Decimal.NatToString(d.minutes) + [Prime]
      + (if d.seconds > 0 then Decimal.NatToString(d.seconds) + [DoublePrime] else "")
  }

  /** `toDegreesMinutesSeconds`. */
  function ToDegreesMinutesSeconds(orig: real): (s: string)
    ensures s == Format(DegreesMinutesSeconds(orig))
  {
    Format(DegreesMinutesSeconds(orig))
  }

  /** `toDegreesMinutesSeconds(x) == toDegreesMinutesSeconds(-x)`. */
  lemma ToDmsOfNegation(orig: real)
    ensures ToDegreesMinutesSeconds(-orig) == ToDegreesMinutesSeconds(orig)
  {
    DmsOfNegation(orig);
  }

  /** The position of the first `c` in `s`, or `|s|` when there is none. */
  function Find(s: string, c: char): (r: nat)
    ensures r <= |s| && c !in s[..r]
    ensures r < |s| ==> s[r] == c
  {
    if |s| == 0 then 0
    else if s[0] == c then 0
    else
      var r := Find(s[1..], c);
      assert s[..r + 1] == [s[0]] + s[1..][..r];
      r + 1
  }

  /** Reads back the seconds part of what `Format` prints: nothing, or digits and ″. */
  function ParseSeconds(tail: string): Option<nat> {
    if tail == "" then Some(0)
    else if tail[|tail| - 1] != DoublePrime then None
    else Decimal.ParseNat(tail[..|tail| - 1])
  }

  /** Reads back what `Format` prints. */
  function ParseDms(s: string): Option<Dms> {
    var i := Find(s, DegreeSign);
    if i == |s| then None
    else
      var rest := s[i + 1..];
      var j := Find(rest, Prime);
      if j == |rest| then None
      else
        match (Decimal.ParseNat(s[..i]), Decimal.ParseNat(rest[..j]), ParseSeconds(rest[j + 1..]))
        case (Some(degrees), Some(minutes), Some(seconds)) => Some(Dms(degrees, minutes, seconds))
        case _ => None
  }

  /** `Find` stops at the first occurrence. */
  lemma FindAfter(prefix: string, c: char, rest: string)
    requires c !in prefix
    ensures Find(prefix + [c] + rest, c) == |prefix|
  {
    var s := prefix + [c] + rest;
    assert s[|prefix|] == c;
    assert s[..|prefix|] == prefix;
  }

  /** Splitting `prefix` `c` `rest` at the first `c` gives back both parts. */
  lemma SplitAfter(prefix: string, c: char, rest: string)
    requires c !in prefix
    ensures var s := prefix + [c] + rest;
      Find(s, c) == |prefix| && s[..|prefix|] == prefix && s[|prefix| + 1..] == rest
  {
    FindAfter(prefix, c, rest);
    var s := prefix + [c] + rest;
    assert s[..|prefix|] == prefix;
    assert s[|prefix| + 1..] == rest;
  }

  lemma ParseSecondsOf(n: nat)
    ensures ParseSeconds(if n > 0 then Decimal.NatToString(n) + [DoublePrime] else "") == Some(n)
  {
    if n > 0 {
      var tail := Decimal.NatToString(n) + [DoublePrime];
      assert tail[..|tail| - 1] == Decimal.NatToString(n);
      Decimal.ParseNatToString(n);
    }
  }

  /** Splitting `digits` `c` `rest` at the first `c` gives back both parts. */
  lemma SplitAfterDigits(digits: string, c: char, rest: string)
    requires Decimal.AllDigits(digits) && !Decimal.IsDigit(c)
    ensures var s := digits + [c] + rest;
      Find(s, c) == |digits| && s[..|digits|] == digits && s[|digits| + 1..] == rest
  {
    SplitAfter(digits, c, rest);
  }

  /** `Format` loses nothing: reading its output back gives the same fields. */
  lemma ParseFormat(d: Dms)
    ensures ParseDms(Format(d)) == Some(d)
  {
    var tail := if d.seconds > 0 then Decimal.NatToString(d.seconds) + [DoublePrime] else "";
    var rest := Decimal.NatToString(d.minutes) + [Prime] + tail;
    assert Format(d) == Decimal.NatToString(d.degrees) + [DegreeSign] + rest;
    ParsePieces(d, rest, tail);
  }

  /** `ParseDms` on the three printed fields, each with its glyph. */
  lemma ParsePieces(d: Dms, rest: string, tail: string)
    requires tail == if d.seconds > 0 then Decimal.NatToString(d.seconds) + [DoublePrime] else ""
    requires rest == Decimal.NatToString(d.minutes) + [Prime] + tail
    ensures ParseDms(Decimal.NatToString(d.degrees) + [DegreeSign] + rest) == Some(d)
  {
    SplitAfterDigits(Decimal.NatToString(d.degrees), DegreeSign, rest);
    SplitAfterDigits(Decimal.NatToString(d.minutes), Prime, tail);
    Decimal.ParseNatToString(d.degrees);
    Decimal.ParseNatToString(d.minutes);
    ParseSecondsOf(d.seconds);
  }

  /** The seconds and the ″ glyph are printed exactly when the seconds are not 0. */
  lemma SecondsShownIffNonZero(orig: real)
    ensures var s := ToDegreesMinutesSeconds(orig);
      && |s| > 0
      && (DoublePrime in s <==> DegreesMinutesSeconds(orig).seconds > 0)
      && s[|s| - 1] == (if DegreesMinutesSeconds(orig).seconds > 0 then DoublePrime else Prime)
  {
    var d := DegreesMinutesSeconds(orig);
    var deg := Decimal.NatToString(d.degrees);
    var min := Decimal.NatToString(d.minutes);
    var s := ToDegreesMinutesSeconds(orig);
    if d.seconds > 0 {
      assert s[|s| - 1] == DoublePrime;
    } else {
      assert s == deg + [DegreeSign] + min + [Prime];
      forall k | 0 <= k < |s| ensures s[k] != DoublePrime {
        if k < |deg| { assert s[k] == deg[k]; }
        else if |deg| < k < |deg| + 1 + |min| { assert s[k] == min[k - |deg| - 1]; }
      }
    }
  }

  /** The hemisphere letter: the positive letter, the negative one, or none for 0. */
  function Hemisphere(v: real, positive: char, negative: char): (h: string)
    ensures h == "" <==> v == 0.0
    ensures v > 0.0 ==> h == [positive]
    ensures v < 0.0 ==> h == [negative]
  {
    if v > 0.0 then [positive] else if v < 0.0 then [negative] else ""
  }

  /** `latLongString`: "{latitude}{N|S|} {longitude}{E|W|}". */
  function LatLongString(latitude: real, longitude: real): (s: string)
    ensures var lat := ToDegreesMinutesSeconds(latitude) + Hemisphere(latitude, 'N', 'S');
      var lon := ToDegreesMinutesSeconds(longitude) + Hemisphere(longitude, 'E', 'W');
      && s == lat + [' '] + lon
      && ' ' !in lat && ' ' !in lon
  {
    FormatHasNoSpace(DegreesMinutesSeconds(latitude));
    FormatHasNoSpace(DegreesMinutesSeconds(longitude));
    ToDegreesMinutesSeconds(latitude) + Hemisphere(latitude, 'N', 'S') + " "
      + ToDegreesMinutesSeconds(longitude) + Hemisphere(longitude, 'E', 'W')
  }

  function Sign(v: real): int {
    if v > 0.0 then 1 else if v < 0.0 then -1 else 0
  }

  /** One coordinate as printed: its degrees-minutes-seconds and its hemisphere sign. */
  datatype Coordinate = Coordinate(dms: Dms, sign: int)

  /** Reads back one half of `latLongString`. */
  function ParseCoordinate(s: string, positive: char, negative: char): Option<Coordinate> {
    if |s| == 0 then None
    else
      var last := s[|s| - 1];
      var sign := if last == positive then 1 else if last == negative then -1 else 0;
      var body := if sign == 0 then s else s[..|s| - 1];
      match ParseDms(body)
      case Some(d) => Some(Coordinate(d, sign))
      case None => None
  }

  /** Reads back `latLongString`: the two halves are separated by its only space. */
  function ParseLatLong(s: string): Option<(Coordinate, Coordinate)> {
    var i := Find(s, ' ');
    if i == |s| then None
    else
      match (ParseCoordinate(s[..i], 'N', 'S'), ParseCoordinate(s[i + 1..], 'E', 'W'))
      case (Some(lat), Some(lon)) => Some((lat, lon))
      case _ => None
  }

  lemma FormatHasNoSpace(d: Dms)
    ensures ' ' !in Format(d)
  {
    var s := Format(d);
    var deg := Decimal.NatToString(d.degrees);
    var min := Decimal.NatToString(d.minutes);
    var sec := Decimal.NatToString(d.seconds);
    forall k | 0 <= k < |s| ensures s[k] != ' ' {
      if k < |deg| { assert s[k] == deg[k]; }
      else if |deg| < k < |deg| + 1 + |min| { assert s[k] == min[k - |deg| - 1]; }
      else if |deg| + 1 + |min| < k < |s| - 1 && d.seconds > 0 { assert s[k] == sec[k - |deg| - |min| - 2]; }
    }
  }

  lemma ParseCoordinateOf(v: real, positive: char, negative: char)
    requires positive != negative
    requires positive !in [DegreeSign, Prime, DoublePrime] && negative !in [DegreeSign, Prime, DoublePrime]
    ensures ParseCoordinate(ToDegreesMinutesSeconds(v) + Hemisphere(v, positive, negative), positive, negative)
         == Some(Coordinate(DegreesMinutesSeconds(v), Sign(v)))
  {
    ParseSignedFormat(DegreesMinutesSeconds(v), Hemisphere(v, positive, negative), Sign(v), positive, negative);
  }

  /** A printed angle followed by a hemisphere letter, or none, reads back to both. */
  lemma ParseSignedFormat(d: Dms, letter: string, sign: int, positive: char, negative: char)
    requires positive != negative
    requires positive !in [DegreeSign, Prime, DoublePrime] && negative !in [DegreeSign, Prime, DoublePrime]
    requires || (letter == "" && sign == 0)
             || (letter == [positive] && sign == 1)
             || (letter == [negative] && sign == -1)
    ensures ParseCoordinate(Format(d) + letter, positive, negative) == Some(Coordinate(d, sign))
  {
    var body := Format(d);
    var s := body + letter;
    ParseFormat(d);
    if letter != "" {
      assert s[..|s| - 1] == body;
    } else {
      assert s == body;
    }
  }

  /**
   * `latLongString` loses nothing: reading it back gives each coordinate's
   * degrees, minutes and seconds, and its sign from the hemisphere letter.
   */
  lemma ParseLatLongString(latitude: real, longitude: real)
    ensures ParseLatLong(LatLongString(latitude, longitude))
         == Some((Coordinate(DegreesMinutesSeconds(latitude), Sign(latitude)),
                  Coordinate(DegreesMinutesSeconds(longitude), Sign(longitude))))
  {
    var latPart := ToDegreesMinutesSeconds(latitude) + Hemisphere(latitude, 'N', 'S');
    var lonPart := ToDegreesMinutesSeconds(longitude) + Hemisphere(longitude, 'E', 'W');
    assert LatLongString(latitude, longitude) == latPart + [' '] + lonPart && ' ' !in latPart;
    ParseCoordinateOf(latitude, 'N', 'S');
    ParseCoordinateOf(longitude, 'E', 'W');
    ParseHalves(latPart, lonPart,
      Coordinate(DegreesMinutesSeconds(latitude), Sign(latitude)),
      Coordinate(DegreesMinutesSeconds(longitude), Sign(longitude)));
  }

  /** Two halves that read back, joined by a space the first lacks, read back as a pair. */
  lemma ParseHalves(latPart: string, lonPart: string, lat: Coordinate, lon: Coordinate)
    requires ' ' !in latPart
    requires ParseCoordinate(latPart, 'N', 'S') == Some(lat)
    requires ParseCoordinate(lonPart, 'E', 'W') == Some(lon)
    ensures ParseLatLong(latPart + [' '] + lonPart) == Some((lat, lon))
  {
    SplitAfter(latPart, ' ', lonPart);
  }

  /** An angle prints as `s` when its rounded arc-seconds `t` do. */
  lemma PrintsAs(orig: real, t: nat, s: string)
    requires Round(Abs(orig) * 3600.0) == t
    requires Format(Dms(t / 3600, t % 3600 / 60, t % 60)) == s
    ensures ToDegreesMinutesSeconds(orig) == s
  {
    DmsIsRoundedAngle(orig);
  }

  /** 39.9167: 55.002 minutes, 0.12 seconds, printed without seconds. */
  lemma ExampleWithoutSeconds()
    ensures ToDegreesMinutesSeconds(39.9167) == "39\U{00B0}55\U{2032}"
  {
    assert Decimal.NatToString(39) == "39" && Decimal.NatToString(55) == "55";
    PrintsAs(39.9167, 143700, "39\U{00B0}55\U{2032}");
  }

  /** 0.99999: 59.964 seconds round to 60, which carries twice, into a whole degree. */
  lemma ExampleDoubleCarry()
    ensures Truncated(0.99999) == Dms(0, 59, 60)
    ensures ToDegreesMinutesSeconds(0.99999) == "1\U{00B0}0\U{2032}"
  {
  }

  /** 18.9753 is 68311.08 arc-seconds, 18°58′31″. */
  lemma ExampleLatitude()
    ensures ToDegreesMinutesSeconds(18.9753) == "18\U{00B0}58\U{2032}31\U{2033}"
  {
    assert Decimal.NatToString(18) == "18" && Decimal.NatToString(58) == "58" && Decimal.NatToString(31) == "31";
    PrintsAs(18.9753, 68311, "18\U{00B0}58\U{2032}31\U{2033}");
  }

  /** 72.8258 is 262172.88 arc-seconds, 72°49′33″. */
  lemma ExampleLongitude()
    ensures ToDegreesMinutesSeconds(72.8258) == "72\U{00B0}49\U{2032}33\U{2033}"
  {
    assert Decimal.NatToString(72) == "72" && Decimal.NatToString(49) == "49" && Decimal.NatToString(33) == "33";
    PrintsAs(72.8258, 262173, "72\U{00B0}49\U{2032}33\U{2033}");
  }

  /** The longitude and latitude of the two single-coordinate examples above, joined. */
  lemma ExampleLatLong()
    ensures LatLongString(18.9753, 72.8258) == "18\U{00B0}58\U{2032}31\U{2033}N 72\U{00B0}49\U{2032}33\U{2033}E"
  {
    var lat, lon := "18\U{00B0}58\U{2032}31\U{2033}N", "72\U{00B0}49\U{2032}33\U{2033}E";
    ExampleLatitude();
    ExampleLongitude();
    assert ToDegreesMinutesSeconds(18.9753) + Hemisphere(18.9753, 'N', 'S') == lat;
    assert ToDegreesMinutesSeconds(72.8258) + Hemisphere(72.8258, 'E', 'W') == lon;
    assert lat + [' '] + lon == "18\U{00B0}58\U{2032}31\U{2033}N 72\U{00B0}49\U{2032}33\U{2033}E";
  }

  /** 18.975 is exactly 68310 arc-seconds, 18°58′30″. */
  lemma ExampleDocumentedLatitude()
    ensures ToDegreesMinutesSeconds(18.975) == "18\U{00B0}58\U{2032}30\U{2033}"
  {
    assert Decimal.NatToString(18) == "18" && Decimal.NatToString(58) == "58" && Decimal.NatToString(30) == "30";
    PrintsAs(18.975, 68310, "18\U{00B0}58\U{2032}30\U{2033}");
  }

  /** 116.3833 is 418979.88 arc-seconds, which round to 116°23′ and no seconds. */
  lemma ExampleDocumentedLongitude()
    ensures ToDegreesMinutesSeconds(116.3833) == "116\U{00B0}23\U{2032}"
  {
    assert Decimal.NatToString(116) == "116" && Decimal.NatToString(23) == "23";
    PrintsAs(116.3833, 418980, "116\U{00B0}23\U{2032}");
  }

  /** The two forms the `latLongString` doc comment shows, with and without seconds. */
  lemma ExampleDocumentedLatLong()
    ensures LatLongString(18.975, 72.8258) == "18\U{00B0}58\U{2032}30\U{2033}N 72\U{00B0}49\U{2032}33\U{2033}E"
    ensures LatLongString(39.9167, 116.3833) == "39\U{00B0}55\U{2032}N 116\U{00B0}23\U{2032}E"
  {
    ExampleDocumentedLatitude();
    ExampleLongitude();
    ExampleWithoutSeconds();
    ExampleDocumentedLongitude();
    var lat, lon := "18\U{00B0}58\U{2032}30\U{2033}N", "72\U{00B0}49\U{2032}33\U{2033}E";
    assert ToDegreesMinutesSeconds(18.975) + Hemisphere(18.975, 'N', 'S') == lat;
    assert ToDegreesMinutesSeconds(72.8258) + Hemisphere(72.8258, 'E', 'W') == lon;
    assert lat + [' '] + lon == "18\U{00B0}58\U{2032}30\U{2033}N 72\U{00B0}49\U{2032}33\U{2033}E";
    var lat2, lon2 := "39\U{00B0}55\U{2032}N", "116\U{00B0}23\U{2032}E";
    assert ToDegreesMinutesSeconds(39.9167) + Hemisphere(39.9167, 'N', 'S') == lat2;
    assert ToDegreesMinutesSeconds(116.3833) + Hemisphere(116.3833, 'E', 'W') == lon2;
    assert lat2 + [' '] + lon2 == "39\U{00B0}55\U{2032}N 116\U{00B0}23\U{2032}E";
  }

  /** On the equator and the prime meridian there is no hemisphere letter. */
  lemma ExampleOrigin()
    ensures LatLongString(0.0, 0.0) == "0\U{00B0}0\U{2032} 0\U{00B0}0\U{2032}"
  {
  }
}
