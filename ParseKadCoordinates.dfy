/**
 * The ring-road path decoder: a Yandex Maps `rl` value
 * `lng,lat~dlng,dlat~dlng,dlat~...` holds one absolute point followed by
 * relative offsets. Decoding keeps a running longitude/latitude, skips every
 * malformed offset without touching it, and emits `[lat, lng]` points.
 *
 * `parseFloat` and `decodeURIComponent` are not modelled internally: they are
 * parameters, a `NumberParser` (None standing for NaN) and a `UriDecoder`
 * (None standing for a thrown `URIError`).
 */
module ParseKadCoordinates {
  import opened Wrappers
  import opened Geo
  import opened Strings
  import opened Numbers

  /** What `decodeURIComponent` makes of a string: the decoded text, or None when it throws. */
  type UriDecoder = string -> Option<string>

  /** One relative offset, in the order it is written: longitude first. */
  datatype Delta = Delta(dlng: real, dlat: real)

  /** The errors the decoder throws. */
  datatype DecodeError =
    | InvalidFirstPointFormat(segment: string)   // first segment is not two comma-separated fields
    | InvalidFirstPointValues(segment: string)   // a field of the first segment is NaN
    | RlParameterNotFound                        // `rl=` present but never followed by a value
    | MalformedUri(encoded: string)              // `decodeURIComponent` threw

  /** Why a `~`-segment is not a usable `x,y` pair. */
  datatype PairError = WrongFieldCount | NotANumber

  /** A `~`-segment read as `x,y`: exactly two comma-separated fields, neither NaN. */
  function ParsePair(segment: string, parse: NumberParser): Result<(real, real), PairError>
  {
    var fields := Split(segment, ',');
    if |fields| != 2 then Failure(WrongFieldCount)
    else
      var x, y := parse(fields[0]), parse(fields[1]);
      if x.None? || y.None? then Failure(NotANumber) else Success((x.value, y.value))
  }

  /** A segment that the loop uses rather than skips. */
  predicate WellFormed(segment: string, parse: NumberParser)
  {
    ParsePair(segment, parse).Success?
  }

  /** What one offset segment contributes: its offset when well-formed, nothing otherwise. */
  function SegmentDeltas(segment: string, parse: NumberParser): seq<Delta>
  {
    match ParsePair(segment, parse)
    case Success((x, y)) => [Delta(x, y)]
    case Failure(_) => []
  }

  /** The offsets of the well-formed segments of `segments`, in segment order. */
  function WellFormedDeltas(segments: seq<string>, parse: NumberParser): (ds: seq<Delta>)
    ensures |ds| <= |segments|
  {
    if segments == [] then []
    else SegmentDeltas(segments[0], parse) + WellFormedDeltas(segments[1..], parse)
  }

  /** Moves a point by one offset. */
  function Shift(p: Point, d: Delta): Point
  {
    Point(p.lat + d.dlat, p.lng + d.dlng)
  }

  /** Component-wise sum of offsets. */
  function SumDeltas(ds: seq<Delta>): Delta
  {
    if ds == [] then Delta(0.0, 0.0)
    else
      var rest := SumDeltas(ds[1..]);
      Delta(ds[0].dlng + rest.dlng, ds[0].dlat + rest.dlat)
  }

  /** The running accumulator after adding every offset of `ds` to `p`, one at a time. */
  function End(p: Point, ds: seq<Delta>): Point
    decreases ds
  {
    if ds == [] then p else End(Shift(p, ds[0]), ds[1..])
  }

  /** The points emitted while adding the offsets of `ds` to `p`, one per offset. */
  function Track(p: Point, ds: seq<Delta>): (t: seq<Point>)
    ensures |t| == |ds|
    decreases ds
  {
    if ds == [] then [] else [Shift(p, ds[0])] + Track(Shift(p, ds[0]), ds[1..])
  }

  /** The decoder's result on `rl`: the swapped first point, then one point per well-formed offset. */
  function Decode(rl: string, parse: NumberParser): Result<seq<Point>, DecodeError>
  {
    var parts := Split(rl, '~');
    match ParsePair(parts[0], parse)
    case Failure(WrongFieldCount) => Failure(InvalidFirstPointFormat(parts[0]))
    case Failure(NotANumber) => Failure(InvalidFirstPointValues(parts[0]))
    case Success((lng, lat)) =>
      var start := Point(lat, lng);
      Success([start] + Track(start, WellFormedDeltas(parts[1..], parse)))
  }

  /** `parseKADCoordinatesFromURL`: the loop over the `~`-segments with its running accumulator. */
  method ParseKadCoordinatesFromUrl(rlString: string, parse: NumberParser)
    returns (r: Result<seq<Point>, DecodeError>)
    ensures r == Decode(rlString, parse)
  {
    // `Split` never returns an empty sequence, so no emptiness check is needed here.
    var parts := Split(rlString, '~');
    var firstPoint := Split(parts[0], ',');
    if |firstPoint| != 2 {
      return Failure(InvalidFirstPointFormat(parts[0]));
    }
    var lng := parse(firstPoint[0]);
    var lat := parse(firstPoint[1]);
    if lng.None? || lat.None? {
      return Failure(InvalidFirstPointValues(parts[0]));
    }
    var currentLng, currentLat := lng.value, lat.value;
    ghost var start := Point(currentLat, currentLng);
    var coordinates := [Point(currentLat, currentLng)];
    for i := 1 to |parts|
      invariant coordinates == PointsBefore(parts, i, start, parse)
      invariant Point(currentLat, currentLng) == coordinates[|coordinates| - 1]
    {
      var delta := Split(parts[i], ',');
      if |delta| != 2 {
        continue;
      }
      var deltaLng := parse(delta[0]);
      var deltaLat := parse(delta[1]);
      if deltaLng.None? || deltaLat.None? {
        continue;
      }
      currentLng := currentLng + deltaLng.value;
      currentLat := currentLat + deltaLat.value;
      coordinates := coordinates + [Point(currentLat, currentLng)];
    }
    PointsBeforeAll(parts, start, parse);
    return Success(coordinates);
  }

  /**
   * The points the loop has emitted once it has handled the segments before `i`,
   * the first point included: one segment at a time, each well-formed one moving
   * the last point by its offset.
   */
  function PointsBefore(parts: seq<string>, i: nat, start: Point, parse: NumberParser): (pts: seq<Point>)
    requires i <= |parts|
    ensures |pts| >= 1
  {
    if i <= 1 then [start]
    else
      var prev := PointsBefore(parts, i - 1, start, parse);
      match ParsePair(parts[i - 1], parse)
      case Success((x, y)) => prev + [Shift(prev[|prev| - 1], Delta(x, y))]
      case Failure(_) => prev
  }

  /** Segment by segment, the loop's points are the path the decoder describes. */
  lemma {:induction false} PointsBeforeIsPath(parts: seq<string>, i: nat, start: Point, parse: NumberParser)
    requires 1 <= i <= |parts|
    ensures PointsBefore(parts, i, start, parse) == [start] + Track(start, WellFormedDeltas(parts[1..i], parse))
  {
    if i == 1 {
      assert parts[1..1] == [];
    } else {
      var prev := PointsBefore(parts, i - 1, start, parse);
      var ds := WellFormedDeltas(parts[1..i - 1], parse);
      assert prev == [start] + Track(start, ds) by {
        PointsBeforeIsPath(parts, i - 1, start, parse);
      }
      PathLast(start, ds);
      if WellFormed(parts[i - 1], parse) {
        var pair := ParsePair(parts[i - 1], parse).value;
        var d := Delta(pair.0, pair.1);
        assert WellFormedDeltas(parts[1..i], parse) == ds + [d] by {
          DeltasStep(parts, i - 1, parse);
        }
        assert PointsBefore(parts, i, start, parse) == prev + [Shift(prev[|prev| - 1], d)];
        PathSnoc(start, ds, d);
      } else {
        assert WellFormedDeltas(parts[1..i], parse) == ds by {
          DeltasStep(parts, i - 1, parse);
        }
      }
    }
  }

  /** The last point of a decoded path is where the accumulator ends. */
  lemma {:induction false} PathLast(p: Point, ds: seq<Delta>)
    ensures ([p] + Track(p, ds))[|ds|] == End(p, ds)
    decreases ds
  {
    if ds != [] {
      PathLast(Shift(p, ds[0]), ds[1..]);
      assert ([p] + Track(p, ds))[|ds|] == ([Shift(p, ds[0])] + Track(Shift(p, ds[0]), ds[1..]))[|ds| - 1];
    }
  }

  /** After the last segment, the loop's points are the decoded path. */
  lemma PointsBeforeAll(parts: seq<string>, start: Point, parse: NumberParser)
    requires 1 <= |parts|
    ensures PointsBefore(parts, |parts|, start, parse) == [start] + Track(start, WellFormedDeltas(parts[1..], parse))
  {
    PointsBeforeIsPath(parts, |parts|, start, parse);
    assert parts[1..|parts|] == parts[1..];
  }

  // ---------------------------------------------------------------------------
  // Properties of the offsets and of the accumulator

  /** Filtering well-formed segments distributes over concatenation: order follows segment order. */
  lemma {:induction false} WellFormedDeltasAppend(a: seq<string>, b: seq<string>, parse: NumberParser)
    ensures WellFormedDeltas(a + b, parse) == WellFormedDeltas(a, parse) + WellFormedDeltas(b, parse)
  {
    if a == [] {
      assert a + b == b;
    } else {
      assert (a + b)[1..] == a[1..] + b;
      WellFormedDeltasAppend(a[1..], b, parse);
    }
  }

  /** One more segment extends the offsets by what that segment contributes. */
  lemma DeltasStep(parts: seq<string>, i: nat, parse: NumberParser)
    requires 1 <= i < |parts|
    ensures WellFormed(parts[i], parse) ==>
              WellFormedDeltas(parts[1..i + 1], parse)
              == WellFormedDeltas(parts[1..i], parse) + [Delta(ParsePair(parts[i], parse).value.0, ParsePair(parts[i], parse).value.1)]
    ensures !WellFormed(parts[i], parse) ==>
              WellFormedDeltas(parts[1..i + 1], parse) == WellFormedDeltas(parts[1..i], parse)
  {
    assert parts[1..i + 1] == parts[1..i] + [parts[i]];
    WellFormedDeltasAppend(parts[1..i], [parts[i]], parse);
    WellFormedDeltasSingle(parts[i], parse);
  }

  /** A single segment contributes its offset when well-formed and nothing otherwise. */
  lemma WellFormedDeltasSingle(s: string, parse: NumberParser)
    ensures WellFormedDeltas([s], parse) == SegmentDeltas(s, parse)
    ensures WellFormed(s, parse) ==> SegmentDeltas(s, parse) == [Delta(ParsePair(s, parse).value.0, ParsePair(s, parse).value.1)]
    ensures !WellFormed(s, parse) ==> SegmentDeltas(s, parse) == []
  {
  }

  /** Adding one more offset appends one point and moves the accumulator by that offset. */
  lemma {:induction false} TrackSnoc(p: Point, ds: seq<Delta>, d: Delta)
    ensures Track(p, ds + [d]) == Track(p, ds) + [Shift(End(p, ds), d)]
    ensures End(p, ds + [d]) == Shift(End(p, ds), d)
    decreases ds
  {
    if ds != [] {
      assert (ds + [d])[1..] == ds[1..] + [d];
      TrackSnoc(Shift(p, ds[0]), ds[1..], d);
    }
  }

  /** The same step for a decoded path, whose first point precedes the track. */
  lemma PathSnoc(p: Point, ds: seq<Delta>, d: Delta)
    ensures [p] + Track(p, ds + [d]) == [p] + Track(p, ds) + [Shift(End(p, ds), d)]
    ensures End(p, ds + [d]) == Shift(End(p, ds), d)
  {
    TrackSnoc(p, ds, d);
    assert [p] + (Track(p, ds) + [Shift(End(p, ds), d)]) == ([p] + Track(p, ds)) + [Shift(End(p, ds), d)];
  }

  /** The accumulator after `ds` is the start point moved by the sum of `ds`. */
  lemma {:induction false} EndIsSum(p: Point, ds: seq<Delta>)
    ensures End(p, ds) == Shift(p, SumDeltas(ds))
    decreases ds
  {
    if ds != [] {
      EndIsSum(Shift(p, ds[0]), ds[1..]);
    }
  }

  /** The sum of a concatenation is the sum of the sums. */
  lemma {:induction false} SumDeltasAppend(a: seq<Delta>, b: seq<Delta>)
    ensures SumDeltas(a + b) == Delta(SumDeltas(a).dlng + SumDeltas(b).dlng, SumDeltas(a).dlat + SumDeltas(b).dlat)
  {
    if a == [] {
      assert a + b == b;
    } else {
      assert (a + b)[1..] == a[1..] + b;
      SumDeltasAppend(a[1..], b);
    }
  }

  /** The k-th emitted point is the start moved by the first k + 1 offsets. */
  lemma {:induction false} TrackAt(p: Point, ds: seq<Delta>, k: nat)
    requires k < |ds|
    ensures Track(p, ds)[k] == Shift(p, SumDeltas(ds[..k + 1]))
    decreases k
  {
    if k == 0 {
      assert ds[..1] == [ds[0]];
      assert SumDeltas([ds[0]]) == Delta(ds[0].dlng + 0.0, ds[0].dlat + 0.0) by {
        assert [ds[0]][1..] == [];
      }
    } else {
      TrackAt(Shift(p, ds[0]), ds[1..], k - 1);
      assert ds[1..][..k] == ds[1..k + 1];
      assert ds[..k + 1] == [ds[0]] + ds[1..k + 1];
      assert ds[..k + 1][1..] == ds[1..k + 1];
    }
  }

  // ---------------------------------------------------------------------------
  // Properties of the decoder

  /**
   * The first segment decides failure: decoding fails exactly when it does not
   * split into two comma-separated fields (format error) or one of the two is
   * NaN (value error). Offsets never cause a failure.
   */
  lemma DecodeFailure(rl: string, parse: NumberParser)
    ensures var seg := Split(rl, '~')[0];
            var fields := Split(seg, ',');
            && (Decode(rl, parse).Failure? <==>
                  |fields| != 2 || parse(fields[0]).None? || parse(fields[1]).None?)
            && (|fields| != 2 ==> Decode(rl, parse) == Failure(InvalidFirstPointFormat(seg)))
            && (|fields| == 2 && (parse(fields[0]).None? || parse(fields[1]).None?) ==>
                  Decode(rl, parse) == Failure(InvalidFirstPointValues(seg)))
  {
  }

  /** The empty string splits to `[""]`, whose one field makes a format error. */
  lemma DecodeEmpty(parse: NumberParser)
    ensures Decode("", parse) == Failure(InvalidFirstPointFormat(""))
  {
    assert Split("", '~') == [""];
    assert Split("", ',') == [""];
  }

  /**
   * On success the output is never empty, starts with the first segment's
   * `(lng, lat)` swapped to `(lat, lng)`, and has one more point than there are
   * well-formed offset segments.
   */
  lemma DecodeShape(rl: string, parse: NumberParser)
    requires Decode(rl, parse).Success?
    ensures var parts := Split(rl, '~');
            var fields := Split(parts[0], ',');
            var pts := Decode(rl, parse).value;
            && |fields| == 2 && parse(fields[0]).Some? && parse(fields[1]).Some?
            && |pts| == 1 + |WellFormedDeltas(parts[1..], parse)|
            && pts[0] == Point(parse(fields[1]).value, parse(fields[0]).value)
  {
  }

  /**
   * Every later point is the first point moved by the sum of the well-formed
   * offsets that precede it: point k (k >= 1) adds the first k of them.
   */
  lemma DecodePointAt(rl: string, parse: NumberParser, k: nat)
    requires Decode(rl, parse).Success?
    requires 1 <= k < |Decode(rl, parse).value|
    ensures var pts := Decode(rl, parse).value;
            var ds := WellFormedDeltas(Split(rl, '~')[1..], parse);
            k <= |ds| && pts[k] == Shift(pts[0], SumDeltas(ds[..k]))
  {
    var parts := Split(rl, '~');
    var ds := WellFormedDeltas(parts[1..], parse);
    var start := Decode(rl, parse).value[0];
    TrackAt(start, ds, k - 1);
  }

  /**
   * Dropping one offset from the middle of a track: the points before it are
   * unchanged, and every point after it is moved back by the dropped offset.
   */
  lemma TrackWithout(p: Point, da: seq<Delta>, lost: Delta, db: seq<Delta>)
    ensures forall k :: 0 <= k < |da| ==> Track(p, da + db)[k] == Track(p, da + [lost] + db)[k]
    ensures forall k :: |da| <= k < |da| + |db| ==>
              Track(p, da + db)[k] == Point(Track(p, da + [lost] + db)[k + 1].lat - lost.dlat,
                                            Track(p, da + [lost] + db)[k + 1].lng - lost.dlng)
  {
    var ds := da + [lost] + db;
    var ds' := da + db;
    forall k | 0 <= k < |da|
      ensures Track(p, ds')[k] == Track(p, ds)[k]
    {
      TrackAt(p, ds, k);
      TrackAt(p, ds', k);
      assert ds[..k + 1] == da[..k + 1] == ds'[..k + 1];
    }
    forall k | |da| <= k < |da| + |db|
      ensures Track(p, ds')[k] == Point(Track(p, ds)[k + 1].lat - lost.dlat, Track(p, ds)[k + 1].lng - lost.dlng)
    {
      TrackAt(p, ds, k + 1);
      TrackAt(p, ds', k);
      var tail := db[..k + 1 - |da|];
      assert ds[..k + 2] == (da + [lost]) + tail;
      assert ds'[..k + 1] == da + tail;
      SumDeltasAppend(da + [lost], tail);
      SumDeltasAppend(da, [lost]);
      SumDeltasAppend(da, tail);
      assert SumDeltas([lost]) == Delta(lost.dlng + 0.0, lost.dlat + 0.0) by {
        assert [lost][1..] == [];
      }
    }
  }

  /**
   * The same for a whole decoded path, whose first point precedes the track:
   * one point fewer, the first `|da| + 1` points kept, the later ones moved back.
   */
  lemma PathWithout(p: Point, da: seq<Delta>, lost: Delta, db: seq<Delta>)
    ensures var pts := [p] + Track(p, da + [lost] + db);
            var pts' := [p] + Track(p, da + db);
            && |pts'| == |pts| - 1
            && |da| + 1 < |pts|
            && (forall k :: 0 <= k <= |da| ==> pts'[k] == pts[k])
            && (forall k :: |da| < k < |pts| - 1 ==>
                  pts'[k] == Point(pts[k + 1].lat - lost.dlat, pts[k + 1].lng - lost.dlng))
  {
    var full := Track(p, da + [lost] + db);
    var cut := Track(p, da + db);
    var pts := [p] + full;
    var pts' := [p] + cut;
    TrackWithout(p, da, lost, db);
    forall k | 1 <= k <= |da|
      ensures pts'[k] == pts[k]
    {
      assert pts'[k] == cut[k - 1];
      assert pts[k] == full[k - 1];
      assert cut[k - 1] == full[k - 1];
    }
    forall k | |da| < k < |pts| - 1
      ensures pts'[k] == Point(pts[k + 1].lat - lost.dlat, pts[k + 1].lng - lost.dlng)
    {
      assert pts'[k] == cut[k - 1];
      assert pts[k + 1] == full[k];
      assert |da| <= k - 1 < |da| + |db|;
      assert cut[k - 1] == Point(full[k].lat - lost.dlat, full[k].lng - lost.dlng);
    }
  }

  /**
   * Replacing the well-formed segment `j` of `parts` by a malformed one removes
   * exactly its offset from the well-formed offsets and keeps all the others in order.
   */
  lemma DeltasWithout(parts: seq<string>, j: nat, bad: string, parse: NumberParser)
    requires 1 <= j < |parts| && WellFormed(parts[j], parse) && !WellFormed(bad, parse)
    ensures var pair := ParsePair(parts[j], parse).value;
            var da := WellFormedDeltas(parts[1..j], parse);
            var db := WellFormedDeltas(parts[j + 1..], parse);
            && WellFormedDeltas(parts[1..], parse) == da + [Delta(pair.0, pair.1)] + db
            && WellFormedDeltas(parts[j := bad][1..], parse) == da + db
  {
    var a := parts[1..j];
    var b := parts[j + 1..];
    assert WellFormedDeltas(parts[1..], parse)
        == WellFormedDeltas(a, parse) + SegmentDeltas(parts[j], parse) + WellFormedDeltas(b, parse) by {
      assert parts[1..] == (a + [parts[j]]) + b;
      WellFormedDeltasAppend(a + [parts[j]], b, parse);
      WellFormedDeltasAppend(a, [parts[j]], parse);
      WellFormedDeltasSingle(parts[j], parse);
    }
    assert WellFormedDeltas(parts[j := bad][1..], parse)
        == WellFormedDeltas(a, parse) + SegmentDeltas(bad, parse) + WellFormedDeltas(b, parse) by {
      assert parts[j := bad][1..] == (a + [bad]) + b;
      WellFormedDeltasAppend(a + [bad], b, parse);
      WellFormedDeltasAppend(a, [bad], parse);
      WellFormedDeltasSingle(bad, parse);
    }
    WellFormedDeltasSingle(parts[j], parse);
    WellFormedDeltasSingle(bad, parse);
    assert WellFormedDeltas(a, parse) + [] == WellFormedDeltas(a, parse);
  }

  /**
   * Replacing one well-formed offset segment of `rl` by a malformed one removes
   * exactly one point. The points before it are unchanged; every point after it
   * is moved back by the lost offset, because the accumulator never receives it.
   */
  lemma CorruptOneDelta(rl: string, j: nat, bad: string, parse: NumberParser)
    requires var parts := Split(rl, '~'); 1 <= j < |parts| && WellFormed(parts[j], parse)
    requires '~' !in bad && !WellFormed(bad, parse)
    requires Decode(rl, parse).Success?
    ensures var parts := Split(rl, '~');
            var corrupted := Join(parts[j := bad], '~');
            var m := |WellFormedDeltas(parts[1..j], parse)|;
            var pair := ParsePair(parts[j], parse).value;
            var pts := Decode(rl, parse).value;
            && Decode(corrupted, parse).Success?
            && |Decode(corrupted, parse).value| == |pts| - 1
            && m + 1 < |pts|
            && (forall k :: 0 <= k <= m ==> Decode(corrupted, parse).value[k] == pts[k])
            && (forall k :: m < k < |pts| - 1 ==>
                  Decode(corrupted, parse).value[k] == Point(pts[k + 1].lat - pair.1, pts[k + 1].lng - pair.0))
  {
    var parts := Split(rl, '~');
    var corrupted := Join(parts[j := bad], '~');
    var pair := ParsePair(parts[j], parse).value;
    var lost := Delta(pair.0, pair.1);
    var da := WellFormedDeltas(parts[1..j], parse);
    var db := WellFormedDeltas(parts[j + 1..], parse);
    var start := Decode(rl, parse).value[0];
    assert Split(corrupted, '~') == parts[j := bad] by {
      SplitPiecesFree(rl, '~');
      SplitJoin(parts[j := bad], '~');
    }
    assert Decode(rl, parse).value == [start] + Track(start, da + [lost] + db) by {
      DeltasWithout(parts, j, bad, parse);
    }
    assert Decode(corrupted, parse).value == [start] + Track(start, da + db) by {
      assert parts[j := bad][0] == parts[0];
      DeltasWithout(parts, j, bad, parse);
    }
    PathWithout(start, da, lost, db);
  }

  /** A segment made of two comma-free fields is read field by field. */
  lemma PairOfFields(segment: string, f0: string, f1: string, parse: NumberParser)
    requires segment == f0 + [','] + f1 && ',' !in f0 && ',' !in f1
    ensures ParsePair(segment, parse) == match (parse(f0), parse(f1))
                                         case (Some(x), Some(y)) => Success((x, y))
                                         case _ => Failure(NotANumber)
  {
    SplitTwo(f0, f1, ',');
  }

  /** Two offset segments contribute what each contributes alone, in order. */
  lemma TwoSegments(s: string, t: string, parse: NumberParser)
    ensures WellFormedDeltas([s, t], parse) == SegmentDeltas(s, parse) + SegmentDeltas(t, parse)
  {
    assert [s, t][1..] == [t];
    assert [t][1..] == [];
  }

  /** A three-segment input decodes to its first point followed by the track of the other two segments' offsets. */
  lemma DecodeThreeSegments(rl: string, a: string, b: string, c: string, lng: real, lat: real, parse: NumberParser)
    requires rl == a + ['~'] + b + ['~'] + c && '~' !in a && '~' !in b && '~' !in c
    requires ParsePair(a, parse) == Success((lng, lat))
    ensures Decode(rl, parse) == Success([Point(lat, lng)] + Track(Point(lat, lng), SegmentDeltas(b, parse) + SegmentDeltas(c, parse)))
  {
    SplitThree(a, b, c, '~');
    assert Split(rl, '~')[1..] == [b, c];
    TwoSegments(b, c, parse);
  }

  /**
   * The corrupted path does not keep the later vertices in place: in
   * `0,0~1,0~1,0` the last vertex is `(0, 2)`, while after corrupting the
   * middle segment the vertex that remains in its place is `(0, 1)`.
   */
  lemma CorruptionMovesLaterPoints(rl: string, corrupted: string, parse: NumberParser)
    requires rl == "0,0~1,0~1,0" && corrupted == "0,0~x~1,0"
    requires parse("0") == Some(0.0) && parse("1") == Some(1.0)
    ensures Decode(rl, parse) == Success([Point(0.0, 0.0), Point(0.0, 1.0), Point(0.0, 2.0)])
    ensures Decode(corrupted, parse) == Success([Point(0.0, 0.0), Point(0.0, 1.0)])
  {
    CorruptionText(rl, corrupted);
    CorruptionSegments(parse);
    DecodeThreeSegments(rl, "0,0", "1,0", "1,0", 0.0, 0.0, parse);
    DecodeThreeSegments(corrupted, "0,0", "x", "1,0", 0.0, 0.0, parse);
    CorruptionTracks();
  }

  /** How the two texts of the corruption example break into segments and fields. */
  lemma CorruptionText(rl: string, corrupted: string)
    requires rl == "0,0~1,0~1,0" && corrupted == "0,0~x~1,0"
    ensures rl == "0,0" + ['~'] + "1,0" + ['~'] + "1,0"
    ensures corrupted == "0,0" + ['~'] + "x" + ['~'] + "1,0"
    ensures '~' !in "0,0" && '~' !in "1,0" && '~' !in "x"
    ensures "0,0" == "0" + [','] + "0" && "1,0" == "1" + [','] + "0"
    ensures ',' !in "0" && ',' !in "1" && ',' !in "x"
  {
  }

  /** How the segments of the corruption example read. */
  lemma CorruptionSegments(parse: NumberParser)
    requires parse("0") == Some(0.0) && parse("1") == Some(1.0)
    ensures ParsePair("0,0", parse) == Success((0.0, 0.0))
    ensures SegmentDeltas("1,0", parse) == [Delta(1.0, 0.0)]
    ensures SegmentDeltas("x", parse) == []
  {
    CorruptionText("0,0~1,0~1,0", "0,0~x~1,0");
    PairOfFields("0,0", "0", "0", parse);
    PairOfFields("1,0", "1", "0", parse);
    SplitFree("x", ',');
  }

  /** The accumulator runs of the corruption example. */
  lemma CorruptionTracks()
    ensures [Point(0.0, 0.0)] + Track(Point(0.0, 0.0), [Delta(1.0, 0.0)] + [Delta(1.0, 0.0)])
            == [Point(0.0, 0.0), Point(0.0, 1.0), Point(0.0, 2.0)]
    ensures [Point(0.0, 0.0)] + Track(Point(0.0, 0.0), [] + [Delta(1.0, 0.0)])
            == [Point(0.0, 0.0), Point(0.0, 1.0)]
  {
    var d := Delta(1.0, 0.0);
    assert [d] + [d] == [d, d];
    assert [d, d][1..] == [d];
    assert [] + [d] == [d];
    assert Track(Point(0.0, 0.0), [d]) == [Point(0.0, 1.0)];
    assert Track(Point(0.0, 0.0), [d, d]) == [Point(0.0, 1.0), Point(0.0, 2.0)];
  }

  /** The worked example: `30.0,60.0~0.1,0.0~0.0,0.1` decodes to `(60, 30), (60, 30.1), (60.1, 30.1)`. */
  lemma DecodeExample(rl: string, parse: NumberParser)
    requires rl == "30.0,60.0~0.1,0.0~0.0,0.1"
    requires parse("30.0") == Some(30.0) && parse("60.0") == Some(60.0)
    requires parse("0.1") == Some(0.1) && parse("0.0") == Some(0.0)
    ensures Decode(rl, parse) == Success([Point(60.0, 30.0), Point(60.0, 30.1), Point(60.1, 30.1)])
  {
    ExampleText(rl);
    ExampleSegments(parse);
    DecodeThreeSegments(rl, "30.0,60.0", "0.1,0.0", "0.0,0.1", 30.0, 60.0, parse);
    ExampleTrack();
  }

  /** The accumulator run of the worked example. */
  lemma ExampleTrack()
    ensures [Point(60.0, 30.0)] + Track(Point(60.0, 30.0), [Delta(0.1, 0.0)] + [Delta(0.0, 0.1)])
            == [Point(60.0, 30.0), Point(60.0, 30.1), Point(60.1, 30.1)]
  {
    var d1 := Delta(0.1, 0.0);
    var d2 := Delta(0.0, 0.1);
    assert [d1] + [d2] == [d1, d2];
    assert [d1, d2][1..] == [d2];
    assert Track(Point(60.0, 30.0), [d1, d2]) == [Point(60.0, 30.1), Point(60.1, 30.1)];
  }

  /** How the worked example's segments read. */
  lemma ExampleSegments(parse: NumberParser)
    requires parse("30.0") == Some(30.0) && parse("60.0") == Some(60.0)
    requires parse("0.1") == Some(0.1) && parse("0.0") == Some(0.0)
    ensures ParsePair("30.0,60.0", parse) == Success((30.0, 60.0))
    ensures SegmentDeltas("0.1,0.0", parse) == [Delta(0.1, 0.0)]
    ensures SegmentDeltas("0.0,0.1", parse) == [Delta(0.0, 0.1)]
  {
    ExampleText("30.0,60.0~0.1,0.0~0.0,0.1");
    PairOfFields("30.0,60.0", "30.0", "60.0", parse);
    PairOfFields("0.1,0.0", "0.1", "0.0", parse);
    PairOfFields("0.0,0.1", "0.0", "0.1", parse);
  }

  /** How the worked example's text breaks into segments. */
  lemma ExampleText(rl: string)
    requires rl == "30.0,60.0~0.1,0.0~0.0,0.1"
    ensures rl == "30.0,60.0" + ['~'] + "0.1,0.0" + ['~'] + "0.0,0.1"
    ensures '~' !in "30.0,60.0" && '~' !in "0.1,0.0" && '~' !in "0.0,0.1"
    ensures "30.0,60.0" == "30.0" + [','] + "60.0" && ',' !in "30.0" && ',' !in "60.0"
    ensures "0.1,0.0" == "0.1" + [','] + "0.0" && ',' !in "0.1" && ',' !in "0.0"
    ensures "0.0,0.1" == "0.0" + [','] + "0.1"
  {
  }

  // ---------------------------------------------------------------------------
  // The full-URL entry point

  /** The pattern `rl=([^&]+)` can match at index `i`: `rl=` followed by a character other than `&`. */
  predicate RlMatchAt(url: string, i: int)
  {
    OccursAt(url, "rl=", i) && i + 3 < |url| && url[i + 3] != '&'
  }

  /** The leftmost index at or after `from` where the pattern matches. */
  function FirstRlMatch(url: string, from: nat): (r: Option<nat>)
    ensures r.Some? ==> from <= r.value && RlMatchAt(url, r.value)
    ensures r.Some? ==> forall i :: from <= i < r.value ==> !RlMatchAt(url, i)
    ensures r.None? ==> forall i :: from <= i ==> !RlMatchAt(url, i)
    decreases |url| - from
  {
    if from + 3 >= |url| then None
    else if RlMatchAt(url, from) then Some(from)
    else FirstRlMatch(url, from + 1)
  }

  /** The greedy `[^&]+` run: the longest prefix of `s` without `&`. */
  function NonAmpRun(s: string): (r: string)
    ensures |r| <= |s| && r == s[..|r|]
    ensures '&' !in r
    ensures |r| == |s| || s[|r|] == '&'
  {
    if s == [] || s[0] == '&' then [] else [s[0]] + NonAmpRun(s[1..])
  }

  /**
   * The string handed to the decoder: the input itself when it contains no
   * `rl=`, otherwise the percent-decoded first match of `rl=([^&]+)`.
   */
  function RlValue(url: string, pctDecode: UriDecoder): Result<string, DecodeError>
  {
    if !Contains(url, "rl=") then Success(url)
    else match FirstRlMatch(url, 0)
      case None => Failure(RlParameterNotFound)
      case Some(i) =>
        var encoded := NonAmpRun(url[i + 3..]);
        match pctDecode(encoded)
        case None => Failure(MalformedUri(encoded))
        case Some(s) => Success(s)
  }

  /** Without any `rl=` the input is passed to the decoder unchanged. */
  lemma RlValueWithoutParameter(url: string, pctDecode: UriDecoder)
    requires forall i :: !OccursAt(url, "rl=", i)
    ensures RlValue(url, pctDecode) == Success(url)
  {
  }

  /** With `rl=` present but followed nowhere by a non-`&` character, the parameter is reported missing. */
  lemma RlValueNotFound(url: string, pctDecode: UriDecoder)
    requires exists i :: OccursAt(url, "rl=", i)
    requires forall i :: !RlMatchAt(url, i)
    ensures RlValue(url, pctDecode) == Failure(RlParameterNotFound)
  {
  }

  /**
   * With a leftmost match at `i`, the value is the maximal non-empty run of
   * non-`&` characters after that `rl=`, percent-decoded.
   */
  lemma RlValueFound(url: string, pctDecode: UriDecoder, i: nat)
    requires RlMatchAt(url, i)
    requires forall j :: 0 <= j < i ==> !RlMatchAt(url, j)
    ensures var encoded := NonAmpRun(url[i + 3..]);
            && 1 <= |encoded|
            && encoded == url[i + 3..i + 3 + |encoded|]
            && '&' !in encoded
            && (i + 3 + |encoded| == |url| || url[i + 3 + |encoded|] == '&')
            && RlValue(url, pctDecode) ==
                 (match pctDecode(encoded)
                  case None => Failure(MalformedUri(encoded))
                  case Some(s) => Success(s))
  {
  }

  /** `parseKADCoordinatesFromFullURL`: extract the `rl` value, then run the decoder on it. */
  method ParseKadCoordinatesFromFullUrl(url: string, parse: NumberParser, pctDecode: UriDecoder)
    returns (r: Result<seq<Point>, DecodeError>)
    ensures RlValue(url, pctDecode).Failure? ==> r == Failure(RlValue(url, pctDecode).error)
    ensures RlValue(url, pctDecode).Success? ==> r == Decode(RlValue(url, pctDecode).value, parse)
  {
    var rlString := RlValue(url, pctDecode);
    if rlString.Failure? {
      return Failure(rlString.error);
    }
    r := ParseKadCoordinatesFromUrl(rlString.value, parse);
  }
}
