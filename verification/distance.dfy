/**
 * The distance loop of one track: every consecutive pair of points is
 * checked for `lat`/`lon`, parsed, and its great-circle distance added.
 */
module Distance {
  import opened Wrappers
  import opened Gpx

  /** The point carries both coordinate attributes. */
  predicate HasCoordinates(p: Point) {
    "lat" in p.attrs && "lon" in p.attrs
  }

  /** `(float(lat), float(lon))` of a point, None when either conversion fails. */
  function ParseCoord(env: Env, p: Point): Option<Coord>
    requires HasCoordinates(p)
  {
    match (env.parseFloat(p.attrs["lat"]), env.parseFloat(p.attrs["lon"]))
    case (Some(lat), Some(lon)) => Some(Coord(lat, lon))
    case _ => None
  }

  /** The point passes both checks the loop makes on it. */
  predicate Usable(env: Env, p: Point) {
    HasCoordinates(p) && ParseCoord(env, p).Some?
  }

  /** One step of the loop: check the pair `(a, b)` of track `track`, then measure it. */
  function Leg(env: Env, a: Point, b: Point, track: nat): (r: Result<real, Failure>)
    ensures r.Success? <==> Usable(env, a) && Usable(env, b)
    ensures r.Failure? ==> r.error == MissingCoordinates(track) || r.error == InvalidCoordinates(track)
    ensures r.Failure? && (!HasCoordinates(a) || !HasCoordinates(b)) ==> r.error == MissingCoordinates(track)
    ensures r.Failure? && HasCoordinates(a) && HasCoordinates(b) ==> r.error == InvalidCoordinates(track)
  {
    if !HasCoordinates(a) || !HasCoordinates(b) then Failure(MissingCoordinates(track))
    else match (ParseCoord(env, a), ParseCoord(env, b))
      case (Some(ca), Some(cb)) => Success(env.earthDistance(ca, cb))
      case _ => Failure(InvalidCoordinates(track))
  }

  /** The pair ending at point `j` fails the checks. */
  predicate BadPair(env: Env, pts: seq<Point>, j: int) {
    1 <= j < |pts| && !(Usable(env, pts[j - 1]) && Usable(env, pts[j]))
  }

  /**
   * The loop over j = 1 .. |pts|-1, as a left fold: the distance of a
   * prefix, then the leg that closes it. The first pair that fails a check
   * ends the run.
   */
  function TrackDistance(env: Env, pts: seq<Point>, track: nat): (r: Result<real, Failure>)
    ensures |pts| < 2 ==> r == Success(0.0)
    ensures r.Failure? ==> r.error == MissingCoordinates(track) || r.error == InvalidCoordinates(track)
    ensures r.Failure? ==> |pts| >= 2 && exists j :: BadPair(env, pts, j)
    decreases |pts|
  {
    if |pts| < 2 then Success(0.0)
    else
      var n := |pts|;
      var init := pts[..n - 1];
      match TrackDistance(env, init, track)
      case Failure(e) =>
        assert exists j :: BadPair(env, pts, j) by {
          var j :| BadPair(env, init, j);
          assert init[j - 1] == pts[j - 1] && init[j] == pts[j];
          assert BadPair(env, pts, j);
        }
        Failure(e)
      case Success(before) =>
        match Leg(env, pts[n - 2], pts[n - 1], track)
        case Failure(e) =>
          assert BadPair(env, pts, n - 1);
          Failure(e)
        case Success(leg) => Success(before + leg)
  }

  /** Every point of the sequence passes the checks. */
  predicate AllUsable(env: Env, pts: seq<Point>) {
    forall k :: 0 <= k < |pts| ==> Usable(env, pts[k])
  }

  /** The parsed coordinates of points that all pass the checks. */
  function Coords(env: Env, pts: seq<Point>): seq<Coord>
    requires AllUsable(env, pts)
  {
    seq(|pts|, k requires 0 <= k < |pts| => ParseCoord(env, pts[k]).value)
  }

  /** Reference definition: the length of a polyline, summed from its first leg onwards. */
  function PathLength(env: Env, cs: seq<Coord>): real
  {
    if |cs| < 2 then 0.0 else env.earthDistance(cs[0], cs[1]) + PathLength(env, cs[1..])
  }

  /** Appending a vertex adds exactly the leg to it. */
  lemma {:induction false} PathLengthSnoc(env: Env, cs: seq<Coord>, c: Coord)
    requires |cs| >= 1
    ensures PathLength(env, cs + [c]) == PathLength(env, cs) + env.earthDistance(cs[|cs| - 1], c)
  {
    if |cs| == 1 {
      assert (cs + [c])[1..] == [c];
    } else {
      PathLengthSnoc(env, cs[1..], c);
      assert (cs + [c])[1..] == cs[1..] + [c];
    }
  }

  /**
   * The distance loop fails exactly when the track has two or more points
   * and one of them lacks a coordinate or has one that does not parse; a
   * single point is never checked.
   */
  lemma {:induction false} TrackDistanceSucceeds(env: Env, pts: seq<Point>, track: nat)
    ensures TrackDistance(env, pts, track).Success? <==> |pts| < 2 || AllUsable(env, pts)
    decreases |pts|
  {
    if |pts| >= 2 {
      var n := |pts|;
      var init := pts[..n - 1];
      TrackDistanceSucceeds(env, init, track);
      if AllUsable(env, pts) {
        assert AllUsable(env, init);
      } else {
        var k :| 0 <= k < n && !Usable(env, pts[k]);
        if k < n - 2 {
          assert init[k] == pts[k];
        } else {
          assert Leg(env, pts[n - 2], pts[n - 1], track).Failure?;
        }
      }
    }
  }

  /**
   * A successful loop yields the length of the polyline through all points,
   * and 0 for fewer than two points.
   */
  lemma {:induction false} TrackDistanceValue(env: Env, pts: seq<Point>, track: nat)
    ensures |pts| < 2 ==> TrackDistance(env, pts, track) == Success(0.0)
    ensures |pts| >= 2 && AllUsable(env, pts) ==>
              TrackDistance(env, pts, track) == Success(PathLength(env, Coords(env, pts)))
    decreases |pts|
  {
    if |pts| >= 2 && AllUsable(env, pts) {
      var n := |pts|;
      var init := pts[..n - 1];
      assert AllUsable(env, init);
      var cs := Coords(env, pts);
      assert Coords(env, init) == cs[..n - 1];
      if n == 2 {
        assert cs[1..] == [cs[1]];
      } else {
        TrackDistanceValue(env, init, track);
        PathLengthSnoc(env, cs[..n - 1], cs[n - 1]);
        assert cs[..n - 1] + [cs[n - 1]] == cs;
      }
    }
  }

  /** A failing loop names this track, and the run exits with status 4. */
  lemma {:induction false} TrackDistanceError(env: Env, pts: seq<Point>, track: nat)
    requires TrackDistance(env, pts, track).Failure?
    ensures TrackDistance(env, pts, track).error in {MissingCoordinates(track), InvalidCoordinates(track)}
    ensures ExitCode(TrackDistance(env, pts, track).error) == 4
    decreases |pts|
  {
    var init := pts[..|pts| - 1];
    if TrackDistance(env, init, track).Failure? {
      TrackDistanceError(env, init, track);
    }
  }

  /** Once a prefix of the points fails, the whole loop fails with the same error. */
  lemma {:induction false} FailureIsFinal(env: Env, pts: seq<Point>, j: nat, track: nat)
    requires j <= |pts|
    requires TrackDistance(env, pts[..j], track).Failure?
    ensures TrackDistance(env, pts, track) == TrackDistance(env, pts[..j], track)
    decreases |pts| - j
  {
    if j < |pts| {
      assert pts[..j + 1][..j] == pts[..j];
      FailureIsFinal(env, pts, j + 1, track);
    } else {
      assert pts[..j] == pts;
    }
  }

  /** The loop as the source writes it: a running total over j = 1 .. |pts|-1. */
  method ComputeDistance(env: Env, pts: seq<Point>, track: nat) returns (r: Result<real, Failure>)
    ensures r == TrackDistance(env, pts, track)
  {
    if |pts| < 2 {
      return Success(0.0);
    }
    var distance := 0.0;
    var j := 1;
    assert pts[..j][..0] == [];
    while j < |pts|
      invariant 1 <= j <= |pts|
      invariant TrackDistance(env, pts[..j], track) == Success(distance)
    {
      assert pts[..j + 1][..j] == pts[..j];
      var leg := Leg(env, pts[j - 1], pts[j], track);
      if leg.Failure? {
        FailureIsFinal(env, pts, j + 1, track);
        return Failure(leg.error);
      }
      distance := distance + leg.value;
      j := j + 1;
    }
    assert pts[..j] == pts;
    return Success(distance);
  }
}
