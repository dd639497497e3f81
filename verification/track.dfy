/**
 * The per-track loop: each `<trk>`, in document order and numbered from 0,
 * gets its distance (and duration) written into `<desc>` and is renamed
 * from the extra command-line arguments.
 */
module Annotation {
  import opened Wrappers
  import opened Gpx
  import opened Distance
  import opened Describe

  /** Track `i` takes the name `names[i]` when that argument exists; nothing else changes. */
  function Rename(t: Track, i: nat, names: seq<string>): (r: Track)
    ensures r.segments == t.segments && r.desc == t.desc
    ensures i < |names| ==> r.name == Some(names[i])
    ensures i >= |names| ==> r == t
  {
    if i < |names| then t.(name := Some(names[i])) else t
  }

  /**
   * One iteration of the loop for track `t` at position `i`. A track with
   * no points is skipped whole: the `continue` comes before the rename.
   */
  function AnnotateTrack(env: Env, t: Track, i: nat, names: seq<string>): (r: Result<Track, Failure>)
    ensures Points(t.segments) == [] ==> r == Success(t)
    ensures r.Success? ==> r.value.segments == t.segments
  {
    var pts := Points(t.segments);
    if |pts| == 0 then Success(t)
    else
      var dist :- TrackDistance(env, pts, i);
      var desc := Description(t.desc, FormatDistance(env, dist), DurationLine(env, pts));
      Success(Rename(t.(desc := Some(desc)), i, names))
  }

  /**
   * A track fails exactly when it has two or more points and one of them
   * lacks `lat`/`lon` or does not parse; then the run exits with status 4.
   * In particular a track with a single point always succeeds, whatever
   * its attributes.
   */
  lemma TrackFailsIff(env: Env, t: Track, i: nat, names: seq<string>)
    ensures var pts := Points(t.segments);
            AnnotateTrack(env, t, i, names).Failure? <==> |pts| >= 2 && !AllUsable(env, pts)
    ensures AnnotateTrack(env, t, i, names).Failure? ==>
              var e := AnnotateTrack(env, t, i, names).error;
              (e == MissingCoordinates(i) || e == InvalidCoordinates(i)) && ExitCode(e) == 4
  {
    var pts := Points(t.segments);
    TrackDistanceSucceeds(env, pts, i);
    if |pts| > 0 && TrackDistance(env, pts, i).Failure? {
      TrackDistanceError(env, pts, i);
    }
  }

  /**
   * A track with a single point never enters the pair loop, so its
   * coordinates are never checked, even when `lat` or `lon` is missing; its
   * distance is 0 and it gets no duration line.
   */
  lemma LonePointNeverChecked(env: Env, t: Track, i: nat, names: seq<string>)
    requires |Points(t.segments)| == 1
    ensures AnnotateTrack(env, t, i, names).Success?
    ensures AnnotateTrack(env, t, i, names).value.desc == Some(Description(t.desc, FormatDistance(env, 0.0), None))
  {
  }

  /** The distance a track with points reports: its polyline length, 0 for one point. */
  function ReportedDistance(env: Env, pts: seq<Point>): real
    requires |pts| < 2 || AllUsable(env, pts)
  {
    if |pts| < 2 then 0.0 else PathLength(env, Coords(env, pts))
  }

  /**
   * A track with points that annotates successfully gets the description
   * `[old + "\n"] + "Distance: " + format(d) [+ "\n" + duration]`, where d
   * is the length of its polyline; its points are untouched.
   */
  lemma TrackDescription(env: Env, t: Track, i: nat, names: seq<string>)
    requires Points(t.segments) != []
    requires AnnotateTrack(env, t, i, names).Success?
    ensures var pts := Points(t.segments);
            && (|pts| < 2 || AllUsable(env, pts))
            && AnnotateTrack(env, t, i, names).value.desc
               == Some(Description(t.desc, FormatDistance(env, ReportedDistance(env, pts)), DurationLine(env, pts)))
  {
    var pts := Points(t.segments);
    TrackDistanceSucceeds(env, pts, i);
    TrackDistanceValue(env, pts, i);
  }

  /**
   * An existing description is appended to, never replaced: the old text
   * followed by a newline is a prefix of the new one. A created description
   * starts with the distance line.
   */
  lemma ExistingDescriptionKept(env: Env, t: Track, i: nat, names: seq<string>)
    requires Points(t.segments) != []
    requires AnnotateTrack(env, t, i, names).Success?
    ensures var r := AnnotateTrack(env, t, i, names).value;
            && r.desc.Some?
            && (t.desc.Some? ==> IsPrefix(t.desc.value + "\n" + DistanceLabel, r.desc.value))
            && (t.desc.None? ==> IsPrefix(DistanceLabel, r.desc.value))
  {
    var pts := Points(t.segments);
    var f := FormatDistance(env, TrackDistance(env, pts, i).value);
    DescriptionShape(t.desc, f, DurationLine(env, pts));
    if t.desc.Some? {
      PrefixOfPrefix(t.desc.value + "\n" + DistanceLabel, f, Description(t.desc, f, DurationLine(env, pts)));
    } else {
      PrefixOfPrefix(DistanceLabel, f, Description(t.desc, f, DurationLine(env, pts)));
    }
  }

  /**
   * The description gains a duration line exactly when the track has more
   * than one point and its first and last points both carry a `<time>`.
   */
  lemma DurationAppendedIff(env: Env, t: Track, i: nat, names: seq<string>)
    requires Points(t.segments) != []
    requires AnnotateTrack(env, t, i, names).Success?
    ensures var pts := Points(t.segments);
            var r := AnnotateTrack(env, t, i, names).value;
            var withDuration := |pts| > 1 && pts[0].time.Some? && pts[|pts| - 1].time.Some?;
            && (withDuration ==>
                  EndsWith(r.desc.value, "\n" + DurationText(env, pts[0].time.value, pts[|pts| - 1].time.value)))
            && (!withDuration ==>
                  EndsWith(r.desc.value, DistanceLabel + FormatDistance(env, TrackDistance(env, pts, i).value)))
  {
    var pts := Points(t.segments);
    DescriptionShape(t.desc, FormatDistance(env, TrackDistance(env, pts, i).value), DurationLine(env, pts));
  }

  /**
   * Track `i` ends up named `names[i]` exactly when it has points and
   * that argument exists (the name is created when absent); otherwise its
   * name is left as it was.
   */
  lemma RenameIff(env: Env, t: Track, i: nat, names: seq<string>)
    requires AnnotateTrack(env, t, i, names).Success?
    ensures var r := AnnotateTrack(env, t, i, names).value;
            && (Points(t.segments) != [] && i < |names| ==> r.name == Some(names[i]))
            && (Points(t.segments) == [] || i >= |names| ==> r.name == t.name)
  {
  }

  /** Track `k` is the first of `ts` that `step` fails on, and it fails with `e`. */
  predicate FirstFailure(step: (Track, nat) -> Result<Track, Failure>, ts: seq<Track>, k: nat, e: Failure) {
    && k < |ts|
    && step(ts[k], k) == Failure(e)
    && forall m :: 0 <= m < k ==> step(ts[m], m).Success?
  }

  /**
   * `for i in range(len(tracks))` with `step` as the body: each track is
   * handed its position, and the first failure ends the loop with its error.
   */
  function ForEachTrack(step: (Track, nat) -> Result<Track, Failure>, ts: seq<Track>): (r: Result<seq<Track>, Failure>)
    ensures r.Success? <==> forall k :: 0 <= k < |ts| ==> step(ts[k], k).Success?
    ensures r.Success? ==> |r.value| == |ts|
    ensures r.Success? ==> forall k :: 0 <= k < |ts| ==> step(ts[k], k) == Success(r.value[k])
    ensures r.Failure? ==> exists k :: FirstFailure(step, ts, k, r.error)
    decreases |ts|
  {
    if ts == [] then Success([])
    else
      var n := |ts| - 1;
      var prefix := ts[..n];
      assert forall k :: 0 <= k < n ==> prefix[k] == ts[k];
      match ForEachTrack(step, prefix)
      case Failure(e) =>
        assert exists k :: FirstFailure(step, ts, k, e) by {
          var k :| FirstFailure(step, prefix, k, e);
          assert FirstFailure(step, ts, k, e);
        }
        Failure(e)
      case Success(before) =>
        match step(ts[n], n)
        case Failure(e) =>
          assert FirstFailure(step, ts, n, e);
          Failure(e)
        case Success(last) =>
          var res := before + [last];
          assert forall k :: 0 <= k < n ==> res[k] == before[k];
          Success(res)
  }

  /** The track annotation of one run, as the body of the track loop. */
  function Step(env: Env, names: seq<string>): (Track, nat) -> Result<Track, Failure>
  {
    (t: Track, i: nat) => AnnotateTrack(env, t, i, names)
  }

  /**
   * The loop over all tracks, in document order, with their positions as
   * indices; the first track that fails ends the run with its error.
   */
  function AnnotateTracks(env: Env, ts: seq<Track>, names: seq<string>): (r: Result<seq<Track>, Failure>)
    ensures r.Success? <==> forall k :: 0 <= k < |ts| ==> AnnotateTrack(env, ts[k], k, names).Success?
    ensures r.Success? ==> |r.value| == |ts|
    ensures r.Success? ==> forall k :: 0 <= k < |ts| ==> AnnotateTrack(env, ts[k], k, names) == Success(r.value[k])
    ensures r.Failure? ==> exists k :: FirstFailure(Step(env, names), ts, k, r.error)
  {
    ForEachTrack(Step(env, names), ts)
  }
}
