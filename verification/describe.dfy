/**
 * The text the pass writes into a track's `<desc>`: the distance line,
 * rendered in metres or kilometres, and the optional duration line.
 */
module Describe {
  import opened Wrappers
  import opened Gpx

  predicate IsPrefix(p: string, s: string) {
    |p| <= |s| && s[..|p|] == p
  }

  predicate EndsWith(s: string, suffix: string) {
    |suffix| <= |s| && s[|s| - |suffix|..] == suffix
  }

  /** A prefix of a prefix is a prefix. */
  lemma PrefixOfPrefix(p: string, q: string, s: string)
    requires IsPrefix(p + q, s)
    ensures IsPrefix(p, s)
  {
    assert s[..|p|] == (p + q)[..|p|];
  }

  const DistanceLabel: string := "Distance: "
  const DurationLabel: string := "Duration: "

  /**
   * `formatDistance`: kilometres with two decimals from 1000 m on, metres
   * with two decimals below. The unit suffix tells which branch was taken.
   */
  function FormatDistance(env: Env, dist: real): (s: string)
    ensures EndsWith(s, " km") <==> dist >= 1000.0
    ensures EndsWith(s, " m") <==> dist < 1000.0
    ensures dist >= 1000.0 ==> IsPrefix(env.fixed2(dist / 1000.0), s)
    ensures dist < 1000.0 ==> IsPrefix(env.fixed2(dist), s)
    ensures dist >= 1000.0 ==> |s| == |env.fixed2(dist / 1000.0)| + 3
    ensures dist < 1000.0 ==> |s| == |env.fixed2(dist)| + 2
  {
    if dist >= 1000.0 then
      var s := env.fixed2(dist / 1000.0) + " km";
      assert s[|s| - 3..] == " km";
      assert s[|s| - 2] == 'k';
      s
    else
      var s := env.fixed2(dist) + " m";
      assert s[|s| - 2..] == " m";
      assert s[|s| - 2] == ' ';
      s
  }

  /** `Duration: <span> (<start> to <end>)` for the texts of two `<time>` elements. */
  function DurationText(env: Env, start: string, end: string): (s: string)
    ensures IsPrefix(DurationLabel + env.timeSpan(start, end) + " (" + env.timeStamp(start) + " to ", s)
    ensures EndsWith(s, " to " + env.timeStamp(end) + ")")
    ensures |s| == |DurationLabel| + |env.timeSpan(start, end)| + 2 + |env.timeStamp(start)| + 4 + |env.timeStamp(end)| + 1
  {
    DurationLabel + env.timeSpan(start, end) + " (" + env.timeStamp(start) + " to " + env.timeStamp(end) + ")"
  }

  /**
   * The duration line of a track with points `pts`: only for two or more
   * points, and only when both the first and the last carry a `<time>`.
   */
  function DurationLine(env: Env, pts: seq<Point>): (line: Option<string>)
    ensures |pts| < 2 ==> line.None?
    ensures line.Some? ==> IsPrefix(DurationLabel, line.value)
  {
    if |pts| > 1 && pts[0].time.Some? && pts[|pts| - 1].time.Some? then
      Some(DurationText(env, pts[0].time.value, pts[|pts| - 1].time.value))
    else None
  }

  /**
   * The new `<desc>` text: the old text and a newline when the element
   * already existed (nothing when it is created), the distance line, then
   * a newline and the duration line when there is one.
   */
  function Description(existing: Option<string>, distance: string, duration: Option<string>): (d: string)
    ensures existing.Some? ==> IsPrefix(existing.value + "\n", d)
    ensures existing.None? ==> IsPrefix(DistanceLabel + distance, d)
    ensures duration.Some? ==> EndsWith(d, "\n" + duration.value)
    ensures existing.Some? ==> IsPrefix(existing.value + "\n" + DistanceLabel + distance, d)
    ensures |d| == (if existing.Some? then |existing.value| + 1 else 0) + |DistanceLabel| + |distance|
                   + (if duration.Some? then 1 + |duration.value| else 0)
  {
    (match existing case None => "" case Some(o) => o + "\n")
    + DistanceLabel + distance
    + (match duration case None => "" case Some(line) => "\n" + line)
  }

  /**
   * An existing description is kept as a prefix and extended by a line;
   * a created one starts with the distance line; the text ends with the
   * distance exactly when there is no duration line, and with the duration
   * line otherwise.
   */
  lemma DescriptionShape(existing: Option<string>, distance: string, duration: Option<string>)
    ensures existing.Some? ==> IsPrefix(existing.value + "\n" + DistanceLabel + distance, Description(existing, distance, duration))
    ensures existing.None? ==> IsPrefix(DistanceLabel + distance, Description(existing, distance, duration))
    ensures existing.None? && duration.None? ==> Description(existing, distance, duration) == DistanceLabel + distance
    ensures existing.Some? && duration.None? ==>
              Description(existing, distance, duration) == existing.value + "\n" + DistanceLabel + distance
    ensures duration.None? ==> EndsWith(Description(existing, distance, duration), DistanceLabel + distance)
    ensures duration.Some? ==> EndsWith(Description(existing, distance, duration), "\n" + duration.value)
  {
    var head := match existing case None => "" case Some(o) => o + "\n";
    var tail := match duration case None => "" case Some(line) => "\n" + line;
    var d := Description(existing, distance, duration);
    assert d == (head + DistanceLabel + distance) + tail;
    assert d[..|head + DistanceLabel + distance|] == head + DistanceLabel + distance;
    assert d[|d| - |tail|..] == tail;
    if duration.None? {
      assert d == head + (DistanceLabel + distance);
    }
  }
}
