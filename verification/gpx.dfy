/**
 * The abstract GPX 1.0 document the annotation pass works on, the errors that
 * end a run, and the foreign behaviour (geodesy, number parsing and
 * formatting, date handling) the pass depends on but does not define.
 */
module Gpx {
  import opened Wrappers

  /** XML attributes of an element, by name. */
  type Attributes = map<string, string>

  /** A `<trkpt>`: its attributes (`lat` and `lon` among them, when present)
      and the text of its `<time>` child, if it has one. */
  datatype Point = Point(attrs: Attributes, time: Option<string>)

  /** A `<trkseg>` and its `<trkpt>` children in document order. */
  datatype Segment = Segment(points: seq<Point>)

  /** A `<trk>`: the text of its `<name>` and `<desc>` children, when those
      elements exist, and its segments in document order. */
  datatype Track = Track(name: Option<string>, desc: Option<string>, segments: seq<Segment>)

  /** A direct child of the root: a GPX-namespace `<trk>`, or any other
      subtree (metadata, waypoints, routes, foreign elements), kept opaque. */
  datatype Child = Trk(track: Track) | Other(content: string)

  /** The root element: its qualified tag in `{uri}local` form, its
      attributes (`version`, `creator`, ...) and its children in order. */
  datatype Document = Document(tag: string, attrs: Attributes, children: seq<Child>)

  /** A parsed `(lat, lon)` pair in degrees. */
  datatype Coord = Coord(lat: real, lon: real)

  /**
   * Behaviour that lives outside the annotation pass, left uninterpreted:
   * - earthDistance: the great-circle distance of the `gps` module, in metres;
   * - parseFloat: Python's `float()` on an attribute value (None when it raises);
   * - fixed2: the `'%.2f'` rendering of a number;
   * - timeSpan: `str(end - start)` for two parsed `<time>` texts;
   * - timeStamp: `strftime('%Y-%m-%d %H:%M %Z')` of a parsed `<time>` text;
   * - basename: `os.path.basename` of the program path.
   */
  datatype Env = Env(
    earthDistance: (Coord, Coord) -> real,
    parseFloat: string -> Option<real>,
    fixed2: real -> string,
    timeSpan: (string, string) -> string,
    timeStamp: string -> string,
    basename: string -> string)

  /** Why a run stops after the document was parsed. */
  datatype Failure =
    | NotGpx                              // version missing or empty, or root tag not `...}gpx`
    | UnsupportedVersion(version: string) // a version other than "1.0"
    | NoTracks                            // no `<trk>` child of the root
    | MissingCoordinates(track: nat)      // a checked point lacks `lat` or `lon`
    | InvalidCoordinates(track: nat)      // a checked point's `lat` or `lon` is not a float

  /** The process exit status each failure maps to. */
  function ExitCode(f: Failure): (code: nat)
    ensures code == 5 <==> f.NoTracks?
    ensures code == 4 <==> !f.NoTracks?
  {
    match f
    case NoTracks => 5
    case _ => 4
  }

  /** Every `trkseg/trkpt` of a track, flattened in document order. */
  function Points(segs: seq<Segment>): (pts: seq<Point>)
    ensures pts == [] <==> forall k :: 0 <= k < |segs| ==> segs[k].points == []
  {
    if segs == [] then [] else segs[0].points + Points(segs[1..])
  }

  /** The points of consecutive runs of segments are joined in document order. */
  lemma {:induction false} PointsInOrder(a: seq<Segment>, b: seq<Segment>)
    ensures Points(a + b) == Points(a) + Points(b)
  {
    if a == [] {
      assert a + b == b;
    } else {
      var s, t := a[0], a[1..];
      assert a == [s] + t;
      assert a + b == [s] + (t + b);
      ConsSegment(s, t + b);
      ConsSegment(s, t);
      PointsInOrder(t, b);
      assert s.points + (Points(t) + Points(b)) == (s.points + Points(t)) + Points(b);
    }
  }

  /** A segment put in front contributes its points first. */
  lemma ConsSegment(s: Segment, rest: seq<Segment>)
    ensures Points([s] + rest) == s.points + Points(rest)
  {
    assert ([s] + rest)[1..] == rest;
  }

  /** The GPX `<trk>` children of the root, in document order. */
  function Tracks(cs: seq<Child>): (ts: seq<Track>)
    ensures |ts| <= |cs|
  {
    if cs == [] then []
    else (if cs[0].Trk? then [cs[0].track] else []) + Tracks(cs[1..])
  }

  /** The tracks found are exactly the root's `<trk>` children. */
  lemma {:induction false} TracksAreTrkChildren(cs: seq<Child>)
    ensures forall t :: t in Tracks(cs) <==> Trk(t) in cs
  {
    if cs != [] {
      TracksAreTrkChildren(cs[1..]);
      assert cs == [cs[0]] + cs[1..];
    }
  }

  /**
   * The tracks keep document order and multiplicity: the tracks of a
   * concatenation are the tracks of each part, in order.
   */
  lemma {:induction false} TracksInOrder(a: seq<Child>, b: seq<Child>)
    ensures Tracks(a + b) == Tracks(a) + Tracks(b)
  {
    if a == [] {
      assert a + b == b;
    } else {
      var c, t := a[0], a[1..];
      assert a == [c] + t;
      assert a + b == [c] + (t + b);
      TracksInOrder(t, b);
      ConsChild(c, t + b);
      ConsChild(c, t);
    }
  }

  /** The root's other children, in document order. */
  function Others(cs: seq<Child>): (os: seq<string>)
    ensures |os| + |Tracks(cs)| == |cs|
  {
    if cs == [] then []
    else (if cs[0].Other? then [cs[0].content] else []) + Others(cs[1..])
  }

  /**
   * Puts `ts` in place of the root's tracks, one for one and in order,
   * leaving every other child where and as it was: the effect of mutating
   * the track elements in place.
   */
  function ReplaceTracks(cs: seq<Child>, ts: seq<Track>): (r: seq<Child>)
    requires |ts| == |Tracks(cs)|
    ensures |r| == |cs|
    ensures Tracks(r) == ts
    ensures Others(r) == Others(cs)
  {
    if cs == [] then []
    else
      var tail := if cs[0].Trk? then ts[1..] else ts;
      var head := if cs[0].Trk? then Trk(ts[0]) else cs[0];
      var rest := ReplaceTracks(cs[1..], tail);
      ConsChild(head, rest);
      ConsChild(cs[0], cs[1..]);
      assert cs[0].Trk? ==> ts == [ts[0]] + tail;
      [head] + rest
  }

  /** Child `k` keeps its kind, and is left as it was when it is not a track. */
  lemma {:induction false} ReplaceTracksAt(cs: seq<Child>, ts: seq<Track>, k: nat)
    requires |ts| == |Tracks(cs)| && k < |cs|
    ensures ReplaceTracks(cs, ts)[k].Trk? <==> cs[k].Trk?
    ensures cs[k].Other? ==> ReplaceTracks(cs, ts)[k] == cs[k]
  {
    if k > 0 {
      ConsChild(cs[0], cs[1..]);
      assert cs == [cs[0]] + cs[1..];
      var tail := if cs[0].Trk? then ts[1..] else ts;
      var head := if cs[0].Trk? then Trk(ts[0]) else cs[0];
      var rest := ReplaceTracks(cs[1..], tail);
      assert ReplaceTracks(cs, ts) == [head] + rest;
      assert ReplaceTracks(cs, ts)[k] == rest[k - 1];
      assert cs[k] == cs[1..][k - 1];
      ReplaceTracksAt(cs[1..], tail, k - 1);
    } else {
      assert ReplaceTracks(cs, ts)[0] == if cs[0].Trk? then Trk(ts[0]) else cs[0];
    }
  }

  /** Every child keeps its position and kind; non-track children are left as they were. */
  lemma ReplaceTracksInPlace(cs: seq<Child>, ts: seq<Track>)
    requires |ts| == |Tracks(cs)|
    ensures forall k :: 0 <= k < |cs| ==> (ReplaceTracks(cs, ts)[k].Trk? <==> cs[k].Trk?)
    ensures forall k :: 0 <= k < |cs| && cs[k].Other? ==> ReplaceTracks(cs, ts)[k] == cs[k]
  {
    forall k | 0 <= k < |cs|
      ensures ReplaceTracks(cs, ts)[k].Trk? <==> cs[k].Trk?
      ensures cs[k].Other? ==> ReplaceTracks(cs, ts)[k] == cs[k]
    {
      ReplaceTracksAt(cs, ts, k);
    }
  }

  /** How the two filters see a child put in front of others. */
  lemma ConsChild(c: Child, rest: seq<Child>)
    ensures Tracks([c] + rest) == (if c.Trk? then [c.track] else []) + Tracks(rest)
    ensures Others([c] + rest) == (if c.Other? then [c.content] else []) + Others(rest)
  {
    assert ([c] + rest)[1..] == rest;
  }

  /** Putting back the tracks one found changes nothing. */
  lemma {:induction false} ReplaceOwnTracks(cs: seq<Child>)
    ensures ReplaceTracks(cs, Tracks(cs)) == cs
  {
    if cs != [] {
      var c, t := cs[0], cs[1..];
      ReplaceOwnTracks(t);
      if c.Trk? {
        assert Tracks(cs) == [c.track] + Tracks(t);
        assert Tracks(cs)[1..] == Tracks(t);
        assert ReplaceTracks(cs, Tracks(cs)) == [Trk(c.track)] + ReplaceTracks(t, Tracks(t));
      } else {
        assert Tracks(cs) == Tracks(t);
        assert ReplaceTracks(cs, Tracks(cs)) == [c] + ReplaceTracks(t, Tracks(t));
      }
      assert cs == [c] + t;
    }
  }
}
