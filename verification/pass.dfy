/**
 * The whole pass over one parsed document: root checks, the track loop,
 * the creator credit, and the exit status of a run.
 */
module Pass {
  import opened Wrappers
  import opened Gpx
  import opened Distance
  import opened Describe
  import opened Annotation

  /** The root passes the first check: a non-empty `version` and a tag ending in `}gpx`. */
  predicate LooksLikeGpx(doc: Document) {
    var version := Lookup(doc.attrs, "version");
    version.Some? && version.value != "" && EndsWith(doc.tag, "}gpx")
  }

  /**
   * The root checks, in the source's order: the tag and version presence,
   * then the version value, then the presence of tracks.
   */
  function CheckRoot(doc: Document): (r: Option<Failure>)
    ensures r.None? <==> LooksLikeGpx(doc) && doc.attrs["version"] == "1.0" && Tracks(doc.children) != []
  {
    var version := Lookup(doc.attrs, "version");
    if version.None? || version.value == "" || !EndsWith(doc.tag, "}gpx") then Some(NotGpx)
    else if version.value != "1.0" then Some(UnsupportedVersion(version.value))
    else if |Tracks(doc.children)| == 0 then Some(NoTracks)
    else None
  }

  const ProcessedBy: string := " (processed by "

  /**
   * The new `creator`: the tool's name when the attribute is absent or
   * empty, otherwise the old value with a credit appended.
   */
  function Credit(creator: Option<string>, toolName: string): (c: string)
    ensures creator.None? || creator.value == "" ==> c == toolName
    ensures creator.Some? && creator.value != "" ==>
              IsPrefix(creator.value + ProcessedBy, c) && EndsWith(c, toolName + ")")
    ensures creator.Some? && creator.value != "" ==> |c| == |creator.value| + |ProcessedBy| + |toolName| + 1
  {
    if creator.None? || creator.value == "" then toolName
    else
      var c := creator.value + ProcessedBy + toolName + ")";
      assert c == (creator.value + ProcessedBy) + (toolName + ")");
      c
  }

  /**
   * The annotation pass: validate the root, annotate every track (the first
   * failure ends it), then credit the tool in `creator`.
   */
  function Annotate(env: Env, doc: Document, toolName: string, names: seq<string>): (r: Result<Document, Failure>)
    ensures r.Success? ==> r.value.tag == doc.tag
    ensures r.Success? ==> Others(r.value.children) == Others(doc.children)
    ensures r.Success? ==> |Tracks(r.value.children)| == |Tracks(doc.children)|
  {
    match CheckRoot(doc)
    case Some(f) => Failure(f)
    case None =>
      var annotated :- AnnotateTracks(env, Tracks(doc.children), names);
      var creator := Credit(Lookup(doc.attrs, "creator"), toolName);
      Success(Document(doc.tag, doc.attrs["creator" := creator], ReplaceTracks(doc.children, annotated)))
  }

  /**
   * A root with a missing or empty version, or a tag not ending in `}gpx`,
   * is rejected as not GPX; a version other than "1.0" as unsupported; both
   * with status 4 and both before the tracks are looked at.
   */
  lemma RootRejected(env: Env, doc: Document, toolName: string, names: seq<string>)
    ensures !LooksLikeGpx(doc) ==> Annotate(env, doc, toolName, names) == Failure(NotGpx)
    ensures LooksLikeGpx(doc) && doc.attrs["version"] != "1.0" ==>
              Annotate(env, doc, toolName, names) == Failure(UnsupportedVersion(doc.attrs["version"]))
    ensures Annotate(env, doc, toolName, names).Failure? && !LooksLikeGpx(doc) ==>
              ExitCode(Annotate(env, doc, toolName, names).error) == 4
  {
  }

  /** A valid root without any `<trk>` child ends the run with status 5. */
  lemma NoTracksRejected(env: Env, doc: Document, toolName: string, names: seq<string>)
    requires LooksLikeGpx(doc) && doc.attrs["version"] == "1.0"
    ensures Annotate(env, doc, toolName, names) == Failure(NoTracks) <==> Tracks(doc.children) == []
    ensures Tracks(doc.children) == [] ==> ExitCode(Annotate(env, doc, toolName, names).error) == 5
  {
    if Tracks(doc.children) != [] {
      var r := AnnotateTracks(env, Tracks(doc.children), names);
      if r.Failure? {
        var k: nat :| FirstFailure(Step(env, names), Tracks(doc.children), k, r.error);
        TrackFailsIff(env, Tracks(doc.children)[k], k, names);
      }
    }
  }

  /**
   * What a successful pass produces: the root keeps its tag and every
   * attribute but `creator`, which gets the credit; the non-track children
   * stay where and as they were; and each track is the annotation of the
   * track at the same position.
   */
  lemma AnnotateResult(env: Env, doc: Document, toolName: string, names: seq<string>)
    requires Annotate(env, doc, toolName, names).Success?
    ensures var out := Annotate(env, doc, toolName, names).value;
            var ts := Tracks(doc.children);
            && out.tag == doc.tag
            && out.attrs == doc.attrs["creator" := Credit(Lookup(doc.attrs, "creator"), toolName)]
            && |out.children| == |doc.children|
            && (forall k :: 0 <= k < |doc.children| && doc.children[k].Other? ==> out.children[k] == doc.children[k])
            && |Tracks(out.children)| == |ts|
            && (forall k :: 0 <= k < |ts| ==> AnnotateTrack(env, ts[k], k, names) == Success(Tracks(out.children)[k]))
  {
    var annotated := AnnotateTracks(env, Tracks(doc.children), names).value;
    ReplaceTracksInPlace(doc.children, annotated);
  }

  /**
   * A track without points comes out of a successful pass exactly as it
   * went in: no description, no distance, and no rename even when a name
   * was given for its position.
   */
  lemma EmptyTracksUntouched(env: Env, doc: Document, toolName: string, names: seq<string>, k: nat)
    requires Annotate(env, doc, toolName, names).Success?
    requires k < |Tracks(doc.children)| && Points(Tracks(doc.children)[k].segments) == []
    ensures Tracks(Annotate(env, doc, toolName, names).value.children)[k] == Tracks(doc.children)[k]
  {
    AnnotateResult(env, doc, toolName, names);
  }

  /**
   * The pass succeeds exactly when the root checks pass and every track
   * with two or more points has only points with parsable `lat` and `lon`.
   */
  lemma AnnotateSucceedsIff(env: Env, doc: Document, toolName: string, names: seq<string>)
    ensures Annotate(env, doc, toolName, names).Success? <==>
              CheckRoot(doc).None? &&
              forall t :: t in Tracks(doc.children) ==> |Points(t.segments)| < 2 || AllUsable(env, Points(t.segments))
  {
    var ts := Tracks(doc.children);
    forall k | 0 <= k < |ts|
      ensures AnnotateTrack(env, ts[k], k, names).Success? <==>
                |Points(ts[k].segments)| < 2 || AllUsable(env, Points(ts[k].segments))
    {
      TrackFailsIff(env, ts[k], k, names);
    }
  }

  /** What a run loads: the parsed document, or why it could not be had. */
  datatype LoadError = CannotOpen | CannotParse

  /** The exit status of a run and the document written back, if any. */
  datatype Outcome = Outcome(exitCode: nat, written: Option<Document>)

  /**
   * One invocation `argv = [program, file, name...]`. Reading and parsing
   * the file, and the temporary-file write with its rename, are given as
   * their outcomes: `load` for the file named on the command line and
   * `writes` for whether writing a document back succeeds.
   */
  function Run(env: Env, argv: seq<string>, load: string -> Result<Document, LoadError>,
               writes: Document -> bool): (o: Outcome)
    ensures o.exitCode == 0 <==> o.written.Some?
    ensures |argv| < 2 ==> o == Outcome(1, None)
    ensures |argv| >= 2 && load(argv[1]) == Failure(CannotOpen) ==> o == Outcome(2, None)
    ensures |argv| >= 2 && load(argv[1]) == Failure(CannotParse) ==> o == Outcome(3, None)
  {
    if |argv| < 2 then Outcome(1, None)
    else match load(argv[1])
      case Failure(CannotOpen) => Outcome(2, None)
      case Failure(CannotParse) => Outcome(3, None)
      case Success(doc) =>
        match Annotate(env, doc, env.basename(argv[0]), argv[2..])
        case Failure(f) => Outcome(ExitCode(f), None)
        case Success(out) => if writes(out) then Outcome(0, Some(out)) else Outcome(6, None)
  }

  /**
   * Every error ends the run before anything is written: a run writes a
   * document only when it exits 0, and then exactly the annotated one,
   * with the arguments after the file name as the new track names.
   */
  lemma RunWritesOnlyOnSuccess(env: Env, argv: seq<string>, load: string -> Result<Document, LoadError>,
                               writes: Document -> bool)
    requires |argv| >= 2 && load(argv[1]).Success?
    ensures var o := Run(env, argv, load, writes);
            var r := Annotate(env, load(argv[1]).value, env.basename(argv[0]), argv[2..]);
            && (r.Failure? ==> o == Outcome(ExitCode(r.error), None))
            && (r.Success? && writes(r.value) ==> o == Outcome(0, Some(r.value)))
            && (r.Success? && !writes(r.value) ==> o == Outcome(6, None))
  {
  }
}
