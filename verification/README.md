# gpxannotate, modelled in Dafny

`gpxannotate.py` annotates a GPX 1.0 file in place. For every `<trk>` it writes
the track's length (and, when the first and last points carry a `<time>`, its
duration) into the track's `<desc>`. It optionally renames tracks from the extra
command-line arguments and credits itself in the root's `creator` attribute. Any
error ends the run with an exit status before anything is written.

This project models that annotation pass over an abstract document. The model
contains no XML and no floats:

- `wrappers.dfy`: `Option`, `Result` and a map lookup.
- `gpx.dfy` (module `Gpx`): the document model.
  - The root has a tag, attributes and ordered children. A child is either a
    `<trk>` or an opaque other subtree.
  - A track has an optional name, an optional description and its segments.
    `Points` flattens the segments' `trkpt`s in document order.
  - `Failure` lists the post-parse errors and `ExitCode` maps each to its
    status.
  - `Env` bundles the foreign behaviour as uninterpreted functions: great-circle
    distance, `float()`, `'%.2f'`, date arithmetic and rendering, and
    `basename`.
- `distance.dfy` (module `Distance`): the pairwise coordinate check and the
  distance sum.
  - `TrackDistance` is a left fold.
  - `ComputeDistance` is the source's loop.
  - `PathLength` is an independent front-to-back reference definition.
- `describe.dfy` (module `Describe`): `formatDistance`, the duration line and
  the description text.
- `track.dfy` (module `Annotation`): one iteration of the track loop, and the
  loop over all tracks.
- `pass.dfy` (module `Pass`): the root checks, the creator credit, the whole
  pass `Annotate`, and `Run`, which maps a run's outcome to its exit status.

The model follows the code where descriptions of the tool say otherwise:

- An existing description is appended to, not replaced. The header comment
  (gpxannotate.py:5-6) says the tool "sets" the description.
- A track with no points is skipped entirely, so its rename does not happen.
- Only points of tracks with two or more points are checked for `lat`/`lon`.
  A lone point is never checked.
- The header comment (gpxannotate.py:14) documents exit 5 for a file without
  "tracks and/or points". The code exits 5 only when there is no `<trk>` at all.
  A document whose tracks all have no points is annotated, credited and
  written, with exit 0. The model follows the code.

Floats are modelled as exact `real`s. The left-to-right order of the sum is
kept anyway.

## Model

| member | source | states |
|---|---|---|
| Gpx.ExitCode | gpxannotate.py:8-15 | only the no-tracks failure exits 5; every other post-parse failure exits 4 |
| Gpx.Points | gpxannotate.py:113 | the flattened point list is empty exactly when every segment of the track is empty |
| Gpx.PointsInOrder | gpxannotate.py:113 | the points of a track are its segments' points joined in document order: the points of a concatenation are the points of each part, in order |
| Gpx.TracksAreTrkChildren | gpxannotate.py:102 | as a set, the tracks found are exactly the root's `<trk>` children |
| Gpx.TracksInOrder | gpxannotate.py:102 | the tracks found keep document order and multiplicity: the tracks of a concatenation are the tracks of each part, in order |
| Gpx.ReplaceTracks | gpxannotate.py:109-110 | mutating the found tracks in place yields exactly the new tracks, in order, the other children in the same order, and as many children as before |
| Gpx.ReplaceTracksInPlace | gpxannotate.py:109-110 | every child keeps its position and kind, and every non-track child is left exactly as it was |
| Gpx.ReplaceOwnTracks | gpxannotate.py:102 | putting back the tracks that were found leaves the children unchanged |
| Distance.Leg | gpxannotate.py:132-149 | a pair succeeds exactly when both points have parsable `lat` and `lon`; a missing attribute reports missing coordinates, else an unparsable one reports invalid ones, both naming the track |
| Distance.TrackDistance | gpxannotate.py:130-149 | the distance loop gives 0 for fewer than two points; a failure names this track, and only happens when some consecutive pair has a point without usable coordinates |
| Distance.TrackDistanceSucceeds | gpxannotate.py:130-147 | the distance loop fails exactly when the track has two or more points and one of them is unusable; a lone point is never checked |
| Distance.TrackDistanceValue | gpxannotate.py:130-149 | the distance is the polyline length summed over consecutive pairs, and 0 for fewer than two points |
| Distance.TrackDistanceError | gpxannotate.py:135-147 | a failing distance loop names the current track and exits with status 4 |
| Distance.FailureIsFinal | gpxannotate.py:139-147 | once a prefix of the pairs fails, the whole loop fails with that same error |
| Distance.ComputeDistance | gpxannotate.py:130-149 | the running-total loop computes the same result, or the same first error, as the fold |
| Describe.FormatDistance | gpxannotate.py:57-61 | the km branch is taken exactly when the distance is at least 1000; the text is then exactly the two-decimal rendering of dist/1000 followed by " km" (prefix, suffix and length), and otherwise exactly the rendering of dist followed by " m" |
| Describe.DurationText | gpxannotate.py:164-168 | the duration line is exactly "Duration: " + span + " (" + start stamp + " to " + end stamp + ")": that prefix, the closing " to " + end stamp + ")" suffix, and the length of the whole |
| Describe.Description | gpxannotate.py:121-169 | the new text is exactly [old + "\n"] + "Distance: " + distance + ["\n" + duration line]: the old text, newline and distance line prefix it, a created one starts with the distance line, the duration line ends it, and its length is the sum of those parts |
| Describe.DescriptionShape | gpxannotate.py:122-169 | the new description is exactly old + "\n" + "Distance: " + distance for an existing one and "Distance: " + distance for a created one when no duration line follows; with a duration line the text ends with "\n" + that line |
| Annotation.Rename | gpxannotate.py:172-180 | track i takes names[i] when it exists, the name element being created if absent; otherwise the track is unchanged; segments and description never change |
| Annotation.AnnotateTrack | gpxannotate.py:109-180 | a track with no points is returned unchanged; the points of a track are never changed |
| Annotation.TrackFailsIff | gpxannotate.py:130-147 | a track fails exactly when it has at least two points and one lacks or cannot parse a coordinate; the failure names the track and exits 4 |
| Annotation.LonePointNeverChecked | gpxannotate.py:130-151 | a one-point track always succeeds, even without `lat`/`lon`, with distance 0 and no duration line |
| Annotation.TrackDescription | gpxannotate.py:121-169 | a track with points gets description old+"\n" (if any) + "Distance: " + format(polyline length) + optional duration line |
| Annotation.ExistingDescriptionKept | gpxannotate.py:122-127 | an existing description is appended to, never replaced; a created one starts with "Distance: " |
| Annotation.DurationAppendedIff | gpxannotate.py:155-169 | the description ends with "\n" + the duration line exactly when there are more than one point and both end points have a time, and with the distance line otherwise |
| Annotation.RenameIff | gpxannotate.py:114-180 | a track is renamed to names[i] exactly when it has points and i < number of names; otherwise its name is unchanged |
| Annotation.ForEachTrack | gpxannotate.py:109-110 | a loop over tracks with their positions succeeds exactly when every step does, result k coming from step k; on failure the error is that of the first failing step |
| Annotation.AnnotateTracks | gpxannotate.py:109-117 | the loop succeeds exactly when every track does, result k being the annotation of track k at index k; on failure the error is that of the first failing track |
| Pass.CheckRoot | gpxannotate.py:91-106 | the root is accepted exactly when version is non-empty, the tag ends with "}gpx", the version is "1.0" and there is at least one track |
| Pass.Credit | gpxannotate.py:183-190 | an absent or empty creator becomes the tool name; otherwise the result is exactly the old creator, " (processed by ", the tool name and ")": the first two prefix it, the last two end it, and nothing else fits in its length |
| Pass.Annotate | gpxannotate.py:91-190 | a successful pass keeps the root tag, the other children and the number of tracks |
| Pass.RootRejected | gpxannotate.py:91-99 | a missing or empty version or a wrong root tag fails as not-GPX, and a version other than "1.0" as unsupported, before tracks are looked at; both exit 4 |
| Pass.NoTracksRejected | gpxannotate.py:102-106 | for a valid root, the run fails with no-tracks exactly when there is no `<trk>`, and then exits 5 |
| Pass.AnnotateResult | gpxannotate.py:109-190 | a successful pass changes only creator among root attributes, leaves other children in place, and puts at each track position the annotation of the track at that index |
| Pass.EmptyTracksUntouched | gpxannotate.py:113-117 | a track without points comes out identical, not even renamed |
| Pass.AnnotateSucceedsIff | gpxannotate.py:91-147 | the pass succeeds exactly when the root checks pass and every track with two or more points has only usable points |
| Pass.Run | gpxannotate.py:68-226 | a run writes a document exactly when it exits 0; too few arguments exit 1, an unopenable file exits 2 and an unparsable one exits 3, all without writing |
| Pass.RunWritesOnlyOnSuccess | gpxannotate.py:183-226 | an annotation error exits with its status and writes nothing; otherwise the annotated document is written (exit 0) unless writing fails (exit 6, nothing written) |

## Left out

- XML parsing and serialisation are not modelled. This covers ElementTree, namespace registration, the XML declaration and encoding. The document is an abstract tree, and a failed load is given to `Run` as "cannot open" (exit 2) or "cannot parse" (exit 3).
- Sub-element order inside a `<trk>` is not modelled. A created `<desc>` or `<name>` is appended as the track's last child. The model keeps name and description as fields. Only the first `<desc>`/`<name>` of a track is modelled, as `find` uses only that one. The other children of `<trk>`, `<trkseg>` and `<trkpt>` (`cmt`, `number`, `ele`, extensions, ...) are not represented at all. The pass never reads or changes them.
- `EarthDistance`, `float()`, `'%.2f'`, `dateutil` parsing, datetime subtraction, `strftime` and `os.path.basename` are foreign code. They appear only as the uninterpreted functions of `Env`.
- Float special values are not modelled. `float()` also accepts `"nan"`, `"inf"` and `"-inf"`, and no `real` behaves like them. A NaN leg keeps the Python sum NaN. `NaN >= 1000` is false, so the source then prints metres.
- Describe.FormatDistance: the km-iff-at-least-1000 promise holds of the exact real sum; for a NaN distance the source takes the metres branch whatever the legs add up to.
- Float rounding is not modelled. Distances are exact reals. Python 2 integer division in `dist / 1000` would only matter for an integer distance of 1000 m or more, which the float sum never produces.
- Temporary-file creation, write, flush, fsync, close, rename and unlink are not modelled. `Run` takes their combined success as a parameter, and writing fails with exit 6.
- Pass.Run: treats every write failure as exit 6. In the source, several failures end the program with an uncaught exception (exit 1 and a traceback) instead:
  - a failing `flush`/`fsync`/`close` (gpxannotate.py:214-216), which is outside both `try` blocks;
  - the `UnicodeDecodeError` from the creator credit at line 188 for a non-ASCII creator and a non-ASCII program path, which happens before anything is written (see `Pass.Credit` below);
  - an error from `gpxTree.write` (line 202) that is not an `EnvironmentError`, such as the `UnicodeDecodeError` Python 2 raises when a non-ASCII rename argument is encoded. This leaves the temporary file behind, since it was created with `delete=False`;
  - a `UnicodeEncodeError` for a non-ASCII track name from the `print` calls whose stream cannot encode it. The progress line at line 119 goes to standard output. The warning at line 116 and the coordinate errors at lines 137 and 145 go to standard error, as does the unsupported-version message at line 97 for a non-ASCII version. So with standard error redirected to a file, a coordinate error on a non-ASCII-named track ends with exit 1, not with the exit 4 that `Annotation.TrackFailsIff` and `Pass.RootRejected` state.
- Pass.Credit: the joined creator assumes the old creator and the tool name can be concatenated. In Python 2, a non-ASCII `creator` attribute comes back as `unicode`. A program path with non-ASCII bytes gives a byte-string tool name. The `+=` at line 188 then raises an uncaught `UnicodeDecodeError`, so the run ends with exit 1 and writes nothing. No temporary file exists yet at that point.
- Annotation.TrackFailsIff: the exit 4 it states assumes the error message can be printed. A non-ASCII track name on a standard error that cannot encode it ends the run with exit 1 instead (see the `UnicodeEncodeError` case above).
- Pass.RootRejected: the same holds for the unsupported-version message (line 97) with a non-ASCII version.
- Console output is not modelled. This includes progress lines, warnings, error messages and the `#i` fallback name used only in messages.
- Crashes are not modelled:
  - an existing `<desc/>` whose text is `None`, which makes `+=` raise;
  - a `<time>` whose text is missing or unparsable, which makes `dateutil` raise;
  - a first and last `<time>` where one carries a time zone and the other does not (`...T10:00:00Z` and `...T11:00:00`). The subtraction at line 162 then raises `TypeError`.
  
  The model treats description text as always a string and timestamps as always renderable.
