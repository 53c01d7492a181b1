# clip_forge core, modelled in Dafny

clip_forge is a desktop video-clip editor: an Electron main process drives the
FFmpeg tool, and a Vue renderer holds the media library and the timeline in two
Pinia stores. This project models the logic of both sides, and of the renderer's
browser stand-ins for Node's `path`, `util` and `os` modules, and proves
properties of that model.

One module per source file:

- `TimelineStore` (`timeline_store.dfy`) models `src/stores/timelineStore.js`. A
  `Timeline` class holds the tracks, each with its clips in order. Its methods are
  the store's actions, with the loops of `getTotalDuration`, `removeClip`,
  `syncWithMediaFiles` and `getClipsAtTime` kept. The specification functions
  describe:
  - the total duration (the latest clip end);
  - the clip lookups by id;
  - the media-clip placement;
  - the even/odd sync;
  - the clips covering a time;
  - the removal of a track;
  - the clamps and the selection toggle.

  Lemmas state what each action does to the collection of clips, to the total
  and to the back-to-back layout of a track.
- `MediaStore` (`media_store.dfy`) models `src/stores/mediaStore.js`. A `Store`
  class holds the record list. It covers:
  - creating the records for a batch;
  - the sequential enrichment pass, with its per-file failure isolation and the
    critical/degraded classification of errors;
  - the thumbnail update;
  - removal by id.
- `FfmpegHandler` (`ffmpeg_handler.dfy`) models `electron/ffmpeg-handler.js`. It
  covers:
  - frame-rate parsing and the extension allow-list;
  - the order of the metadata preconditions;
  - probe-error classification and normalisation with defaults;
  - the three-tier metadata fallback;
  - the thumbnail retry over a fixed list of offsets;
  - duration formatting;
  - the availability flag as an event-driven state machine (`AvailabilityMonitor`).
- `FfmpegService` (`ffmpeg_service.dfy`) models `src/services/ffmpeg.js`. It
  covers:
  - the renderer service's availability gate;
  - its metadata shape;
  - its thumbnail command;
  - the quality-to-CRF lookup;
  - the concatenation dispatch on the number of inputs;
  - the trim job.
- `VideoProcessor` (`video_processor.dfy`) models `src/services/videoProcessor.js`:
  - processing one file into a video record;
  - the batch loop that partitions inputs into successes and errors.
- `PathPolyfill`, `UtilPolyfill` and `OsPolyfill` (`path.dfy`, `util.dfy`, `os.dfy`)
  model `src/polyfills/path.js`, `src/polyfills/util.js` and `src/polyfills/os.js`.
- `Wrappers`, `Strings` and `JsNumbers` are shared helpers:
  - the Option and Result types;
  - JavaScript string operations over `seq<char>`;
  - `Number`, `parseInt` and `parseFloat` on decimal text;
  - the `x || d` default.

Conventions:

- **Outside effects become parameters.** Whatever the code learns from outside
  arrives as a parameter:
  - the tool's replies (ffprobe results, a render's outcome, the reply to
    `-version` and `-formats`);
  - `fs` existence and `stat` results, and whether `mkdirSync` throws;
  - the order in which the availability events arrive;
  - clock readings and random ids;
  - whether the desktop bridge is present.
- **Null values.** JavaScript `null` and `undefined` are both `None`.
- **Errors.** A thrown or rejected `Error` is `Failure(message)`.
- **Times and sizes.** These are JavaScript doubles in the source. They are `real`
  here, so no property depends on floating-point rounding. NaN is represented
  only where it changes a result, in the frame-rate parse (`JsNumbers.JsNum`).
- **Helpers modelled once.** `parseFPS` and `formatDuration` in
  `src/services/ffmpeg.js` are the same code as the handler's, so they are
  modelled once, in `FfmpegHandler`. `isSupportedVideoFormat` is the same code
  too, but it runs against a different `path` module on each side: Node's in
  the main process (`require('path')`) and, read here as the renderer's
  resolution of `import path from 'path'`, the polyfill of
  `src/polyfills/path.js`. So it is modelled on both sides, and a lemma states
  where the two differ.
- **Specification helpers.** Some functions and predicates are the
  definitions that the contracts of the rows below are written in, each one
  step of a single store action, and they have no row of their own:
  - in `TimelineStore`: `MaxEnd` (the latest clip end, from 0), `SyncAll`
    (the placement of `syncWithMediaFiles`), `ApplyPatch` (a clip with the
    caller's keys spread over the defaults), `RemoveTrackOf` (the track list
    after `removeTrack`) and `Covers` (the test of `getClipsAtTime`);
  - in `MediaStore`: `ApplyMetadata`, `ApplyFailure` and `ApplyThumbnail`
    (one record after a probe success, a probe failure and a renderer
    answer), `IsCritical` (the critical-error test), `ProcessRecord` (one
    record's part of a processing pass) and `RemoveFirst` (the list after
    `removeMediaFile`).
  The methods and lemmas that use them carry the rows.
- **Not part of this model:** `src/services/ffmpeg-ipc.js`,
  `src/services/electronAPI.js` and `electron/main.cjs`.

## Model

| member | source | states |
|---|---|---|
| TimelineStore.MaxEndBounds | src/stores/timelineStore.js:66-77 | the total duration is at least 0, no clip ends after it, and it is 0 or the end of some clip |
| TimelineStore.MaxEndAppend | src/stores/timelineStore.js:70-73 | one more clip raises the total to its end exactly when it ends later than the total so far |
| TimelineStore.MaxEndStep | src/stores/timelineStore.js:69-74 | one step of the inner scan keeps the running maximum equal to the maximum end of the clips seen so far |
| TimelineStore.MaxEndSubset | src/stores/timelineStore.js:66-77 | the latest end over a subset of the clips is no later than over all of them |
| TimelineStore.MaxEndSameElements | src/stores/timelineStore.js:66-77 | the total depends only on which clips there are, not on their order or track |
| TimelineStore.FewerMembers | src/stores/timelineStore.js:169 | a sequence that is another minus one element holds only elements of the other |
| TimelineStore.MaxEndSameMultiset | src/stores/timelineStore.js:66-77 | two clip collections with the same members, counted, have the same total |
| TimelineStore.AllClipsConcat | src/stores/timelineStore.js:68-69 | visiting the tracks of two lists in turn visits the clips of the first list, then those of the second |
| TimelineStore.AllClipsStep | src/stores/timelineStore.js:68-69 | the outer scan's next track adds that track's clips after those seen so far |
| TimelineStore.AllClipsAround | src/stores/timelineStore.js:68-69 | the timeline's clips are those of the tracks before track t, then track t's, then those after |
| TimelineStore.WithClips | src/stores/timelineStore.js:160 | changing one track's clips keeps the number of tracks and every track id |
| TimelineStore.WithClipsCount | src/stores/timelineStore.js:160-161 | replacing one track's clips changes the clip count by the difference in that track's length |
| TimelineStore.WithClipsContents | src/stores/timelineStore.js:169 | replacing one track's clips replaces exactly those clips among all the timeline's clips, in place and counted with repeats |
| TimelineStore.FindTrack | src/stores/timelineStore.js:42-44 | `getTrackById` finds the first track with the id, and reports none exactly when no track has it |
| TimelineStore.FindTrackSameIds | src/stores/timelineStore.js:42-44 | the track lookup depends only on the track ids |
| TimelineStore.ClipIndex | src/stores/timelineStore.js:167 | `findIndex` by id gives the first clip with the id, and -1 exactly when the track has no such clip |
| TimelineStore.LocateFrom | src/stores/timelineStore.js:46-52 | from track t on, the scan finds the first track holding a clip with the id and that clip's first position, and nothing exactly when no later track holds one |
| TimelineStore.Locate | src/stores/timelineStore.js:46-52 | `getClipById` finds the first track holding a clip with the id and the first such clip in it, and null exactly when no track holds one |
| TimelineStore.LocateAt | src/stores/timelineStore.js:166-172 | the track where the in-order scan of `removeClip` stops is the one `getClipById` reports |
| TimelineStore.RemoveAtContents | src/stores/timelineStore.js:169 | `splice(index, 1)` takes out exactly the clip at the index and keeps all the others |
| TimelineStore.NewClip | src/stores/timelineStore.js:152-158 | `addClip`'s clip takes each key the caller gave and otherwise the generated id, start 0, 5 seconds and the name 'New Clip' |
| TimelineStore.AddMedia | src/stores/timelineStore.js:178-212 | adding a media clip keeps the number of tracks and every track id |
| TimelineStore.AddMediaCount | src/stores/timelineStore.js:181-208 | adding a media clip to a known track adds exactly one clip to the timeline |
| TimelineStore.AppendKeepsContiguous | src/stores/timelineStore.js:188-189 | a clip started where the track's last clip ends keeps the track back to back from time 0 |
| TimelineStore.AddMediaKeepsContiguous | src/stores/timelineStore.js:178-212 | adding a media clip leaves back to back every track that was |
| TimelineStore.SyncInto | src/stores/timelineStore.js:224-227 | adding the files one by one keeps the number of tracks and every track id |
| TimelineStore.SyncContiguous | src/stores/timelineStore.js:218-227 | after the sync, every track's clips run back to back from time 0 |
| TimelineStore.HoldsEveryGrows | src/stores/timelineStore.js:224-227 | the track that file n's parity selects gains that file's clip after the clips of the earlier files of the same parity |
| TimelineStore.HoldsEveryKept | src/stores/timelineStore.js:224-227 | the track of the other parity keeps its clips, which still match its files |
| TimelineStore.PlacedStep | src/stores/timelineStore.js:224-227 | adding the next file to the track its parity selects keeps even files on the first track, odd files on the second and nothing elsewhere |
| TimelineStore.SyncPlacement | src/stores/timelineStore.js:218-227 | from empty tracks with both targets present, the files at even positions end up on the even target and those at odd positions on the odd target, in input order, one clip each, and every other track stays empty |
| TimelineStore.SyncCountStep | src/stores/timelineStore.js:225-226 | the last file, added to a known track, adds one clip |
| TimelineStore.SyncCount | src/stores/timelineStore.js:218-227 | from empty tracks with both targets present, the sync makes exactly one clip per file |
| TimelineStore.SyncWithDefaultTracks | src/stores/timelineStore.js:215-231 | with 'track1' and 'track2' present, the sync puts even positions on 'track1' and odd ones on 'track2', in order and back to back, nothing on other tracks, and the total clip count is the number of files |
| TimelineStore.TrackHitsSound | src/stores/timelineStore.js:57-61 | every entry from one track is a clip of that track covering the time, paired with the track |
| TimelineStore.TrackHitsComplete | src/stores/timelineStore.js:57-61 | every clip of a track that covers the time, ends included, is reported with the track |
| TimelineStore.ClipsAtTimeSound | src/stores/timelineStore.js:54-64 | every entry of `getClipsAtTime` is a clip of some track covering the time, paired with that track |
| TimelineStore.ClipsAtTimeComplete | src/stores/timelineStore.js:54-64 | every clip of every track that covers the time is among the entries |
| TimelineStore.ClipsAtTimeMembers | src/stores/timelineStore.js:54-64 | an entry is reported if and only if some track holds a clip whose span, ends included, contains the time |
| TimelineStore.AppendedClipContents | src/stores/timelineStore.js:160 | pushing a clip onto a track adds exactly that clip to the timeline's clips |
| TimelineStore.AppendedClip | src/stores/timelineStore.js:160-161 | after `addClip` the total is the later of the old total and the new clip's end, and there is one clip more |
| TimelineStore.RemovedClipContents | src/stores/timelineStore.js:169 | the splice in `removeClip` takes exactly the removed clip out of the timeline's clips |
| TimelineStore.RemovedClip | src/stores/timelineStore.js:169-170 | after `removeClip` there is one clip fewer, the others are kept, and the total never grows |
| TimelineStore.MovedClip | src/stores/timelineStore.js:250-258 | a move keeps the number of clips, exchanges the clip for its copy with the new start, and leaves that copy last on the target track |
| TimelineStore.PatchedClip | src/stores/timelineStore.js:236 | `updateClip` keeps the number of clips |
| TimelineStore.ClearClips | src/stores/timelineStore.js:322-324 | clearing keeps every track and its id and empties its clips |
| TimelineStore.EmptyTracks | src/stores/timelineStore.js:66-77 | tracks without clips hold no clip and give a total of 0 |
| TimelineStore.RemoveTrackEffect | src/stores/timelineStore.js:126-134 | an unknown id or a single track leaves the tracks unchanged; otherwise exactly the first track with the id goes and the others keep their order; a timeline with a track always keeps one |
| TimelineStore.RemoveTrackLeavesTotalStale | src/stores/timelineStore.js:126-134 | removing the track that holds the only clip, of positive end, drops the tracks' total from that end to 0 while the action leaves the stored total as it was |
| TimelineStore.Clamp | src/stores/timelineStore.js:289 | `Math.max(lo, Math.min(x, hi))` lies in [lo, hi], is x when x does, and is the nearer bound otherwise |
| TimelineStore.ZoomInGrows | src/stores/timelineStore.js:292-294 | zooming in never lowers the zoom and raises it whenever it is below 10 |
| TimelineStore.ZoomOutShrinks | src/stores/timelineStore.js:296-298 | zooming out never raises the zoom and lowers it whenever it is above 0.1 |
| TimelineStore.Without | src/stores/timelineStore.js:268 | the filter keeps exactly the ids other than the given one, is no longer than its input, and changes nothing when the id is absent |
| TimelineStore.WithoutConcat | src/stores/timelineStore.js:268 | filtering a concatenation is concatenating the filtered parts, so the filter keeps the order of what it keeps |
| TimelineStore.WithoutNoDuplicates | src/stores/timelineStore.js:268 | filtering a selection without repeats gives one without repeats |
| TimelineStore.ToggleEffect | src/stores/timelineStore.js:266-271 | a multi-select toggle flips the id's membership, leaves every other id as it was, and never creates a repeat |
| TimelineStore.Timeline.constructor | src/stores/timelineStore.js:4-39 | the initial timeline has two empty tracks 'track1' and 'track2', 'track1' active, nothing selected, a total of 0 that is fresh, time 0, not playing, rate 1, zoom 1 and no selected track |
| TimelineStore.Timeline.GetTotalDuration | src/stores/timelineStore.js:66-77 | the nested loop returns the latest clip end over all tracks, or 0 |
| TimelineStore.Timeline.UpdateTotalDuration | src/stores/timelineStore.js:305-307 | the stored total becomes the latest clip end; tracks and view settings are unchanged |
| TimelineStore.Timeline.SetCurrentTime | src/stores/timelineStore.js:91-93 | the time becomes the given one, or 0 if that is negative; nothing else changes |
| TimelineStore.Timeline.SetPlaybackRate | src/stores/timelineStore.js:108-110 | the rate becomes the given one clamped to [0.1, 4]; nothing else changes |
| TimelineStore.Timeline.SetZoomLevel | src/stores/timelineStore.js:288-290 | the zoom becomes the given one clamped to [0.1, 10]; nothing else changes |
| TimelineStore.Timeline.ZoomIn | src/stores/timelineStore.js:292-294 | the zoom becomes 1.5 times the old one, clamped; nothing else changes |
| TimelineStore.Timeline.ZoomOut | src/stores/timelineStore.js:296-298 | the zoom becomes the old one divided by 1.5, clamped; nothing else changes |
| TimelineStore.Timeline.ZoomToFit | src/stores/timelineStore.js:300-302 | the zoom becomes 1; nothing else changes |
| TimelineStore.Timeline.AddClip | src/stores/timelineStore.js:148-163 | null and no change exactly when no track has the id; otherwise the new clip goes last on the first track with the id and the total is refreshed |
| TimelineStore.Timeline.RemoveClip | src/stores/timelineStore.js:165-175 | true exactly when some track holds a clip with the id; then the first such clip of the first such track is removed and the total refreshed, else nothing changes |
| TimelineStore.Timeline.AddMediaFileAsClip | src/stores/timelineStore.js:178-212 | null and no change exactly when the track is unknown; otherwise the record's clip, with id 'clip_' and the record id, its duration or 5, starts where the track's last clip ends and goes last, and the total is refreshed |
| TimelineStore.Timeline.ClearTrackClips | src/stores/timelineStore.js:219-221 | every track's clips become empty; the total and view settings are unchanged |
| TimelineStore.Timeline.SyncWithMediaFiles | src/stores/timelineStore.js:215-231 | the tracks become the cleared tracks with the files added in order, even positions to 'track1' and odd to 'track2', and the total is refreshed |
| TimelineStore.Timeline.UpdateClip | src/stores/timelineStore.js:233-239 | an unknown id changes nothing; otherwise the given keys overwrite the first clip with the id, in place, and the total is refreshed |
| TimelineStore.Timeline.MoveClip | src/stores/timelineStore.js:241-262 | false and no change exactly when the clip or the target track is unknown; otherwise the clip leaves its track and goes last on the target with the new start, and the total is refreshed |
| TimelineStore.Timeline.GetClipsAtTime | src/stores/timelineStore.js:54-64 | the nested loop returns the clips covering the time, in track order and clip order |
| TimelineStore.Timeline.SelectClip | src/stores/timelineStore.js:265-275 | with multi-select the id is toggled in the selection, otherwise the selection becomes just that id; nothing else changes |
| TimelineStore.Timeline.RemoveTrack | src/stores/timelineStore.js:126-134 | as written: track removal as in RemoveTrackEffect, the active track falls back to the first remaining one when it was the removed id, and the stored total is left as it was |
| TimelineStore.Timeline.RemoveTrackRefreshed | src/stores/timelineStore.js:126-134 | the corrected removal: the same tracks and active track, and the total refreshed so the timeline stays valid |
| TimelineStore.Timeline.ClearAll | src/stores/timelineStore.js:321-329 | every track emptied but kept, time and total 0, no clip or track selected, other settings unchanged |
| MediaStore.DigitsAroundUnderscore | src/stores/mediaStore.js:36 | two numerals joined by '_' can be split back apart |
| MediaStore.MediaIdInjective | src/stores/mediaStore.js:36 | an id `media_<clock>_<index>` determines both its clock reading and its batch index |
| MediaStore.BatchIdsDistinct | src/stores/mediaStore.js:34-36 | whatever the clock reads for each file, the ids of one batch all differ |
| MediaStore.NewRecords | src/stores/mediaStore.js:33-56 | one record per input, in input order, with the input's name, path, size, type and modification time; duration, resolution, codec and thumbnail are null, no thumbnail flag or error is set, `isProcessing` is true, and the ids differ within the batch |
| MediaStore.FindIndex | src/stores/mediaStore.js:181 | `findIndex` by id gives the first record with the id, and -1 exactly when no record has it |
| MediaStore.FindIndexSameIds | src/stores/mediaStore.js:87-89 | an update that keeps every record's id in place does not change where an id is found |
| MediaStore.ThumbnailPathInjective | src/stores/mediaStore.js:151 | distinct ids get distinct files under 'temp/thumbnails/' |
| MediaStore.ProcessRecordKeepsId | src/stores/mediaStore.js:89-130 | no update changes a record's id |
| MediaStore.ProcessOne | src/stores/mediaStore.js:76-136 | one file of a pass updates only the first record with its id, keeps every id and the record count, and changes nothing when the record has been removed |
| MediaStore.ProcessAll | src/stores/mediaStore.js:76-137 | a whole pass keeps the record count and every id in place |
| MediaStore.ProcessOneAt | src/stores/mediaStore.js:87-120 | after one file, the record found by its id is the processed record and every other index holds what it held |
| MediaStore.ProcessAllLast | src/stores/mediaStore.js:76 | the last file of a pass acts on the store the earlier files left, at the index its id has in the original store |
| MediaStore.UntouchedRecord | src/stores/mediaStore.js:76-137 | a record that no file of the pass names comes through the pass unchanged |
| MediaStore.ProcessedRecord | src/stores/mediaStore.js:76-137 | failures are isolated: with distinct ids in the pass, each file's record ends up exactly as processing that file alone makes it, whatever happened to the files before or after it |
| MediaStore.AfterMetadata | src/stores/mediaStore.js:87-109 | after a successful probe: duration is the probe's; resolution is 'WxH' only when width and height are both non-zero, else 'Unknown'; codec is the probe's or 'Unknown'; processing stops; the basic flag and a non-empty reason are copied; a rendered thumbnail sets the path 'temp/thumbnails/<id>.jpg' and the flag, a failed one sets only the thumbnail error |
| MediaStore.AfterFailure | src/stores/mediaStore.js:111-136 | after a thrown probe: processing stops, duration is 0, resolution and codec are 'Unknown'; the message becomes the error exactly when it is critical and the metadata error exactly when it is not; the basic flag is the opposite of critical; no thumbnail is attempted |
| MediaStore.GateFailuresAreCritical | src/stores/mediaStore.js:116-118 | the handler's 'File does not exist' and 'File is empty' failures stay critical however the bridge wraps the message |
| MediaStore.PermissionDeniedIsCritical | src/stores/mediaStore.js:117 | the handler's permission-denied message stays critical however it is wrapped |
| MediaStore.DegradedWithoutKeyLetters | src/stores/mediaStore.js:116-118 | the classification keys on the three phrases only: a message lacking 'x', 'P' and 'y' (such as the handler's not-found and corrupted-file messages) is never critical |
| MediaStore.RemoveFirstEffect | src/stores/mediaStore.js:180-186 | removal is a no-op for an unknown id; otherwise exactly the first record with the id goes, and the others keep their order |
| MediaStore.SpliceFacts | src/stores/mediaStore.js:183 | `splice(k, 1)` leaves the elements before `k` and then those after it, one fewer in all |
| MediaStore.Store.constructor | src/stores/mediaStore.js:4-8 | the store starts empty, not loading, without error |
| MediaStore.Store.GetMediaFileById | src/stores/mediaStore.js:11-13 | the lookup finds nothing exactly when no record has the id, and otherwise a stored record with the id |
| MediaStore.Store.AddMediaFiles | src/stores/mediaStore.js:25-71 | the batch is the new records, appended after the existing ones in input order; loading ends false and the error is cleared |
| MediaStore.Store.GenerateThumbnail | src/stores/mediaStore.js:140-178 | nothing changes without a record or without the bridge; otherwise only that record changes, by the renderer's outcome |
| MediaStore.Store.ProcessFile | src/stores/mediaStore.js:77-136 | one loop iteration leaves the store as `ProcessOne` says (metadata update then thumbnail, or the failure update), and nothing else |
| MediaStore.Store.ProcessMediaFiles | src/stores/mediaStore.js:73-138 | the loop processes the files in order, each failure caught inside the loop, leaving the store as the whole pass says; without the bridge it returns at the first file and nothing changes |
| MediaStore.Store.RemoveMediaFile | src/stores/mediaStore.js:180-186 | the store becomes the store with the first record of the id removed |
| MediaStore.Store.ClearAllMediaFiles | src/stores/mediaStore.js:188-192 | no records and no error remain |
| MediaStore.Store.SetError | src/stores/mediaStore.js:194-196 | only the error changes, to the value given |
| MediaStore.Store.ClearError | src/stores/mediaStore.js:198-200 | only the error changes, to null |
| FfmpegHandler.ParseFps | electron/ffmpeg-handler.js:273-277 | `parseFPS` of a missing or empty frame rate is 0 (the ratio cases are the lemmas below) |
| FfmpegHandler.SplitRatio | electron/ffmpeg-handler.js:275 | "N/D" written in decimal splits at '/' into exactly its two numerals |
| FfmpegHandler.NoSlashInDigits | electron/ffmpeg-handler.js:275 | a numeral holds no '/' |
| FfmpegHandler.ParseFpsRatio | electron/ffmpeg-handler.js:273-277 | "N/D" with D non-zero gives N/D |
| FfmpegHandler.ParseFpsZeroDenominator | electron/ffmpeg-handler.js:276 | "N/0" gives N undivided, because 0 is falsy |
| FfmpegHandler.ParseFpsWhole | electron/ffmpeg-handler.js:275-276 | a plain "N" without a denominator gives N |
| FfmpegHandler.SupportedExtensionShape | electron/ffmpeg-handler.js:280 | each of the six listed extensions is a '.', then lower-case letters and digits without '.' or '/' |
| FfmpegHandler.LowerDot | electron/ffmpeg-handler.js:281-282 | a text whose lower-case form is a listed extension has that same shape |
| FfmpegHandler.SupportedByExtension | electron/ffmpeg-handler.js:279-283 | `dir/stem.ext` with a non-empty stem is supported when `ext`, lower-cased, is one of .mp4, .mov, .webm, .avi, .mkv, .m4v, in any letter case |
| FfmpegHandler.HiddenFileNotSupported | electron/ffmpeg-handler.js:279-283 | a hidden file named like an extension ('.mp4') has no extension and is not supported |
| FfmpegHandler.TrimTrailingSlashes | electron/ffmpeg-handler.js:281 | the path with the '/' characters it ends in cut off: a prefix of the path that does not end in '/', with only '/' removed |
| FfmpegHandler.NodeExtname | electron/ffmpeg-handler.js:281 | Node's POSIX `path.extname`: a suffix of the last segment once trailing '/' are ignored, starting with its only '.', shorter than the segment, and empty exactly when the segment is '..' or has no '.' after its first character |
| FfmpegHandler.IsSupportedVideoFormat | electron/ffmpeg-handler.js:279-283 | a supported path's last segment, lower-cased, ends in one of the six listed extensions after a non-empty stem |
| FfmpegHandler.TrailingSlashIgnored | electron/ffmpeg-handler.js:279-283 | a trailing '/' does not change whether the main process treats a path as a supported video |
| FfmpegHandler.FindStreamIndex | electron/ffmpeg-handler.js:154-155 | the index of the first stream of the kind asked for, or -1 when there is none |
| FfmpegHandler.NormalizeAudio | electron/ffmpeg-handler.js:173-178 | the audio part keeps the stream's codec name ('unknown' when missing or empty), and each of sample rate, channels and bit rate when present and non-zero, else 0 |
| FfmpegHandler.NormalizeProbe | electron/ffmpeg-handler.js:162-179 | field by field, the normalised object is the reported value or its default under JavaScript `\|\|`: duration 0, size the given default, bitrates 0, codec 'unknown', width and height 0, the frame rate parsed; audio exactly when there is an audio stream, normalised; never basic metadata |
| FfmpegHandler.ProbedMetadata | electron/ffmpeg-handler.js:154-179 | a probe report without a video stream fails with 'No video stream found in file'; otherwise it is the first video stream and the first audio stream normalised |
| FfmpegHandler.NormalizeDefaults | electron/ffmpeg-handler.js:162-179 | a report with every property missing normalises to duration 0, the size default, bitrate 0, codec 'unknown', zero dimensions and fps, and no audio |
| FfmpegHandler.ProbeErrorMessage | electron/ffmpeg-handler.js:139-148 | a probe error message is mapped by substring, checked in this order: 'Invalid data found' to corrupted, 'No such file' to not found, 'Permission denied' to permission denied, anything else to 'Failed to get video metadata: ' plus the message |
| FfmpegHandler.GetVideoMetadata | electron/ffmpeg-handler.js:107-191 | the checks come in order before probing: tool unavailable, file missing ('File does not exist: ' plus the path), size 0 ('File is empty'); then a timeout or a classified probe error; a successful probe gives exactly the report's normalised metadata with the file's size as default, or the no-video-stream failure; success has a non-zero size and no basic flag |
| FfmpegHandler.GetVideoMetadataWithOptions | electron/ffmpeg-handler.js:309-354 | the quiet-flag probe fails with its own timeout or with 'Fallback metadata extraction failed: ' plus the message; a successful probe gives exactly the report's normalised metadata with size default 0, or the no-video-stream failure |
| FfmpegHandler.GetBasicFileMetadata | electron/ffmpeg-handler.js:356-376 | it fails, with the ENOENT message of `statSync` for the path, exactly when the file cannot be stat'ed; otherwise it has the file's size, duration 0, bitrate 0, the video part 'unknown' 0x0 at 0 fps and bitrate 0, no audio, the basic flag set and the fixed reason |
| FfmpegHandler.GetVideoMetadataWithFallback | electron/ffmpeg-handler.js:286-307 | a file that exists always gets metadata; a standard success is returned as is; when it fails, a successful second probe is returned as is; when both fail, the result is the basic record (or its stat failure); the result is basic exactly when both probes failed |
| FfmpegHandler.FallbackBypassesAvailability | electron/ffmpeg-handler.js:286-354 | with the tool marked unavailable, a successful second probe still yields full (not basic) metadata, since that probe checks nothing |
| FfmpegHandler.ThumbnailCommandFor | electron/ffmpeg-handler.js:211-227 | the command seeks to the offset, takes one frame, has the size `WxH` with defaults 160 and 90, quality 2 by default, image2 format and overwrite |
| FfmpegHandler.GenerateThumbnail | electron/ffmpeg-handler.js:193-238 | it fails with 'FFmpeg is not available' first, then for a missing input, then with the raw message when creating the output directory throws; past those it succeeds, with the output path, exactly when rendering succeeds, and a render error becomes 'Failed to generate thumbnail: ' plus the message |
| FfmpegHandler.GenerateThumbnailWithFallback | electron/ffmpeg-handler.js:241-271 | the attempts are a prefix of the offsets 1, 0.5, 2, 5, 10; every attempt before the last failed; the result is the last attempt's; a failure means all five were tried and carries the error of offset 10 |
| FfmpegHandler.ThumbnailUnavailableTriesAll | electron/ffmpeg-handler.js:241-271 | with the tool unavailable every offset fails with the availability error |
| FfmpegHandler.Rem60 | electron/ffmpeg-handler.js:389 | JavaScript's `seconds % 60`: the remainder has the sign of the dividend, is less than 60 in size, and leaves a whole number of sixties |
| FfmpegHandler.FormatDuration | electron/ffmpeg-handler.js:387-391 | for a non-negative duration the text is the whole minutes, ':', and the whole seconds left over padded to two digits |
| FfmpegHandler.FormatDurationNegative | electron/ffmpeg-handler.js:387-391 | a negative duration gives a negative, unpadded text: -30 seconds is "-1:-30" |
| FfmpegHandler.TimerOverridesSuccess | electron/ffmpeg-handler.js:64-95 | as written, a successful quick check and a successful format listing are undone when the uncleared 5-second timer fires |
| FfmpegHandler.Replay | electron/ffmpeg-handler.js:64-95 | as written, every event overwrites the flag, so after a non-empty sequence of events the last one alone decides it |
| FfmpegHandler.StepCleared | electron/ffmpeg-handler.js:64-95 | corrected (see Findings): a close or a spawn error settles the quick check, the timer of a settled check changes nothing, the format listing leaves the timer as it was, and a settled check stays settled |
| FfmpegHandler.ReplayCleared | electron/ffmpeg-handler.js:64-95 | corrected (see Findings): once the quick check has settled, no sequence of events un-settles it |
| FfmpegHandler.ReplayClearedConcat | electron/ffmpeg-handler.js:64-95 | replaying two event lists one after the other, with the timer cleared once the quick check settles, is replaying their concatenation |
| FfmpegHandler.HarmlessKeepAvailable | electron/ffmpeg-handler.js:71-88 | once available with no timer pending, exit-code-0 closes, format listings and late timer firings keep the tool available |
| FfmpegHandler.ClearedTimerKeepsSuccess | electron/ffmpeg-handler.js:64-95 | with the timer cleared, a close with exit code 0 followed only by harmless events leaves the tool available |
| FfmpegHandler.AvailabilityMonitor.constructor | electron/ffmpeg-handler.js:64-70 | corrected (see Findings): the flag starts false, with the quick check's timer pending unless the spawn throws |
| FfmpegHandler.AvailabilityMonitor.OnProbeClose | electron/ffmpeg-handler.js:71-75 | corrected (see Findings): the close event sets the flag to whether the exit code is 0 and, unlike the source, clears the quick check's timer |
| FfmpegHandler.AvailabilityMonitor.OnProbeError | electron/ffmpeg-handler.js:77-81 | corrected (see Findings): a spawn error sets the flag false and, unlike the source, clears the quick check's timer |
| FfmpegHandler.AvailabilityMonitor.OnProbeTimer | electron/ffmpeg-handler.js:84-88 | corrected (see Findings): the timer sets the flag false only while the quick check is unsettled; the source sets it false whenever the timer fires |
| FfmpegHandler.AvailabilityMonitor.OnFormats | electron/ffmpeg-handler.js:43-60 | the format listing sets the flag true on success and false on error, and leaves the timer as it was |
| FfmpegService.Service.constructor | src/services/ffmpeg.js:10-14 | the service starts unavailable |
| FfmpegService.Service.CheckAvailability | src/services/ffmpeg.js:33-71 | afterwards the flag is true exactly when the module is loaded, offers `getAvailableFormats`, and that call reports no error |
| FfmpegService.GetVideoMetadata | src/services/ffmpeg.js:78-120 | it fails with the service's not-available message before probing; a probe error becomes 'Failed to get video metadata: ' plus the message; a probe without a video stream fails, exactly then, with 'No video stream found in file'; success passes the stream's codec, width and height through without defaults, and takes duration, size and bit rate from the format with 0 as default |
| FfmpegService.ServiceAgreesWithHandler | src/services/ffmpeg.js:98-115 | on the same report of a non-empty file, the service and the handler agree on duration, bit rates, frame rate and whether there is audio; the size agrees when reported, and otherwise it is 0 here and the file size in the handler |
| FfmpegService.ServiceThumbnailCommand | src/services/ffmpeg.js:135-150 | the service's thumbnail command seeks to the offset, takes one frame, and passes quality (default 2) and image2 without an overwrite flag |
| FfmpegService.ThumbnailCommandsDiffer | src/services/ffmpeg.js:146-149 | the service's command is the handler's without the trailing `-y` |
| FfmpegService.GenerateThumbnail | src/services/ffmpeg.js:130-161 | only availability is checked, first; the call succeeds with the output path exactly when rendering succeeds, and a render error becomes 'Failed to generate thumbnail: ' plus the message |
| FfmpegService.IsSupportedVideoFormat | src/services/ffmpeg.js:323-327 | the renderer's check: the polyfill's extension, lower-cased, is one of the six listed |
| FfmpegService.ExtnamesAgree | src/services/ffmpeg.js:325 | on a path not ending in '/', the polyfill's `extname` is Node's, except that for the segment '..' it gives '.' where Node gives '' |
| FfmpegService.SupportedFormatsAgree | src/services/ffmpeg.js:323-327 | on a path not ending in '/', the renderer and the main process agree on whether it is a supported video |
| FfmpegService.TrailingSlashSeparates | src/services/ffmpeg.js:323-327 | `dir/stem.ext/` with a listed extension is supported in the main process and not in the renderer |
| FfmpegService.CrfForQuality | src/services/ffmpeg.js:308-316 | as written: 'low' is 28, 'high' is 18, and every other name, 'lossless' included, is 23 |
| FfmpegService.QualityMap | src/services/ffmpeg.js:309-314 | the table has exactly the keys low, medium, high and lossless, and holds 0 exactly for lossless |
| FfmpegService.LosslessIsMedium | src/services/ffmpeg.js:313-315 | 'lossless' yields the same CRF as 'medium', 23, because its table value 0 is falsy |
| FfmpegService.CrfForQualityIntended | src/services/ffmpeg.js:308-316 | the corrected lookup gives 0 exactly for 'lossless' and agrees with the written one on every other name |
| FfmpegService.CrfOrdered | src/services/ffmpeg.js:309-314 | with the corrected lookup, CRF strictly increases from lossless through high and medium to low |
| FfmpegService.EncodeOutputOptions | src/services/ffmpeg.js:184-204 | both encoding calls pass the video codec (default libx264), the audio codec (default aac), preset fast, and the CRF of the quality (default medium) from the corrected lookup |
| FfmpegService.ConcatPlanFor | src/services/ffmpeg.js:175-205 | an empty input list fails with 'No input files provided'; exactly one input is a plain file copy; two or more are one encoding run over all inputs, in order, with no seek or duration |
| FfmpegService.ConcatenateVideos | src/services/ffmpeg.js:170-222 | availability is checked first, then the empty list; past them the call succeeds, with the output path, exactly when the planned copy or encoding succeeds; a failure is the run's message behind 'Failed to copy file: ' or 'Failed to concatenate videos: ' |
| FfmpegService.TrimJob | src/services/ffmpeg.js:238-254 | the trim job seeks to the start time and asks for `endTime - startTime` seconds of its one input |
| FfmpegService.TrimVideo | src/services/ffmpeg.js:233-272 | the call checks availability first, and succeeds with the output path exactly when the run succeeds; a run error becomes 'Failed to trim video: ' plus the message |
| FfmpegService.TrimReversedRange | src/services/ffmpeg.js:238 | the range is not validated: an end before the start is passed on as a negative duration |
| VideoProcessor.UnsupportedExtension | src/services/videoProcessor.js:22 | the extension in the message is empty exactly when the path has no '.', and otherwise is '.' plus the text after the last '.' of the whole path |
| VideoProcessor.FileName | src/services/videoProcessor.js:26 | the file name is the text after the last '/', else after the last '\\', else 'unknown'; it is never empty |
| VideoProcessor.FileNameOfPath | src/services/videoProcessor.js:26 | a non-empty name after the last '/' is taken as it is |
| VideoProcessor.FileNameOfDirectoryPath | src/services/videoProcessor.js:26 | a path ending in '/' (and holding no '\\') falls through both splits and shows up whole, slash included, as its own file name |
| VideoProcessor.BaseName | src/services/videoProcessor.js:33 | the base name is a prefix of the file name; it differs from it exactly when a final '.' is followed by at least one character and none of those is '/', and then it is the text before that '.' |
| VideoProcessor.BaseNameStripsExtension | src/services/videoProcessor.js:33 | a stem plus an extension like '.mp4' loses exactly the extension, whatever dots the stem holds |
| VideoProcessor.BaseNameWithoutDot | src/services/videoProcessor.js:33 | a name without '.' is its own base name |
| VideoProcessor.ThumbnailPath | src/services/videoProcessor.js:34 | the thumbnail path starts with 'temp/' and ends with '_thumb.jpg' |
| VideoProcessor.ThumbnailPathsCollide | src/services/videoProcessor.js:26-34 | the thumbnail path depends on the stem alone: files with the same stem in two directories, or with two supported extensions, get the same path |
| VideoProcessor.NameParts | src/services/videoProcessor.js:26-33 | `dir/stem.ext` with a supported extension has base name `stem` |
| VideoProcessor.ThumbnailRequestFor | src/services/videoProcessor.js:32-39 | the thumbnail is requested for the input path at offset 1, at the derived thumbnail path, with 160x90 and quality 2 |
| VideoProcessor.VideoRecord | src/services/videoProcessor.js:41-65 | the record has the path, the derived file name and thumbnail path, the id and creation time given, the size, duration, fps, codec, video and audio records and bit rate from the metadata, the formatted duration, the resolution `width` + 'x' + `height` (with 'undefined' for a missing side), and `isProcessed` true |
| VideoProcessor.ProcessVideoFile | src/services/videoProcessor.js:17-74 | every failure carries the prefix 'Failed to process video: '; an unsupported file fails with its extension before any probe; a metadata failure comes next; success needs the format check, the metadata and the thumbnail all to succeed, and then the record is built from that metadata |
| VideoProcessor.UnsupportedExtensionOf | src/services/videoProcessor.js:22 | for `prefix.ext` with no '.' in ext, the reported extension is `.ext` |
| VideoProcessor.UnsupportedReportsExtension | src/services/videoProcessor.js:20-24 | a rejected `prefix.ext` fails with 'Failed to process video: Unsupported video format: .ext' |
| VideoProcessor.UnsupportedWithoutDot | src/services/videoProcessor.js:20-24 | a rejected path without '.' is reported with an empty extension |
| VideoProcessor.Outcomes | src/services/videoProcessor.js:85-87 | there is one outcome per path, in order, each being that path's processing result |
| VideoProcessor.PartitionCount | src/services/videoProcessor.js:85-96 | every outcome lands in exactly one of the two lists |
| VideoProcessor.PartitionStep | src/services/videoProcessor.js:85-96 | one more outcome appends its record to the successes or its path and message to the errors, after the earlier entries |
| VideoProcessor.BatchTotals | src/services/videoProcessor.js:81-106 | the two lists of a batch number the files together, and every error carries the processing prefix |
| VideoProcessor.ErrorsPrefixed | src/services/videoProcessor.js:89-93 | the error entries keep the prefix that every failed outcome carries |
| VideoProcessor.Successes | src/services/videoProcessor.js:86-88 | a record is among the successes exactly when some outcome succeeded with it; there are no more successes than outcomes |
| VideoProcessor.Errors | src/services/videoProcessor.js:89-93 | every failed outcome is listed with its file's path and message; there are no more errors than outcomes |
| VideoProcessor.ErrorPaths | src/services/videoProcessor.js:89-93 | conversely, every error entry is some failed outcome's message, paired with that file's path |
| VideoProcessor.AllFailed | src/services/videoProcessor.js:85-105 | when every outcome fails there are no successes and one error per file |
| VideoProcessor.AllUnsupported | src/services/videoProcessor.js:81-106 | when every file is rejected by the format check, all of them are errors |
| VideoProcessor.ProcessMultipleVideos | src/services/videoProcessor.js:81-106 | the loop returns exactly the successes and the errors of the per-file outcomes, in input order; together they number the inputs, and every error carries the 'Failed to process video: ' prefix |
| PathPolyfill.CollapseSlashes | src/polyfills/path.js:8 | replacing every run of '/' by one '/' leaves no two adjacent slashes, never lengthens the text and keeps its first and last characters |
| PathPolyfill.CollapseIdentity | src/polyfills/path.js:8 | text without a run of slashes is left unchanged by the replacement |
| PathPolyfill.StripCollapsedIsClean | src/polyfills/path.js:79-80 | dropping one trailing '/' from collapsed text, with '/' for the empty result, gives a clean path (no runs of slashes and no trailing slash except the root) |
| PathPolyfill.Normalize | src/polyfills/path.js:77-81 | `normalize` always returns a clean path |
| PathPolyfill.NormalizeIdempotent | src/polyfills/path.js:77-81 | normalizing a normalized path changes nothing |
| PathPolyfill.NormalizeClean | src/polyfills/path.js:77-81 | a clean path is its own normal form |
| PathPolyfill.Join | src/polyfills/path.js:4-10 | `join` drops the empty arguments, joins the rest with '/' and normalizes the result, so the result is clean |
| PathPolyfill.NonEmptyConcat | src/polyfills/path.js:6 | filtering out empty strings distributes over concatenation of argument lists |
| PathPolyfill.JoinIgnoresEmpty | src/polyfills/path.js:4-10 | an empty argument anywhere among `join`'s arguments does not change the result |
| PathPolyfill.NonEmptyOfSegments | src/polyfills/path.js:6 | a list of proper segments passes the empty-string filter unchanged |
| PathPolyfill.JoinedSegmentsShape | src/polyfills/path.js:7-9 | segments joined by '/' have no run of slashes, and end in a segment character |
| PathPolyfill.JoinSegments | src/polyfills/path.js:4-10 | joining proper segments (non-empty, without '/') is plain concatenation with '/' between them |
| PathPolyfill.Resolve | src/polyfills/path.js:13-23 | `resolve` always returns text that starts with '/' and has no run of slashes |
| PathPolyfill.Dirname | src/polyfills/path.js:26-30 | `dirname` is the text before the last '/' when that is non-empty, and '/' otherwise (also when there is no '/') |
| PathPolyfill.LastSegment | src/polyfills/path.js:34-35 | the last piece of `split('/')` is exactly the text after the last '/', and holds no '/' |
| PathPolyfill.Basename | src/polyfills/path.js:33-42 | `basename` is the last segment, with `ext` removed from its end exactly when `ext` is non-empty and the segment ends with it |
| PathPolyfill.Extname | src/polyfills/path.js:45-49 | `extname` is a suffix of the last segment that starts with its only '.', shorter than the segment; it is empty exactly when the segment's last '.' is missing or is its first character |
| PathPolyfill.ExtnameOfFile | src/polyfills/path.js:45-49 | the extension of `dir/stem.ext` with a non-empty stem is `.ext` |
| PathPolyfill.ExtnameOfHiddenFile | src/polyfills/path.js:45-49 | a hidden file whose only '.' leads its name has no extension |
| PathPolyfill.Parse | src/polyfills/path.js:52-65 | the parts `parse` returns fit: the base is `basename(path)`, the dir `dirname(path)` and the extension `extname(path)`; name followed by extension is the base, the base holds no '/' and ends the path, and the root is '/' exactly for an absolute path |
| PathPolyfill.Format | src/polyfills/path.js:68-74 | `format` ends with the base, starts with the root when there is one, and is just the base without root and dir |
| PathPolyfill.SlashBeforeBase | src/polyfills/path.js:27-35 | in `dir/base` with base free of '/', the last '/' sits right before the base |
| PathPolyfill.ParseAppend | src/polyfills/path.js:52-65 | parsing `dir/base` with a non-empty dir gives back that dir and that base, and a root exactly when dir starts with '/' |
| PathPolyfill.FormatParseRoundTrip | src/polyfills/path.js:52-74 | `format(parse(p))` is `p` for `p = dir/base` with a non-empty dir and a proper segment as base |
| PathPolyfill.FormatDirAndBase | src/polyfills/path.js:68-74 | `format` of a non-empty dir and base whose root agrees with the dir's first character is `dir/base` |
| PathPolyfill.ParseRootFile | src/polyfills/path.js:52-65 | a file name at the root parses with root '/', dir '/' and the name as base |
| PathPolyfill.ParseBareFile | src/polyfills/path.js:52-65 | a bare file name parses with no root, dir '/' and the name as base |
| PathPolyfill.FormatParseRootLevel | src/polyfills/path.js:52-74 | for root-level and bare file names the round trip fails: both come back as `//name` |
| PathPolyfill.FormatRootDir | src/polyfills/path.js:68-74 | `format` of dir '/' with a base gives `//base`, whatever the root |
| PathPolyfill.CommonPrefixLength | src/polyfills/path.js:93-96 | the count of leading segments two lists share: they agree up to it and differ right after it unless one list ends |
| PathPolyfill.CommonPrefixUnique | src/polyfills/path.js:93-96 | any index the two lists agree up to and differ at (or where one ends) is that count |
| PathPolyfill.Relative | src/polyfills/path.js:89-102 | the counting loop returns one '../' per segment of `from` past the shared prefix, followed by the rest of `to` joined by '/' |
| PathPolyfill.RelativeSelf | src/polyfills/path.js:89-102 | a path is related to itself by the empty path |
| PathPolyfill.SplitAppendSegment | src/polyfills/path.js:90-91 | appending `/seg` adds exactly `seg` to the filtered segment list |
| PathPolyfill.RelativeToChild | src/polyfills/path.js:89-102 | from a directory to a child entry is the entry's name |
| PathPolyfill.RelativeToParent | src/polyfills/path.js:89-102 | from a child entry to its directory is `../` |
| UtilPolyfill.ExpandAtPlaceholder | src/polyfills/util.js:41-51 | at a `%s`, `%d`, `%j` or `%%` match, the output starts with that match's replacement and continues with the rest of the text and the arguments left after it |
| UtilPolyfill.ExpandAtChar | src/polyfills/util.js:41 | a character that does not start a match is copied and consumes no argument |
| UtilPolyfill.Format | src/polyfills/util.js:35-53 | `format` returns a non-string first argument unchanged; for a string, the scan with its running argument index yields exactly the left-to-right expansion: `%%` to '%' without using an argument, `%s`/`%d`/`%j` to the conversion of the next argument, or left verbatim once the arguments run out |
| UtilPolyfill.Expand | src/polyfills/util.js:41 | text without '%' comes back unchanged |
| UtilPolyfill.ExpandNoArgs | src/polyfills/util.js:42-43 | with no arguments, and no `%%` in the text, every placeholder stays verbatim |
| UtilPolyfill.ExpandSurplus | src/polyfills/util.js:43-45 | arguments beyond the number of consuming placeholders are silently dropped |
| UtilPolyfill.ExpandConcat | src/polyfills/util.js:40-45 | arguments are consumed strictly left to right: expanding `a + b` is expanding `a`, then `b` with the arguments `a` left over (when `a` does not end in an unfinished '%') |
| UtilPolyfill.ExpandConcatAtPlaceholder | src/polyfills/util.js:40-45 | the same split, in the case where `a` starts with a placeholder |
| UtilPolyfill.DropAfterPlaceholder | src/polyfills/util.js:43-45 | the arguments left after one placeholder and then the rest of the text are those the whole text leaves |
| UtilPolyfill.ExpandConcatAtChar | src/polyfills/util.js:40-45 | the same split, in the case where `a` starts with a plain character |
| UtilPolyfill.Inspect | src/polyfills/util.js:19-32 | `inspect` returns a string verbatim; a number or function through `String`; a boolean as 'true'/'false'; null and undefined as 'null'/'undefined'; an array as '[' + its items' texts joined with ', ' + ']'; the empty object as '{}' and any other object as '{ ' + each key, ': ' and its value's text, joined with ', ' + ' }' |
| UtilPolyfill.InspectArrayConcat | src/polyfills/util.js:25 | an array's elements print joined by ', ': inspecting `a + b` is the two element lists joined by ', ' inside brackets |
| UtilPolyfill.InspectSingleField | src/polyfills/util.js:26-29 | an object with one key prints as `{ key: value }` |
| UtilPolyfill.InspectSingleton | src/polyfills/util.js:25 | a one-element array prints as its element in brackets |
| UtilPolyfill.InspectStringAmbiguity | src/polyfills/util.js:20-25 | strings are not quoted, so the string 'null' prints like null, and `['a, b']` prints like `['a', 'b']` |
| UtilPolyfill.Deprecated.constructor | src/polyfills/util.js:146-147 | a fresh wrapper has not warned and has written nothing |
| UtilPolyfill.Deprecated.Call | src/polyfills/util.js:148-154 | every call forwards its arguments to the wrapped function and returns its result; after any call exactly one warning `DeprecationWarning: <message>` has been written, and a call after the first writes nothing more |
| UtilPolyfill.CallbackifyCall | src/polyfills/util.js:68-79 | the wrapper fails with the TypeError 'The last argument must be a function.' exactly when the last argument is missing or not a function; otherwise it forwards the other arguments and rethrows exactly what `fn` itself throws; a rejection calls the callback once with `(reason)`; a result calls it with `(null, result)`, and a second time with `(e)` exactly when that first call throws `e` |
| OsPolyfill.AgentPlatform | src/polyfills/os.js:7-12 | the lower-cased agent is searched for 'win', 'mac', 'linux': the result is one of 'win32', 'darwin', 'linux', and it is absent exactly when none of the three keywords occurs |
| OsPolyfill.Platform | src/polyfills/os.js:2-16 | a truthy `process.platform` is returned as is; otherwise, when there is a user agent and one of its keywords matches, the answer is `AgentPlatform`'s first match ('win', then 'mac', then 'linux'); 'darwin' when there is no agent or no keyword matches |
| OsPolyfill.AgentKeywordOrder | src/polyfills/os.js:9-11 | the keywords are tried in the order win, mac, linux and the first that occurs wins |
| OsPolyfill.DarwinAgentReadsAsWindows | src/polyfills/os.js:8-9 | any user agent containing "Darwin" (and no `process.platform`) is reported as 'win32', since "darwin" contains "win" |
| OsPolyfill.Arch | src/polyfills/os.js:17-22 | a truthy `process.arch` is returned, otherwise 'x64'; the result is never empty |
| JsNumbers.StringToNumber | electron/ffmpeg-handler.js:273-277 | `Number` of blank text is 0 |
| JsNumbers.ParseInt | electron/ffmpeg-handler.js:164-177 | `parseInt` is NaN exactly when, after blanks and a sign, no digit follows |
| JsNumbers.ParseFloat | electron/ffmpeg-handler.js:163 | `parseFloat` gives a number only when the text holds a digit; otherwise it is NaN |
| JsNumbers.DecimalTextConversions | electron/ffmpeg-handler.js:163-177 | the decimal digits of a whole number read back as that number by `Number`, `parseInt` and `parseFloat` alike |
| JsNumbers.ParseIntStopsAtNonDigit | electron/ffmpeg-handler.js:164-177 | `parseInt` reads the leading digits and ignores whatever follows the first non-digit |

## Left out

- `addTrack`, `updateTrack`, `setActiveTrack`, `play`, `pause`, `stop`, `selectTrack` and `clearSelection` (src/stores/timelineStore.js:95-106, 113-145, 277-285) are single-field assignments outside the modelled operations; `addTrack`'s id comes from the clock.
- `getTimelineWidth` and `hasClips` (src/stores/timelineStore.js:79-86) are display getters and are not modelled.
- `snapToGrid` (src/stores/timelineStore.js:33, 309-312) is not modelled: the state field and the action of the same name collide, so which one a caller reaches depends on the store library.
- `importFromMediaStore` (src/stores/timelineStore.js:315-318) only logs, so it is not modelled.
- Console logging is not modelled anywhere.
- `ClipPatch` covers only the `id`, `startTime`, `duration` and `name` keys of the spread in `addClip` and the `Object.assign` in `updateClip`. Any other key a caller passes is dropped.
- `TimelineStore.MovedClip`: does not state that the moved clip appears exactly once. It states a multiset exchange instead: one copy out, the re-timed copy in, and that copy last on the target track. The store does not keep clip ids unique, so "exactly once" does not hold for every timeline.
- Clip references are not modelled. `getClipById` and `getClipsAtTime` return shared JavaScript objects; here a track and a clip are values, so aliasing through a returned clip is outside the model.
- Times, durations, zoom and rate are `real`, not doubles. There is no float-exact zoom-in/zoom-out round trip and no NaN time.
- The ids and clock readings the source draws from `Date.now` and `Math.random` are not computed. They are parameters: the fresh id of `TimelineStore.Timeline.AddClip` and the clock readings of `MediaStore.Store.AddMediaFiles`.
- The desktop-bridge (IPC) wrapping of the media store's requests is outside the model. A request's reply is a parameter.
- `addMediaFiles`'s `catch` (src/stores/mediaStore.js:65-67) is not modelled. Record creation cannot throw in the model, so the path cannot be reached.
- The interleaving of other actions between the awaits of `processMediaFiles` is not modelled. It is started without being awaited, so the store's other actions may interleave. A removal between steps is treated by the lookup-by-id no-op lemmas, not by a concurrent schedule.
- `isLoading` is set and reset around the batch; only its final value is modelled.
- The `getMediaFilesCount` and `hasMediaFiles` getters (src/stores/mediaStore.js:15-21) are display getters and are not modelled.
- `qualityMap` lookups of inherited object keys (such as 'constructor') are not modelled: every such key is treated as unknown.
- `formatFileSize` (electron/ffmpeg-handler.js:379-385, src/services/ffmpeg.js:334-340) is not modelled: it is floating-point formatting with `Math.log` and `toFixed`. So `VideoProcessor.VideoData` has no `fileSizeFormatted` field.
- The 30 s, 15 s and 5 s timeouts and `waitForAvailability`'s polling are wall-clock behaviour and are not modelled. The availability flag is modelled over the order in which its events arrive.
- `spawn`, ffprobe, the ffmpeg run, `fs.existsSync`, `statSync` and `mkdirSync` are oracles: their outcomes are parameters.
- `setupFFmpeg` (electron/ffmpeg-handler.js:29-37, src/services/ffmpeg.js:19-31) only reads paths from the bundled binaries, so it is not modelled.
- `FfmpegService.EncodeOutputOptions`, `FfmpegService.ConcatPlanFor`, `FfmpegService.ConcatenateVideos`, `FfmpegService.TrimJob` and `FfmpegService.TrimVideo`: take the CRF from the corrected lookup, so for 'lossless' they pass 0 where the source passes 23 (see Findings).
- `FfmpegHandler.ParseFps`: its own contract states only the empty-input case. The ratio and whole-number cases are separate lemmas, stated over decimal numerals only.
- `JsNumbers.StringToNumber`: does not cover exponents, hexadecimal or `Infinity`; only decimal text is read.
- `JsNumbers.ParseFloat`: does not read an exponent ('1e3' gives 1 here, 1000 in JavaScript) or `Infinity`; ffprobe reports durations in plain decimal.
- `JsNumbers.ParseInt`: does not read the '0x' prefix as hexadecimal ('0x1A' gives 0 here, 26 in JavaScript); ffprobe reports sizes, rates and bit rates in decimal.
- `FfmpegHandler.IsSupportedVideoFormat`: models Node's POSIX `path` only; on Windows (`path.win32`) '\\' also separates segments, which the model does not capture.
- `FfmpegHandler.IsSupportedVideoFormat` and `FfmpegService.IsSupportedVideoFormat`: `toLowerCase` is modelled for ASCII letters only; a non-ASCII extension that folds to a listed one in JavaScript is not supported here.
- `FfmpegService.IsSupportedVideoFormat`: which module the renderer's `import path from 'path'` resolves to is a bundler setting outside the source; the model reads it as the polyfill of src/polyfills/path.js.
- Default arguments are not defaults here: the caller passes them, so `trackId = 'track1'` of `addMediaFileAsClip` (src/stores/timelineStore.js:178), `multiSelect = false` of `selectClip` (src/stores/timelineStore.js:265) and `timeOffset = 1` of both `generateThumbnail`s (electron/ffmpeg-handler.js:193, src/services/ffmpeg.js:130) are given explicitly.
- Destructuring defaults apply only to `undefined` in JavaScript, but `null` and `undefined` are both `None` here. So a thumbnail option `{ width: null }` gets the default 160 in `FfmpegHandler.ThumbnailCommandFor` and `FfmpegService.ServiceThumbnailCommand`, where the source writes 'nullx90'; the encoding options (codecs and quality) are affected in the same way.
- `createTrimmedVideo`, `concatenateVideos`, the temp-file cleanup helpers, `isFFmpegAvailable` and `getFFmpegService` in src/services/videoProcessor.js:115-265 are not modelled. The first two use `path` and `fs` without importing them, so they throw at once. The rest are accessors and deletions. `generateId` is a clock/random source and becomes a parameter.
- `promisify`, `inherits`, the `is*` predicates, and `log`, `debug`, `error`, `puts` and `print` in src/polyfills/util.js are not modelled. They are runtime reflection or console output.
- `String`, `Number` and `JSON.stringify` inside `format` are given as functions of the value, not as the full JavaScript conversions.
- The constant stubs of src/polyfills/os.js (`cpus`, `freemem`, `totalmem`, `uptime`, `hostname`, `release`, `networkInterfaces`; src/polyfills/os.js:23-30) are constants and carry no contract.
- `isAbsolute`, `sep` and `delimiter` of src/polyfills/path.js are a one-character test and constants, and carry no contract.

## Findings

| source | as written | input that shows it | evidently intended | confidence | as-written member | corrected member |
|---|---|---|---|---|---|---|
| src/services/ffmpeg.js:308-316 | `qualityMap[quality] \|\| qualityMap.medium` turns the table's 0 for 'lossless' into 23 | `getCRFForQuality('lossless')` gives 23 | CRF 0 for 'lossless'; only unknown names fall back to medium | not executed | `FfmpegService.CrfForQuality`, `FfmpegService.LosslessIsMedium` | `FfmpegService.CrfForQualityIntended` (used by `FfmpegService.EncodeOutputOptions`) |
| electron/ffmpeg-handler.js:64-95 | the 5-second timer of `checkAvailabilitySync` is never cleared and always sets `isAvailable` to false | the probe closes with exit code 0, the format listing succeeds, then the timer fires at 5 s: the tool is reported unavailable | the timer only counts while the quick check is unsettled | not executed | `FfmpegHandler.TimerOverridesSuccess` | `FfmpegHandler.ClearedTimerKeepsSuccess`, `FfmpegHandler.AvailabilityMonitor` |
| src/stores/timelineStore.js:126-134 | `removeTrack` splices out a track without calling `updateTotalDuration` | tracks a and b, with the only clip, ending after 0, on a; `removeTrack(a)` leaves `totalDuration` at that end while no clip remains | the total is recomputed as after every other change to the tracks | not executed | `TimelineStore.Timeline.RemoveTrack`, `TimelineStore.RemoveTrackLeavesTotalStale` | `TimelineStore.Timeline.RemoveTrackRefreshed` |
