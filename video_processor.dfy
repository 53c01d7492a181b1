/** The renderer's video processor: one file becomes a video record after a
    format check, a metadata request and a thumbnail request, and a list of
    files is processed one after another into successes and errors. The
    requests go to the main process; their answers are parameters. */
module VideoProcessor {
  import opened Strings
  import opened Wrappers
  import opened JsNumbers
  import opened FfmpegHandler

  const TempDir := "temp"
  const ProcessFailed := "Failed to process video: "

  /** The extension shown in the unsupported-format message: '.' and the text
      after the last '.', or nothing when the path has no '.'. */
  function UnsupportedExtension(path: string): (r: string)
    ensures r == "" <==> '.' !in path
    ensures r != "" ==> r[0] == '.' && '.' !in r[1..] && EndsWith(path, r[1..])
  {
    if '.' in path then
      var tail := Last(Split(path, '.'));
      SplitLastPiece(path, '.');
      "." + tail
    else ""
  }

  /** The file name: the text after the last '/', else after the last '\',
      else 'unknown'. */
  function FileName(path: string): (r: string)
    ensures r != ""
  {
    var slashTail := Last(Split(path, '/'));
    if slashTail != "" then slashTail
    else
      var backslashTail := Last(Split(path, '\\'));
      if backslashTail != "" then backslashTail else "unknown"
  }

  /** A name after the last '/' is taken as it is. */
  lemma FileNameOfPath(dir: string, name: string)
    requires name != "" && '/' !in name
    ensures FileName(dir + "/" + name) == name
  {
    var path := dir + "/" + name;
    assert path == dir + ['/'] + name;
    SplitLastPiece(path, '/');
    LastIndexOfAppend(dir, '/', name);
    assert path[|dir| + 1..] == name;
  }

  /** A path ending in '/' with no '\' is its own file name, slash included. */
  lemma FileNameOfDirectoryPath(dir: string)
    requires '\\' !in dir
    ensures FileName(dir + "/") == dir + "/"
  {
    var path := dir + "/";
    SplitLastPiece(path, '/');
    assert path[|path| - 1] == '/';
    assert LastIndexOf(path, '/') == |dir|;
    assert path[|dir| + 1..] == "";
    assert '\\' !in path;
    SplitWithoutSep(path, '\\');
  }

  /** `fileName.replace(/\.[^/.]+$/, '')`: a final '.' followed by at least
      one character, none of them '.' or '/', is removed with its tail. */
  function BaseName(name: string): (r: string)
    ensures StartsWith(name, r)
    ensures r != name <==> (LastIndexOf(name, '.') >= 0 && LastIndexOf(name, '.') < |name| - 1
                            && '/' !in name[LastIndexOf(name, '.') + 1..])
    ensures r != name ==> r == name[..LastIndexOf(name, '.')]
  {
    var k := LastIndexOf(name, '.');
    if k >= 0 && k < |name| - 1 && '/' !in name[k + 1..] then name[..k] else name
  }

  /** A name made of a stem and an extension such as '.mp4' loses exactly
      the extension, whatever dots the stem holds. */
  lemma BaseNameStripsExtension(stem: string, ext: string)
    requires |ext| >= 2 && ext[0] == '.' && '.' !in ext[1..] && '/' !in ext
    ensures BaseName(stem + ext) == stem
  {
    var name := stem + ext;
    assert name == stem + ['.'] + ext[1..];
    LastIndexOfAppend(stem, '.', ext[1..]);
    assert name[|stem| + 1..] == ext[1..];
    assert forall i :: 1 <= i < |ext| ==> ext[i] in ext;
  }

  /** A name without '.' is its own base name. */
  lemma BaseNameWithoutDot(name: string)
    requires '.' !in name
    ensures BaseName(name) == name
  {
  }

  /** Where the processor asks for the thumbnail of a file with this base name. */
  function ThumbnailPath(baseName: string): (r: string)
    ensures StartsWith(r, TempDir + "/") && EndsWith(r, "_thumb.jpg")
  {
    TempDir + "/" + baseName + "_thumb.jpg"
  }

  /** The thumbnail path depends on the file name alone: clips of the same
      name in two directories, or with two extensions, share one path. */
  lemma ThumbnailPathsCollide(dir1: string, dir2: string, stem: string, ext1: string, ext2: string)
    requires stem != "" && '/' !in stem
    requires Lower(ext1) in SupportedExtensions && Lower(ext2) in SupportedExtensions
    ensures ThumbnailPath(BaseName(FileName(dir1 + "/" + stem + ext1)))
         == ThumbnailPath(BaseName(FileName(dir2 + "/" + stem + ext2)))
  {
    NameParts(dir1, stem, ext1);
    NameParts(dir2, stem, ext2);
  }

  lemma NameParts(dir: string, stem: string, ext: string)
    requires stem != "" && '/' !in stem
    requires Lower(ext) in SupportedExtensions
    ensures BaseName(FileName(dir + "/" + stem + ext)) == stem
  {
    LowerDot(ext);
    var name := stem + ext;
    assert '/' !in name by {
      assert forall i :: 0 <= i < |name| ==> name[i] == (if i < |stem| then stem[i] else ext[i - |stem|]);
    }
    assert dir + "/" + stem + ext == dir + "/" + name;
    FileNameOfPath(dir, name);
    BaseNameStripsExtension(stem, ext);
  }

  /** The thumbnail request for a file. */
  datatype ThumbnailRequest = ThumbnailRequest(input: string, output: string, offset: real, opts: ThumbnailOptions)

  function ThumbnailRequestFor(path: string): (q: ThumbnailRequest)
    ensures q.input == path && q.offset == 1.0
    ensures q.output == ThumbnailPath(BaseName(FileName(path)))
    ensures q.opts == ThumbnailOptions(Some(160), Some(90), Some(2))
  {
    ThumbnailRequest(path, ThumbnailPath(BaseName(FileName(path))), 1.0, ThumbnailOptions(Some(160), Some(90), Some(2)))
  }

  /** What the main process answers for one file: the format check (false
      as well when the call itself fails), the metadata outcome, the thumbnail
      outcome for a request, and the id and creation time. */
  datatype FileReply = FileReply(
    supported: bool,
    metadata: Result<Metadata, string>,
    thumbnail: ThumbnailRequest -> Result<string, string>,
    id: string,
    createdAt: string)

  /** The video record of a processed file. */
  datatype VideoData = VideoData(
    id: string,
    fileName: string,
    filePath: string,
    fileSize: int,
    duration: real,
    durationFormatted: string,
    resolution: string,
    fps: JsNum,
    codec: Option<string>,
    thumbnailPath: string,
    video: VideoInfo,
    audio: Option<AudioInfo>,
    bitrate: int,
    createdAt: string,
    isProcessed: bool)

  /** A number in a template literal; undefined shows as 'undefined'. */
  function ShowInt(o: Option<int>): string {
    if o.None? then "undefined" else IntToDecimal(o.value)
  }

  /** The video record built from a file's path, its metadata, its id and
      its creation time. */
  function VideoRecord(path: string, metadata: Metadata, id: string, createdAt: string): (v: VideoData)
    ensures v.filePath == path && v.fileName == FileName(path) && v.isProcessed
    ensures v.thumbnailPath == ThumbnailRequestFor(path).output
    ensures v.fileSize == metadata.size && v.duration == metadata.duration && v.fps == metadata.video.fps
    ensures v.durationFormatted == FormatDuration(metadata.duration)
    ensures v.resolution == ShowInt(metadata.video.width) + "x" + ShowInt(metadata.video.height)
    ensures v.codec == metadata.video.codec && v.video == metadata.video && v.audio == metadata.audio
    ensures v.bitrate == metadata.bitrate && v.id == id && v.createdAt == createdAt
  {
    VideoData(
      id, FileName(path), path, metadata.size, metadata.duration, FormatDuration(metadata.duration),
      ShowInt(metadata.video.width) + "x" + ShowInt(metadata.video.height),
      metadata.video.fps, metadata.video.codec, ThumbnailRequestFor(path).output, metadata.video, metadata.audio,
      metadata.bitrate, createdAt, true)
  }

  /** `processVideoFile(filePath)`: the format check, the metadata request and
      the thumbnail request in that order; the first failure is reported
      under one prefix. */
  function ProcessVideoFile(path: string, reply: FileReply): (r: Result<VideoData, string>)
    ensures r.Failure? ==> StartsWith(r.error, ProcessFailed)
    ensures !reply.supported
      ==> r == Failure(ProcessFailed + "Unsupported video format: " + UnsupportedExtension(path))
    ensures (reply.supported && reply.metadata.Failure?) ==> r == Failure(ProcessFailed + reply.metadata.error)
    ensures r.Success? <==> reply.supported && reply.metadata.Success?
                            && reply.thumbnail(ThumbnailRequestFor(path)).Success?
    ensures r.Success? ==> r.value == VideoRecord(path, reply.metadata.value, reply.id, reply.createdAt)
  {
    if !reply.supported then
      Failure(ProcessFailed + "Unsupported video format: " + UnsupportedExtension(path))
    else if reply.metadata.Failure? then Failure(ProcessFailed + reply.metadata.error)
    else
      match reply.thumbnail(ThumbnailRequestFor(path))
      case Failure(e) => Failure(ProcessFailed + e)
      case Success(_) => Success(VideoRecord(path, reply.metadata.value, reply.id, reply.createdAt))
  }

  /** The extension of a path is the text after its last '.'. */
  lemma UnsupportedExtensionOf(prefix: string, ext: string)
    requires '.' !in ext
    ensures UnsupportedExtension(prefix + "." + ext) == "." + ext
  {
    var path := prefix + "." + ext;
    assert path == prefix + ['.'] + ext;
    assert path[|prefix|] == '.';
    LastIndexOfAppend(prefix, '.', ext);
    SplitLastPiece(path, '.');
    assert path[|prefix| + 1..] == ext;
  }

  /** A file the main process rejects is reported with its extension as typed. */
  lemma UnsupportedReportsExtension(prefix: string, ext: string, reply: FileReply)
    requires '.' !in ext && !reply.supported
    ensures ProcessVideoFile(prefix + "." + ext, reply) == Failure(ProcessFailed + "Unsupported video format: ." + ext)
  {
    UnsupportedExtensionOf(prefix, ext);
    assert ProcessFailed + "Unsupported video format: " + ("." + ext) == ProcessFailed + "Unsupported video format: ." + ext;
  }

  /** A path without '.' is reported with an empty extension. */
  lemma UnsupportedWithoutDot(path: string, reply: FileReply)
    requires '.' !in path && !reply.supported
    ensures ProcessVideoFile(path, reply) == Failure(ProcessFailed + "Unsupported video format: ")
  {
    assert ProcessFailed + "Unsupported video format: " + "" == ProcessFailed + "Unsupported video format: ";
  }

  /** An error entry of `processMultipleVideos`. */
  datatype ProcessError = ProcessError(filePath: string, error: string)

  /** Each file's outcome, in list order; `replies(i)` answers for the i-th file. */
  function Outcomes(paths: seq<string>, replies: nat -> FileReply): (r: seq<Result<VideoData, string>>)
    ensures |r| == |paths|
    ensures forall k :: 0 <= k < |r| ==> r[k] == ProcessVideoFile(paths[k], replies(k))
  {
    seq(|paths|, k requires 0 <= k < |paths| => ProcessVideoFile(paths[k], replies(k)))
  }

  /** The records of the outcomes that succeeded, in order. */
  function Successes(outcomes: seq<Result<VideoData, string>>): (r: seq<VideoData>)
    ensures |r| <= |outcomes|
    ensures forall v :: v in r <==> Success(v) in outcomes
    decreases |outcomes|
  {
    if outcomes == [] then []
    else
      assert outcomes == outcomes[..|outcomes| - 1] + [outcomes[|outcomes| - 1]];
      var earlier := Successes(outcomes[..|outcomes| - 1]);
      match outcomes[|outcomes| - 1]
      case Success(v) => earlier + [v]
      case Failure(_) => earlier
  }

  /** The failed outcomes with their paths, in order. */
  function Errors(paths: seq<string>, outcomes: seq<Result<VideoData, string>>): (r: seq<ProcessError>)
    requires |paths| == |outcomes|
    ensures |r| <= |outcomes|
    ensures forall k :: 0 <= k < |outcomes| && outcomes[k].Failure? ==> ProcessError(paths[k], outcomes[k].error) in r
    decreases |outcomes|
  {
    if outcomes == [] then []
    else
      var n := |outcomes| - 1;
      var earlier := Errors(paths[..n], outcomes[..n]);
      assert forall k :: 0 <= k < n ==> outcomes[..n][k] == outcomes[k] && paths[..n][k] == paths[k];
      match outcomes[n]
      case Success(_) => earlier
      case Failure(e) => earlier + [ProcessError(paths[n], e)]
  }

  /** One more outcome adds its record to the successes or its entry to the
      errors, after the earlier ones. */
  lemma PartitionStep(paths: seq<string>, outcomes: seq<Result<VideoData, string>>, i: nat)
    requires |paths| == |outcomes| && i < |outcomes|
    ensures Successes(outcomes[..i + 1])
            == Successes(outcomes[..i]) + (if outcomes[i].Success? then [outcomes[i].value] else [])
    ensures Errors(paths[..i + 1], outcomes[..i + 1])
            == Errors(paths[..i], outcomes[..i]) + (if outcomes[i].Failure? then [ProcessError(paths[i], outcomes[i].error)] else [])
  {
    assert outcomes[..i + 1][..i] == outcomes[..i];
    assert paths[..i + 1][..i] == paths[..i];
  }

  /** Every outcome lands in exactly one of the two lists. */
  lemma {:induction false} PartitionCount(paths: seq<string>, outcomes: seq<Result<VideoData, string>>)
    requires |paths| == |outcomes|
    ensures |Successes(outcomes)| + |Errors(paths, outcomes)| == |outcomes|
    decreases |outcomes|
  {
    if outcomes != [] {
      var n := |outcomes| - 1;
      PartitionCount(paths[..n], outcomes[..n]);
    }
  }

  /** The errors keep the prefix of the failed outcomes. */
  lemma {:induction false} ErrorsPrefixed(paths: seq<string>, outcomes: seq<Result<VideoData, string>>, prefix: string)
    requires |paths| == |outcomes|
    requires forall k :: 0 <= k < |outcomes| && outcomes[k].Failure? ==> StartsWith(outcomes[k].error, prefix)
    ensures forall k :: 0 <= k < |Errors(paths, outcomes)| ==> StartsWith(Errors(paths, outcomes)[k].error, prefix)
    decreases |outcomes|
  {
    if outcomes != [] {
      var n := |outcomes| - 1;
      assert forall k :: 0 <= k < n ==> outcomes[..n][k] == outcomes[k];
      ErrorsPrefixed(paths[..n], outcomes[..n], prefix);
    }
  }

  /** Every listed error is a failed outcome with its file's path; the
      contract of `Errors` gives the converse. */
  lemma {:induction false} ErrorPaths(paths: seq<string>, outcomes: seq<Result<VideoData, string>>)
    requires |paths| == |outcomes|
    ensures forall e :: e in Errors(paths, outcomes) ==>
              exists k :: 0 <= k < |outcomes| && outcomes[k] == Failure(e.error) && paths[k] == e.filePath
    decreases |outcomes|
  {
    if outcomes != [] {
      var n := |outcomes| - 1;
      ErrorPaths(paths[..n], outcomes[..n]);
      forall e | e in Errors(paths, outcomes)
        ensures exists k :: 0 <= k < |outcomes| && outcomes[k] == Failure(e.error) && paths[k] == e.filePath
      {
        if e in Errors(paths[..n], outcomes[..n]) {
          var k :| 0 <= k < n && outcomes[..n][k] == Failure(e.error) && paths[..n][k] == e.filePath;
          assert outcomes[k] == Failure(e.error) && paths[k] == e.filePath;
        } else {
          assert outcomes[n] == Failure(e.error) && paths[n] == e.filePath;
        }
      }
    }
  }

  /** With every file rejected there are no successes and one error each. */
  lemma {:induction false} AllFailed(paths: seq<string>, outcomes: seq<Result<VideoData, string>>)
    requires |paths| == |outcomes|
    requires forall k :: 0 <= k < |outcomes| ==> outcomes[k].Failure?
    ensures Successes(outcomes) == [] && |Errors(paths, outcomes)| == |outcomes|
    decreases |outcomes|
  {
    if outcomes != [] {
      var n := |outcomes| - 1;
      assert outcomes[n].Failure?;
      AllFailed(paths[..n], outcomes[..n]);
    }
  }

  /** Files the main process rejects all end up among the errors. */
  lemma AllUnsupported(paths: seq<string>, replies: nat -> FileReply)
    requires forall k :: 0 <= k < |paths| ==> !replies(k).supported
    ensures Successes(Outcomes(paths, replies)) == [] && |Errors(paths, Outcomes(paths, replies))| == |paths|
  {
    AllFailed(paths, Outcomes(paths, replies));
  }

  /** `processMultipleVideos(filePaths)`: the files are processed in order;
      no failure stops the others. `replies(i)` answers for the i-th file. */
  method ProcessMultipleVideos(paths: seq<string>, replies: nat -> FileReply)
    returns (success: seq<VideoData>, errors: seq<ProcessError>)
    ensures success == Successes(Outcomes(paths, replies))
    ensures errors == Errors(paths, Outcomes(paths, replies))
    ensures |success| + |errors| == |paths|
    ensures forall k :: 0 <= k < |errors| ==> StartsWith(errors[k].error, ProcessFailed)
  {
    ghost var outcomes := Outcomes(paths, replies);
    success := [];
    errors := [];
    var i := 0;
    while i < |paths|
      invariant 0 <= i <= |paths|
      invariant success == Successes(outcomes[..i])
      invariant errors == Errors(paths[..i], outcomes[..i])
    {
      var filePath := paths[i];
      var outcome := ProcessVideoFile(filePath, replies(i));
      PartitionStep(paths, outcomes, i);
      if outcome.Success? {
        success := success + [outcome.value];
      } else {
        errors := errors + [ProcessError(filePath, outcome.error)];
      }
      i := i + 1;
    }
    assert outcomes[..i] == outcomes && paths[..i] == paths;
    BatchTotals(paths, replies);
  }

  /** What the batch's two lists add up to: one entry per file, and every
      error under the processing prefix. */
  lemma BatchTotals(paths: seq<string>, replies: nat -> FileReply)
    ensures |Successes(Outcomes(paths, replies))| + |Errors(paths, Outcomes(paths, replies))| == |paths|
    ensures forall k :: 0 <= k < |Errors(paths, Outcomes(paths, replies))| ==>
              StartsWith(Errors(paths, Outcomes(paths, replies))[k].error, ProcessFailed)
  {
    var outcomes := Outcomes(paths, replies);
    PartitionCount(paths, outcomes);
    ErrorsPrefixed(paths, outcomes, ProcessFailed);
  }
}
