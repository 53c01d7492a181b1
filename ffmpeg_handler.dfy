/** The main-process FFmpeg handler: the availability flag, metadata
    extraction with its checks, error messages, normalisation and fallbacks,
    thumbnail generation with retries at other offsets, and the small text
    helpers. The tool, the file system and the clock are outside the model:
    their outcomes arrive as parameters. */
module FfmpegHandler {
  import opened Strings
  import opened Wrappers
  import opened JsNumbers
  import PathPolyfill

  // ---------------------------------------------------------------------
  // Frame rates and file extensions

  /** `parseFPS(frameRate)`: "N/D" is N divided by D when D is a non-zero
      number, otherwise N; no frame rate at all is 0. */
  function ParseFps(frameRate: Option<string>): (r: JsNum)
    ensures frameRate == None || frameRate.value == "" ==> r == Num(0.0)
  {
    if frameRate == None || frameRate.value == "" then Num(0.0)
    else
      var parts := Split(frameRate.value, '/');
      var numerator := StringToNumber(parts[0]);
      if |parts| >= 2 && Truthy(StringToNumber(parts[1])) then
        Divide(numerator, StringToNumber(parts[1]).value)
      else numerator
  }

  /** The pieces of "N/D" split at the '/'. */
  lemma SplitRatio(n: nat, d: nat)
    ensures Split(NatToDecimal(n) + "/" + NatToDecimal(d), '/') == [NatToDecimal(n), NatToDecimal(d)]
  {
    var a, b := NatToDecimal(n), NatToDecimal(d);
    assert a + "/" + b == a + ['/'] + b;
    SplitConcat(a, '/', b);
    NoSlashInDigits(a);
    NoSlashInDigits(b);
    SplitWithoutSep(a, '/');
    SplitWithoutSep(b, '/');
  }

  lemma NoSlashInDigits(s: string)
    requires IsDigits(s)
    ensures '/' !in s
  {
    assert forall i :: 0 <= i < |s| ==> s[i] != '/';
  }

  /** A ratio with a non-zero denominator is the quotient. */
  lemma ParseFpsRatio(n: nat, d: nat)
    requires d > 0
    ensures ParseFps(Some(NatToDecimal(n) + "/" + NatToDecimal(d))) == Num(n as real / d as real)
  {
    SplitRatio(n, d);
    NumberOfDecimal(n);
    NumberOfDecimal(d);
  }

  /** A zero denominator is falsy, so the numerator is returned undivided. */
  lemma ParseFpsZeroDenominator(n: nat)
    ensures ParseFps(Some(NatToDecimal(n) + "/" + NatToDecimal(0))) == Num(n as real)
  {
    SplitRatio(n, 0);
    NumberOfDecimal(n);
    NumberOfDecimal(0);
  }

  /** A plain number without '/' is its own frame rate. */
  lemma ParseFpsWhole(n: nat)
    ensures ParseFps(Some(NatToDecimal(n))) == Num(n as real)
  {
    NoSlashInDigits(NatToDecimal(n));
    SplitWithoutSep(NatToDecimal(n), '/');
    NumberOfDecimal(n);
  }

  const SupportedExtensions: seq<string> := [".mp4", ".mov", ".webm", ".avi", ".mkv", ".m4v"]

  /** The path without the '/' characters it ends in. */
  function TrimTrailingSlashes(path: string): (r: string)
    ensures |r| <= |path| && r == path[..|r|]
    ensures r == [] || r[|r| - 1] != '/'
    ensures forall i :: |r| <= i < |path| ==> path[i] == '/'
    decreases |path|
  {
    if path != [] && path[|path| - 1] == '/' then TrimTrailingSlashes(path[..|path| - 1]) else path
  }

  /** The last segment Node's `path.basename` sees: trailing '/' characters
      do not count. */
  function NodeBase(path: string): string {
    PathPolyfill.LastSegment(TrimTrailingSlashes(path))
  }

  /** Node's POSIX `path.extname`, which the main process uses: trailing '/'
      characters are ignored, the extension runs from the last '.' of the
      last segment when that '.' is not its first character, and the segment
      '..' has none. */
  function NodeExtname(path: string): (r: string)
    ensures EndsWith(NodeBase(path), r)
    ensures r != "" ==> r[0] == '.' && '.' !in r[1..] && |r| < |NodeBase(path)|
    ensures r == "" <==> NodeBase(path) == ".." || LastIndexOf(NodeBase(path), '.') <= 0
  {
    var trimmed := TrimTrailingSlashes(path);
    if PathPolyfill.LastSegment(trimmed) == ".." then "" else PathPolyfill.Extname(trimmed)
  }

  /** `isSupportedVideoFormat(filePath)`: the lower-cased extension is one of
      the six listed; so the last segment, in lower case, ends in a listed
      extension after a non-empty stem. */
  predicate IsSupportedVideoFormat(path: string)
    ensures IsSupportedVideoFormat(path) ==>
      exists e :: e in SupportedExtensions && EndsWith(Lower(NodeBase(path)), e) && |e| < |NodeBase(path)|
  {
    SupportedSuffix(path);
    Lower(NodeExtname(path)) in SupportedExtensions
  }

  lemma SupportedSuffix(path: string)
    ensures Lower(NodeExtname(path)) in SupportedExtensions ==>
      exists e :: e in SupportedExtensions && EndsWith(Lower(NodeBase(path)), e) && |e| < |NodeBase(path)|
  {
    ListedSuffix(NodeBase(path), NodeExtname(path));
  }

  lemma ListedSuffix(base: string, ext: string)
    requires EndsWith(base, ext) && (ext != "" ==> |ext| < |base|)
    ensures Lower(ext) in SupportedExtensions ==>
      exists e :: e in SupportedExtensions && EndsWith(Lower(base), e) && |e| < |base|
  {
    LowerSuffix(base, ext);
    var e := Lower(ext);
    if e in SupportedExtensions {
      assert e != "";
      assert EndsWith(Lower(base), e) && |e| < |base|;
    }
  }

  lemma LowerSuffix(s: string, suffix: string)
    requires EndsWith(s, suffix)
    ensures EndsWith(Lower(s), Lower(suffix))
  {
    var ls := Lower(s);
    assert ls[|ls| - |suffix|..] == Lower(suffix) by {
      forall i | 0 <= i < |suffix| ensures ls[|ls| - |suffix| + i] == Lower(suffix)[i] {
        assert s[|s| - |suffix| + i] == suffix[i];
      }
    }
  }

  lemma TrimWithoutTrailingSlash(path: string)
    requires path == [] || path[|path| - 1] != '/'
    ensures TrimTrailingSlashes(path) == path
  {
  }

  /** Trailing '/' characters do not change whether a path is supported. */
  lemma TrailingSlashIgnored(path: string)
    ensures IsSupportedVideoFormat(path + "/") == IsSupportedVideoFormat(path)
  {
    assert (path + "/")[..|path|] == path;
    assert TrimTrailingSlashes(path + "/") == TrimTrailingSlashes(path);
  }

  /** A text shorter than four characters is not a listed extension. */
  lemma ShortNotListed(e: string)
    requires |e| < 4
    ensures Lower(e) !in SupportedExtensions
  {
  }

  /** Every listed extension is a '.' followed by lower-case letters and digits. */
  lemma SupportedExtensionShape(e: string)
    requires e in SupportedExtensions
    ensures |e| >= 2 && e[0] == '.' && '.' !in e[1..] && '/' !in e && Lower(e) == e
  {
  }

  lemma LowerDot(e: string)
    requires Lower(e) in SupportedExtensions
    ensures |e| >= 2 && e[0] == '.' && '.' !in e[1..] && '/' !in e
  {
    var l := Lower(e);
    SupportedExtensionShape(l);
    assert LowerChar(e[0]) == '.';
    forall i | 0 <= i < |e| ensures e[i] != '/' && (i > 0 ==> e[i] != '.') {
      assert LowerChar(e[i]) == l[i];
      assert l[i] in l;
      assert i > 0 ==> l[i] in l[1..];
    }
  }

  /** A file whose name ends in a listed extension, in any letter case, after
      a non-empty stem is supported. */
  lemma SupportedByExtension(dir: string, stem: string, ext: string)
    requires stem != "" && '/' !in stem
    requires Lower(ext) in SupportedExtensions
    ensures IsSupportedVideoFormat(dir + "/" + stem + ext)
  {
    LowerDot(ext);
    var path := dir + "/" + stem + ext;
    assert path[|path| - 1] == ext[|ext| - 1];
    assert ext[|ext| - 1] != '/' by { assert ext[|ext| - 1] in ext; }
    TrimWithoutTrailingSlash(path);
    PathPolyfill.ExtnameOfFile(dir, stem, ext);
  }

  /** A hidden file named like an extension ('.mp4' and the like) has no
      extension, so it is not supported. */
  lemma HiddenFileNotSupported(dir: string, name: string)
    requires '/' !in name && '.' !in name
    ensures !IsSupportedVideoFormat(dir + "/." + name)
  {
    NodeExtnameOfHiddenFile(dir, name);
    EmptyExtensionNotSupported(dir + "/." + name);
  }

  lemma EmptyExtensionNotSupported(path: string)
    requires NodeExtname(path) == ""
    ensures !IsSupportedVideoFormat(path)
  {
    ShortNotListed(NodeExtname(path));
  }

  lemma NodeExtnameOfHiddenFile(dir: string, name: string)
    requires '/' !in name && '.' !in name
    ensures NodeExtname(dir + "/." + name) == ""
  {
    var path := dir + "/." + name;
    assert path[|path| - 1] != '/' by {
      if name != [] {
        assert path[|path| - 1] == name[|name| - 1];
        assert name[|name| - 1] in name;
      }
    }
    TrimWithoutTrailingSlash(path);
    PathPolyfill.ExtnameOfHiddenFile(dir, name);
  }

  // ---------------------------------------------------------------------
  // Metadata

  const NotAvailable := "FFmpeg is not available"
  const FileEmpty := "File is empty"
  const ProbeTimeout := "Metadata extraction timed out after 30 seconds"
  const Corrupted := "File appears to be corrupted or in an unsupported format"
  const NotFound := "File not found or path is incorrect"
  const PermissionDenied := "Permission denied accessing the file"
  const NoVideoStream := "No video stream found in file"
  const FallbackTimeout := "Fallback metadata extraction timed out"
  const BasicMetadataReason := "Could not extract detailed metadata from file"

  /** What `fs.existsSync` and `fs.statSync` report for a path. */
  datatype FileStat = Missing | Present(size: nat)

  /** One stream of an ffprobe report; absent properties are None, and the
      numeric texts are as ffprobe prints them. */
  datatype Stream = Stream(
    codecType: Option<string>,
    codecName: Option<string>,
    width: Option<int>,
    height: Option<int>,
    rFrameRate: Option<string>,
    bitRate: Option<string>,
    sampleRate: Option<string>,
    channels: Option<int>)

  datatype ProbeFormat = ProbeFormat(duration: Option<string>, size: Option<string>, bitRate: Option<string>)

  datatype ProbeData = ProbeData(format: ProbeFormat, streams: seq<Stream>)

  /** How an ffprobe call ends: a report, an error with its message, or the
      timer winning the race. */
  datatype ProbeReply = Probed(data: ProbeData) | ProbeFailed(message: string) | ProbeTimedOut

  /** The normalised metadata object. The handler fills every video field;
      the renderer-side service can leave codec, width and height undefined. */
  datatype VideoInfo = VideoInfo(codec: Option<string>, width: Option<int>, height: Option<int>, fps: JsNum, bitrate: int)

  datatype AudioInfo = AudioInfo(codec: Option<string>, sampleRate: int, channels: int, bitrate: int)

  datatype Metadata = Metadata(
    duration: real,
    size: int,
    bitrate: int,
    video: VideoInfo,
    audio: Option<AudioInfo>,
    isBasicMetadata: bool,
    originalError: Option<string>)

  /** `parseFloat` of a property that may be undefined (`parseFloat(undefined)` is NaN). */
  function FloatField(o: Option<string>): JsNum {
    if o.None? then NaN else ParseFloat(o.value)
  }

  /** `parseInt` of a property that may be undefined. */
  function IntField(o: Option<string>): Option<int> {
    if o.None? then None else ParseInt(o.value)
  }

  /** The index of the first stream of the given kind, or -1 (`Array.prototype.find`). */
  function FindStreamIndex(streams: seq<Stream>, kind: string): (k: int)
    ensures -1 <= k < |streams|
    ensures k >= 0 ==> streams[k].codecType == Some(kind)
    ensures forall j :: 0 <= j < (if k == -1 then |streams| else k) ==> streams[j].codecType != Some(kind)
    decreases |streams|
  {
    if streams == [] then -1
    else if streams[0].codecType == Some(kind) then 0
    else
      var k := FindStreamIndex(streams[1..], kind);
      if k == -1 then -1 else k + 1
  }

  function FindStream(streams: seq<Stream>, kind: string): Option<Stream> {
    var k := FindStreamIndex(streams, kind);
    if k == -1 then None else Some(streams[k])
  }

  /** The audio part of the record: each property, or its default when it is
      missing, empty, zero or not a number. */
  function NormalizeAudio(a: Stream): (r: AudioInfo)
    ensures r.codec == Some(OrText(a.codecName, "unknown")) && r.codec.value != ""
    ensures r.sampleRate == OrElseInt(IntField(a.sampleRate), 0)
    ensures r.channels == OrElseInt(a.channels, 0)
    ensures r.bitrate == OrElseInt(IntField(a.bitRate), 0)
  {
    AudioInfo(Some(OrText(a.codecName, "unknown")), OrElseInt(IntField(a.sampleRate), 0),
              OrElseInt(a.channels, 0), OrElseInt(IntField(a.bitRate), 0))
  }

  /** The handler's normalisation of a report with a video stream; `sizeDefault`
      is what a missing or zero size falls back to. */
  function NormalizeProbe(data: ProbeData, v: Stream, audio: Option<Stream>, sizeDefault: int): (m: Metadata)
    ensures m.video.codec.Some? && m.video.codec.value != ""
    ensures m.video.width.Some? && m.video.height.Some?
    ensures m.size == 0 ==> sizeDefault == 0
    ensures m.duration != 0.0 <==> Truthy(FloatField(data.format.duration))
    ensures m.audio.Some? <==> audio.Some?
    ensures m.audio.Some? ==> m.audio.value.codec.Some? && m.audio.value.codec.value != ""
    ensures !m.isBasicMetadata && m.originalError == None
    // field by field: the reported value, or its default (JavaScript `||`)
    ensures m.duration == OrElse(FloatField(data.format.duration), 0.0)
    ensures m.size == OrElseInt(IntField(data.format.size), sizeDefault)
    ensures m.bitrate == OrElseInt(IntField(data.format.bitRate), 0)
    ensures m.video == VideoInfo(Some(OrText(v.codecName, "unknown")), Some(OrElseInt(v.width, 0)),
                                 Some(OrElseInt(v.height, 0)), ParseFps(v.rFrameRate), OrElseInt(IntField(v.bitRate), 0))
    ensures audio.Some? ==> m.audio == Some(NormalizeAudio(audio.value))
  {
    Metadata(
      OrElse(FloatField(data.format.duration), 0.0),
      OrElseInt(IntField(data.format.size), sizeDefault),
      OrElseInt(IntField(data.format.bitRate), 0),
      VideoInfo(Some(OrText(v.codecName, "unknown")), Some(OrElseInt(v.width, 0)), Some(OrElseInt(v.height, 0)),
                ParseFps(v.rFrameRate), OrElseInt(IntField(v.bitRate), 0)),
      if audio.None? then None else Some(NormalizeAudio(audio.value)),
      false,
      None)
  }

  /** A stream with nothing but its kind. */
  function BareStream(kind: string): Stream {
    Stream(Some(kind), None, None, None, None, None, None, None)
  }

  /** A report whose every property is missing normalises to the defaults. */
  lemma NormalizeDefaults(sizeDefault: int)
    ensures var data := ProbeData(ProbeFormat(None, None, None), [BareStream("video")]);
      NormalizeProbe(data, BareStream("video"), None, sizeDefault)
        == Metadata(0.0, sizeDefault, 0, VideoInfo(Some("unknown"), Some(0), Some(0), Num(0.0), 0), None, false, None)
  {
  }

  /** The message a failed ffprobe becomes, checked in this order. */
  function ProbeErrorMessage(msg: string): (r: string)
    ensures Contains(msg, "Invalid data found") ==> r == Corrupted
    ensures !Contains(msg, "Invalid data found") && Contains(msg, "No such file") ==> r == NotFound
    ensures (!Contains(msg, "Invalid data found") && !Contains(msg, "No such file") && Contains(msg, "Permission denied"))
      ==> r == PermissionDenied
    ensures (!Contains(msg, "Invalid data found") && !Contains(msg, "No such file") && !Contains(msg, "Permission denied"))
      ==> r == "Failed to get video metadata: " + msg
  {
    if Contains(msg, "Invalid data found") then Corrupted
    else if Contains(msg, "No such file") then NotFound
    else if Contains(msg, "Permission denied") then PermissionDenied
    else "Failed to get video metadata: " + msg
  }

  /** `getVideoMetadata(filePath)`: availability, existence and size are
      checked in that order before the file is probed. */
  function GetVideoMetadata(available: bool, path: string, file: FileStat, reply: ProbeReply): (r: Result<Metadata, string>)
    ensures !available ==> r == Failure(NotAvailable)
    ensures available && file.Missing? ==> r == Failure("File does not exist: " + path)
    ensures available && file == Present(0) ==> r == Failure(FileEmpty)
    ensures available && file.Present? && file.size > 0 && reply == ProbeTimedOut ==> r == Failure(ProbeTimeout)
    ensures (available && file.Present? && file.size > 0 && reply.ProbeFailed?)
      ==> r == Failure(ProbeErrorMessage(reply.message))
    ensures r.Success? ==> available && file.Present? && file.size > 0 && reply.Probed?
                           && FindStream(reply.data.streams, "video").Some?
    ensures r.Success? ==> r.value.size != 0 && !r.value.isBasicMetadata
    ensures (available && file.Present? && file.size > 0 && reply.Probed?) ==>
      r == ProbedMetadata(reply.data, file.size)
  {
    if !available then Failure(NotAvailable)
    else if file.Missing? then Failure("File does not exist: " + path)
    else if file.size == 0 then Failure(FileEmpty)
    else
      match reply
      case ProbeTimedOut => Failure(ProbeTimeout)
      case ProbeFailed(msg) => Failure(ProbeErrorMessage(msg))
      case Probed(data) => ProbedMetadata(data, file.size)
  }

  /** What a successful probe's report becomes: a failure without a video
      stream, otherwise the first video and first audio stream normalised. */
  function ProbedMetadata(data: ProbeData, sizeDefault: int): (r: Result<Metadata, string>)
    ensures FindStream(data.streams, "video").None? <==> r == Failure(NoVideoStream)
    ensures FindStream(data.streams, "video").Some? ==>
      r == Success(NormalizeProbe(data, FindStream(data.streams, "video").value, FindStream(data.streams, "audio"), sizeDefault))
  {
    var video := FindStream(data.streams, "video");
    if video.None? then Failure(NoVideoStream)
    else Success(NormalizeProbe(data, video.value, FindStream(data.streams, "audio"), sizeDefault))
  }

  /** `getVideoMetadataWithOptions(filePath)`: a second probe with no
      availability or file checks and a size that defaults to 0. */
  function GetVideoMetadataWithOptions(reply: ProbeReply): (r: Result<Metadata, string>)
    ensures reply == ProbeTimedOut ==> r == Failure(FallbackTimeout)
    ensures reply.ProbeFailed? ==> r == Failure("Fallback metadata extraction failed: " + reply.message)
    ensures r.Success? ==> reply.Probed? && FindStream(reply.data.streams, "video").Some? && !r.value.isBasicMetadata
    ensures reply.Probed? ==> r == ProbedMetadata(reply.data, 0)
  {
    match reply
    case ProbeTimedOut => Failure(FallbackTimeout)
    case ProbeFailed(msg) => Failure("Fallback metadata extraction failed: " + msg)
    case Probed(data) => ProbedMetadata(data, 0)
  }

  /** `getBasicFileMetadata(filePath)`: only the size is known; `statSync`
      throws for a missing file. */
  function GetBasicFileMetadata(path: string, file: FileStat): (r: Result<Metadata, string>)
    ensures file.Missing? <==> r.Failure?
    ensures r.Success? ==> r.value.isBasicMetadata && r.value.size == file.size && r.value.duration == 0.0
                           && r.value.audio == None && r.value.originalError == Some(BasicMetadataReason)
    ensures r.Success? ==> r.value.bitrate == 0 && r.value.video == VideoInfo(Some("unknown"), Some(0), Some(0), Num(0.0), 0)
    ensures file.Missing? ==> r == Failure("ENOENT: no such file or directory, stat '" + path + "'")
  {
    match file
    case Missing => Failure("ENOENT: no such file or directory, stat '" + path + "'")
    case Present(size) =>
      Success(Metadata(0.0, size, 0, VideoInfo(Some("unknown"), Some(0), Some(0), Num(0.0), 0), None, true,
                       Some(BasicMetadataReason)))
  }

  /** `getVideoMetadataWithFallback(filePath)`: the standard extraction, then
      the option-driven probe, then the file-size-only record. */
  function GetVideoMetadataWithFallback(available: bool, path: string, file: FileStat,
                                        first: ProbeReply, second: ProbeReply): (r: Result<Metadata, string>)
    ensures file.Present? ==> r.Success?
    ensures GetVideoMetadata(available, path, file, first).Success? ==> r == GetVideoMetadata(available, path, file, first)
    ensures r.Success? ==> (r.value.isBasicMetadata <==>
              GetVideoMetadata(available, path, file, first).Failure? && GetVideoMetadataWithOptions(second).Failure?)
    ensures GetVideoMetadata(available, path, file, first).Failure? && GetVideoMetadataWithOptions(second).Success?
      ==> r == GetVideoMetadataWithOptions(second)
    ensures GetVideoMetadata(available, path, file, first).Failure? && GetVideoMetadataWithOptions(second).Failure?
      ==> r == GetBasicFileMetadata(path, file)
  {
    var standard := GetVideoMetadata(available, path, file, first);
    if standard.Success? then standard
    else
      var optioned := GetVideoMetadataWithOptions(second);
      if optioned.Success? then optioned
      else GetBasicFileMetadata(path, file)
  }

  /** The second probe is not gated on availability, so with the tool marked
      unavailable a file can still get full metadata through the fallback. */
  lemma FallbackBypassesAvailability(path: string, file: FileStat, first: ProbeReply, second: ProbeReply)
    requires GetVideoMetadataWithOptions(second).Success?
    ensures GetVideoMetadataWithFallback(false, path, file, first, second) == GetVideoMetadataWithOptions(second)
    ensures !GetVideoMetadataWithFallback(false, path, file, first, second).value.isBasicMetadata
  {
  }

  // ---------------------------------------------------------------------
  // Thumbnails

  /** The `options` object: a property left undefined takes its default. */
  datatype ThumbnailOptions = ThumbnailOptions(width: Option<int>, height: Option<int>, quality: Option<int>)

  /** The ffmpeg command a thumbnail request becomes. */
  datatype ThumbnailCommand = ThumbnailCommand(
    input: string, seek: real, frames: nat, size: string, outputOptions: seq<string>, output: string)

  /** The command for one attempt: seek to the offset, one frame, the size
      and quality with defaults 160x90 and 2, overwriting the output. */
  function ThumbnailCommandFor(input: string, output: string, offset: real, opts: ThumbnailOptions): (c: ThumbnailCommand)
    ensures c.input == input && c.output == output && c.seek == offset && c.frames == 1
    ensures c.size == IntToDecimal(opts.width.GetOr(160)) + "x" + IntToDecimal(opts.height.GetOr(90))
    ensures c.outputOptions == ["-q:v", IntToDecimal(opts.quality.GetOr(2)), "-f", "image2", "-y"]
  {
    ThumbnailCommand(input, offset, 1,
      IntToDecimal(opts.width.GetOr(160)) + "x" + IntToDecimal(opts.height.GetOr(90)),
      ["-q:v", IntToDecimal(opts.quality.GetOr(2)), "-f", "image2", "-y"],
      output)
  }

  /** `generateThumbnail(...)`. `inputExists` is `fs.existsSync(inputPath)`;
      `mkdirError` is None when the output directory exists or
      `fs.mkdirSync` creates it, and otherwise the message it throws, which
      rejects the call as it stands; `render` runs a command and gives None
      on 'end' or the error message. */
  function GenerateThumbnail(available: bool, inputExists: bool, mkdirError: Option<string>, input: string,
                             output: string, offset: real, opts: ThumbnailOptions,
                             render: ThumbnailCommand -> Option<string>): (r: Result<string, string>)
    ensures !available ==> r == Failure(NotAvailable)
    ensures available && !inputExists ==> r == Failure("Input file does not exist: " + input)
    ensures available && inputExists && mkdirError.Some? ==> r == Failure(mkdirError.value)
    ensures r.Success? ==> r.value == output
    ensures available && inputExists && mkdirError == None ==>
              (r.Success? <==> render(ThumbnailCommandFor(input, output, offset, opts)) == None)
    ensures available && inputExists && mkdirError == None && render(ThumbnailCommandFor(input, output, offset, opts)).Some? ==>
              r == Failure("Failed to generate thumbnail: " + render(ThumbnailCommandFor(input, output, offset, opts)).value)
  {
    if !available then Failure(NotAvailable)
    else if !inputExists then Failure("Input file does not exist: " + input)
    else if mkdirError.Some? then Failure(mkdirError.value)
    else
      match render(ThumbnailCommandFor(input, output, offset, opts))
      case None => Success(output)
      case Some(msg) => Failure("Failed to generate thumbnail: " + msg)
  }

  /** The offsets `generateThumbnailWithFallback` tries, in order. */
  const ThumbnailOffsets: seq<real> := [1.0, 0.5, 2.0, 5.0, 10.0]

  /** `generateThumbnailWithFallback(...)`: the first offset that renders
      wins; when all five fail, the last error is thrown. `tried` lists the
      offsets attempted. */
  method GenerateThumbnailWithFallback(available: bool, inputExists: bool, mkdirError: Option<string>,
                                       input: string, output: string,
                                       opts: ThumbnailOptions, render: ThumbnailCommand -> Option<string>)
    returns (r: Result<string, string>, tried: seq<real>)
    ensures 1 <= |tried| <= |ThumbnailOffsets| && tried == ThumbnailOffsets[..|tried|]
    ensures r == GenerateThumbnail(available, inputExists, mkdirError, input, output, tried[|tried| - 1], opts, render)
    ensures forall k :: 0 <= k < |tried| - 1 ==>
              GenerateThumbnail(available, inputExists, mkdirError, input, output, tried[k], opts, render).Failure?
    ensures r.Failure? ==> tried == ThumbnailOffsets
  {
    tried := [1.0];
    r := GenerateThumbnail(available, inputExists, mkdirError, input, output, 1.0, opts, render);
    if r.Success? {
      return;
    }
    var timeOffsets := [0.5, 2.0, 5.0, 10.0];
    var i := 0;
    while i < |timeOffsets|
      invariant 0 <= i <= |timeOffsets|
      invariant tried == ThumbnailOffsets[..i + 1]
      invariant r == GenerateThumbnail(available, inputExists, mkdirError, input, output, tried[i], opts, render)
      invariant r.Failure?
      invariant forall k :: 0 <= k < |tried| ==>
                  GenerateThumbnail(available, inputExists, mkdirError, input, output, tried[k], opts, render).Failure?
    {
      var timeOffset := timeOffsets[i];
      assert ThumbnailOffsets[..i + 2] == ThumbnailOffsets[..i + 1] + [timeOffset];
      tried := tried + [timeOffset];
      r := GenerateThumbnail(available, inputExists, mkdirError, input, output, timeOffset, opts, render);
      if r.Success? {
        return;
      }
      i := i + 1;
    }
  }

  /** With the tool unavailable every attempt fails the same way, so the
      fallback tries all five offsets and reports the availability error. */
  lemma ThumbnailUnavailableTriesAll(inputExists: bool, mkdirError: Option<string>, input: string, output: string, opts: ThumbnailOptions,
                                     render: ThumbnailCommand -> Option<string>)
    ensures forall k :: 0 <= k < |ThumbnailOffsets| ==>
      GenerateThumbnail(false, inputExists, mkdirError, input, output, ThumbnailOffsets[k], opts, render) == Failure(NotAvailable)
  {
  }

  // ---------------------------------------------------------------------
  // Durations

  /** JavaScript's `x % 60` on a number: the sign follows the dividend, and
      what is taken away is a whole number of sixties. */
  function Rem60(x: real): (r: real)
    ensures x >= 0.0 ==> 0.0 <= r < 60.0
    ensures x < 0.0 ==> -60.0 < r <= 0.0
    ensures ((x - r) / 60.0).Floor as real == (x - r) / 60.0
  {
    var k := (if x >= 0.0 then x else -x) / 60.0;
    var q := k.Floor;
    assert q as real <= k < q as real + 1.0;
    WholeFloor(q);
    WholeFloor(-q);
    if x >= 0.0 then x - 60.0 * (q as real)
    else -((-x) - 60.0 * (q as real))
  }

  lemma WholeFloor(q: int)
    ensures (q as real).Floor == q
  {
  }

  /** `formatDuration(seconds)`: unpadded minutes, ':', and the whole seconds
      of the remainder padded to two digits; for a non-negative duration that
      is the whole minutes and the two-digit whole seconds left over. */
  function FormatDuration(seconds: real): (r: string)
    ensures seconds >= 0.0 ==>
      r == NatToDecimal(seconds.Floor / 60) + ":" + PadStart(NatToDecimal(seconds.Floor % 60), 2, '0')
      && |PadStart(NatToDecimal(seconds.Floor % 60), 2, '0')| == 2
  {
    var minutes := (seconds / 60.0).Floor;
    var remainingSeconds := Rem60(seconds).Floor;
    var text := IntToDecimal(minutes) + ":" + PadStart(IntToDecimal(remainingSeconds), 2, '0');
    if seconds >= 0.0 then DurationParts(seconds); text else text
  }

  lemma DurationParts(seconds: real)
    requires seconds >= 0.0
    ensures (seconds / 60.0).Floor == seconds.Floor / 60
    ensures Rem60(seconds).Floor == seconds.Floor % 60
  {
    var total := seconds.Floor;
    var q := total / 60;
    var m := (seconds / 60.0).Floor;
    assert m == q by {
      assert (q as real) * 60.0 <= total as real <= seconds;
      assert seconds < (total + 1) as real <= ((q + 1) * 60) as real;
      assert (q as real) <= seconds / 60.0 < (q + 1) as real;
    }
    var rem := Rem60(seconds);
    assert rem == seconds - 60.0 * (q as real);
    assert (total % 60) as real <= rem < (total % 60 + 1) as real;
  }

  /** A negative duration shows a negative minute count and a negative,
      unpadded seconds part. */
  lemma FormatDurationNegative()
    ensures FormatDuration(-30.0) == "-1:-30"
  {
    assert (-30.0 / 60.0).Floor == -1;
    assert Rem60(-30.0) == -30.0;
    assert (-30.0).Floor == -30;
    assert NatToDecimal(1) == "1";
    assert NatToDecimal(30) == NatToDecimal(3) + [DigitChar(0)];
  }

  // ---------------------------------------------------------------------
  // The availability flag

  /** What can happen to the flag after construction: the quick `ffprobe
      -version` check ends (close with an exit code, a spawn error, or its
      5-second timer), and the background format listing succeeds or fails. */
  datatype AvailabilityEvent = ProbeClosed(code: int) | ProbeErrored | ProbeTimerFired | FormatsListed | FormatsFailed

  /** How each event sets `isAvailable` in the source. The timer of the quick
      check is never cleared, so it fires even after the probe has closed. */
  function Step(isAvailable: bool, e: AvailabilityEvent): bool {
    match e
    case ProbeClosed(code) => code == 0
    case ProbeErrored => false
    case ProbeTimerFired => false
    case FormatsListed => true
    case FormatsFailed => false
  }

  /** Replaying events in order: since every event overwrites the flag, the
      last one alone decides it. */
  function Replay(isAvailable: bool, events: seq<AvailabilityEvent>): (r: bool)
    ensures events == [] ==> r == isAvailable
    ensures events != [] ==> r == Step(false, events[|events| - 1])
    decreases |events|
  {
    if events == [] then isAvailable else Replay(Step(isAvailable, events[0]), events[1..])
  }

  /** Both checks succeed, and five seconds after start the flag is false anyway. */
  lemma TimerOverridesSuccess()
    ensures Replay(false, [ProbeClosed(0), FormatsListed, ProbeTimerFired]) == false
  {
  }

  /** The flag together with whether the quick check's timer is still pending. */
  datatype Availability = Availability(isAvailable: bool, timerPending: bool)

  /** The evidently intended behaviour: the timer only counts while the
      quick check has not settled. */
  function StepCleared(s: Availability, e: AvailabilityEvent): (r: Availability)
    ensures !s.timerPending ==> !r.timerPending
    ensures e.ProbeClosed? || e == ProbeErrored ==> !r.timerPending
    ensures e == ProbeTimerFired && !s.timerPending ==> r == s
    ensures e.FormatsListed? || e.FormatsFailed? ==> r.timerPending == s.timerPending
  {
    match e
    case ProbeClosed(code) => Availability(code == 0, false)
    case ProbeErrored => Availability(false, false)
    case ProbeTimerFired => if s.timerPending then Availability(false, false) else s
    case FormatsListed => Availability(true, s.timerPending)
    case FormatsFailed => Availability(false, s.timerPending)
  }

  /** Replaying events with the timer cleared: once the quick check has
      settled, it stays settled. */
  function ReplayCleared(s: Availability, events: seq<AvailabilityEvent>): (r: Availability)
    ensures !s.timerPending ==> !r.timerPending
    decreases |events|
  {
    if events == [] then s else ReplayCleared(StepCleared(s, events[0]), events[1..])
  }

  lemma {:induction false} ReplayClearedConcat(s: Availability, a: seq<AvailabilityEvent>, b: seq<AvailabilityEvent>)
    ensures ReplayCleared(s, a + b) == ReplayCleared(ReplayCleared(s, a), b)
    decreases |a|
  {
    if a == [] {
      assert a + b == b;
    } else {
      assert (a + b)[0] == a[0];
      assert (a + b)[1..] == a[1..] + b;
      ReplayClearedConcat(StepCleared(s, a[0]), a[1..], b);
    }
  }

  /** Events that cannot turn the flag off once the quick check succeeded. */
  predicate Harmless(e: AvailabilityEvent) {
    e == ProbeClosed(0) || e == FormatsListed || e == ProbeTimerFired
  }

  lemma {:induction false} HarmlessKeepAvailable(events: seq<AvailabilityEvent>)
    requires forall k :: 0 <= k < |events| ==> Harmless(events[k])
    ensures ReplayCleared(Availability(true, false), events) == Availability(true, false)
    decreases |events|
  {
    if events != [] {
      assert Harmless(events[0]);
      HarmlessKeepAvailable(events[1..]);
    }
  }

  /** Once the quick check closes with exit code 0, nothing harmless that
      follows makes the tool unavailable. */
  lemma ClearedTimerKeepsSuccess(before: seq<AvailabilityEvent>, after: seq<AvailabilityEvent>)
    requires forall k :: 0 <= k < |after| ==> Harmless(after[k])
    ensures ReplayCleared(Availability(false, true), before + [ProbeClosed(0)] + after).isAvailable
  {
    var start := Availability(false, true);
    ReplayClearedConcat(start, before + [ProbeClosed(0)], after);
    ReplayClearedConcat(start, before, [ProbeClosed(0)]);
    HarmlessKeepAvailable(after);
  }

  /** The availability flag of the handler as evidently intended: the timer
      of the quick check is cleared once that check settles (`Replay` is the
      flag as written). */
  class AvailabilityMonitor {
    var isAvailable: bool
    var timerPending: bool

    function State(): Availability
      reads this
    {
      Availability(isAvailable, timerPending)
    }

    /** Construction sets the flag to false and starts the quick check; a
        spawn that throws settles it at once. */
    constructor(spawnThrows: bool)
      ensures State() == Availability(false, !spawnThrows)
    {
      isAvailable := false;
      timerPending := !spawnThrows;
    }

    /** The quick check's 'close' event. */
    method OnProbeClose(code: int)
      modifies this
      ensures State() == StepCleared(old(State()), ProbeClosed(code))
    {
      isAvailable := code == 0;
      timerPending := false;
    }

    /** The quick check's 'error' event. */
    method OnProbeError()
      modifies this
      ensures State() == StepCleared(old(State()), ProbeErrored)
    {
      isAvailable := false;
      timerPending := false;
    }

    /** The quick check's 5-second timer. */
    method OnProbeTimer()
      modifies this
      ensures State() == StepCleared(old(State()), ProbeTimerFired)
    {
      if timerPending {
        isAvailable := false;
        timerPending := false;
      }
    }

    /** The background `getAvailableFormats` callback. */
    method OnFormats(failed: bool)
      modifies this
      ensures State() == StepCleared(old(State()), if failed then FormatsFailed else FormatsListed)
    {
      isAvailable := !failed;
    }
  }
}
