/** The renderer-side FFmpeg service: its own availability check, metadata
    with fewer defaults than the main-process handler, thumbnails without
    overwrite, and the encoding jobs for concatenation and trimming. The
    service's frame-rate and duration helpers are the same code as the
    handler's and are modelled there; its format check is the same code run
    against the renderer's `path` module, and is modelled here. */
module FfmpegService {
  import opened Strings
  import opened Wrappers
  import opened JsNumbers
  import opened FfmpegHandler
  import PathPolyfill

  const ServiceNotAvailable := "FFmpeg is not available. Please install FFmpeg to use video processing features."
  const NoInputs := "No input files provided"

  /** The service's availability flag. */
  class Service {
    var isAvailable: bool

    constructor()
      ensures !isAvailable
    {
      isAvailable := false;
    }

    /** `checkAvailability()`: the flag ends true only when the module is
        loaded, it offers `getAvailableFormats`, and that call reports no
        error; every other path, the catch included, leaves it false. */
    method CheckAvailability(moduleLoaded: bool, hasFormatsFunction: bool, formatsError: bool)
      modifies this
      ensures isAvailable <==> moduleLoaded && hasFormatsFunction && !formatsError
    {
      if !moduleLoaded {
        isAvailable := false;
        return;
      }
      if !hasFormatsFunction {
        isAvailable := false;
        return;
      }
      if formatsError {
        isAvailable := false;
      } else {
        isAvailable := true;
      }
    }
  }

  // ---------------------------------------------------------------------
  // Metadata

  /** `getVideoMetadata(filePath)`: no file checks and no timeout; the codec,
      width and height are passed through as ffprobe reports them, and a
      missing size is 0. `reply` is the ffprobe outcome. */
  function GetVideoMetadata(available: bool, reply: Result<ProbeData, string>): (r: Result<Metadata, string>)
    ensures !available ==> r == Failure(ServiceNotAvailable)
    ensures available && reply.Failure? ==> r == Failure("Failed to get video metadata: " + reply.error)
    ensures available && reply.Success? ==>
              (r == Failure(NoVideoStream) <==> FindStream(reply.value.streams, "video") == None)
    ensures r.Success? ==> available && reply.Success? && FindStream(reply.value.streams, "video").Some?
    ensures r.Success? ==> (r.value.duration == OrElse(FloatField(reply.value.format.duration), 0.0)
                            && r.value.size == OrElseInt(IntField(reply.value.format.size), 0)
                            && r.value.bitrate == OrElseInt(IntField(reply.value.format.bitRate), 0))
    ensures r.Success? ==> var v := FindStream(reply.value.streams, "video").value;
      r.value.video.codec == v.codecName && r.value.video.width == v.width && r.value.video.height == v.height
    ensures r.Success? ==> !r.value.isBasicMetadata && r.value.originalError == None
  {
    if !available then Failure(ServiceNotAvailable)
    else if reply.Failure? then Failure("Failed to get video metadata: " + reply.error)
    else
      var data := reply.value;
      var video := FindStream(data.streams, "video");
      if video.None? then Failure(NoVideoStream)
      else
        var v := video.value;
        var audio := FindStream(data.streams, "audio");
        Success(Metadata(
          OrElse(FloatField(data.format.duration), 0.0),
          OrElseInt(IntField(data.format.size), 0),
          OrElseInt(IntField(data.format.bitRate), 0),
          VideoInfo(v.codecName, v.width, v.height, ParseFps(v.rFrameRate), OrElseInt(IntField(v.bitRate), 0)),
          if audio.None? then None
          else Some(AudioInfo(audio.value.codecName, OrElseInt(IntField(audio.value.sampleRate), 0),
                              OrElseInt(audio.value.channels, 0), OrElseInt(IntField(audio.value.bitRate), 0))),
          false,
          None))
  }

  /** On the same ffprobe report of an existing, non-empty file, the service
      and the handler agree on duration, bit rates and frame rate; they differ
      in the size fallback (0 here, the file size there) and in the codec,
      width and height defaults. */
  lemma ServiceAgreesWithHandler(path: string, size: nat, data: ProbeData)
    requires size > 0 && FindStream(data.streams, "video").Some?
    ensures var s := GetVideoMetadata(true, Success(data));
      var h := FfmpegHandler.GetVideoMetadata(true, path, Present(size), Probed(data));
      s.Success? && h.Success?
      && s.value.duration == h.value.duration && s.value.bitrate == h.value.bitrate
      && s.value.video.fps == h.value.video.fps && s.value.video.bitrate == h.value.video.bitrate
      && s.value.audio.Some? == h.value.audio.Some?
      && (IntField(data.format.size).Some? && IntField(data.format.size).value != 0 ==> s.value.size == h.value.size)
      && (OrElseInt(IntField(data.format.size), 0) == 0 ==> s.value.size == 0 && h.value.size == size)
  {
  }

  // ---------------------------------------------------------------------
  // Thumbnails

  /** The service's thumbnail command: the handler's, without `-y`. */
  function ServiceThumbnailCommand(input: string, output: string, offset: real, opts: ThumbnailOptions): (c: ThumbnailCommand)
    ensures c.input == input && c.output == output && c.seek == offset && c.frames == 1
    ensures c.outputOptions == ["-q:v", IntToDecimal(opts.quality.GetOr(2)), "-f", "image2"]
  {
    ThumbnailCommand(input, offset, 1,
      IntToDecimal(opts.width.GetOr(160)) + "x" + IntToDecimal(opts.height.GetOr(90)),
      ["-q:v", IntToDecimal(opts.quality.GetOr(2)), "-f", "image2"],
      output)
  }

  /** The two commands differ only in the handler's trailing overwrite flag. */
  lemma ThumbnailCommandsDiffer(input: string, output: string, offset: real, opts: ThumbnailOptions)
    ensures var s := ServiceThumbnailCommand(input, output, offset, opts);
      var h := ThumbnailCommandFor(input, output, offset, opts);
      h == s.(outputOptions := s.outputOptions + ["-y"])
  {
    var s := ServiceThumbnailCommand(input, output, offset, opts);
    assert s.outputOptions + ["-y"] == ["-q:v", IntToDecimal(opts.quality.GetOr(2)), "-f", "image2", "-y"];
  }

  /** `generateThumbnail(...)` of the service: gated on availability only;
      the input file is not checked. */
  function GenerateThumbnail(available: bool, input: string, output: string, offset: real, opts: ThumbnailOptions,
                             render: ThumbnailCommand -> Option<string>): (r: Result<string, string>)
    ensures !available ==> r == Failure(ServiceNotAvailable)
    ensures r.Success? <==> available && render(ServiceThumbnailCommand(input, output, offset, opts)) == None
    ensures r.Success? ==> r.value == output
    ensures available && r.Failure? ==> StartsWith(r.error, "Failed to generate thumbnail: ")
  {
    if !available then Failure(ServiceNotAvailable)
    else
      match render(ServiceThumbnailCommand(input, output, offset, opts))
      case None => Success(output)
      case Some(msg) => Failure("Failed to generate thumbnail: " + msg)
  }

  // ---------------------------------------------------------------------
  // Formats

  /** `isSupportedVideoFormat(filePath)` in the renderer, whose `path` is the
      polyfill: the same six extensions, but trailing '/' characters are
      not stripped before the last segment is taken. */
  predicate IsSupportedVideoFormat(path: string) {
    Lower(PathPolyfill.Extname(path)) in SupportedExtensions
  }

  /** On a path that does not end in '/', the renderer and the main process
      agree on whether it is a supported video. */
  lemma SupportedFormatsAgree(path: string)
    requires path == [] || path[|path| - 1] != '/'
    ensures IsSupportedVideoFormat(path) == FfmpegHandler.IsSupportedVideoFormat(path)
  {
    ExtnamesAgree(path);
    ShortNotListed("");
    ShortNotListed(".");
  }

  /** Without a trailing '/', the two `extname`s differ only on the segment
      '..', where the polyfill gives '.' and Node gives nothing. */
  lemma ExtnamesAgree(path: string)
    requires path == [] || path[|path| - 1] != '/'
    ensures NodeExtname(path) == PathPolyfill.Extname(path)
            || (NodeExtname(path) == "" && PathPolyfill.Extname(path) == ".")
  {
    TrimWithoutTrailingSlash(path);
    if PathPolyfill.LastSegment(path) == ".." {
      PathPolyfill.ExtnameOfDotDot(path);
    }
  }

  /** A trailing '/' separates the two: Node's `extname` ignores it, the
      polyfill's finds an empty last segment; so 'dir/clip.mp4/' is a
      supported video to the main process and not to the renderer. */
  lemma TrailingSlashSeparates(dir: string, stem: string, ext: string)
    requires stem != "" && '/' !in stem
    requires Lower(ext) in SupportedExtensions
    ensures FfmpegHandler.IsSupportedVideoFormat(dir + "/" + stem + ext + "/")
    ensures !IsSupportedVideoFormat(dir + "/" + stem + ext + "/")
  {
    var file := dir + "/" + stem + ext;
    SupportedByExtension(dir, stem, ext);
    TrailingSlashIgnored(file);
    PathPolyfill.ExtnameOfDirectory(file + "/");
    ShortNotListed("");
  }

  // ---------------------------------------------------------------------
  // Encoding

  /** `getCRFForQuality(quality)` as written: a map lookup followed by
      `|| qualityMap.medium`, so the falsy 0 of 'lossless' becomes 23. */
  function CrfForQuality(quality: string): (crf: int)
    ensures crf in {28, 23, 18}
    ensures quality == "low" ==> crf == 28
    ensures quality == "high" ==> crf == 18
    ensures quality !in {"low", "high"} ==> crf == 23
  {
    OrElseInt(QualityMap(quality), 23)
  }

  /** `qualityMap[quality]`: None for a key the map does not have. */
  function QualityMap(quality: string): (r: Option<int>)
    ensures r.Some? <==> quality in {"low", "medium", "high", "lossless"}
    ensures quality == "lossless" <==> r == Some(0)
  {
    match quality
    case "low" => Some(28)
    case "medium" => Some(23)
    case "high" => Some(18)
    case "lossless" => Some(0)
    case _ => None
  }

  /** 'lossless' asks for CRF 0 and gets the medium setting. */
  lemma LosslessIsMedium()
    ensures CrfForQuality("lossless") == CrfForQuality("medium") == 23
  {
  }

  /** The evidently intended lookup (`qualityMap[quality] ?? qualityMap.medium`):
      every named quality keeps its value and only an unknown name falls back
      to medium. */
  function CrfForQualityIntended(quality: string): (crf: int)
    ensures quality == "lossless" <==> crf == 0
    ensures quality != "lossless" ==> crf == CrfForQuality(quality)
    ensures crf in {28, 23, 18, 0}
  {
    QualityMap(quality).GetOr(23)
  }

  /** Lower CRF means higher quality; the intended lookup is ordered so. */
  lemma CrfOrdered()
    ensures CrfForQualityIntended("lossless") < CrfForQualityIntended("high") < CrfForQualityIntended("medium")
            < CrfForQualityIntended("low")
  {
  }

  /** The `options` of the encoding calls; undefined fields take the defaults. */
  datatype EncodeOptions = EncodeOptions(videoCodec: Option<string>, audioCodec: Option<string>, quality: Option<string>)

  /** The output options both encoding calls pass. */
  function EncodeOutputOptions(opts: EncodeOptions): (r: seq<string>)
    ensures |r| == 8 && r[0] == "-c:v" && r[2] == "-c:a" && r[4] == "-preset" && r[5] == "fast" && r[6] == "-crf"
    ensures r[1] == opts.videoCodec.GetOr("libx264") && r[3] == opts.audioCodec.GetOr("aac")
    ensures r[7] == IntToDecimal(CrfForQualityIntended(opts.quality.GetOr("medium")))
  {
    ["-c:v", opts.videoCodec.GetOr("libx264"), "-c:a", opts.audioCodec.GetOr("aac"), "-preset", "fast",
     "-crf", IntToDecimal(CrfForQualityIntended(opts.quality.GetOr("medium")))]
  }

  /** One ffmpeg encoding run: its inputs, an optional seek and duration,
      the output options and the output path. */
  datatype EncodeJob = EncodeJob(inputs: seq<string>, seek: Option<real>, duration: Option<real>,
                                 outputOptions: seq<string>, output: string)

  /** What `concatenateVideos` does: a plain file copy for one input, an
      encoding run over all inputs for more. */
  datatype ConcatPlan = CopyFile(source: string, destination: string) | Encode(job: EncodeJob)

  /** The plan for `concatenateVideos(inputPaths, outputPath, options)`. */
  function ConcatPlanFor(inputs: seq<string>, output: string, opts: EncodeOptions): (r: Result<ConcatPlan, string>)
    ensures r.Failure? <==> inputs == []
    ensures r.Failure? ==> r.error == NoInputs
    ensures |inputs| == 1 ==> r == Success(CopyFile(inputs[0], output))
    ensures |inputs| >= 2 ==> r.Success? && r.value.Encode? && r.value.job.inputs == inputs
                              && r.value.job.output == output && r.value.job.seek == None
                              && r.value.job.duration == None
  {
    if |inputs| == 0 then Failure(NoInputs)
    else if |inputs| == 1 then Success(CopyFile(inputs[0], output))
    else Success(Encode(EncodeJob(inputs, None, None, EncodeOutputOptions(opts), output)))
  }

  /** `concatenateVideos(...)`: the availability gate, then the plan; `run`
      carries the plan out and gives None or the error message. */
  function ConcatenateVideos(available: bool, inputs: seq<string>, output: string, opts: EncodeOptions,
                             run: ConcatPlan -> Option<string>): (r: Result<string, string>)
    ensures !available ==> r == Failure(ServiceNotAvailable)
    ensures available && inputs == [] ==> r == Failure(NoInputs)
    ensures r.Success? ==> r.value == output && available && inputs != []
    ensures available && |inputs| == 1 && r.Failure? ==> StartsWith(r.error, "Failed to copy file: ")
    ensures available && |inputs| >= 2 && r.Failure? ==> StartsWith(r.error, "Failed to concatenate videos: ")
    ensures available && inputs != [] ==> (r.Success? <==> run(ConcatPlanFor(inputs, output, opts).value) == None)
    ensures available && |inputs| == 1 && run(CopyFile(inputs[0], output)).Some? ==>
      r == Failure("Failed to copy file: " + run(CopyFile(inputs[0], output)).value)
    ensures available && |inputs| >= 2 && run(ConcatPlanFor(inputs, output, opts).value).Some? ==>
      r == Failure("Failed to concatenate videos: " + run(ConcatPlanFor(inputs, output, opts).value).value)
  {
    if !available then Failure(ServiceNotAvailable)
    else
      match ConcatPlanFor(inputs, output, opts)
      case Failure(e) => Failure(e)
      case Success(plan) =>
        match run(plan)
        case None => Success(output)
        case Some(msg) =>
          if plan.CopyFile? then Failure("Failed to copy file: " + msg)
          else Failure("Failed to concatenate videos: " + msg)
  }

  /** The job of `trimVideo(inputPath, outputPath, startTime, endTime, options)`:
      seek to the start and encode `endTime - startTime` seconds. */
  function TrimJob(input: string, output: string, startTime: real, endTime: real, opts: EncodeOptions): (j: EncodeJob)
    ensures j.inputs == [input] && j.output == output && j.seek == Some(startTime)
    ensures j.duration.Some? && startTime + j.duration.value == endTime
    ensures j.outputOptions == EncodeOutputOptions(opts)
  {
    EncodeJob([input], Some(startTime), Some(endTime - startTime), EncodeOutputOptions(opts), output)
  }

  /** `trimVideo(...)`: gated on availability; the range is not validated. */
  function TrimVideo(available: bool, input: string, output: string, startTime: real, endTime: real,
                     opts: EncodeOptions, run: EncodeJob -> Option<string>): (r: Result<string, string>)
    ensures !available ==> r == Failure(ServiceNotAvailable)
    ensures r.Success? <==> available && run(TrimJob(input, output, startTime, endTime, opts)) == None
    ensures r.Success? ==> r.value == output
    ensures available && r.Failure? ==> StartsWith(r.error, "Failed to trim video: ")
  {
    if !available then Failure(ServiceNotAvailable)
    else
      match run(TrimJob(input, output, startTime, endTime, opts))
      case None => Success(output)
      case Some(msg) => Failure("Failed to trim video: " + msg)
  }

  /** An end before the start is passed on as a negative duration. */
  lemma TrimReversedRange(input: string, output: string, startTime: real, endTime: real, opts: EncodeOptions)
    requires endTime < startTime
    ensures TrimJob(input, output, startTime, endTime, opts).duration.value < 0.0
  {
  }
}
