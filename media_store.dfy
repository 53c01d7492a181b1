/** The media catalogue store: records created for imported files, a
    sequential pass that fills each record from the metadata probe and the
    thumbnail renderer (both reached over the desktop bridge and given here
    as replies), and removal by id. Every update looks its record up by id
    and does nothing when the record is gone. `null` and `undefined` fields
    are both `None`. */
module MediaStore {
  import opened Strings
  import opened Wrappers
  import opened JsNumbers
  import FfmpegHandler

  /** What the file picker hands the store for one file. */
  datatype InputFile = InputFile(name: string, path: string, size: nat, fileType: string, lastModified: int)

  datatype MediaFile = MediaFile(
    id: string,
    name: string,
    path: string,
    size: nat,
    fileType: string,
    lastModified: int,
    duration: Option<real>,
    resolution: Option<string>,
    codec: Option<string>,
    thumbnail: Option<string>,
    thumbnailGenerated: bool,
    thumbnailError: Option<string>,
    isProcessing: bool,
    error: Option<string>,
    isBasicMetadata: Option<bool>,
    metadataError: Option<string>)

  /** The thumbnail request sent over the bridge: input, output, offset in
      seconds and the frame size. */
  datatype ThumbnailCall = ThumbnailCall(input: string, output: string, offset: real, width: int, height: int)

  /** The bridge's answers for one file of a processing pass: the metadata
      (or the message of the error it threw) and the renderer, which returns
      the output path or the message of its error. */
  datatype FileReply = FileReply(
    metadata: Result<FfmpegHandler.Metadata, string>,
    thumbnail: ThumbnailCall -> Result<string, string>)

  const ThumbnailDir := "temp/thumbnails/"
  const Unknown := "Unknown"

  /** The id of the record made for the file at `index` of a batch, with the
      clock reading `stamp`. */
  function MediaId(stamp: nat, index: nat): string {
    "media_" + NatToDecimal(stamp) + "_" + NatToDecimal(index)
  }

  /** Two strings of digits joined by '_' can be split back apart. */
  lemma DigitsAroundUnderscore(a: string, b: string, c: string, d: string)
    requires IsDigits(a) && IsDigits(b) && IsDigits(c) && IsDigits(d)
    requires a + "_" + b == c + "_" + d
    ensures a == c && b == d
  {
    var x := a + "_" + b;
    assert forall i :: 0 <= i < |a| ==> x[i] == a[i];
    assert forall i :: 0 <= i < |c| ==> x[i] == c[i];
    assert x[|a|] == '_' && x[|c|] == '_';
    assert |a| == |c| by {
      assert !IsDigit('_');
    }
    assert a == x[..|a|] && c == x[..|c|];
    assert b == x[|a| + 1..] && d == x[|c| + 1..];
  }

  /** An id names its clock reading and its batch position. */
  lemma MediaIdInjective(stamp1: nat, index1: nat, stamp2: nat, index2: nat)
    requires MediaId(stamp1, index1) == MediaId(stamp2, index2)
    ensures stamp1 == stamp2 && index1 == index2
  {
    var a, b := NatToDecimal(stamp1), NatToDecimal(index1);
    var c, d := NatToDecimal(stamp2), NatToDecimal(index2);
    assert MediaId(stamp1, index1)[6..] == a + "_" + b;
    assert MediaId(stamp2, index2)[6..] == c + "_" + d;
    DigitsAroundUnderscore(a, b, c, d);
    DecimalInjective(stamp1, stamp2);
    DecimalInjective(index1, index2);
  }

  /** Whatever the clock reads for each file, the ids of one batch differ. */
  lemma BatchIdsDistinct(stamps: seq<nat>)
    ensures forall a, b :: 0 <= a < b < |stamps| ==> MediaId(stamps[a], a) != MediaId(stamps[b], b)
  {
    forall a, b | 0 <= a < b < |stamps|
      ensures MediaId(stamps[a], a) != MediaId(stamps[b], b)
    {
      if MediaId(stamps[a], a) == MediaId(stamps[b], b) {
        MediaIdInjective(stamps[a], a, stamps[b], b);
      }
    }
  }

  /** A record that no probe or renderer has touched yet. */
  predicate Awaiting(m: MediaFile) {
    m.duration == None && m.resolution == None && m.codec == None && m.thumbnail == None
    && !m.thumbnailGenerated && m.thumbnailError == None && m.isProcessing && m.error == None
  }

  function NewRecord(file: InputFile, id: string): MediaFile {
    MediaFile(id, file.name, file.path, file.size, file.fileType, file.lastModified,
              None, None, None, None, false, None, true, None, None, None)
  }

  /** The records `addMediaFiles` builds, one per input in input order, each
      awaiting processing, with ids that differ within the batch. */
  function NewRecords(files: seq<InputFile>, stamps: seq<nat>): (r: seq<MediaFile>)
    requires |stamps| == |files|
    ensures |r| == |files|
    ensures forall i :: 0 <= i < |r| ==>
      && r[i].id == MediaId(stamps[i], i)
      && r[i].name == files[i].name && r[i].path == files[i].path && r[i].size == files[i].size
      && r[i].fileType == files[i].fileType && r[i].lastModified == files[i].lastModified
      && Awaiting(r[i])
    ensures forall a, b :: 0 <= a < b < |r| ==> r[a].id != r[b].id
  {
    BatchIdsDistinct(stamps);
    seq(|files|, i requires 0 <= i < |files| => NewRecord(files[i], MediaId(stamps[i], i)))
  }

  /** `findIndex` by id: the first record with the id, or -1. */
  function FindIndex(store: seq<MediaFile>, id: string): (k: int)
    ensures -1 <= k < |store|
    ensures k == -1 <==> forall i :: 0 <= i < |store| ==> store[i].id != id
    ensures k >= 0 ==> store[k].id == id && forall i :: 0 <= i < k ==> store[i].id != id
    decreases |store|
  {
    if store == [] then -1
    else if store[0].id == id then 0
    else
      var k := FindIndex(store[1..], id);
      if k == -1 then -1 else k + 1
  }

  /** Two stores with the same ids in the same places find the same index. */
  lemma FindIndexSameIds(s: seq<MediaFile>, t: seq<MediaFile>, id: string)
    requires |s| == |t| && forall i :: 0 <= i < |s| ==> s[i].id == t[i].id
    ensures FindIndex(s, id) == FindIndex(t, id)
  {
    var k, l := FindIndex(s, id), FindIndex(t, id);
    if k >= 0 {
      assert t[k].id == id;
    }
    if l >= 0 {
      assert s[l].id == id;
    }
  }

  /** `'WxH'` when the probe reported both dimensions as non-zero numbers. */
  function Resolution(video: FfmpegHandler.VideoInfo): string {
    if video.width.Some? && video.width.value != 0 && video.height.Some? && video.height.value != 0 then
      IntToDecimal(video.width.value) + "x" + IntToDecimal(video.height.value)
    else Unknown
  }

  /** The record after a successful probe. */
  function ApplyMetadata(m: MediaFile, md: FfmpegHandler.Metadata): MediaFile {
    m.(duration := Some(md.duration),
       resolution := Some(Resolution(md.video)),
       codec := Some(OrText(md.video.codec, Unknown)),
       isProcessing := false,
       isBasicMetadata := Some(md.isBasicMetadata),
       metadataError := if md.originalError.Some? && md.originalError.value != "" then md.originalError else None)
  }

  /** A failure is critical when its message names a missing, unreadable or
      empty file; any other failure only degrades the record. */
  predicate IsCritical(message: string) {
    Contains(message, "File does not exist") || Contains(message, "Permission denied")
    || Contains(message, "File is empty")
  }

  /** The record after the probe threw. */
  function ApplyFailure(m: MediaFile, message: string): MediaFile {
    var critical := IsCritical(message);
    m.(isProcessing := false,
       error := if critical then Some(message) else None,
       isBasicMetadata := Some(!critical),
       metadataError := if !critical then Some(message) else None,
       duration := Some(0.0),
       resolution := Some(Unknown),
       codec := Some(Unknown))
  }

  function ThumbnailPathFor(id: string): string {
    ThumbnailDir + id + ".jpg"
  }

  /** Distinct records get distinct thumbnail files. */
  lemma ThumbnailPathInjective(id1: string, id2: string)
    requires ThumbnailPathFor(id1) == ThumbnailPathFor(id2)
    ensures id1 == id2
  {
    var p := ThumbnailPathFor(id1);
    assert |id1| == |id2|;
    assert id1 == p[|ThumbnailDir|..|ThumbnailDir| + |id1|];
    assert id2 == ThumbnailPathFor(id2)[|ThumbnailDir|..|ThumbnailDir| + |id2|];
  }

  /** The request for a record's thumbnail: one second in, 200 by 112. */
  function ThumbnailCallFor(m: MediaFile): ThumbnailCall {
    ThumbnailCall(m.path, ThumbnailPathFor(m.id), 1.0, 200, 112)
  }

  /** The record after the renderer answered: the path and the flag on
      success, only the error message on failure. */
  function ApplyThumbnail(m: MediaFile, render: ThumbnailCall -> Result<string, string>): MediaFile {
    match render(ThumbnailCallFor(m))
    case Success(_) => m.(thumbnail := Some(ThumbnailPathFor(m.id)), thumbnailGenerated := true)
    case Failure(e) => m.(thumbnailError := Some(e))
  }

  /** One record's part of a processing pass: metadata then thumbnail, or the
      failure update when the probe threw. */
  function ProcessRecord(m: MediaFile, reply: FileReply): MediaFile {
    match reply.metadata
    case Success(md) => ApplyThumbnail(ApplyMetadata(m, md), reply.thumbnail)
    case Failure(message) => ApplyFailure(m, message)
  }

  /** Every record update keeps the record's id. */
  lemma ProcessRecordKeepsId(m: MediaFile, reply: FileReply)
    ensures ProcessRecord(m, reply).id == m.id
  {
    match reply.metadata
    case Success(md) =>
      assert ApplyMetadata(m, md).id == m.id;
    case Failure(message) =>
  }

  /** The store after one file of a pass: the first record with the file's
      id is updated and nothing else changes; a removed record is skipped. */
  function ProcessOne(store: seq<MediaFile>, file: MediaFile, reply: FileReply): (r: seq<MediaFile>)
    ensures |r| == |store|
    ensures forall i :: 0 <= i < |store| ==> r[i].id == store[i].id
    ensures FindIndex(store, file.id) == -1 ==> r == store
    ensures forall i :: 0 <= i < |store| && i != FindIndex(store, file.id) ==> r[i] == store[i]
  {
    var k := FindIndex(store, file.id);
    if k == -1 then store
    else
      ProcessRecordKeepsId(store[k], reply);
      store[k := ProcessRecord(store[k], reply)]
  }

  /** The store after the files of a pass, in order. */
  function ProcessAll(store: seq<MediaFile>, files: seq<MediaFile>, replies: seq<FileReply>): (r: seq<MediaFile>)
    requires |replies| == |files|
    ensures |r| == |store|
    ensures forall i :: 0 <= i < |store| ==> r[i].id == store[i].id
    decreases |files|
  {
    if files == [] then store
    else
      var n := |files| - 1;
      ProcessOne(ProcessAll(store, files[..n], replies[..n]), files[n], replies[n])
  }

  /** The step of a pass at one index: the file's own record is updated,
      every other record is kept. */
  lemma ProcessOneAt(s: seq<MediaFile>, file: MediaFile, reply: FileReply, i: int)
    requires 0 <= i < |s|
    ensures ProcessOne(s, file, reply)[i]
            == if i == FindIndex(s, file.id) then ProcessRecord(s[i], reply) else s[i]
  {
  }

  /** The last step of a pass, with the first files' part, `before`,
      folded up. */
  lemma ProcessAllLast(store: seq<MediaFile>, files: seq<MediaFile>, replies: seq<FileReply>,
                       before: seq<MediaFile>, i: int)
    requires |replies| == |files| && files != [] && 0 <= i < |store|
    requires before == ProcessAll(store, files[..|files| - 1], replies[..|files| - 1])
    ensures i == FindIndex(store, files[|files| - 1].id)
      ==> ProcessAll(store, files, replies)[i] == ProcessRecord(before[i], replies[|files| - 1])
    ensures i != FindIndex(store, files[|files| - 1].id) ==> ProcessAll(store, files, replies)[i] == before[i]
  {
    var n := |files| - 1;
    FindIndexSameIds(before, store, files[n].id);
    ProcessOneAt(before, files[n], replies[n], i);
  }

  /** A record that no file of the pass names is left as it was. */
  lemma {:induction false} UntouchedRecord(store: seq<MediaFile>, files: seq<MediaFile>, replies: seq<FileReply>, i: int)
    requires |replies| == |files| && 0 <= i < |store|
    requires forall j :: 0 <= j < |files| ==> FindIndex(store, files[j].id) != i
    ensures ProcessAll(store, files, replies)[i] == store[i]
    decreases |files|
  {
    if files != [] {
      var n := |files| - 1;
      ProcessAllLast(store, files, replies, ProcessAll(store, files[..n], replies[..n]), i);
      forall j | 0 <= j < n
        ensures FindIndex(store, files[..n][j].id) != i
      {
        assert files[..n][j] == files[j];
      }
      UntouchedRecord(store, files[..n], replies[..n], i);
    }
  }

  /** Failures are isolated: when the files of a pass have distinct ids, each
      file's record ends up exactly as processing that file alone from the
      original record makes it, whatever happened to the other files. */
  lemma {:induction false} ProcessedRecord(store: seq<MediaFile>, files: seq<MediaFile>, replies: seq<FileReply>, j: int)
    requires |replies| == |files| && 0 <= j < |files|
    requires forall a, b :: 0 <= a < b < |files| ==> files[a].id != files[b].id
    requires FindIndex(store, files[j].id) >= 0
    ensures ProcessAll(store, files, replies)[FindIndex(store, files[j].id)]
            == ProcessRecord(store[FindIndex(store, files[j].id)], replies[j])
    decreases |files|
  {
    var n := |files| - 1;
    var k := FindIndex(store, files[j].id);
    ProcessAllLast(store, files, replies, ProcessAll(store, files[..n], replies[..n]), k);
    if j == n {
      forall m | 0 <= m < n
        ensures FindIndex(store, files[..n][m].id) != k
      {
        assert files[..n][m] == files[m];
        assert files[m].id != files[n].id;
      }
      UntouchedRecord(store, files[..n], replies[..n], k);
    } else {
      assert files[..n][j] == files[j] && replies[..n][j] == replies[j];
      forall a, b | 0 <= a < b < n
        ensures files[..n][a].id != files[..n][b].id
      {
        assert files[..n][a] == files[a] && files[..n][b] == files[b];
      }
      ProcessedRecord(store, files[..n], replies[..n], j);
      assert store[k].id == files[j].id && files[j].id != files[n].id;
    }
  }

  /** The successful probe's fields land on the record, the record stops
      processing, and the thumbnail outcome is recorded. */
  lemma AfterMetadata(m: MediaFile, md: FfmpegHandler.Metadata, render: ThumbnailCall -> Result<string, string>)
    ensures var r := ProcessRecord(m, FileReply(Success(md), render));
      && r.id == m.id && r.path == m.path && r.name == m.name && r.error == m.error
      && r.duration == Some(md.duration)
      && r.codec == Some(if md.video.codec.Some? && md.video.codec.value != "" then md.video.codec.value else Unknown)
      && (md.video.width.Some? && md.video.width.value != 0 && md.video.height.Some? && md.video.height.value != 0
          ==> r.resolution == Some(IntToDecimal(md.video.width.value) + "x" + IntToDecimal(md.video.height.value)))
      && (md.video.width.None? || md.video.width.value == 0 || md.video.height.None? || md.video.height.value == 0
          ==> r.resolution == Some(Unknown))
      && !r.isProcessing
      && r.isBasicMetadata == Some(md.isBasicMetadata)
      && (md.originalError.Some? && md.originalError.value != "" ==> r.metadataError == md.originalError)
      && (md.originalError.None? || md.originalError.value == "" ==> r.metadataError == None)
      && (render(ThumbnailCallFor(m)).Success? ==> r.thumbnail == Some(ThumbnailPathFor(m.id)) && r.thumbnailGenerated)
      && (render(ThumbnailCallFor(m)).Failure?
          ==> r.thumbnailError == Some(render(ThumbnailCallFor(m)).error)
              && r.thumbnail == m.thumbnail && r.thumbnailGenerated == m.thumbnailGenerated)
  {
    var a := ApplyMetadata(m, md);
    assert ThumbnailCallFor(a) == ThumbnailCallFor(m);
  }

  /** A thrown probe stops processing and leaves a zero duration and unknown
      resolution and codec; the message becomes the record's error exactly
      when it is critical and its metadata error otherwise, and no
      thumbnail is attempted. */
  lemma AfterFailure(m: MediaFile, message: string, render: ThumbnailCall -> Result<string, string>)
    ensures var r := ProcessRecord(m, FileReply(Failure(message), render));
      && r.id == m.id && r.path == m.path && r.name == m.name
      && !r.isProcessing
      && r.duration == Some(0.0) && r.resolution == Some(Unknown) && r.codec == Some(Unknown)
      && (r.error.Some? <==> IsCritical(message))
      && (r.metadataError.Some? <==> !IsCritical(message))
      && (r.error == Some(message) || r.metadataError == Some(message))
      && r.isBasicMetadata == Some(!IsCritical(message))
      && r.thumbnail == m.thumbnail && r.thumbnailGenerated == m.thumbnailGenerated
      && r.thumbnailError == m.thumbnailError
  {
  }

  /** The handler's gate failures for a missing or empty file are critical
      however the bridge wraps their messages. */
  lemma GateFailuresAreCritical(path: string, file: FfmpegHandler.FileStat, probe: FfmpegHandler.ProbeReply,
                                prefix: string, suffix: string)
    requires file.Missing? || file == FfmpegHandler.Present(0)
    ensures FfmpegHandler.GetVideoMetadata(true, path, file, probe).Failure?
    ensures IsCritical(prefix + FfmpegHandler.GetVideoMetadata(true, path, file, probe).error + suffix)
  {
    if file.Missing? {
      assert prefix + ("File does not exist: " + path) + suffix
          == prefix + "File does not exist" + (": " + path + suffix);
      ContainsAt(prefix, "File does not exist", ": " + path + suffix);
    } else {
      ContainsAt(prefix, "File is empty", suffix);
    }
  }

  /** The handler's message for a denied probe is critical however it is
      wrapped. */
  lemma PermissionDeniedIsCritical(prefix: string, suffix: string)
    ensures IsCritical(prefix + FfmpegHandler.PermissionDenied + suffix)
  {
    assert prefix + FfmpegHandler.PermissionDenied + suffix
        == prefix + "Permission denied" + (" accessing the file" + suffix);
    ContainsAt(prefix, "Permission denied", " accessing the file" + suffix);
  }

  /** The classification keys on three phrases only: a message lacking a
      letter of each (such as one without 'x', 'P' and 'y', like the
      handler's not-found and corrupted-file messages) only degrades the
      record. */
  lemma DegradedWithoutKeyLetters(message: string)
    requires 'x' !in message && 'P' !in message && 'y' !in message
    ensures !IsCritical(message)
  {
    assert "File does not exist"[15] == 'x' && "Permission denied"[0] == 'P' && "File is empty"[12] == 'y';
    NotContainsChar(message, "File does not exist", 15);
    NotContainsChar(message, "Permission denied", 0);
    NotContainsChar(message, "File is empty", 12);
  }

  /** `removeMediaFile`: the first record with the id is spliced out. */
  function RemoveFirst(store: seq<MediaFile>, id: string): seq<MediaFile> {
    var k := FindIndex(store, id);
    if k == -1 then store else store[..k] + store[k + 1..]
  }

  /** Removal is a no-op for an unknown id; otherwise exactly the first
      record with the id goes and the rest keep their order. */
  lemma RemoveFirstEffect(store: seq<MediaFile>, id: string)
    ensures FindIndex(store, id) == -1 ==> RemoveFirst(store, id) == store
    ensures var k := FindIndex(store, id);
      k >= 0 ==>
        && |RemoveFirst(store, id)| == |store| - 1
        && multiset(RemoveFirst(store, id)) + multiset{store[k]} == multiset(store)
        && (forall i :: 0 <= i < k ==> RemoveFirst(store, id)[i] == store[i])
        && (forall i :: k <= i < |store| - 1 ==> RemoveFirst(store, id)[i] == store[i + 1])
  {
    var k := FindIndex(store, id);
    if k >= 0 {
      SpliceFacts(store, k);
    }
  }

  /** What `splice(k, 1)` leaves: the elements before `k`, then those after. */
  lemma SpliceFacts<T>(s: seq<T>, k: int)
    requires 0 <= k < |s|
    ensures var r := s[..k] + s[k + 1..];
      && |r| == |s| - 1
      && multiset(r) + multiset{s[k]} == multiset(s)
      && (forall i :: 0 <= i < k ==> r[i] == s[i])
      && (forall i :: k <= i < |s| - 1 ==> r[i] == s[i + 1])
  {
    assert s == s[..k] + [s[k]] + s[k + 1..];
    assert multiset(s) == multiset(s[..k]) + multiset{s[k]} + multiset(s[k + 1..]);
  }

  class Store {
    var mediaFiles: seq<MediaFile>
    var isLoading: bool
    var error: Option<string>

    constructor()
      ensures mediaFiles == [] && !isLoading && error == None
    {
      mediaFiles := [];
      isLoading := false;
      error := None;
    }

    /** `getMediaFileById`: the first record with the id (`Array.prototype.find`). */
    function GetMediaFileById(id: string): (r: Option<MediaFile>)
      reads this
      ensures r.None? <==> forall i :: 0 <= i < |mediaFiles| ==> mediaFiles[i].id != id
      ensures r.Some? ==> r.value.id == id && r.value in mediaFiles
      ensures r.Some? ==>
        exists k :: 0 <= k < |mediaFiles| && mediaFiles[k] == r.value && (forall i :: 0 <= i < k ==> mediaFiles[i].id != id)
    {
      var k := FindIndex(mediaFiles, id);
      if k == -1 then None else Some(mediaFiles[k])
    }

    /** `addMediaFiles`: the batch's records go after the existing ones; the
        clock reading for each file is a parameter. The processing pass the
        source starts without awaiting it is `ProcessMediaFiles`. */
    method AddMediaFiles(files: seq<InputFile>, stamps: seq<nat>) returns (batch: seq<MediaFile>)
      requires |stamps| == |files|
      modifies this
      ensures batch == NewRecords(files, stamps)
      ensures mediaFiles == old(mediaFiles) + batch
      ensures !isLoading && error == None
    {
      isLoading := true;
      error := None;
      batch := NewRecords(files, stamps);
      mediaFiles := mediaFiles + batch;
      isLoading := false;
    }

    /** `generateThumbnail(fileId)`: nothing without a record or without the
        bridge; otherwise the renderer's outcome is recorded on the record. */
    method GenerateThumbnail(fileId: string, bridge: bool, render: ThumbnailCall -> Result<string, string>)
      modifies this
      ensures var k := FindIndex(old(mediaFiles), fileId);
        mediaFiles == if k == -1 || !bridge then old(mediaFiles)
                      else old(mediaFiles)[k := ApplyThumbnail(old(mediaFiles)[k], render)]
      ensures isLoading == old(isLoading) && error == old(error)
    {
      var k := FindIndex(mediaFiles, fileId);
      if k == -1 || !bridge {
        return;
      }
      var file := mediaFiles[k];
      var outcome := render(ThumbnailCall(file.path, ThumbnailPathFor(fileId), 1.0, 200, 112));
      match outcome {
        case Success(_) =>
          mediaFiles := mediaFiles[k := file.(thumbnail := Some(ThumbnailPathFor(fileId)), thumbnailGenerated := true)];
        case Failure(e) =>
          mediaFiles := mediaFiles[k := file.(thumbnailError := Some(e))];
      }
    }

    /** One iteration of the processing loop, past the bridge check. */
    method ProcessFile(file: MediaFile, reply: FileReply)
      modifies this
      ensures mediaFiles == ProcessOne(old(mediaFiles), file, reply)
      ensures isLoading == old(isLoading) && error == old(error)
    {
      var k := FindIndex(mediaFiles, file.id);
      match reply.metadata {
        case Success(md) =>
          if k != -1 {
            mediaFiles := mediaFiles[k := ApplyMetadata(mediaFiles[k], md)];
          }
          ghost var updated := mediaFiles;
          FindIndexSameIds(updated, old(mediaFiles), file.id);
          // The bridge was present at the top of the iteration.
          GenerateThumbnail(file.id, true, reply.thumbnail);
        case Failure(message) =>
          if k != -1 {
            mediaFiles := mediaFiles[k := ApplyFailure(mediaFiles[k], message)];
          }
      }
    }

    /** `processMediaFiles(files)`: the files one after another, each
        failure caught inside the loop; without the bridge the loop returns
        at its first file and nothing changes. */
    method ProcessMediaFiles(files: seq<MediaFile>, bridge: bool, replies: seq<FileReply>)
      requires |replies| == |files|
      modifies this
      ensures mediaFiles == if bridge then ProcessAll(old(mediaFiles), files, replies) else old(mediaFiles)
      ensures isLoading == old(isLoading) && error == old(error)
    {
      var i := 0;
      while i < |files|
        invariant 0 <= i <= |files|
        invariant bridge || i == 0
        invariant mediaFiles == ProcessAll(old(mediaFiles), files[..i], replies[..i])
        invariant isLoading == old(isLoading) && error == old(error)
      {
        if !bridge {
          return;
        }
        ProcessFile(files[i], replies[i]);
        assert files[..i + 1][..i] == files[..i] && replies[..i + 1][..i] == replies[..i];
        i := i + 1;
      }
      assert files[..i] == files && replies[..i] == replies;
    }

    /** `removeMediaFile(fileId)`. */
    method RemoveMediaFile(fileId: string)
      modifies this
      ensures mediaFiles == RemoveFirst(old(mediaFiles), fileId)
      ensures isLoading == old(isLoading) && error == old(error)
    {
      var k := FindIndex(mediaFiles, fileId);
      if k != -1 {
        mediaFiles := mediaFiles[..k] + mediaFiles[k + 1..];
      }
    }

    /** `clearAllMediaFiles`. */
    method ClearAllMediaFiles()
      modifies this
      ensures mediaFiles == [] && error == None && isLoading == old(isLoading)
    {
      mediaFiles := [];
      error := None;
    }

    method SetError(message: Option<string>)
      modifies this
      ensures error == message && mediaFiles == old(mediaFiles) && isLoading == old(isLoading)
    {
      error := message;
    }

    method ClearError()
      modifies this
      ensures error == None && mediaFiles == old(mediaFiles) && isLoading == old(isLoading)
    {
      error := None;
    }
  }
}
