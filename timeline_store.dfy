/** The timeline store: tracks holding clips in order, a derived total
    duration that is the latest clip end, the clamped view settings and the
    clip selection. Fresh ids drawn from the clock and the random source are
    parameters. */
module TimelineStore {
  import opened Strings
  import opened Wrappers
  import MediaStore

  /** What a clip made from a media record remembers of it. */
  datatype MediaLink = MediaLink(mediaFileId: string, thumbnail: Option<string>, resolution: Option<string>,
                                 codec: Option<string>, filePath: string, fileSize: nat)

  datatype Clip = Clip(id: string, startTime: real, duration: real, name: string, media: Option<MediaLink>)

  /** The keys a caller may spread over a clip (`addClip`) or assign onto it
      (`updateClip`); None is a key that is absent. */
  datatype ClipPatch = ClipPatch(id: Option<string>, startTime: Option<real>, duration: Option<real>, name: Option<string>)

  datatype Track = Track(id: string, name: string, clips: seq<Clip>, muted: bool, locked: bool)

  /** An entry of `getClipsAtTime`: the clip and the track holding it. */
  datatype ClipAt = ClipAt(clip: Clip, track: Track)

  /** A clip's place: the track's position and the clip's position in it. */
  datatype Location = Location(track: nat, index: nat)

  /** The view state the clip actions leave alone. */
  datatype ViewSettings = ViewSettings(currentTime: real, isPlaying: bool, playbackRate: real, activeTrackId: string,
                               zoomLevel: real, selectedClips: seq<string>, selectedTrackId: Option<string>)

  const Track1Id := "track1"
  const Track2Id := "track2"
  const DefaultClipDuration := 5.0
  const DefaultClipName := "New Clip"
  const MinZoom := 0.1
  const MaxZoom := 10.0
  const ZoomFactor := 1.5
  const MinRate := 0.1
  const MaxRate := 4.0

  function End(c: Clip): real {
    c.startTime + c.duration
  }

  /** The latest end among the clips, starting from 0. */
  function MaxEnd(clips: seq<Clip>): real
    decreases |clips|
  {
    if clips == [] then 0.0
    else
      var n := |clips| - 1;
      var rest := MaxEnd(clips[..n]);
      if End(clips[n]) > rest then End(clips[n]) else rest
  }

  /** The total is the latest clip end: no clip ends later, and it is some
      clip's end unless it is 0. */
  lemma {:induction false} MaxEndBounds(clips: seq<Clip>)
    ensures MaxEnd(clips) >= 0.0
    ensures forall i :: 0 <= i < |clips| ==> End(clips[i]) <= MaxEnd(clips)
    ensures MaxEnd(clips) == 0.0 || exists i :: 0 <= i < |clips| && End(clips[i]) == MaxEnd(clips)
    decreases |clips|
  {
    if clips != [] {
      var n := |clips| - 1;
      MaxEndBounds(clips[..n]);
      assert forall i :: 0 <= i < n ==> clips[..n][i] == clips[i];
    }
  }

  /** The clips of all tracks, track after track. */
  function AllClips(tracks: seq<Track>): seq<Clip>
    decreases |tracks|
  {
    if tracks == [] then [] else AllClips(tracks[..|tracks| - 1]) + tracks[|tracks| - 1].clips
  }

  function TotalDurationOf(tracks: seq<Track>): real {
    MaxEnd(AllClips(tracks))
  }

  function ClipCount(tracks: seq<Track>): nat {
    |AllClips(tracks)|
  }

  lemma MaxEndAppend(clips: seq<Clip>, c: Clip)
    ensures MaxEnd(clips + [c]) == if End(c) > MaxEnd(clips) then End(c) else MaxEnd(clips)
  {
    assert (clips + [c])[..|clips|] == clips;
  }

  lemma MaxEndStep(prefix: seq<Clip>, clips: seq<Clip>, c: int)
    requires 0 <= c < |clips|
    ensures MaxEnd(prefix + clips[..c + 1])
            == if End(clips[c]) > MaxEnd(prefix + clips[..c]) then End(clips[c]) else MaxEnd(prefix + clips[..c])
  {
    assert prefix + clips[..c + 1] == prefix + clips[..c] + [clips[c]];
    MaxEndAppend(prefix + clips[..c], clips[c]);
  }

  /** A maximum over fewer clips is no larger. */
  lemma MaxEndSubset(s: seq<Clip>, t: seq<Clip>)
    requires forall x :: x in s ==> x in t
    ensures MaxEnd(s) <= MaxEnd(t)
  {
    MaxEndBounds(s);
    MaxEndBounds(t);
    var m := MaxEnd(s);
    if m != 0.0 {
      var i :| 0 <= i < |s| && End(s[i]) == m;
      assert s[i] in t;
    }
  }

  /** The maximum depends only on which clips there are. */
  lemma MaxEndSameElements(s: seq<Clip>, t: seq<Clip>)
    requires forall x :: x in s <==> x in t
    ensures MaxEnd(s) == MaxEnd(t)
  {
    MaxEndSubset(s, t);
    MaxEndSubset(t, s);
  }

  lemma FewerMembers<T>(s: seq<T>, t: seq<T>, c: T)
    requires multiset(s) + multiset{c} == multiset(t)
    ensures forall x :: x in s ==> x in t
  {
    forall x | x in s
      ensures x in t
    {
      assert x in multiset(s);
      assert x in multiset(t);
    }
  }

  lemma MaxEndSameMultiset(s: seq<Clip>, t: seq<Clip>)
    requires multiset(s) == multiset(t)
    ensures MaxEnd(s) == MaxEnd(t)
  {
    forall x
      ensures x in s <==> x in t
    {
      assert x in s <==> x in multiset(s);
      assert x in t <==> x in multiset(t);
    }
    MaxEndSameElements(s, t);
  }

  lemma {:induction false} AllClipsConcat(a: seq<Track>, b: seq<Track>)
    ensures AllClips(a + b) == AllClips(a) + AllClips(b)
    decreases |b|
  {
    if b == [] {
      assert a + b == a;
    } else {
      var n := |b| - 1;
      assert (a + b)[..|a + b| - 1] == a + b[..n];
      AllClipsConcat(a, b[..n]);
      assert AllClips(a + b) == AllClips(a) + AllClips(b[..n]) + b[n].clips;
    }
  }

  lemma AllClipsStep(tracks: seq<Track>, t: int)
    requires 0 <= t < |tracks|
    ensures AllClips(tracks[..t + 1]) == AllClips(tracks[..t]) + tracks[t].clips
  {
    assert tracks[..t + 1][..t] == tracks[..t];
  }

  /** The clips of all tracks, split around track `t`. */
  lemma AllClipsAround(tracks: seq<Track>, t: int)
    requires 0 <= t < |tracks|
    ensures AllClips(tracks) == AllClips(tracks[..t]) + tracks[t].clips + AllClips(tracks[t + 1..])
  {
    var front, back := tracks[..t + 1], tracks[t + 1..];
    assert tracks == front + back;
    AllClipsConcat(front, back);
    AllClipsStep(tracks, t);
  }

  /** Track `t` with its clips replaced. */
  function WithClips(tracks: seq<Track>, t: int, clips: seq<Clip>): (r: seq<Track>)
    requires 0 <= t < |tracks|
    ensures |r| == |tracks| && forall u :: 0 <= u < |r| ==> r[u].id == tracks[u].id
  {
    tracks[t := tracks[t].(clips := clips)]
  }

  /** Replacing one track's clips changes the count by the difference. */
  lemma WithClipsCount(tracks: seq<Track>, t: int, clips: seq<Clip>)
    requires 0 <= t < |tracks|
    ensures ClipCount(WithClips(tracks, t, clips)) + |tracks[t].clips| == ClipCount(tracks) + |clips|
  {
    var r := WithClips(tracks, t, clips);
    AllClipsAround(tracks, t);
    AllClipsAround(r, t);
    assert r[..t] == tracks[..t] && r[t + 1..] == tracks[t + 1..];
  }

  /** Replacing one track's clips replaces exactly those clips in the whole. */
  lemma WithClipsContents(tracks: seq<Track>, t: int, clips: seq<Clip>)
    requires 0 <= t < |tracks|
    ensures var r := WithClips(tracks, t, clips);
      && AllClips(r) == AllClips(tracks[..t]) + clips + AllClips(tracks[t + 1..])
      && multiset(AllClips(r)) + multiset(tracks[t].clips) == multiset(AllClips(tracks)) + multiset(clips)
      && ClipCount(r) + |tracks[t].clips| == ClipCount(tracks) + |clips|
  {
    var r := WithClips(tracks, t, clips);
    AllClipsAround(tracks, t);
    AllClipsAround(r, t);
    assert r[..t] == tracks[..t] && r[t + 1..] == tracks[t + 1..];
  }

  /** `getTrackById`: the first track with the id, or -1. */
  function FindTrack(tracks: seq<Track>, id: string): (k: int)
    ensures -1 <= k < |tracks|
    ensures k == -1 <==> forall u :: 0 <= u < |tracks| ==> tracks[u].id != id
    ensures k >= 0 ==> tracks[k].id == id && forall u :: 0 <= u < k ==> tracks[u].id != id
    decreases |tracks|
  {
    if tracks == [] then -1
    else if tracks[0].id == id then 0
    else
      var k := FindTrack(tracks[1..], id);
      if k == -1 then -1 else k + 1
  }

  lemma FindTrackSameIds(s: seq<Track>, t: seq<Track>, id: string)
    requires |s| == |t| && forall u :: 0 <= u < |s| ==> s[u].id == t[u].id
    ensures FindTrack(s, id) == FindTrack(t, id)
  {
    var k, l := FindTrack(s, id), FindTrack(t, id);
    if k >= 0 {
      assert t[k].id == id;
    }
    if l >= 0 {
      assert s[l].id == id;
    }
  }

  /** No clip with the id. */
  predicate Lacks(clips: seq<Clip>, id: string) {
    forall j :: 0 <= j < |clips| ==> clips[j].id != id
  }

  /** `findIndex` by id among a track's clips. */
  function ClipIndex(clips: seq<Clip>, id: string): (i: int)
    ensures -1 <= i < |clips|
    ensures i == -1 <==> Lacks(clips, id)
    ensures i >= 0 ==> clips[i].id == id && forall j :: 0 <= j < i ==> clips[j].id != id
    decreases |clips|
  {
    if clips == [] then -1
    else if clips[0].id == id then 0
    else
      var i := ClipIndex(clips[1..], id);
      assert forall j :: 0 <= j < |clips| - 1 ==> clips[1..][j] == clips[j + 1];
      if i == -1 then -1 else i + 1
  }

  /** The first track from position `t` on holding a clip with the id,
      and the first such clip in it. */
  function LocateFrom(tracks: seq<Track>, id: string, t: nat): (r: Option<Location>)
    requires t <= |tracks|
    ensures r.None? <==> forall u :: t <= u < |tracks| ==> Lacks(tracks[u].clips, id)
    ensures r.Some? ==> t <= r.value.track < |tracks| && r.value.index as int == ClipIndex(tracks[r.value.track].clips, id)
    ensures r.Some? ==> forall u :: t <= u < r.value.track ==> Lacks(tracks[u].clips, id)
    decreases |tracks| - t
  {
    if t == |tracks| then None
    else
      var i := ClipIndex(tracks[t].clips, id);
      if i >= 0 then Some(Location(t, i)) else LocateFrom(tracks, id, t + 1)
  }

  /** `getClipById`: the first track holding a clip with the id, and the
      first such clip in it. */
  function Locate(tracks: seq<Track>, id: string): (r: Option<Location>)
    ensures r.None? <==> forall u :: 0 <= u < |tracks| ==> Lacks(tracks[u].clips, id)
    ensures r.Some? ==> r.value.track < |tracks| && r.value.index as int == ClipIndex(tracks[r.value.track].clips, id)
    ensures r.Some? ==> forall u :: 0 <= u < r.value.track ==> Lacks(tracks[u].clips, id)
  {
    LocateFrom(tracks, id, 0)
  }

  /** The track a scan in order stops at is the one `Locate` reports. */
  lemma LocateAt(tracks: seq<Track>, id: string, t: int)
    requires 0 <= t < |tracks| && ClipIndex(tracks[t].clips, id) >= 0
    requires forall u :: 0 <= u < t ==> ClipIndex(tracks[u].clips, id) == -1
    ensures Locate(tracks, id) == Some(Location(t, ClipIndex(tracks[t].clips, id) as nat))
  {
    var r := Locate(tracks, id);
    assert ClipIndex(tracks[t].clips, id) != -1;
    assert r.Some?;
    var l := r.value.track as int;
    assert ClipIndex(tracks[l].clips, id) != -1;
    assert l <= t && t <= l;
  }

  function RemoveAt(clips: seq<Clip>, i: int): seq<Clip>
    requires 0 <= i < |clips|
  {
    clips[..i] + clips[i + 1..]
  }

  lemma RemoveAtContents(clips: seq<Clip>, i: int)
    requires 0 <= i < |clips|
    ensures multiset(RemoveAt(clips, i)) + multiset{clips[i]} == multiset(clips)
    ensures forall x :: x in RemoveAt(clips, i) ==> x in clips
  {
    assert clips == clips[..i] + [clips[i]] + clips[i + 1..];
  }

  /** A clip from the defaults with the caller's keys spread over them. */
  function ApplyPatch(c: Clip, patch: ClipPatch): Clip {
    Clip(patch.id.GetOr(c.id), patch.startTime.GetOr(c.startTime), patch.duration.GetOr(c.duration),
         patch.name.GetOr(c.name), c.media)
  }

  /** `addClip`'s new clip: id from the generator, start 0, five seconds and
      the default name, each unless the caller gave it. */
  function NewClip(patch: ClipPatch, freshId: string): (c: Clip)
    ensures c.id == if patch.id.Some? then patch.id.value else freshId
    ensures c.startTime == if patch.startTime.Some? then patch.startTime.value else 0.0
    ensures c.duration == if patch.duration.Some? then patch.duration.value else DefaultClipDuration
    ensures c.name == if patch.name.Some? then patch.name.value else DefaultClipName
    ensures c.media == None
  {
    ApplyPatch(Clip(freshId, 0.0, DefaultClipDuration, DefaultClipName, None), patch)
  }

  /** Where `addMediaFileAsClip` starts a clip: the end of the track's last
      clip, or 0 on an empty track. */
  function NextStart(clips: seq<Clip>): real {
    if clips == [] then 0.0 else End(clips[|clips| - 1])
  }

  /** The clip made from a media record. */
  function MediaClip(file: MediaStore.MediaFile, start: real): Clip {
    Clip("clip_" + file.id, start,
         if file.duration.Some? && file.duration.value != 0.0 then file.duration.value else DefaultClipDuration,
         file.name, Some(MediaLink(file.id, file.thumbnail, file.resolution, file.codec, file.path, file.size)))
  }

  /** The tracks after `addMediaFileAsClip(file, trackId)`. */
  function AddMedia(tracks: seq<Track>, file: MediaStore.MediaFile, trackId: string): (r: seq<Track>)
    ensures |r| == |tracks| && forall u :: 0 <= u < |r| ==> r[u].id == tracks[u].id
  {
    var k := FindTrack(tracks, trackId);
    if k == -1 then tracks
    else WithClips(tracks, k, tracks[k].clips + [MediaClip(file, NextStart(tracks[k].clips))])
  }

  /** Adding a media clip to a known track adds one clip. */
  lemma AddMediaCount(tracks: seq<Track>, file: MediaStore.MediaFile, trackId: string)
    requires FindTrack(tracks, trackId) >= 0
    ensures ClipCount(AddMedia(tracks, file, trackId)) == ClipCount(tracks) + 1
  {
    var k := FindTrack(tracks, trackId);
    WithClipsCount(tracks, k, tracks[k].clips + [MediaClip(file, NextStart(tracks[k].clips))]);
  }

  /** Clips placed back to back from time 0. */
  predicate Contiguous(clips: seq<Clip>) {
    && (clips != [] ==> clips[0].startTime == 0.0)
    && forall i :: 0 < i < |clips| ==> clips[i].startTime == End(clips[i - 1])
  }

  /** A clip appended where the last one ends keeps a track back to back. */
  lemma AppendKeepsContiguous(clips: seq<Clip>, c: Clip)
    requires Contiguous(clips) && c.startTime == NextStart(clips)
    ensures Contiguous(clips + [c])
  {
    var r := clips + [c];
    assert forall i :: 0 <= i < |clips| ==> r[i] == clips[i];
  }

  /** Adding a media clip leaves every track back to back that was. */
  lemma AddMediaKeepsContiguous(tracks: seq<Track>, file: MediaStore.MediaFile, trackId: string)
    requires forall u :: 0 <= u < |tracks| ==> Contiguous(tracks[u].clips)
    ensures forall u :: 0 <= u < |tracks| ==> Contiguous(AddMedia(tracks, file, trackId)[u].clips)
  {
    var k := FindTrack(tracks, trackId);
    if k >= 0 {
      AppendKeepsContiguous(tracks[k].clips, MediaClip(file, NextStart(tracks[k].clips)));
    }
  }

  /** The track the file at `index` goes to: `even` or `odd` by parity. */
  function SyncTarget(index: nat, even: string, odd: string): string {
    if index % 2 == 0 then even else odd
  }

  /** The tracks after the files are added in order, alternating between
      the tracks `even` and `odd`. */
  function SyncInto(tracks: seq<Track>, files: seq<MediaStore.MediaFile>, even: string, odd: string): (r: seq<Track>)
    ensures |r| == |tracks| && forall u :: 0 <= u < |r| ==> r[u].id == tracks[u].id
    decreases |files|
  {
    if files == [] then tracks
    else
      var n := |files| - 1;
      AddMedia(SyncInto(tracks, files[..n], even, odd), files[n], SyncTarget(n, even, odd))
  }

  /** `syncWithMediaFiles`' placement: 'track1' for even positions and
      'track2' for odd ones. */
  function SyncAll(tracks: seq<Track>, files: seq<MediaStore.MediaFile>): seq<Track> {
    SyncInto(tracks, files, Track1Id, Track2Id)
  }

  /** Every track filled from empty is back to back. */
  lemma {:induction false} SyncContiguous(tracks: seq<Track>, files: seq<MediaStore.MediaFile>, even: string, odd: string)
    requires forall u :: 0 <= u < |tracks| ==> tracks[u].clips == []
    ensures forall u :: 0 <= u < |tracks| ==> Contiguous(SyncInto(tracks, files, even, odd)[u].clips)
    decreases |files|
  {
    if files != [] {
      var n := |files| - 1;
      var before := SyncInto(tracks, files[..n], even, odd);
      SyncContiguous(tracks, files[..n], even, odd);
      AddMediaKeepsContiguous(before, files[n], SyncTarget(n, even, odd));
    }
  }

  /** A track holding, in order, the clips of the files at positions
      `first`, `first + 2`, ... of `files`, one for each such position. */
  predicate HoldsEvery(clips: seq<Clip>, files: seq<MediaStore.MediaFile>, first: nat)
    requires first <= 1
  {
    && |clips| == (|files| + 1 - first) / 2
    && forall j :: 0 <= j < |clips| ==> first + 2 * j < |files| && clips[j] == MediaClip(files[first + 2 * j], clips[j].startTime)
  }

  /** The track receiving file `n` gains its clip at the end. */
  lemma HoldsEveryGrows(clips: seq<Clip>, files: seq<MediaStore.MediaFile>, first: nat, n: nat)
    requires n + 1 == |files| && first <= 1 && n % 2 == first
    requires HoldsEvery(clips, files[..n], first)
    ensures HoldsEvery(clips + [MediaClip(files[n], NextStart(clips))], files, first)
  {
    var r := clips + [MediaClip(files[n], NextStart(clips))];
    assert first + 2 * |clips| == n;
    forall j | 0 <= j < |r|
      ensures first + 2 * j < |files| && r[j] == MediaClip(files[first + 2 * j], r[j].startTime)
    {
      if j < |clips| {
        assert files[..n][first + 2 * j] == files[first + 2 * j];
      }
    }
  }

  /** The other track keeps its clips, which still match. */
  lemma HoldsEveryKept(clips: seq<Clip>, files: seq<MediaStore.MediaFile>, first: nat, n: nat)
    requires n + 1 == |files| && first <= 1 && n % 2 != first
    requires HoldsEvery(clips, files[..n], first)
    ensures HoldsEvery(clips, files, first)
  {
    assert (n + 2 - first) / 2 == (n + 1 - first) / 2;
    forall j | 0 <= j < |clips|
      ensures first + 2 * j < |files| && clips[j] == MediaClip(files[first + 2 * j], clips[j].startTime)
    {
      assert files[..n][first + 2 * j] == files[first + 2 * j];
    }
  }

  /** Even positions on track `k1`, odd ones on track `k2`, no clip elsewhere. */
  predicate Placed(tracks: seq<Track>, files: seq<MediaStore.MediaFile>, k1: int, k2: int)
    requires 0 <= k1 < |tracks| && 0 <= k2 < |tracks|
  {
    && HoldsEvery(tracks[k1].clips, files, 0)
    && HoldsEvery(tracks[k2].clips, files, 1)
    && forall u :: 0 <= u < |tracks| && u != k1 && u != k2 ==> tracks[u].clips == []
  }

  /** Adding file `n` to the track its position selects keeps the placement. */
  lemma PlacedStep(before: seq<Track>, files: seq<MediaStore.MediaFile>, k1: int, k2: int, k: int)
    requires files != [] && 0 <= k1 < |before| && 0 <= k2 < |before| && k1 != k2
    requires k == if (|files| - 1) % 2 == 0 then k1 else k2
    requires Placed(before, files[..|files| - 1], k1, k2)
    ensures var n := |files| - 1;
      Placed(WithClips(before, k, before[k].clips + [MediaClip(files[n], NextStart(before[k].clips))]), files, k1, k2)
  {
    var n := |files| - 1;
    var r := WithClips(before, k, before[k].clips + [MediaClip(files[n], NextStart(before[k].clips))]);
    if n % 2 == 0 {
      HoldsEveryGrows(before[k1].clips, files, 0, n);
      HoldsEveryKept(before[k2].clips, files, 1, n);
    } else {
      HoldsEveryKept(before[k1].clips, files, 0, n);
      HoldsEveryGrows(before[k2].clips, files, 1, n);
    }
    assert r[k1].clips == (if n % 2 == 0 then before[k1].clips + [MediaClip(files[n], NextStart(before[k1].clips))] else before[k1].clips);
    assert r[k2].clips == (if n % 2 == 0 then before[k2].clips else before[k2].clips + [MediaClip(files[n], NextStart(before[k2].clips))]);
  }

  /** Filling empty tracks when both targets exist: the files at even
      positions land on `even` and those at odd positions on `odd`, each
      track in input order, and every other track stays empty. */
  lemma {:induction false} SyncPlacement(tracks: seq<Track>, files: seq<MediaStore.MediaFile>, even: string, odd: string)
    requires forall u :: 0 <= u < |tracks| ==> tracks[u].clips == []
    requires even != odd && FindTrack(tracks, even) >= 0 && FindTrack(tracks, odd) >= 0
    ensures Placed(SyncInto(tracks, files, even, odd), files, FindTrack(tracks, even), FindTrack(tracks, odd))
    decreases |files|
  {
    var k1, k2 := FindTrack(tracks, even), FindTrack(tracks, odd);
    if files != [] {
      var n := |files| - 1;
      var before := SyncInto(tracks, files[..n], even, odd);
      SyncPlacement(tracks, files[..n], even, odd);
      FindTrackSameIds(before, tracks, SyncTarget(n, even, odd));
      var k := FindTrack(tracks, SyncTarget(n, even, odd));
      assert k == if n % 2 == 0 then k1 else k2;
      PlacedStep(before, files, k1, k2, k);
    } else {
      assert (|files| + 1 - 0) / 2 == 0 && (|files| + 1 - 1) / 2 == 0;
    }
  }

  /** The last file, added to a known track, adds one clip. */
  lemma SyncCountStep(tracks: seq<Track>, files: seq<MediaStore.MediaFile>, even: string, odd: string,
                      before: seq<Track>)
    requires files != [] && before == SyncInto(tracks, files[..|files| - 1], even, odd)
    requires FindTrack(before, SyncTarget(|files| - 1, even, odd)) >= 0
    ensures ClipCount(SyncInto(tracks, files, even, odd)) == ClipCount(before) + 1
  {
    var n := |files| - 1;
    AddMediaCount(before, files[n], SyncTarget(n, even, odd));
  }

  /** Filling empty tracks when both targets exist turns each file into
      exactly one clip. */
  lemma {:induction false} SyncCount(tracks: seq<Track>, files: seq<MediaStore.MediaFile>, even: string, odd: string)
    requires forall u :: 0 <= u < |tracks| ==> tracks[u].clips == []
    requires FindTrack(tracks, even) >= 0 && FindTrack(tracks, odd) >= 0
    ensures ClipCount(SyncInto(tracks, files, even, odd)) == |files|
    decreases |files|
  {
    if files == [] {
      EmptyTracks(tracks);
    } else {
      var n := |files| - 1;
      var before := SyncInto(tracks, files[..n], even, odd);
      SyncCount(tracks, files[..n], even, odd);
      var target := SyncTarget(n, even, odd);
      assert target == even || target == odd;
      FindTrackSameIds(before, tracks, target);
      SyncCountStep(tracks, files, even, odd, before);
    }
  }

  /** `syncWithMediaFiles` from cleared tracks, with 'track1' and 'track2'
      present: even positions on 'track1', odd ones on 'track2', in input
      order and back to back, nothing elsewhere, one clip per file. */
  lemma SyncWithDefaultTracks(tracks: seq<Track>, files: seq<MediaStore.MediaFile>)
    requires forall u :: 0 <= u < |tracks| ==> tracks[u].clips == []
    requires FindTrack(tracks, Track1Id) >= 0 && FindTrack(tracks, Track2Id) >= 0
    ensures Placed(SyncAll(tracks, files), files, FindTrack(tracks, Track1Id), FindTrack(tracks, Track2Id))
    ensures forall u :: 0 <= u < |tracks| ==> Contiguous(SyncAll(tracks, files)[u].clips)
    ensures ClipCount(SyncAll(tracks, files)) == |files|
  {
    assert Track1Id[5] != Track2Id[5];
    SyncPlacement(tracks, files, Track1Id, Track2Id);
    SyncContiguous(tracks, files, Track1Id, Track2Id);
    SyncCount(tracks, files, Track1Id, Track2Id);
  }

  /** `getClipsAtTime`'s test: the time lies within the clip, ends included. */
  predicate Covers(c: Clip, time: real) {
    time >= c.startTime && time <= c.startTime + c.duration
  }

  /** The entries for one track's clips, in order. */
  function TrackHits(track: Track, clips: seq<Clip>, time: real): seq<ClipAt>
    decreases |clips|
  {
    if clips == [] then []
    else
      var m := |clips| - 1;
      TrackHits(track, clips[..m], time) + (if Covers(clips[m], time) then [ClipAt(clips[m], track)] else [])
  }

  /** The entries of `getClipsAtTime`, track after track. */
  function ClipsAtTime(tracks: seq<Track>, time: real): seq<ClipAt>
    decreases |tracks|
  {
    if tracks == [] then []
    else
      var n := |tracks| - 1;
      ClipsAtTime(tracks[..n], time) + TrackHits(tracks[n], tracks[n].clips, time)
  }

  lemma {:induction false} TrackHitsSound(track: Track, clips: seq<Clip>, time: real, x: ClipAt)
    requires x in TrackHits(track, clips, time)
    ensures exists i :: 0 <= i < |clips| && x == ClipAt(clips[i], track) && Covers(clips[i], time)
    decreases |clips|
  {
    var m := |clips| - 1;
    if x in TrackHits(track, clips[..m], time) {
      TrackHitsSound(track, clips[..m], time, x);
      var i :| 0 <= i < m && x == ClipAt(clips[..m][i], track) && Covers(clips[..m][i], time);
      assert clips[..m][i] == clips[i];
    } else {
      assert x == ClipAt(clips[m], track) && Covers(clips[m], time);
    }
  }

  lemma {:induction false} TrackHitsComplete(track: Track, clips: seq<Clip>, time: real, i: int)
    requires 0 <= i < |clips| && Covers(clips[i], time)
    ensures ClipAt(clips[i], track) in TrackHits(track, clips, time)
    decreases |clips|
  {
    var m := |clips| - 1;
    if i < m {
      TrackHitsComplete(track, clips[..m], time, i);
      assert clips[..m][i] == clips[i];
    }
  }

  /** Every entry of `getClipsAtTime` is a clip of some track that covers
      the time, paired with that track. */
  lemma {:induction false} ClipsAtTimeSound(tracks: seq<Track>, time: real, x: ClipAt)
    requires x in ClipsAtTime(tracks, time)
    ensures exists t, i :: 0 <= t < |tracks| && 0 <= i < |tracks[t].clips|
                           && x == ClipAt(tracks[t].clips[i], tracks[t]) && Covers(tracks[t].clips[i], time)
    decreases |tracks|
  {
    var n := |tracks| - 1;
    if x in ClipsAtTime(tracks[..n], time) {
      ClipsAtTimeSound(tracks[..n], time, x);
      var t, i :| 0 <= t < n && 0 <= i < |tracks[..n][t].clips|
                  && x == ClipAt(tracks[..n][t].clips[i], tracks[..n][t]) && Covers(tracks[..n][t].clips[i], time);
      assert tracks[..n][t] == tracks[t];
    } else {
      TrackHitsSound(tracks[n], tracks[n].clips, time, x);
      var i :| 0 <= i < |tracks[n].clips| && x == ClipAt(tracks[n].clips[i], tracks[n]) && Covers(tracks[n].clips[i], time);
    }
  }

  /** Every clip covering the time is reported with its track. */
  lemma {:induction false} ClipsAtTimeComplete(tracks: seq<Track>, time: real, t: int, i: int)
    requires 0 <= t < |tracks| && 0 <= i < |tracks[t].clips| && Covers(tracks[t].clips[i], time)
    ensures ClipAt(tracks[t].clips[i], tracks[t]) in ClipsAtTime(tracks, time)
    decreases |tracks|
  {
    var n := |tracks| - 1;
    if t < n {
      assert tracks[..n][t] == tracks[t];
      ClipsAtTimeComplete(tracks[..n], time, t, i);
    } else {
      TrackHitsComplete(tracks[n], tracks[n].clips, time, i);
    }
  }

  /** An entry is reported exactly when some track holds a clip covering
      the time; the entry names that clip and that track. */
  lemma ClipsAtTimeMembers(tracks: seq<Track>, time: real)
    ensures forall x :: x in ClipsAtTime(tracks, time) <==>
      exists t, i :: 0 <= t < |tracks| && 0 <= i < |tracks[t].clips|
                     && x == ClipAt(tracks[t].clips[i], tracks[t]) && Covers(tracks[t].clips[i], time)
  {
    forall x | x in ClipsAtTime(tracks, time)
      ensures exists t, i :: 0 <= t < |tracks| && 0 <= i < |tracks[t].clips|
                             && x == ClipAt(tracks[t].clips[i], tracks[t]) && Covers(tracks[t].clips[i], time)
    {
      ClipsAtTimeSound(tracks, time, x);
    }
    forall t, i | 0 <= t < |tracks| && 0 <= i < |tracks[t].clips| && Covers(tracks[t].clips[i], time)
      ensures ClipAt(tracks[t].clips[i], tracks[t]) in ClipsAtTime(tracks, time)
    {
      ClipsAtTimeComplete(tracks, time, t, i);
    }
  }

  /** `addClip` adds exactly the new clip to the timeline's clips. */
  lemma AppendedClipContents(tracks: seq<Track>, t: int, c: Clip)
    requires 0 <= t < |tracks|
    ensures var r := WithClips(tracks, t, tracks[t].clips + [c]);
      && ClipCount(r) == ClipCount(tracks) + 1
      && multiset(AllClips(r)) == multiset(AllClips(tracks)) + multiset{c}
  {
    var r := WithClips(tracks, t, tracks[t].clips + [c]);
    WithClipsContents(tracks, t, tracks[t].clips + [c]);
    AllClipsAround(tracks, t);
    var a, b := AllClips(tracks[..t]), AllClips(tracks[t + 1..]);
    assert AllClips(r) == a + (tracks[t].clips + [c]) + b;
  }

  /** `addClip`: the total becomes the later of the old total and the new
      clip's end, and there is one clip more. */
  lemma AppendedClip(tracks: seq<Track>, t: int, c: Clip)
    requires 0 <= t < |tracks|
    ensures var r := WithClips(tracks, t, tracks[t].clips + [c]);
      && TotalDurationOf(r) == (if End(c) > TotalDurationOf(tracks) then End(c) else TotalDurationOf(tracks))
      && ClipCount(r) == ClipCount(tracks) + 1
      && multiset(AllClips(r)) == multiset(AllClips(tracks)) + multiset{c}
  {
    var r := WithClips(tracks, t, tracks[t].clips + [c]);
    AppendedClipContents(tracks, t, c);
    MaxEndAppend(AllClips(tracks), c);
    MaxEndSameMultiset(AllClips(r), AllClips(tracks) + [c]);
  }

  /** `removeClip` takes exactly the removed clip out of the timeline's clips. */
  lemma RemovedClipContents(tracks: seq<Track>, t: int, i: int)
    requires 0 <= t < |tracks| && 0 <= i < |tracks[t].clips|
    ensures var r := WithClips(tracks, t, RemoveAt(tracks[t].clips, i));
      && ClipCount(r) + 1 == ClipCount(tracks)
      && multiset(AllClips(r)) + multiset{tracks[t].clips[i]} == multiset(AllClips(tracks))
  {
    var r := WithClips(tracks, t, RemoveAt(tracks[t].clips, i));
    WithClipsContents(tracks, t, RemoveAt(tracks[t].clips, i));
    AllClipsAround(tracks, t);
    RemoveAtContents(tracks[t].clips, i);
    var a, b := AllClips(tracks[..t]), AllClips(tracks[t + 1..]);
    assert multiset(AllClips(r)) == multiset(a) + multiset(RemoveAt(tracks[t].clips, i)) + multiset(b);
    assert multiset(AllClips(tracks)) == multiset(a) + multiset(tracks[t].clips) + multiset(b);
  }

  /** `removeClip`: one clip fewer, the rest kept, and the total never grows. */
  lemma RemovedClip(tracks: seq<Track>, t: int, i: int)
    requires 0 <= t < |tracks| && 0 <= i < |tracks[t].clips|
    ensures var r := WithClips(tracks, t, RemoveAt(tracks[t].clips, i));
      && ClipCount(r) + 1 == ClipCount(tracks)
      && multiset(AllClips(r)) + multiset{tracks[t].clips[i]} == multiset(AllClips(tracks))
      && TotalDurationOf(r) <= TotalDurationOf(tracks)
  {
    var r := WithClips(tracks, t, RemoveAt(tracks[t].clips, i));
    RemovedClipContents(tracks, t, i);
    FewerMembers(AllClips(r), AllClips(tracks), tracks[t].clips[i]);
    MaxEndSubset(AllClips(r), AllClips(tracks));
  }

  /** The tracks after `moveClip`: the clip leaves its track and, with its
      new start, goes to the end of the target track. */
  function MovedTracks(tracks: seq<Track>, loc: Location, k: int, start: real): seq<Track>
    requires loc.track < |tracks| && loc.index < |tracks[loc.track].clips| && 0 <= k < |tracks|
  {
    var c := tracks[loc.track].clips[loc.index];
    var removed := WithClips(tracks, loc.track, RemoveAt(tracks[loc.track].clips, loc.index));
    WithClips(removed, k, removed[k].clips + [c.(startTime := start)])
  }

  /** A move keeps the number of clips, replaces the clip by its re-timed
      copy, and puts that copy last on the target track. */
  lemma MovedClip(tracks: seq<Track>, loc: Location, k: int, start: real)
    requires loc.track < |tracks| && loc.index < |tracks[loc.track].clips| && 0 <= k < |tracks|
    ensures var c := tracks[loc.track].clips[loc.index];
      var r := MovedTracks(tracks, loc, k, start);
      && ClipCount(r) == ClipCount(tracks)
      && multiset(AllClips(r)) + multiset{c} == multiset(AllClips(tracks)) + multiset{c.(startTime := start)}
      && r[k].clips != [] && r[k].clips[|r[k].clips| - 1] == c.(startTime := start)
  {
    var c := tracks[loc.track].clips[loc.index];
    var c2 := c.(startTime := start);
    var removed := WithClips(tracks, loc.track, RemoveAt(tracks[loc.track].clips, loc.index));
    RemovedClipContents(tracks, loc.track, loc.index);
    AppendedClipContents(removed, k, c2);
    var r := WithClips(removed, k, removed[k].clips + [c2]);
    assert r == MovedTracks(tracks, loc, k, start);
    assert r[k].clips == removed[k].clips + [c2];
  }

  /** `updateClip` keeps the number of clips. */
  lemma PatchedClip(tracks: seq<Track>, loc: Location, patch: ClipPatch)
    requires loc.track < |tracks| && loc.index < |tracks[loc.track].clips|
    ensures var clips := tracks[loc.track].clips;
      ClipCount(WithClips(tracks, loc.track, clips[loc.index := ApplyPatch(clips[loc.index], patch)]))
      == ClipCount(tracks)
  {
    var clips := tracks[loc.track].clips;
    WithClipsContents(tracks, loc.track, clips[loc.index := ApplyPatch(clips[loc.index], patch)]);
  }

  /** Every track emptied. */
  function ClearClips(tracks: seq<Track>): (r: seq<Track>)
    ensures |r| == |tracks| && forall u :: 0 <= u < |r| ==> r[u].id == tracks[u].id && r[u].clips == []
  {
    seq(|tracks|, u requires 0 <= u < |tracks| => tracks[u].(clips := []))
  }

  /** Tracks without clips hold no clip and last 0 seconds. */
  lemma {:induction false} EmptyTracks(tracks: seq<Track>)
    requires forall u :: 0 <= u < |tracks| ==> tracks[u].clips == []
    ensures AllClips(tracks) == [] && TotalDurationOf(tracks) == 0.0
    decreases |tracks|
  {
    if tracks != [] {
      var n := |tracks| - 1;
      assert forall u :: 0 <= u < n ==> tracks[..n][u] == tracks[u];
      EmptyTracks(tracks[..n]);
    }
  }

  /** `removeTrack`: the first track with the id goes, unless it is the
      only track. */
  function RemoveTrackOf(tracks: seq<Track>, id: string): seq<Track> {
    var k := FindTrack(tracks, id);
    if k != -1 && |tracks| > 1 then tracks[..k] + tracks[k + 1..] else tracks
  }

  /** A found track goes unless it is the only one, the others keep their
      order, and a timeline never loses its last track. */
  lemma RemoveTrackEffect(tracks: seq<Track>, id: string)
    ensures var k := FindTrack(tracks, id);
      var r := RemoveTrackOf(tracks, id);
      && (k == -1 || |tracks| <= 1 ==> r == tracks)
      && (k != -1 && |tracks| > 1 ==>
            |r| == |tracks| - 1 && r[..k] == tracks[..k] && r[k..] == tracks[k + 1..])
      && (|tracks| >= 1 ==> |r| >= 1)
  {
  }

  /** Removing a track with clips does not refresh the total: from a
      timeline whose total is fresh, dropping the track that holds the only
      clip leaves the old total while the tracks now last 0 seconds. */
  lemma RemoveTrackLeavesTotalStale(a: string, b: string, c: Clip)
    requires a != b && End(c) > 0.0
    ensures var before := [Track(a, "", [c], false, false), Track(b, "", [], false, false)];
      && TotalDurationOf(before) == End(c)
      && TotalDurationOf(RemoveTrackOf(before, a)) == 0.0
  {
    var before := [Track(a, "", [c], false, false), Track(b, "", [], false, false)];
    assert before[..1] == [before[0]] && before[..1][..0] == [];
    assert AllClips(before[..1]) == [c];
    assert AllClips(before) == AllClips(before[..1]) + [];
    MaxEndAppend([], c);
    assert FindTrack(before, a) == 0;
    assert RemoveTrackOf(before, a) == [before[1]];
    EmptyTracks([before[1]]);
  }

  /** `Math.max(lo, Math.min(x, hi))`. */
  function Clamp(x: real, lo: real, hi: real): (r: real)
    requires lo <= hi
    ensures lo <= r <= hi
    ensures lo <= x <= hi ==> r == x
    ensures x < lo ==> r == lo
    ensures x > hi ==> r == hi
  {
    var m := if x < hi then x else hi;
    if lo > m then lo else m
  }

  /** Zooming in never lowers the zoom and raises it below the cap. */
  lemma ZoomInGrows(z: real)
    requires MinZoom <= z <= MaxZoom
    ensures Clamp(z * ZoomFactor, MinZoom, MaxZoom) >= z
    ensures z < MaxZoom ==> Clamp(z * ZoomFactor, MinZoom, MaxZoom) > z
  {
  }

  /** Zooming out never raises the zoom and lowers it above the floor. */
  lemma ZoomOutShrinks(z: real)
    requires MinZoom <= z <= MaxZoom
    ensures Clamp(z / ZoomFactor, MinZoom, MaxZoom) <= z
    ensures z > MinZoom ==> Clamp(z / ZoomFactor, MinZoom, MaxZoom) < z
  {
  }

  /** `filter(id => id !== x)`. */
  function Without(s: seq<string>, x: string): (r: seq<string>)
    ensures forall y :: y in r <==> y in s && y != x
    ensures |r| <= |s|
    ensures x !in s ==> r == s
    decreases |s|
  {
    if s == [] then []
    else if s[0] == x then Without(s[1..], x)
    else [s[0]] + Without(s[1..], x)
  }

  /** The filter works element by element and keeps the order: filtering a
      concatenation is concatenating the filtered parts, so everything
      before an element in `s` stays before it in the result. */
  lemma {:induction false} WithoutConcat(s: seq<string>, t: seq<string>, x: string)
    ensures Without(s + t, x) == Without(s, x) + Without(t, x)
    decreases |s|
  {
    if s == [] {
      assert s + t == t;
    } else {
      assert (s + t)[0] == s[0];
      assert (s + t)[1..] == s[1..] + t;
      WithoutConcat(s[1..], t, x);
    }
  }

  predicate NoDuplicates(s: seq<string>) {
    forall i, j :: 0 <= i < j < |s| ==> s[i] != s[j]
  }

  lemma {:induction false} WithoutNoDuplicates(s: seq<string>, x: string)
    requires NoDuplicates(s)
    ensures NoDuplicates(Without(s, x))
    decreases |s|
  {
    if s != [] {
      assert NoDuplicates(s[1..]) by {
        forall i, j | 0 <= i < j < |s[1..]| ensures s[1..][i] != s[1..][j] {
          assert s[1..][i] == s[i + 1] && s[1..][j] == s[j + 1];
        }
      }
      WithoutNoDuplicates(s[1..], x);
      if s[0] != x {
        var w := Without(s[1..], x);
        assert s[0] !in s[1..];
        assert s[0] !in w;
        forall i, j | 0 <= i < j < |[s[0]] + w| ensures ([s[0]] + w)[i] != ([s[0]] + w)[j] {
          if i == 0 {
            assert ([s[0]] + w)[j] == w[j - 1];
          } else {
            assert ([s[0]] + w)[i] == w[i - 1] && ([s[0]] + w)[j] == w[j - 1];
          }
        }
      }
    }
  }

  /** Multi-select: a selected id is deselected, any other is appended. */
  function Toggle(selected: seq<string>, id: string): seq<string> {
    if id in selected then Without(selected, id) else selected + [id]
  }

  /** Toggling flips the id's membership, leaves other ids alone and never
      creates a duplicate. */
  lemma ToggleEffect(selected: seq<string>, id: string)
    ensures id in Toggle(selected, id) <==> id !in selected
    ensures forall y :: y != id ==> (y in Toggle(selected, id) <==> y in selected)
    ensures NoDuplicates(selected) ==> NoDuplicates(Toggle(selected, id))
  {
    if id in selected {
      if NoDuplicates(selected) {
        WithoutNoDuplicates(selected, id);
      }
    } else {
      var r := selected + [id];
      if NoDuplicates(selected) {
        forall i, j | 0 <= i < j < |r| ensures r[i] != r[j] {
          if j == |selected| {
            assert r[i] == selected[i];
          }
        }
      }
    }
  }

  class Timeline {
    var currentTime: real
    var totalDuration: real
    var isPlaying: bool
    var playbackRate: real
    var tracks: seq<Track>
    var activeTrackId: string
    var zoomLevel: real
    var selectedClips: seq<string>
    var selectedTrackId: Option<string>

    function Settings(): ViewSettings
      reads this
    {
      ViewSettings(currentTime, isPlaying, playbackRate, activeTrackId, zoomLevel, selectedClips, selectedTrackId)
    }

    /** The stored total is the latest clip end. */
    predicate DurationFresh()
      reads this
    {
      totalDuration == TotalDurationOf(tracks)
    }

    /** The total is fresh, and the zoom, the rate and the time are within
        their bounds. */
    predicate Valid()
      reads this
    {
      && DurationFresh()
      && MinZoom <= zoomLevel <= MaxZoom
      && MinRate <= playbackRate <= MaxRate
      && currentTime >= 0.0
    }

    /** The initial state: two empty video tracks, 'track1' active. */
    constructor()
      ensures Valid()
      ensures |tracks| == 2 && tracks[0].id == Track1Id && tracks[1].id == Track2Id
      ensures ClipCount(tracks) == 0 && selectedClips == [] && activeTrackId == Track1Id
      ensures tracks == [Track(Track1Id, "Video Track 1", [], false, false), Track(Track2Id, "Video Track 2", [], false, false)]
      ensures currentTime == 0.0 && totalDuration == 0.0 && !isPlaying && playbackRate == 1.0
      ensures zoomLevel == 1.0 && selectedTrackId == None
    {
      currentTime := 0.0;
      totalDuration := 0.0;
      isPlaying := false;
      playbackRate := 1.0;
      tracks := [Track(Track1Id, "Video Track 1", [], false, false), Track(Track2Id, "Video Track 2", [], false, false)];
      activeTrackId := Track1Id;
      zoomLevel := 1.0;
      selectedClips := [];
      selectedTrackId := None;
      new;
      EmptyTracks(tracks);
    }

    /** `getTotalDuration`: the latest clip end over all tracks, from 0. */
    method GetTotalDuration() returns (maxEndTime: real)
      ensures maxEndTime == TotalDurationOf(tracks)
    {
      maxEndTime := 0.0;
      var t := 0;
      while t < |tracks|
        invariant 0 <= t <= |tracks|
        invariant maxEndTime == MaxEnd(AllClips(tracks[..t]))
      {
        var clips := tracks[t].clips;
        ghost var done := AllClips(tracks[..t]);
        var c := 0;
        assert done + clips[..c] == done;
        while c < |clips|
          invariant 0 <= c <= |clips|
          invariant maxEndTime == MaxEnd(done + clips[..c])
        {
          var endTime := clips[c].startTime + clips[c].duration;
          MaxEndStep(done, clips, c);
          if endTime > maxEndTime {
            maxEndTime := endTime;
          }
          c := c + 1;
        }
        assert clips[..c] == clips;
        AllClipsStep(tracks, t);
        t := t + 1;
      }
      assert tracks[..t] == tracks;
    }

    /** `updateTotalDuration`. */
    method UpdateTotalDuration()
      modifies this
      ensures DurationFresh() && tracks == old(tracks) && Settings() == old(Settings())
    {
      totalDuration := GetTotalDuration();
    }

    /** `setCurrentTime`: never before 0. */
    method SetCurrentTime(time: real)
      modifies this
      ensures currentTime == if time > 0.0 then time else 0.0
      ensures Settings() == old(Settings()).(currentTime := currentTime)
      ensures tracks == old(tracks) && totalDuration == old(totalDuration)
      ensures old(Valid()) ==> Valid()
    {
      currentTime := if 0.0 > time then 0.0 else time;
    }

    /** `setPlaybackRate`: clamped to [0.1, 4]. */
    method SetPlaybackRate(rate: real)
      modifies this
      ensures playbackRate == Clamp(rate, MinRate, MaxRate)
      ensures Settings() == old(Settings()).(playbackRate := playbackRate)
      ensures tracks == old(tracks) && totalDuration == old(totalDuration)
      ensures old(Valid()) ==> Valid()
    {
      playbackRate := Clamp(rate, MinRate, MaxRate);
    }

    /** `setZoomLevel`: clamped to [0.1, 10]. */
    method SetZoomLevel(level: real)
      modifies this
      ensures zoomLevel == Clamp(level, MinZoom, MaxZoom)
      ensures Settings() == old(Settings()).(zoomLevel := zoomLevel)
      ensures tracks == old(tracks) && totalDuration == old(totalDuration)
      ensures old(Valid()) ==> Valid()
    {
      zoomLevel := Clamp(level, MinZoom, MaxZoom);
    }

    method ZoomIn()
      modifies this
      ensures zoomLevel == Clamp(old(zoomLevel) * ZoomFactor, MinZoom, MaxZoom)
      ensures Settings() == old(Settings()).(zoomLevel := zoomLevel)
      ensures tracks == old(tracks) && totalDuration == old(totalDuration)
      ensures old(Valid()) ==> Valid()
    {
      SetZoomLevel(zoomLevel * ZoomFactor);
    }

    method ZoomOut()
      modifies this
      ensures zoomLevel == Clamp(old(zoomLevel) / ZoomFactor, MinZoom, MaxZoom)
      ensures Settings() == old(Settings()).(zoomLevel := zoomLevel)
      ensures tracks == old(tracks) && totalDuration == old(totalDuration)
      ensures old(Valid()) ==> Valid()
    {
      SetZoomLevel(zoomLevel / ZoomFactor);
    }

    /** `zoomToFit`: back to zoom 1. */
    method ZoomToFit()
      modifies this
      ensures zoomLevel == 1.0
      ensures Settings() == old(Settings()).(zoomLevel := zoomLevel)
      ensures tracks == old(tracks) && totalDuration == old(totalDuration)
      ensures old(Valid()) ==> Valid()
    {
      SetZoomLevel(1.0);
    }

    /** `addClip(trackId, clip)`: None and no change for an unknown track;
        otherwise the new clip goes last on the first track with the id. */
    method AddClip(trackId: string, patch: ClipPatch, freshId: string) returns (r: Option<Clip>)
      modifies this
      ensures r.None? <==> FindTrack(old(tracks), trackId) == -1
      ensures r.None? ==> tracks == old(tracks) && totalDuration == old(totalDuration)
      ensures var k := FindTrack(old(tracks), trackId);
        r.Some? ==> r.value == NewClip(patch, freshId)
                    && tracks == WithClips(old(tracks), k, old(tracks)[k].clips + [r.value]) && DurationFresh()
      ensures Settings() == old(Settings())
      ensures old(Valid()) ==> Valid()
    {
      var k := FindTrack(tracks, trackId);
      if k == -1 {
        return None;
      }
      var clip := NewClip(patch, freshId);
      tracks := WithClips(tracks, k, tracks[k].clips + [clip]);
      UpdateTotalDuration();
      r := Some(clip);
    }

    /** `removeClip(clipId)`: tracks are scanned in order and the first clip
        with the id is removed from the first track holding one. */
    method RemoveClip(clipId: string) returns (removed: bool)
      modifies this
      ensures removed <==> Locate(old(tracks), clipId).Some?
      ensures !removed ==> tracks == old(tracks) && totalDuration == old(totalDuration)
      ensures var loc := Locate(old(tracks), clipId);
        removed ==> tracks == WithClips(old(tracks), loc.value.track, RemoveAt(old(tracks)[loc.value.track].clips, loc.value.index))
                    && DurationFresh()
      ensures Settings() == old(Settings())
      ensures old(Valid()) ==> Valid()
    {
      var t := 0;
      while t < |tracks|
        invariant 0 <= t <= |tracks|
        invariant tracks == old(tracks) && totalDuration == old(totalDuration) && Settings() == old(Settings())
        invariant forall u :: 0 <= u < t ==> ClipIndex(tracks[u].clips, clipId) == -1
      {
        var index := ClipIndex(tracks[t].clips, clipId);
        if index != -1 {
          LocateAt(tracks, clipId, t);
          tracks := WithClips(tracks, t, RemoveAt(tracks[t].clips, index));
          UpdateTotalDuration();
          return true;
        }
        t := t + 1;
      }
      return false;
    }

    /** `addMediaFileAsClip(mediaFile, trackId)`: None and no change for an
        unknown track; otherwise the record's clip goes last on the track,
        starting where the previous last clip ends. */
    method AddMediaFileAsClip(mediaFile: MediaStore.MediaFile, trackId: string) returns (r: Option<Clip>)
      modifies this
      ensures r.None? <==> FindTrack(old(tracks), trackId) == -1
      ensures tracks == AddMedia(old(tracks), mediaFile, trackId)
      ensures r.None? ==> totalDuration == old(totalDuration)
      ensures var k := FindTrack(old(tracks), trackId);
        r.Some? ==> r.value == MediaClip(mediaFile, NextStart(old(tracks)[k].clips)) && DurationFresh()
      ensures Settings() == old(Settings())
      ensures old(Valid()) ==> Valid()
    {
      var k := FindTrack(tracks, trackId);
      if k == -1 {
        return None;
      }
      var clips := tracks[k].clips;
      var lastClipEnd := if |clips| > 0 then clips[|clips| - 1].startTime + clips[|clips| - 1].duration else 0.0;
      var duration := if mediaFile.duration.Some? && mediaFile.duration.value != 0.0 then mediaFile.duration.value
                      else DefaultClipDuration;
      var clip := Clip("clip_" + mediaFile.id, lastClipEnd, duration, mediaFile.name,
                       Some(MediaLink(mediaFile.id, mediaFile.thumbnail, mediaFile.resolution, mediaFile.codec,
                                      mediaFile.path, mediaFile.size)));
      assert clip == MediaClip(mediaFile, NextStart(clips));
      tracks := WithClips(tracks, k, clips + [clip]);
      UpdateTotalDuration();
      r := Some(clip);
    }

    /** Every track's clips set to empty, one track at a time. */
    method ClearTrackClips()
      modifies this
      ensures tracks == ClearClips(old(tracks))
      ensures totalDuration == old(totalDuration) && Settings() == old(Settings())
    {
      var u := 0;
      while u < |tracks|
        invariant 0 <= u <= |tracks| == |old(tracks)|
        invariant forall v :: 0 <= v < |tracks| ==> tracks[v] == if v < u then old(tracks)[v].(clips := []) else old(tracks)[v]
        invariant totalDuration == old(totalDuration) && Settings() == old(Settings())
      {
        tracks := tracks[u := tracks[u].(clips := [])];
        u := u + 1;
      }
    }

    /** `syncWithMediaFiles(mediaFiles)`: every track emptied, then file `i`
        added to 'track1' when `i` is even and to 'track2' when it is odd. */
    method SyncWithMediaFiles(mediaFiles: seq<MediaStore.MediaFile>)
      modifies this
      ensures tracks == SyncAll(ClearClips(old(tracks)), mediaFiles)
      ensures DurationFresh() && Settings() == old(Settings())
      ensures old(Valid()) ==> Valid()
    {
      ClearTrackClips();
      ghost var cleared := tracks;
      var i := 0;
      while i < |mediaFiles|
        invariant 0 <= i <= |mediaFiles|
        invariant tracks == SyncAll(cleared, mediaFiles[..i])
        invariant Settings() == old(Settings())
      {
        var trackId := if i % 2 == 0 then Track1Id else Track2Id;
        var _ := AddMediaFileAsClip(mediaFiles[i], trackId);
        assert mediaFiles[..i + 1][..i] == mediaFiles[..i];
        i := i + 1;
      }
      assert mediaFiles[..i] == mediaFiles;
      UpdateTotalDuration();
    }

    /** `updateClip(clipId, updates)`: the keys given overwrite the first
        clip with the id; nothing happens for an unknown id. */
    method UpdateClip(clipId: string, updates: ClipPatch)
      modifies this
      ensures Locate(old(tracks), clipId).None? ==> tracks == old(tracks) && totalDuration == old(totalDuration)
      ensures var loc := Locate(old(tracks), clipId);
        loc.Some? ==>
          var clips := old(tracks)[loc.value.track].clips;
          && tracks == WithClips(old(tracks), loc.value.track,
                                 clips[loc.value.index := ApplyPatch(clips[loc.value.index], updates)])
          && DurationFresh()
      ensures Settings() == old(Settings())
      ensures old(Valid()) ==> Valid()
    {
      var loc := Locate(tracks, clipId);
      if loc.Some? {
        var clips := tracks[loc.value.track].clips;
        tracks := WithClips(tracks, loc.value.track,
                            clips[loc.value.index := ApplyPatch(clips[loc.value.index], updates)]);
        UpdateTotalDuration();
      }
    }

    /** `moveClip(clipId, newTrackId, newStartTime)`: false and no change
        when the clip or the target track is unknown. */
    method MoveClip(clipId: string, newTrackId: string, newStartTime: real) returns (moved: bool)
      modifies this
      ensures moved <==> Locate(old(tracks), clipId).Some? && FindTrack(old(tracks), newTrackId) >= 0
      ensures !moved ==> tracks == old(tracks) && totalDuration == old(totalDuration)
      ensures moved ==>
        tracks == MovedTracks(old(tracks), Locate(old(tracks), clipId).value, FindTrack(old(tracks), newTrackId), newStartTime)
        && DurationFresh()
      ensures Settings() == old(Settings())
      ensures old(Valid()) ==> Valid()
    {
      var loc := Locate(tracks, clipId);
      if loc.None? {
        return false;
      }
      var clip := tracks[loc.value.track].clips[loc.value.index];
      var k := FindTrack(tracks, newTrackId);
      if k == -1 {
        return false;
      }
      var oldClips := tracks[loc.value.track].clips;
      var oldIndex := ClipIndex(oldClips, clipId);
      tracks := WithClips(tracks, loc.value.track, RemoveAt(oldClips, oldIndex));
      var retimed := clip.(startTime := newStartTime);
      tracks := WithClips(tracks, k, tracks[k].clips + [retimed]);
      UpdateTotalDuration();
      moved := true;
    }

    /** `getClipsAtTime(time)`: the clips covering the time, track after
        track and in track order. */
    method GetClipsAtTime(time: real) returns (clipsAtTime: seq<ClipAt>)
      ensures clipsAtTime == ClipsAtTime(tracks, time)
    {
      clipsAtTime := [];
      var t := 0;
      while t < |tracks|
        invariant 0 <= t <= |tracks|
        invariant clipsAtTime == ClipsAtTime(tracks[..t], time)
      {
        var track := tracks[t];
        var c := 0;
        assert track.clips[..c] == [];
        while c < |track.clips|
          invariant 0 <= c <= |track.clips|
          invariant clipsAtTime == ClipsAtTime(tracks[..t], time) + TrackHits(track, track.clips[..c], time)
        {
          var clip := track.clips[c];
          assert track.clips[..c + 1][..c] == track.clips[..c];
          if time >= clip.startTime && time <= clip.startTime + clip.duration {
            clipsAtTime := clipsAtTime + [ClipAt(clip, track)];
          }
          c := c + 1;
        }
        assert track.clips[..c] == track.clips;
        assert tracks[..t + 1][..t] == tracks[..t];
        t := t + 1;
      }
      assert tracks[..t] == tracks;
    }

    /** `selectClip(clipId, multiSelect)`. */
    method SelectClip(clipId: string, multiSelect: bool)
      modifies this
      ensures selectedClips == if multiSelect then Toggle(old(selectedClips), clipId) else [clipId]
      ensures Settings() == old(Settings()).(selectedClips := selectedClips)
      ensures tracks == old(tracks) && totalDuration == old(totalDuration)
      ensures old(Valid()) ==> Valid()
    {
      if multiSelect {
        if clipId in selectedClips {
          selectedClips := Without(selectedClips, clipId);
        } else {
          selectedClips := selectedClips + [clipId];
        }
      } else {
        selectedClips := [clipId];
      }
    }

    /** `removeTrack(trackId)` as written: the first track with the id goes
        unless it is the last track, and the active track falls back to the
        first remaining one; the total is not recomputed. */
    method RemoveTrack(trackId: string)
      modifies this
      ensures tracks == RemoveTrackOf(old(tracks), trackId)
      ensures totalDuration == old(totalDuration)
      ensures activeTrackId == if tracks != old(tracks) && old(activeTrackId) == trackId then tracks[0].id
                               else old(activeTrackId)
      ensures Settings() == old(Settings()).(activeTrackId := activeTrackId)
    {
      var index := FindTrack(tracks, trackId);
      if index != -1 && |tracks| > 1 {
        tracks := tracks[..index] + tracks[index + 1..];
        if activeTrackId == trackId {
          activeTrackId := tracks[0].id;
        }
      }
    }

    /** `removeTrack` with the total refreshed, as every other action that
        changes the tracks does. */
    method RemoveTrackRefreshed(trackId: string)
      modifies this
      ensures tracks == RemoveTrackOf(old(tracks), trackId)
      ensures DurationFresh()
      ensures activeTrackId == if tracks != old(tracks) && old(activeTrackId) == trackId then tracks[0].id
                               else old(activeTrackId)
      ensures Settings() == old(Settings()).(activeTrackId := activeTrackId)
      ensures old(Valid()) ==> Valid()
    {
      RemoveTrack(trackId);
      UpdateTotalDuration();
    }

    /** `clearAll`: every track emptied, time and total back to 0, nothing
        selected; the tracks themselves stay. */
    method ClearAll()
      modifies this
      ensures tracks == ClearClips(old(tracks))
      ensures currentTime == 0.0 && totalDuration == 0.0 && selectedClips == [] && selectedTrackId == None
      ensures DurationFresh()
      ensures Settings() == old(Settings()).(currentTime := 0.0, selectedClips := [], selectedTrackId := None)
      ensures old(Valid()) ==> Valid()
    {
      ClearTrackClips();
      EmptyTracks(tracks);
      currentTime := 0.0;
      totalDuration := 0.0;
      selectedClips := [];
      selectedTrackId := None;
    }
  }
}
