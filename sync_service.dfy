/** The server's authoritative playback state and video library
    (server/src/services/syncService.ts). Each handler updates the state in
    place and emits one event to the room `vr-room`, excluding the sender;
    emits are appended to `emitted`. `Date.now()` is the `now` parameter. */
module ServerSync {
  import opened Types
  import Updaters

  /** The server's library entry (`VideoData`). */
  datatype VideoData = VideoData(id: string, title: string, url: string, duration: real)

  function IdOf(v: VideoData): string { v.id }

  datatype RoomEvent = SyncPlay | SyncPause | SyncSeek | SyncLoad | SyncStop

  /** `socket.to('vr-room').emit(event, payload)`: delivered to the room except
      `sender`. The payload is the state at the time of the emit, plus the
      loaded video for `sync-load`. */
  datatype RoomEmit = RoomEmit(event: RoomEvent, sender: string, state: PlaybackState, video: Option<VideoData>)

  /** The library after `splice(findIndex(id), 1)`: the first entry with that id removed. */
  function RemoveFirst(videos: seq<VideoData>, id: string): (r: seq<VideoData>)
    ensures |r| == if exists j :: 0 <= j < |videos| && videos[j].id == id then |videos| - 1 else |videos|
    ensures forall v :: v in r ==> v in videos
  {
    if videos == [] then []
    else if videos[0].id == id then videos[1..]
    else [videos[0]] + RemoveFirst(videos[1..], id)
  }

  /** Removing the first match at index `i` is cutting out position `i`. */
  lemma {:induction false} RemoveFirstAt(videos: seq<VideoData>, id: string, i: nat)
    requires i < |videos| && videos[i].id == id
    requires forall j :: 0 <= j < i ==> videos[j].id != id
    ensures RemoveFirst(videos, id) == videos[..i] + videos[i + 1..]
  {
    if i > 0 {
      var rest := videos[1..];
      RemoveFirstAt(rest, id, i - 1);
      assert rest[..i - 1] == videos[1..i];
      assert rest[i..] == videos[i + 1..];
      assert videos[..i] == [videos[0]] + videos[1..i];
      Updaters.ConcatAssoc([videos[0]], videos[1..i], videos[i + 1..]);
    }
  }

  /** An absent id leaves the library as it is. */
  lemma {:induction false} RemoveFirstAbsent(videos: seq<VideoData>, id: string)
    requires forall j :: 0 <= j < |videos| ==> videos[j].id != id
    ensures RemoveFirst(videos, id) == videos
  {
    if videos != [] {
      RemoveFirstAbsent(videos[1..], id);
    }
  }

  /** A present id: exactly one entry goes, it is the first with that id, and
      the other entries keep their order (every later duplicate stays). */
  lemma RemoveFirstPresent(videos: seq<VideoData>, id: string, i: nat)
    requires i < |videos| && videos[i].id == id
    requires forall j :: 0 <= j < i ==> videos[j].id != id
    ensures |RemoveFirst(videos, id)| == |videos| - 1
    ensures multiset(RemoveFirst(videos, id)) + multiset{videos[i]} == multiset(videos)
    ensures forall j :: i < j < |videos| ==> RemoveFirst(videos, id)[j - 1] == videos[j]
  {
    RemoveFirstAt(videos, id, i);
    var front, back := videos[..i], videos[i + 1..];
    assert videos == front + [videos[i]] + back;
    forall j | i < j < |videos|
      ensures RemoveFirst(videos, id)[j - 1] == videos[j]
    {
      assert (front + back)[j - 1] == back[j - 1 - i] == videos[j];
    }
  }

  /** `videos.findIndex(v => v.id === id)`. */
  method FindIndex(videos: seq<VideoData>, id: string) returns (index: int)
    ensures -1 <= index < |videos|
    ensures index == -1 <==> forall j :: 0 <= j < |videos| ==> videos[j].id != id
    ensures index >= 0 ==> videos[index].id == id && forall j :: 0 <= j < index ==> videos[j].id != id
  {
    var k := 0;
    while k < |videos|
      invariant 0 <= k <= |videos|
      invariant forall j :: 0 <= j < k ==> videos[j].id != id
    {
      if videos[k].id == id {
        return k;
      }
      k := k + 1;
    }
    return -1;
  }

  class SyncService {
    var playbackState: PlaybackState
    var videos: seq<VideoData>
    var emitted: seq<RoomEmit>

    constructor (now: int)
      ensures playbackState == InitialState(now) && videos == [] && emitted == []
    {
      playbackState := InitialState(now);
      videos := [];
      emitted := [];
    }

    /** `play`: only `isPlaying` and the timestamp change. */
    method HandlePlay(sender: string, now: int)
      modifies this
      ensures playbackState == old(playbackState).(isPlaying := true, timestamp := now)
      ensures videos == old(videos)
      ensures emitted == old(emitted) + [RoomEmit(SyncPlay, sender, playbackState, None)]
    {
      playbackState := playbackState.(isPlaying := true);
      playbackState := playbackState.(timestamp := now);
      emitted := emitted + [RoomEmit(SyncPlay, sender, playbackState, None)];
    }

    /** `pause`: only `isPlaying` and the timestamp change. */
    method HandlePause(sender: string, now: int)
      modifies this
      ensures playbackState == old(playbackState).(isPlaying := false, timestamp := now)
      ensures videos == old(videos)
      ensures emitted == old(emitted) + [RoomEmit(SyncPause, sender, playbackState, None)]
    {
      playbackState := playbackState.(isPlaying := false);
      playbackState := playbackState.(timestamp := now);
      emitted := emitted + [RoomEmit(SyncPause, sender, playbackState, None)];
    }

    /** `seek`: the requested time is stored as given, without clamping. */
    method HandleSeek(sender: string, time: real, now: int)
      modifies this
      ensures playbackState == old(playbackState).(currentTime := time, timestamp := now)
      ensures videos == old(videos)
      ensures emitted == old(emitted) + [RoomEmit(SyncSeek, sender, playbackState, None)]
    {
      playbackState := playbackState.(currentTime := time);
      playbackState := playbackState.(timestamp := now);
      emitted := emitted + [RoomEmit(SyncSeek, sender, playbackState, None)];
    }

    /** `load-video`: an id missing from the library changes nothing and emits
        nothing; a known id loads it paused at 0 and emits it with the video. */
    method HandleLoadVideo(sender: string, videoId: string, now: int)
      modifies this
      ensures videos == old(videos)
      ensures (forall j :: 0 <= j < |videos| ==> videos[j].id != videoId) ==>
                playbackState == old(playbackState) && emitted == old(emitted)
      ensures (exists j :: 0 <= j < |videos| && videos[j].id == videoId) ==>
                && playbackState == PlaybackState(Some(videoId), false, 0.0, now)
                && emitted == old(emitted) + [RoomEmit(SyncLoad, sender, playbackState,
                                                  Updaters.FindById(videos, IdOf, videoId))]
                && Updaters.FindById(videos, IdOf, videoId).value.id == videoId
    {
      var video := Updaters.FindById(videos, IdOf, videoId);
      if video.Some? {
        playbackState := playbackState.(videoId := Some(videoId));
        playbackState := playbackState.(currentTime := 0.0);
        playbackState := playbackState.(isPlaying := false);
        playbackState := playbackState.(timestamp := now);
        emitted := emitted + [RoomEmit(SyncLoad, sender, playbackState, video)];
      }
    }

    /** `stop`: nothing loaded, paused, at 0. */
    method HandleStop(sender: string, now: int)
      modifies this
      ensures playbackState == PlaybackState(None, false, 0.0, now)
      ensures videos == old(videos)
      ensures emitted == old(emitted) + [RoomEmit(SyncStop, sender, playbackState, None)]
    {
      playbackState := playbackState.(videoId := None);
      playbackState := playbackState.(isPlaying := false);
      playbackState := playbackState.(currentTime := 0.0);
      playbackState := playbackState.(timestamp := now);
      emitted := emitted + [RoomEmit(SyncStop, sender, playbackState, None)];
    }

    /** Appends at the end, with no check for an existing id. */
    method AddVideo(video: VideoData)
      modifies this
      ensures videos == old(videos) + [video]
      ensures |videos| == |old(videos)| + 1
      ensures playbackState == old(playbackState) && emitted == old(emitted)
    {
      videos := videos + [video];
    }

    /** Removes the first entry with the id (see RemoveFirstAbsent and RemoveFirstPresent). */
    method RemoveVideo(videoId: string)
      modifies this
      ensures videos == RemoveFirst(old(videos), videoId)
      ensures playbackState == old(playbackState) && emitted == old(emitted)
    {
      var index := FindIndex(videos, videoId);
      if index > -1 {
        RemoveFirstAt(videos, videoId, index);
        videos := videos[..index] + videos[index + 1..];
      } else {
        RemoveFirstAbsent(videos, videoId);
      }
    }

    /** A copy of the state: a value, so later changes to either side do not reach the other. */
    method GetPlaybackState() returns (s: PlaybackState)
      ensures s == playbackState
    {
      s := playbackState;
    }

    /** A copy of the library. */
    method GetVideos() returns (vs: seq<VideoData>)
      ensures vs == videos
    {
      vs := videos;
    }
  }
}
