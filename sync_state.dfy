/** The same-browser sync hook (src/hooks/useSyncState.ts) without React: its
    state cells are fields and every `SYNC_CHANNEL.postMessage` is appended to
    `posted`. The clock, the random ids, the headset number and
    `URL.createObjectURL` are parameters. */
module SyncState {
  import opened Types
  import opened Updaters
  import Decimal

  /** The messages this hook posts and handles on the shared channel. */
  datatype ChannelData =
    | SyncStateData(state: PlaybackState)
    | DeviceConnectData(device: ConnectedDevice)
    | DeviceDisconnectData(device: ConnectedDevice)
    | VideoAddedData(video: Option<Video>, file: Option<MediaFile>)
    | OtherData

  function DeviceId(d: ConnectedDevice): string { d.id }

  /** The device record this participant announces on mount. */
  function LocalDevice(isAdmin: bool, deviceId: string, headsetNumber: nat, now: int): (d: ConnectedDevice)
    ensures d.id == deviceId && d.status == Connected && d.lastSeen == now
    ensures d.deviceType == if isAdmin then Browser else Vr
  {
    ConnectedDevice(deviceId,
      if isAdmin then "Admin Console" else "VR Headset " + Decimal.NatToString(headsetNumber),
      if isAdmin then Browser else Vr, Connected, now, None, None)
  }

  /** The entry a viewer builds from an inbound `video-added`: only the listed
      fields are copied, and an attached file's object URL replaces the URL. */
  function IncomingVideo(incoming: Video, file: Option<MediaFile>, objectUrl: string): (v: Video)
    ensures v.id == incoming.id && v.title == incoming.title && v.duration == incoming.duration
    ensures v.uploadedAt == incoming.uploadedAt && v.size == incoming.size
    ensures v.url == if file.Some? then objectUrl else incoming.url
  {
    Video(incoming.id, incoming.title, if file.Some? then objectUrl else incoming.url,
          None, incoming.duration, incoming.uploadedAt, incoming.size, None)
  }

  class SyncStateHook {
    const isAdmin: bool
    var playbackState: PlaybackState
    var connectedDevices: seq<ConnectedDevice>
    var videos: seq<Video>
    var device: Option<ConnectedDevice>
    var posted: seq<ChannelData>

    constructor (isAdmin: bool, now: int)
      ensures this.isAdmin == isAdmin && device == None
      ensures playbackState == InitialState(now) && connectedDevices == [] && videos == DemoVideos(now)
      ensures posted == []
    {
      this.isAdmin := isAdmin;
      playbackState := InitialState(now);
      connectedDevices := [];
      videos := DemoVideos(now);
      device := None;
      posted := [];
    }

    /** The mount effect announces this device. */
    method Mount(deviceId: string, headsetNumber: nat, now: int)
      modifies this
      ensures device == Some(LocalDevice(isAdmin, deviceId, headsetNumber, now))
      ensures posted == old(posted) + [DeviceConnectData(device.value)]
      ensures playbackState == old(playbackState) && connectedDevices == old(connectedDevices) && videos == old(videos)
    {
      var d := LocalDevice(isAdmin, deviceId, headsetNumber, now);
      device := Some(d);
      posted := posted + [DeviceConnectData(d)];
    }

    /** The effect's cleanup announces the departure of the device its mount announced. */
    method Unmount()
      modifies this
      ensures posted == if device.Some? then old(posted) + [DeviceDisconnectData(device.value)] else old(posted)
      ensures playbackState == old(playbackState) && connectedDevices == old(connectedDevices) && videos == old(videos)
      ensures device == old(device)
    {
      if device.Some? {
        posted := posted + [DeviceDisconnectData(device.value)];
      }
    }

    /** `handleMessage`. The admin ignores `sync-state` and `video-added`; a viewer
        ignores `device-connect` and `device-disconnect`. An inbound
        `video-added` without a video object throws, and the catch drops it. */
    method HandleMessage(data: ChannelData, objectUrl: string)
      modifies this
      ensures posted == old(posted) && device == old(device)
      ensures playbackState ==
                if data.SyncStateData? && !isAdmin then data.state else old(playbackState)
      ensures connectedDevices ==
                if data.DeviceConnectData? && isAdmin then AppendIfAbsent(old(connectedDevices), DeviceId, data.device)
                else if data.DeviceDisconnectData? && isAdmin then WithoutId(old(connectedDevices), DeviceId, data.device.id)
                else old(connectedDevices)
      ensures videos ==
                if data.VideoAddedData? && !isAdmin && data.video.Some?
                then old(videos) + [IncomingVideo(data.video.value, data.file, objectUrl)]
                else old(videos)
    {
      match data {
        case SyncStateData(state) =>
          if !isAdmin {
            playbackState := state;
          }
        case DeviceConnectData(d) =>
          if isAdmin {
            connectedDevices := AppendIfAbsent(connectedDevices, DeviceId, d);
          }
        case DeviceDisconnectData(d) =>
          if isAdmin {
            connectedDevices := WithoutId(connectedDevices, DeviceId, d.id);
          }
        case VideoAddedData(incoming, file) =>
          if !isAdmin && incoming.Some? {
            videos := videos + [IncomingVideo(incoming.value, file, objectUrl)];
          }
        case OtherData =>
      }
    }

    /** `broadcastState`: nothing for a viewer; the admin merges, restamps, keeps and posts. */
    method BroadcastState(partial: PartialState, now: int)
      modifies this
      ensures videos == old(videos) && connectedDevices == old(connectedDevices) && device == old(device)
      ensures !isAdmin ==> playbackState == old(playbackState) && posted == old(posted)
      ensures isAdmin ==>
                && playbackState == Merge(old(playbackState), partial, now)
                && posted == old(posted) + [SyncStateData(playbackState)]
    {
      if !isAdmin {
        return;
      }
      var updated := Merge(playbackState, partial, now);
      playbackState := updated;
      posted := posted + [SyncStateData(updated)];
    }

    method Play(now: int)
      modifies this
      ensures videos == old(videos) && connectedDevices == old(connectedDevices) && device == old(device)
      ensures !isAdmin ==> playbackState == old(playbackState) && posted == old(posted)
      ensures isAdmin ==>
                && playbackState == old(playbackState).(isPlaying := true, timestamp := now)
                && posted == old(posted) + [SyncStateData(playbackState)]
    {
      BroadcastState(PlayPartial(), now);
    }

    method Pause(now: int)
      modifies this
      ensures videos == old(videos) && connectedDevices == old(connectedDevices) && device == old(device)
      ensures !isAdmin ==> playbackState == old(playbackState) && posted == old(posted)
      ensures isAdmin ==>
                && playbackState == old(playbackState).(isPlaying := false, timestamp := now)
                && posted == old(posted) + [SyncStateData(playbackState)]
    {
      BroadcastState(PausePartial(), now);
    }

    /** `seek`: unclamped. */
    method Seek(time: real, now: int)
      modifies this
      ensures videos == old(videos) && connectedDevices == old(connectedDevices) && device == old(device)
      ensures !isAdmin ==> playbackState == old(playbackState) && posted == old(posted)
      ensures isAdmin ==>
                && playbackState == old(playbackState).(currentTime := time, timestamp := now)
                && posted == old(posted) + [SyncStateData(playbackState)]
    {
      BroadcastState(SeekPartial(time), now);
    }

    /** `loadVideo`: no check that the id is in the library. */
    method LoadVideo(videoId: string, now: int)
      modifies this
      ensures videos == old(videos) && connectedDevices == old(connectedDevices) && device == old(device)
      ensures !isAdmin ==> playbackState == old(playbackState) && posted == old(posted)
      ensures isAdmin ==>
                && playbackState == PlaybackState(Some(videoId), false, 0.0, now)
                && posted == old(posted) + [SyncStateData(playbackState)]
    {
      BroadcastState(LoadPartial(videoId), now);
    }

    method Stop(now: int)
      modifies this
      ensures videos == old(videos) && connectedDevices == old(connectedDevices) && device == old(device)
      ensures !isAdmin ==> playbackState == old(playbackState) && posted == old(posted)
      ensures isAdmin ==>
                && playbackState == PlaybackState(None, false, 0.0, now)
                && posted == old(posted) + [SyncStateData(playbackState)]
    {
      BroadcastState(StopPartial(), now);
    }

    /** `addVideo`: an admin with a file appends an entry with the file's object URL
        and posts it with the file; anyone else appends an entry with the given URL
        (or `''`) and posts nothing. */
    method AddVideo(title: string, duration: real, size: int, file: Option<MediaFile>, url: Option<string>,
                    id: string, uploadedAt: int, objectUrl: string)
      returns (newVideo: Video)
      modifies this
      ensures newVideo.id == id && newVideo.title == title && newVideo.duration == duration
      ensures newVideo.size == size && newVideo.uploadedAt == uploadedAt
      ensures newVideo.url == if isAdmin && file.Some? then objectUrl else if Truthy(url) then url.value else ""
      ensures videos == old(videos) + [newVideo]
      ensures posted == if isAdmin && file.Some?
                        then old(posted) + [VideoAddedData(Some(newVideo), file)]
                        else old(posted)
      ensures playbackState == old(playbackState) && connectedDevices == old(connectedDevices) && device == old(device)
    {
      if isAdmin && file.Some? {
        newVideo := Video(id, title, objectUrl, None, duration, uploadedAt, size, None);
        videos := videos + [newVideo];
        posted := posted + [VideoAddedData(Some(newVideo), file)];
        return;
      }
      newVideo := Video(id, title, if Truthy(url) then url.value else "", None, duration, uploadedAt, size, None);
      videos := videos + [newVideo];
    }

    /** `removeVideo`: local only, posts nothing. */
    method RemoveVideo(videoId: string)
      modifies this
      ensures videos == WithoutId(old(videos), VideoId, videoId)
      ensures posted == old(posted)
      ensures playbackState == old(playbackState) && connectedDevices == old(connectedDevices) && device == old(device)
    {
      videos := WithoutId(videos, VideoId, videoId);
    }
  }

  /** The viewer's library after a run of inbound `video-added` messages: one
      entry more per message, duplicates included. */
  function ReceiveAll(videos: seq<Video>, incoming: seq<Video>, objectUrl: string): (r: seq<Video>)
    ensures |r| == |videos| + |incoming|
    ensures r[..|videos|] == videos
    ensures forall i :: 0 <= i < |incoming| ==> r[|videos| + i] == IncomingVideo(incoming[i], None, objectUrl)
    decreases |incoming|
  {
    if incoming == [] then videos
    else ReceiveAll(videos + [IncomingVideo(incoming[0], None, objectUrl)], incoming[1..], objectUrl)
  }

  /** Receiving the same announcement twice leaves two entries with its id. */
  lemma DuplicateAnnouncementKept(videos: seq<Video>, v: Video, objectUrl: string)
    ensures var r := ReceiveAll(videos, [v, v], objectUrl);
      r[|videos|].id == v.id && r[|videos| + 1].id == v.id
  {
  }
}
