/** The networked sync hook (src/hooks/useRealtimeSync.ts) without React: its
    state cells are fields, `channelRef.current !== null` is `channelOpen`, and
    every `channel.send` is appended to `sent`. The clock, the random id,
    `URL.createObjectURL` and the instant the demo library was created are
    parameters. The handlers receive broadcasts from other participants only
    (the channel is configured with `self: false`). */
module RealtimeSync {
  import opened Types
  import opened Updaters

  datatype Broadcast =
    | PlaybackStateEvent(state: PlaybackState)
    | VideoAddedEvent(video: Video)
    | VideoRemovedEvent(videoId: string)
    | RequestStateEvent


  /** The entry `addVideo` builds: the file's object URL wins over a given URL,
      and a missing or empty URL becomes `''`. */
  function NewVideo(id: string, title: string, duration: real, size: int, file: Option<MediaFile>,
                    url: Option<string>, objectUrl: string, uploadedAt: int): (v: Video)
    ensures v.id == id && v.title == title && v.duration == duration && v.size == size
    ensures file.Some? ==> v.url == objectUrl
    ensures file.None? && Truthy(url) ==> v.url == url.value
    ensures file.None? && !Truthy(url) ==> v.url == ""
  {
    var u := if file.Some? then objectUrl else if Truthy(url) then url.value else "";
    Video(id, title, u, None, duration, uploadedAt, size, None)
  }

  /** The reply to `request-state` as written: the handler was created by the
      setup effect, which only re-runs when `isAdmin` changes, so it sees the
      playback state of the render that ran the effect (`mountState`). */
  function RequestStateReplyAsWritten(mountState: PlaybackState, current: PlaybackState): (b: Broadcast)
    ensures b.PlaybackStateEvent? && b.state == mountState
  {
    PlaybackStateEvent(mountState)
  }

  /** The reply the bootstrap needs: the state the admin holds now. */
  function RequestStateReply(mountState: PlaybackState, current: PlaybackState): (b: Broadcast)
    ensures b.PlaybackStateEvent? && b.state == current
  {
    PlaybackStateEvent(current)
  }

  /** What a viewer's `playback-state` handler makes of a broadcast: the payload
      replaces its state outright; the admin keeps its own. */
  function ApplyPlaybackState(isAdmin: bool, local: PlaybackState, payload: PlaybackState): (r: PlaybackState)
    ensures isAdmin ==> r == local
    ensures !isAdmin ==> r == payload
  {
    if isAdmin then local else payload
  }

  /** A viewer that applies the corrected reply holds exactly the admin's
      current state, whatever it held before. */
  lemma BootstrapConverges(mountState: PlaybackState, adminState: PlaybackState, viewerState: PlaybackState)
    ensures var reply := RequestStateReply(mountState, adminState);
      ApplyPlaybackState(false, viewerState, reply.state) == adminState
  {
  }

  /** The written reply is wrong as soon as the admin has loaded anything after
      mounting: a viewer joining later is told that nothing is loaded. */
  lemma StaleReplyCounterexample()
    ensures var mounted := InitialState(1000);
      var current := Merge(mounted, LoadPartial("1"), 2000);
      var reply := RequestStateReplyAsWritten(mounted, current);
      && current.videoId == Some("1")
      && ApplyPlaybackState(false, InitialState(0), reply.state).videoId == None
      && ApplyPlaybackState(false, InitialState(0), reply.state) != current
  {
  }

  class RealtimeSyncHook {
    const isAdmin: bool
    var playbackState: PlaybackState
    var videos: seq<Video>
    var channelOpen: bool
    var isConnected: bool
    var mountState: PlaybackState
    var sent: seq<Broadcast>

    constructor (isAdmin: bool, now: int, demoCreatedAt: int)
      ensures this.isAdmin == isAdmin
      ensures playbackState == InitialState(now) && videos == DemoVideos(demoCreatedAt)
      ensures !channelOpen && !isConnected && sent == []
    {
      this.isAdmin := isAdmin;
      playbackState := InitialState(now);
      mountState := InitialState(now);
      videos := DemoVideos(demoCreatedAt);
      channelOpen := false;
      isConnected := false;
      sent := [];
    }

    /** The setup effect: the channel is created and stored, and its handlers
        capture the current playback state. */
    method Mount()
      modifies this
      ensures channelOpen && mountState == playbackState
      ensures playbackState == old(playbackState) && videos == old(videos) && sent == old(sent) && isConnected == old(isConnected)
    {
      mountState := playbackState;
      channelOpen := true;
    }

    /** The `SUBSCRIBED` status callback: the hook reports itself connected and
        a viewer asks the admin for the state. Nothing sets `isConnected` back. */
    method OnSubscribed()
      modifies this
      ensures isConnected
      ensures sent == if isAdmin then old(sent) else old(sent) + [RequestStateEvent]
      ensures playbackState == old(playbackState) && videos == old(videos) && channelOpen == old(channelOpen)
              && mountState == old(mountState)
    {
      isConnected := true;
      if !isAdmin {
        sent := sent + [RequestStateEvent];
      }
    }

    /** The effect's cleanup: the channel is removed and the reference cleared. */
    method Unmount()
      modifies this
      ensures !channelOpen
      ensures playbackState == old(playbackState) && videos == old(videos) && sent == old(sent)
              && isConnected == old(isConnected) && mountState == old(mountState)
    {
      channelOpen := false;
    }

    /** `broadcastState`: a no-op unless admin with an open channel; otherwise the
        partial is laid over the current state, restamped, kept and sent. */
    method BroadcastState(partial: PartialState, now: int)
      modifies this
      ensures videos == old(videos) && channelOpen == old(channelOpen)
              && isConnected == old(isConnected) && mountState == old(mountState)
      ensures !(isAdmin && channelOpen) ==> playbackState == old(playbackState) && sent == old(sent)
      ensures isAdmin && channelOpen ==>
                && playbackState == Merge(old(playbackState), partial, now)
                && sent == old(sent) + [PlaybackStateEvent(playbackState)]
    {
      if !isAdmin || !channelOpen {
        return;
      }
      var updated := Merge(playbackState, partial, now);
      playbackState := updated;
      sent := sent + [PlaybackStateEvent(updated)];
    }

    method Play(now: int)
      modifies this
      ensures videos == old(videos) && channelOpen == old(channelOpen)
              && isConnected == old(isConnected) && mountState == old(mountState)
      ensures !(isAdmin && channelOpen) ==> playbackState == old(playbackState) && sent == old(sent)
      ensures isAdmin && channelOpen ==>
                && playbackState == old(playbackState).(isPlaying := true, timestamp := now)
                && sent == old(sent) + [PlaybackStateEvent(playbackState)]
    {
      BroadcastState(PlayPartial(), now);
    }

    method Pause(now: int)
      modifies this
      ensures videos == old(videos) && channelOpen == old(channelOpen)
              && isConnected == old(isConnected) && mountState == old(mountState)
      ensures !(isAdmin && channelOpen) ==> playbackState == old(playbackState) && sent == old(sent)
      ensures isAdmin && channelOpen ==>
                && playbackState == old(playbackState).(isPlaying := false, timestamp := now)
                && sent == old(sent) + [PlaybackStateEvent(playbackState)]
    {
      BroadcastState(PausePartial(), now);
    }

    /** `seek`: the time is taken as given, negative or past the end alike. */
    method Seek(time: real, now: int)
      modifies this
      ensures videos == old(videos) && channelOpen == old(channelOpen)
              && isConnected == old(isConnected) && mountState == old(mountState)
      ensures !(isAdmin && channelOpen) ==> playbackState == old(playbackState) && sent == old(sent)
      ensures isAdmin && channelOpen ==>
                && playbackState == old(playbackState).(currentTime := time, timestamp := now)
                && sent == old(sent) + [PlaybackStateEvent(playbackState)]
    {
      BroadcastState(SeekPartial(time), now);
    }

    /** `loadVideo`: no check that the id is in the library. */
    method LoadVideo(videoId: string, now: int)
      modifies this
      ensures videos == old(videos) && channelOpen == old(channelOpen)
              && isConnected == old(isConnected) && mountState == old(mountState)
      ensures !(isAdmin && channelOpen) ==> playbackState == old(playbackState) && sent == old(sent)
      ensures isAdmin && channelOpen ==>
                && playbackState == PlaybackState(Some(videoId), false, 0.0, now)
                && sent == old(sent) + [PlaybackStateEvent(playbackState)]
    {
      BroadcastState(LoadPartial(videoId), now);
    }

    method Stop(now: int)
      modifies this
      ensures videos == old(videos) && channelOpen == old(channelOpen)
              && isConnected == old(isConnected) && mountState == old(mountState)
      ensures !(isAdmin && channelOpen) ==> playbackState == old(playbackState) && sent == old(sent)
      ensures isAdmin && channelOpen ==>
                && playbackState == PlaybackState(None, false, 0.0, now)
                && sent == old(sent) + [PlaybackStateEvent(playbackState)]
    {
      BroadcastState(StopPartial(), now);
    }

    /** `addVideo`: always appended locally; broadcast only when a (non-empty)
        URL argument was given and the channel is open. */
    method AddVideo(title: string, duration: real, size: int, file: Option<MediaFile>, url: Option<string>,
                    id: string, uploadedAt: int, objectUrl: string)
      returns (newVideo: Video)
      modifies this
      ensures newVideo == NewVideo(id, title, duration, size, file, url, objectUrl, uploadedAt)
      ensures videos == old(videos) + [newVideo]
      ensures sent == if channelOpen && Truthy(url) then old(sent) + [VideoAddedEvent(newVideo)] else old(sent)
      ensures playbackState == old(playbackState) && channelOpen == old(channelOpen)
              && isConnected == old(isConnected) && mountState == old(mountState)
    {
      newVideo := NewVideo(id, title, duration, size, file, url, objectUrl, uploadedAt);
      videos := videos + [newVideo];
      if channelOpen && Truthy(url) {
        sent := sent + [VideoAddedEvent(newVideo)];
      }
    }

    /** `removeVideo`: every entry with the id goes; the removal is sent when the channel is open. */
    method RemoveVideo(videoId: string)
      modifies this
      ensures videos == WithoutId(old(videos), VideoId, videoId)
      ensures sent == if channelOpen then old(sent) + [VideoRemovedEvent(videoId)] else old(sent)
      ensures playbackState == old(playbackState) && channelOpen == old(channelOpen)
              && isConnected == old(isConnected) && mountState == old(mountState)
    {
      videos := WithoutId(videos, VideoId, videoId);
      if channelOpen {
        sent := sent + [VideoRemovedEvent(videoId)];
      }
    }

    /** Inbound `playback-state`: a viewer takes the payload as it is, with no
        timestamp comparison; the admin ignores it. */
    method OnPlaybackState(payload: PlaybackState)
      modifies this
      ensures playbackState == if isAdmin then old(playbackState) else payload
      ensures videos == old(videos) && sent == old(sent) && channelOpen == old(channelOpen)
              && isConnected == old(isConnected) && mountState == old(mountState)
    {
      playbackState := ApplyPlaybackState(isAdmin, playbackState, payload);
    }

    /** Inbound `video-added`: appended unless an entry with that id exists. */
    method OnVideoAdded(incoming: Video)
      modifies this
      ensures videos == AppendIfAbsent(old(videos), VideoId, incoming)
      ensures playbackState == old(playbackState) && sent == old(sent) && channelOpen == old(channelOpen)
              && isConnected == old(isConnected) && mountState == old(mountState)
    {
      videos := AppendIfAbsent(videos, VideoId, incoming);
    }

    /** Inbound `video-removed`. */
    method OnVideoRemoved(videoId: string)
      modifies this
      ensures videos == WithoutId(old(videos), VideoId, videoId)
      ensures playbackState == old(playbackState) && sent == old(sent) && channelOpen == old(channelOpen)
              && isConnected == old(isConnected) && mountState == old(mountState)
    {
      videos := WithoutId(videos, VideoId, videoId);
    }

    /** Inbound `request-state` as written: only the admin replies, with the
        state its handler captured at mount, and with no library. */
    method OnRequestStateAsWritten()
      modifies this
      ensures sent == if isAdmin && channelOpen
                      then old(sent) + [RequestStateReplyAsWritten(mountState, playbackState)]
                      else old(sent)
      ensures playbackState == old(playbackState) && videos == old(videos) && channelOpen == old(channelOpen)
              && isConnected == old(isConnected) && mountState == old(mountState)
    {
      if isAdmin && channelOpen {
        sent := sent + [RequestStateReplyAsWritten(mountState, playbackState)];
      }
    }

    /** Inbound `request-state`, corrected: the admin replies with its current state. */
    method OnRequestState()
      modifies this
      ensures sent == if isAdmin && channelOpen
                      then old(sent) + [PlaybackStateEvent(playbackState)]
                      else old(sent)
      ensures playbackState == old(playbackState) && videos == old(videos) && channelOpen == old(channelOpen)
              && isConnected == old(isConnected) && mountState == old(mountState)
    {
      if isAdmin && channelOpen {
        sent := sent + [RequestStateReply(mountState, playbackState)];
      }
    }
  }

  /** A viewer joins as written: on subscribing it asks for the state, the
      admin's handler answers, and the viewer applies the answer. It ends with
      the state the admin held when its effect ran, not the one it holds now. */
  method JoinAsWritten(admin: RealtimeSyncHook, viewer: RealtimeSyncHook)
    requires admin != viewer && admin.isAdmin && !viewer.isAdmin && admin.channelOpen
    modifies admin, viewer
    ensures viewer.sent == old(viewer.sent) + [RequestStateEvent]
    ensures admin.sent == old(admin.sent) + [PlaybackStateEvent(old(admin.mountState))]
    ensures viewer.playbackState == old(admin.mountState)
    ensures admin.playbackState == old(admin.playbackState)
  {
    viewer.OnSubscribed();
    admin.OnRequestStateAsWritten();
    var reply := admin.sent[|admin.sent| - 1];
    viewer.OnPlaybackState(reply.state);
  }

  /** A viewer joins with the corrected handler and ends holding exactly the
      state the admin holds now. */
  method Join(admin: RealtimeSyncHook, viewer: RealtimeSyncHook)
    requires admin != viewer && admin.isAdmin && !viewer.isAdmin && admin.channelOpen
    modifies admin, viewer
    ensures viewer.sent == old(viewer.sent) + [RequestStateEvent]
    ensures admin.sent == old(admin.sent) + [PlaybackStateEvent(old(admin.playbackState))]
    ensures viewer.playbackState == admin.playbackState == old(admin.playbackState)
  {
    viewer.OnSubscribed();
    admin.OnRequestState();
    var reply := admin.sent[|admin.sent| - 1];
    viewer.OnPlaybackState(reply.state);
  }
}
