/** The local `BroadcastChannel` transport (src/hooks/useLocalSync.ts): the
    `onmessage` switch that decides which callback a message reaches, and the
    channel reference that `broadcast` checks. Posted messages are appended to
    `posted`; callback invocations to `delivered`. */
module LocalSync {
  import opened Types

  /** The optional callbacks a caller may register. */
  datatype Handler = PlaybackStateHandler | VideoAddedHandler | VideoRemovedHandler | DeviceUpdateHandler | RequestStateHandler

  /** One callback invocation with its argument. */
  datatype Delivery =
    | OnPlaybackState(payload: Payload)
    | OnVideoAdded(payload: Payload)
    | OnVideoRemoved(videoId: string)
    | OnDeviceUpdate(payload: Payload)
    | OnRequestState
  {
    function HandlerOf(): Handler
    {
      match this
      case OnPlaybackState(_) => PlaybackStateHandler
      case OnVideoAdded(_) => VideoAddedHandler
      case OnVideoRemoved(_) => VideoRemovedHandler
      case OnDeviceUpdate(_) => DeviceUpdateHandler
      case OnRequestState => RequestStateHandler
    }
  }

  /** The `onmessage` switch: at most one callback per message. */
  function Route(isAdmin: bool, m: SyncMessage): (d: Option<Delivery>)
    ensures d.Some? && m.msgType != RequestState ==> m.payload.Some?
    ensures d == Some(OnRequestState) <==> isAdmin && m.msgType == RequestState
    ensures d.Some? && d.value.OnPlaybackState? ==> !isAdmin
  {
    match m.msgType
    case PlaybackStateMessage =>
      if !isAdmin && m.payload.Some? then Some(OnPlaybackState(m.payload.value)) else None
    case VideoAdded =>
      if m.payload.Some? then Some(OnVideoAdded(m.payload.value)) else None
    case VideoRemoved =>
      if m.payload.Some? && Truthy(PayloadVideoId(m.payload.value))
      then Some(OnVideoRemoved(PayloadVideoId(m.payload.value).value)) else None
    case DeviceUpdate =>
      if m.payload.Some? then Some(OnDeviceUpdate(m.payload.value)) else None
    case RequestState =>
      if isAdmin then Some(OnRequestState) else None
    case _ => None
  }

  /** `playback-state` reaches `onPlaybackState` exactly when not admin and a payload is present, and carries it. */
  lemma RoutePlaybackState(isAdmin: bool, m: SyncMessage)
    requires m.msgType == PlaybackStateMessage
    ensures Route(isAdmin, m).Some? <==> !isAdmin && m.payload.Some?
    ensures Route(isAdmin, m).Some? ==> Route(isAdmin, m) == Some(OnPlaybackState(m.payload.value))
  {
  }

  /** `request-state` reaches `onRequestState` exactly on the admin. */
  lemma RouteRequestState(isAdmin: bool, m: SyncMessage)
    requires m.msgType == RequestState
    ensures Route(isAdmin, m) == if isAdmin then Some(OnRequestState) else None
  {
  }

  /** `video-removed` is delivered exactly when the payload names a (non-empty)
      `videoId`, and the callback receives that id. */
  lemma RouteVideoRemoved(isAdmin: bool, m: SyncMessage)
    requires m.msgType == VideoRemoved
    ensures Route(isAdmin, m).Some? <==> m.payload.Some? && Truthy(PayloadVideoId(m.payload.value))
    ensures Route(isAdmin, m).Some? ==> Route(isAdmin, m).value == OnVideoRemoved(PayloadVideoId(m.payload.value).value)
  {
  }

  /** `video-added` and `device-update` do not depend on the role. */
  lemma RouteRoleFree(m: SyncMessage)
    requires m.msgType == VideoAdded || m.msgType == DeviceUpdate
    ensures Route(true, m) == Route(false, m)
    ensures Route(true, m).Some? <==> m.payload.Some?
  {
  }

  /** The transport commands have no case in the switch. */
  lemma RouteIgnoresCommands(isAdmin: bool, m: SyncMessage)
    requires m.msgType in {Play, Pause, Seek, Load, Stop}
    ensures Route(isAdmin, m) == None
  {
  }

  /** The callback reached always matches the message's type. */
  lemma RouteMatchesType(isAdmin: bool, m: SyncMessage)
    requires Route(isAdmin, m).Some?
    ensures var h := Route(isAdmin, m).value.HandlerOf();
      && (h == PlaybackStateHandler <==> m.msgType == PlaybackStateMessage)
      && (h == VideoAddedHandler <==> m.msgType == VideoAdded)
      && (h == VideoRemovedHandler <==> m.msgType == VideoRemoved)
      && (h == DeviceUpdateHandler <==> m.msgType == DeviceUpdate)
      && (h == RequestStateHandler <==> m.msgType == RequestState)
  {
  }

  class LocalSyncHook {
    const isAdmin: bool
    var handlers: set<Handler>
    var channelOpen: bool
    var posted: seq<SyncMessage>
    var delivered: seq<Delivery>

    constructor (isAdmin: bool, handlers: set<Handler>)
      ensures this.isAdmin == isAdmin && this.handlers == handlers
      ensures !channelOpen && posted == [] && delivered == []
    {
      this.isAdmin := isAdmin;
      this.handlers := handlers;
      channelOpen := false;
      posted := [];
      delivered := [];
    }

    /** The callbacks effect: the latest callbacks replace the previous ones. */
    method SetCallbacks(newHandlers: set<Handler>)
      modifies this
      ensures handlers == newHandlers
      ensures channelOpen == old(channelOpen) && posted == old(posted) && delivered == old(delivered)
    {
      handlers := newHandlers;
    }

    /** The channel effect: open the channel and keep its reference. */
    method Setup()
      modifies this
      ensures channelOpen
      ensures handlers == old(handlers) && posted == old(posted) && delivered == old(delivered)
    {
      channelOpen := true;
    }

    /** The effect's cleanup: close the channel and clear the reference. */
    method Teardown()
      modifies this
      ensures !channelOpen
      ensures handlers == old(handlers) && posted == old(posted) && delivered == old(delivered)
    {
      channelOpen := false;
    }

    /** `broadcast`: posts only while the channel reference is set. */
    method Broadcast(m: SyncMessage)
      modifies this
      ensures posted == if channelOpen then old(posted) + [m] else old(posted)
      ensures handlers == old(handlers) && channelOpen == old(channelOpen) && delivered == old(delivered)
    {
      if channelOpen {
        posted := posted + [m];
      }
    }

    /** A message arriving on the channel: a closed channel receives nothing; an
        open one invokes the routed callback if the caller registered it. */
    method Receive(m: SyncMessage)
      modifies this
      ensures delivered ==
                if channelOpen && Route(isAdmin, m).Some? && Route(isAdmin, m).value.HandlerOf() in handlers
                then old(delivered) + [Route(isAdmin, m).value]
                else old(delivered)
      ensures handlers == old(handlers) && channelOpen == old(channelOpen) && posted == old(posted)
    {
      if channelOpen {
        var d := Route(isAdmin, m);
        if d.Some? && d.value.HandlerOf() in handlers {
          delivered := delivered + [d.value];
        }
      }
    }
  }
}
