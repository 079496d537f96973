/** The shared data model of the client (src/types/video.ts), plus the file
    descriptor that the browser hands to the uploader and to the hooks. */
module Types {

  datatype Option<T> = None | Some(value: T)

  /** JavaScript truthiness of an optional string: `undefined` and `''` are falsy. */
  predicate Truthy(s: Option<string>)
  {
    s.Some? && s.value != ""
  }

  datatype MediaKind = VideoKind | ImageKind

  /** A library entry. `uploadedAt` is a millisecond clock value; the ISO-8601
      string used on the wire converts back to the same instant. `thumbnail` and
      `kind` are optional because the hooks build entries without them. */
  datatype Video = Video(
    id: string,
    title: string,
    url: string,
    thumbnail: Option<string>,
    duration: real,
    uploadedAt: int,
    size: int,
    kind: Option<MediaKind>)

  /** What is playing, where, and since when. `videoId == None` is `null`;
      `timestamp` is the sender's clock in milliseconds. */
  datatype PlaybackState = PlaybackState(
    videoId: Option<string>,
    isPlaying: bool,
    currentTime: real,
    timestamp: int)

  /** The state every participant starts from. */
  function InitialState(now: int): PlaybackState
  {
    PlaybackState(None, false, 0.0, now)
  }

  datatype DeviceType = Vr | Browser
  datatype DeviceStatus = Connected | Syncing | Disconnected

  datatype ConnectedDevice = ConnectedDevice(
    id: string,
    name: string,
    deviceType: DeviceType,
    status: DeviceStatus,
    lastSeen: int,
    batteryLevel: Option<int>,
    batteryCharging: Option<bool>)

  /** The `type` tag of a wire message. */
  datatype MessageType =
    | Play | Pause | Seek | Load | Stop
    | VideoAdded | VideoRemoved | RequestState | PlaybackStateMessage | DeviceUpdate

  /** The `payload` of a wire message: the field is untyped in the source, so
      each shape a sender puts there is one alternative. */
  datatype Payload =
    | StatePayload(state: PlaybackState)
    | VideoPayload(video: Video)
    | RemovedPayload(removedId: Option<string>)
    | DevicePayload(device: ConnectedDevice)
    | EmptyPayload

  /** `payload.videoId` read off an arbitrary payload shape. */
  function PayloadVideoId(p: Payload): Option<string>
  {
    match p
    case StatePayload(s) => s.videoId
    case RemovedPayload(id) => id
    case _ => None
  }

  /** `payload == None` is an absent (`undefined`/`null`) payload. */
  datatype SyncMessage = SyncMessage(
    msgType: MessageType,
    videoId: Option<string>,
    currentTime: Option<real>,
    timestamp: int,
    payload: Option<Payload>)

  /** A browser `File`: its name, MIME type and size in bytes. */
  datatype MediaFile = MediaFile(name: string, mimeType: string, size: int)
}
