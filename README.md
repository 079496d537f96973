# vr-sync-hub in Dafny

vr-sync-hub keeps a room of VR headsets playing the same video as an admin
console. The admin holds the authoritative playback state: which video is
loaded, whether it is playing, the position, and the instant of the last
change. Viewers copy that state from broadcasts. Each viewer's player skips
any state that is not newer than the last one it applied.

This project models the state that the system keeps in four places. It also
models the small pure helpers around that state. For each place it proves what
the code promises:

- the Socket.IO server's playback service and client roster (`ServerSync`, `ServerClients`);
- the three client sync hooks (`RealtimeSync`, `SyncState`, `LocalSync`), with their pure updaters
  in `Updaters`;
- the viewer's staleness gate in the media player (`Player`);
- the admin's transport controls (`Controls`) and the upload panel (`Uploader`).

`Types` holds the shared records. `Decimal` renders integers the way
JavaScript's `toString()` and `padStart(2, '0')` do.

Modelling conventions:

- **Classes.** Code that updates fields in place becomes a class with
  `modifies` clauses. React's state cells and refs become fields.
- **Outboxes.** Every emit, send or post is appended to an outbox sequence:
  `emitted`, `sent`, `posted` or `issued`.
- **Parameters.** The clock, the random ids, `URL.createObjectURL`, the
  headset number and the probed video duration are passed in as parameters.
- **Maps.** A JavaScript `Map` becomes a Dafny `map` plus the key insertion
  order, because insertion order is the order in which the `Map` iterates.

The model follows the code as written:

- The hooks do not clamp `seek`.
- They do not check that `loadVideo` names a video in the library.
- They apply an inbound playback state with no timestamp comparison. The
  player is the only place that orders states by timestamp.
- A viewer's bootstrap reply (`request-state`) carries only the playback
  state, never the library.

## Model

| member | source | states |
|---|---|---|
| `ServerSync.SyncService.constructor` | server/src/services/syncService.ts:18-25 | starts with nothing loaded, paused at 0, stamped now, and an empty library |
| `ServerSync.SyncService.HandlePlay` | server/src/services/syncService.ts:28-35 | only `isPlaying` (set) and the timestamp change; the new state goes to the room, excluding the sender |
| `ServerSync.SyncService.HandlePause` | server/src/services/syncService.ts:38-44 | only `isPlaying` (cleared) and the timestamp change; the new state goes to the room |
| `ServerSync.SyncService.HandleSeek` | server/src/services/syncService.ts:47-53 | the requested time is stored verbatim (no clamping); everything else except the timestamp is unchanged |
| `ServerSync.SyncService.HandleLoadVideo` | server/src/services/syncService.ts:56-70 | an id not in the library changes nothing and emits nothing; a known id loads it paused at 0, stamped now, and the emit carries the first library entry with that id |
| `ServerSync.SyncService.HandleStop` | server/src/services/syncService.ts:73-81 | leaves nothing loaded, paused, at 0, stamped now, and emits that state |
| `ServerSync.SyncService.AddVideo` | server/src/services/syncService.ts:84-87 | appends at the end with no duplicate check; the library grows by exactly one |
| `ServerSync.SyncService.RemoveVideo` | server/src/services/syncService.ts:90-96 | the library becomes the old one with its first entry of that id removed |
| `ServerSync.FindIndex` | server/src/services/syncService.ts:91 | -1 exactly when no entry has the id, otherwise the index of the first entry that has it |
| `ServerSync.RemoveFirstAt` | server/src/services/syncService.ts:91-93 | removing the first match at index i is the same as cutting position i out (the splice) |
| `ServerSync.RemoveFirst` | server/src/services/syncService.ts:90-96 | the library after `findIndex` + `splice`: one entry shorter exactly when some entry has the id, and no entry that was not there before; RemoveFirstAt, RemoveFirstAbsent and RemoveFirstPresent pin down which entry goes |
| `ServerSync.RemoveFirstAbsent` | server/src/services/syncService.ts:92 | removing an absent id leaves the library unchanged |
| `ServerSync.RemoveFirstPresent` | server/src/services/syncService.ts:90-96 | a present id removes exactly one entry, the first with that id; every later entry, later duplicates included, keeps its order |
| `ServerSync.SyncService.GetPlaybackState` | server/src/services/syncService.ts:99-101 | returns the state as a value, which later changes on either side cannot reach |
| `ServerSync.SyncService.GetVideos` | server/src/services/syncService.ts:104-106 | returns the library as a value copy |
| `ServerClients.ClientService.constructor` | server/src/services/clientService.ts:13 | the roster starts empty |
| `ServerClients.ClientService.RegisterClient` | server/src/services/clientService.ts:16-30 | stores the record under the socket id with the given name and type and `lastSeen == connectedAt == now`; re-registering replaces the record in its old iteration place; other entries are unchanged |
| `ServerClients.ClientService.UpdateLastSeen` | server/src/services/clientService.ts:33-38 | an unknown socket changes nothing; a known socket gets a new `lastSeen` and nothing else changes |
| `ServerClients.ClientService.RemoveClient` | server/src/services/clientService.ts:41-47 | deletes only that socket's entry, keeping the others' order; an unknown socket is a no-op |
| `ServerClients.ClientService.GetConnectedClients` | server/src/services/clientService.ts:50-52 | the records in Map iteration order: exactly the Map's values, one per entry |
| `ServerClients.ClientService.GetClientsByType` | server/src/services/clientService.ts:55-57 | exactly the roster's clients of the given type, in roster order |
| `ServerClients.ClientService.GetClientCount` | server/src/services/clientService.ts:60-66 | `admin` and `vr` count their types; `total` is their sum and equals the roster size |
| `ServerClients.ClientService.CleanupStaleConnections` | server/src/services/clientService.ts:69-85 | removes exactly the clients with `now - lastSeen > maxAge`; every survivor has `now - lastSeen <= maxAge`; returns the old size minus the new size |
| `ServerClients.ClientService.CleanupStaleConnectionsDefault` | server/src/services/clientService.ts:69 | with no argument the age limit is 60000 ms: the same removal, surviving order and count as with an explicit limit |
| `ServerClients.ClientService.DeleteAll` | server/src/services/clientService.ts:79-82 | the second pass: deleting the collected ids one by one removes exactly that set and keeps the survivors' order |
| `ServerClients.CollectStale` | server/src/services/clientService.ts:73-77 | the first pass: collects the stale socket ids in iteration order |
| `ServerClients.CleanupBoundary` | server/src/services/clientService.ts:74 | the test is strict: a client last seen exactly `maxAge` ago survives unchanged; one a millisecond older is removed |
| `ServerClients.CleanupCount` | server/src/services/clientService.ts:84 | the number of stale ids collected equals the number of entries removed |
| `ServerClients.StaleKeysAreStaleSet` | server/src/services/clientService.ts:73-77 | the ids collected are exactly the roster's stale ids |
| `ServerClients.CleanupKeepsOrderValid` | server/src/services/clientService.ts:79-82 | after the deletes, the iteration order lists each surviving id exactly once |
| `ServerClients.OfType` | server/src/services/clientService.ts:56 | the filter keeps exactly the clients of the type |
| `ServerClients.InOrder` | server/src/services/clientService.ts:51 | `Array.from(values())` over the insertion order: one record per listed key when every key is present; InOrderValues shows it holds exactly the map's values |
| `ServerClients.StaleKeys` | server/src/services/clientService.ts:73-77 | the collected ids are exactly the listed keys whose clients are strictly older than `maxAge`; StaleKeysAreStaleSet and CleanupCount relate them to the removed entries |
| `ServerClients.KeysNotIn` | server/src/services/clientService.ts:79-82 | the iteration order after the deletes: exactly the keys not deleted, never longer; KeysNotInTwice shows deletes compose |
| `ServerClients.ClientService.Roster` | server/src/services/clientService.ts:50-52 | the Map's values in iteration order, as many as there are entries and each of them once |
| `ServerClients.OfTypePartition` | server/src/services/clientService.ts:62-65 | the admin and vr filters split the roster, so their lengths add up to its length |
| `ServerClients.InOrderValues` | server/src/services/clientService.ts:51 | the array built from the Map holds exactly the Map's values |
| `ServerClients.KeysNotInTwice` | server/src/services/clientService.ts:81 | deleting one set of ids and then another is deleting their union |
| `Updaters.MergeOverlays` | src/hooks/useRealtimeSync.ts:161-165 | the merged state takes every field the partial gives, keeps every field it omits, and carries the new clock |
| `Updaters.Override` | src/hooks/useRealtimeSync.ts:161-165 | one field of the spread: the partial's value when it gives one, else the current value |
| `Updaters.Merge` | src/hooks/useRealtimeSync.ts:161-165 | `{ ...state, ...partial, timestamp }`: always carries the new clock, and an empty partial only restamps; MergeOverlays and MergeIdempotent state the rest |
| `Updaters.MergeIdempotent` | src/hooks/useSyncState.ts:105-109 | merging the same partial twice is the same as merging it once at the later clock |
| `Updaters.FindById` | src/hooks/useRealtimeSync.ts:101 | `find` by id: nothing exactly when no element has the id, otherwise the first element that has it |
| `Updaters.WithoutId` | src/hooks/useRealtimeSync.ts:108 | `filter` by id: keeps exactly the elements with another id, each as often as before |
| `Updaters.WithoutIdConcat` | src/hooks/useRealtimeSync.ts:232 | filtering distributes over concatenation, so the kept elements stay in their order |
| `Updaters.WithoutAbsentId` | src/hooks/useSyncState.ts:67 | filtering by an id that no element has changes nothing |
| `Updaters.WithoutIdIdempotent` | src/hooks/useSyncState.ts:176 | filtering the same id twice is filtering it once |
| `Updaters.AppendIfAbsentCases` | src/hooks/useRealtimeSync.ts:100-103 | an item whose id is already present leaves the list unchanged; otherwise it is appended at the end |
| `Updaters.AppendIfAbsent` | src/hooks/useRealtimeSync.ts:100-103 | the list is unchanged or has the item appended, and afterwards some entry carries the item's id; AppendIfAbsentCases says which case applies |
| `Updaters.AppendIfAbsentIdempotent` | src/hooks/useSyncState.ts:59-63 | delivering the same insertion twice is delivering it once |
| `Updaters.AppendIfAbsentKeepsUnique` | src/hooks/useSyncState.ts:59-63 | insertion by id never creates a second entry with an id already present |
| `RealtimeSync.NewVideo` | src/hooks/useRealtimeSync.ts:199-215 | the entry gets the file's object URL if a file is given, else the given URL, else `''` |
| `RealtimeSync.RequestStateReply` | src/hooks/useRealtimeSync.ts:112-120 | corrected reply: the admin's current state |
| `RealtimeSync.BootstrapConverges` | src/hooks/useRealtimeSync.ts:90-95 | a viewer that applies the corrected reply holds exactly the admin's current state, whatever it held before |
| `RealtimeSync.StaleReplyCounterexample` | src/hooks/useRealtimeSync.ts:112-120 | the reply as written tells a joining viewer that nothing is loaded after the admin has loaded a video |
| `RealtimeSync.RequestStateReplyAsWritten` | src/hooks/useRealtimeSync.ts:112-120 | the reply as written carries the state captured when the setup effect ran, whatever the current state is |
| `RealtimeSync.ApplyPlaybackState` | src/hooks/useRealtimeSync.ts:90-95 | a viewer takes the payload outright; the admin keeps its own state |
| `RealtimeSync.JoinAsWritten` | src/hooks/useRealtimeSync.ts:90-143 | a viewer subscribes and sends `request-state`, the admin's handler as written answers, and the viewer ends with the admin's mount-time state |
| `RealtimeSync.Join` | src/hooks/useRealtimeSync.ts:90-143 | with the corrected handler the same exchange leaves the viewer holding exactly the admin's current state |
| `RealtimeSync.RealtimeSyncHook.constructor` | src/hooks/useRealtimeSync.ts:29-40 | starts with nothing loaded, stamped now, the two demo videos, no channel and not connected |
| `RealtimeSync.RealtimeSyncHook.Mount` | src/hooks/useRealtimeSync.ts:44-147 | the setup effect stores the channel, and its handlers capture the state of that render |
| `RealtimeSync.RealtimeSyncHook.OnSubscribed` | src/hooks/useRealtimeSync.ts:124-145 | once subscribed the hook is connected, and only a viewer sends `request-state` |
| `RealtimeSync.RealtimeSyncHook.Unmount` | src/hooks/useRealtimeSync.ts:149-154 | cleanup clears the channel reference and changes nothing else |
| `RealtimeSync.RealtimeSyncHook.BroadcastState` | src/hooks/useRealtimeSync.ts:158-175 | a no-op unless admin with a channel; otherwise the new state is the partial merged over the current one and restamped, and the sent payload equals it |
| `RealtimeSync.RealtimeSyncHook.Play` | src/hooks/useRealtimeSync.ts:178-180 | on the admin with a channel, only `isPlaying` (set) and the timestamp change |
| `RealtimeSync.RealtimeSyncHook.Pause` | src/hooks/useRealtimeSync.ts:182-184 | on the admin with a channel, only `isPlaying` (cleared) and the timestamp change |
| `RealtimeSync.RealtimeSyncHook.Seek` | src/hooks/useRealtimeSync.ts:186-188 | the time is stored unclamped |
| `RealtimeSync.RealtimeSyncHook.LoadVideo` | src/hooks/useRealtimeSync.ts:190-192 | the state becomes the id, paused at 0, stamped now, with no library check |
| `RealtimeSync.RealtimeSyncHook.Stop` | src/hooks/useRealtimeSync.ts:194-196 | the state becomes nothing loaded, paused at 0, stamped now |
| `RealtimeSync.RealtimeSyncHook.AddVideo` | src/hooks/useRealtimeSync.ts:199-229 | always appends locally; sends `video-added` only with a channel and a non-empty URL argument, so file-only uploads are not broadcast |
| `RealtimeSync.RealtimeSyncHook.RemoveVideo` | src/hooks/useRealtimeSync.ts:231-241 | removes every entry with the id; sends the removal when there is a channel |
| `RealtimeSync.RealtimeSyncHook.OnPlaybackState` | src/hooks/useRealtimeSync.ts:90-95 | a viewer takes the payload outright, with no timestamp comparison; the admin ignores it |
| `RealtimeSync.RealtimeSyncHook.OnVideoAdded` | src/hooks/useRealtimeSync.ts:97-104 | inbound `video-added` inserts by id: a known id is a no-op, otherwise the item is appended |
| `RealtimeSync.RealtimeSyncHook.OnVideoRemoved` | src/hooks/useRealtimeSync.ts:106-109 | inbound `video-removed` removes every entry with the id |
| `RealtimeSync.RealtimeSyncHook.OnRequestStateAsWritten` | src/hooks/useRealtimeSync.ts:112-121 | only the admin with a channel replies, with the state captured at mount and no library |
| `RealtimeSync.RealtimeSyncHook.OnRequestState` | src/hooks/useRealtimeSync.ts:112-121 | corrected handler: only the admin with a channel replies, with its current state |
| `SyncState.LocalDevice` | src/hooks/useSyncState.ts:39-45 | the announced record is this device, connected, seen now, of type `browser` (admin) or `vr` |
| `SyncState.IncomingVideo` | src/hooks/useSyncState.ts:73-83 | copies the listed fields; an attached file's object URL replaces the URL |
| `SyncState.SyncStateHook.constructor` | src/hooks/useSyncState.ts:8-35 | starts with nothing loaded, no devices, and the two demo videos |
| `SyncState.SyncStateHook.Mount` | src/hooks/useSyncState.ts:38-48 | posts `device-connect` with this device |
| `SyncState.SyncStateHook.Unmount` | src/hooks/useSyncState.ts:95-98 | posts `device-disconnect` with the device that the mount announced |
| `SyncState.SyncStateHook.HandleMessage` | src/hooks/useSyncState.ts:51-90 | the admin ignores `sync-state` and `video-added`; a viewer ignores the device messages; `device-connect` inserts by id, `device-disconnect` removes every match; `video-added` appends with no dedup, and does nothing when the message has no video |
| `SyncState.SyncStateHook.BroadcastState` | src/hooks/useSyncState.ts:102-113 | nothing for a viewer; the admin merges, restamps, keeps and posts the same state |
| `SyncState.SyncStateHook.Play` | src/hooks/useSyncState.ts:115-117 | on the admin, only `isPlaying` (set) and the timestamp change |
| `SyncState.SyncStateHook.Pause` | src/hooks/useSyncState.ts:119-121 | on the admin, only `isPlaying` (cleared) and the timestamp change |
| `SyncState.SyncStateHook.Seek` | src/hooks/useSyncState.ts:123-125 | the time is stored unclamped |
| `SyncState.SyncStateHook.LoadVideo` | src/hooks/useSyncState.ts:127-129 | the id, paused at 0, with no library check |
| `SyncState.SyncStateHook.Stop` | src/hooks/useSyncState.ts:131-133 | nothing loaded, paused at 0 |
| `SyncState.SyncStateHook.AddVideo` | src/hooks/useSyncState.ts:136-173 | posts `video-added` (with the file) only for an admin with a file; otherwise appends locally with the URL or `''` and posts nothing |
| `SyncState.SyncStateHook.RemoveVideo` | src/hooks/useSyncState.ts:175-177 | removes every entry with the id and posts nothing |
| `SyncState.ReceiveAll` | src/hooks/useSyncState.ts:71-85 | a viewer's library grows by one entry per inbound `video-added`, keeps its old entries in front, and the i-th new entry is the video built from the i-th announcement |
| `SyncState.DuplicateAnnouncementKept` | src/hooks/useSyncState.ts:85 | the same announcement received twice leaves two entries with that id |
| `LocalSync.RoutePlaybackState` | src/hooks/useLocalSync.ts:33-37 | `playback-state` reaches `onPlaybackState` exactly when not admin and a payload is present, and carries that payload |
| `LocalSync.Route` | src/hooks/useLocalSync.ts:28-58 | the `onmessage` switch: a delivery other than `onRequestState` needs a payload, `onRequestState` is reached exactly by `request-state` on the admin, and `onPlaybackState` never on the admin; the Route lemmas give each case |
| `LocalSync.RouteRequestState` | src/hooks/useLocalSync.ts:53-57 | `request-state` reaches `onRequestState` exactly on the admin |
| `LocalSync.RouteVideoRemoved` | src/hooks/useLocalSync.ts:43-47 | `video-removed` is delivered exactly when the payload has a non-empty `videoId`, and the callback receives it |
| `LocalSync.RouteRoleFree` | src/hooks/useLocalSync.ts:38-52 | `video-added` and `device-update` are delivered whenever a payload is present, regardless of role |
| `LocalSync.RouteIgnoresCommands` | src/hooks/useLocalSync.ts:32-58 | `play`, `pause`, `seek`, `load` and `stop` reach no callback |
| `LocalSync.RouteMatchesType` | src/hooks/useLocalSync.ts:32-58 | a message reaches at most one callback, the one for its own type |
| `LocalSync.LocalSyncHook.constructor` | src/hooks/useLocalSync.ts:14-16 | no channel yet, with the given callbacks |
| `LocalSync.LocalSyncHook.SetCallbacks` | src/hooks/useLocalSync.ts:19-21 | the latest callbacks replace the previous ones |
| `LocalSync.LocalSyncHook.Setup` | src/hooks/useLocalSync.ts:23-26 | the channel reference is set |
| `LocalSync.LocalSyncHook.Teardown` | src/hooks/useLocalSync.ts:63-66 | the channel reference is cleared |
| `LocalSync.LocalSyncHook.Broadcast` | src/hooks/useLocalSync.ts:69-74 | posts only while the reference is set, so nothing is sent after teardown |
| `LocalSync.LocalSyncHook.Receive` | src/hooks/useLocalSync.ts:28-59 | an open channel invokes the routed callback if one is registered; a closed channel invokes nothing |
| `Player.Decide` | src/components/VideoPlayer.tsx:38-56 | skips exactly when a viewer sees `timestamp <= lastSyncTime`; issues `play` exactly when playing is wanted and the element is paused, `pause` exactly in the opposite case; a viewer reseeks to the state's time exactly when it drifted by more than 0.5 s |
| `Player.ApplySettles` | src/components/VideoPlayer.tsx:41-56 | after an applied state, `lastSyncTime` is its timestamp and `paused == !isPlaying`; a viewer is within 0.5 s of the state's time and the admin's position is untouched |
| `Player.StaleSkipped` | src/components/VideoPlayer.tsx:38-40 | a viewer leaves everything as it was for a state no newer than the last one applied |
| `Player.AdminNeverSkips` | src/components/VideoPlayer.tsx:38-56 | the admin applies every state and never reseeks |
| `Player.ViewerRunMonotone` | src/components/VideoPlayer.tsx:38-41 | over any sequence of states, a viewer's `lastSyncTime` never decreases |
| `Player.Step` | src/components/VideoPlayer.tsx:32-56 | one run of the effect: without an element nothing changes; the ref stays or takes the state's timestamp, and on a viewer never goes back; ApplySettles and StaleSkipped give the two branches |
| `Player.Run` | src/components/VideoPlayer.tsx:32-56 | the effect over a sequence of rendered states: the element's presence is kept and nothing happens without one; ViewerRunReachesMax gives the final ref |
| `Player.ViewerRunReachesMax` | src/components/VideoPlayer.tsx:38-41 | a viewer's `lastSyncTime` ends at the newest timestamp it saw, or its start if nothing newer arrived |
| `Player.LateStateIgnored` | src/components/VideoPlayer.tsx:38-41 | a late state older than the one just applied changes nothing |
| `Player.OutOfOrderPair` | src/components/VideoPlayer.tsx:38-48 | two states in either arrival order leave the element as the newer one demands |
| `Player.VideoPlayerSync.constructor` | src/components/VideoPlayer.tsx:19-20 | the ref starts at 0 |
| `Player.VideoPlayerSync.SyncEffect` | src/components/VideoPlayer.tsx:32-57 | one run of the effect moves the element and the ref as `Step` says, issuing the `play`/`pause` call that `Decide` chooses |
| `Player.VideoPlayerSync.Seek` | src/components/VideoPlayer.tsx:23-27 | sets the element's time when there is an element |
| `Player.VideoPlayerSync.GetCurrentTime` | src/components/VideoPlayer.tsx:28 | the element's time, or 0 without an element |
| `Controls.ClockFields` | src/components/admin/PlaybackControls.tsx:13-15 | for a non-negative time the seconds field is in 0..59 and `mins*60 + secs == floor(seconds)` |
| `Controls.FormatTimeRoundTrip` | src/components/admin/PlaybackControls.tsx:13-17 | for a non-negative time the label ends in a colon and two digits reading 00..59, and reads back as the whole seconds elapsed |
| `Controls.FormatTime` | src/components/admin/PlaybackControls.tsx:13-17 | the label is at least four characters and contains a colon; FormatTimeRoundTrip and NegativeTimeLabel give its contents |
| `Controls.ClockTextRoundTrip` | src/components/admin/PlaybackControls.tsx:16 | minutes, a colon and padded seconds below 60 read back as their total |
| `Controls.IntClockText` | src/components/admin/PlaybackControls.tsx:16 | the same round trip for the label built from whole numbers as `formatTime` builds it |
| `Controls.NegativeTimeLabel` | src/components/admin/PlaybackControls.tsx:13-17 | a negative time keeps its sign in both fields: -5 s gives `-1:-5` |
| `Controls.SkipBack` | src/components/admin/PlaybackControls.tsx:74 | never negative; exactly `t - 10` when `t >= 10`, else 0 |
| `Controls.SkipForward` | src/components/admin/PlaybackControls.tsx:100 | only with a video; never past its duration nor more than 10 s ahead, and one of the two |
| `Controls.SkipRoundTrip` | src/components/admin/PlaybackControls.tsx:72-104 | from at least 10 s inside both ends, skipping forward then back returns to the start |
| `Controls.Press` | src/components/admin/PlaybackControls.tsx:72-112 | every control is disabled without a current video; the middle control pauses while playing and plays otherwise |
| `Controls.SkipsStayInside` | src/components/admin/PlaybackControls.tsx:72-104 | from a time inside the video both skips seek inside it |
| `Controls.ProgressClick` | src/components/admin/PlaybackControls.tsx:31-39 | without a current video a click calls no seek |
| `Controls.ProgressClickInside` | src/components/admin/PlaybackControls.tsx:34-38 | a click inside the bar seeks inside the video |
| `Decimal.NatToString` | src/components/admin/PlaybackControls.tsx:16 | `toString()` of a whole number: at least one digit, exactly one below 10 |
| `Decimal.IntToString` | src/components/admin/PlaybackControls.tsx:16 | `${mins}` and `secs.toString()` of an integer: a non-negative one is a digit string reading back as it, a negative one is `-` followed by digits reading back as its magnitude |
| `Decimal.ParseNatToString` | src/components/admin/PlaybackControls.tsx:16 | the rendering reads back as the number |
| `Decimal.PadStart2` | src/components/admin/PlaybackControls.tsx:16 | pads to two characters and keeps the string as a suffix |
| `Decimal.PadTwoDigits` | src/components/admin/PlaybackControls.tsx:16 | a number below 60 pads to two digits, the first at most 5, reading back as it |
| `Uploader.Classify` | src/components/admin/VideoUploader.tsx:23-29 | video exactly for a `video/` type, image for an `image/` type, refused otherwise |
| `Uploader.PrefixesDisjoint` | src/components/admin/VideoUploader.tsx:23-24 | no type is both, so the reported kind does not depend on the order of the tests |
| `Uploader.ExtensionUnique` | src/components/admin/VideoUploader.tsx:66 | the end-anchored pattern can match at one place at most |
| `Uploader.StripExtensionCharacterised` | src/components/admin/VideoUploader.tsx:66 | the title differs from the name exactly when the pattern matches, and is then the name cut at the match |
| `Uploader.StripExtension` | src/components/admin/VideoUploader.tsx:66 | `replace(/\.[^/.]+$/, '')`: the title is always a prefix of the name; StripExtensionCharacterised relates it to the pattern |
| `Uploader.StripLastExtensionOnly` | src/components/admin/VideoUploader.tsx:66 | `a.b.mp4` gives `a.b` |
| `Uploader.StripKeepsName` | src/components/admin/VideoUploader.tsx:66 | a name with no dot, a trailing dot, or a `/` after its last dot keeps its full name |
| `Uploader.DotFileEmptyTitle` | src/components/admin/VideoUploader.tsx:66 | a name that is only an extension gives an empty title |
| `Uploader.Describe` | src/components/admin/VideoUploader.tsx:45-71 | nothing for a refused type; otherwise the file, its size, the stripped title, the kind by MIME prefix, and duration 0 for images |
| `Uploader.ProgressAfterClosedForm` | src/components/admin/VideoUploader.tsx:35-43 | from 0 the counter reads 10 per firing until it stops at 100 |
| `Uploader.Tick` | src/components/admin/VideoUploader.tsx:36-42 | the updater: held at 100 from 100 up, otherwise 10 more |
| `Uploader.ProgressAfter` | src/components/admin/VideoUploader.tsx:35-43 | after any number of firings from 0 the counter is a multiple of 10 within 0..100 |
| `Uploader.SimulateProgress` | src/components/admin/VideoUploader.tsx:35-43 | n firings from 0 leave the counter at the smaller of 10n and 100 |
| `Uploader.TickKeepsProgress` | src/components/admin/VideoUploader.tsx:36-42 | a firing keeps the counter a multiple of 10 within 0..100 |
| `Uploader.VideoUploader.constructor` | src/components/admin/VideoUploader.tsx:10-11 | not uploading, progress 0 |
| `Uploader.VideoUploader.ProcessFile` | src/components/admin/VideoUploader.tsx:22-43 | a refused file only raises the alert; an accepted one starts uploading at 0 with the interval running |
| `Uploader.VideoUploader.IntervalFires` | src/components/admin/VideoUploader.tsx:35-43 | below 100 the counter rises by 10; at 100 it stays there and the interval stops |
| `Uploader.VideoUploader.TimeoutFires` | src/components/admin/VideoUploader.tsx:61-75 | the interval stops, `onUpload` receives the file's description, and the panel resets to not uploading at 0 |

## Left out

- Presence tracking in the realtime hook (src/hooks/useRealtimeSync.ts:63-87, 130-134), and with it that hook's `connectedDevices`. Presence is state kept by the foreign Supabase library.
- Delivery by the transports themselves: Supabase broadcast, `BroadcastChannel` and Socket.IO rooms. A send is an outbox entry; only the local router models what arrives.
- server/src/app/socket.ts and server/src/app/app.ts. The first is event wiring with an empty cleanup interval; the second holds stubbed routes.
- The pages and the list components. They are rendering only. The `formatDuration` and `formatTime` copies in the list and the player page are the same helper as `Controls.FormatTime`.
- Console output, the alert text, the drag highlight state, and `URL.revokeObjectURL`.
- JavaScript numbers are modelled as `real` (times) or `int` (timestamps, sizes). There is no NaN, no Infinity and no rounding; progress percentages are left out.
- `Date` objects are their millisecond value. The ISO-string round trip of `uploadedAt` is taken as the identity. `registerClient` calls `new Date()` twice; the model uses one `now` for both.
- Generated ids are parameters. This covers `Math.random` ids, `client-<ms>-<random>` and the headset number; the model does not bound the headset number to 0..99.
- Object aliasing. `updateLastSeen` mutates the shared record, so arrays returned earlier also see the new `lastSeen`. The model works on values, which also makes the copies from `getPlaybackState` and `getVideos` independent by construction.
- Payload validation: the hooks cast inbound payloads without checking them, and malformed payloads are not modelled. Fields the hooks never set (`thumbnail`, `type`) are `None`.
- Player.ApplySettles / Player.VideoPlayerSync.SyncEffect: the media element is reduced to its paused flag and position. An assignment to `currentTime` is taken to land exactly, with no clamping to 0..duration. The element does not move between runs of the effect: playback does not advance and the end of the media does not pause it. The within-tolerance clause of ApplySettles and the paused clauses of OutOfOrderPair rest on this.
- Player.VideoPlayerSync.SyncEffect: `play()` is taken to succeed. Its rejection path (promise `catch`) is not modelled.
- The player's `timeupdate` listener (src/components/VideoPlayer.tsx:60-70) and changes of the `url` prop are not modelled.
- Uploader.VideoUploader.ProcessFile: one upload at a time. A second accepted file replaces the pending one, and the timers of the first are not tracked separately.
- The metadata probe's wait (`onloadedmetadata`). Its result is the `probedDuration` parameter of `TimeoutFires`.

## Findings

| source | as written | input that shows it | evidently intended | confidence | as-written member | corrected member |
|---|---|---|---|---|---|---|
| src/hooks/useRealtimeSync.ts:112-120 | The `request-state` handler is created by the setup effect, which depends only on `isAdmin`. So it replies with the playback state of the render in which the effect ran, not the current one. | The admin mounts with nothing loaded at t=1000 and loads video `1` at t=2000. A viewer then joins and sends `request-state`. The reply says nothing is loaded. | Reply with the admin's current state, so that a joining viewer converges to it | high; not executed | `RealtimeSync.StaleReplyCounterexample` | `RealtimeSync.BootstrapConverges` |
