/** The pure updaters that both client hooks apply to their state cells:
    the spread-merge of a partial playback state (src/hooks/useRealtimeSync.ts:161-165,
    src/hooks/useSyncState.ts:105-109), the partial states of the five
    transport controls, `find` by id and `filter` by id over a list. */
module Updaters {
  import opened Types

  /** The key `find` and `filter` compare in the library. */
  function VideoId(v: Video): string { v.id }

  /** The two built-in library entries both hooks start with. */
  function DemoVideos(createdAt: int): seq<Video>
  {
    [ Video("1", "Demo VR Experience",
            "https://commondatastorage.googleapis.com/gtv-videos-bucket/sample/BigBuckBunny.mp4",
            None, 596.0, createdAt, 158008374, None),
      Video("2", "360° Ocean View",
            "https://commondatastorage.googleapis.com/gtv-videos-bucket/sample/ElephantsDream.mp4",
            None, 653.0, createdAt, 114984274, None) ]
  }

  /** `Partial<PlaybackState>` as the controls build it: each field is either
      given (`Some`) or left out (`None`). A given `videoId` may itself be
      `null` (`Some(None)`). The timestamp is always replaced, so it is not here. */
  datatype PartialState = PartialState(
    videoId: Option<Option<string>>,
    isPlaying: Option<bool>,
    currentTime: Option<real>)

  /** A field of the spread: the update's value when given, else the current one. */
  function Override<T>(current: T, update: Option<T>): (r: T)
    ensures update.Some? ==> r == update.value
    ensures update.None? ==> r == current
  {
    match update
    case Some(v) => v
    case None => current
  }

  /** `{ ...state, ...partial, timestamp: now }`. */
  function Merge(state: PlaybackState, partial: PartialState, now: int): (r: PlaybackState)
    ensures r.timestamp == now
    ensures partial == PartialState(None, None, None) ==> r == state.(timestamp := now)
  {
    PlaybackState(
      Override(state.videoId, partial.videoId),
      Override(state.isPlaying, partial.isPlaying),
      Override(state.currentTime, partial.currentTime),
      now)
  }

  // The partial updates sent by play, pause, seek, loadVideo and stop.
  function PlayPartial(): PartialState { PartialState(None, Some(true), None) }
  function PausePartial(): PartialState { PartialState(None, Some(false), None) }
  function SeekPartial(time: real): PartialState { PartialState(None, None, Some(time)) }
  function LoadPartial(videoId: string): PartialState { PartialState(Some(Some(videoId)), Some(false), Some(0.0)) }
  function StopPartial(): PartialState { PartialState(Some(None), Some(false), Some(0.0)) }

  /** Merging keeps every field the partial leaves out and takes every field it gives. */
  lemma MergeOverlays(state: PlaybackState, partial: PartialState, now: int)
    ensures var r := Merge(state, partial, now);
      && r.timestamp == now
      && (partial.videoId.None? ==> r.videoId == state.videoId)
      && (partial.videoId.Some? ==> r.videoId == partial.videoId.value)
      && (partial.isPlaying.None? ==> r.isPlaying == state.isPlaying)
      && (partial.isPlaying.Some? ==> r.isPlaying == partial.isPlaying.value)
      && (partial.currentTime.None? ==> r.currentTime == state.currentTime)
      && (partial.currentTime.Some? ==> r.currentTime == partial.currentTime.value)
  {
  }

  /** Merging the same partial twice is the same as merging it once (with the later clock). */
  lemma MergeIdempotent(state: PlaybackState, partial: PartialState, t1: int, t2: int)
    ensures Merge(Merge(state, partial, t1), partial, t2) == Merge(state, partial, t2)
  {
  }

  /** `list.find(x => idOf(x) === id)`: the first element with that id. */
  function FindById<T>(s: seq<T>, idOf: T -> string, id: string): (r: Option<T>)
    ensures r.None? <==> forall i :: 0 <= i < |s| ==> idOf(s[i]) != id
    ensures r.Some? ==> exists i :: 0 <= i < |s| && s[i] == r.value && idOf(s[i]) == id
                                  && forall j :: 0 <= j < i ==> idOf(s[j]) != id
    decreases |s|, 1
  {
    if s == [] then None
    else if idOf(s[0]) == id then Some(s[0])
    else
      FindByIdTail(s, idOf, id);
      FindById(s[1..], idOf, id)
  }

  /** The first match in the tail, shifted by one, is the first match in the
      whole list when the head does not match. */
  lemma FindByIdTail<T>(s: seq<T>, idOf: T -> string, id: string)
    requires s != [] && idOf(s[0]) != id
    ensures var r := FindById(s[1..], idOf, id);
      && (r.None? <==> forall i :: 0 <= i < |s| ==> idOf(s[i]) != id)
      && (r.Some? ==> exists i :: 0 <= i < |s| && s[i] == r.value && idOf(s[i]) == id
                                 && forall j :: 0 <= j < i ==> idOf(s[j]) != id)
    decreases |s|, 0
  {
    var t := s[1..];
    var r := FindById(t, idOf, id);
    if r.Some? {
      var k :| 0 <= k < |t| && t[k] == r.value && idOf(t[k]) == id && forall j :: 0 <= j < k ==> idOf(t[j]) != id;
      assert s[k + 1] == t[k];
      forall j | 0 <= j < k + 1 ensures idOf(s[j]) != id {
        if j > 0 { assert s[j] == t[j - 1]; }
      }
    } else {
      forall i | 0 <= i < |s| ensures idOf(s[i]) != id {
        if i > 0 { assert s[i] == t[i - 1]; }
      }
    }
  }

  /** `list.filter(x => idOf(x) !== id)`. */
  function WithoutId<T(!new)>(s: seq<T>, idOf: T -> string, id: string): (r: seq<T>)
    ensures forall x :: x in r <==> x in s && idOf(x) != id
    ensures forall x :: multiset(r)[x] == if idOf(x) == id then 0 else multiset(s)[x]
  {
    if s == [] then []
    else
      assert s == [s[0]] + s[1..];
      (if idOf(s[0]) == id then [] else [s[0]]) + WithoutId(s[1..], idOf, id)
  }

  lemma ConcatTail<T>(a: seq<T>, b: seq<T>)
    requires a != []
    ensures (a + b)[0] == a[0] && (a + b)[1..] == a[1..] + b
  {
  }

  lemma ConcatAssoc<T>(x: seq<T>, y: seq<T>, z: seq<T>)
    ensures x + (y + z) == (x + y) + z
  {
  }

  /** One step of the filter. */
  lemma WithoutIdHead<T(!new)>(s: seq<T>, idOf: T -> string, id: string)
    requires s != []
    ensures WithoutId(s, idOf, id) == (if idOf(s[0]) == id then [] else [s[0]]) + WithoutId(s[1..], idOf, id)
  {
  }

  /** Filtering distributes over concatenation, so the kept elements stay in their order. */
  lemma {:induction false} WithoutIdConcat<T(!new)>(a: seq<T>, b: seq<T>, idOf: T -> string, id: string)
    ensures WithoutId(a + b, idOf, id) == WithoutId(a, idOf, id) + WithoutId(b, idOf, id)
  {
    if a == [] {
      assert a + b == b;
    } else {
      var head := if idOf(a[0]) == id then [] else [a[0]];
      var ra, rb := WithoutId(a[1..], idOf, id), WithoutId(b, idOf, id);
      ConcatTail(a, b);
      WithoutIdHead(a + b, idOf, id);
      WithoutIdHead(a, idOf, id);
      WithoutIdConcat(a[1..], b, idOf, id);
      ConcatAssoc(head, ra, rb);
    }
  }

  /** Filtering by an id that no element carries changes nothing. */
  lemma {:induction false} WithoutAbsentId<T(!new)>(s: seq<T>, idOf: T -> string, id: string)
    requires forall i :: 0 <= i < |s| ==> idOf(s[i]) != id
    ensures WithoutId(s, idOf, id) == s
  {
    if s != [] {
      WithoutAbsentId(s[1..], idOf, id);
    }
  }

  /** Filtering the same id twice is filtering it once. */
  lemma WithoutIdIdempotent<T(!new)>(s: seq<T>, idOf: T -> string, id: string)
    ensures WithoutId(WithoutId(s, idOf, id), idOf, id) == WithoutId(s, idOf, id)
  {
    var r := WithoutId(s, idOf, id);
    forall i | 0 <= i < |r| ensures idOf(r[i]) != id {
      assert r[i] in r;
    }
    WithoutAbsentId(r, idOf, id);
  }

  /** No two elements share an id. */
  ghost predicate UniqueIds<T>(s: seq<T>, idOf: T -> string)
  {
    forall i, j :: 0 <= i < j < |s| ==> idOf(s[i]) != idOf(s[j])
  }

  /** `prev.find(x => x.id === item.id) ? prev : [...prev, item]`. */
  function AppendIfAbsent<T>(s: seq<T>, idOf: T -> string, item: T): (r: seq<T>)
    ensures r == s || r == s + [item]
    ensures exists i :: 0 <= i < |r| && idOf(r[i]) == idOf(item)
  {
    if FindById(s, idOf, idOf(item)).Some? then s
    else
      assert (s + [item])[|s|] == item;
      s + [item]
  }

  /** An item whose id is present leaves the list alone; otherwise it is appended at the end. */
  lemma AppendIfAbsentCases<T>(s: seq<T>, idOf: T -> string, item: T)
    ensures (exists i :: 0 <= i < |s| && idOf(s[i]) == idOf(item)) ==> AppendIfAbsent(s, idOf, item) == s
    ensures (forall i :: 0 <= i < |s| ==> idOf(s[i]) != idOf(item)) ==> AppendIfAbsent(s, idOf, item) == s + [item]
  {
  }

  /** Applying the same insertion twice is applying it once. */
  lemma AppendIfAbsentIdempotent<T>(s: seq<T>, idOf: T -> string, item: T)
    ensures AppendIfAbsent(AppendIfAbsent(s, idOf, item), idOf, item) == AppendIfAbsent(s, idOf, item)
  {
    var r := AppendIfAbsent(s, idOf, item);
    assert r[|r| - 1] == item || FindById(s, idOf, idOf(item)).Some?;
    if FindById(s, idOf, idOf(item)).None? {
      assert idOf(r[|r| - 1]) == idOf(item);
    }
  }

  /** Insertion by id keeps ids unique. */
  lemma AppendIfAbsentKeepsUnique<T>(s: seq<T>, idOf: T -> string, item: T)
    requires UniqueIds(s, idOf)
    ensures UniqueIds(AppendIfAbsent(s, idOf, item), idOf)
  {
  }
}
