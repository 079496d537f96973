/** The sync effect of the media player (src/components/VideoPlayer.tsx): a
    viewer applies a playback state only when it is newer than the last one it
    applied (`lastSyncTime`), then makes the element's paused flag follow
    `isPlaying` and reseeks when it drifted by more than half a second. The
    media element is reduced to its `paused` flag and its `currentTime`. */
module Player {
  import opened Types

  /** The calls the effect makes on the media element. */
  datatype Command = PlayCommand | PauseCommand | NoCommand

  /** What one run of the effect does with a state. */
  datatype Decision = Skip | Apply(command: Command, seekTo: Option<real>)

  /** The element and the `lastSyncTime` ref, as the effect sees them. */
  datatype Viewer = Viewer(hasElement: bool, lastSyncTime: int, paused: bool, position: real)

  function Abs(x: real): (r: real)
    ensures r >= 0.0 && (r == x || r == -x)
  {
    if x < 0.0 then -x else x
  }

  /** The seek tolerance, in seconds. */
  const Tolerance: real := 0.5

  /** The effect's decision for an element in the given condition. */
  function Decide(isAdmin: bool, lastSyncTime: int, paused: bool, position: real, s: PlaybackState): (d: Decision)
    ensures d.Skip? <==> !isAdmin && s.timestamp <= lastSyncTime
    ensures d.Apply? ==> (d.command == PlayCommand <==> s.isPlaying && paused)
    ensures d.Apply? ==> (d.command == PauseCommand <==> !s.isPlaying && !paused)
    ensures d.Apply? ==> (d.seekTo.Some? <==> !isAdmin && Abs(position - s.currentTime) > Tolerance)
    ensures d.Apply? && d.seekTo.Some? ==> d.seekTo.value == s.currentTime
  {
    if s.timestamp <= lastSyncTime && !isAdmin then Skip
    else
      var command := if s.isPlaying && paused then PlayCommand
                     else if !s.isPlaying && !paused then PauseCommand
                     else NoCommand;
      var seekTo := if !isAdmin && Abs(position - s.currentTime) > Tolerance then Some(s.currentTime) else None;
      Apply(command, seekTo)
  }

  /** The element and ref after one run of the effect; `play()` is taken to succeed. */
  function Step(isAdmin: bool, v: Viewer, s: PlaybackState): (w: Viewer)
    ensures w.hasElement == v.hasElement
    ensures !v.hasElement ==> w == v
    ensures w.lastSyncTime == v.lastSyncTime || w.lastSyncTime == s.timestamp
    ensures !isAdmin ==> w.lastSyncTime >= v.lastSyncTime
  {
    if !v.hasElement then v
    else
      match Decide(isAdmin, v.lastSyncTime, v.paused, v.position, s)
      case Skip => v
      case Apply(command, seekTo) =>
        Viewer(true, s.timestamp,
               if command == PlayCommand then false else if command == PauseCommand then true else v.paused,
               if seekTo.Some? then seekTo.value else v.position)
  }

  /** The effect over a run of rendered states, in order. */
  function Run(isAdmin: bool, v: Viewer, states: seq<PlaybackState>): (w: Viewer)
    ensures w.hasElement == v.hasElement
    ensures !v.hasElement ==> w == v
    decreases |states|
  {
    if states == [] then v else Run(isAdmin, Step(isAdmin, v, states[0]), states[1..])
  }

  /** The largest of `m` and the timestamps in `states`. */
  function MaxStamp(m: int, states: seq<PlaybackState>): (r: int)
    ensures r >= m
    ensures forall i :: 0 <= i < |states| ==> states[i].timestamp <= r
    ensures r == m || exists i :: 0 <= i < |states| && states[i].timestamp == r
    decreases |states|
  {
    if states == [] then m
    else
      var h := if states[0].timestamp > m then states[0].timestamp else m;
      var r := MaxStamp(h, states[1..]);
      assert forall i :: 1 <= i < |states| ==> states[i].timestamp == states[1..][i - 1].timestamp;
      r
  }

  /** An applied state leaves the element's paused flag opposite to `isPlaying`
      and the ref at the state's timestamp; a viewer's position is then within
      the tolerance of the state's. */
  lemma ApplySettles(isAdmin: bool, v: Viewer, s: PlaybackState)
    requires v.hasElement && (isAdmin || s.timestamp > v.lastSyncTime)
    ensures var w := Step(isAdmin, v, s);
      && w.lastSyncTime == s.timestamp
      && w.paused == !s.isPlaying
      && (!isAdmin ==> Abs(w.position - s.currentTime) <= Tolerance)
      && (isAdmin ==> w.position == v.position)
  {
  }

  /** A viewer skips, untouched, a state no newer than the last one applied. */
  lemma StaleSkipped(v: Viewer, s: PlaybackState)
    requires s.timestamp <= v.lastSyncTime
    ensures Step(false, v, s) == v
  {
  }

  /** The admin never skips a state and never reseeks. */
  lemma AdminNeverSkips(lastSyncTime: int, paused: bool, position: real, s: PlaybackState)
    ensures Decide(true, lastSyncTime, paused, position, s).Apply?
    ensures Decide(true, lastSyncTime, paused, position, s).seekTo == None
  {
  }

  /** A viewer's `lastSyncTime` never decreases. */
  lemma {:induction false} ViewerRunMonotone(v: Viewer, states: seq<PlaybackState>)
    ensures Run(false, v, states).lastSyncTime >= v.lastSyncTime
    decreases |states|
  {
    if states != [] {
      ViewerRunMonotone(Step(false, v, states[0]), states[1..]);
    }
  }

  /** With an element present, a viewer's `lastSyncTime` ends at the newest
      timestamp it has seen, or where it started if nothing was newer. */
  lemma {:induction false} ViewerRunReachesMax(v: Viewer, states: seq<PlaybackState>)
    requires v.hasElement
    ensures Run(false, v, states).lastSyncTime == MaxStamp(v.lastSyncTime, states)
    ensures Run(false, v, states).hasElement
    decreases |states|
  {
    if states != [] {
      ViewerRunReachesMax(Step(false, v, states[0]), states[1..]);
    }
  }

  /** A late state older than one already applied changes nothing on a viewer:
      it never overrides the newer one. */
  lemma LateStateIgnored(v: Viewer, newer: PlaybackState, older: PlaybackState)
    requires v.hasElement && newer.timestamp > v.lastSyncTime
    requires older.timestamp <= newer.timestamp
    ensures Step(false, Step(false, v, newer), older) == Step(false, v, newer)
  {
  }

  /** A viewer that saw states out of order ends with the element set up as the
      newest state demands, whatever order they arrived in. */
  lemma OutOfOrderPair(v: Viewer, a: PlaybackState, b: PlaybackState)
    requires v.hasElement && v.lastSyncTime < a.timestamp < b.timestamp
    ensures Run(false, v, [b, a]) == Step(false, v, b)
    ensures Run(false, v, [a, b]).lastSyncTime == Run(false, v, [b, a]).lastSyncTime == b.timestamp
    ensures Run(false, v, [a, b]).paused == Run(false, v, [b, a]).paused == !b.isPlaying
  {
    var vb := Step(false, v, b);
    var va := Step(false, v, a);
    assert [b, a][1..] == [a] && [a][1..] == [];
    assert [a, b][1..] == [b] && [b][1..] == [];
    assert Run(false, v, [b, a]) == Run(false, vb, [a]) == Step(false, vb, a);
    assert Run(false, v, [a, b]) == Run(false, va, [b]) == Step(false, va, b);
    LateStateIgnored(v, b, a);
    ApplySettles(false, va, b);
    ApplySettles(false, v, b);
  }

  /** The component's element and ref; `issued` records the `play()` and
      `pause()` calls the effect makes. */
  class VideoPlayerSync {
    const isAdmin: bool
    var hasElement: bool
    var lastSyncTime: int
    var paused: bool
    var position: real
    var issued: seq<Command>

    function State(): Viewer
      reads this
    {
      Viewer(hasElement, lastSyncTime, paused, position)
    }

    /** Mounting: the ref starts at 0 and a fresh element, if one was rendered,
        is paused at 0. */
    constructor (isAdmin: bool, hasElement: bool)
      ensures this.isAdmin == isAdmin
      ensures State() == Viewer(hasElement, 0, true, 0.0) && issued == []
    {
      this.isAdmin := isAdmin;
      this.hasElement := hasElement;
      lastSyncTime := 0;
      paused := true;
      position := 0.0;
      issued := [];
    }

    /** One run of the sync effect for the rendered state `s`. */
    method SyncEffect(s: PlaybackState)
      modifies this
      ensures State() == Step(isAdmin, old(State()), s)
      ensures var d := Decide(isAdmin, old(lastSyncTime), old(paused), old(position), s);
        issued == if old(hasElement) && d.Apply? && d.command != NoCommand
                  then old(issued) + [d.command] else old(issued)
    {
      if !hasElement {
        return;
      }
      if s.timestamp <= lastSyncTime && !isAdmin {
        return;
      }
      lastSyncTime := s.timestamp;
      if s.isPlaying && paused {
        paused := false;
        issued := issued + [PlayCommand];
      } else if !s.isPlaying && !paused {
        paused := true;
        issued := issued + [PauseCommand];
      }
      if !isAdmin {
        var timeDiff := Abs(position - s.currentTime);
        if timeDiff > Tolerance {
          position := s.currentTime;
        }
      }
    }

    /** The imperative handle's `seek`: sets the element's time when there is one. */
    method Seek(time: real)
      modifies this
      ensures position == if old(hasElement) then time else old(position)
      ensures hasElement == old(hasElement) && lastSyncTime == old(lastSyncTime)
      ensures paused == old(paused) && issued == old(issued)
    {
      if hasElement {
        position := time;
      }
    }

    /** The imperative handle's `getCurrentTime`: 0 without an element. */
    method GetCurrentTime() returns (t: real)
      ensures t == if hasElement then position else 0.0
    {
      t := if hasElement then position else 0.0;
    }
  }
}
