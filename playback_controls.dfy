/** The admin's transport panel (src/components/admin/PlaybackControls.tsx):
    the `m:ss` time label, the ±10 s skips and the guards that disable every
    control while no video is selected. Rendering is left out; what a press or a
    click on the seek bar would call is returned as an `Action`. */
module Controls {
  import opened Types
  import Decimal

  /** `Math.trunc`. */
  function Trunc(x: real): (r: int)
    ensures x >= 0.0 ==> r == x.Floor
    ensures x < 0.0 ==> r == -((-x).Floor)
  {
    if x >= 0.0 then x.Floor else -((-x).Floor)
  }

  /** JavaScript's `a % b`: the remainder takes the sign of `a`. */
  function JsRem(a: real, b: real): real
    requires b != 0.0
  {
    a - b * (Trunc(a / b) as real)
  }

  /** `Math.floor(seconds / 60)`. */
  function Minutes(seconds: real): int
  {
    (seconds / 60.0).Floor
  }

  /** `Math.floor(seconds % 60)`. */
  function Seconds(seconds: real): int
  {
    JsRem(seconds, 60.0).Floor
  }

  /** `formatTime`: minutes, a colon, and the seconds padded to two characters. */
  function FormatTime(seconds: real): (text: string)
    ensures |text| >= 4 && ':' in text
  {
    Decimal.IntToString(Minutes(seconds)) + ":" + Decimal.PadStart2(Decimal.IntToString(Seconds(seconds)))
  }

  /** Reads an `m:ss` clock back into whole seconds. */
  function ParseClock(clock: string): Option<int>
  {
    if |clock| >= 4 && clock[|clock| - 3] == ':'
       && Decimal.AllDigits(clock[..|clock| - 3]) && Decimal.AllDigits(clock[|clock| - 2..])
    then Some(Decimal.ParseDigits(clock[..|clock| - 3]) * 60 + Decimal.ParseDigits(clock[|clock| - 2..]))
    else None
  }

  lemma FloorShift(x: real, k: int)
    ensures (x - k as real).Floor == x.Floor - k
  {
  }

  /** For a non-negative time the seconds field lies in 0..59 and, with the
      minutes, makes up the whole seconds elapsed. */
  lemma ClockFields(seconds: real)
    requires seconds >= 0.0
    ensures Minutes(seconds) >= 0
    ensures 0 <= Seconds(seconds) <= 59
    ensures Minutes(seconds) * 60 + Seconds(seconds) == seconds.Floor
  {
    var q := Minutes(seconds);
    assert q as real <= seconds / 60.0 < q as real + 1.0;
    assert 60.0 * (q as real) <= seconds < 60.0 * (q as real) + 60.0;
    assert Trunc(seconds / 60.0) == q;
    var rem := seconds - 60.0 * (q as real);
    assert JsRem(seconds, 60.0) == rem;
    assert 0.0 <= rem < 60.0;
    FloorShift(seconds, 60 * q);
    assert rem == seconds - (60 * q) as real;
  }

  /** A colon between a run of digits and two digits is read field by field. */
  lemma ParseClockFields(ms: string, ss: string, mins: nat, secs: nat)
    requires |ms| >= 1 && Decimal.AllDigits(ms) && |ss| == 2 && Decimal.AllDigits(ss) && Decimal.DigitValue(ss[0]) <= 5
    requires Decimal.ParseDigits(ms) == mins && Decimal.ParseDigits(ss) == secs
    ensures var clock := ms + ":" + ss;
      && |clock| >= 4 && clock[|clock| - 3] == ':'
      && Decimal.AllDigits(clock[|clock| - 2..]) && Decimal.DigitValue(clock[|clock| - 2]) <= 5
      && ParseClock(clock) == Some(mins * 60 + secs)
  {
    var clock := ms + ":" + ss;
    assert clock[..|clock| - 3] == ms;
    assert clock[|clock| - 2..] == ss;
    assert clock[|clock| - 2] == ss[0];
  }

  /** The text of `m` minutes and `sec` seconds reads back as their total. */
  lemma ClockTextRoundTrip(m: nat, sec: nat)
    requires sec < 60
    ensures var clock := Decimal.NatToString(m) + ":" + Decimal.PadStart2(Decimal.NatToString(sec));
      && |clock| >= 4 && clock[|clock| - 3] == ':'
      && Decimal.AllDigits(clock[|clock| - 2..]) && Decimal.DigitValue(clock[|clock| - 2]) <= 5
      && ParseClock(clock) == Some(m * 60 + sec)
  {
    Decimal.PadTwoDigits(sec);
    Decimal.ParseNatToString(m);
    ParseClockFields(Decimal.NatToString(m), Decimal.PadStart2(Decimal.NatToString(sec)), m, sec);
  }

  /** The label built from `m` and `sec` as `formatTime` builds it. */
  lemma IntClockText(m: int, sec: int)
    requires 0 <= m && 0 <= sec < 60
    ensures var clock := Decimal.IntToString(m) + ":" + Decimal.PadStart2(Decimal.IntToString(sec));
      && |clock| >= 4 && clock[|clock| - 3] == ':'
      && Decimal.AllDigits(clock[|clock| - 2..]) && Decimal.DigitValue(clock[|clock| - 2]) <= 5
      && ParseClock(clock) == Some(m * 60 + sec)
  {
    Decimal.IntToStringNat(m);
    Decimal.IntToStringNat(sec);
    ClockTextRoundTrip(m, sec);
  }

  /** For a non-negative time the label's last two characters are digits
      reading 00..59 after a colon, and the whole label reads back as the
      whole seconds elapsed. */
  lemma FormatTimeRoundTrip(seconds: real)
    requires seconds >= 0.0
    ensures var text := FormatTime(seconds);
      && |text| >= 4 && text[|text| - 3] == ':'
      && Decimal.AllDigits(text[|text| - 2..]) && Decimal.DigitValue(text[|text| - 2]) <= 5
      && ParseClock(text) == Some(seconds.Floor)
  {
    ClockFields(seconds);
    IntClockText(Minutes(seconds), Seconds(seconds));
  }

  /** A negative time is rendered field by field with its sign: -5 s reads
      `-1:-5`. */
  lemma NegativeTimeLabel()
    ensures FormatTime(-5.0) == "-1:-5"
  {
    assert Minutes(-5.0) == -1;
    assert Trunc(-5.0 / 60.0) == 0;
    assert Seconds(-5.0) == -5;
    assert Decimal.NatToString(1) == "1";
    assert Decimal.NatToString(5) == "5";
  }

  /** Skip back: ten seconds earlier, but never before 0. */
  function SkipBack(currentTime: real): (t: real)
    ensures t >= 0.0 && t >= currentTime - 10.0
    ensures currentTime >= 10.0 ==> t == currentTime - 10.0
    ensures currentTime < 10.0 ==> t == 0.0
  {
    if 0.0 > currentTime - 10.0 then 0.0 else currentTime - 10.0
  }

  /** Skip forward: ten seconds later, but never past the selected video's
      duration; nothing without a video. */
  function SkipForward(currentVideo: Option<Video>, currentTime: real): (t: Option<real>)
    ensures t.Some? <==> currentVideo.Some?
    ensures t.Some? ==> t.value <= currentVideo.value.duration && t.value <= currentTime + 10.0
    ensures t.Some? ==> t.value == currentVideo.value.duration || t.value == currentTime + 10.0
  {
    if currentVideo.None? then None
    else
      var d := currentVideo.value.duration;
      Some(if d < currentTime + 10.0 then d else currentTime + 10.0)
  }

  /** Skipping forward then back from well inside the video returns to the
      starting time. */
  lemma SkipRoundTrip(v: Video, t: real)
    requires t >= 10.0 && t + 10.0 <= v.duration
    ensures SkipBack(SkipForward(Some(v), t).value) == t
  {
  }

  datatype Control = SkipBackControl | PlayPauseControl | SkipForwardControl | StopControl

  /** The callback a control invokes. */
  datatype Action = SeekAction(time: real) | PlayAction | PauseAction | StopAction

  /** Pressing a control: every control is disabled while no video is
      selected; the middle control pauses while playing and plays otherwise. */
  function Press(c: Control, state: PlaybackState, currentVideo: Option<Video>): (a: Option<Action>)
    ensures a.None? <==> currentVideo.None?
    ensures a.Some? && c == PlayPauseControl ==> a.value == if state.isPlaying then PauseAction else PlayAction
    ensures a.Some? && c == StopControl ==> a.value == StopAction
    ensures a.Some? && c == SkipBackControl ==> a.value == SeekAction(SkipBack(state.currentTime))
    ensures a.Some? && c == SkipForwardControl ==> a.value == SeekAction(SkipForward(currentVideo, state.currentTime).value)
  {
    if currentVideo.None? then None
    else
      match c
      case SkipBackControl => Some(SeekAction(SkipBack(state.currentTime)))
      case PlayPauseControl => Some(if state.isPlaying then PauseAction else PlayAction)
      case SkipForwardControl => Some(SeekAction(SkipForward(currentVideo, state.currentTime).value))
      case StopControl => Some(StopAction)
  }

  /** From a time inside the video, both skips seek to a time inside it. */
  lemma SkipsStayInside(state: PlaybackState, v: Video, c: Control)
    requires 0.0 <= state.currentTime <= v.duration
    requires c == SkipBackControl || c == SkipForwardControl
    ensures Press(c, state, Some(v)).value.SeekAction?
    ensures 0.0 <= Press(c, state, Some(v)).value.time <= v.duration
  {
  }

  /** A click on the seek bar at `fraction` of its width: no seek without a
      video, otherwise that fraction of the duration. */
  function ProgressClick(currentVideo: Option<Video>, fraction: real): (a: Option<Action>)
    ensures a.None? <==> currentVideo.None?
    ensures a.Some? ==> a.value.SeekAction?
  {
    if currentVideo.None? then None else Some(SeekAction(fraction * currentVideo.value.duration))
  }

  /** A click inside the bar seeks inside the video. */
  lemma ProgressClickInside(v: Video, fraction: real)
    requires 0.0 <= fraction <= 1.0 && v.duration >= 0.0
    ensures 0.0 <= ProgressClick(Some(v), fraction).value.time <= v.duration
  {
    assert fraction * v.duration <= 1.0 * v.duration;
  }
}
