/** The per-display-list controller set up by `setupForDisplayList`: the
    frame-playback state machine (play, pause, timed steps under the wrap,
    ping-pong and stop loop modes, step and jump buttons, the frame slider),
    the annotation overlay decision, the text toggle and the group toggle
    buttons.  Widgets are reduced to the values they hold; the animation
    callback becomes an explicit `Tick` with the callback's time stamp. */
module Playback {
  import opened Wrappers
  import opened Schema
  import opened SceneViewer

  /** The three loop modes of the loop selector. */
  datatype LoopMode = Wrap | PingPong | Stop

  /** `getFps`: `parsed` is `parseInt(speed, 10)`, `None` when that is NaN
      or infinite; anything but a positive integer falls back to 30. */
  function GetFps(parsed: Option<int>): (fps: int)
    ensures fps > 0
    ensures parsed.Some? && parsed.value > 0 ==> fps == parsed.value
    ensures !(parsed.Some? && parsed.value > 0) ==> fps == 30
  {
    if parsed.Some? && parsed.value > 0 then parsed.value else 30
  }

  /** `getLoopMode`: `pingpong` and `stop` select those modes, every other
      value selects wrap. */
  function GetLoopMode(value: string): (m: LoopMode)
    ensures m == PingPong <==> value == "pingpong"
    ensures m == Stop <==> value == "stop"
  {
    if value == "pingpong" then PingPong else if value == "stop" then Stop else Wrap
  }

  /** The distance between two frame indices. */
  function Dist(a: int, b: int): nat
  {
    if a < b then b - a else a - b
  }

  /** `clampFrame`: 0 when there are no frames; otherwise the valid index
      nearest to `idx`, which is `idx` itself when it is valid. */
  function ClampFrame(idx: int, frameCount: int): (r: int)
    ensures frameCount <= 0 ==> r == 0
    ensures frameCount > 0 ==> 0 <= r < frameCount
    ensures frameCount > 0 && 0 <= idx < frameCount ==> r == idx
    ensures forall j :: 0 <= j < frameCount ==> Dist(idx, r) <= Dist(idx, j)
  {
    if frameCount <= 0 then 0
    else if idx < 0 then 0
    else if idx >= frameCount then frameCount - 1
    else idx
  }

  /** The outcome of one committed playback step: go on to `next` with the
      given direction, or stop at the `boundary` frame. */
  datatype StepOutcome = Advance(next: int, direction: int) | Halt(boundary: int)

  /** The body of `step` once the frame duration has elapsed: the next
      index `current + direction` resolved by the loop mode. */
  function ResolveStep(mode: LoopMode, current: int, direction: int, frameCount: int): (r: StepOutcome)
    ensures r.Halt? <==> mode == Stop && !(0 <= current + direction < frameCount)
    ensures r.Halt? ==> r.boundary == (if current + direction >= frameCount then frameCount - 1 else 0)
    ensures 0 <= current + direction < frameCount ==> r == Advance(current + direction, direction)
    ensures r.Advance? && r.direction != direction ==> mode == PingPong
  {
    var next := current + direction;
    match mode
    case Wrap =>
      var n1 := if next >= frameCount then 0 else next;
      Advance(if n1 < 0 then frameCount - 1 else n1, direction)
    case PingPong =>
      if next >= frameCount then Advance(if frameCount - 2 >= 0 then frameCount - 2 else 0, -1)
      else if next < 0 then Advance(if frameCount > 1 then 1 else 0, 1)
      else Advance(next, direction)
    case Stop =>
      if next >= frameCount then Halt(frameCount - 1)
      else if next < 0 then Halt(0)
      else Advance(next, direction)
  }

  /** Wrap mode never stops or turns: passing the end lands on the first
      frame, passing the start on the last. */
  lemma WrapStep(current: int, direction: int, frameCount: int)
    requires frameCount >= 1
    ensures var s := ResolveStep(Wrap, current, direction, frameCount);
      && s.Advance? && s.direction == direction
      && (current + direction >= frameCount ==> s.next == 0)
      && (current + direction < 0 ==> s.next == frameCount - 1)
      && (0 <= current + direction < frameCount ==> s.next == current + direction)
  {
  }

  /** Ping-pong mode turns at either end: passing the end turns backwards
      onto `frameCount - 2` (0 with one frame), passing the start turns
      forwards onto 1 (0 with one frame). */
  lemma PingPongStep(current: int, direction: int, frameCount: int)
    requires frameCount >= 1
    ensures var s := ResolveStep(PingPong, current, direction, frameCount);
      && s.Advance?
      && (current + direction >= frameCount ==>
            s.direction == -1 && s.next == (if frameCount == 1 then 0 else frameCount - 2))
      && (current + direction < 0 ==>
            s.direction == 1 && s.next == (if frameCount == 1 then 0 else 1))
      && (0 <= current + direction < frameCount ==> s == Advance(current + direction, direction))
  {
  }

  /** Stop mode halts on the boundary frame when a step would pass either end. */
  lemma StopStep(current: int, direction: int, frameCount: int)
    requires frameCount >= 1
    ensures var s := ResolveStep(Stop, current, direction, frameCount);
      && (current + direction >= frameCount ==> s == Halt(frameCount - 1))
      && (current + direction < 0 ==> s == Halt(0))
      && (0 <= current + direction < frameCount <==> s == Advance(current + direction, direction))
  {
  }

  /** From a valid frame with direction +1 or -1, a step lands on a valid
      frame and keeps the direction +1 or -1, in every mode. */
  lemma StepStaysInRange(mode: LoopMode, current: int, direction: int, frameCount: int)
    requires 0 <= current < frameCount
    requires direction == 1 || direction == -1
    ensures match ResolveStep(mode, current, direction, frameCount)
      case Advance(next, d) => 0 <= next < frameCount && (d == 1 || d == -1)
      case Halt(b) => 0 <= b < frameCount
  {
  }

  /** Three frames, at the last one, moving forwards: wrap goes to 0,
      ping-pong turns onto 1, stop halts on 2. */
  lemma ThreeFrameExamples()
    ensures ResolveStep(Wrap, 2, 1, 3) == Advance(0, 1)
    ensures ResolveStep(PingPong, 2, 1, 3) == Advance(1, -1)
    ensures ResolveStep(Stop, 2, 1, 3) == Halt(2)
  {
  }

  /** `time - lastTime >= 1000 / fps`: a frame duration has elapsed. */
  predicate Due(time: real, lastTime: real, fps: int)
    requires fps > 0
  {
    time - lastTime >= 1000.0 / (fps as real)
  }

  /** The threshold without division: elapsed milliseconds times frames per
      second reach one thousand. */
  lemma DueWithoutDivision(time: real, lastTime: real, fps: int)
    requires fps > 0
    ensures Due(time, lastTime, fps) <==> (time - lastTime) * (fps as real) >= 1000.0
  {
    var d, f := time - lastTime, fps as real;
    assert (1000.0 / f) * f == 1000.0;
    if d >= 1000.0 / f {
      assert d * f >= (1000.0 / f) * f;
    } else {
      assert d * f < (1000.0 / f) * f;
    }
  }

  // ----- The annotation overlay -----

  /** The characters `String.prototype.trim` removes: white space and line
      terminators. */
  predicate IsJsSpace(c: char)
  {
    || c == '\t' || c == '\n' || c == '\U{000B}' || c == '\U{000C}' || c == '\r' || c == ' '
    || c == '\U{00A0}' || c == '\U{1680}' || ('\U{2000}' <= c <= '\U{200A}')
    || c == '\U{2028}' || c == '\U{2029}' || c == '\U{202F}' || c == '\U{205F}'
    || c == '\U{3000}' || c == '\U{FEFF}'
  }

  function TrimStart(s: string): string
  {
    if s != [] && IsJsSpace(s[0]) then TrimStart(s[1..]) else s
  }

  function TrimEnd(s: string): string
  {
    if s != [] && IsJsSpace(s[|s| - 1]) then TrimEnd(s[..|s| - 1]) else s
  }

  /** `s.trim()`. */
  function Trim(s: string): string
  {
    TrimEnd(TrimStart(s))
  }

  /** The string has a character other than white space. */
  predicate HasNonSpace(s: string)
  {
    exists i :: 0 <= i < |s| && !IsJsSpace(s[i])
  }

  lemma {:induction false} TrimStartBlank(s: string)
    ensures TrimStart(s) == "" <==> !HasNonSpace(s)
    ensures TrimStart(s) != "" ==> !IsJsSpace(TrimStart(s)[0])
    decreases |s|
  {
    if s != [] && IsJsSpace(s[0]) {
      TrimStartBlank(s[1..]);
      if HasNonSpace(s) {
        var i :| 0 <= i < |s| && !IsJsSpace(s[i]);
        assert s[1..][i - 1] == s[i];
      }
      if HasNonSpace(s[1..]) {
        var i :| 0 <= i < |s[1..]| && !IsJsSpace(s[1..][i]);
        assert s[i + 1] == s[1..][i];
      }
    } else if s != [] {
      assert !IsJsSpace(s[0]);
    }
  }

  lemma {:induction false} TrimEndKeepsNonBlank(s: string)
    requires s != [] && !IsJsSpace(s[0])
    ensures TrimEnd(s) != ""
    decreases |s|
  {
    if IsJsSpace(s[|s| - 1]) {
      TrimEndKeepsNonBlank(s[..|s| - 1]);
    }
  }

  lemma {:induction false} TrimEndOfBlank(s: string)
    requires !HasNonSpace(s)
    ensures TrimEnd(s) == ""
    decreases |s|
  {
    if s != [] {
      assert IsJsSpace(s[|s| - 1]);
      TrimEndOfBlank(s[..|s| - 1]);
    }
  }

  /** `s.trim() === ''` exactly when every character of `s` is white space. */
  lemma TrimEmptyIffBlank(s: string)
    ensures Trim(s) == "" <==> !HasNonSpace(s)
  {
    TrimStartBlank(s);
    if TrimStart(s) != "" {
      TrimEndKeepsNonBlank(TrimStart(s));
    } else {
      TrimEndOfBlank(TrimStart(s));
    }
  }

  /** `refreshFrameText`: the overlay's text, or `None` while it is hidden. */
  function Overlay(frames: seq<Frame>, current: int, textVisible: bool): (r: Option<string>)
    ensures r.Some? ==> textVisible && 0 <= current < |frames| && r == frames[current].annotation
    ensures r.Some? ==> Trim(r.value) != ""
    ensures !textVisible ==> r.None?
  {
    var text := if 0 <= current < |frames| then frames[current].annotation else None;
    if !textVisible || text.None? || text.value == "" || Trim(text.value) == "" then None else text
  }

  /** The overlay shows the current frame's annotation exactly when text is
      switched on and the annotation has a character that is not white space. */
  lemma OverlayShownIff(frames: seq<Frame>, current: int, textVisible: bool)
    ensures Overlay(frames, current, textVisible) ==
      if textVisible && 0 <= current < |frames| && frames[current].annotation.Some?
         && HasNonSpace(frames[current].annotation.value)
      then frames[current].annotation else None
  {
    if 0 <= current < |frames| && frames[current].annotation.Some? {
      TrimEmptyIffBlank(frames[current].annotation.value);
    }
  }

  // ----- The session -----

  /** The state of one `setupForDisplayList` call: the viewer it created,
      the frames, the playback variables, the text toggle, the overlay and
      the group toggle record.  `pending` stands for `animId !== null`. */
  class Session {
    const viewer: Viewer
    const frames: seq<Frame>
    const frameCount: nat
    var visibilityState: map<string, bool>
    var textVisible: bool
    var currentFrame: int
    var isPlaying: bool
    var direction: int
    var pending: bool
    var lastTime: real
    var overlay: Option<string>

    /** The invariants that hold between any two statements. */
    ghost predicate Ready()
      reads this, viewer
    {
      && viewer.Valid()
      && viewer.displayList.frames == frames
      && frameCount == |frames|
      && visibilityState == viewer.groupVisibility
      && (direction == 1 || direction == -1)
      && pending == isPlaying
      && (isPlaying ==> frameCount > 0)
    }

    /** Between events, in addition: the current frame is a valid index (0
        when there are none), it is the frame the viewer has attached, and
        the overlay shows what `refreshFrameText` decides for it. */
    ghost predicate Valid()
      reads this, viewer
    {
      && Ready()
      && 0 <= currentFrame && (frameCount > 0 ==> currentFrame < frameCount) && (frameCount == 0 ==> currentFrame == 0)
      && (frameCount > 0 ==> viewer.currentIndex == currentFrame && viewer.currentGroup == Some(currentFrame))
      && overlay == Overlay(frames, currentFrame, textVisible)
    }

    /** `setupForDisplayList(displayList)`: create the viewer, mark every
        group visible, start paused with text on, and apply frame 0. */
    constructor (dl: DisplayList)
      ensures Valid() && fresh(viewer)
      ensures frames == dl.frames && frameCount == |dl.frames|
      ensures currentFrame == 0 && !isPlaying && textVisible && direction == 1
      ensures visibilityState.Keys == GroupIds(viewer.groups)
      ensures forall id :: id in visibilityState ==> visibilityState[id]
    {
      var v := new Viewer(dl, 0);
      viewer := v;
      frames := dl.frames;
      frameCount := v.GetFrameCount();
      var vs := AllGroupsVisible(v.groups);
      assert vs == v.groupVisibility;
      visibilityState := vs;
      textVisible := true;
      currentFrame := 0;
      isPlaying := false;
      direction := 1;
      pending := false;
      lastTime := 0.0;
      overlay := None;
      new;
      ApplyFrame(0);
    }

    /** `refreshFrameText`. */
    method RefreshFrameText()
      modifies this
      ensures overlay == Overlay(frames, currentFrame, textVisible)
      ensures visibilityState == old(visibilityState) && textVisible == old(textVisible)
      ensures currentFrame == old(currentFrame) && isPlaying == old(isPlaying) && direction == old(direction)
      ensures pending == old(pending) && lastTime == old(lastTime)
    {
      overlay := Overlay(frames, currentFrame, textVisible);
    }

    /** `applyFrame(idx)`: clamp, show that frame in the viewer, refresh the
        overlay. */
    method ApplyFrame(idx: int)
      requires Ready()
      modifies this, viewer
      ensures Valid()
      ensures currentFrame == ClampFrame(idx, frameCount)
      ensures visibilityState == old(visibilityState) && textVisible == old(textVisible)
      ensures isPlaying == old(isPlaying) && direction == old(direction)
      ensures pending == old(pending) && lastTime == old(lastTime)
      ensures viewer.frameGroups == old(viewer.frameGroups)
    {
      currentFrame := ClampFrame(idx, frameCount);
      viewer.SetFrame(currentFrame);
      RefreshFrameText();
    }

    /** `stopPlayback`: not playing, and no step pending. */
    method StopPlayback()
      requires Valid()
      modifies this
      ensures Valid()
      ensures !isPlaying && !pending
      ensures currentFrame == old(currentFrame) && direction == old(direction) && lastTime == old(lastTime)
      ensures visibilityState == old(visibilityState) && textVisible == old(textVisible) && overlay == old(overlay)
    {
      isPlaying := false;
      if pending {
        pending := false;
      }
    }

    /** `startPlayback(now)`: nothing without frames; otherwise playing
        forwards, timed from `now`, with a step pending.  Its only caller,
        the play button, calls it while not playing. */
    method StartPlayback(now: real)
      requires Valid() && !isPlaying
      modifies this
      ensures Valid()
      ensures frameCount == 0 ==> !isPlaying && lastTime == old(lastTime) && direction == old(direction)
      ensures frameCount > 0 ==> isPlaying && pending && direction == 1 && lastTime == now
      ensures currentFrame == old(currentFrame) && overlay == old(overlay)
      ensures visibilityState == old(visibilityState) && textVisible == old(textVisible)
    {
      if frameCount <= 0 {
        return;
      }
      isPlaying := true;
      lastTime := now;
      direction := 1;
      pending := true;
    }

    /** The play button: pause when playing, otherwise start. */
    method PressPlay(now: real)
      requires Valid()
      modifies this
      ensures Valid()
      ensures old(isPlaying) ==> !isPlaying && !pending
      ensures !old(isPlaying) ==> isPlaying == (frameCount > 0)
      ensures !old(isPlaying) && frameCount > 0 ==> direction == 1 && lastTime == now
      ensures old(isPlaying) || frameCount == 0 ==> direction == old(direction) && lastTime == old(lastTime)
      ensures currentFrame == old(currentFrame) && overlay == old(overlay)
      ensures visibilityState == old(visibilityState) && textVisible == old(textVisible)
    {
      if isPlaying {
        StopPlayback();
      } else {
        StartPlayback(now);
      }
    }

    /** One run of the scheduled `step` callback at `time`, with the speed
        and loop selectors holding `speed` (parsed) and `loopValue`.  When
        not playing nothing happens; before a frame duration has elapsed
        the step only reschedules; otherwise the loop mode resolves the
        next frame, which is applied and timed from `time`, unless stop
        mode halts on a boundary frame. */
    method Tick(time: real, speed: Option<int>, loopValue: string)
      requires Valid()
      modifies this, viewer
      ensures Valid()
      ensures !old(isPlaying) ==> unchanged(this) && unchanged(viewer)
      ensures old(isPlaying) && !Due(time, old(lastTime), GetFps(speed)) ==> unchanged(this) && unchanged(viewer)
      ensures old(isPlaying) && Due(time, old(lastTime), GetFps(speed)) ==>
        match ResolveStep(GetLoopMode(loopValue), old(currentFrame), old(direction), frameCount)
        case Advance(next, d) =>
          currentFrame == ClampFrame(next, frameCount) && direction == d && lastTime == time && isPlaying && pending
        case Halt(b) =>
          currentFrame == b && !isPlaying && !pending && direction == old(direction) && lastTime == old(lastTime)
      ensures visibilityState == old(visibilityState) && textVisible == old(textVisible)
      ensures viewer.frameGroups == old(viewer.frameGroups)
    {
      if !isPlaying {
        return;
      }
      var fps := GetFps(speed);
      if time - lastTime >= 1000.0 / (fps as real) {
        var mode := GetLoopMode(loopValue);
        StepStaysInRange(mode, currentFrame, direction, frameCount);
        match ResolveStep(mode, currentFrame, direction, frameCount)
        case Advance(next, d) =>
          AdvanceTo(next, d, time);
        case Halt(boundary) =>
          HaltOn(boundary);
          return;
      }
      pending := true;
    }

    /** A committed step that goes on: take the resolved direction, apply
        the next frame, and time the next step from `time`. */
    method AdvanceTo(next: int, d: int, time: real)
      requires Valid() && isPlaying && (d == 1 || d == -1)
      modifies this, viewer
      ensures Valid()
      ensures currentFrame == ClampFrame(next, frameCount) && direction == d && lastTime == time
      ensures isPlaying && pending
      ensures visibilityState == old(visibilityState) && textVisible == old(textVisible)
      ensures viewer.frameGroups == old(viewer.frameGroups)
    {
      direction := d;
      ApplyFrame(next);
      lastTime := time;
    }

    /** Stop mode reaching an end: apply the boundary frame, then stop. */
    method HaltOn(boundary: int)
      requires Valid()
      modifies this, viewer
      ensures Valid()
      ensures currentFrame == ClampFrame(boundary, frameCount) && !isPlaying && !pending
      ensures direction == old(direction) && lastTime == old(lastTime)
      ensures visibilityState == old(visibilityState) && textVisible == old(textVisible)
      ensures viewer.frameGroups == old(viewer.frameGroups)
    {
      ApplyFrame(boundary);
      StopPlayback();
    }

    /** The step-back button: stop playing, then apply the previous frame. */
    method StepBack()
      requires Valid()
      modifies this, viewer
      ensures Valid()
      ensures !isPlaying && !pending
      ensures currentFrame == ClampFrame(old(currentFrame) - 1, frameCount)
      ensures direction == old(direction) && lastTime == old(lastTime)
      ensures visibilityState == old(visibilityState) && textVisible == old(textVisible)
      ensures viewer.frameGroups == old(viewer.frameGroups)
    {
      StopPlayback();
      ApplyFrame(currentFrame - 1);
    }

    /** The step-forward button: stop playing, then apply the next frame. */
    method StepForward()
      requires Valid()
      modifies this, viewer
      ensures Valid()
      ensures !isPlaying && !pending
      ensures currentFrame == ClampFrame(old(currentFrame) + 1, frameCount)
      ensures direction == old(direction) && lastTime == old(lastTime)
      ensures visibilityState == old(visibilityState) && textVisible == old(textVisible)
      ensures viewer.frameGroups == old(viewer.frameGroups)
    {
      StopPlayback();
      ApplyFrame(currentFrame + 1);
    }

    /** The jump button, `parsed` being `parseInt` of the jump input: a
        non-finite value is ignored; any other stops playback and is
        clamped onto a valid frame, not rejected. */
    method Jump(parsed: Option<int>)
      requires Valid()
      modifies this, viewer
      ensures Valid()
      ensures parsed.None? ==> unchanged(this) && unchanged(viewer)
      ensures parsed.Some? ==> !isPlaying && !pending && currentFrame == ClampFrame(parsed.value, frameCount)
      ensures direction == old(direction) && lastTime == old(lastTime)
      ensures visibilityState == old(visibilityState) && textVisible == old(textVisible)
      ensures viewer.frameGroups == old(viewer.frameGroups)
    {
      if parsed.None? {
        return;
      }
      StopPlayback();
      ApplyFrame(parsed.value);
    }

    /** The frame slider: `parseInt(value) || 0` is applied; playback is
        not stopped. */
    method Slide(parsed: Option<int>)
      requires Valid()
      modifies this, viewer
      ensures Valid()
      ensures currentFrame == ClampFrame(parsed.GetOr(0), frameCount)
      ensures isPlaying == old(isPlaying) && pending == old(pending)
      ensures direction == old(direction) && lastTime == old(lastTime)
      ensures visibilityState == old(visibilityState) && textVisible == old(textVisible)
      ensures viewer.frameGroups == old(viewer.frameGroups)
    {
      ApplyFrame(parsed.GetOr(0));
    }

    /** The text button: flip whether annotations are shown, then refresh. */
    method ToggleText()
      requires Valid()
      modifies this
      ensures Valid()
      ensures textVisible == !old(textVisible)
      ensures overlay == Overlay(frames, currentFrame, textVisible)
      ensures currentFrame == old(currentFrame) && isPlaying == old(isPlaying) && pending == old(pending)
      ensures direction == old(direction) && lastTime == old(lastTime) && visibilityState == old(visibilityState)
    {
      textVisible := !textVisible;
      RefreshFrameText();
    }

    /** A group button: flip the group's flag in `visibilityState` and pass
        the new flag to the viewer, which reapplies visibility to every
        frame group.  Buttons exist only for the viewer's groups. */
    method ToggleGroup(group: GroupDef)
      requires Valid() && group in viewer.groups
      modifies this, viewer
      ensures Valid()
      ensures visibilityState == old(visibilityState)[group.id := !old(visibilityState)[group.id]]
      ensures viewer.groupVisibility == visibilityState
      ensures |viewer.frameGroups| == |old(viewer.frameGroups)|
      ensures forall i :: 0 <= i < |viewer.frameGroups| ==>
        viewer.frameGroups[i] == Applied(old(viewer.frameGroups)[i], visibilityState)
      ensures currentFrame == old(currentFrame) && isPlaying == old(isPlaying) && overlay == old(overlay)
      ensures textVisible == old(textVisible) && pending == old(pending)
      ensures direction == old(direction) && lastTime == old(lastTime)
    {
      assert group.id in GroupIds(viewer.groups);
      var next := !visibilityState[group.id];
      visibilityState := visibilityState[group.id := next];
      viewer.SetGroupVisibility(group.id, next);
    }
  }
}
