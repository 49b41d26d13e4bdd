/** A sound object placed in an area: it plays its list of sounds one after
  * another with a pause between them, optionally looping, while active and
  * audible. The audio player is external: whether the current playback has
  * ended is an input. */
module SoundObject {
  import opened Wrappers
  import opened Arith

  /** The object's handle on the audio player: none, playing, or stopped
    * but still held. */
  datatype Handle = NoHandle | Playing | Stopped

  datatype Sound = Sound(
    active: bool,
    audible: bool,
    looping: bool,
    continuous: bool,
    timeout: real,
    intervalMs: nat,
    sounds: seq<string>,
    soundIdx: int,
    handle: Handle)

  /** A request to the audio player: the resource and whether to loop it. */
  datatype PlayRequest = PlayRequest(resRef: string, loop: bool)

  datatype SoundUpdate = SoundUpdate(sound: Sound, played: Option<PlayRequest>)

  /** Whether the audio player reports the handle as stopped. */
  predicate IsStopped(h: Handle, finished: bool) {
    h == Stopped || (h == Playing && finished)
  }

  /** One frame. An inaudible object drops its playback. An active,
    * audible object whose playback is over first waits out its timeout,
    * then moves to the next sound: an empty list deactivates it, running
    * past the end wraps to the first sound when looping and deactivates it
    * otherwise. A sound started this way loops by itself only when it is
    * the only one and the object is continuous, and the timeout restarts
    * at the interval. */
  function Update(s: Sound, dt: real, finished: bool): (r: SoundUpdate)
    requires s.soundIdx >= -1
    ensures r.sound.soundIdx >= -1
    ensures s.timeout >= 0.0 && dt >= 0.0 ==> r.sound.timeout >= 0.0
    ensures r.sound.sounds == s.sounds && r.sound.audible == s.audible && r.sound.looping == s.looping
    ensures r.sound.active ==> s.active
    ensures !s.audible ==> r.sound.handle == NoHandle && r.played.None?
    ensures r.played.Some? ==>
              && s.active && s.audible && s.sounds != [] && s.timeout <= 0.0
              && 0 <= r.sound.soundIdx < |s.sounds|
              && r.played.value == PlayRequest(s.sounds[r.sound.soundIdx], |s.sounds| == 1 && s.continuous)
              && r.sound.soundIdx == (if s.soundIdx + 1 < |s.sounds| then s.soundIdx + 1 else 0)
              && r.sound.timeout == s.intervalMs as real / 1000.0
              && r.sound.handle == Playing && r.sound.active
  {
    var h := if s.handle != NoHandle && !s.audible then NoHandle else s.handle;
    var s1 := s.(handle := h);
    if !s.active || !s.audible then SoundUpdate(s1, None)
    else if h != NoHandle && !IsStopped(h, finished) then SoundUpdate(s1, None)
    else if s.timeout > 0.0 then SoundUpdate(s1.(timeout := MaxReal(0.0, s.timeout - dt)), None)
    else if s.sounds == [] then SoundUpdate(s1.(active := false), None)
    else if s.soundIdx + 1 >= |s.sounds| && !s.looping then
      SoundUpdate(s1.(soundIdx := s.soundIdx + 1, active := false), None)
    else
      var idx := if s.soundIdx + 1 >= |s.sounds| then 0 else s.soundIdx + 1;
      var req := PlayRequest(s.sounds[idx], |s.sounds| == 1 && s.continuous);
      SoundUpdate(s1.(soundIdx := idx, timeout := s.intervalMs as real / 1000.0, handle := Playing), Some(req))
  }

  /** Starts the object: any playback is stopped (the handle is kept), the
    * timeout is cleared and the object becomes active. */
  function Play(s: Sound): (r: Sound)
    ensures r.active && r.timeout == 0.0
    ensures r.handle == (if s.handle == NoHandle then NoHandle else Stopped)
    ensures r.sounds == s.sounds && r.soundIdx == s.soundIdx
  {
    s.(handle := if s.handle == NoHandle then NoHandle else Stopped, timeout := 0.0, active := true)
  }

  /** Stops the object: playback is dropped and the object is inactive. */
  function Stop(s: Sound): (r: Sound)
    ensures !r.active && r.handle == NoHandle
    ensures r.sounds == s.sounds && r.soundIdx == s.soundIdx && r.timeout == s.timeout
  {
    s.(handle := NoHandle, active := false)
  }

  function SetAudible(s: Sound, audible: bool): (r: Sound)
    ensures r.audible == audible && r.active == s.active && r.handle == s.handle
  {
    s.(audible := audible)
  }

  /** After `Play`, the next frame of an audible object with sounds starts
    * the sound after the current one. */
  lemma PlayStartsAtOnce(s: Sound, dt: real, finished: bool)
    requires s.soundIdx >= -1 && s.audible && s.sounds != []
    requires s.looping || s.soundIdx + 1 < |s.sounds|
    ensures Update(Play(s), dt, finished).played.Some?
  {
  }

  /** A stopped object plays nothing until it is started again. */
  lemma StoppedStaysSilent(s: Sound, dt: real, finished: bool)
    requires s.soundIdx >= -1
    ensures Update(Stop(s), dt, finished).played.None?
    ensures !Update(Stop(s), dt, finished).sound.active
  {
  }

  /** An active, audible, idle object with no sounds deactivates once its
    * timeout has run out. */
  lemma EmptyListDeactivates(s: Sound, dt: real, finished: bool)
    requires s.soundIdx >= -1 && s.active && s.audible && s.sounds == [] && s.timeout <= 0.0
    requires s.handle == NoHandle
    ensures !Update(s, dt, finished).sound.active
  {
  }

  /** Past the last sound a non-looping object deactivates and a looping
    * one starts over at the first sound. */
  lemma EndOfList(s: Sound, dt: real, finished: bool)
    requires s.active && s.audible && s.sounds != [] && s.timeout <= 0.0 && s.handle == NoHandle
    requires s.soundIdx == |s.sounds| - 1
    ensures !s.looping ==> !Update(s, dt, finished).sound.active && Update(s, dt, finished).played.None?
    ensures s.looping ==> Update(s, dt, finished).played == Some(PlayRequest(s.sounds[0], |s.sounds| == 1 && s.continuous))
  {
  }
}
