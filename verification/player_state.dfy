/**
 * The player hook (`useMusicPlayer`): the state record it keeps about the audio
 * element, the updates its controls make, and the updates the element's events make.
 * The element itself is not modelled: whether it is mounted and whether a track is
 * loaded are parameters, and what a control asks of it is returned as a value.
 */
module PlayerState {

  /** Playback position, length and volume are the element's floating-point numbers, kept as `real`. */
  datatype Player = Player(isPlaying: bool, currentTime: real, duration: real, volume: real, isMuted: bool)

  /** What a control asks of the audio element. */
  datatype AudioOp =
    | NoOp
    | LoadSource       // set the source to the track's URL and load it
    | PauseAudio
    | PlayAudio
    | SetPosition(time: real)

  datatype Step = Step(player: Player, op: AudioOp)

  /** The events the hook listens to on the element. */
  datatype MediaEvent =
    | TimeUpdate(position: real)
    | LoadedMetadata(length: real)
    | Ended
    | PlayEvent
    | PauseEvent

  /** Not playing, at the start, no known length, half volume, not muted. */
  const Initial: Player := Player(false, 0.0, 0.0, 0.5, false)

  /** The fields a control or an event may not touch, compared between two states. */
  predicate SameSound(a: Player, b: Player) {
    a.volume == b.volume && a.isMuted == b.isMuted
  }

  predicate SameTiming(a: Player, b: Player) {
    a.currentTime == b.currentTime && a.duration == b.duration
  }

  /**
   * A new current track (with the element mounted and a track present): load it and
   * start again from a stopped, zero-length state. Volume and mute are kept.
   */
  function OnTrackChange(p: Player, audioPresent: bool, hasTrack: bool): (r: Step)
    ensures SameSound(r.player, p)
    ensures audioPresent && hasTrack ==>
              r.op == LoadSource && !r.player.isPlaying && r.player.currentTime == 0.0 && r.player.duration == 0.0
    ensures !(audioPresent && hasTrack) ==> r == Step(p, NoOp)
  {
    if audioPresent && hasTrack then Step(p.(isPlaying := false, currentTime := 0.0, duration := 0.0), LoadSource)
    else Step(p, NoOp)
  }

  /** `togglePlayPause`: pause if playing, play if not, and flip the flag; nothing without a track. */
  function TogglePlayPause(p: Player, audioPresent: bool, hasTrack: bool): (r: Step)
    ensures SameSound(r.player, p) && SameTiming(r.player, p)
    ensures audioPresent && hasTrack ==> r.player.isPlaying == !p.isPlaying
    ensures audioPresent && hasTrack ==> r.op == (if p.isPlaying then PauseAudio else PlayAudio)
    ensures !(audioPresent && hasTrack) ==> r == Step(p, NoOp)
  {
    if audioPresent && hasTrack then
      Step(p.(isPlaying := !p.isPlaying), if p.isPlaying then PauseAudio else PlayAudio)
    else Step(p, NoOp)
  }

  /** `handleSeek`: move the element and the recorded position to `time`. */
  function Seek(p: Player, audioPresent: bool, time: real): (r: Step)
    ensures audioPresent ==> r == Step(p.(currentTime := time), SetPosition(time))
    ensures !audioPresent ==> r == Step(p, NoOp)
    ensures r.player.isPlaying == p.isPlaying && r.player.duration == p.duration && SameSound(r.player, p)
  {
    if audioPresent then Step(p.(currentTime := time), SetPosition(time)) else Step(p, NoOp)
  }

  /** `handleVolumeChange`: store the volume; a volume above zero also unmutes. */
  function ChangeVolume(p: Player, v: real): (r: Player)
    ensures r.volume == v
    ensures v > 0.0 ==> !r.isMuted
    ensures v <= 0.0 ==> r.isMuted == p.isMuted
    ensures r.isPlaying == p.isPlaying && SameTiming(r, p)
  {
    var q := p.(volume := v);
    if v > 0.0 then q.(isMuted := false) else q
  }

  /** `toggleMute`. */
  function ToggleMute(p: Player): (r: Player)
    ensures r.isMuted != p.isMuted
    ensures r.volume == p.volume && r.isPlaying == p.isPlaying && SameTiming(r, p)
  {
    p.(isMuted := !p.isMuted)
  }

  /** The element's event listeners: each event records one fact about the element. */
  function Handle(p: Player, e: MediaEvent): (r: Player)
    ensures SameSound(r, p)
    ensures e.TimeUpdate? ==> r == p.(currentTime := e.position)
    ensures e.LoadedMetadata? ==> r == p.(duration := e.length)
    ensures e.Ended? || e.PauseEvent? ==> r == p.(isPlaying := false)
    ensures e.PlayEvent? ==> r == p.(isPlaying := true)
  {
    match e
    case TimeUpdate(t) => p.(currentTime := t)
    case LoadedMetadata(d) => p.(duration := d)
    case Ended => p.(isPlaying := false)
    case PlayEvent => p.(isPlaying := true)
    case PauseEvent => p.(isPlaying := false)
  }

  datatype Sound = Sound(volume: real, muted: bool)

  /** The element's volume and mute follow the record (the volume/mute effect). */
  function ElementSound(p: Player): Sound {
    Sound(p.volume, p.isMuted)
  }

  // ------------------------------------------------------------- properties

  /**
   * The element's volume and mute change only through the volume and mute controls:
   * two records sound the same exactly when they agree on volume and mute, and the
   * other controls and every event leave the sound alone.
   */
  lemma ElementSoundFollowsControls(p: Player, q: Player, e: MediaEvent, t: real, a: bool, h: bool)
    ensures ElementSound(p) == ElementSound(q) <==> SameSound(p, q)
    ensures ElementSound(Handle(p, e)) == ElementSound(p)
    ensures ElementSound(TogglePlayPause(p, a, h).player) == ElementSound(p)
    ensures ElementSound(Seek(p, a, t).player) == ElementSound(p)
    ensures ElementSound(OnTrackChange(p, a, h).player) == ElementSound(p)
  {
  }

  /**
   * The starting record is stopped at the start of an unknown length, audible at half
   * volume, and already what loading a first track leaves behind.
   */
  lemma InitialState()
    ensures ElementSound(Initial) == Sound(0.5, false)
    ensures OnTrackChange(Initial, true, true) == Step(Initial, LoadSource)
    ensures TogglePlayPause(Initial, true, true).op == PlayAudio
  {
  }

  /** The event the element fires once it has played or paused as asked. */
  function EventOf(op: AudioOp): (e: MediaEvent)
    requires op.PlayAudio? || op.PauseAudio?
  {
    if op.PlayAudio? then PlayEvent else PauseEvent
  }

  /**
   * The flag a toggle sets agrees with the element's own report: once the element
   * plays or pauses as asked, its event leaves the record as the toggle left it.
   */
  lemma ToggleAgreesWithEvent(p: Player)
    ensures TogglePlayPause(p, true, true).op.PlayAudio? || TogglePlayPause(p, true, true).op.PauseAudio?
    ensures Handle(TogglePlayPause(p, true, true).player, EventOf(TogglePlayPause(p, true, true).op))
         == TogglePlayPause(p, true, true).player
  {
  }

  /** Toggling twice restores the record. */
  lemma ToggleTwice(p: Player, audioPresent: bool, hasTrack: bool)
    ensures TogglePlayPause(TogglePlayPause(p, audioPresent, hasTrack).player, audioPresent, hasTrack).player == p
  {
  }

  /** Muting is an involution. */
  lemma ToggleMuteInvolution(p: Player)
    ensures ToggleMute(ToggleMute(p)) == p
  {
  }

  /** Setting the same volume again changes nothing, and the last volume set wins. */
  lemma ChangeVolumeSettles(p: Player, v: real, w: real)
    ensures ChangeVolume(ChangeVolume(p, v), v) == ChangeVolume(p, v)
    ensures ChangeVolume(ChangeVolume(p, v), w).volume == w
  {
  }

  /** After muting, raising the volume is audible again; turning it to zero leaves the mute on. */
  lemma VolumeAfterMute(p: Player, v: real)
    requires !p.isMuted
    ensures v > 0.0 ==> ElementSound(ChangeVolume(ToggleMute(p), v)) == Sound(v, false)
    ensures v <= 0.0 ==> ElementSound(ChangeVolume(ToggleMute(p), v)) == Sound(v, true)
  {
  }

  /** A seek is confirmed by the element's next time report at that position. */
  lemma SeekThenTimeUpdate(p: Player, t: real)
    ensures Handle(Seek(p, true, t).player, TimeUpdate(t)) == Seek(p, true, t).player
  {
  }

  /** After a track change only the element's own reports bring back a length and a position. */
  lemma TrackChangeThenMetadata(p: Player, d: real)
    ensures Handle(OnTrackChange(p, true, true).player, LoadedMetadata(d))
         == Player(false, 0.0, d, p.volume, p.isMuted)
  {
  }
}
