/**
 * The playlist hook (`usePlaylist`): the current track index, the playback mode and
 * the auto-play flag, and the transitions the controls and the audio element's
 * `ended` event make on them. Commands to the audio element are returned as values
 * instead of being carried out.
 */
module Playlist {
  import opened Wrappers

  datatype Mode = Sequential | Loop | RepeatOne

  /** The hook's three pieces of state. `index` is not clamped by the hook, so it is an `int`. */
  datatype State = State(index: int, mode: Mode, autoPlay: bool)

  /** What a transition asks of the audio element. */
  datatype Command =
    | NoCommand
    | PauseAndRewind   // pause and set the position to 0
    | Restart          // set the position to 0 and play
    | Play

  datatype Step = Step(state: State, command: Command)

  /** First track, sequential mode, no pending auto-play. */
  const Initial: State := State(0, Sequential, false)

  /** The index refers to a track of a list of `total` tracks. */
  predicate Valid(p: State, total: nat) {
    0 <= p.index < total
  }

  /**
   * `currentTrack`: nothing for an empty list; otherwise the track at the index, which
   * is `undefined` (so again nothing) when the index is out of range.
   */
  function CurrentTrack<T>(tracks: seq<T>, index: int): (r: Option<T>)
    ensures r.Some? <==> 0 <= index < |tracks|
    ensures r.Some? ==> r.value == tracks[index]
  {
    if |tracks| == 0 then None
    else if 0 <= index < |tracks| then Some(tracks[index])
    else None
  }

  // ------------------------------------------------------------------ modes

  /** `togglePlaybackMode`: sequential, then loop, then repeat-one, then sequential again. */
  function NextMode(m: Mode): (r: Mode)
    ensures r != m
  {
    match m
    case Sequential => Loop
    case Loop => RepeatOne
    case RepeatOne => Sequential
  }

  function ToggleMode(p: State): (r: State)
    ensures r.index == p.index && r.autoPlay == p.autoPlay
    ensures r.mode == NextMode(p.mode)
  {
    p.(mode := NextMode(p.mode))
  }

  /** `setPlaybackMode`: only the mode changes. */
  function SetMode(p: State, m: Mode): (r: State)
    ensures r.mode == m && r.index == p.index && r.autoPlay == p.autoPlay
  {
    p.(mode := m)
  }

  /** Setting a mode twice keeps the last one, and a toggle sets the next mode in the cycle. */
  lemma SetModeLastWins(p: State, a: Mode, b: Mode)
    ensures SetMode(SetMode(p, a), b) == SetMode(p, b)
    ensures SetMode(p, p.mode) == p
    ensures ToggleMode(p) == SetMode(p, NextMode(p.mode))
  {
  }

  /**
   * At the start the first track is current whenever there is a track, the mode is
   * sequential, and nothing plays until asked to.
   */
  lemma InitialState<T>(tracks: seq<T>, audioPresent: bool)
    ensures Initial.mode == Sequential
    ensures CurrentTrack(tracks, Initial.index).Some? <==> |tracks| > 0
    ensures |tracks| > 0 ==> CurrentTrack(tracks, Initial.index) == Some(tracks[0])
    ensures AutoPlay(Initial, |tracks|, audioPresent) == Step(Initial, NoCommand)
  {
  }

  /**
   * A track is current exactly when the index is valid, and so the auto-play effect
   * plays exactly when it is asked to and there is a current track.
   */
  lemma CurrentTrackValid<T>(tracks: seq<T>, p: State, audioPresent: bool)
    ensures CurrentTrack(tracks, p.index).Some? <==> Valid(p, |tracks|)
    ensures AutoPlay(p, |tracks|, audioPresent).command == Play
            <==> p.autoPlay && CurrentTrack(tracks, p.index).Some? && audioPresent
  {
  }

  /** Toggling three times returns to the starting mode, and no fewer toggles do. */
  lemma ToggleCycle(p: State)
    ensures ToggleMode(ToggleMode(ToggleMode(p))) == p
    ensures ToggleMode(ToggleMode(p)) != p && ToggleMode(p) != p
  {
  }

  /** Every mode is reached from sequential by toggling. */
  lemma ToggleReachesEveryMode(m: Mode)
    ensures m == Sequential || m == NextMode(Sequential) || m == NextMode(NextMode(Sequential))
  {
  }

  // ------------------------------------------------------------- navigation

  /**
   * `playNextTrack`: nothing for an empty list; the following index if there is one;
   * past the end, back to the first track in loop mode, and otherwise stay on the
   * last track, stop the audio and drop any pending auto-play.
   */
  function Next(p: State, total: nat): (r: Step)
    ensures total == 0 ==> r == Step(p, NoCommand)
    ensures total > 0 && p.index + 1 < total ==> r == Step(p.(index := p.index + 1), NoCommand)
    ensures total > 0 && p.index + 1 >= total && p.mode == Loop ==> r == Step(p.(index := 0), NoCommand)
    ensures total > 0 && p.index + 1 >= total && p.mode != Loop ==>
              r == Step(State(total - 1, p.mode, false), PauseAndRewind)
  {
    if total == 0 then Step(p, NoCommand)
    else
      var nextIndex := p.index + 1;
      if nextIndex >= total then
        if p.mode == Loop then Step(p.(index := 0), NoCommand)
        else Step(p.(index := total - 1, autoPlay := false), PauseAndRewind)
      else Step(p.(index := nextIndex), NoCommand)
  }

  /** `playPreviousTrack`: one back, from the first track round to the last, in every mode. */
  function Previous(p: State, total: nat): (r: State)
    ensures total == 0 ==> r == p
    ensures r.mode == p.mode && r.autoPlay == p.autoPlay
    ensures total > 0 && p.index > 0 ==> r.index == p.index - 1
    ensures total > 0 && p.index <= 0 ==> r.index == total - 1
  {
    if total == 0 then p
    else
      var prevIndex := p.index - 1;
      p.(index := if prevIndex < 0 then total - 1 else prevIndex)
  }

  /** `selectTrackByIndex`: jump to `i` if it names a track; otherwise nothing changes. */
  function Select(p: State, total: nat, i: int): (r: State)
    ensures 0 <= i < total ==> r == p.(index := i)
    ensures !(0 <= i < total) ==> r == p
  {
    if 0 <= i && i < total then p.(index := i) else p
  }

  /**
   * The `ended` handler: repeat-one restarts the track; on the last track in
   * sequential mode nothing happens; otherwise auto-play is requested and the
   * playlist moves on as `Next` does.
   */
  function OnEnded(p: State, total: nat): (r: Step)
    ensures p.mode == RepeatOne ==> r == Step(p, Restart)
    ensures p.mode == Sequential && p.index == total - 1 ==> r == Step(p, NoCommand)
    ensures p.mode == Loop || (p.mode == Sequential && p.index != total - 1) ==>
              r == Next(p.(autoPlay := true), total)
  {
    if p.mode == RepeatOne then Step(p, Restart)
    else if p.index == total - 1 && p.mode == Sequential then Step(p, NoCommand)
    else Next(p.(autoPlay := true), total)
  }

  /**
   * The auto-play effect: once the flag is set and a track is current, play it and
   * clear the flag. `audioPresent` stands for the audio element being mounted.
   */
  function AutoPlay(p: State, total: nat, audioPresent: bool): (r: Step)
    ensures r.state.index == p.index && r.state.mode == p.mode
    ensures r.command == Play <==> p.autoPlay && Valid(p, total) && audioPresent
    ensures r.command == Play ==> !r.state.autoPlay
    ensures r.command != Play ==> r == Step(p, NoCommand)
  {
    if p.autoPlay && total > 0 && 0 <= p.index < total && audioPresent then Step(p.(autoPlay := false), Play)
    else Step(p, NoCommand)
  }

  // ------------------------------------------------------------- properties

  /** With at least one track, every transition keeps the index on a track. */
  lemma TransitionsKeepValid(p: State, total: nat, i: int, m: Mode, audioPresent: bool)
    requires Valid(p, total)
    ensures Valid(Next(p, total).state, total)
    ensures Valid(SetMode(p, m), total)
    ensures Valid(Previous(p, total), total)
    ensures Valid(Select(p, total, i), total)
    ensures Valid(ToggleMode(p), total)
    ensures Valid(OnEnded(p, total).state, total)
    ensures Valid(AutoPlay(p, total, audioPresent).state, total)
  {
  }

  /** In loop mode `Next` is the successor modulo the track count. */
  lemma NextInLoopIsSuccessor(p: State, total: nat)
    requires Valid(p, total) && p.mode == Loop
    ensures Next(p, total).state.index == (p.index + 1) % total
  {
  }

  /** `Previous` is the predecessor modulo the track count, whatever the mode. */
  lemma PreviousIsPredecessor(p: State, total: nat)
    requires Valid(p, total)
    ensures Previous(p, total).index == (p.index - 1) % total
  {
  }

  /** In loop mode `Next` and `Previous` undo each other. */
  lemma NextPreviousInverse(p: State, total: nat)
    requires Valid(p, total) && p.mode == Loop
    ensures Previous(Next(p, total).state, total) == p
    ensures Next(Previous(p, total), total).state == p
  {
  }

  /** Moving forward `k` times with `Next`. */
  function Advance(p: State, total: nat, k: nat): State
    decreases k
  {
    if k == 0 then p else Advance(Next(p, total).state, total, k - 1)
  }

  /** In loop mode, `k` steps forward land `k` tracks on, wrapping round. */
  lemma {:induction false} AdvanceInLoop(p: State, total: nat, k: nat)
    requires Valid(p, total) && p.mode == Loop
    ensures Advance(p, total, k).index == (p.index + k) % total
    ensures Advance(p, total, k).mode == Loop
    decreases k
  {
    if k > 0 {
      var q := Next(p, total).state;
      NextInLoopIsSuccessor(p, total);
      AdvanceInLoop(q, total, k - 1);
      ModuloStep(p.index, k, total);
    }
  }

  lemma ModuloStep(i: int, k: nat, total: nat)
    requires 0 <= i < total && k > 0
    ensures ((i + 1) % total + (k - 1)) % total == (i + k) % total
  {
    if i + 1 == total {
      assert (i + 1) % total == 0;
      ModuloShift(k - 1, total);
    } else {
      assert (i + 1) % total == i + 1;
    }
  }

  /** Adding the modulus does not change a remainder. */
  lemma ModuloShift(x: nat, total: nat)
    requires total > 0
    ensures (x + total) % total == x % total
  {
    var q, r := x / total, x % total;
    assert x == q * total + r;
    assert x + total == (q + 1) * total + r;
    ModuloUnique(x + total, total, q + 1, r);
  }

  lemma ModuloUnique(a: int, total: nat, q: int, r: int)
    requires total > 0 && a == q * total + r && 0 <= r < total
    ensures a % total == r
  {
    var q', r' := a / total, a % total;
    assert q' * total + r' == q * total + r;
    if q' != q {
      var d := q - q';
      assert d * total == r' - r;
      AtLeastOneMultiple(if d > 0 then d else -d, total);
    }
  }

  lemma AtLeastOneMultiple(d: int, total: nat)
    requires d >= 1
    ensures d * total >= total
  {
  }

  /** In sequential and repeat-one modes, stepping forward runs to the last track and stays there. */
  lemma {:induction false} AdvanceStopsAtEnd(p: State, total: nat, k: nat)
    requires Valid(p, total) && p.mode != Loop
    ensures Advance(p, total, k).index == if p.index + k < total then p.index + k else total - 1
    ensures Advance(p, total, k).mode == p.mode
    decreases k
  {
    if k > 0 {
      AdvanceStopsAtEnd(Next(p, total).state, total, k - 1);
    }
  }

  /**
   * When a track ends and the playlist moves on, auto-play is pending, so the
   * following effect plays the new track; the track moved to is the one after
   * (the first one after the last, in loop mode).
   */
  lemma EndedThenPlays(p: State, total: nat)
    requires Valid(p, total)
    requires p.mode == Loop || (p.mode == Sequential && p.index < total - 1)
    ensures OnEnded(p, total).command == NoCommand
    ensures OnEnded(p, total).state.index == (p.index + 1) % total
    ensures AutoPlay(OnEnded(p, total).state, total, true).command == Play
  {
  }

  /** On the last track in sequential mode, the end of the track is the end of playback. */
  lemma EndedAtLastStops(p: State, total: nat, audioPresent: bool)
    requires Valid(p, total) && p.mode == Sequential && p.index == total - 1 && !p.autoPlay
    ensures OnEnded(p, total) == Step(p, NoCommand)
    ensures AutoPlay(OnEnded(p, total).state, total, audioPresent).command == NoCommand
  {
  }

  /**
   * The next button on the last track stops the audio in repeat-one mode too, while
   * the track ending in repeat-one mode restarts it.
   */
  lemma RepeatOneNextVersusEnded(p: State, total: nat)
    requires Valid(p, total) && p.mode == RepeatOne && p.index == total - 1
    ensures Next(p, total).command == PauseAndRewind
    ensures OnEnded(p, total).command == Restart
  {
  }
}
