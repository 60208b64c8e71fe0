/** The video player's own state: playing or paused, the duration, the
    position shown on the slider, and the element's playback position. */
module VideoPlayer {
  import opened Types
  import opened Text
  import opened TimeFormat

  datatype Player = Player(isPlaying: bool, duration: nat, currentProgress: nat, position: nat)

  const Mounted := Player(false, 0, 0, 0)

  /** `togglePlayPause`. */
  function TogglePlayPause(p: Player): (r: Player)
    ensures r.isPlaying == !p.isPlaying
    ensures r.(isPlaying := p.isPlaying) == p
  {
    p.(isPlaying := !p.isPlaying)
  }

  lemma ToggleTwice(p: Player)
    ensures TogglePlayPause(TogglePlayPause(p)) == p
  {
  }

  /** The effect on the `currentTime` prop: a given time moves the element. */
  function SeekTo(p: Player, currentTime: Option<nat>): (r: Player)
    ensures currentTime.Some? ==> r.position == currentTime.value
    ensures r.(position := p.position) == p
    ensures currentTime.None? ==> r == p
  {
    if currentTime.Some? then p.(position := currentTime.value) else p
  }

  /** What a `timeupdate` event leaves behind: the new player state and the
      time handed to `onTimeUpdate`. */
  datatype TimeReport = TimeReport(player: Player, forwarded: nat)

  /** `handleTimeUpdate`: the element's position goes to the slider and to the
      listener alike. */
  function HandleTimeUpdate(p: Player): (r: TimeReport)
    ensures r.player.currentProgress == r.forwarded == p.position
    ensures r.player.(currentProgress := p.currentProgress) == p
  {
    TimeReport(p.(currentProgress := p.position), p.position)
  }

  /** `handleLoadedMetadata`. */
  function HandleLoadedMetadata(p: Player, duration: nat): (r: Player)
    ensures r.duration == duration && r.(duration := p.duration) == p
  {
    p.(duration := duration)
  }

  /** `handleSliderChange(value)`: the slider hands over a one-element list. */
  function HandleSliderChange(p: Player, value: seq<nat>): (r: Player)
    requires |value| > 0
    ensures r.currentProgress == value[0] && r.position == value[0]
    ensures r.(currentProgress := p.currentProgress, position := p.position) == p
  {
    p.(currentProgress := value[0], position := value[0])
  }

  /** Dragging the slider to `t` makes the next time report forward `t`. */
  lemma SliderThenReport(p: Player, t: nat)
    ensures HandleTimeUpdate(HandleSliderChange(p, [t])).forwarded == t
    ensures HandleTimeUpdate(HandleSliderChange(p, [t])).player == HandleSliderChange(p, [t])
  {
  }

  /** `duration || 100`. */
  function SliderMax(p: Player): (r: nat)
    ensures r > 0
    ensures p.duration > 0 ==> r == p.duration
  {
    if p.duration == 0 then 100 else p.duration
  }

  /** `formatTime(currentProgress) / formatTime(duration)`. */
  function TimeLabel(p: Player): (r: string)
    ensures |r| == |FormatTime(p.currentProgress)| + 3 + |FormatTime(p.duration)|
    ensures ParseTime(r[..|FormatTime(p.currentProgress)|]) == Some(p.currentProgress)
    ensures ParseTime(r[|r| - |FormatTime(p.duration)|..]) == Some(p.duration)
  {
    LabelPair(p.currentProgress, " / ", p.duration);
    FormatTime(p.currentProgress) + " / " + FormatTime(p.duration)
  }
}
