/** The track player's index, seek, progress and persistence logic, and the
    audio levels derived from the analyser's byte bins. The current index is
    an `Option<int>`: `None` is the `NaN` that `%` by an empty list, or
    restoring an unreadable index, produces. */
module TrackPlayer {
  import opened Wrappers
  import opened JsText
  import opened JsNumber
  import opened Media

  // ------------------------------------------------------------ next / prev

  /** `(current + 1) % tracks.length`. */
  function Next(current: Option<int>, n: nat): (r: Option<int>)
    ensures r.Some? <==> current.Some? && n > 0
  {
    if current.None? || n == 0 then None else Some(JsRem(current.value + 1, n))
  }

  /** `(current - 1 + tracks.length) % tracks.length`. */
  function Prev(current: Option<int>, n: nat): (r: Option<int>)
    ensures r.Some? <==> current.Some? && n > 0
  {
    if current.None? || n == 0 then None else Some(JsRem(current.value - 1 + n, n))
  }

  /** Within a non-empty list, next and previous stay in range and undo each
      other. */
  lemma NextPrevInRange(c: int, n: nat)
    requires 0 <= c < n
    ensures var nx, pv := Next(Some(c), n).value, Prev(Some(c), n).value;
      && 0 <= nx < n && 0 <= pv < n
      && nx == (if c == n - 1 then 0 else c + 1)
      && pv == (if c == 0 then n - 1 else c - 1)
  {
    WrapStep(c, n);
  }

  lemma NextPrevInverse(c: int, n: nat)
    requires 0 <= c < n
    ensures Prev(Next(Some(c), n), n) == Some(c)
    ensures Next(Prev(Some(c), n), n) == Some(c)
  {
    NextPrevInRange(c, n);
    var nx := Next(Some(c), n).value;
    var pv := Prev(Some(c), n).value;
    NextPrevInRange(nx, n);
    NextPrevInRange(pv, n);
  }

  /** With no tracks the index becomes `NaN`, and stays so. */
  lemma EmptyListGivesNaN(c: Option<int>, n: nat)
    ensures Next(c, 0).None? && Prev(c, 0).None?
    ensures Next(None, n).None? && Prev(None, n).None?
  {
  }

  // ------------------------------------------------------------ seek / progress

  /** The new playback position a click on the progress bar sets: none when
      there is no audio element or the duration is 0; otherwise the click's
      fraction of the bar, clamped to [0, 1], times the duration. */
  function SeekTime(hasAudio: bool, duration: real, clickX: real, left: real, width: real): (t: Option<real>)
    requires duration >= 0.0 && width > 0.0
    ensures t.None? <==> !hasAudio || duration == 0.0
    ensures t.Some? ==> 0.0 <= t.value <= duration
    ensures t.Some? ==> t.value == SeekFraction(clickX, left, width) * duration
  {
    if !hasAudio || duration == 0.0 then None
    else
      var percent := SeekFraction(clickX, left, width);
      ScaleLe(percent, 1.0, duration);
      Some(percent * duration)
  }

  /** `Math.max(0, Math.min(1, x / rect.width))`. */
  function SeekFraction(clickX: real, left: real, width: real): (f: real)
    requires width > 0.0
    ensures 0.0 <= f <= 1.0
    ensures 0.0 <= (clickX - left) / width <= 1.0 ==> f == (clickX - left) / width
  {
    var x := (clickX - left) / width;
    if x < 0.0 then 0.0 else if x > 1.0 then 1.0 else x
  }

  /** What `updateProgress` stores: the position, the duration (`|| 0`), and
      the progress fraction (0 when the duration is 0 or unknown). */
  datatype Progress = Progress(current: real, duration: real, fraction: real)

  function UpdateProgress(currentTime: real, duration: Option<real>): (p: Progress)
    ensures p.current == currentTime
    ensures p.duration == (if duration.Some? then duration.value else 0.0)
    ensures p.duration == 0.0 ==> p.fraction == 0.0
    ensures p.duration != 0.0 ==> p.fraction * p.duration == currentTime
  {
    match duration
    case Some(d) => if d == 0.0 then Progress(currentTime, 0.0, 0.0) else Progress(currentTime, d, currentTime / d)
    case None => Progress(currentTime, 0.0, 0.0)
  }

  /** A position within the track shows a fraction within [0, 1]. */
  lemma ProgressInRange(currentTime: real, d: real)
    requires 0.0 <= currentTime <= d && d > 0.0
    ensures 0.0 <= UpdateProgress(currentTime, Some(d)).fraction <= 1.0
  {
    var f := currentTime / d;
    if f > 1.0 {
      ScaleLt(1.0, f, d);
    }
    if f < 0.0 {
      ScaleLt(f, 0.0, d);
    }
  }

  /** Seek and progress agree: after a click, the progress bar shows the
      clicked fraction. */
  lemma SeekThenProgress(duration: real, clickX: real, left: real, width: real)
    requires duration > 0.0 && width > 0.0
    ensures var t := SeekTime(true, duration, clickX, left, width).value;
      UpdateProgress(t, Some(duration)).fraction == SeekFraction(clickX, left, width)
  {
    MulDivCancel(SeekFraction(clickX, left, width), duration);
  }

  /** `handleSeek`: sets the element's position when there is an element and
      a known duration, and otherwise does nothing. */
  method HandleSeek(audio: AudioElement?, trackDuration: real, clickX: real, left: real, width: real)
    requires trackDuration >= 0.0 && width > 0.0
    modifies audio
    ensures audio != null && trackDuration != 0.0 ==>
      audio.currentTime == SeekTime(true, trackDuration, clickX, left, width).value
    ensures audio != null && trackDuration == 0.0 ==> audio.currentTime == old(audio.currentTime)
    ensures audio != null ==> (audio.src == old(audio.src) && audio.playRequests == old(audio.playRequests)
      && audio.volume == old(audio.volume) && audio.muted == old(audio.muted) && audio.visible == old(audio.visible))
  {
    if audio == null || trackDuration == 0.0 {
      return;
    }
    var percent := SeekFraction(clickX, left, width);
    audio.currentTime := percent * trackDuration;
  }

  // ------------------------------------------------------------ persistence

  const PlayingKey := "trackplayer_isPlaying"
  const CurrentKey := "trackplayer_current"

  /** `String(b)` for a boolean. */
  function BoolString(b: bool): string {
    if b then "true" else "false"
  }

  /** The save effect: both values written as strings. */
  function Save(storage: map<string, string>, isPlaying: bool, current: Option<int>): (s: map<string, string>)
    ensures s.Keys == storage.Keys + {PlayingKey, CurrentKey}
    ensures forall k <- storage.Keys :: k != PlayingKey && k != CurrentKey ==> s[k] == storage[k]
  {
    storage[PlayingKey := BoolString(isPlaying)][CurrentKey := NumberToString(current)]
  }

  /** The restore effect on mount: a stored index replaces the current one
      through `Number`; only the text `true` sets playing, anything else leaves
      the flag as it was. */
  function Restore(storage: map<string, string>, current: Option<int>, isPlaying: bool): (r: (Option<int>, bool))
    ensures CurrentKey !in storage ==> r.0 == current
    ensures CurrentKey in storage ==> r.0 == NumberOf(storage[CurrentKey])
    ensures r.1 <==> isPlaying || (PlayingKey in storage && storage[PlayingKey] == "true")
  {
    var c := if CurrentKey in storage then NumberOf(storage[CurrentKey]) else current;
    var p := if PlayingKey in storage && storage[PlayingKey] == "true" then true else isPlaying;
    (c, p)
  }

  /** Saving and restoring into a freshly mounted player (index 0, paused)
      gives back the saved index, `NaN` included, and the saved flag. */
  lemma SaveRestore(storage: map<string, string>, isPlaying: bool, current: Option<int>)
    ensures Restore(Save(storage, isPlaying, current), Some(0), false) == (current, isPlaying)
  {
    NumberRoundTrip(current);
    var s := Save(storage, isPlaying, current);
    assert s[CurrentKey] == NumberToString(current);
    assert s[PlayingKey] == BoolString(isPlaying);
    assert "false" != "true" by { assert "false"[0] != "true"[0]; }
  }

  // ------------------------------------------------------------ levels

  /** `Uint8Array.prototype.slice(a, b)`: the bounds are clipped to the
      length. */
  function Slice(xs: seq<Byte>, a: nat, b: nat): (r: seq<Byte>)
    requires a <= b
    ensures |r| <= b - a
    ensures a <= |xs| ==> r == xs[a..if b <= |xs| then b else |xs|]
  {
    var hi := if b <= |xs| then b else |xs|;
    var lo := if a <= hi then a else hi;
    xs[lo..hi]
  }

  /** Bass level: the sum of the lowest 8 bins over 8 and 255. */
  function BassLevel(freq: seq<Byte>): (level: real)
    ensures 0.0 <= level <= 1.0
  {
    var bins := Slice(freq, 0, 8);
    LevelBound(Sum(bins), 8);
    Sum(bins) as real / 8.0 / 255.0
  }

  /** Tempo level: the sum of bins 32 to 127 over 96 and 255. */
  function TempoLevel(freq: seq<Byte>): (level: real)
    ensures 0.0 <= level <= 1.0
  {
    var bins := Slice(freq, 32, 128);
    LevelBound(Sum(bins), 96);
    Sum(bins) as real / 96.0 / 255.0
  }

  lemma LevelBound(sum: int, n: nat)
    requires n > 0 && 0 <= sum <= 255 * n
    ensures 0.0 <= sum as real / n as real / 255.0 <= 1.0
  {
    var x := sum as real / n as real;
    assert x * n as real == sum as real;
    if x > 255.0 {
      ScaleLt(255.0, x, n as real);
    }
  }

  /** `80 + Math.floor(tempoLevel * 120)` dots. */
  function DotCount(freq: seq<Byte>): (dots: int)
    ensures 80 <= dots <= 200
  {
    var tempo := TempoLevel(freq);
    FloorMonotone(0.0, tempo * 120.0);
    FloorMonotone(tempo * 120.0, 120.0);
    80 + (tempo * 120.0).Floor
  }

  /** Silence gives the lowest levels and the fewest dots; full-scale bins give
      the highest. */
  lemma LevelExtremes(freq: seq<Byte>)
    requires |freq| >= 128
    ensures (forall i :: 0 <= i < |freq| ==> freq[i] == 0) ==> BassLevel(freq) == 0.0 && DotCount(freq) == 80
    ensures (forall i :: 0 <= i < |freq| ==> freq[i] == 255) ==> BassLevel(freq) == 1.0 && DotCount(freq) == 200
  {
    if forall i :: 0 <= i < |freq| ==> freq[i] == 0 {
      SumConst(freq[0..8], 0);
      SumConst(freq[32..128], 0);
    }
    if forall i :: 0 <= i < |freq| ==> freq[i] == 255 {
      SumConst(freq[0..8], 255);
      SumConst(freq[32..128], 255);
    }
  }
}
