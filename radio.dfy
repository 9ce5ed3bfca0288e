/** The radio page: a 3D carousel of the catalog's mixes, navigated with the
    arrow keys, with a muted background loop that the first pointer press (or
    arrow key) unmutes, a key-press sound effect, an auto-spin that pauses for
    three seconds after each selection, and the drifting metaball entities
    behind it. */
module Radio {
  import opened Wrappers
  import opened JsText
  import opened JsNumber
  import opened Media
  import opened Catalog

  // ------------------------------------------------------------ navigation

  const ArrowLeft := "ArrowLeft"
  const ArrowRight := "ArrowRight"

  predicate IsArrow(key: string) {
    key == ArrowLeft || key == ArrowRight
  }

  /** The index after a key press with `n` items: left and right step with
      wrap-around, anything else, or an empty carousel, leaves it. */
  function Navigate(c: int, n: int, key: string): int {
    if n <= 0 then c
    else if key == ArrowLeft then JsRem(c - 1 + n, n)
    else if key == ArrowRight then JsRem(c + 1, n)
    else c
  }

  /** Arrow keys keep an in-range index in range, stepping to the
      neighbouring item and wrapping at the ends; other keys and an empty
      carousel change nothing. */
  lemma NavigateRange(c: int, n: int, key: string)
    ensures n <= 0 || !IsArrow(key) ==> Navigate(c, n, key) == c
    ensures 0 <= c < n && key == ArrowLeft ==> Navigate(c, n, key) == (if c == 0 then n - 1 else c - 1)
    ensures 0 <= c < n && key == ArrowRight ==> Navigate(c, n, key) == (if c == n - 1 then 0 else c + 1)
    ensures 0 <= c < n ==> 0 <= Navigate(c, n, key) < n
  {
    if 0 <= c < n {
      WrapStep(c, n);
    }
  }

  /** Left undoes right and right undoes left. */
  lemma NavigateInverse(c: int, n: int)
    requires 0 <= c < n
    ensures Navigate(Navigate(c, n, ArrowRight), n, ArrowLeft) == c
    ensures Navigate(Navigate(c, n, ArrowLeft), n, ArrowRight) == c
  {
    NavigateRange(c, n, ArrowRight);
    NavigateRange(c, n, ArrowLeft);
    NavigateRange(Navigate(c, n, ArrowRight), n, ArrowLeft);
    NavigateRange(Navigate(c, n, ArrowLeft), n, ArrowRight);
  }

  /** With two or more items an arrow key always moves the selection. */
  lemma NavigateMoves(c: int, n: int, key: string)
    requires 2 <= n && 0 <= c < n && IsArrow(key)
    ensures Navigate(c, n, key) != c
  {
    NavigateRange(c, n, key);
  }

  /** The clamp effect: with items present, an index past the end becomes the
      last index and a negative one becomes 0. */
  function Clamp(n: int, c: int): (r: int)
    ensures n > 0 ==> 0 <= r < n
    ensures (n <= 0 || 0 <= c < n) ==> r == c
    ensures n > 0 && c >= n ==> r == n - 1
    ensures n > 0 && c < 0 ==> r == 0
  {
    if n > 0 && c >= n then n - 1
    else if n > 0 && c < 0 then 0
    else c
  }

  // ------------------------------------------------------------ catalog

  /** One carousel item. */
  datatype Entry = Entry(img: string, title: string, desc: string, link: string)

  const CoverDir := "/mix-coverimage/"
  const TrackLink := "/trackplayer?track="

  function EntryOf(publicUrl: string, song: Song): Entry {
    Entry(publicUrl + CoverDir + song.coverimage, song.title, song.description, TrackLink + song.link)
  }

  /** `data.map(...)`: one item per song, in order. */
  function CatalogItems(publicUrl: string, songs: seq<Song>): (items: seq<Entry>)
    ensures |items| == |songs|
  {
    if songs == [] then [] else [EntryOf(publicUrl, songs[0])] + CatalogItems(publicUrl, songs[1..])
  }

  /** The item at each position is the one built from the song at that
      position. */
  lemma {:induction false} CatalogItemsAt(publicUrl: string, songs: seq<Song>, i: int)
    requires 0 <= i < |songs|
    ensures CatalogItems(publicUrl, songs)[i] == EntryOf(publicUrl, songs[i])
  {
    if i > 0 {
      CatalogItemsAt(publicUrl, songs[1..], i - 1);
    }
  }

  /** The mapping keeps the catalog's order: mapping two parts and joining
      them is mapping the whole. */
  lemma {:induction false} CatalogItemsConcat(publicUrl: string, a: seq<Song>, b: seq<Song>)
    ensures CatalogItems(publicUrl, a + b) == CatalogItems(publicUrl, a) + CatalogItems(publicUrl, b)
  {
    if a == [] {
      assert a + b == b;
    } else {
      assert (a + b)[0] == a[0];
      assert (a + b)[1..] == a[1..] + b;
      CatalogItemsConcat(publicUrl, a[1..], b);
      ConcatAssoc([EntryOf(publicUrl, a[0])], CatalogItems(publicUrl, a[1..]), CatalogItems(publicUrl, b));
    }
  }

  /** The track an item link names: the text after `/trackplayer?track=`. */
  function TrackOf(link: string): (track: Option<string>)
    ensures track.Some? ==> link == TrackLink + track.value
  {
    if |TrackLink| <= |link| && link[..|TrackLink|] == TrackLink then Some(link[|TrackLink|..]) else None
  }

  /** Every item links to the player with its own song's link. */
  lemma EntryLinksTrack(publicUrl: string, song: Song)
    ensures TrackOf(EntryOf(publicUrl, song).link) == Some(song.link)
  {
    var link := TrackLink + song.link;
    assert link[..|TrackLink|] == TrackLink;
    assert link[|TrackLink|..] == song.link;
  }

  // ------------------------------------------------------------ carousel

  /** `Math.max(items.length, 1)`. */
  function CarouselN(len: nat): (n: nat)
    ensures n >= 1 && (len > 0 ==> n == len) && (len == 0 ==> n == 1)
  {
    if len > 1 then len else 1
  }

  /** The angle an item sits at around the cylinder. */
  function ItemAngle(i: int, n: nat): real
    requires n > 0
  {
    (2.0 * PI / n as real) * i as real
  }

  /** The rotation that brings the selected item to the front. */
  function TargetAngle(current: int, len: nat): real {
    -((2.0 * PI / CarouselN(len) as real) * current as real)
  }

  /** The target rotation turns the selected item to angle 0, the items are
      spaced evenly, and together they fill exactly one turn. */
  lemma CarouselGeometry(current: int, len: nat, i: int)
    ensures TargetAngle(current, len) + ItemAngle(current, CarouselN(len)) == 0.0
    ensures ItemAngle(i + 1, CarouselN(len)) - ItemAngle(i, CarouselN(len)) == 2.0 * PI / CarouselN(len) as real
    ensures ItemAngle(CarouselN(len), CarouselN(len)) == 2.0 * PI
  {
    var n := CarouselN(len) as real;
    var step := 2.0 * PI / n;
    assert step * n == 2.0 * PI;
    assert step * (i + 1) as real == step * i as real + step;
  }

  /** The auto-spin state of the carousel: whether it spins, its angle, and
      the time and index of the last selection. */
  datatype SpinControl = SpinControl(autoSpin: bool, autoAngle: real, lastUserAction: int, lastCurrent: int)

  /** Auto-spin increment per frame. */
  const SpinStep: real := 0.008
  /** Pause after a selection, in milliseconds. */
  const PauseMs: int := 3000

  /** The selection effect: auto-spin stops and the time and index are noted. */
  function Select(st: SpinControl, now: int, current: int): SpinControl {
    st.(autoSpin := false, lastUserAction := now, lastCurrent := current)
  }

  /** The frame callback: a spinning carousel advances; a paused one resumes
      once more than three seconds have passed on the same selection. */
  function Frame(st: SpinControl, now: int, current: int, hasGroup: bool): SpinControl {
    var angle := if st.autoSpin && hasGroup then st.autoAngle + SpinStep else st.autoAngle;
    var resume := !st.autoSpin && now - st.lastUserAction > PauseMs && st.lastCurrent == current;
    st.(autoAngle := angle, autoSpin := st.autoSpin || resume)
  }

  datatype Tick = Tick(now: int, current: int)

  function Frames(st: SpinControl, ticks: seq<Tick>, hasGroup: bool): SpinControl
    decreases |ticks|
  {
    if ticks == [] then st else Frames(Frame(st, ticks[0].now, ticks[0].current, hasGroup), ticks[1..], hasGroup)
  }

  /** After a selection the carousel stands still for three seconds, whatever
      frames are drawn. */
  lemma {:induction false} PausedAfterSelect(st: SpinControl, t0: int, c: int, ticks: seq<Tick>, hasGroup: bool)
    requires forall k :: 0 <= k < |ticks| ==> ticks[k].now <= t0 + PauseMs
    ensures Frames(Select(st, t0, c), ticks, hasGroup) == Select(st, t0, c)
    decreases |ticks|
  {
    if ticks != [] {
      assert Frame(Select(st, t0, c), ticks[0].now, ticks[0].current, hasGroup) == Select(st, t0, c);
      PausedAfterSelect(st, t0, c, ticks[1..], hasGroup);
    }
  }

  /** A frame more than three seconds after the selection, on the same item,
      resumes the spin; from then on each frame turns it a step further. */
  lemma ResumesAfterPause(st: SpinControl, now: int, current: int, hasGroup: bool)
    ensures !st.autoSpin && now - st.lastUserAction > PauseMs && st.lastCurrent == current ==>
      Frame(st, now, current, hasGroup).autoSpin
    ensures st.autoSpin ==> (Frame(st, now, current, hasGroup).autoSpin &&
      Frame(st, now, current, hasGroup).autoAngle == st.autoAngle + (if hasGroup then SpinStep else 0.0))
    ensures !st.autoSpin ==> Frame(st, now, current, hasGroup).autoAngle == st.autoAngle
  {
  }

  /** `Carousel3D`'s auto-spin state and refs. */
  class Carousel {
    var autoSpin: bool
    var autoAngle: real
    var lastUserAction: int
    var lastCurrent: int

    function State(): SpinControl
      reads this
    {
      SpinControl(autoSpin, autoAngle, lastUserAction, lastCurrent)
    }

    /** Mounting at time `now` with `current` selected: the initial state,
        then the selection effect's first run. */
    constructor(now: int, current: int)
      ensures State() == Select(SpinControl(true, 0.0, now, current), now, current)
    {
      autoSpin := true;
      autoAngle := 0.0;
      lastUserAction := now;
      lastCurrent := current;
      new;
      SelectionChanged(now, current);
    }

    method SelectionChanged(now: int, current: int)
      modifies this
      ensures State() == Select(old(State()), now, current)
    {
      autoSpin := false;
      lastUserAction := now;
      lastCurrent := current;
    }

    method OnFrame(now: int, current: int, hasGroup: bool)
      modifies this
      ensures State() == Frame(old(State()), now, current, hasGroup)
    {
      var spinning := autoSpin;
      if spinning && hasGroup {
        autoAngle := autoAngle + SpinStep;
      }
      if !spinning && now - lastUserAction > PauseMs && lastCurrent == current {
        autoSpin := true;
      }
    }
  }

  // ------------------------------------------------------------ page

  /** The page's state. `keyN` is the item count the registered key listener
      sees: the listener is re-registered only when `audioReady` changes, so
      it keeps the count of that moment. */
  class RadioPage {
    var current: int
    var items: seq<Entry>
    var loading: bool
    var audioReady: bool
    var keyN: int
    var pointerListening: bool
    const audio: AudioElement
    const sfx: AudioElement

    /** The page between events: the selection is in range once there are
        items, the catalog arrives once, and the key listener's count is either
        the mount-time 0 or the catalog's size. */
    predicate Valid()
      reads this
    {
      && audio != sfx
      && 0 <= current
      && (|items| > 0 ==> current < |items|)
      && (loading ==> items == [])
      && (keyN == 0 || keyN == |items|)
    }

    /** Mounting: nothing loaded, audio locked, the key listener registered
        with no items and the pointer listener waiting. */
    constructor(audio0: AudioElement, sfx0: AudioElement)
      requires audio0 != sfx0
      ensures Valid()
      ensures audio == audio0 && sfx == sfx0
      ensures current == 0 && items == [] && loading && !audioReady && keyN == 0 && pointerListening
    {
      audio, sfx := audio0, sfx0;
      current, items, loading := 0, [], true;
      audioReady, keyN, pointerListening := false, 0, true;
    }

    /** `playSFX`: the effect restarts at low volume. */
    method PlaySFX()
      modifies sfx
      ensures sfx.volume == 0.12 && sfx.currentTime == 0.0 && sfx.playRequests == old(sfx.playRequests) + 1
      ensures sfx.src == old(sfx.src) && sfx.muted == old(sfx.muted) && sfx.visible == old(sfx.visible)
    {
      sfx.volume := 0.12;
      sfx.currentTime := 0.0;
      sfx.Play();
    }

    /** `unlockAudio`, followed by what the change of `audioReady` sets off:
        the key listener is registered again with the current item count and
        the background loop starts playing. */
    method UnlockAudio()
      requires Valid()
      modifies this, audio
      ensures Valid()
      ensures !audio.muted && audio.volume == 0.85 && audioReady
      ensures audio.playRequests == old(audio.playRequests) + (if old(audioReady) then 0 else 1)
      ensures keyN == (if old(audioReady) then old(keyN) else |items|)
      ensures current == old(current) && items == old(items) && loading == old(loading)
      ensures pointerListening == old(pointerListening)
      ensures audio.src == old(audio.src) && audio.currentTime == old(audio.currentTime) && audio.visible == old(audio.visible)
    {
      audio.muted := false;
      audio.volume := 0.85;
      if !audioReady {
        audioReady := true;
        keyN := |items|;
        audio.Play();
      }
    }

    /** `handleKey` run with the item count `n` its closure reads: with items,
        an arrow moves the selection with wrap-around and plays the effect, and
        while the audio is locked it also unlocks it; any other key, or no
        items, changes nothing. */
    method KeyDown(n: int, key: string)
      requires Valid() && (n == 0 || n == |items|)
      modifies this, audio, sfx
      ensures Valid()
      ensures current == Navigate(old(current), n, key)
      ensures n >= 2 && IsArrow(key) ==> current != old(current)
      ensures audioReady == (old(audioReady) || (n > 0 && IsArrow(key)))
      ensures items == old(items) && loading == old(loading) && pointerListening == old(pointerListening)
      ensures keyN == (if audioReady == old(audioReady) then old(keyN) else |items|)
      // the loop: unmuted, at volume 0.85 and started exactly when this key unlocks it
      ensures !old(audioReady) && n > 0 && IsArrow(key) ==>
        !audio.muted && audio.volume == 0.85 && audio.playRequests == old(audio.playRequests) + 1
      ensures !(!old(audioReady) && n > 0 && IsArrow(key)) ==>
        audio.muted == old(audio.muted) && audio.volume == old(audio.volume) && audio.playRequests == old(audio.playRequests)
      ensures audio.src == old(audio.src) && audio.currentTime == old(audio.currentTime) && audio.visible == old(audio.visible)
      // the effect: restarted at volume 0.12 exactly when an arrow moves the selection
      ensures n > 0 && IsArrow(key) ==>
        sfx.volume == 0.12 && sfx.currentTime == 0.0 && sfx.playRequests == old(sfx.playRequests) + 1
      ensures !(n > 0 && IsArrow(key)) ==>
        sfx.volume == old(sfx.volume) && sfx.currentTime == old(sfx.currentTime) && sfx.playRequests == old(sfx.playRequests)
      ensures sfx.src == old(sfx.src) && sfx.muted == old(sfx.muted) && sfx.visible == old(sfx.visible)
    {
      if n <= 0 {
        return;
      }
      MoveSelection(n, key);
      if !audioReady && (key == ArrowLeft || key == ArrowRight) {
        UnlockAudio();
      }
    }

    /** The arrow branches of `handleKey`: the selection steps with
        wrap-around and the effect is played; other keys change nothing. */
    method MoveSelection(n: int, key: string)
      requires Valid() && n == |items| > 0
      modifies this`current, sfx
      ensures Valid()
      ensures current == Navigate(old(current), n, key)
      ensures n >= 2 && IsArrow(key) ==> current != old(current)
      ensures IsArrow(key) ==>
        sfx.volume == 0.12 && sfx.currentTime == 0.0 && sfx.playRequests == old(sfx.playRequests) + 1
      ensures !IsArrow(key) ==>
        sfx.volume == old(sfx.volume) && sfx.currentTime == old(sfx.currentTime) && sfx.playRequests == old(sfx.playRequests)
      ensures sfx.src == old(sfx.src) && sfx.muted == old(sfx.muted) && sfx.visible == old(sfx.visible)
    {
      NavigateRange(current, n, key);
      if IsArrow(key) && n >= 2 {
        NavigateMoves(current, n, key);
      }
      if key == ArrowLeft {
        current := JsRem(current - 1 + n, n);
        PlaySFX();
      }
      if key == ArrowRight {
        current := JsRem(current + 1, n);
        PlaySFX();
      }
    }

    /** The key listener as written: its closure reads the count captured
        when it was last registered. */
    method HandleKeyAsWritten(key: string)
      requires Valid()
      modifies this, audio, sfx
      ensures Valid()
      ensures current == Navigate(old(current), old(keyN), key)
      ensures audioReady == (old(audioReady) || (old(keyN) > 0 && IsArrow(key)))
      ensures items == old(items) && loading == old(loading) && pointerListening == old(pointerListening)
      ensures keyN == (if audioReady == old(audioReady) then old(keyN) else |items|)
      ensures !old(audioReady) && old(keyN) > 0 && IsArrow(key) ==>
        !audio.muted && audio.volume == 0.85 && audio.playRequests == old(audio.playRequests) + 1
      ensures !(!old(audioReady) && old(keyN) > 0 && IsArrow(key)) ==>
        audio.muted == old(audio.muted) && audio.volume == old(audio.volume) && audio.playRequests == old(audio.playRequests)
      ensures audio.src == old(audio.src) && audio.currentTime == old(audio.currentTime) && audio.visible == old(audio.visible)
      ensures old(keyN) > 0 && IsArrow(key) ==>
        sfx.volume == 0.12 && sfx.currentTime == 0.0 && sfx.playRequests == old(sfx.playRequests) + 1
      ensures !(old(keyN) > 0 && IsArrow(key)) ==>
        sfx.volume == old(sfx.volume) && sfx.currentTime == old(sfx.currentTime) && sfx.playRequests == old(sfx.playRequests)
      ensures sfx.src == old(sfx.src) && sfx.muted == old(sfx.muted) && sfx.visible == old(sfx.visible)
    {
      KeyDown(keyN, key);
    }

    /** The key listener as intended: it reads the live item count, so the
        arrow keys work, and unlock the audio, as soon as there are items. */
    method HandleKey(key: string)
      requires Valid()
      modifies this, audio, sfx
      ensures Valid()
      ensures current == Navigate(old(current), |items|, key)
      ensures |items| >= 2 && IsArrow(key) ==> current != old(current)
      ensures audioReady == (old(audioReady) || (|items| > 0 && IsArrow(key)))
      ensures items == old(items) && loading == old(loading) && pointerListening == old(pointerListening)
      ensures keyN == (if audioReady == old(audioReady) then old(keyN) else |items|)
      ensures !old(audioReady) && |items| > 0 && IsArrow(key) ==>
        !audio.muted && audio.volume == 0.85 && audio.playRequests == old(audio.playRequests) + 1
      ensures !(!old(audioReady) && |items| > 0 && IsArrow(key)) ==>
        audio.muted == old(audio.muted) && audio.volume == old(audio.volume) && audio.playRequests == old(audio.playRequests)
      ensures audio.src == old(audio.src) && audio.currentTime == old(audio.currentTime) && audio.visible == old(audio.visible)
      ensures |items| > 0 && IsArrow(key) ==>
        sfx.volume == 0.12 && sfx.currentTime == 0.0 && sfx.playRequests == old(sfx.playRequests) + 1
      ensures !(|items| > 0 && IsArrow(key)) ==>
        sfx.volume == old(sfx.volume) && sfx.currentTime == old(sfx.currentTime) && sfx.playRequests == old(sfx.playRequests)
      ensures sfx.src == old(sfx.src) && sfx.muted == old(sfx.muted) && sfx.visible == old(sfx.visible)
    {
      KeyDown(|items|, key);
    }

    /** The one-shot pointer listener: the first press unlocks the audio and
        removes the listener; once removed, presses change nothing. */
    method PointerDown()
      requires Valid()
      modifies this, audio
      ensures Valid()
      ensures !pointerListening
      ensures current == old(current) && items == old(items) && loading == old(loading)
      ensures old(pointerListening) ==> audioReady && !audio.muted && audio.volume == 0.85
      ensures old(pointerListening) ==>
        keyN == (if old(audioReady) then old(keyN) else |items|)
        && audio.playRequests == old(audio.playRequests) + (if old(audioReady) then 0 else 1)
      ensures !old(pointerListening) ==> audioReady == old(audioReady) && keyN == old(keyN)
      ensures !old(pointerListening) ==>
        audio.muted == old(audio.muted) && audio.volume == old(audio.volume) && audio.playRequests == old(audio.playRequests)
      ensures audio.src == old(audio.src) && audio.currentTime == old(audio.currentTime) && audio.visible == old(audio.visible)
    {
      if pointerListening {
        UnlockAudio();
        pointerListening := false;
      }
    }

    /** The catalog fetch settling: on success the songs become items; either
        way loading ends; then the clamp effect brings the index into range. */
    method LoadCatalog(publicUrl: string, data: Option<seq<Song>>)
      requires Valid() && loading
      modifies this
      ensures Valid()
      ensures items == (if data.Some? then CatalogItems(publicUrl, data.value) else [])
      ensures !loading
      ensures current == Clamp(|items|, old(current))
      ensures audioReady == old(audioReady) && keyN == old(keyN) && pointerListening == old(pointerListening)
    {
      if data.Some? {
        items := CatalogItems(publicUrl, data.value);
      }
      loading := false;
      current := Clamp(|items|, current);
    }
  }

  /** A visitor who clicks before the catalog has arrived: the listener keeps
      the count 0 it saw at that click, so the arrow keys never move the
      carousel, while the intended listener does. */
  method StaleKeyListener(audio0: AudioElement, sfx0: AudioElement, publicUrl: string, songs: seq<Song>)
    returns (page: RadioPage)
    requires audio0 != sfx0 && |songs| >= 2
    modifies audio0, sfx0
    ensures |page.items| == |songs| && page.audioReady && page.keyN == 0
    ensures page.current == 0
  {
    page := new RadioPage(audio0, sfx0);
    page.PointerDown();
    page.LoadCatalog(publicUrl, Some(songs));
    page.HandleKeyAsWritten(ArrowRight);
    page.HandleKeyAsWritten(ArrowLeft);
    assert page.current == 0;
    NavigateRange(0, |songs|, ArrowRight);
    NavigateRange(1, |songs|, ArrowLeft);
    page.HandleKey(ArrowRight);
    assert page.current == 1;
    page.HandleKeyAsWritten(ArrowRight);
    assert page.current == 1;
    page.HandleKey(ArrowLeft);
  }

  /** A keyboard-only visitor: with the count 0 captured at mount the arrow
      keys neither move the carousel nor unlock the audio. */
  method KeyboardOnlyVisitor(audio0: AudioElement, sfx0: AudioElement, publicUrl: string, songs: seq<Song>)
    returns (page: RadioPage)
    requires audio0 != sfx0 && |songs| >= 2
    modifies audio0, sfx0
    ensures |page.items| == |songs| && !page.audioReady && page.current == 0
  {
    page := new RadioPage(audio0, sfx0);
    page.LoadCatalog(publicUrl, Some(songs));
    page.HandleKeyAsWritten(ArrowRight);
    page.HandleKeyAsWritten(ArrowLeft);
  }

  // ------------------------------------------------------------ metaballs

  /** One drifting entity of the metaball line. */
  datatype Blob = Blob(angle: real, dist: real, speed: real, radius: real, hue: real, t: real)

  /** The three sine values a step uses, `Math.sin(t / 120 + i)`,
      `Math.sin(t / 40 + i)` and `Math.sin(t / 200 + i)`. */
  datatype Waves = Waves(sway: real, pulse: real, shimmer: real)

  predicate WavesOk(w: Waves) {
    -1.0 <= w.sway <= 1.0 && -1.0 <= w.pulse <= 1.0 && -1.0 <= w.shimmer <= 1.0
  }

  /** A non-negative distance, a hue within [0, 360) and a non-negative
      speed: what every entity keeps, whatever the window does. */
  predicate BlobShape(e: Blob) {
    0.0 <= e.dist && 0.0 <= e.hue < 360.0 && e.speed >= 0.0
  }

  /** The shape, with the distance within the cap of a window `width` wide. */
  predicate BlobOk(e: Blob, width: real) {
    BlobShape(e) && e.dist <= width * 0.45
  }

  /** One entity's update in the animation step, for the window width read
      when the animation last measured the window. */
  function DriftBlob(e: Blob, width: real, w: Waves): (r: Blob)
    ensures r.t == e.t + 1.0 && r.speed == e.speed
    ensures r.dist <= width * 0.45
    ensures r.dist == e.dist + e.speed * 2.0 || r.dist == width * 0.45
    ensures BlobOk(e, width) ==> e.dist <= r.dist
    ensures BlobShape(e) && width >= 0.0 && WavesOk(w) ==> BlobOk(r, width) && 20.0 <= r.radius <= 56.0
  {
    var t := e.t + 1.0;
    var grown := e.dist + e.speed * 2.0;
    var dist := if grown < width * 0.45 then grown else width * 0.45;
    Blob(e.angle + w.sway * 0.01, dist, e.speed, 38.0 + w.pulse * 18.0,
         JsRealRem(e.hue + 0.3 + w.shimmer * 0.2, 360.0), t)
  }

  /** A window narrowed below an entity pulls the entity in to the new cap:
      the distance shrinks. */
  lemma NarrowingPullsIn(e: Blob, width: real, w: Waves)
    requires BlobShape(e) && e.dist > width * 0.45
    ensures DriftBlob(e, width, w).dist == width * 0.45 < e.dist
  {
  }

  /** The step over all entities. */
  function Drift(es: seq<Blob>, width: real, waves: seq<Waves>): (r: seq<Blob>)
    requires |waves| == |es|
    ensures |r| == |es|
    ensures forall i :: 0 <= i < |es| ==> r[i] == DriftBlob(es[i], width, waves[i])
  {
    seq(|es|, i requires 0 <= i < |es| => DriftBlob(es[i], width, waves[i]))
  }

  /** Frames that all supply one wave triple per entity. */
  predicate FramesFit(n: nat, frames: seq<seq<Waves>>) {
    forall f :: 0 <= f < |frames| ==> |frames[f]| == n
  }

  lemma FramesFitTail(n: nat, frames: seq<seq<Waves>>)
    requires FramesFit(n, frames) && frames != []
    ensures FramesFit(n, frames[1..])
  {
    forall f | 0 <= f < |frames[1..]| ensures |frames[1..][f]| == n {
      assert frames[1..][f] == frames[f + 1];
    }
  }

  /** The entities after a run of frames, frame `f` drawn in a window
      `widths[f]` wide. */
  function DriftMany(es: seq<Blob>, widths: seq<real>, frames: seq<seq<Waves>>): (r: seq<Blob>)
    requires |widths| == |frames| && FramesFit(|es|, frames)
    ensures |r| == |es|
    decreases |frames|
  {
    if frames == [] then es
    else
      FramesFitTail(|es|, frames);
      DriftMany(Drift(es, widths[0], frames[0]), widths[1..], frames[1..])
  }

  predicate AllWavesOk(frames: seq<seq<Waves>>) {
    forall f, k :: 0 <= f < |frames| && 0 <= k < |frames[f]| ==> WavesOk(frames[f][k])
  }

  lemma AllWavesOkTail(frames: seq<seq<Waves>>)
    requires AllWavesOk(frames) && frames != []
    ensures AllWavesOk(frames[1..])
  {
    forall f, k | 0 <= f < |frames[1..]| && 0 <= k < |frames[1..][f]| ensures WavesOk(frames[1..][f][k]) {
      assert frames[1..][f] == frames[f + 1];
    }
  }

  /** Over any number of frames every entity keeps its shape, its `t` counts
      the frames, and its distance is within the cap of the last frame's
      window. */
  lemma {:induction false} DriftFrames(es: seq<Blob>, widths: seq<real>, frames: seq<seq<Waves>>, i: int)
    requires 0 <= i < |es| && BlobShape(es[i])
    requires |widths| == |frames| && FramesFit(|es|, frames) && AllWavesOk(frames)
    requires forall f :: 0 <= f < |widths| ==> widths[f] >= 0.0
    ensures var r := DriftMany(es, widths, frames);
      BlobShape(r[i]) && r[i].t == es[i].t + |frames| as real
      && (frames != [] ==> r[i].dist <= widths[|widths| - 1] * 0.45)
    decreases |frames|
  {
    if frames != [] {
      var es1 := Drift(es, widths[0], frames[0]);
      assert WavesOk(frames[0][i]);
      FramesFitTail(|es|, frames);
      AllWavesOkTail(frames);
      DriftFrames(es1, widths[1..], frames[1..], i);
      if frames[1..] == [] {
        assert DriftMany(es, widths, frames) == es1;
      }
    }
  }

  /** While the window never narrows, an entity that starts within the cap
      never moves inwards. */
  lemma {:induction false} DriftOutwards(es: seq<Blob>, widths: seq<real>, frames: seq<seq<Waves>>, i: int)
    requires 0 <= i < |es| && |widths| == |frames| && FramesFit(|es|, frames) && AllWavesOk(frames)
    requires frames != [] ==> BlobOk(es[i], widths[0])
    requires forall f, g :: 0 <= f <= g < |widths| ==> widths[f] <= widths[g]
    ensures es[i].dist <= DriftMany(es, widths, frames)[i].dist
    decreases |frames|
  {
    if frames != [] {
      var es1 := Drift(es, widths[0], frames[0]);
      assert WavesOk(frames[0][i]);
      FramesFitTail(|es|, frames);
      AllWavesOkTail(frames);
      if frames[1..] != [] {
        assert widths[1..][0] == widths[1];
        assert widths[0] <= widths[1];
        assert BlobOk(es1[i], widths[1]);
      }
      DriftOutwards(es1, widths[1..], frames[1..], i);
    }
  }
}
