/** The neon background's per-frame state: the grid colour cycling through a
    palette, the expanding rings of each layer, and the music level read from
    the analyser. */
module NeonGrids {
  import opened JsNumber

  // ------------------------------------------------------------ colours

  datatype Rgb = Rgb(r: int, g: int, b: int)

  predicate ChannelsOk(c: Rgb) {
    0 <= c.r <= 255 && 0 <= c.g <= 255 && 0 <= c.b <= 255
  }

  function Min(a: int, b: int): int { if a <= b then a else b }
  function Max(a: int, b: int): int { if a <= b then b else a }

  /** `Math.round(a + (b - a) * frac)`. */
  function Channel(a: int, b: int, frac: real): int {
    Round(a as real + (b - a) as real * frac)
  }

  /** An interpolated channel lies between its two endpoints. */
  lemma ChannelBetween(a: int, b: int, frac: real)
    requires 0.0 <= frac <= 1.0
    ensures Min(a, b) <= Channel(a, b, frac) <= Max(a, b)
  {
    var x := a as real + (b - a) as real * frac;
    if a <= b {
      ScaleLe(0.0, frac, (b - a) as real + 1.0);
      assert (b - a) as real * frac >= 0.0 by {
        if b > a { ScaleLe(0.0, frac, (b - a) as real); }
      }
      assert (b - a) as real * frac <= (b - a) as real by {
        if b > a { ScaleLe(frac, 1.0, (b - a) as real); }
      }
      RoundBetween(a, b, x);
    } else {
      ScaleLe(0.0, frac, (a - b) as real);
      ScaleLe(frac, 1.0, (a - b) as real);
      RoundBetween(b, a, x);
    }
  }

  /** `Math.floor(t * (n - 1))`: the palette segment `t` falls in. */
  function Segment(t: real, n: nat): int {
    (t * (n - 1) as real).Floor
  }

  /** The fractional position of `t` within its segment. */
  function Frac(t: real, n: nat): (f: real)
    ensures 0.0 <= f < 1.0
  {
    t * (n - 1) as real - Segment(t, n) as real
  }

  /** Every channel of `a` moved the fraction `frac` towards `b`. */
  function Mix(a: Rgb, b: Rgb, frac: real): (c: Rgb)
    ensures 0.0 <= frac <= 1.0 ==>
      && Min(a.r, b.r) <= c.r <= Max(a.r, b.r)
      && Min(a.g, b.g) <= c.g <= Max(a.g, b.g)
      && Min(a.b, b.b) <= c.b <= Max(a.b, b.b)
  {
    var c := Rgb(Channel(a.r, b.r, frac), Channel(a.g, b.g, frac), Channel(a.b, b.b, frac));
    assert 0.0 <= frac <= 1.0 ==>
      && Min(a.r, b.r) <= c.r <= Max(a.r, b.r)
      && Min(a.g, b.g) <= c.g <= Max(a.g, b.g)
      && Min(a.b, b.b) <= c.b <= Max(a.b, b.b) by {
      if 0.0 <= frac <= 1.0 {
        ChannelBetween(a.r, b.r, frac);
        ChannelBetween(a.g, b.g, frac);
        ChannelBetween(a.b, b.b, frac);
      }
    }
    c
  }

  /** `lerpColors(colors, t)`, as the colour it formats. */
  function LerpColors(colors: seq<Rgb>, t: real): Rgb
    requires |colors| >= 1 && t >= 0.0
  {
    var n := |colors|;
    var i := Segment(t, n);
    SegmentNonNegative(t, n);
    Mix(colors[JsRem(i, n)], colors[JsRem(i + 1, n)], Frac(t, n))
  }

  lemma SegmentNonNegative(t: real, n: nat)
    requires t >= 0.0 && n >= 1
    ensures Segment(t, n) >= 0
  {
    ScaleLe(0.0, t, (n - 1) as real + 1.0);
    assert t * (n - 1) as real >= 0.0 by {
      if n > 1 { ScaleLe(0.0, t, (n - 1) as real); }
    }
    FloorMonotone(0.0, t * (n - 1) as real);
  }

  /** For `t` in [0, 1) and at least two colours, the segment is a valid
      index whose successor is too: no wrap-around happens. */
  lemma SegmentInRange(t: real, n: nat)
    requires 0.0 <= t < 1.0 && n >= 2
    ensures 0 <= Segment(t, n) <= n - 2
    ensures JsRem(Segment(t, n), n) == Segment(t, n) && JsRem(Segment(t, n) + 1, n) == Segment(t, n) + 1
  {
    SegmentNonNegative(t, n);
    var m := (n - 1) as real;
    var i := Segment(t, n);
    ScaleLt(t, 1.0, m);
    assert i as real <= t * m < m;
    assert i < n - 1;
    SmallRem(i, n);
    SmallRem(i + 1, n);
  }

  /** Each channel of the interpolated colour lies between the channels of
      the two palette entries around `t`. */
  lemma LerpBetween(colors: seq<Rgb>, t: real)
    requires 0.0 <= t < 1.0 && |colors| >= 2
    ensures 0 <= Segment(t, |colors|) <= |colors| - 2
    ensures var i, c := Segment(t, |colors|), LerpColors(colors, t);
      && Min(colors[i].r, colors[i + 1].r) <= c.r <= Max(colors[i].r, colors[i + 1].r)
      && Min(colors[i].g, colors[i + 1].g) <= c.g <= Max(colors[i].g, colors[i + 1].g)
      && Min(colors[i].b, colors[i + 1].b) <= c.b <= Max(colors[i].b, colors[i + 1].b)
  {
    var n := |colors|;
    var i := Segment(t, n);
    SegmentInRange(t, n);
    var frac := Frac(t, n);
    assert 0.0 <= frac <= 1.0;
    var a, b := colors[i], colors[i + 1];
    assert LerpColors(colors, t) == Mix(a, b, frac);
  }

  /** At `t = k / (n - 1)` the colour is exactly the palette's entry `k`. */
  lemma LerpAtKnot(colors: seq<Rgb>, k: nat)
    requires |colors| >= 2 && k < |colors| - 1
    ensures LerpColors(colors, k as real / (|colors| - 1) as real) == colors[k]
  {
    var n := |colors|;
    var m := (n - 1) as real;
    var t := k as real / m;
    assert t * m == k as real;
    assert Segment(t, n) == k;
    SegmentInRange(t, n);
    assert t < 1.0 by {
      if t >= 1.0 { ScaleLe(1.0, t, m); }
    }
    var c := colors[k];
    assert Channel(c.r, colors[k + 1].r, 0.0) == c.r;
    assert Channel(c.g, colors[k + 1].g, 0.0) == c.g;
    assert Channel(c.b, colors[k + 1].b, 0.0) == c.b;
  }

  /** The grid's colour cycle: blue, teal, purple, pink and back to blue. */
  const GridPalette: seq<Rgb> := [
    Rgb(102, 204, 255), Rgb(0, 255, 200), Rgb(180, 80, 255), Rgb(255, 80, 180), Rgb(102, 204, 255)]

  /** `(elapsed * (0.15 + musicLevel * 1.2)) % 1`. */
  function ColorT(elapsed: real, level: real): (t: real)
    ensures elapsed >= 0.0 && level >= 0.0 ==> 0.0 <= t < 1.0
  {
    var rate := 0.15 + level * 1.2;
    assert elapsed >= 0.0 && level >= 0.0 ==> elapsed * rate >= 0.0 by {
      if elapsed >= 0.0 && level >= 0.0 { ScaleLe(0.0, elapsed, rate); }
    }
    JsRealRem(elapsed * rate, 1.0)
  }

  /** The grid colour is always a valid RGB colour, for any non-negative
      clock and level. */
  lemma GridColorValid(elapsed: real, level: real)
    requires elapsed >= 0.0 && level >= 0.0
    ensures ChannelsOk(LerpColors(GridPalette, ColorT(elapsed, level)))
  {
    var t := ColorT(elapsed, level);
    LerpBetween(GridPalette, t);
    SegmentInRange(t, |GridPalette|);
  }

  // ------------------------------------------------------------ music level

  /** `Math.min(1, avg / 128)` for the average of the analyser's bins. */
  function MusicLevel(bins: seq<Byte>): (level: real)
    requires |bins| > 0
    ensures 0.0 <= level <= 1.0
    ensures Sum(bins) as real / |bins| as real <= 128.0 ==> level == Sum(bins) as real / |bins| as real / 128.0
  {
    var avg := Sum(bins) as real / |bins| as real;
    var x := avg / 128.0;
    if 1.0 <= x then 1.0 else x
  }

  // ------------------------------------------------------------ rings

  /** One ring layer: its inner radius, speed factor, ring width and
      opacity. */
  datatype Layer = Layer(base: real, speed: real, width: real, opacity: real)

  const Layers: seq<Layer> := [
    Layer(2.0, 1.0, 1.5, 0.18), Layer(5.0, 0.7, 2.2, 0.12), Layer(8.0, 1.3, 2.8, 0.10),
    Layer(12.0, 0.5, 3.5, 0.09), Layer(17.0, 1.1, 2.5, 0.07), Layer(21.0, 0.9, 3.8, 0.06),
    Layer(26.0, 1.5, 4.2, 0.05)]

  /** A ring: its progress `t` from 0 (just born) to 1 (gone), and its key. */
  datatype Ring = Ring(t: real, key: real)

  /** The rings each layer starts with: one at 0 and one halfway. */
  function InitialRings(n: nat): (rs: seq<seq<Ring>>)
    ensures |rs| == n
    ensures forall i :: 0 <= i < n ==> rs[i] == [Ring(0.0, (i * 100) as real), Ring(0.5, (i * 100 + 1) as real)]
  {
    seq(n, i => [Ring(0.0, (i * 100) as real), Ring(0.5, (i * 100 + 1) as real)])
  }

  /** How far a ring moves in one frame. */
  function Advance(delta: real, level: real, speed: real): (step: real)
    ensures delta >= 0.0 && level >= 0.0 && speed >= 0.0 ==> step >= 0.0
  {
    var rate := 0.25 + level * 1.5;
    assert delta >= 0.0 && level >= 0.0 && speed >= 0.0 ==> delta * rate * speed >= 0.0 by {
      if delta >= 0.0 && level >= 0.0 && speed >= 0.0 {
        ScaleLe(0.0, delta, rate);
        if speed > 0.0 { ScaleLe(0.0, delta * rate, speed); }
      }
    }
    delta * rate * speed
  }

  function Moved(rings: seq<Ring>, step: real): (r: seq<Ring>)
    ensures |r| == |rings|
    ensures forall k :: 0 <= k < |rings| ==> r[k] == Ring(rings[k].t + step, rings[k].key)
  {
    seq(|rings|, k requires 0 <= k < |rings| => Ring(rings[k].t + step, rings[k].key))
  }

  function Unfinished(rings: seq<Ring>): (r: seq<Ring>)
    ensures |r| <= |rings|
    ensures forall ring <- r :: ring in rings && ring.t < 1.0
    ensures forall ring <- rings :: ring.t < 1.0 ==> ring in r
  {
    if rings == [] then []
    else (if rings[0].t < 1.0 then [rings[0]] else []) + Unfinished(rings[1..])
  }

  /** One layer's frame: every ring advances, finished ones are dropped, and
      a fresh ring is born when fewer than two remain. */
  function LayerFrame(rings: seq<Ring>, step: real, freshKey: real): seq<Ring> {
    var next := Unfinished(Moved(rings, step));
    if |next| < 2 then next + [Ring(0.0, freshKey)] else next
  }

  /** What a layer holds between frames: one or two rings, each between born
      and gone. */
  predicate RingsOk(rings: seq<Ring>) {
    1 <= |rings| <= 2 && forall ring <- rings :: 0.0 <= ring.t < 1.0
  }

  /** A frame keeps a layer well-formed; the rings it keeps are the advanced
      rings that have not finished, with their keys; at most one ring is
      born, at 0, with the fresh key. */
  lemma LayerFrameFacts(rings: seq<Ring>, step: real, freshKey: real)
    requires RingsOk(rings) && step >= 0.0
    ensures var next := LayerFrame(rings, step, freshKey);
      && RingsOk(next)
      && (forall ring <- next :: ring == Ring(0.0, freshKey) || exists k :: 0 <= k < |rings| && ring == Ring(rings[k].t + step, rings[k].key))
      && (forall k :: 0 <= k < |rings| && rings[k].t + step < 1.0 ==> Ring(rings[k].t + step, rings[k].key) in next)
      && |next| <= |Unfinished(Moved(rings, step))| + 1
  {
    var moved := Moved(rings, step);
    var kept := Unfinished(moved);
    forall ring | ring in kept
      ensures exists k :: 0 <= k < |rings| && ring == Ring(rings[k].t + step, rings[k].key)
    {
      var k :| 0 <= k < |moved| && moved[k] == ring;
    }
    forall k | 0 <= k < |rings| && rings[k].t + step < 1.0
      ensures Ring(rings[k].t + step, rings[k].key) in kept
    {
      assert moved[k] in moved;
    }
    forall ring | ring in kept
      ensures 0.0 <= ring.t < 1.0
    {
      var k :| 0 <= k < |rings| && ring == Ring(rings[k].t + step, rings[k].key);
      assert rings[k] in rings;
    }
  }

  /** `setCircles(prev => prev.map(...))`: every layer advances at its own
      speed. `freshKeys` stand for the `Math.random()` keys of rings born in
      this frame. */
  function RingsFrame(circles: seq<seq<Ring>>, delta: real, level: real, freshKeys: seq<real>): (next: seq<seq<Ring>>)
    requires |circles| == |Layers| && |freshKeys| == |circles|
    ensures |next| == |circles|
  {
    seq(|circles|, i requires 0 <= i < |circles| =>
      LayerFrame(circles[i], Advance(delta, level, Layers[i].speed), freshKeys[i]))
  }

  predicate AllRingsOk(circles: seq<seq<Ring>>) {
    forall i :: 0 <= i < |circles| ==> RingsOk(circles[i])
  }

  /** The layers start well-formed and stay so, and their number never
      changes, for any non-negative frame time and level. */
  lemma RingsFrameKeepsShape(circles: seq<seq<Ring>>, delta: real, level: real, freshKeys: seq<real>)
    requires |circles| == |Layers| && |freshKeys| == |circles|
    requires AllRingsOk(circles) && delta >= 0.0 && level >= 0.0
    ensures AllRingsOk(RingsFrame(circles, delta, level, freshKeys))
    ensures AllRingsOk(InitialRings(|Layers|))
  {
    var next := RingsFrame(circles, delta, level, freshKeys);
    forall i | 0 <= i < |circles|
      ensures RingsOk(next[i])
    {
      assert Layers[i].speed >= 0.0;
      LayerFrameFacts(circles[i], Advance(delta, level, Layers[i].speed), freshKeys[i]);
    }
  }

  /** A ring's inner and outer radius and its opacity. */
  datatype RingLook = RingLook(inner: real, outer: real, opacity: real)

  /** The width of the band a ring draws. */
  function Width(look: RingLook): real { look.outer - look.inner }

  /** For a live ring and a non-negative level: the ring is a band of
      positive width that starts at the layer's base radius or beyond, and
      less than one full expansion past it. */
  function Look(layer: Layer, ring: Ring, level: real): (look: RingLook)
    ensures layer.width > 0.0 && level >= 0.0 ==> look.outer > look.inner
    ensures 0.0 <= ring.t < 1.0 && level >= 0.0 ==>
      layer.base <= look.inner < layer.base + 12.0 + level * 10.0
  {
    var width := layer.width + level * 2.5;
    var expansion := 12.0 + level * 10.0;
    assert 0.0 <= ring.t < 1.0 && level >= 0.0 ==> 0.0 <= ring.t * expansion < expansion by {
      if 0.0 <= ring.t < 1.0 && level >= 0.0 {
        ScaleLe(0.0, ring.t, expansion);
        ScaleLt(ring.t, 1.0, expansion);
      }
    }
    RingLook(layer.base + ring.t * expansion, layer.base + width + ring.t * expansion, layer.opacity * (1.0 - ring.t))
  }

  /** Louder music makes every ring wider and pushes it further out. */
  lemma LookWidens(layer: Layer, ring: Ring, level1: real, level2: real)
    requires level1 <= level2 && ring.t >= 0.0
    ensures Width(Look(layer, ring, level1)) <= Width(Look(layer, ring, level2))
    ensures Look(layer, ring, level1).inner <= Look(layer, ring, level2).inner
  {
    var e1, e2 := 12.0 + level1 * 10.0, 12.0 + level2 * 10.0;
    assert ring.t * e1 <= ring.t * e2 by {
      if ring.t > 0.0 {
        ScaleLe(e1, e2, ring.t);
      }
    }
    var a, b := Look(layer, ring, level1), Look(layer, ring, level2);
    assert a.inner == layer.base + ring.t * e1 && b.inner == layer.base + ring.t * e2;
    assert Width(a) == layer.width + level1 * 2.5 && Width(b) == layer.width + level2 * 2.5;
  }

  /** A live ring is visible and fades as it grows: its opacity lies in
      (0, layer opacity] and shrinks as `t` grows. */
  lemma LookFades(layer: Layer, r1: Ring, r2: Ring, level: real)
    requires layer.opacity > 0.0 && 0.0 <= r1.t <= r2.t < 1.0
    ensures 0.0 < Look(layer, r2, level).opacity <= Look(layer, r1, level).opacity <= layer.opacity
  {
    ScaleLt(0.0, 1.0 - r2.t, layer.opacity);
    ScaleLe(1.0 - r2.t, 1.0 - r1.t, layer.opacity);
    ScaleLe(1.0 - r1.t, 1.0, layer.opacity);
  }
}
