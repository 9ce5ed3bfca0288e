/** The track player's mouse-spin gesture: the pointer's angle around the
    window centre is accumulated; one and a half turns in either direction
    set off the metallic celebration (confetti and the spinning cursor), three
    turns show the "well done" message on the other side of the screen and
    start counting again. Both fire at most once per mount, and two seconds
    without movement throw the count away. Angles are given as the value
    `Math.atan2` returned and times as `Date.now()` milliseconds. */
module SpinGesture {
  import opened Wrappers
  import opened JsNumber

  /** One and a half turns: `Math.PI * 2 * 1.5`. */
  const FastTurns: real := PI * 2.0 * 1.5
  /** Three turns: `Math.PI * 2 * 3`. */
  const FullTurns: real := PI * 2.0 * 3.0
  /** Smallest angle change counted as movement. */
  const Jitter: real := 0.01
  /** Pause, in milliseconds, after which the count restarts. */
  const IdleMs: int := 2000

  function RAbs(x: real): real { if x < 0.0 then -x else x }

  /** The closure's variables, and which side the message shows on. */
  datatype SpinState = SpinState(
    spinning: bool,
    spinningFast: bool,
    totalAngle: real,
    lastAngle: Option<real>,
    lastTime: Option<int>,
    messageLeft: bool)

  /** What one mouse move sets off: the celebration (metallic message,
      confetti, spin cursor), the "well done" message, and whether
      `setSpinStart(null)` was called. */
  datatype Effects = Effects(celebrate: bool, milestone: bool, resetStart: bool)

  const Quiet := Effects(false, false, false)

  const Initial := SpinState(false, false, 0.0, None, None, true)

  /** The angle change brought back into [-PI, PI] for angles from `atan2`. */
  function NormalizeDelta(delta: real): real {
    var d := if delta > PI then delta - 2.0 * PI else delta;
    if d < -PI then d + 2.0 * PI else d
  }

  /** `onMouseMove` for a pointer at `angle` at time `now`. */
  function Step(st: SpinState, angle: real, now: int): (SpinState, Effects) {
    if st.lastAngle.None? || st.lastTime.None? then
      (st.(lastAngle := Some(angle), lastTime := Some(now)), Quiet)
    else
      var delta := NormalizeDelta(angle - st.lastAngle.value);
      var moved := if RAbs(delta) > Jitter then st.totalAngle + delta else st.totalAngle;
      var idle := now - st.lastTime.value > IdleMs;
      var total := if idle then 0.0 else moved;
      var celebrate := RAbs(total) > FastTurns && !st.spinningFast;
      var milestone := RAbs(total) > FullTurns && !st.spinning;
      (SpinState(
         st.spinning || milestone,
         st.spinningFast || celebrate,
         if milestone then 0.0 else total,
         Some(angle), Some(now),
         if milestone then !st.messageLeft else st.messageLeft),
       Effects(celebrate, milestone, idle || milestone))
  }

  /** The listener, as the mounted effect registers it: the closure's
      variables are the object's fields. */
  class SpinDetector {
    var spinning: bool
    var spinningFast: bool
    var totalAngle: real
    var lastAngle: Option<real>
    var lastTime: Option<int>
    var messageLeft: bool

    function State(): SpinState
      reads this
    {
      SpinState(spinning, spinningFast, totalAngle, lastAngle, lastTime, messageLeft)
    }

    constructor()
      ensures State() == Initial
    {
      spinning := false;
      spinningFast := false;
      totalAngle := 0.0;
      lastAngle := None;
      lastTime := None;
      messageLeft := true;
    }

    method OnMouseMove(angle: real, now: int) returns (effects: Effects)
      modifies this
      ensures (State(), effects) == Step(old(State()), angle, now)
    {
      effects := Quiet;
      if lastAngle.Some? && lastTime.Some? {
        var delta := angle - lastAngle.value;
        if delta > PI {
          delta := delta - 2.0 * PI;
        }
        if delta < -PI {
          delta := delta + 2.0 * PI;
        }
        if RAbs(delta) > Jitter {
          totalAngle := totalAngle + delta;
        }
        if now - lastTime.value > IdleMs {
          totalAngle := 0.0;
          effects := effects.(resetStart := true);
        }
        if RAbs(totalAngle) > FastTurns && !spinningFast {
          spinningFast := true;
          effects := effects.(celebrate := true);
        }
        if RAbs(totalAngle) > FullTurns && !spinning {
          spinning := true;
          messageLeft := !messageLeft;
          totalAngle := 0.0;
          effects := effects.(milestone := true, resetStart := true);
        }
      }
      lastAngle := Some(angle);
      lastTime := Some(now);
    }
  }

  // ------------------------------------------------------------ one event

  predicate InRange(angle: real) { -PI <= angle <= PI }

  /** What holds between events: the count stays below the thresholds whose
      flags are still clear, the message only comes after the celebration,
      and the previous angle and time are recorded together. */
  predicate Inv(st: SpinState) {
    && (!st.spinningFast ==> RAbs(st.totalAngle) <= FastTurns)
    && (!st.spinning ==> RAbs(st.totalAngle) <= FullTurns)
    && (st.spinning ==> st.spinningFast)
    && (st.lastAngle.Some? <==> st.lastTime.Some?)
    && (st.lastAngle.Some? ==> InRange(st.lastAngle.value))
  }

  lemma InitialInv()
    ensures Inv(Initial)
  {
  }

  /** Between two `atan2` angles the normalised change is at most half a turn. */
  lemma DeltaRange(angle: real, last: real)
    requires InRange(angle) && InRange(last)
    ensures -PI <= NormalizeDelta(angle - last) <= PI
  {
  }

  lemma StepInv(st: SpinState, angle: real, now: int)
    requires Inv(st) && InRange(angle)
    ensures Inv(Step(st, angle, now).0)
  {
  }

  /** Each flag, once set, stays set, and while set its effect does not fire
      again. */
  lemma FlagsLatch(st: SpinState, angle: real, now: int)
    ensures var (st', eff) := Step(st, angle, now);
      && (st.spinningFast ==> st'.spinningFast && !eff.celebrate)
      && (st.spinning ==> st'.spinning && !eff.milestone)
      && (eff.celebrate ==> st'.spinningFast)
      && (eff.milestone ==> st'.spinning && st'.totalAngle == 0.0 && st'.messageLeft == !st.messageLeft)
  {
  }

  /** The message cannot fire in the event that sets off the celebration: half
      a turn at most is added per event, and three turns lie one and a half
      turns beyond the celebration's threshold. */
  lemma MilestoneNeedsEarlierCelebration(st: SpinState, angle: real, now: int)
    requires Inv(st) && InRange(angle)
    ensures Step(st, angle, now).1.milestone ==> st.spinningFast
  {
    if st.lastAngle.Some? && st.lastTime.Some? {
      DeltaRange(angle, st.lastAngle.value);
    }
  }

  /** A pause of more than two seconds throws the count away and fires
      nothing. */
  lemma IdleResets(st: SpinState, angle: real, now: int)
    requires st.lastAngle.Some? && st.lastTime.Some? && now - st.lastTime.value > IdleMs
    ensures var (st', eff) := Step(st, angle, now);
      st'.totalAngle == 0.0 && !eff.celebrate && !eff.milestone && eff.resetStart
      && st'.spinning == st.spinning && st'.spinningFast == st.spinningFast
  {
  }

  /** A movement within the jitter threshold, soon enough after the previous
      one, only records the new angle and time. */
  lemma JitterIgnored(st: SpinState, angle: real, now: int)
    requires Inv(st) && st.lastAngle.Some? && st.lastTime.Some?
    requires RAbs(NormalizeDelta(angle - st.lastAngle.value)) <= Jitter
    requires now - st.lastTime.value <= IdleMs
    ensures Step(st, angle, now) == (st.(lastAngle := Some(angle), lastTime := Some(now)), Quiet)
  {
  }

  /** The first event only records where the pointer is. */
  lemma FirstEventRecords(angle: real, now: int)
    ensures Step(Initial, angle, now) == (Initial.(lastAngle := Some(angle), lastTime := Some(now)), Quiet)
  {
  }

  // ------------------------------------------------------------ event runs

  datatype MouseMove = MouseMove(angle: real, time: int)

  /** The effects of a run of events, and the state after it. */
  function Run(st: SpinState, moves: seq<MouseMove>): (SpinState, seq<Effects>)
    ensures |Run(st, moves).1| == |moves|
    decreases |moves|
  {
    if moves == [] then (st, [])
    else
      var (st1, eff) := Step(st, moves[0].angle, moves[0].time);
      var (st2, effs) := Run(st1, moves[1..]);
      (st2, [eff] + effs)
  }

  function Celebrations(effs: seq<Effects>): nat {
    if effs == [] then 0 else (if effs[0].celebrate then 1 else 0) + Celebrations(effs[1..])
  }

  function Milestones(effs: seq<Effects>): nat {
    if effs == [] then 0 else (if effs[0].milestone then 1 else 0) + Milestones(effs[1..])
  }

  predicate AllInRange(moves: seq<MouseMove>) {
    forall i :: 0 <= i < |moves| ==> InRange(moves[i].angle)
  }

  /** However the pointer moves, the celebration and the message each fire at
      most once, and not at all once their flag is set. */
  lemma {:induction false} AtMostOnce(st: SpinState, moves: seq<MouseMove>)
    ensures Celebrations(Run(st, moves).1) <= (if st.spinningFast then 0 else 1)
    ensures Milestones(Run(st, moves).1) <= (if st.spinning then 0 else 1)
    decreases |moves|
  {
    if moves != [] {
      var (st1, eff) := Step(st, moves[0].angle, moves[0].time);
      FlagsLatch(st, moves[0].angle, moves[0].time);
      AtMostOnce(st1, moves[1..]);
    }
  }

  /** For pointer angles as `atan2` gives them, every "well done" message
      follows a celebration set off at an earlier event. */
  lemma {:induction false} MilestoneFollowsCelebration(st: SpinState, moves: seq<MouseMove>, i: nat)
    requires Inv(st) && AllInRange(moves)
    requires i < |moves| && Run(st, moves).1[i].milestone
    ensures st.spinningFast || exists j :: 0 <= j < i && Run(st, moves).1[j].celebrate
    decreases |moves|
  {
    var (st1, eff) := Step(st, moves[0].angle, moves[0].time);
    FlagsLatch(st, moves[0].angle, moves[0].time);
    if i == 0 {
      MilestoneNeedsEarlierCelebration(st, moves[0].angle, moves[0].time);
    } else {
      StepInv(st, moves[0].angle, moves[0].time);
      assert AllInRange(moves[1..]) by {
        forall k | 0 <= k < |moves[1..]|
          ensures InRange(moves[1..][k].angle)
        {
          assert moves[1..][k] == moves[k + 1];
        }
      }
      var effs := Run(st, moves).1;
      assert Run(st1, moves[1..]).1 == effs[1..];
      MilestoneFollowsCelebration(st1, moves[1..], i - 1);
      assert effs[0] == eff;
      if st1.spinningFast && !st.spinningFast {
        assert effs[0].celebrate;
      }
      if !st1.spinningFast {
        var j :| 0 <= j < i - 1 && Run(st1, moves[1..]).1[j].celebrate;
        assert effs[j + 1].celebrate;
      }
    }
  }
}
