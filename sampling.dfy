/**
 * The per-tick policy of the trail component, on values: whether the node's
 * world position is appended to the point history (distance gate), and how
 * many of the oldest points the idle decay removes (fractional accumulator).
 */
module Sampling {
  import opened Geometry
  import Ring

  /** The editor properties the policy reads. */
  datatype Settings = Settings(maxPoints: nat, minDistance: real, fadeTime: real, paused: bool)

  /** Squared distance in the XY plane; z takes no part in it. */
  function PlanarDistSq(from: Vec3, to: Vec3): (d: real)
    ensures d >= 0.0
    ensures from.x == to.x && from.y == to.y ==> d == 0.0
  {
    var dx := to.x - from.x;
    var dy := to.y - from.y;
    dx * dx + dy * dy
  }

  /**
   * Whether a tick appends wp: never while paused; always into an empty
   * history; otherwise when wp is at least minDistance from the newest point.
   */
  predicate Appends(history: seq<Vec3>, wp: Vec3, minDistance: real, paused: bool)
  {
    !paused &&
    (|history| == 0 || PlanarDistSq(history[|history| - 1], wp) >= minDistance * minDistance)
  }

  /** Outcome of the decay step: how many oldest points go, and the new accumulator. */
  datatype Decayed = Decayed(removed: nat, accum: real)

  /** The decay branch runs only when nothing was appended, fading is on and points remain. */
  predicate Decays(count: nat, hasNewPoint: bool, fadeTime: real)
  {
    !hasNewPoint && fadeTime > 0.0 && count > 0
  }

  /** Decay rate in points per second: the whole history fades out over fadeTime. */
  function Rate(count: nat, fadeTime: real): real
    requires fadeTime > 0.0
  {
    count as real / fadeTime
  }

  /**
   * Settling an accumulator acc over count points: its whole part (at most
   * count) is removed and the fraction stays; nothing is removed below 1.
   */
  function Settle(acc: real, count: nat): (d: Decayed)
    ensures d.removed <= count
    ensures 0.0 <= acc ==> 0.0 <= d.accum < 1.0
  {
    var removeCount := acc.Floor;
    if removeCount > 0 then
      Decayed(if removeCount <= count then removeCount else count, acc - removeCount as real)
    else
      Decayed(0, acc)
  }

  /**
   * The decay step. The rate is count / fadeTime points per second; the
   * accumulator gains rate * dt and whole points are removed, at most count.
   */
  function Decay(count: nat, accum: real, hasNewPoint: bool, fadeTime: real, dt: real): (d: Decayed)
    ensures d.removed <= count
    ensures !Decays(count, hasNewPoint, fadeTime) ==> d == Decayed(0, 0.0)
    ensures 0.0 <= accum && 0.0 <= dt ==> 0.0 <= d.accum < 1.0
  {
    if Decays(count, hasNewPoint, fadeTime) then
      var acc := accum + Rate(count, fadeTime) * dt;
      assert 0.0 <= accum && 0.0 <= dt ==> 0.0 <= acc by {
        if 0.0 <= dt {
          assert Rate(count, fadeTime) >= 0.0;
        }
      }
      Settle(acc, count)
    else
      Decayed(0, 0.0)
  }

  /**
   * A decay step removes no more whole points than were accumulated, and the
   * points removed plus what stays in the accumulator is what was accumulated,
   * unless the step asked for more points than there were.
   */
  lemma DecayConserves(count: nat, accum: real, hasNewPoint: bool, fadeTime: real, dt: real)
    requires Decays(count, hasNewPoint, fadeTime) && 0.0 <= accum && 0.0 <= dt
    ensures var d := Decay(count, accum, hasNewPoint, fadeTime, dt);
            && d.removed as real <= accum + Rate(count, fadeTime) * dt
            && (d.removed == count || d.removed as real + d.accum == accum + Rate(count, fadeTime) * dt)
  {
    var acc := accum + Rate(count, fadeTime) * dt;
    assert Rate(count, fadeTime) * dt >= 0.0 by {
      assert Rate(count, fadeTime) >= 0.0;
    }
    assert Decay(count, accum, hasNewPoint, fadeTime, dt) == Settle(acc, count);
  }

  /** The state a tick leaves behind, and whether the mesh must be refreshed. */
  datatype TickResult = TickResult(history: seq<Vec3>, accum: real, hasNewPoint: bool, changed: bool)

  /**
   * One tick on the point history (oldest first): sample wp, then decay.
   * `changed` is set by an append, by a removal, and whenever fewer than two
   * points remain (the mesh is then emptied).
   */
  function Tick(history: seq<Vec3>, accum: real, wp: Vec3, dt: real, s: Settings): (r: TickResult)
    ensures r.hasNewPoint <==> Appends(history, wp, s.minDistance, s.paused)
    ensures r.hasNewPoint ==> r.history == Ring.Window(history + [wp], s.maxPoints)
    ensures !r.hasNewPoint ==> |r.history| <= |history| && r.history == history[|history| - |r.history|..]
    ensures |history| <= s.maxPoints ==> |r.history| <= s.maxPoints
    ensures 0.0 <= accum && 0.0 <= dt ==> 0.0 <= r.accum < 1.0
    ensures r.changed <==> r.hasNewPoint || |r.history| < |history| || |r.history| < 2
  {
    var hasNew := Appends(history, wp, s.minDistance, s.paused);
    // Decay runs only when nothing was appended, so it removes from the history as it was.
    var d := Decay(|history|, accum, hasNew, s.fadeTime, dt);
    var rest := if hasNew then Ring.Window(history + [wp], s.maxPoints) else Ring.DropFront(history, d.removed);
    Ring.DropFrontIsSuffix(history, d.removed);
    TickResult(rest, d.accum, hasNew, hasNew || d.removed > 0 || |rest| < 2)
  }

  /** Ticks fed the world positions wps in turn, all with the same dt. */
  function Run(history: seq<Vec3>, accum: real, wps: seq<Vec3>, dt: real, s: Settings): seq<Vec3>
    decreases |wps|
  {
    if wps == [] then history
    else
      var r := Tick(history, accum, wps[0], dt, s);
      Run(r.history, r.accum, wps[1..], dt, s)
  }

  /**
   * Reference sampler on an unbounded list: keeps each position at least
   * minDistance (in the plane) from the last kept one; `last` is the newest
   * point before wps.
   */
  function Accepted(last: Option<Vec3>, wps: seq<Vec3>, minDistance: real): seq<Vec3>
    decreases |wps|
  {
    if wps == [] then []
    else if last.None? || PlanarDistSq(last.value, wps[0]) >= minDistance * minDistance then
      [wps[0]] + Accepted(Some(wps[0]), wps[1..], minDistance)
    else
      Accepted(last, wps[1..], minDistance)
  }

  function Newest(history: seq<Vec3>): Option<Vec3>
  {
    if history == [] then None else Some(history[|history| - 1])
  }

  /**
   * Without decay and without pausing, the ring holds the newest maxPoints of
   * the reference sampler's output: the distance gate plus capacity truncation.
   */
  lemma {:induction false} RunWithoutDecay(history: seq<Vec3>, accum: real, wps: seq<Vec3>, dt: real, s: Settings)
    requires s.maxPoints > 0 && s.fadeTime <= 0.0 && !s.paused
    requires |history| <= s.maxPoints
    ensures Run(history, accum, wps, dt, s)
            == Ring.Window(history + Accepted(Newest(history), wps, s.minDistance), s.maxPoints)
    decreases |wps|
  {
    if wps != [] {
      var wp := wps[0];
      var r := Tick(history, accum, wp, dt, s);
      TickWithoutDecay(history, accum, wp, dt, s);
      RunWithoutDecay(r.history, r.accum, wps[1..], dt, s);
      if r.hasNewPoint {
        AcceptedThenWindowed(history, wp, Accepted(Some(wp), wps[1..], s.minDistance), s.maxPoints);
      }
    } else {
      assert history + [] == history;
    }
  }

  /** With fading off, a tick only samples: the history is windowed after an append and kept otherwise. */
  lemma TickWithoutDecay(history: seq<Vec3>, accum: real, wp: Vec3, dt: real, s: Settings)
    requires s.fadeTime <= 0.0
    ensures var r := Tick(history, accum, wp, dt, s);
            r.history == if r.hasNewPoint then Ring.Window(history + [wp], s.maxPoints) else history
  {
    var r := Tick(history, accum, wp, dt, s);
    if !r.hasNewPoint {
      assert history[0..] == history;
    }
  }

  /**
   * Windowing after appending wp and then appending rest is windowing
   * history + [wp] + rest; the newest point of the first window is wp.
   */
  lemma AcceptedThenWindowed(history: seq<Vec3>, wp: Vec3, rest: seq<Vec3>, m: nat)
    requires m > 0
    ensures Newest(Ring.Window(history + [wp], m)) == Some(wp)
    ensures Ring.Window(Ring.Window(history + [wp], m) + rest, m) == Ring.Window(history + ([wp] + rest), m)
  {
    Ring.WindowAbsorbs(history + [wp], rest, m);
    assert history + [wp] + rest == history + ([wp] + rest);
  }

  /** An idle tick of at least fadeTime accumulates at least one point per remaining point. */
  lemma IdleGainCoversCount(n: nat, fadeTime: real, dt: real)
    requires fadeTime > 0.0 && dt >= fadeTime
    ensures Rate(n, fadeTime) * dt >= n as real
  {
    var rate := Rate(n, fadeTime);
    assert rate >= 0.0;
    assert rate * fadeTime == n as real;
    assert rate * dt - rate * fadeTime == rate * (dt - fadeTime);
    assert rate * (dt - fadeTime) >= 0.0;
  }

  /** An idle decay step of at least fadeTime removes all count points. */
  lemma IdleDecayRemovesAll(n: nat, accum: real, fadeTime: real, dt: real)
    requires fadeTime > 0.0 && dt >= fadeTime && accum >= 0.0
    ensures Decay(n, accum, false, fadeTime, dt).removed == n
  {
    if n > 0 {
      IdleGainCoversCount(n, fadeTime, dt);
      var acc := accum + Rate(n, fadeTime) * dt;
      assert acc.Floor >= n;
    }
  }

  /** An idle tick at least fadeTime long removes every remaining point. */
  lemma IdleTickOverFadeTimeEmpties(history: seq<Vec3>, accum: real, wp: Vec3, dt: real, s: Settings)
    requires !Appends(history, wp, s.minDistance, s.paused)
    requires s.fadeTime > 0.0 && dt >= s.fadeTime && accum >= 0.0
    ensures Tick(history, accum, wp, dt, s).history == []
  {
    IdleDecayRemovesAll(|history|, accum, s.fadeTime, dt);
    Ring.DropFrontIsSuffix(history, |history|);
  }

  /** The positions of the sampling scenario, one per tick. */
  function ScenarioPath(): seq<Vec3>
  {
    [Vec3(0.0, 0.0, 0.0), Vec3(0.0, 2.0, 0.0), Vec3(0.0, 5.0, 0.0),
     Vec3(0.0, 8.0, 0.0), Vec3(0.0, 11.0, 0.0), Vec3(0.0, 14.0, 0.0)]
  }

  /** With gate 3 the reference sampler rejects only (0,2), at distance 2 from (0,0). */
  lemma ScenarioAccepted()
    ensures Accepted(None, ScenarioPath(), 3.0) == [ScenarioPath()[0]] + ScenarioPath()[2..]
  {
    var wps := ScenarioPath();
    assert Accepted(Some(wps[5]), wps[6..], 3.0) == [];
    assert Accepted(Some(wps[4]), wps[5..], 3.0) == wps[5..] by {
      assert PlanarDistSq(wps[4], wps[5]) == 9.0;
    }
    assert Accepted(Some(wps[3]), wps[4..], 3.0) == wps[4..] by {
      assert PlanarDistSq(wps[3], wps[4]) == 9.0;
      assert wps[4..] == [wps[4]] + wps[5..];
    }
    assert Accepted(Some(wps[2]), wps[3..], 3.0) == wps[3..] by {
      assert PlanarDistSq(wps[2], wps[3]) == 9.0;
      assert wps[3..] == [wps[3]] + wps[4..];
    }
    assert Accepted(Some(wps[0]), wps[2..], 3.0) == wps[2..] by {
      assert PlanarDistSq(wps[0], wps[2]) == 25.0;
      assert wps[2..] == [wps[2]] + wps[3..];
    }
    assert Accepted(Some(wps[0]), wps[1..], 3.0) == wps[2..] by {
      assert PlanarDistSq(wps[0], wps[1]) == 4.0;
      assert wps[1..][1..] == wps[2..];
    }
  }

  /**
   * Capacity 4, gate 3, no decay: positions (0,0) (0,2) (0,5) (0,8) (0,11)
   * (0,14) one per tick. (0,2) is rejected (distance 2 < 3); the fifth
   * accepted point evicts the first, (0,0).
   */
  lemma SamplingScenario()
    ensures Run([], 0.0, ScenarioPath(), 1.0, Settings(4, 3.0, 0.0, false)) == ScenarioPath()[2..]
  {
    var wps := ScenarioPath();
    RunWithoutDecay([], 0.0, wps, 1.0, Settings(4, 3.0, 0.0, false));
    ScenarioAccepted();
    var acc := [wps[0]] + wps[2..];
    assert [] + acc == acc;
    assert Ring.Window(acc, 4) == acc[1..];
  }

  /** Count and accumulator after ticks idle ticks of length dt (nothing appended). */
  function IdleDecay(count: nat, accum: real, ticks: nat, fadeTime: real, dt: real): (r: (nat, real))
    ensures r.0 <= count
    decreases ticks
  {
    if ticks == 0 then (count, accum)
    else
      var d := Decay(count, accum, false, fadeTime, dt);
      IdleDecay(count - d.removed, d.accum, ticks - 1, fadeTime, dt)
  }

  /** The decay scenario's settings: a fadeTime of 1 s sampled in ticks of 0.1 s. */
  predicate TenthOfFade(fadeTime: real, dt: real)
  {
    fadeTime == 1.0 && dt == 0.1
  }

  /**
   * With fadeTime 1 s an idle 0.1 s step over c points accumulates c / 10
   * and removes the whole part of the new accumulator.
   */
  lemma IdleTenthOfSecond(c: nat, accum: real, fadeTime: real, dt: real, removed: nat)
    requires c > 0 && TenthOfFade(fadeTime, dt)
    requires removed <= c
    requires removed as real <= accum + c as real / 10.0 < removed as real + 1.0
    ensures Decay(c, accum, false, fadeTime, dt) == Decayed(removed, accum + c as real / 10.0 - removed as real)
  {
    var acc := accum + c as real / 10.0;
    assert Rate(c, fadeTime) * dt == c as real / 10.0;
    assert acc.Floor == removed;
  }

  /**
   * One idle tick of the scenario: with c points and accumulator accum, the
   * next tick leaves next points and accumulator nextAccum, and the remaining
   * ticks continue from there.
   */
  lemma IdleTick(c: nat, accum: real, ticks: nat, fadeTime: real, dt: real, next: nat, nextAccum: real)
    requires c > 0 && ticks > 0 && next <= c && TenthOfFade(fadeTime, dt)
    requires (c - next) as real <= accum + c as real / 10.0 < (c - next) as real + 1.0
    requires nextAccum == accum + c as real / 10.0 - (c - next) as real
    ensures IdleDecay(c, accum, ticks, fadeTime, dt) == IdleDecay(next, nextAccum, ticks - 1, fadeTime, dt)
  {
    IdleTenthOfSecond(c, accum, fadeTime, dt, c - next);
  }

  /**
   * fadeTime 1 s, ten static points, ten idle ticks of 0.1 s: the rate is
   * recomputed from the shrinking count every tick, so four points remain
   * after one fadeTime (accumulator 0.8).
   */
  lemma DecayScenario(fadeTime: real, dt: real)
    requires TenthOfFade(fadeTime, dt)
    ensures IdleDecay(10, 0.0, 10, fadeTime, dt) == (4, 0.8)
  {
    IdleTick(10, 0.0, 10, fadeTime, dt, 9, 0.0);
    IdleTick(9, 0.0, 9, fadeTime, dt, 9, 0.9);
    IdleTick(9, 0.9, 8, fadeTime, dt, 8, 0.8);
    IdleTick(8, 0.8, 7, fadeTime, dt, 7, 0.6);
    IdleTick(7, 0.6, 6, fadeTime, dt, 6, 0.3);
    IdleTick(6, 0.3, 5, fadeTime, dt, 6, 0.9);
    IdleTick(6, 0.9, 4, fadeTime, dt, 5, 0.5);
    IdleTick(5, 0.5, 3, fadeTime, dt, 4, 0.0);
    IdleTick(4, 0.0, 2, fadeTime, dt, 4, 0.4);
    IdleTick(4, 0.4, 1, fadeTime, dt, 4, 0.8);
  }
}
