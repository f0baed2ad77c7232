/** The simulation tick of src/robotSimulation.js: a fixed table of five
    trash hotspots, the per-robot step (arrival or transit), the tick that
    sends one batch to the store, and the start/stop pair.

    `Math.sqrt` is not modelled: wherever the source computes the distance
    between a robot and its hotspot, the model takes that distance as an
    argument `dist` related to the positions by `IsDistance`. Arithmetic is
    on exact reals. */
module RobotSimulation {
  import opened Wrappers
  import opened Robots
  import opened RobotsStore

  datatype Hotspot = Hotspot(id: int, position: Pos, radius: int)

  /** The mock hotspots along the Isar, in the order robots visit them. */
  const TrashHotspots: seq<Hotspot> := [
    Hotspot(1, Pos(48.12520, 11.58350), 30),
    Hotspot(2, Pos(48.12590, 11.58420), 25),
    Hotspot(3, Pos(48.12480, 11.58450), 35),
    Hotspot(4, Pos(48.12610, 11.58320), 28),
    Hotspot(5, Pos(48.12550, 11.58480), 32)
  ]

  const ArrivalThreshold: real := 0.0001
  const StepSize: real := 0.00015
  const ArrivalCost: real := 0.3
  const TransitCost: real := 0.1
  const BatteryFloor: real := 10.0
  const LowBattery: real := 20.0
  /** On arrival, `collecting` every 20th tick. */
  const ArrivalCadence: nat := 20
  /** In transit, `moving` becomes `collecting` at phase 0 of 15 ... */
  const TogglePeriod: nat := 15
  /** ... and `collecting` becomes `moving` at phase 5. */
  const ToggleBackPhase: nat := 5

  // ---------------------------------------------------------------------
  // Geometry

  /** The square of the planar distance `calculateDistance` computes
      (latitude and longitude differences in degrees, no geodesy). */
  function SqDist(a: Pos, b: Pos): (d: real)
    ensures d >= 0.0
  {
    var latDiff := b.lat - a.lat;
    var lngDiff := b.lng - a.lng;
    SquareNonNegative(latDiff);
    SquareNonNegative(lngDiff);
    latDiff * latDiff + lngDiff * lngDiff
  }

  lemma SquareNonNegative(x: real)
    ensures x * x >= 0.0
  {
    if x > 0.0 {
      assert x * x > 0.0 * x;
    } else if x < 0.0 {
      assert (-x) * (-x) > 0.0 * (-x);
    }
  }

  /** A robot standing on a point is at distance 0 from it. */
  lemma SqDistSelf(a: Pos)
    ensures SqDist(a, a) == 0.0
  {
    var z := a.lat - a.lat;
    assert z * z == 0.0;
    var w := a.lng - a.lng;
    assert w * w == 0.0;
  }

  /** `d` is `Math.sqrt` of the squared distance between `a` and `b`. */
  predicate IsDistance(d: real, a: Pos, b: Pos): (r: bool)
    ensures r ==> d >= 0.0 && d * d == SqDist(b, a)
  {
    SqDistSymmetric(a, b);
    d >= 0.0 && d * d == SqDist(a, b)
  }

  lemma SqDistSymmetric(a: Pos, b: Pos)
    ensures SqDist(a, b) == SqDist(b, a)
  {
    assert (a.lat - b.lat) * (a.lat - b.lat) == (b.lat - a.lat) * (b.lat - a.lat);
    assert (a.lng - b.lng) * (a.lng - b.lng) == (b.lng - a.lng) * (b.lng - a.lng);
  }

  /** The point a fraction `t` of the way from `a` to `b`. */
  function Along(a: Pos, b: Pos, t: real): Pos
  {
    Pos(a.lat + (b.lat - a.lat) * t, a.lng + (b.lng - a.lng) * t)
  }

  lemma AlongDistances(a: Pos, b: Pos, t: real)
    ensures SqDist(a, Along(a, b, t)) == t * t * SqDist(a, b)
    ensures SqDist(Along(a, b, t), b) == (1.0 - t) * (1.0 - t) * SqDist(a, b)
  {
    var x := b.lat - a.lat;
    var y := b.lng - a.lng;
    var p := Along(a, b, t);
    assert p.lat - a.lat == x * t && p.lng - a.lng == y * t;
    assert b.lat - p.lat == x * (1.0 - t) && b.lng - p.lng == y * (1.0 - t);
    assert (x * t) * (x * t) + (y * t) * (y * t) == t * t * (x * x + y * y);
    assert (x * (1.0 - t)) * (x * (1.0 - t)) + (y * (1.0 - t)) * (y * (1.0 - t))
        == (1.0 - t) * (1.0 - t) * (x * x + y * y);
  }

  lemma MoveTowardGeometry(current: Pos, target: Pos, step: real, dist: real)
    requires step > 0.0 && dist >= step
    requires IsDistance(dist, current, target)
    ensures IsDistance(step, current, Along(current, target, step / dist))
    ensures IsDistance(dist - step, Along(current, target, step / dist), target)
    ensures dist == step ==> Along(current, target, step / dist) == target
  {
    var t := step / dist;
    assert t * dist == step;
    assert (1.0 - t) * dist == dist - step;
    AlongDistances(current, target, t);
    assert t * t * SqDist(current, target) == (t * dist) * (t * dist);
    assert (1.0 - t) * (1.0 - t) * SqDist(current, target) == ((1.0 - t) * dist) * ((1.0 - t) * dist);
    if dist == step {
      assert t == 1.0 by { RatioOne(step, dist); }
    }
  }

  lemma RatioOne(step: real, dist: real)
    requires step > 0.0 && dist == step
    ensures step / dist == 1.0
  {
  }

  /** `moveToward(current, target, step)`: the target itself when it is
      closer than one step; otherwise the point on the line to the target
      exactly one step away, which leaves `dist - step` to go. A remaining
      distance equal to the step also lands on the target (the ratio is 1). */
  function MoveToward(current: Pos, target: Pos, step: real, dist: real): (r: Pos)
    requires step > 0.0
    requires IsDistance(dist, current, target)
    ensures dist <= step ==> r == target
    ensures dist >= step ==> r == Along(current, target, step / dist)
    ensures dist >= step ==> IsDistance(step, current, r) && IsDistance(dist - step, r, target)
  {
    if dist < step then target
    else
      MoveTowardGeometry(current, target, step, dist);
      Along(current, target, step / dist)
  }

  /** More than one step away, `moveToward` stops short of the target;
      with `MoveToward`'s own contract this gives: the target is returned
      exactly when the distance is at most one step. */
  lemma MoveTowardOffTarget(current: Pos, target: Pos, step: real, dist: real)
    requires step > 0.0 && IsDistance(dist, current, target) && dist > step
    ensures MoveToward(current, target, step, dist) != target
  {
    var e := dist - step;
    assert e * e > 0.0 by { assert e * e > 0.0 * e; }
  }

  // ---------------------------------------------------------------------
  // The per-robot step

  /** The robot's target can be looked up in the table. */
  predicate InRange(robot: Robot)
  {
    0 <= robot.targetHotspotIndex < |TrashHotspots|
  }

  function TargetOf(robot: Robot): Pos
    requires InRange(robot)
  {
    TrashHotspots[robot.targetHotspotIndex].position
  }

  /** The robot has reached its hotspot. */
  predicate Arrived(dist: real)
  {
    dist < ArrivalThreshold
  }

  /** `Math.max(10, battery - cost)`. */
  function Drain(battery: real, cost: real): (b: real)
    ensures b >= BatteryFloor && b >= battery - cost
    ensures b == battery - cost || b == BatteryFloor
  {
    if BatteryFloor >= battery - cost then BatteryFloor else battery - cost
  }

  /** The update for a robot at its hotspot: next hotspot, status from the
      arrival cadence, the arrival cost; position is not touched. */
  function ArrivalUpdate(counter: nat, robot: Robot): (p: Patch)
    ensures p.id.None? && p.name.None? && p.position.None?
    ensures p.targetHotspotIndex == Some((robot.targetHotspotIndex + 1) % |TrashHotspots|)
    ensures p.status.Some? && p.battery.Some?
    ensures p.status.value == Collecting <==> counter % ArrivalCadence == 0
    ensures p.status.value == Moving <==> counter % ArrivalCadence != 0
    ensures p.battery.value >= BatteryFloor
    ensures robot.battery >= BatteryFloor + ArrivalCost ==> p.battery.value == robot.battery - ArrivalCost
    ensures robot.battery <= BatteryFloor + ArrivalCost ==> p.battery.value == BatteryFloor
  {
    Patch(
      None, None, None,
      Some(Drain(robot.battery, ArrivalCost)),
      Some(if counter % ArrivalCadence == 0 then Collecting else Moving),
      Some((robot.targetHotspotIndex + 1) % |TrashHotspots|))
  }

  /** The transit toggle: only moving to collecting at phase 0 and
      collecting to moving at phase 5; every other status is kept. */
  function ToggleStatus(counter: nat, status: Status): (t: Status)
    ensures t != status ==>
              || (status == Moving && t == Collecting && counter % TogglePeriod == 0)
              || (status == Collecting && t == Moving && counter % TogglePeriod == ToggleBackPhase)
    ensures status == Moving && counter % TogglePeriod == 0 ==> t == Collecting
    ensures status == Collecting && counter % TogglePeriod == ToggleBackPhase ==> t == Moving
  {
    if counter % TogglePeriod == 0 && status == Moving then Collecting
    else if counter % TogglePeriod == ToggleBackPhase && status == Collecting then Moving
    else status
  }

  /** The update for a robot in transit: one step toward the hotspot, the
      transit cost, the toggle, and `charging` whenever the new battery is
      below 20; the hotspot index is not touched. */
  function TransitUpdate(counter: nat, robot: Robot, target: Pos, dist: real): (p: Patch)
    requires IsDistance(dist, robot.position, target)
    ensures p.id.None? && p.name.None? && p.targetHotspotIndex.None?
    ensures p.position.Some?
    ensures dist <= StepSize ==> p.position.value == target
    ensures dist >= StepSize ==>
              IsDistance(StepSize, robot.position, p.position.value) && IsDistance(dist - StepSize, p.position.value, target)
    ensures p.status.Some? && p.battery.Some?
    ensures p.battery.value >= BatteryFloor
    ensures robot.battery >= BatteryFloor + TransitCost ==> p.battery.value == robot.battery - TransitCost
    ensures robot.battery <= BatteryFloor + TransitCost ==> p.battery.value == BatteryFloor
    ensures p.battery.value < LowBattery ==> p.status.value == Charging
    ensures p.battery.value >= LowBattery ==> p.status.value == ToggleStatus(counter, robot.status)
  {
    var newPosition := MoveToward(robot.position, target, StepSize, dist);
    var newBattery := Drain(robot.battery, TransitCost);
    var toggled := ToggleStatus(counter, robot.status);
    var newStatus := if newBattery < LowBattery then Charging else toggled;
    Patch(None, None, Some(newPosition), Some(newBattery), Some(newStatus), None)
  }

  /** The body of the `forEach` in `simulateRobotMovement`: look the target
      up (unchecked in the source, hence `InRange`), then arrive or move. */
  function StepRobot(counter: nat, robot: Robot, dist: real): (u: Update)
    requires InRange(robot)
    requires IsDistance(dist, robot.position, TargetOf(robot))
    ensures u.id == robot.id && u.patch.id.None?
    ensures Arrived(dist) ==> u.patch == ArrivalUpdate(counter, robot)
    ensures !Arrived(dist) ==> u.patch == TransitUpdate(counter, robot, TargetOf(robot), dist)
  {
    var target := TargetOf(robot);
    if dist < ArrivalThreshold then Update(robot.id, ArrivalUpdate(counter, robot))
    else Update(robot.id, TransitUpdate(counter, robot, target, dist))
  }

  /** The record the store holds for `robot` after its step is merged. */
  function Advance(counter: nat, robot: Robot, dist: real): (r: Robot)
    requires InRange(robot)
    requires IsDistance(dist, robot.position, TargetOf(robot))
    ensures r.id == robot.id && r.name == robot.name
    ensures r.battery >= BatteryFloor
    ensures robot.battery >= BatteryFloor ==> r.battery <= robot.battery
    ensures InRange(r)
    ensures Arrived(dist) ==> r.targetHotspotIndex == (robot.targetHotspotIndex + 1) % |TrashHotspots|
    ensures !Arrived(dist) ==> r.targetHotspotIndex == robot.targetHotspotIndex
  {
    Merge(robot, StepRobot(counter, robot, dist).patch)
  }

  /** Arrival: position kept, status from the cadence, arrival cost with
      floor 10; a low battery does not force `charging` on this branch. */
  lemma ArrivalBranch(counter: nat, robot: Robot, dist: real)
    requires InRange(robot)
    requires IsDistance(dist, robot.position, TargetOf(robot))
    requires Arrived(dist)
    ensures Advance(counter, robot, dist).position == robot.position
    ensures Advance(counter, robot, dist).status == (if counter % ArrivalCadence == 0 then Collecting else Moving)
    ensures Advance(counter, robot, dist).battery == Drain(robot.battery, ArrivalCost)
  {
  }

  /** Transit: one step toward the target, transit cost with floor 10, and
      `charging` exactly when the toggle is overridden by a low battery. */
  lemma TransitBranch(counter: nat, robot: Robot, dist: real)
    requires InRange(robot)
    requires IsDistance(dist, robot.position, TargetOf(robot))
    requires !Arrived(dist)
    ensures Advance(counter, robot, dist).position == MoveToward(robot.position, TargetOf(robot), StepSize, dist)
    ensures Advance(counter, robot, dist).battery == Drain(robot.battery, TransitCost)
    ensures Advance(counter, robot, dist).battery < LowBattery ==> Advance(counter, robot, dist).status == Charging
    ensures Advance(counter, robot, dist).battery >= LowBattery ==>
              Advance(counter, robot, dist).status == ToggleStatus(counter, robot.status)
  {
  }

  // ---------------------------------------------------------------------
  // The tick

  /** The engine's module state: `statusChangeCounter` and whether an
      interval is installed (`simulationInterval` is not null). */
  datatype Engine = Engine(counter: nat, running: bool)

  const InitialEngine: Engine := Engine(0, false)

  /** The engine together with the store it writes to. */
  datatype World = World(engine: Engine, store: Store)

  /** Every robot can look up its target, and `dists[i]` is robot `i`'s
      distance to it. */
  predicate Measured(robots: seq<Robot>, dists: seq<real>)
  {
    && |dists| == |robots|
    && forall i :: 0 <= i < |robots| ==>
         InRange(robots[i]) && IsDistance(dists[i], robots[i].position, TargetOf(robots[i]))
  }

  /** The `updates` array one tick builds: one entry per robot, in store order. */
  function TickUpdates(counter: nat, robots: seq<Robot>, dists: seq<real>): (us: seq<Update>)
    requires Measured(robots, dists)
    ensures |us| == |robots|
    ensures forall i :: 0 <= i < |robots| ==> us[i].id == robots[i].id
    ensures NoIdChanges(us)
  {
    seq(|robots|, i requires 0 <= i < |robots| && Measured(robots, dists) => StepRobot(counter, robots[i], dists[i]))
  }

  /** `simulateRobotMovement()`: bump the counter, then write every robot's
      update through one `updateAllRobots` call, hence one notification. */
  function SimulateRobotMovement(w: World, dists: seq<real>): (w': World)
    requires Measured(w.store.robots, dists)
    ensures w'.engine == w.engine.(counter := w.engine.counter + 1)
    ensures |w'.store.robots| == |w.store.robots|
    ensures w'.store.listeners == w.store.listeners
    ensures w'.store.log == w.store.log + Deliveries(w.store.listeners, w'.store.robots)
  {
    var counter := w.engine.counter + 1;
    var updates := TickUpdates(counter, GetRobots(w.store), dists);
    World(w.engine.(counter := counter), UpdateAllRobots(w.store, updates))
  }

  /** No two robots share an id. */
  predicate DistinctIds(robots: seq<Robot>)
  {
    forall i, j :: 0 <= i < j < |robots| ==> robots[i].id != robots[j].id
  }

  lemma {:induction false} PatchesForNone(batch: seq<Update>, id: int)
    requires forall k :: 0 <= k < |batch| ==> batch[k].id != id
    ensures PatchesFor(batch, id) == []
    decreases |batch|
  {
    if |batch| > 0 {
      PatchesForNone(batch[1..], id);
    }
  }

  lemma {:induction false} PatchesForSingle(batch: seq<Update>, id: int, k: int)
    requires 0 <= k < |batch| && batch[k].id == id
    requires forall j :: 0 <= j < |batch| && j != k ==> batch[j].id != id
    ensures PatchesFor(batch, id) == [batch[k].patch]
    decreases |batch|
  {
    if k == 0 {
      PatchesForNone(batch[1..], id);
    } else {
      PatchesForSingle(batch[1..], id, k - 1);
    }
  }

  /** With distinct ids, the tick turns every robot into its `Advance`, all
      computed with the counter already incremented. */
  lemma TickAdvancesEveryRobot(w: World, dists: seq<real>)
    requires Measured(w.store.robots, dists)
    requires DistinctIds(w.store.robots)
    ensures forall i :: 0 <= i < |w.store.robots| ==>
              SimulateRobotMovement(w, dists).store.robots[i]
                == Advance(w.engine.counter + 1, w.store.robots[i], dists[i])
  {
    var rs := w.store.robots;
    var counter := w.engine.counter + 1;
    var us := TickUpdates(counter, rs, dists);
    var after := UpdateAllRobots(w.store, us).robots;
    assert SimulateRobotMovement(w, dists).store.robots == after;
    UpdateAllRobotsPerRobot(w.store, us);
    forall i | 0 <= i < |rs|
      ensures after[i] == Advance(counter, rs[i], dists[i])
    {
      TickRobot(rs, us, counter, dists, i);
    }
  }

  lemma TickRobot(rs: seq<Robot>, us: seq<Update>, counter: nat, dists: seq<real>, i: int)
    requires Measured(rs, dists) && DistinctIds(rs)
    requires us == TickUpdates(counter, rs, dists)
    requires 0 <= i < |rs|
    ensures IsFirstOfId(rs, i)
    ensures MergeAll(rs[i], PatchesFor(us, rs[i].id)) == Advance(counter, rs[i], dists[i])
  {
    PatchesForSingle(us, rs[i].id, i);
    assert us[i] == StepRobot(counter, rs[i], dists[i]);
    var ps := [us[i].patch];
    assert ps[1..] == [];
    assert MergeAll(rs[i], ps) == MergeAll(Merge(rs[i], us[i].patch), []);
  }

  /** What every reachable fleet satisfies: distinct ids, a valid hotspot
      index, and a battery between the floor and 100. */
  predicate FleetInvariant(robots: seq<Robot>)
  {
    && DistinctIds(robots)
    && forall i :: 0 <= i < |robots| ==>
         InRange(robots[i]) && BatteryFloor <= robots[i].battery <= 100.0
  }

  lemma InitialFleet()
    ensures FleetInvariant(InitialStore().robots)
  {
  }

  /** A tick keeps the invariant: batteries stay at or above 10 and never
      rise (so stay at most 100), indices stay in the table, ids are kept. */
  lemma TickPreservesInvariant(w: World, dists: seq<real>)
    requires FleetInvariant(w.store.robots)
    requires Measured(w.store.robots, dists)
    ensures FleetInvariant(SimulateRobotMovement(w, dists).store.robots)
  {
    TickAdvancesEveryRobot(w, dists);
  }

  // ---------------------------------------------------------------------
  // Start and stop

  /** `startSimulation()`: install the interval unless one is installed. */
  function StartSimulation(e: Engine): (e': Engine)
    ensures e'.running && e'.counter == e.counter
    ensures e.running ==> e' == e
  {
    if e.running then e else e.(running := true)
  }

  /** `stopSimulation()`: clear the interval if one is installed. */
  function StopSimulation(e: Engine): (e': Engine)
    ensures !e'.running && e'.counter == e.counter
    ensures !e.running ==> e' == e
  {
    if e.running then e.(running := false) else e
  }

  /** One firing of the interval: a tick while running, nothing otherwise. */
  function IntervalFires(w: World, dists: seq<real>): (w': World)
    requires w.engine.running ==> Measured(w.store.robots, dists)
    ensures !w.engine.running ==> w' == w
    ensures w.engine.running ==> w'.engine.counter == w.engine.counter + 1
  {
    if w.engine.running then SimulateRobotMovement(w, dists) else w
  }

  lemma StartIdempotent(e: Engine)
    ensures StartSimulation(StartSimulation(e)) == StartSimulation(e)
  {
  }

  lemma StopIdempotent(e: Engine)
    ensures StopSimulation(StopSimulation(e)) == StopSimulation(e)
  {
  }

  /** After `stopSimulation` no further tick happens. */
  lemma StoppedNeverTicks(w: World, dists: seq<real>)
    ensures var w0 := w.(engine := StopSimulation(w.engine));
            IntervalFires(w0, dists) == w0
  {
  }

  // ---------------------------------------------------------------------
  // Concrete cases

  /** A robot 0.00012 south of hotspot 0 lands on it in one tick without
      arriving; the arrival (next index) happens on the following tick. */
  lemma CloseRobotArrivesOnSecondTick()
    ensures var r := Robot(7, "R", Pos(48.12508, 11.58350), 50.0, Moving, 0);
            var r1 := Advance(1, r, 0.00012);
            && r1.position == TrashHotspots[0].position
            && r1.targetHotspotIndex == 0
            && Advance(2, r1, 0.0).targetHotspotIndex == 1
  {
    var r := Robot(7, "R", Pos(48.12508, 11.58350), 50.0, Moving, 0);
    assert IsDistance(0.00012, r.position, TargetOf(r));
    var r1 := Advance(1, r, 0.00012);
    assert r1.position == TrashHotspots[0].position;
    assert IsDistance(0.0, r1.position, TargetOf(r1));
  }

  /** Arriving at the last hotspot wraps the index to 0. */
  lemma LastHotspotWraps(counter: nat, robot: Robot)
    requires robot.targetHotspotIndex == 4
    requires robot.position == TrashHotspots[4].position
    ensures IsDistance(0.0, robot.position, TargetOf(robot))
    ensures Advance(counter, robot, 0.0).targetHotspotIndex == 0
  {
  }

  /** An arriving robot with battery 15 becomes `moving`, not `charging`. */
  lemma ArrivalIgnoresLowBattery(robot: Robot)
    requires robot.targetHotspotIndex == 0 && robot.battery == 15.0
    requires robot.position == TrashHotspots[0].position
    ensures IsDistance(0.0, robot.position, TargetOf(robot))
    ensures Advance(1, robot, 0.0).status == Moving
    ensures Advance(1, robot, 0.0).battery < LowBattery
  {
  }
}
