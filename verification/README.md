# Robot fleet simulation and store — a Dafny model

This project models the part of the Isar clean-bot map front end that holds
the simulation state: the robot store (`src/robotsStore.js`) and the
simulation tick that drives it (`src/robotSimulation.js`).

- `wrappers.dfy` — `Option`, used for partial-update fields and for the
  "not found" answer of an index search.
- `robots.dfy` (module `Robots`) — the robot record, its status, and the
  partial update (`Patch`, one `Option` per field). The object spread
  `{ ...robot, ...updates }` is `Merge`.
- `robots_store.dfy` (module `RobotsStore`) — the store as a state machine
  over the robot list, the listener list and a log of every listener call
  (`Delivery`). It covers the constructor roster, `subscribe` and its
  unsubscribe closure, `notify`, `getRobots`, `findIndex`, `updateRobot` and
  `updateAllRobots`. `ApplyBatchPerRobot` is a reference definition of a
  batch: the first robot with each id gets exactly the merges addressed to
  that id, in batch order.
- `robot_simulation.dfy` (module `RobotSimulation`) — the hotspot table,
  planar distance, `moveToward`, the arrival and transit updates, the tick
  `simulateRobotMovement`, and `startSimulation` / `stopSimulation` as a
  `running` flag.

Listeners are opaque ids. Calling one is recorded as a `Delivery` of the
list it was handed. `Math.sqrt` is not modelled. Wherever the source
measures the distance from a robot to its hotspot, the model takes that
distance as an argument `dist`, tied to the positions by
`IsDistance(dist, a, b)`: `dist >= 0` and `dist * dist` is the squared
planar distance. Numbers are exact reals.

Behaviour of the code worth knowing:
- An arriving robot is never forced to `charging`, however low its battery
  (`ArrivalIgnoresLowBattery`). The low-battery rule exists only on the
  transit branch.
- There is no `trashCollected` counter and no battery ceiling clamp.
  Batteries still stay at or below 100 under ticks, because a tick never
  raises a battery that is at least 10 (`TickPreservesInvariant`).
- The waypoint table is the constant five-entry `TrashHotspots`. The lookup
  by index is unchecked, so the tick requires every index to be in range.
  Nothing refuses an empty table.
- A robot 0.00012 from its hotspot needs two ticks, not one. The first tick
  is a transit step that lands exactly on the hotspot. The second tick is
  the arrival that advances the index (`CloseRobotArrivesOnSecondTick`).
- `moveToward` also returns the target when the remaining distance equals
  the step, because the ratio is then exactly 1.

## Model

| member | source | states |
|---|---|---|
| Robots.Merge | src/robotsStore.js:43 | every field present in the update has the update's value; every absent field keeps the record's value |
| Robots.MergeUnique | src/robotsStore.js:52 | the merged record is the only record that carries the update and keeps the other fields |
| Robots.MergeEmpty | src/robotsStore.js:43 | merging an empty update leaves the record unchanged |
| Robots.MergeCompose | src/robotsStore.js:49-54 | two updates merged one after the other equal one merge of their spread |
| Robots.MergeIdempotent | src/robotsStore.js:43 | applying the same update twice gives the same record as applying it once |
| RobotsStore.InitialStore | src/robotsStore.js:3-23 | a new store holds two robots with different ids, no listeners and no notifications yet |
| RobotsStore.InitialRoster | src/robotsStore.js:3-23 | the constructor holds two robots with ids 1 and 2, hotspot indices 0 and 1, batteries 95 and 87, both `moving`, and no listeners |
| RobotsStore.RemoveAll | src/robotsStore.js:28 | the filter removes every registration of the listener and keeps every other listener's count; a listener that is absent leaves the list identical |
| RobotsStore.RemoveAllDistributes | src/robotsStore.js:28 | the filter works piecewise over a concatenation, so the kept listeners stay in their order |
| RobotsStore.Subscribe | src/robotsStore.js:25-27 | the listener is appended at the end; robots and log are unchanged; the closure remembers the listener |
| RobotsStore.Unsubscribe | src/robotsStore.js:27-29 | after the closure runs the listener is gone, every other listener keeps its count, and robots and log are unchanged |
| RobotsStore.SubscribeThenUnsubscribe | src/robotsStore.js:25-29 | subscribing a new listener and then calling its closure restores the store exactly |
| RobotsStore.UnsubscribeTwice | src/robotsStore.js:27-29 | calling the closure a second time changes nothing |
| RobotsStore.UnsubscribeRemovesEveryRegistration | src/robotsStore.js:28 | the closure compares by identity, so it also removes a second registration of the same listener |
| RobotsStore.Notify | src/robotsStore.js:32-34 | each registration is called once, in subscription order (a listener subscribed twice is called twice), with the current robot list; robots and listeners are unchanged |
| RobotsStore.FindIndex | src/robotsStore.js:41 | the result is the first index whose robot has the id; `None` holds exactly when no robot has it |
| RobotsStore.UpdateRobot | src/robotsStore.js:40-46 | a known id replaces only the first matching record by its merge and logs one notification round with the new list; an unknown id leaves the whole store unchanged and notifies no one |
| RobotsStore.UpdateRobotFrame | src/robotsStore.js:40-45 | every record other than the matched one is unchanged, and the length is kept |
| RobotsStore.ApplyBatch | src/robotsStore.js:49-54 | a batch of merges never changes the number of robots |
| RobotsStore.UpdateAllRobots | src/robotsStore.js:48-56 | exactly one notification round follows the batch, also for an empty batch or only unknown ids; every listener gets the list with the whole batch applied |
| RobotsStore.SnapshotIsDelivered | src/robotsStore.js:32-38 | after `updateAllRobots`, every registration is handed, in order, exactly the list `getRobots` then returns |
| RobotsStore.UpdateSnapshotIsDelivered | src/robotsStore.js:32-46 | after `updateRobot` with a known id, every registration is handed the list `getRobots` then returns; an unknown id leaves the store as it was |
| RobotsStore.ApplyBatchSnoc | src/robotsStore.js:49-54 | an entry added at the end of a batch is applied after all the earlier ones |
| RobotsStore.ApplyOneUnknown | src/robotsStore.js:50-51 | an entry whose id no robot has is skipped |
| RobotsStore.ApplyOne | src/robotsStore.js:50-53 | one batch entry never adds or drops a robot |
| RobotsStore.ApplyOnePerRobot | src/robotsStore.js:50-53 | one entry merges into the first robot with its id and nowhere else, whatever the patch; when the patch does not set an id, every robot keeps its id |
| RobotsStore.ApplyBatchPerRobot | src/robotsStore.js:49-54 | when no entry rewrites an id, the first robot with each id gets exactly the merges addressed to it, in batch order; unknown ids are skipped one by one; every other robot is unchanged |
| RobotsStore.UpdateAllRobotsPerRobot | src/robotsStore.js:48-56 | the same per-robot effect, stated on the store after `updateAllRobots` |
| RobotSimulation.SqDist | src/robotSimulation.js:13-23 | the squared planar distance is never negative |
| RobotSimulation.SqDistSelf | src/robotSimulation.js:13-23 | a position is at distance 0 from itself |
| RobotSimulation.AlongDistances | src/robotSimulation.js:38-42 | moving a fraction t along the line scales the distance covered by t and the distance left by 1 - t |
| RobotSimulation.IsDistance | src/robotSimulation.js:13-23 | a distance is never negative and does not depend on the order of the two points |
| RobotSimulation.MoveTowardGeometry | src/robotSimulation.js:38-42 | the ratio step / distance moves exactly one step and leaves distance - step to the target; a distance equal to the step lands on the target |
| RobotSimulation.MoveToward | src/robotSimulation.js:26-43 | within one step the target itself is returned; otherwise the point on the line exactly one step away, with distance - step left |
| RobotSimulation.MoveTowardOffTarget | src/robotSimulation.js:34-42 | more than one step away the result is not the target, so with `MoveToward` the target is returned exactly when the distance is at most one step |
| RobotSimulation.Drain | src/robotSimulation.js:72 | the drained battery is at least 10 and at least battery - cost, and it is one of the two |
| RobotSimulation.ArrivalUpdate | src/robotSimulation.js:62-74 | arrival moves the index to (i + 1) mod 5 and does not touch the position; status is `collecting` exactly when the counter is a multiple of 20, otherwise `moving`; the battery loses 0.3 down to a floor of 10 |
| RobotSimulation.ToggleStatus | src/robotSimulation.js:81-86 | the only status changes are `moving` to `collecting` at counter mod 15 = 0 and `collecting` to `moving` at counter mod 15 = 5; any other status is kept |
| RobotSimulation.TransitUpdate | src/robotSimulation.js:75-101 | transit moves one step toward the target, drains 0.1 down to 10, and leaves the index alone; the status is `charging` whenever the new battery is below 20, otherwise the toggle |
| RobotSimulation.StepRobot | src/robotSimulation.js:56-101 | each robot produces one update carrying its own id, chosen by the arrival threshold 0.0001, and the update never rewrites an id |
| RobotSimulation.Advance | src/robotSimulation.js:56-101 | after its merge a robot keeps id and name, has battery at least 10, a battery that was at least 10 does not rise, and its index stays in 0..4 (advanced on arrival, kept in transit) |
| RobotSimulation.ArrivalBranch | src/robotSimulation.js:62-74 | an arriving robot keeps its position, takes its status from the cadence, and its battery is drained by 0.3 |
| RobotSimulation.TransitBranch | src/robotSimulation.js:75-101 | a robot in transit is moved by `moveToward`, drained by 0.1, and is `charging` whenever its new battery is below 20 |
| RobotSimulation.TickUpdates | src/robotSimulation.js:52-101 | a tick builds one update per robot, with ids in store order, none rewriting an id |
| RobotSimulation.SimulateRobotMovement | src/robotSimulation.js:50-105 | the counter rises by exactly 1 and the running flag is kept; the robot count and listeners are kept; exactly one notification round carries the list after the whole tick |
| RobotSimulation.TickAdvancesEveryRobot | src/robotSimulation.js:50-105 | with distinct ids, every robot becomes its own step merged in, computed with the already incremented counter |
| RobotSimulation.InitialFleet | src/robotsStore.js:5-22 | the initial roster satisfies the fleet invariant: distinct ids, indices in range, batteries between 10 and 100 |
| RobotSimulation.TickPreservesInvariant | src/robotSimulation.js:50-105 | a tick keeps ids distinct, indices in 0..4 and batteries between 10 and 100 |
| RobotSimulation.StartSimulation | src/robotSimulation.js:110-116 | after start the engine is running with its counter unchanged; start while running changes nothing |
| RobotSimulation.StopSimulation | src/robotSimulation.js:118-123 | after stop the engine is not running with its counter unchanged; stop while stopped changes nothing |
| RobotSimulation.IntervalFires | src/robotSimulation.js:113-115 | the interval ticks only while running, and only then needs every robot's distance and an in-range hotspot index; when stopped any world is left unchanged |
| RobotSimulation.StartIdempotent | src/robotSimulation.js:110-111 | starting twice is the same as starting once |
| RobotSimulation.StopIdempotent | src/robotSimulation.js:118-123 | stopping twice is the same as stopping once |
| RobotSimulation.StoppedNeverTicks | src/robotSimulation.js:118-123 | after stop no tick changes the world, whatever the robots' indices and positions |
| RobotSimulation.CloseRobotArrivesOnSecondTick | src/robotSimulation.js:62-77 | a robot 0.00012 from its hotspot lands on it in one transit tick without advancing the index; the next tick advances it |
| RobotSimulation.LastHotspotWraps | src/robotSimulation.js:64 | arriving at hotspot 4 wraps the index to 0 |
| RobotSimulation.ArrivalIgnoresLowBattery | src/robotSimulation.js:62-74 | an arriving robot with battery 15 becomes `moving`, not `charging` |

## Left out

- `Math.sqrt` and `calculateDistance` as a computation: distances are arguments related to positions by `IsDistance`, since Dafny has no square root. IEEE rounding is not modelled; all arithmetic is on exact reals.
- Real timing: `setInterval`/`clearInterval` and the 300 ms period become the `running` flag and `IntervalFires`.
- The unused `statusCycle` constant.
- Listener bodies: listeners are opaque ids. A listener that calls back into the store or unsubscribes during `notify` is not modelled.
- Aliasing: the source hands listeners the live robot array, which later updates change in place. The model records the list's value at the time of the call.
- Partial updates only carry the six record fields as `Option`s. Extra keys and keys set explicitly to `undefined` are not modelled, and status is one of the three known values.
- RobotsStore.ApplyBatchPerRobot: the per-robot characterisation assumes no entry rewrites an id. Batches that do are covered only by the fold `ApplyBatch` and `ApplyBatchSnoc`.
- RobotsStore.UpdateAllRobotsPerRobot: like `ApplyBatchPerRobot`, stated only for batches in which no entry rewrites an id; `UpdateAllRobots` itself covers every batch but describes the result as the fold.
- RobotSimulation.TickAdvancesEveryRobot: stated for fleets with distinct ids. With a repeated id the source routes every update for that id to the first robot with it.
- The counter is an unbounded natural; JavaScript's 2^53 limit on exact integers is not modelled.
- `src/MapView.jsx`, `src/HeatmapLayer.jsx` and `prediction/classify_trash.py` (rendering, a map plugin, model inference) are not part of this model.
