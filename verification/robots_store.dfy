/** The global robot store of src/robotsStore.js as a state machine: the
    ordered robot list, the ordered listener list, and a log of every call
    the store made to a listener. Listeners are opaque ids; calling one is
    recorded as a `Delivery` of the robot list it was handed. */
module RobotsStore {
  import opened Wrappers
  import opened Robots

  type ListenerId = int

  /** One call of a listener by `notify`, with the robot list it was handed. */
  datatype Delivery = Delivery(listener: ListenerId, robots: seq<Robot>)

  datatype Store = Store(robots: seq<Robot>, listeners: seq<ListenerId>, log: seq<Delivery>)

  /** One entry `{ id, updates }` of a batch passed to `updateAllRobots`. */
  datatype Update = Update(id: int, patch: Patch)

  /** The closure returned by `subscribe`; it remembers its listener. */
  datatype Unsubscriber = Unsubscriber(listener: ListenerId)

  /** The store built by the constructor: two robots, no listeners. */
  function InitialStore(): (s: Store)
    ensures |s.robots| == 2 && s.robots[0].id != s.robots[1].id
    ensures s.listeners == [] && s.log == []
  {
    Store(
      [ Robot(1, "CleanBot Alpha", Pos(48.12552, 11.58397), 95.0, Moving, 0),
        Robot(2, "CleanBot Beta", Pos(48.12612, 11.58457), 87.0, Moving, 1) ],
      [], [])
  }

  lemma InitialRoster()
    ensures InitialStore().listeners == [] && InitialStore().log == []
    ensures |InitialStore().robots| == 2
    ensures InitialStore().robots[0].id == 1 && InitialStore().robots[1].id == 2
    ensures InitialStore().robots[0].targetHotspotIndex == 0 && InitialStore().robots[1].targetHotspotIndex == 1
    ensures InitialStore().robots[0].battery == 95.0 && InitialStore().robots[1].battery == 87.0
    ensures forall i :: 0 <= i < 2 ==> InitialStore().robots[i].status == Moving
  {
  }

  // ---------------------------------------------------------------------
  // Listeners

  /** The listener list without any registration of `l`, others kept in order. */
  function RemoveAll(ls: seq<ListenerId>, l: ListenerId): (r: seq<ListenerId>)
    ensures l !in r
    ensures forall x :: x != l ==> multiset(r)[x] == multiset(ls)[x]
    ensures l !in ls ==> r == ls
    ensures l in ls ==> |r| < |ls|
  {
    if |ls| == 0 then []
    else
      assert ls == [ls[0]] + ls[1..];
      if ls[0] == l then RemoveAll(ls[1..], l)
      else [ls[0]] + RemoveAll(ls[1..], l)
  }

  /** The filter keeps the relative order of the listeners it keeps. */
  lemma {:induction false} RemoveAllDistributes(a: seq<ListenerId>, b: seq<ListenerId>, l: ListenerId)
    ensures RemoveAll(a + b, l) == RemoveAll(a, l) + RemoveAll(b, l)
  {
    if |a| == 0 {
      assert a + b == b;
    } else {
      assert (a + b)[1..] == a[1..] + b;
      RemoveAllDistributes(a[1..], b, l);
    }
  }

  /** `subscribe(listener)`: append the listener and hand back its closure. */
  function Subscribe(s: Store, l: ListenerId): (res: (Store, Unsubscriber))
    ensures res.0.robots == s.robots && res.0.log == s.log
    ensures res.0.listeners == s.listeners + [l]
    ensures res.1.listener == l
  {
    (s.(listeners := s.listeners + [l]), Unsubscriber(l))
  }

  /** Calling the closure returned by `subscribe`. */
  function Unsubscribe(s: Store, u: Unsubscriber): (s': Store)
    ensures s'.robots == s.robots && s'.log == s.log
    ensures u.listener !in s'.listeners
    ensures forall x :: x != u.listener ==> multiset(s'.listeners)[x] == multiset(s.listeners)[x]
  {
    s.(listeners := RemoveAll(s.listeners, u.listener))
  }

  /** Subscribing a new listener and calling its closure restores the store. */
  lemma SubscribeThenUnsubscribe(s: Store, l: ListenerId)
    requires l !in s.listeners
    ensures Unsubscribe(Subscribe(s, l).0, Subscribe(s, l).1) == s
  {
    RemoveAllDistributes(s.listeners, [l], l);
  }

  /** The closure can be called again: the second call changes nothing. */
  lemma UnsubscribeTwice(s: Store, u: Unsubscriber)
    ensures Unsubscribe(Unsubscribe(s, u), u) == Unsubscribe(s, u)
  {
  }

  /** The closure compares by identity, so it removes every registration of
      its listener, including ones made by another `subscribe` call. */
  lemma UnsubscribeRemovesEveryRegistration(s: Store, l: ListenerId)
    ensures var (s1, u1) := Subscribe(s, l);
            var (s2, u2) := Subscribe(s1, l);
            Unsubscribe(s2, u1).listeners == RemoveAll(s.listeners, l)
  {
    RemoveAllDistributes(s.listeners + [l], [l], l);
    RemoveAllDistributes(s.listeners, [l], l);
  }

  // ---------------------------------------------------------------------
  // Notification

  /** The calls `notify` makes: each listener, in order, with `robots`. */
  function Deliveries(ls: seq<ListenerId>, robots: seq<Robot>): seq<Delivery>
  {
    seq(|ls|, i requires 0 <= i < |ls| => Delivery(ls[i], robots))
  }

  /** `notify()`: every current registration is called once, in
      subscription order, with the current robot list; nothing else changes. */
  function Notify(s: Store): (s': Store)
    ensures s'.robots == s.robots && s'.listeners == s.listeners
    ensures |s'.log| == |s.log| + |s.listeners|
    ensures s'.log[..|s.log|] == s.log
    ensures forall i :: 0 <= i < |s.listeners| ==> s'.log[|s.log| + i] == Delivery(s.listeners[i], s.robots)
  {
    s.(log := s.log + Deliveries(s.listeners, s.robots))
  }

  /** `getRobots()`: the current list. */
  function GetRobots(s: Store): seq<Robot>
  {
    s.robots
  }

  // ---------------------------------------------------------------------
  // Updates

  /** `k` is the first index whose robot has the id. */
  predicate FirstWithId(rs: seq<Robot>, id: int, k: int)
  {
    0 <= k < |rs| && rs[k].id == id && forall j :: 0 <= j < k ==> rs[j].id != id
  }

  /** The index search of the update operations: the first robot with the
      id, or `None` where the source answers -1. */
  function FindIndex(rs: seq<Robot>, id: int): (k: Option<nat>)
    ensures k.Some? ==> FirstWithId(rs, id, k.value)
    ensures k.None? ==> forall j :: 0 <= j < |rs| ==> rs[j].id != id
  {
    if |rs| == 0 then None
    else if rs[0].id == id then Some(0)
    else match FindIndex(rs[1..], id)
      case None => None
      case Some(j) => Some(j + 1)
  }

  /** The list after one merge: the first robot with the id is replaced by
      its merge, or nothing happens when no robot has the id. */
  function ApplyOne(rs: seq<Robot>, u: Update): (rs': seq<Robot>)
    ensures |rs'| == |rs|
  {
    match FindIndex(rs, u.id)
    case None => rs
    case Some(k) => rs[k := Merge(rs[k], u.patch)]
  }

  /** `updateRobot(id, updates)`: merge into the first robot with that id
      and notify once; an unknown id changes nothing and notifies no one. */
  function UpdateRobot(s: Store, id: int, patch: Patch): (s': Store)
    ensures (forall j :: 0 <= j < |s.robots| ==> s.robots[j].id != id) ==> s' == s
    ensures forall k :: FirstWithId(s.robots, id, k) ==>
              && s'.robots == s.robots[k := Merge(s.robots[k], patch)]
              && s'.listeners == s.listeners
              && s'.log == s.log + Deliveries(s.listeners, s'.robots)
  {
    match FindIndex(s.robots, id)
    case None => s
    case Some(k) => Notify(s.(robots := s.robots[k := Merge(s.robots[k], patch)]))
  }

  /** Only the matched record changes; length and order are kept. */
  lemma UpdateRobotFrame(s: Store, id: int, patch: Patch, j: int)
    requires 0 <= j < |s.robots|
    requires !FirstWithId(s.robots, id, j)
    ensures |UpdateRobot(s, id, patch).robots| == |s.robots|
    ensures UpdateRobot(s, id, patch).robots[j] == s.robots[j]
  {
    match FindIndex(s.robots, id)
    case None =>
    case Some(k) =>
  }

  /** The `forEach` of `updateAllRobots`: merges applied one by one in
      batch order, each against the list the previous ones left. */
  function ApplyBatch(rs: seq<Robot>, batch: seq<Update>): (rs': seq<Robot>)
    ensures |rs'| == |rs|
    decreases |batch|
  {
    if |batch| == 0 then rs else ApplyBatch(ApplyOne(rs, batch[0]), batch[1..])
  }

  /** `updateAllRobots(updatesArray)`: all merges first, then exactly one
      `notify`, even for an empty batch or one of unknown ids; so every
      listener is handed the list with the whole batch applied. */
  function UpdateAllRobots(s: Store, batch: seq<Update>): (s': Store)
    ensures |s'.robots| == |s.robots|
    ensures s'.listeners == s.listeners
    ensures s'.log == s.log + Deliveries(s.listeners, s'.robots)
  {
    Notify(s.(robots := ApplyBatch(s.robots, batch)))
  }

  /** A notification round appended to `log` hands every registration,
      in order, the list `robots`. */
  predicate RoundCarries(log: seq<Delivery>, log': seq<Delivery>, ls: seq<ListenerId>, robots: seq<Robot>)
  {
    && |log'| == |log| + |ls|
    && forall i :: |log| <= i < |log'| ==> log'[i] == Delivery(ls[i - |log|], robots)
  }

  lemma DeliveriesRound(log: seq<Delivery>, ls: seq<ListenerId>, robots: seq<Robot>)
    ensures RoundCarries(log, log + Deliveries(ls, robots), ls, robots)
  {
    var d := Deliveries(ls, robots);
    forall i | |log| <= i < |log + d|
      ensures (log + d)[i] == Delivery(ls[i - |log|], robots)
    {
      assert (log + d)[i] == d[i - |log|];
    }
  }

  /** Every listener called by `updateAllRobots` is handed exactly the list
      that `getRobots` returns afterwards, once per registration. */
  lemma SnapshotIsDelivered(s: Store, batch: seq<Update>)
    ensures var s' := UpdateAllRobots(s, batch);
            RoundCarries(s.log, s'.log, s.listeners, GetRobots(s'))
  {
    DeliveriesRound(s.log, s.listeners, UpdateAllRobots(s, batch).robots);
  }

  /** The same for `updateRobot`: a known id notifies every registration
      with the new list; an unknown id notifies no one. */
  lemma UpdateSnapshotIsDelivered(s: Store, id: int, patch: Patch)
    ensures FindIndex(s.robots, id).None? ==> UpdateRobot(s, id, patch) == s
    ensures FindIndex(s.robots, id).Some? ==>
              var s' := UpdateRobot(s, id, patch);
              RoundCarries(s.log, s'.log, s.listeners, GetRobots(s'))
  {
    DeliveriesRound(s.log, s.listeners, UpdateRobot(s, id, patch).robots);
  }

  /** Appending an entry to a batch applies it after all the others. */
  lemma {:induction false} ApplyBatchSnoc(rs: seq<Robot>, batch: seq<Update>, u: Update)
    ensures ApplyBatch(rs, batch + [u]) == ApplyOne(ApplyBatch(rs, batch), u)
    decreases |batch|
  {
    if |batch| == 0 {
      assert batch + [u] == [u];
      assert ApplyBatch(ApplyOne(rs, u), []) == ApplyOne(rs, u);
    } else {
      assert (batch + [u])[0] == batch[0];
      assert (batch + [u])[1..] == batch[1..] + [u];
      ApplyBatchSnoc(ApplyOne(rs, batch[0]), batch[1..], u);
    }
  }

  /** An entry whose id no robot has is skipped. */
  lemma ApplyOneUnknown(rs: seq<Robot>, u: Update)
    requires forall j :: 0 <= j < |rs| ==> rs[j].id != u.id
    ensures ApplyOne(rs, u) == rs
  {
  }

  // Reference definition of a batch's effect on one robot.

  /** No entry of the batch rewrites an id. */
  predicate NoIdChanges(batch: seq<Update>)
  {
    forall k :: 0 <= k < |batch| ==> batch[k].patch.id.None?
  }

  /** Robot `i` is the first with its id, so `findIndex` can reach it. */
  predicate IsFirstOfId(rs: seq<Robot>, i: int)
  {
    0 <= i < |rs| && forall j :: 0 <= j < i ==> rs[j].id != rs[i].id
  }

  predicate SameIds(a: seq<Robot>, b: seq<Robot>)
  {
    |a| == |b| && forall i :: 0 <= i < |a| ==> a[i].id == b[i].id
  }

  /** The patches of the batch addressed to `id`, in batch order. */
  function PatchesFor(batch: seq<Update>, id: int): seq<Patch>
  {
    if |batch| == 0 then []
    else if batch[0].id == id then [batch[0].patch] + PatchesFor(batch[1..], id)
    else PatchesFor(batch[1..], id)
  }

  /** `r` with the patches merged into it in order. */
  function MergeAll(r: Robot, ps: seq<Patch>): Robot
    decreases |ps|
  {
    if |ps| == 0 then r else MergeAll(Merge(r, ps[0]), ps[1..])
  }

  lemma ApplyOnePerRobot(rs: seq<Robot>, u: Update)
    ensures u.patch.id.None? ==> SameIds(rs, ApplyOne(rs, u))
    ensures forall i :: 0 <= i < |rs| ==>
              ApplyOne(rs, u)[i] == if IsFirstOfId(rs, i) && rs[i].id == u.id then Merge(rs[i], u.patch) else rs[i]
  {
    match FindIndex(rs, u.id)
    case None =>
    case Some(k) =>
      forall i | 0 <= i < |rs|
        ensures ApplyOne(rs, u)[i] == if IsFirstOfId(rs, i) && rs[i].id == u.id then Merge(rs[i], u.patch) else rs[i]
      {
        if i != k && rs[i].id == u.id {
          assert k < i && rs[k].id == rs[i].id;
        }
      }
  }

  /** A batch whose entries keep ids leaves the ids alone and gives the first
      robot with each id exactly the merges addressed to that id, in batch
      order; every unknown id is skipped and every other robot is kept. */
  lemma {:induction false} ApplyBatchPerRobot(rs: seq<Robot>, batch: seq<Update>)
    requires NoIdChanges(batch)
    ensures SameIds(rs, ApplyBatch(rs, batch))
    ensures forall i :: 0 <= i < |rs| ==>
              ApplyBatch(rs, batch)[i] == if IsFirstOfId(rs, i) then MergeAll(rs[i], PatchesFor(batch, rs[i].id)) else rs[i]
    decreases |batch|
  {
    if |batch| > 0 {
      var rs1 := ApplyOne(rs, batch[0]);
      ApplyOnePerRobot(rs, batch[0]);
      ApplyBatchPerRobot(rs1, batch[1..]);
      forall i | 0 <= i < |rs|
        ensures ApplyBatch(rs, batch)[i] == if IsFirstOfId(rs, i) then MergeAll(rs[i], PatchesFor(batch, rs[i].id)) else rs[i]
      {
        assert IsFirstOfId(rs1, i) == IsFirstOfId(rs, i);
        if IsFirstOfId(rs, i) && rs[i].id == batch[0].id {
          var ps := PatchesFor(batch, rs[i].id);
          assert ps == [batch[0].patch] + PatchesFor(batch[1..], rs[i].id);
          assert ps[1..] == PatchesFor(batch[1..], rs[i].id);
        }
      }
    }
  }

  /** The per-robot effect of `updateAllRobots`, stated on the store. */
  lemma UpdateAllRobotsPerRobot(s: Store, batch: seq<Update>)
    requires NoIdChanges(batch)
    ensures SameIds(s.robots, UpdateAllRobots(s, batch).robots)
    ensures forall i :: 0 <= i < |s.robots| ==>
              UpdateAllRobots(s, batch).robots[i]
                == if IsFirstOfId(s.robots, i) then MergeAll(s.robots[i], PatchesFor(batch, s.robots[i].id)) else s.robots[i]
  {
    ApplyBatchPerRobot(s.robots, batch);
  }
}
