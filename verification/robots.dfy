/** The robot record held by the store and the partial updates merged into
    it (src/robotsStore.js). A JavaScript partial object `{battery: 9}`
    becomes a `Patch` whose absent fields are `None`, so the object spread
    `{ ...robot, ...updates }` is `Merge(robot, patch)`. */
module Robots {
  import opened Wrappers

  datatype Status = Moving | Collecting | Charging

  /** A `[latitude, longitude]` pair, in degrees. */
  datatype Pos = Pos(lat: real, lng: real)

  datatype Robot = Robot(
    id: int,
    name: string,
    position: Pos,
    battery: real,
    status: Status,
    targetHotspotIndex: int)

  /** The fields an update object may carry; `None` means the key is absent. */
  datatype Patch = Patch(
    id: Option<int>,
    name: Option<string>,
    position: Option<Pos>,
    battery: Option<real>,
    status: Option<Status>,
    targetHotspotIndex: Option<int>)

  /** The update object `{}`. */
  const EmptyPatch: Patch := Patch(None, None, None, None, None, None)

  /** Every field present in `p` has, in `m`, the value `p` gives it. */
  predicate Carries(m: Robot, p: Patch)
  {
    && (p.id.Some? ==> m.id == p.id.value)
    && (p.name.Some? ==> m.name == p.name.value)
    && (p.position.Some? ==> m.position == p.position.value)
    && (p.battery.Some? ==> m.battery == p.battery.value)
    && (p.status.Some? ==> m.status == p.status.value)
    && (p.targetHotspotIndex.Some? ==> m.targetHotspotIndex == p.targetHotspotIndex.value)
  }

  /** Every field absent from `p` has the same value in `m` as in `r`. */
  predicate KeepsAbsent(m: Robot, r: Robot, p: Patch)
  {
    && (p.id.None? ==> m.id == r.id)
    && (p.name.None? ==> m.name == r.name)
    && (p.position.None? ==> m.position == r.position)
    && (p.battery.None? ==> m.battery == r.battery)
    && (p.status.None? ==> m.status == r.status)
    && (p.targetHotspotIndex.None? ==> m.targetHotspotIndex == r.targetHotspotIndex)
  }

  /** `{ ...r, ...p }`: the fields of `p` overwrite, the others are kept. */
  function Merge(r: Robot, p: Patch): (m: Robot)
    ensures Carries(m, p)
    ensures KeepsAbsent(m, r, p)
  {
    Robot(
      p.id.GetOr(r.id),
      p.name.GetOr(r.name),
      p.position.GetOr(r.position),
      p.battery.GetOr(r.battery),
      p.status.GetOr(r.status),
      p.targetHotspotIndex.GetOr(r.targetHotspotIndex))
  }

  /** The merge is the only record that carries the patch and keeps the rest. */
  lemma MergeUnique(r: Robot, p: Patch, m: Robot)
    requires Carries(m, p)
    requires KeepsAbsent(m, r, p)
    ensures m == Merge(r, p)
  {
  }

  /** `{ ...r, ...{} }` is a copy of `r`. */
  lemma MergeEmpty(r: Robot)
    ensures Merge(r, EmptyPatch) == r
  {
  }

  /** `{ ...p, ...q }`: the patch whose fields come from `q` where present,
      from `p` otherwise. */
  function Then(p: Patch, q: Patch): Patch
  {
    Patch(
      if q.id.Some? then q.id else p.id,
      if q.name.Some? then q.name else p.name,
      if q.position.Some? then q.position else p.position,
      if q.battery.Some? then q.battery else p.battery,
      if q.status.Some? then q.status else p.status,
      if q.targetHotspotIndex.Some? then q.targetHotspotIndex else p.targetHotspotIndex)
  }

  /** Merging two patches one after the other is merging their spread. */
  lemma MergeCompose(r: Robot, p: Patch, q: Patch)
    ensures Merge(Merge(r, p), q) == Merge(r, Then(p, q))
  {
  }

  /** Repeating the same partial update changes nothing more. */
  lemma MergeIdempotent(r: Robot, p: Patch)
    ensures Merge(Merge(r, p), p) == Merge(r, p)
  {
  }
}
