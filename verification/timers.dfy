/**
 The host's repeating-timer facility, made explicit: the set of interval ids
 whose callbacks are still live, and the counter from which `setInterval`
 hands out the next id.
 */
module Timers {
  import opened Optional

  type IntervalId = nat

  datatype Registry = Registry(active: set<IntervalId>, nextId: IntervalId) {
    /** Every live id was handed out before, so `nextId` is still unused. */
    predicate Valid() {
      forall id :: id in active ==> id < nextId
    }
  }

  /** The registry of a freshly loaded page: nothing scheduled, ids start at 1. */
  function Empty(): (r: Registry)
    ensures r.Valid() && r.active == {}
  {
    Registry({}, 1)
  }

  /** `setInterval(callback, period)`: schedules one more repeating callback and
      returns its id, which no live interval is using. Ids are handed out in
      increasing order, so none is ever handed out twice. */
  function SetInterval(r: Registry): (res: (Registry, IntervalId))
    ensures res.0.active == r.active + {res.1}
    ensures r.Valid() ==> res.1 !in r.active && res.0.Valid()
    ensures res.1 == r.nextId && res.0.nextId == r.nextId + 1
  {
    (Registry(r.active + {r.nextId}, r.nextId + 1), r.nextId)
  }

  /** `clearInterval(id)`: stops that interval; `null` or an id that is not live
      leaves the registry as it was. */
  function ClearInterval(r: Registry, id: Option<IntervalId>): (r': Registry)
    ensures id.Some? ==> r'.active == r.active - {id.value}
    ensures id.None? || id.value !in r.active ==> r' == r
    ensures r.Valid() ==> r'.Valid()
  {
    match id
    case None => r
    case Some(i) => r.(active := r.active - {i})
  }

  /** Clearing the interval just created restores the live set exactly. */
  lemma SetThenClear(r: Registry)
    requires r.Valid()
    ensures var (r', id) := SetInterval(r); ClearInterval(r', Some(id)).active == r.active
  {
  }
}
