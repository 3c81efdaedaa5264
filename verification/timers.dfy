/** The interval timers behind the repetitions: the scheduler registry, which maps the job
    name `repetition-<id>` to an interval, and the runtime's set of live `setInterval`
    handles. Job names are keyed here by the repetition id itself, since the name is the id
    behind a fixed prefix. A real-time tick is not modelled here: the service fires an
    armed id as an explicit step. */
module TimerRegistry {
  import opened Results
  import opened RepetitionEntity

  /** A registered interval: its period in milliseconds and the runtime handle it owns. */
  datatype Timer = Timer(period: int, handle: nat)

  /** `registry` is the scheduler registry; `live` the handles the runtime still fires;
      `nextHandle` the next handle `setInterval` hands out. */
  datatype Timers = Timers(registry: map<RepetitionId, Timer>, live: set<nat>, nextHandle: nat)

  /** The state of a freshly started process: nothing is registered and nothing fires. */
  const NoTimers := Timers(map[], {}, 0)

  datatype RegistryError = DuplicateSchedulerName

  function Handles(registry: map<RepetitionId, Timer>): set<nat> {
    set id | id in registry :: registry[id].handle
  }

  predicate DistinctHandles(registry: map<RepetitionId, Timer>) {
    forall a, b :: a in registry && b in registry && a != b ==> registry[a].handle != registry[b].handle
  }

  /** No leaked intervals: the runtime fires exactly the registered handles, one per
      registered id, and every handle was issued before. */
  predicate Valid(ts: Timers) {
    && ts.live == Handles(ts.registry)
    && DistinctHandles(ts.registry)
    && (forall h :: h in ts.live ==> h < ts.nextHandle)
  }

  lemma NoTimersValid()
    ensures Valid(NoTimers)
  {
  }

  /** `doesExist('interval', name)`. */
  predicate DoesExist(ts: Timers, id: RepetitionId) {
    id in ts.registry
  }

  /** `setInterval`: the runtime starts firing a new handle. */
  function SetInterval(ts: Timers): (r: (Timers, nat))
    ensures r.1 == ts.nextHandle && r.0.live == ts.live + {r.1}
    ensures r.0.registry == ts.registry && r.0.nextHandle > ts.nextHandle
  {
    (ts.(live := ts.live + {ts.nextHandle}, nextHandle := ts.nextHandle + 1), ts.nextHandle)
  }

  /** `clearInterval`: the runtime stops firing a handle. */
  function ClearInterval(ts: Timers, h: nat): (r: Timers)
    ensures r.live == ts.live - {h} && r.registry == ts.registry && r.nextHandle == ts.nextHandle
  {
    ts.(live := ts.live - {h})
  }

  /** `addInterval(name, handle)`: the registry refuses a name it already holds. */
  function AddInterval(ts: Timers, id: RepetitionId, t: Timer): (r: Result<Timers, RegistryError>)
    ensures r.Err? <==> id in ts.registry
    ensures r.Ok? ==> r.value.registry == ts.registry[id := t] && r.value.live == ts.live
  {
    if id in ts.registry then Err(DuplicateSchedulerName)
    else Ok(ts.(registry := ts.registry[id := t]))
  }

  /** `deleteInterval(name)`: drops the registry entry only. */
  function DeleteInterval(ts: Timers, id: RepetitionId): (r: Timers)
    requires id in ts.registry
    ensures r.registry == ts.registry - {id} && r.live == ts.live
  {
    ts.(registry := ts.registry - {id})
  }

  lemma HandlesRemove(registry: map<RepetitionId, Timer>, id: RepetitionId)
    requires DistinctHandles(registry) && id in registry
    ensures Handles(registry - {id}) == Handles(registry) - {registry[id].handle}
    ensures DistinctHandles(registry - {id})
  {
    var rest := registry - {id};
    forall h | h in Handles(registry) - {registry[id].handle}
      ensures h in Handles(rest)
    {
      var x :| x in registry && registry[x].handle == h;
      assert x != id && x in rest;
    }
  }

  lemma HandlesAdd(registry: map<RepetitionId, Timer>, id: RepetitionId, t: Timer)
    requires id !in registry
    ensures Handles(registry[id := t]) == Handles(registry) + {t.handle}
  {
    var grown := registry[id := t];
    assert t.handle == grown[id].handle;
    forall h | h in Handles(registry)
      ensures h in Handles(grown)
    {
      var x :| x in registry && registry[x].handle == h;
      assert x in grown && grown[x] == registry[x];
    }
  }

  /** `stopRepetition`: when the id is registered, its interval is cleared and the entry is
      deleted; otherwise nothing changes. Other ids keep their timers. */
  function Stop(ts: Timers, id: RepetitionId): (r: Timers)
    ensures id !in r.registry
    ensures r.registry == ts.registry - {id}
    ensures id !in ts.registry ==> r == ts
    ensures r.nextHandle == ts.nextHandle
    ensures Valid(ts) ==> Valid(r)
  {
    if DoesExist(ts, id) then
      var r := DeleteInterval(ClearInterval(ts, ts.registry[id].handle), id);
      assert Valid(ts) ==> Valid(r) by {
        if Valid(ts) {
          HandlesRemove(ts.registry, id);
        }
      }
      r
    else ts
  }

  /** `startRepetition`: an interval already registered for the id is stopped first, then a
      new one is started and registered. The registry therefore never refuses the name, the
      id ends up with exactly one timer, at the requested period, on a handle that was not
      live before (the period restarts), and no handle is leaked. */
  function Start(ts: Timers, id: RepetitionId, period: int): (r: Timers)
    ensures r.registry.Keys == ts.registry.Keys + {id}
    ensures r.registry[id].period == period
    ensures forall other :: other in ts.registry && other != id ==> r.registry[other] == ts.registry[other]
    ensures ts.nextHandle <= r.registry[id].handle < r.nextHandle
    ensures Valid(ts) ==> Valid(r) && r.registry[id].handle !in ts.live
  {
    var cleared := if DoesExist(ts, id) then Stop(ts, id) else ts;
    var (started, h) := SetInterval(cleared);
    var added := AddInterval(started, id, Timer(period, h));
    var r := added.value;
    assert Valid(ts) ==> Valid(r) && r.registry[id].handle !in ts.live by {
      if Valid(ts) {
        assert Valid(cleared);
        HandlesAdd(cleared.registry, id, Timer(period, h));
      }
    }
    r
  }

  /** Re-arming an id at the same period is harmless: the registry ends up the same apart
      from the handle, which is a new one, and the first interval is no longer fired. */
  lemma StartTwice(ts: Timers, id: RepetitionId, period: int)
    ensures Start(Start(ts, id, period), id, period).registry.Keys == Start(ts, id, period).registry.Keys
    ensures Start(Start(ts, id, period), id, period).registry[id].period == period
    ensures Valid(ts) ==>
      && Valid(Start(Start(ts, id, period), id, period))
      && Start(ts, id, period).registry[id].handle !in Start(Start(ts, id, period), id, period).live
  {
    var once := Start(ts, id, period);
    var twice := Start(once, id, period);
    if Valid(ts) {
      var h := once.registry[id].handle;
      forall other | other in twice.registry
        ensures twice.registry[other].handle != h
      {
        if other != id {
          assert twice.registry[other] == once.registry[other];
        }
      }
    }
  }

  /** Stopping twice is stopping once. */
  lemma StopTwice(ts: Timers, id: RepetitionId)
    ensures Stop(Stop(ts, id), id) == Stop(ts, id)
  {
  }

  /** Stopping right after starting leaves the registry as stopping alone would. */
  lemma StopAfterStart(ts: Timers, id: RepetitionId, period: int)
    ensures Stop(Start(ts, id, period), id).registry == Stop(ts, id).registry
  {
  }
}
