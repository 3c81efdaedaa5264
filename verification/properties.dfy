/** Properties of the repetition scheduler that span a whole step or several steps: the
    scheduler invariant is kept by every operation, a bounded repetition notifies exactly
    `repeatCount` times, and the places where the code departs from a tidier design. */
module RepetitionProperties {
  import opened Results
  import opened RepetitionEntity
  import opened RepetitionDtos
  import TR = TimerRegistry
  import opened RepetitionService

  // ---------------------------------------------------------------- the invariant

  /** The initial scheduler, with no rows and no timers, satisfies the invariant. */
  lemma EmptyInv(topics: map<TopicId, UserId>, hasHandler: bool)
    ensures Inv(Scheduler(map[], topics, TR.NoTimers, 0, 0, hasHandler))
  {
    TR.NoTimersValid();
  }

  lemma CreatePreservesInv(s: Scheduler, topicId: TopicId, userId: UserId, dto: CreateRepetitionDto)
    requires Inv(s)
    ensures Inv(Create(s, topicId, userId, dto).0)
  {
    var r := Create(s, topicId, userId, dto);
    if r.1.Ok? {
      var id := r.1.value;
      var t := r.0;
      forall a, b | a in t.store && b in t.store && a != b
        ensures t.store[a].topicId != t.store[b].topicId
      {
        if a == id || b == id {
          var other := if a == id then b else a;
          assert other in s.store;
          assert s.store[other].topicId != topicId;
        }
      }
    }
  }

  lemma UpdatePreservesInv(s: Scheduler, id: RepetitionId, userId: UserId, dto: UpdateRepetitionDto)
    requires Inv(s)
    ensures Inv(Update(s, id, userId, dto).0)
  {
    var r := Update(s, id, userId, dto);
    if r.1.Ok? {
      var t := r.0;
      var rec := s.store[id];
      var (rec1, ts1) := ApplyIsActive(id, rec, s.timers, dto.isActive);
      var rec2 := ApplyRepeatCount(rec1, dto.repeatCount);
      var (rec3, ts3) := ApplyInterval(id, rec2, ts1, dto.interval);
      assert TR.Valid(ts1);
      assert t.timers == ts3;
      assert TR.Valid(ts3);
      assert id in ts1.registry <==> rec1.isActive;
      forall a, b | a in t.store && b in t.store && a != b
        ensures t.store[a].topicId != t.store[b].topicId
      {
      }
    }
  }

  lemma RemovePreservesInv(s: Scheduler, id: RepetitionId, userId: UserId)
    requires Inv(s)
    ensures Inv(Remove(s, id, userId).0)
  {
  }

  lemma FirePreservesInv(s: Scheduler, id: RepetitionId, handlerSucceeds: bool)
    requires Inv(s) && id in s.timers.registry
    ensures Inv(Fire(s, id, handlerSucceeds).0)
  {
    var t := Fire(s, id, handlerSucceeds).0;
    forall a, b | a in t.store && b in t.store && a != b
      ensures t.store[a].topicId != t.store[b].topicId
    {
    }
  }

  /** The cascade keeps the tables consistent, but the deleted row's timer stays armed:
      `Fire` on it changes nothing, so the id is armed with no row behind it until the
      process restarts. */
  lemma CascadeOrphansTimer(s: Scheduler, id: RepetitionId)
    requires Inv(s) && id in s.store && s.store[id].isActive
    ensures var t := DeleteTopic(s, s.store[id].topicId);
      && StoreInv(t)
      && id !in t.store && id in t.timers.registry
      && Fire(t, id, true) == (t, Skipped)
      && !TimersMatch(t.store, t.timers.registry)
  {
    var t := DeleteTopic(s, s.store[id].topicId);
    forall other | other in t.store
      ensures t.store[other].topicId in t.topics
    {
      assert t.store[other] == s.store[other];
    }
  }

  /** The row `create` saves spells out `currentCount: 0` and `isActive: true`; those are
      the column defaults, so the row is the one the table builds from the topic, the cap
      and the interval alone. */
  lemma CreateRowMatchesDefaults(s: Scheduler, topicId: TopicId, userId: UserId, dto: CreateRepetitionDto)
    requires Create(s, topicId, userId, dto).1.Ok?
    ensures var (t, res) := Create(s, topicId, userId, dto);
      t.store[res.value] == NewRow(topicId, dto.interval, Some(dto.repeatCount), None, None)
  {
  }

  /** After a successful `create` the topic has exactly one repetition: the new one. */
  lemma CreateLeavesOneRowPerTopic(s: Scheduler, topicId: TopicId, userId: UserId, dto: CreateRepetitionDto)
    requires Inv(s) && Create(s, topicId, userId, dto).1.Ok?
    ensures var (t, res) := Create(s, topicId, userId, dto);
      && res.value in t.store && t.store[res.value].topicId == topicId
      && forall other :: other in t.store && t.store[other].topicId == topicId ==> other == res.value
  {
    CreatePreservesInv(s, topicId, userId, dto);
  }

  /** The cascade keeps the tables consistent and leaves the topic without a repetition;
      every surviving row is unchanged and, if active, still armed at its interval. */
  lemma DeleteTopicKeepsStoreInv(s: Scheduler, topicId: TopicId)
    requires Inv(s)
    ensures var t := DeleteTopic(s, topicId);
      && StoreInv(t) && !HasRepetitionFor(t.store, topicId)
      && (forall id :: id in t.store ==> id in s.store && t.store[id] == s.store[id])
      && (forall id :: id in t.store && t.store[id].isActive ==>
            id in t.timers.registry && t.timers.registry[id].period == t.store[id].interval)
  {
    var t := DeleteTopic(s, topicId);
    forall other | other in t.store
      ensures t.store[other].topicId in t.topics
    {
      assert t.store[other] == s.store[other];
    }
  }

  /** A topic deletion followed by a process restart: `initializeActiveRepetitions` arms the
      surviving active rows, the orphaned timer is gone, and the invariant holds again. */
  method RestartAfterCascade(s: Scheduler, topicId: TopicId) returns (r: Scheduler)
    requires Inv(s)
    ensures r.store == DeleteByTopic(s.store, topicId) && r.topics == s.topics - {topicId}
    ensures Inv(r)
  {
    DeleteTopicKeepsStoreInv(s, topicId);
    TR.NoTimersValid();
    r := Recover(Restart(DeleteTopic(s, topicId)));
  }

  // ---------------------------------------------------------------- repeated ticks

  /** Whether the handler resolves or rejects decides only what the tick reports: the
      scheduler state after it is the same. What follows a rejection is up to the process,
      not the model (see `Restart`). */
  lemma HandlerOutcomeLeavesStateAlone(s: Scheduler, id: RepetitionId)
    requires id in s.timers.registry
    ensures Fire(s, id, false).0 == Fire(s, id, true).0
  {
  }

  /** `k` ticks of the id's interval, stopping early once it is no longer armed. */
  function FireTimes(s: Scheduler, id: RepetitionId, k: nat): (r: Scheduler)
    ensures r.store.Keys == s.store.Keys
    ensures id in s.store ==> r.store[id].currentCount >= s.store[id].currentCount
    decreases k
  {
    if k == 0 || id !in s.timers.registry then s
    else FireTimes(Fire(s, id, true).0, id, k - 1)
  }

  /** While below its cap, every tick counts once and notifies once; the row stays active
      and the timer is left exactly as it was. */
  lemma {:induction false} TicksCount(s: Scheduler, id: RepetitionId, k: nat)
    requires id in s.timers.registry && id in s.store && s.store[id].isActive
    requires s.store[id].repeatCount == 0 || s.store[id].currentCount + k <= s.store[id].repeatCount
    ensures var t := FireTimes(s, id, k);
      && t.store == s.store[id := s.store[id].(currentCount := s.store[id].currentCount + k)]
      && t.timers == s.timers
      && t.handlerCalls == s.handlerCalls + k * HandlerWeight(s)
      && t.hasHandler == s.hasHandler
    decreases k
  {
    if k > 0 {
      var s1 := Fire(s, id, true).0;
      assert s1.store == s.store[id := s.store[id].(currentCount := s.store[id].currentCount + 1)];
      assert s1.handlerCalls == s.handlerCalls + HandlerWeight(s) && HandlerWeight(s1) == HandlerWeight(s);
      TicksCount(s1, id, k - 1);
      assert (k - 1) * HandlerWeight(s) + HandlerWeight(s) == k * HandlerWeight(s);
    }
  }

  /** With `repeatCount = n > 0` and no updates in between, the ticks that remain after
      `currentCount = c` notify exactly `n - c` times, and the next tick deactivates the row
      and stops its timer without notifying. */
  lemma BoundedRunExhausts(s: Scheduler, id: RepetitionId)
    requires id in s.timers.registry && id in s.store && s.store[id].isActive
    requires s.store[id].repeatCount > 0 && s.store[id].currentCount <= s.store[id].repeatCount
    ensures var n := s.store[id].repeatCount;
      var k := n - s.store[id].currentCount;
      var t := FireTimes(s, id, k);
      var u := FireTimes(s, id, k + 1);
      && t.store[id].currentCount == n && t.store[id].isActive
      && t.handlerCalls == s.handlerCalls + k * HandlerWeight(s)
      && u.store[id].currentCount == n && !u.store[id].isActive
      && id !in u.timers.registry
      && u.handlerCalls == t.handlerCalls
  {
    var k := s.store[id].repeatCount - s.store[id].currentCount;
    TicksCount(s, id, k);
    var t := FireTimes(s, id, k);
    FireTimesSplit(s, id, k);
  }

  lemma {:induction false} FireTimesSplit(s: Scheduler, id: RepetitionId, k: nat)
    ensures FireTimes(s, id, k + 1) == FireTimes(FireTimes(s, id, k), id, 1)
    decreases k
  {
    if k > 0 && id in s.timers.registry {
      FireTimesSplit(Fire(s, id, true).0, id, k - 1);
    }
  }

  /** A repetition created with `repeatCount = n > 0` notifies exactly `n` times, and tick
      `n + 1` deactivates it and stops its timer. */
  lemma CreatedRunsExactly(s: Scheduler, topicId: TopicId, userId: UserId, dto: CreateRepetitionDto)
    requires IdsAllocated(s) && dto.repeatCount > 0
    requires Create(s, topicId, userId, dto).1.Ok?
    ensures var (c, res) := Create(s, topicId, userId, dto);
      var n := dto.repeatCount;
      var id := res.value;
      && FireTimes(c, id, n).handlerCalls == s.handlerCalls + n * HandlerWeight(s)
      && FireTimes(c, id, n).store[id].isActive
      && !FireTimes(c, id, n + 1).store[id].isActive
      && id !in FireTimes(c, id, n + 1).timers.registry
      && FireTimes(c, id, n + 1).handlerCalls == FireTimes(c, id, n).handlerCalls
  {
    var (c, res) := Create(s, topicId, userId, dto);
    BoundedRunExhausts(c, res.value);
  }

  /** With `repeatCount = 0` the row never exhausts: every tick raises `currentCount` and the
      row stays active and armed. */
  lemma UnboundedNeverExhausts(s: Scheduler, id: RepetitionId, k: nat)
    requires id in s.timers.registry && id in s.store && s.store[id].isActive
    requires s.store[id].repeatCount == 0
    ensures var t := FireTimes(s, id, k);
      && t.store[id].currentCount == s.store[id].currentCount + k
      && t.store[id].isActive && id in t.timers.registry
  {
    TicksCount(s, id, k);
  }

  // ---------------------------------------------------------------- departures from a tidier design

  /** Reactivating an exhausted row does not reset `currentCount`: it is armed again, but
      its next tick deactivates it without notifying. */
  lemma ReactivatedExhaustedStopsAtOnce(s: Scheduler, id: RepetitionId, userId: UserId)
    requires Inv(s) && id in s.store && OwnsTopic(s, s.store[id].topicId, userId)
    requires s.store[id].repeatCount > 0 && s.store[id].currentCount >= s.store[id].repeatCount
    ensures var u := Update(s, id, userId, UpdateRepetitionDto(None, None, Some(true))).0;
      && u.store[id].isActive && id in u.timers.registry
      && u.store[id].currentCount == s.store[id].currentCount
      && var f := Fire(u, id, true);
         && f.1 == Exhausted && !f.0.store[id].isActive && id !in f.0.timers.registry
         && f.0.handlerCalls == s.handlerCalls
  {
  }

  /** `currentCount <= repeatCount` is not kept: lowering `repeatCount` to any `k` below the
      count is accepted as is, and only the next tick reacts, by deactivating. */
  lemma LoweringCapLeavesCountAbove(s: Scheduler, id: RepetitionId, userId: UserId, k: nat)
    requires Inv(s) && id in s.store && OwnsTopic(s, s.store[id].topicId, userId)
    requires s.store[id].isActive && 0 < k < s.store[id].currentCount
    ensures var u := Update(s, id, userId, UpdateRepetitionDto(Some(k), None, None)).0;
      && u.store[id].currentCount > u.store[id].repeatCount > 0
      && id in u.timers.registry
      && Fire(u, id, true).1 == Exhausted
  {
  }
}
