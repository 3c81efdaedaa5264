/** The repetition scheduler as a sequential state machine. Each service method is one
    atomic step from a `Scheduler` to the next; a real-time tick of an armed interval is the
    explicit step `Fire`, enabled only while the id is registered. */
module RepetitionService {
  import opened Results
  import opened RepetitionEntity
  import opened RepetitionDtos
  import TR = TimerRegistry

  /** `store` is the `repetitions` table; `topics` maps each topic to the user who owns it;
      `timers` holds the armed intervals; `handlerCalls` counts invocations of the
      notification handler; `nextId` is the next generated id; `hasHandler` says whether a
      handler was injected (it is optional). */
  datatype Scheduler = Scheduler(
    store: map<RepetitionId, Repetition>,
    topics: map<TopicId, UserId>,
    timers: TR.Timers,
    handlerCalls: nat,
    nextId: RepetitionId,
    hasHandler: bool)

  /** The exceptions the service throws: `NotFoundException` and `ForbiddenException`,
      with their messages. */
  datatype Error = NotFound(message: string) | Forbidden(message: string)

  const TopicNotFound := NotFound("Topic not found")
  const RepetitionNotFound := NotFound("Repetition not found")
  const NotOwnTopic := Forbidden("You can only create repetitions for your own topics")
  const AlreadyExists := Forbidden("Repetition already exists for this topic")
  const NotOwnForUpdate := Forbidden("You can only update your own repetitions")
  const NotOwnForDelete := Forbidden("You can only delete your own repetitions")

  /** The HTTP status each exception becomes. */
  function StatusCode(e: Error): nat {
    match e
    case NotFound(_) => 404
    case Forbidden(_) => 403
  }

  predicate OwnsTopic(s: Scheduler, topicId: TopicId, userId: UserId) {
    topicId in s.topics && s.topics[topicId] == userId
  }

  /** Every stored id was allocated before, so the next one is fresh. */
  predicate IdsAllocated(s: Scheduler) {
    forall id :: id in s.store ==> id < s.nextId
  }

  /** The tables are consistent: topics are unique, every row's topic exists (the foreign
      key), ids were allocated from the counter, and every stored interval is positive. */
  predicate StoreInv(s: Scheduler) {
    && TopicUnique(s.store)
    && (forall id :: id in s.store ==> s.store[id].topicId in s.topics)
    && IdsAllocated(s)
    && (forall id :: id in s.store ==> s.store[id].interval >= 1)
  }

  /** An id is armed exactly when its row exists and is active, at the row's interval. */
  predicate TimersMatch(store: map<RepetitionId, Repetition>, registry: map<RepetitionId, TR.Timer>) {
    && (forall id :: id in store && store[id].isActive ==> id in registry)
    && (forall id :: id in registry ==> id in store && store[id].isActive)
    && (forall id :: id in registry ==> registry[id].period == store[id].interval)
  }

  /** The scheduler invariant. */
  predicate Inv(s: Scheduler) {
    StoreInv(s) && TimersMatch(s.store, s.timers.registry) && TR.Valid(s.timers)
  }

  // ---------------------------------------------------------------- create

  /** `create`: looks the topic up (NotFound), checks the caller owns it (Forbidden), checks
      the topic has no repetition yet (Forbidden), then saves a new active row with
      `currentCount` 0 and arms its interval. On every error nothing changes. */
  function Create(s: Scheduler, topicId: TopicId, userId: UserId, dto: CreateRepetitionDto)
    : (r: (Scheduler, Result<RepetitionId, Error>))
    ensures r.1.Err? ==> r.0 == s
    ensures topicId !in s.topics ==> r.1 == Err(TopicNotFound)
    ensures topicId in s.topics && s.topics[topicId] != userId ==> r.1 == Err(NotOwnTopic)
    ensures OwnsTopic(s, topicId, userId) && HasRepetitionFor(s.store, topicId) ==> r.1 == Err(AlreadyExists)
    ensures r.1.Ok? <==> OwnsTopic(s, topicId, userId) && !HasRepetitionFor(s.store, topicId)
    ensures r.1.Ok? ==>
      var id := r.1.value;
      && (IdsAllocated(s) ==> id !in s.store)
      && r.0.store == s.store[id := Repetition(topicId, dto.repeatCount, dto.interval, 0, true)]
      && r.0.timers.registry.Keys == s.timers.registry.Keys + {id}
      && r.0.timers.registry[id].period == dto.interval
      && (forall other :: other in s.timers.registry && other != id ==>
            r.0.timers.registry[other] == s.timers.registry[other])
      && r.0.topics == s.topics && r.0.handlerCalls == s.handlerCalls && r.0.hasHandler == s.hasHandler
      && r.0.nextId > id
  {
    if topicId !in s.topics then (s, Err(TopicNotFound))
    else if s.topics[topicId] != userId then (s, Err(NotOwnTopic))
    else if HasRepetitionFor(s.store, topicId) then (s, Err(AlreadyExists))
    else
      var id := s.nextId;
      var row := NewRow(topicId, dto.interval, Some(dto.repeatCount), Some(0), Some(true));
      var saved := s.(store := s.store[id := row], nextId := id + 1);
      (saved.(timers := TR.Start(saved.timers, id, row.interval)), Ok(id))
  }

  /** Creating a second repetition for a topic the caller owns is refused with 403, not as
      a conflict, and leaves everything as it was. */
  lemma DuplicateIsForbidden(s: Scheduler, topicId: TopicId, userId: UserId, dto: CreateRepetitionDto)
    requires OwnsTopic(s, topicId, userId) && HasRepetitionFor(s.store, topicId)
    ensures var r := Create(s, topicId, userId, dto);
      && r.0 == s && r.1.Err? && r.1.error.Forbidden? && StatusCode(r.1.error) == 403
  {
  }

  // ---------------------------------------------------------------- update

  /** First step of `update`: a supplied `isActive` is written, then the interval is armed
      (true) or stopped (false). */
  function ApplyIsActive(id: RepetitionId, rec: Repetition, ts: TR.Timers, isActive: Option<bool>)
    : (Repetition, TR.Timers)
  {
    if isActive.None? then (rec, ts)
    else
      var rec' := rec.(isActive := isActive.value);
      (rec', if isActive.value then TR.Start(ts, id, rec'.interval) else TR.Stop(ts, id))
  }

  /** Second step: a supplied `repeatCount` is written; the timer is left alone. */
  function ApplyRepeatCount(rec: Repetition, repeatCount: Option<nat>): Repetition {
    if repeatCount.None? then rec else rec.(repeatCount := repeatCount.value)
  }

  /** Third step: a supplied `interval` is written, and if the row is now active its timer
      is stopped and started again at the new period. */
  function ApplyInterval(id: RepetitionId, rec: Repetition, ts: TR.Timers, interval: Option<Period>)
    : (Repetition, TR.Timers)
  {
    if interval.None? then (rec, ts)
    else
      var rec' := rec.(interval := interval.value);
      (rec', if rec'.isActive then TR.Start(TR.Stop(ts, id), id, rec'.interval) else ts)
  }

  /** `update`: NotFound for an unknown id, Forbidden when the topic is missing or belongs to
      someone else, with no change. Otherwise the supplied fields are applied in the order
      `isActive`, `repeatCount`, `interval`, and the row is saved once. Fields that were not
      supplied keep their values; `currentCount` is never touched. When `isActive` was
      supplied, or `interval` was supplied to a row that is now active, the id ends up armed
      exactly when the row is active, at its interval; otherwise the timers are untouched. */
  function Update(s: Scheduler, id: RepetitionId, userId: UserId, dto: UpdateRepetitionDto)
    : (r: (Scheduler, Result<Repetition, Error>))
    ensures r.1.Err? ==> r.0 == s
    ensures id !in s.store ==> r.1 == Err(RepetitionNotFound)
    ensures id in s.store && !OwnsTopic(s, s.store[id].topicId, userId) ==> r.1 == Err(NotOwnForUpdate)
    ensures r.1.Ok? <==> id in s.store && OwnsTopic(s, s.store[id].topicId, userId)
    ensures r.1.Ok? ==>
      var before := s.store[id];
      var after := r.1.value;
      && r.0.store == s.store[id := after]
      && after.topicId == before.topicId
      && after.currentCount == before.currentCount
      && after.isActive == (if dto.isActive.Some? then dto.isActive.value else before.isActive)
      && after.repeatCount == (if dto.repeatCount.Some? then dto.repeatCount.value else before.repeatCount)
      && after.interval == (if dto.interval.Some? then dto.interval.value else before.interval)
      && r.0.topics == s.topics && r.0.handlerCalls == s.handlerCalls
      && r.0.nextId == s.nextId && r.0.hasHandler == s.hasHandler
      && r.0.timers.registry - {id} == s.timers.registry - {id}
      && (dto.isActive.Some? || (dto.interval.Some? && after.isActive) ==>
            && (id in r.0.timers.registry <==> after.isActive)
            && (after.isActive ==> r.0.timers.registry[id].period == after.interval))
      && (dto.isActive.None? && (dto.interval.None? || !after.isActive) ==> r.0.timers == s.timers)
      && (TR.Valid(s.timers) && (dto.isActive == Some(true) || (dto.interval.Some? && after.isActive)) ==>
            r.0.timers.registry[id].handle !in s.timers.live)
  {
    if id !in s.store then (s, Err(RepetitionNotFound))
    else
      var rec := s.store[id];
      if !OwnsTopic(s, rec.topicId, userId) then (s, Err(NotOwnForUpdate))
      else
        var (rec1, ts1) := ApplyIsActive(id, rec, s.timers, dto.isActive);
        var rec2 := ApplyRepeatCount(rec1, dto.repeatCount);
        var (rec3, ts3) := ApplyInterval(id, rec2, ts1, dto.interval);
        (s.(store := s.store[id := rec3], timers := ts3), Ok(rec3))
  }

  // ---------------------------------------------------------------- remove

  /** `remove`: the same NotFound and Forbidden checks as `update`; then the id's timer is
      stopped and only that row is deleted. */
  function Remove(s: Scheduler, id: RepetitionId, userId: UserId): (r: (Scheduler, Result<(), Error>))
    ensures r.1.Err? ==> r.0 == s
    ensures id !in s.store ==> r.1 == Err(RepetitionNotFound)
    ensures id in s.store && !OwnsTopic(s, s.store[id].topicId, userId) ==> r.1 == Err(NotOwnForDelete)
    ensures r.1.Ok? <==> id in s.store && OwnsTopic(s, s.store[id].topicId, userId)
    ensures r.1.Ok? ==>
      && r.0.store == s.store - {id}
      && r.0.timers.registry == s.timers.registry - {id}
      && r.0.topics == s.topics && r.0.handlerCalls == s.handlerCalls
      && r.0.nextId == s.nextId && r.0.hasHandler == s.hasHandler
  {
    if id !in s.store then (s, Err(RepetitionNotFound))
    else if !OwnsTopic(s, s.store[id].topicId, userId) then (s, Err(NotOwnForDelete))
    else (s.(timers := TR.Stop(s.timers, id), store := s.store - {id}), Ok(()))
  }

  // ---------------------------------------------------------------- fire

  /** What became of the injected handler on a counted tick. */
  datatype HandlerOutcome = NoHandler | Handled | Rejected

  /** What a tick did. `Fired` carries the saved row the handler was given. */
  datatype Tick = Skipped | Exhausted | Fired(saved: Repetition, outcome: HandlerOutcome)

  /** How many handler calls one counted tick makes: one when a handler is injected. */
  function HandlerWeight(s: Scheduler): nat {
    if s.hasHandler then 1 else 0
  }

  /** The tick may continue: the repetition is unbounded or below its cap. */
  predicate ShouldContinue(rec: Repetition) {
    rec.repeatCount == 0 || rec.currentCount < rec.repeatCount
  }

  /** `executeRepetition`, one tick of the interval armed for `id`. A missing or inactive row
      leaves everything as it is, the timer included. A row that may continue has its
      `currentCount` raised by exactly one and saved before the handler runs; a handler
      rejection (`handlerSucceeds` false) is not caught, so it escapes the tick after the
      increment is saved. A row that may not continue is deactivated and its timer stopped,
      without counting. */
  function Fire(s: Scheduler, id: RepetitionId, handlerSucceeds: bool): (r: (Scheduler, Tick))
    requires id in s.timers.registry
    ensures id !in s.store || !s.store[id].isActive ==> r == (s, Skipped)
    ensures r.0.store.Keys == s.store.Keys
    ensures forall other :: other in s.store && other != id ==> r.0.store[other] == s.store[other]
    ensures r.0.topics == s.topics && r.0.nextId == s.nextId && r.0.hasHandler == s.hasHandler
    ensures id in s.store ==>
      && r.0.store[id].topicId == s.store[id].topicId
      && r.0.store[id].repeatCount == s.store[id].repeatCount
      && r.0.store[id].interval == s.store[id].interval
      && r.0.store[id].currentCount >= s.store[id].currentCount
    ensures id in s.store && r.0.store[id].currentCount > s.store[id].currentCount ==>
      r.0.store[id].repeatCount == 0 || r.0.store[id].currentCount <= r.0.store[id].repeatCount
    ensures id in s.store && s.store[id].isActive && ShouldContinue(s.store[id]) ==>
      && r.0.store[id] == s.store[id].(currentCount := s.store[id].currentCount + 1)
      && r.0.timers == s.timers
      && r.0.handlerCalls == s.handlerCalls + HandlerWeight(s)
      && r.1.Fired? && r.1.saved == r.0.store[id]
      && (r.1.outcome == Rejected <==> s.hasHandler && !handlerSucceeds)
    ensures id in s.store && s.store[id].isActive && !ShouldContinue(s.store[id]) ==>
      && r.0.store[id] == s.store[id].(isActive := false)
      && r.0.timers.registry == s.timers.registry - {id}
      && r.0.handlerCalls == s.handlerCalls
      && r.1 == Exhausted
  {
    if id !in s.store || !s.store[id].isActive then (s, Skipped)
    else
      var rec := s.store[id];
      if !ShouldContinue(rec) then
        (s.(store := s.store[id := rec.(isActive := false)], timers := TR.Stop(s.timers, id)), Exhausted)
      else
        var saved := rec.(currentCount := rec.currentCount + 1);
        var counted := s.(store := s.store[id := saved]);
        if !s.hasHandler then (counted, Fired(saved, NoHandler))
        else
          (counted.(handlerCalls := s.handlerCalls + 1), Fired(saved, if handlerSucceeds then Handled else Rejected))
  }

  // ---------------------------------------------------------------- topics, restart, recover

  /** Deleting a topic (by the topic side of the application) cascades to its repetition in
      the database; nothing tells the scheduler, so its timer stays registered. */
  function DeleteTopic(s: Scheduler, topicId: TopicId): (r: Scheduler)
    ensures topicId !in r.topics && r.topics == s.topics - {topicId}
    ensures r.store == DeleteByTopic(s.store, topicId)
    ensures r.timers == s.timers
  {
    s.(topics := s.topics - {topicId}, store := DeleteByTopic(s.store, topicId))
  }

  /** A process restart: the tables survive, the in-memory timers do not. */
  function Restart(s: Scheduler): (r: Scheduler)
    ensures r.timers == TR.NoTimers && r.store == s.store && r.topics == s.topics
  {
    s.(timers := TR.NoTimers)
  }

  /** The ids `initializeActiveRepetitions` finds: exactly the active rows. */
  function ActiveIds(store: map<RepetitionId, Repetition>): (r: set<RepetitionId>)
    ensures forall id :: id in r <==> id in store && store[id].isActive
  {
    set id | id in store && store[id].isActive
  }

  /** `initializeActiveRepetitions`: arms every active row at its interval, in whatever order
      the query returns them, and changes no row. Ids it does not arm keep their timers. */
  method Recover(s: Scheduler) returns (r: Scheduler)
    ensures r.store == s.store && r.topics == s.topics && r.handlerCalls == s.handlerCalls
    ensures r.nextId == s.nextId && r.hasHandler == s.hasHandler
    ensures r.timers.registry.Keys == s.timers.registry.Keys + ActiveIds(s.store)
    ensures forall id :: id in ActiveIds(s.store) ==> r.timers.registry[id].period == s.store[id].interval
    ensures forall id :: id in s.timers.registry && id !in ActiveIds(s.store) ==>
      r.timers.registry[id] == s.timers.registry[id]
    ensures TR.Valid(s.timers) ==> TR.Valid(r.timers)
    ensures StoreInv(s) && TR.Valid(s.timers) && s.timers.registry.Keys <= ActiveIds(s.store) ==> Inv(r)
  {
    var active := ActiveIds(s.store);
    var pending := active;
    var ts := s.timers;
    while pending != {}
      invariant pending <= active
      invariant ts.registry.Keys == s.timers.registry.Keys + (active - pending)
      invariant forall id :: id in active - pending ==> ts.registry[id].period == s.store[id].interval
      invariant forall id :: id in s.timers.registry && id !in active ==> ts.registry[id] == s.timers.registry[id]
      invariant TR.Valid(s.timers) ==> TR.Valid(ts)
      decreases pending
    {
      var id :| id in pending;
      ts := TR.Start(ts, id, s.store[id].interval);
      pending := pending - {id};
    }
    r := s.(timers := ts);
  }
}
