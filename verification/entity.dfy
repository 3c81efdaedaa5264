/** The `repetitions` table: one row per recurring reminder, keyed by a generated id,
    attached to exactly one topic. */
module RepetitionEntity {
  import opened Results

  /** Generated primary key. The table uses uuids; the model allocates naturals from a
      counter, which keeps the one property the service relies on: a new id is fresh. */
  type RepetitionId = nat

  type TopicId = string

  type UserId = string

  /** A row. `repeatCount` 0 means "no limit"; `interval` is the period in milliseconds;
      `currentCount` is the number of firings so far. The bookkeeping timestamps are not
      modelled: no operation reads them. */
  datatype Repetition = Repetition(
    topicId: TopicId,
    repeatCount: nat,
    interval: int,
    currentCount: nat,
    isActive: bool)

  /** Builds a row the way the table's column defaults do: an omitted `repeatCount` or
      `currentCount` is 0 and an omitted `isActive` is true. `interval` has no default, so
      it is always supplied. */
  function NewRow(
    topicId: TopicId,
    interval: int,
    repeatCount: Option<nat>,
    currentCount: Option<nat>,
    isActive: Option<bool>): (r: Repetition)
    ensures r.topicId == topicId && r.interval == interval
    ensures repeatCount.None? ==> r.repeatCount == 0
    ensures currentCount.None? ==> r.currentCount == 0
    ensures isActive.None? ==> r.isActive
    ensures repeatCount.Some? ==> r.repeatCount == repeatCount.value
    ensures currentCount.Some? ==> r.currentCount == currentCount.value
    ensures isActive.Some? ==> r.isActive == isActive.value
  {
    Repetition(
      topicId,
      if repeatCount.Some? then repeatCount.value else 0,
      interval,
      if currentCount.Some? then currentCount.value else 0,
      if isActive.Some? then isActive.value else true)
  }

  /** The unique constraint on the `topicId` column. */
  predicate TopicUnique(store: map<RepetitionId, Repetition>) {
    forall a, b :: a in store && b in store && a != b ==> store[a].topicId != store[b].topicId
  }

  /** Some row belongs to `topicId`: what `findOne({ where: { topicId } })` detects. */
  predicate HasRepetitionFor(store: map<RepetitionId, Repetition>, topicId: TopicId) {
    exists id :: id in store && store[id].topicId == topicId
  }

  /** The `ON DELETE CASCADE` foreign key: deleting a topic deletes its rows and no others. */
  function DeleteByTopic(store: map<RepetitionId, Repetition>, topicId: TopicId): (r: map<RepetitionId, Repetition>)
    ensures forall id :: id in r <==> id in store && store[id].topicId != topicId
    ensures forall id :: id in r ==> r[id] == store[id]
    ensures !HasRepetitionFor(r, topicId)
  {
    map id | id in store && store[id].topicId != topicId :: store[id]
  }
}
