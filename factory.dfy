/**
 * `ThreadSchedulerFactory`: the registry from identifiers to pools, with
 * get-or-create lookup. The process-wide static dictionary is the field of
 * one registry object.
 */
module Factory {
  import opened Wrappers
  import opened Balancing
  import opened Scheduler

  /** The lane count of a pool created without an explicit count. */
  const DefaultNumberOfDispatchers: int := 10

  class ThreadSchedulerFactory<D> {
    var threadSchedulerDictionary: map<string, ThreadSchedulingManager<D>>

    constructor ()
      ensures threadSchedulerDictionary == map[]
    {
      threadSchedulerDictionary := map[];
    }

    /**
     * `getScheduler(withIdentifier:numberOfThreads:dataSource:)`. An empty
     * identifier yields nil; a known identifier yields its pool and the count
     * and data source are ignored; otherwise a new pool is built, stored and
     * returned. Building a pool with fewer than one lane traps, so that case
     * is excluded.
     */
    method GetScheduler(identifier: string, threadCount: int := DefaultNumberOfDispatchers,
                        dataSource: Option<DataSource<D>>)
      returns (scheduler: ThreadSchedulingManager?<D>)
      requires identifier != "" && identifier !in threadSchedulerDictionary ==> threadCount >= 1
      modifies this
      ensures identifier == "" ==>
        scheduler == null && threadSchedulerDictionary == old(threadSchedulerDictionary)
      ensures identifier != "" && identifier in old(threadSchedulerDictionary) ==>
        scheduler == old(threadSchedulerDictionary)[identifier] &&
        threadSchedulerDictionary == old(threadSchedulerDictionary)
      ensures identifier != "" && identifier !in old(threadSchedulerDictionary) ==>
        scheduler != null && fresh(scheduler) && fresh(scheduler.counts) && scheduler.Valid() &&
        scheduler.identifier == identifier && scheduler.dataSource == dataSource &&
        scheduler.numberOfDispatchers == threadCount &&
        (forall i :: 0 <= i < threadCount ==>
           scheduler.schedulerList[i].data == LaneData(dataSource, identifier, i)) &&
        scheduler.State() == Fresh(threadCount) && scheduler.pending == multiset{} &&
        threadSchedulerDictionary == old(threadSchedulerDictionary)[identifier := scheduler]
      // What every call keeps: the dictionary only grows, and a non-empty
      // identifier is afterwards mapped to the pool returned.
      ensures old(threadSchedulerDictionary).Keys <= threadSchedulerDictionary.Keys
      ensures forall k :: k in old(threadSchedulerDictionary) ==>
        threadSchedulerDictionary[k] == old(threadSchedulerDictionary)[k]
      ensures identifier != "" ==>
        identifier in threadSchedulerDictionary && threadSchedulerDictionary[identifier] == scheduler
    {
      if |identifier| == 0 {
        return null;
      }
      if identifier in threadSchedulerDictionary {
        scheduler := threadSchedulerDictionary[identifier];
      } else {
        var created := new ThreadSchedulingManager(threadCount, identifier, dataSource);
        threadSchedulerDictionary := threadSchedulerDictionary[identifier := created];
        scheduler := created;
      }
    }

    /** Two successive lookups of one non-empty identifier yield the same pool. */
    method GetSchedulerTwice(identifier: string, threadCount: int, dataSource: Option<DataSource<D>>,
                             laterCount: int, laterSource: Option<DataSource<D>>)
      returns (first: ThreadSchedulingManager?<D>, second: ThreadSchedulingManager?<D>)
      requires identifier != ""
      requires identifier !in threadSchedulerDictionary ==> threadCount >= 1
      modifies this
      ensures first != null && first == second
      ensures threadSchedulerDictionary == old(threadSchedulerDictionary)[identifier := first]
    {
      first := GetScheduler(identifier, threadCount, dataSource);
      second := GetScheduler(identifier, laterCount, laterSource);
    }

    /** A lookup without a lane count creates, when it creates, a pool of ten lanes. */
    method GetSchedulerWithDefaultCount(identifier: string, dataSource: Option<DataSource<D>>)
      returns (scheduler: ThreadSchedulingManager?<D>)
      modifies this
      ensures identifier != "" && identifier !in old(threadSchedulerDictionary) ==>
        scheduler != null && scheduler.numberOfDispatchers == 10 && |scheduler.schedulerList| == 10
      ensures identifier != "" ==>
        scheduler != null && identifier in threadSchedulerDictionary && threadSchedulerDictionary[identifier] == scheduler
    {
      scheduler := GetScheduler(identifier, dataSource := dataSource);
    }
  }
}
