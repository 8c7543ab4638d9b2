/**
 * The lane pool `ThreadSchedulingManager`: a fixed list of lanes, one
 * counter of scheduled tasks per lane, and the cursor `lastUpdatedScheduler`.
 * A lane's serial queue is represented by its label; running a task is the
 * explicit event `Complete`. Every operation is one atomic sequential step.
 */
module Scheduler {
  import opened Wrappers
  import opened Labels
  import opened Balancing

  /** The data source's `getData(identifier, index)`. */
  type DataSource<D> = (string, int) -> Option<D>

  /** A lane record without its counter: the queue's label and the sticky data. */
  datatype Lane<D> = Lane(queueLabel: string, data: Option<D>)

  /** The sticky data of lane `index`: the data source's answer, or None without a data source. */
  function LaneData<D>(dataSource: Option<DataSource<D>>, identifier: string, index: nat): (r: Option<D>)
    ensures dataSource.None? ==> r.None?
    ensures dataSource.Some? ==> r == dataSource.value(identifier, index)
  {
    match dataSource
    case Some(source) => source(identifier, index)
    case None => None
  }

  /**
   * `createSchedulingData`: the lane record for lane `index`. Its label names
   * the lane (the whole label parses back to `index`) and ends in the lane's
   * last digit; its data is the data source's answer for the lane.
   */
  function CreateSchedulingData<D>(identifier: string, dataSource: Option<DataSource<D>>, index: nat): (r: Lane<D>)
    ensures LabelLaneIndex(r.queueLabel) == Some(index)
    ensures LastCharIndex(r.queueLabel) == Some(index % 10)
    ensures r.data == LaneData(dataSource, identifier, index)
  {
    LabelLaneIndexRoundTrip(index);
    LastCharIndexOfLabel(index);
    Lane(Label(index), LaneData(dataSource, identifier, index))
  }

  class ThreadSchedulingManager<D> {
    const numberOfDispatchers: int
    const identifier: string
    const dataSource: Option<DataSource<D>>
    /** Built once by the constructor and never resized. */
    const schedulerList: seq<Lane<D>>
    /** `numberOfScheduledTasks` of every lane, in lane order. */
    const counts: array<int>
    var lastUpdatedScheduler: int
    /** The lanes that the tasks submitted and not yet finished were handed out on. */
    ghost var pending: multiset<nat>

    ghost predicate Valid()
      reads this, counts
    {
      numberOfDispatchers == |schedulerList| == counts.Length &&
      -1 <= lastUpdatedScheduler < |schedulerList| &&
      (forall i :: 0 <= i < |schedulerList| ==>
         schedulerList[i] == CreateSchedulingData(identifier, dataSource, i)) &&
      (forall k :: k in pending ==> k < |schedulerList|) &&
      Sum(counts[..]) == |pending|
    }

    /** The bookkeeping as a value. */
    ghost function State(): (s: PoolState)
      reads this, counts
      requires Valid()
      ensures WellFormed(s) && |s.counts| == |schedulerList|
    {
      PoolState(counts[..], lastUpdatedScheduler)
    }

    /** `init(withDispatcherCount:andName:dataSource:)`. A count below 1 traps in `0...(count - 1)`. */
    constructor (count: int, name: string, dataSource: Option<DataSource<D>>)
      requires count >= 1
      ensures Valid() && fresh(counts)
      ensures numberOfDispatchers == count && identifier == name && this.dataSource == dataSource
      ensures |schedulerList| == count
      ensures forall i :: 0 <= i < count ==> schedulerList[i].data == LaneData(dataSource, name, i)
      ensures State() == Fresh(count)
      ensures pending == multiset{}
    {
      numberOfDispatchers := count;
      identifier := name;
      this.dataSource := dataSource;
      var list := CreateSchedulers(count, name, dataSource);
      schedulerList := list;
      counts := new int[count](_ => 0);
      lastUpdatedScheduler := -1;
      pending := multiset{};
      new;
      assert counts[..] == Zeros(count);
      SumOfZeros(count);
    }

    /** `createSchedulers`: lanes 0 … number-1, appended in index order. Fewer than one lane traps in `0...(number - 1)`. */
    static method CreateSchedulers(number: nat, identifier: string, dataSource: Option<DataSource<D>>)
      returns (list: seq<Lane<D>>)
      requires number >= 1
      ensures |list| == number
      ensures forall i :: 0 <= i < number ==> list[i] == CreateSchedulingData(identifier, dataSource, i)
    {
      list := [];
      for index := 0 to number
        invariant |list| == index
        invariant forall i :: 0 <= i < index ==> list[i] == CreateSchedulingData(identifier, dataSource, i)
      {
        var data := CreateSchedulingData(identifier, dataSource, index);
        list := list + [data];
      }
    }

    /**
     * `enqueueTask`: None when the pool has no lane; otherwise the lane whose
     * queue receives the task. The task and its callback are not modelled.
     */
    method EnqueueTask() returns (lane: Option<nat>)
      requires Valid()
      modifies this, counts
      ensures Valid()
      ensures |schedulerList| == 0 ==> lane.None? && State() == old(State()) && pending == old(pending)
      ensures |schedulerList| > 0 ==>
        lane.Some? && Chosen(old(State()), lane.value) &&
        State() == AfterSelect(old(State())) && pending == old(pending) + multiset{lane.value}
    {
      if |schedulerList| == 0 {
        return None;
      }
      var q := GetNextScheduler();
      lane := Some(q);
    }

    /**
     * `getNextScheduler`: hands out a lane and charges one lane's counter.
     * The sort by counter is any lane of minimal counter (Swift's sort is
     * not stable).
     */
    method GetNextScheduler() returns (q: nat)
      requires Valid() && |schedulerList| > 0
      modifies this, counts
      ensures Valid()
      ensures q < |schedulerList| && Chosen(old(State()), q)
      ensures State() == AfterSelect(old(State()))
      ensures pending == old(pending) + multiset{q}
    {
      ghost var s := State();
      var n := counts.Length;
      var index := (lastUpdatedScheduler + 1) % n;
      assert index == Candidate(s);
      q := index;
      if counts[index] > 0 {
        LeastLoadedExists(s.counts);
        var currentScheduler :| 0 <= currentScheduler < n && IsLeastLoaded(counts[..], currentScheduler);
        LastCharIndexInPool(index, n);
        var currentIndex := GetIndexForScheduler(schedulerList[index]);
        assert schedulerList[index].queueLabel == Label(index);
        assert currentIndex == Some(index % 10);
        if currentIndex.Some? {
          index := currentIndex.value;
          q := currentScheduler;
        }
      }
      SelectOutcome(s, index, q);
      lastUpdatedScheduler := index;
      counts[index] := counts[index] + 1;
      assert counts[..] == s.counts[index := s.counts[index] + 1];
      SumUpdate(s.counts, index, s.counts[index] + 1);
      pending := pending + multiset{q};
    }

    /**
     * `getIndexForScheduler`: the index read back from a lane's queue, the
     * value of its label's last character when that is a digit.
     */
    static method GetIndexForScheduler(lane: Lane<D>) returns (index: Option<nat>)
      requires |lane.queueLabel| > 0
      ensures index.Some? <==> IsDigit(lane.queueLabel[|lane.queueLabel| - 1])
      ensures index.Some? ==> index.value < 10 && DigitChar(index.value) == lane.queueLabel[|lane.queueLabel| - 1]
      ensures forall i: nat :: lane.queueLabel == Label(i) ==> index == Some(i % 10)
    {
      index := LastCharIndex(lane.queueLabel);
      forall i: nat | lane.queueLabel == Label(i)
        ensures index == Some(i % 10)
      {
        LastCharIndexOfLabel(i);
      }
    }

    /**
     * `cleanupTask` run on the queue labelled `currentLabel`: decrements the
     * counter of the lane read back from that label. A read-back index outside
     * the pool traps, so it is excluded.
     */
    method CleanupTask(currentLabel: string)
      requires counts.Length == |schedulerList| && |currentLabel| > 0
      requires LastCharIndex(currentLabel).Some? ==> LastCharIndex(currentLabel).value < counts.Length
      modifies counts
      ensures counts[..] == CleanupCounts(old(counts[..]), currentLabel)
    {
      var index := LastCharIndex(currentLabel);
      if index.Some? {
        counts[index.value] := counts[index.value] - 1;
      }
    }

    /** A task that was handed out on lane `lane` finishes there and runs `cleanupTask`. */
    method Complete(lane: nat)
      requires Valid() && lane in pending
      modifies this, counts
      ensures Valid()
      ensures State() == AfterComplete(old(State()), lane)
      ensures pending == old(pending) - multiset{lane}
    {
      ghost var before := counts[..];
      LastCharIndexInPool(lane, counts.Length);
      CleanupTask(schedulerList[lane].queueLabel);
      LastCharIndexOfLabel(lane);
      SumUpdate(before, lane % 10, before[lane % 10] - 1);
      pending := pending - multiset{lane};
    }

    /**
     * `getDataForCurrentThread` called from the queue labelled `currentLabel`:
     * the data of the lane read back from the label. A label whose last
     * character is not a digit, or whose digit is no lane, traps.
     */
    method GetDataForCurrentThread(currentLabel: string) returns (d: Option<D>)
      requires Valid() && |currentLabel| > 0
      requires LastCharIndex(currentLabel).Some? && LastCharIndex(currentLabel).value < |schedulerList|
      ensures d == LaneData(dataSource, identifier, LastCharIndex(currentLabel).value)
      ensures forall i :: 0 <= i < |schedulerList| && currentLabel == Label(i) ==>
        d == LaneData(dataSource, identifier, i % 10)
      ensures |schedulerList| <= 10 ==> forall i :: 0 <= i < |schedulerList| && currentLabel == Label(i) ==>
        d == LaneData(dataSource, identifier, i)
    {
      var value := LastCharIndex(currentLabel).value;
      d := schedulerList[value].data;
      forall i | 0 <= i < |schedulerList| && currentLabel == Label(i)
        ensures value == i % 10
      {
        LastCharIndexOfLabel(i);
      }
    }
  }
}
