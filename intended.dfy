/**
 * The bookkeeping the counters exist for: the code raises a lane's count
 * "so that the same dispatcher is not allocated always", that is, the count
 * is meant for the lane that receives the task. Here, on a busy candidate,
 * the least-loaded lane is both handed out and charged, and a finishing task
 * is credited to the lane its whole label names. Under these transitions
 * every counter equals the number of tasks outstanding on its lane.
 */
module Intended {
  import opened Wrappers
  import opened Labels
  import opened Balancing

  /** Lane by lane, the counters equal the multiplicities of `pending`, the outstanding tasks' lanes. */
  ghost predicate Tracks(s: PoolState, pending: multiset<nat>) {
    (forall k :: 0 <= k < |s.counts| ==> s.counts[k] == pending[k]) &&
    (forall k :: k in pending ==> k < |s.counts|)
  }

  /**
   * Selection with the charged lane read back from the least-loaded lane's
   * label instead of the candidate's. `least` is the lane `sort` puts first.
   * Returns the new state and the lane handed out.
   */
  function IntendedSelect(s: PoolState, least: nat): (r: (PoolState, nat))
    requires WellFormed(s) && |s.counts| > 0 && IsLeastLoaded(s.counts, least)
    ensures WellFormed(r.0) && |r.0.counts| == |s.counts|
    ensures Chosen(s, r.1)
    ensures r.0.cursor == r.1
    ensures r.0.counts == s.counts[r.1 := s.counts[r.1] + 1]
  {
    var c := Candidate(s);
    LabelLaneIndexRoundTrip(least);
    var q :=
      if s.counts[c] > 0 then
        match LabelLaneIndex(Label(least))
        case Some(i) => i
        case None => c
      else c;
    (PoolState(s.counts[q := s.counts[q] + 1], q), q)
  }

  /** Completion credited to the lane that the running queue's label names in full. */
  function IntendedComplete(s: PoolState, lane: nat): (r: PoolState)
    requires WellFormed(s) && lane < |s.counts|
    ensures WellFormed(r) && |r.counts| == |s.counts|
    ensures r.cursor == s.cursor
    ensures r.counts == s.counts[lane := s.counts[lane] - 1]
  {
    LabelLaneIndexRoundTrip(lane);
    match LabelLaneIndex(Label(lane))
    case Some(i) => PoolState(s.counts[i := s.counts[i] - 1], s.cursor)
    case None => s
  }

  lemma FreshPoolTracks(n: nat)
    ensures Tracks(Fresh(n), multiset{})
  {
  }

  /** A corrected selection keeps every counter equal to its lane's outstanding tasks, hence non-negative. */
  lemma IntendedSelectKeepsTracking(s: PoolState, least: nat, pending: multiset<nat>)
    requires WellFormed(s) && |s.counts| > 0 && IsLeastLoaded(s.counts, least)
    requires Tracks(s, pending)
    ensures Tracks(IntendedSelect(s, least).0, pending + multiset{IntendedSelect(s, least).1})
    ensures forall k :: 0 <= k < |s.counts| ==> IntendedSelect(s, least).0.counts[k] >= 0
  {
    var (t, q) := IntendedSelect(s, least);
    var p := pending + multiset{q};
    forall k | 0 <= k < |t.counts|
      ensures t.counts[k] == p[k]
    {
      if k == q {
        assert p[k] == pending[k] + 1;
      } else {
        assert p[k] == pending[k];
      }
    }
  }

  /** A corrected completion on a lane with an outstanding task keeps the tracking, hence non-negative counters. */
  lemma IntendedCompleteKeepsTracking(s: PoolState, lane: nat, pending: multiset<nat>)
    requires WellFormed(s) && lane < |s.counts|
    requires Tracks(s, pending) && lane in pending
    ensures Tracks(IntendedComplete(s, lane), pending - multiset{lane})
    ensures forall k :: 0 <= k < |s.counts| ==> IntendedComplete(s, lane).counts[k] >= 0
  {
    var t := IntendedComplete(s, lane);
    var p := pending - multiset{lane};
    forall k | 0 <= k < |t.counts|
      ensures t.counts[k] == p[k]
    {
      if k == lane {
        assert p[k] == pending[k] - 1;
      } else {
        assert p[k] == pending[k];
      }
    }
    forall k | k in p
      ensures k < |t.counts|
    {
      assert k in pending;
    }
  }
}
