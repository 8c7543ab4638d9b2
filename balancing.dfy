/**
 * The pool's bookkeeping as values: one counter per lane and the cursor
 * `lastUpdatedScheduler`, with the transitions that selecting a lane and
 * finishing a task make, exactly as the code performs them.
 */
module Balancing {
  import opened Wrappers
  import opened Labels

  /** The counters of the lanes, in index order, and the cursor. */
  datatype PoolState = PoolState(counts: seq<int>, cursor: int)

  /** The cursor is the sentinel -1 or a lane index. */
  predicate WellFormed(s: PoolState) {
    -1 <= s.cursor < |s.counts|
  }

  function Zeros(n: nat): (r: seq<int>)
    ensures |r| == n
  {
    seq(n, _ => 0)
  }

  /**
   * A freshly created pool of n lanes: every counter 0 and the cursor -1, so
   * the first candidate is lane 0.
   */
  function Fresh(n: nat): (r: PoolState)
    ensures WellFormed(r) && |r.counts| == n && r.cursor == -1
    ensures forall k :: 0 <= k < n ==> r.counts[k] == 0
    ensures n > 0 ==> Candidate(r) == 0
  {
    PoolState(Zeros(n), -1)
  }

  function Sum(counts: seq<int>): int {
    if counts == [] then 0 else counts[0] + Sum(counts[1..])
  }

  lemma {:induction false} SumOfZeros(n: nat)
    ensures Sum(Zeros(n)) == 0
  {
    if n > 0 {
      assert Zeros(n)[1..] == Zeros(n - 1);
      SumOfZeros(n - 1);
    }
  }

  /** Changing one counter changes the sum by exactly the difference. */
  lemma {:induction false} SumUpdate(counts: seq<int>, i: nat, v: int)
    requires i < |counts|
    ensures Sum(counts[i := v]) == Sum(counts) - counts[i] + v
  {
    if i == 0 {
      assert counts[i := v][1..] == counts[1..];
    } else {
      assert counts[i := v][1..] == counts[1..][i - 1 := v];
      SumUpdate(counts[1..], i - 1, v);
    }
  }

  /** Lane m holds a minimal counter: what `sort` by counter puts first. */
  predicate IsLeastLoaded(counts: seq<int>, m: int) {
    0 <= m < |counts| && forall j :: 0 <= j < |counts| ==> counts[m] <= counts[j]
  }

  lemma {:induction false} LeastLoadedExists(counts: seq<int>)
    requires |counts| > 0
    ensures exists m :: IsLeastLoaded(counts, m)
  {
    if |counts| == 1 {
      assert IsLeastLoaded(counts, 0);
    } else {
      var init := counts[..|counts| - 1];
      LeastLoadedExists(init);
      var m :| IsLeastLoaded(init, m);
      if counts[m] <= counts[|counts| - 1] {
        assert IsLeastLoaded(counts, m);
      } else {
        assert IsLeastLoaded(counts, |counts| - 1);
      }
    }
  }

  /** The round-robin candidate: the lane after the cursor, wrapping around. */
  function Candidate(s: PoolState): (c: nat)
    requires WellFormed(s) && |s.counts| > 0
    ensures c < |s.counts|
    ensures s.cursor + 1 < |s.counts| ==> c == s.cursor + 1
    ensures s.cursor + 1 == |s.counts| ==> c == 0
  {
    (s.cursor + 1) % |s.counts|
  }

  /**
   * The lanes whose queue a selection may hand out: any lane of minimal
   * counter when the candidate's counter is positive, otherwise the candidate.
   */
  predicate Chosen(s: PoolState, q: nat): (b: bool)
    requires WellFormed(s) && |s.counts| > 0
    ensures b ==> q < |s.counts|
    ensures b && s.counts[q] > 0 ==> IsLeastLoaded(s.counts, q)
  {
    if s.counts[Candidate(s)] > 0 then IsLeastLoaded(s.counts, q) else q == Candidate(s)
  }

  /**
   * The lane whose counter a selection increments and which becomes the new
   * cursor: the candidate when its counter is not positive; otherwise the index read back from the
   * CANDIDATE's label, whatever lane is handed out.
   */
  function ChargedLane(s: PoolState): (i: nat)
    requires WellFormed(s) && |s.counts| > 0
    ensures i < |s.counts|
  {
    var c := Candidate(s);
    LastCharIndexInPool(c, |s.counts|);
    if s.counts[c] > 0 then
      match LastCharIndex(Label(c))
      case Some(parsed) => parsed
      case None => c
    else c
  }

  /**
   * The state after one selection: the cursor moves to the candidate or to
   * a lane with the candidate's last digit, and only that lane's counter
   * rises, by one.
   */
  function AfterSelect(s: PoolState): (r: PoolState)
    requires WellFormed(s) && |s.counts| > 0
    ensures WellFormed(r) && |r.counts| == |s.counts|
    ensures r.cursor == Candidate(s) || r.cursor == Candidate(s) % 10
    ensures r.counts == s.counts[r.cursor := s.counts[r.cursor] + 1]
  {
    LastCharIndexOfLabel(Candidate(s));
    var i := ChargedLane(s);
    PoolState(s.counts[i := s.counts[i] + 1], i)
  }

  /** What the two branches of a selection leave behind determine the lane handed out and the new state. */
  lemma SelectOutcome(s: PoolState, index: nat, q: nat)
    requires WellFormed(s) && |s.counts| > 0
    requires s.counts[Candidate(s)] > 0 ==> index == Candidate(s) % 10 && IsLeastLoaded(s.counts, q)
    requires s.counts[Candidate(s)] <= 0 ==> index == Candidate(s) && q == Candidate(s)
    ensures index < |s.counts| && Chosen(s, q)
    ensures AfterSelect(s) == PoolState(s.counts[index := s.counts[index] + 1], index)
  {
    LastCharIndexOfLabel(Candidate(s));
  }

  /**
   * The counters after `cleanupTask` runs on the queue labelled `queueLabel`:
   * the lane read back from the label loses one, and nothing changes when the
   * last character is not a digit. A read-back index outside the pool traps.
   */
  function CleanupCounts(counts: seq<int>, queueLabel: string): (r: seq<int>)
    requires |queueLabel| > 0
    requires LastCharIndex(queueLabel).Some? ==> LastCharIndex(queueLabel).value < |counts|
    ensures |r| == |counts|
    ensures LastCharIndex(queueLabel).None? ==> r == counts
    ensures LastCharIndex(queueLabel).Some? ==>
      var i := LastCharIndex(queueLabel).value;
      r[i] == counts[i] - 1 && forall k :: 0 <= k < |counts| && k != i ==> r[k] == counts[k]
  {
    match LastCharIndex(queueLabel)
    case Some(i) => counts[i := counts[i] - 1]
    case None => counts
  }

  /**
   * The state after a task that ran on lane `lane` finishes: lane
   * lane % 10 loses one and the cursor stays.
   */
  function AfterComplete(s: PoolState, lane: nat): (r: PoolState)
    requires WellFormed(s) && lane < |s.counts|
    ensures WellFormed(r) && |r.counts| == |s.counts|
    ensures r.cursor == s.cursor
    ensures r.counts == s.counts[lane % 10 := s.counts[lane % 10] - 1]
  {
    LastCharIndexInPool(lane, |s.counts|);
    LastCharIndexOfLabel(lane);
    PoolState(CleanupCounts(s.counts, Label(lane)), s.cursor)
  }

  // ---- One selection ----

  /**
   * A candidate whose counter is not positive (0, or below 0 after the
   * drift shown in NegativeCounterTrace) is handed out, becomes the cursor,
   * and is the only counter to rise.
   */
  lemma SelectIdle(s: PoolState, q: nat)
    requires WellFormed(s) && |s.counts| > 0
    requires s.counts[Candidate(s)] <= 0
    ensures Chosen(s, q) <==> q == Candidate(s)
    ensures AfterSelect(s).cursor == Candidate(s)
    ensures AfterSelect(s).counts == s.counts[Candidate(s) := s.counts[Candidate(s)] + 1]
  {
  }

  /**
   * A busy candidate: the lane handed out has a counter no larger than any
   * lane's, while the cursor and the increment land on the candidate's last
   * decimal digit.
   */
  lemma SelectBusy(s: PoolState, q: nat)
    requires WellFormed(s) && |s.counts| > 0
    requires s.counts[Candidate(s)] > 0
    ensures Chosen(s, q) <==> (q < |s.counts| && forall j :: 0 <= j < |s.counts| ==> s.counts[q] <= s.counts[j])
    ensures AfterSelect(s).cursor == Candidate(s) % 10
    ensures AfterSelect(s).counts == s.counts[Candidate(s) % 10 := s.counts[Candidate(s) % 10] + 1]
  {
    LastCharIndexOfLabel(Candidate(s));
  }

  /** Every state admits a selection: some lane can always be handed out. */
  lemma SelectionPossible(s: PoolState)
    requires WellFormed(s) && |s.counts| > 0
    ensures exists q :: Chosen(s, q)
  {
    if s.counts[Candidate(s)] > 0 {
      LeastLoadedExists(s.counts);
      var m :| IsLeastLoaded(s.counts, m);
      assert Chosen(s, m);
    } else {
      assert Chosen(s, Candidate(s));
    }
  }

  /** A lane that is busy is handed out only if no lane is less loaded. */
  lemma BusyLaneOnlyIfLeastLoaded(s: PoolState, q: nat)
    requires WellFormed(s) && |s.counts| > 0
    requires q < |s.counts| && s.counts[q] > 0 && Chosen(s, q)
    ensures forall j :: 0 <= j < |s.counts| ==> s.counts[q] <= s.counts[j]
  {
  }

  /** With at most ten lanes the cursor advances strictly round-robin, whatever the loads. */
  lemma CursorRoundRobin(s: PoolState)
    requires WellFormed(s) && 0 < |s.counts| <= 10
    ensures AfterSelect(s).cursor == (s.cursor + 1) % |s.counts|
  {
    LastCharIndexOfLabel(Candidate(s));
  }

  /** A selection raises exactly one counter, by one, so the sum rises by one. */
  lemma SelectRaisesSum(s: PoolState)
    requires WellFormed(s) && |s.counts| > 0
    ensures Sum(AfterSelect(s).counts) == Sum(s.counts) + 1
    ensures forall k :: 0 <= k < |s.counts| && k != AfterSelect(s).cursor ==>
      AfterSelect(s).counts[k] == s.counts[k]
  {
    var i := ChargedLane(s);
    SumUpdate(s.counts, i, s.counts[i] + 1);
  }

  /**
   * A completion lowers exactly one counter, by one, at the lane read back
   * from the running lane's label, and leaves the cursor alone.
   */
  lemma CompleteLowersSum(s: PoolState, lane: nat)
    requires WellFormed(s) && lane < |s.counts|
    ensures Sum(AfterComplete(s, lane).counts) == Sum(s.counts) - 1
    ensures AfterComplete(s, lane).cursor == s.cursor
    ensures AfterComplete(s, lane).counts[lane % 10] == s.counts[lane % 10] - 1
    ensures forall k :: 0 <= k < |s.counts| && k != lane % 10 ==>
      AfterComplete(s, lane).counts[k] == s.counts[k]
  {
    LastCharIndexOfLabel(lane);
    SumUpdate(s.counts, lane % 10, s.counts[lane % 10] - 1);
  }

  // ---- Several selections ----

  /** The state after k selections and no completion. */
  function SelectTimes(s: PoolState, k: nat): (r: PoolState)
    requires WellFormed(s) && |s.counts| > 0
    ensures WellFormed(r) && |r.counts| == |s.counts|
  {
    if k == 0 then s else AfterSelect(SelectTimes(s, k - 1))
  }

  /** After k of the first n selections on a fresh pool, lanes 0..k-1 hold one task each. */
  lemma {:induction false} FreshSelections(n: nat, k: nat)
    requires 0 < n && k <= n
    ensures SelectTimes(Fresh(n), k) == PoolState(seq(n, j => if j < k then 1 else 0), k - 1)
  {
    if k == 0 {
      assert Fresh(n).counts == seq(n, j => if j < 0 then 1 else 0);
    } else {
      FreshSelections(n, k - 1);
      var s := SelectTimes(Fresh(n), k - 1);
      assert Candidate(s) == k - 1;
      assert s.counts[k - 1] == 0;
      SelectIdle(s, k - 1);
      assert s.counts[k - 1 := 1] == seq(n, j => if j < k then 1 else 0);
    }
  }

  /**
   * On a fresh pool of n lanes the first n selections hand out lanes
   * 0, 1, …, n-1 in order, one each.
   */
  lemma FreshPoolIsRoundRobin(n: nat, k: nat, q: nat)
    requires k < n
    ensures Chosen(SelectTimes(Fresh(n), k), q) <==> q == k
  {
    FreshSelections(n, k);
    var s := SelectTimes(Fresh(n), k);
    assert Candidate(s) == k;
    SelectIdle(s, q);
  }

  // ---- One task at a time ----

  /**
   * Submit one task and let it finish on the candidate before the next
   * submission. That is the lane handed out only when the candidate's
   * counter is not positive, which SequentialUseIsRoundRobin shows is always
   * so with at most ten lanes used one task at a time.
   */
  function Round(s: PoolState): (r: PoolState)
    requires WellFormed(s) && |s.counts| > 0
    ensures WellFormed(r) && |r.counts| == |s.counts|
  {
    AfterComplete(AfterSelect(s), Candidate(s))
  }

  function Rounds(s: PoolState, k: nat): (r: PoolState)
    requires WellFormed(s) && |s.counts| > 0
    ensures WellFormed(r) && |r.counts| == |s.counts|
  {
    if k == 0 then s else Round(Rounds(s, k - 1))
  }

  lemma MulAtLeast(n: int, d: int)
    requires 0 < n && 1 <= d
    ensures n * d >= n
  {
    assert n * d == n * (d - 1) + n;
    assert n * (d - 1) >= 0;
  }

  /** Euclidean division is determined by quotient and remainder. */
  lemma ModUnique(x: int, n: int, b: int, r: int)
    requires 0 < n && x == n * b + r && 0 <= r < n
    ensures x % n == r
  {
    var b', r' := x / n, x % n;
    var d := b' - b;
    assert n * b' == n * b + n * d;
    assert n * d == r - r';
    if d > 0 {
      MulAtLeast(n, d);
    } else if d < 0 {
      assert n * (-d) == -(n * d);
      MulAtLeast(n, -d);
    }
  }

  lemma ModSuccessor(k: nat, n: nat)
    requires 0 < n && 0 < k
    ensures ((k - 1) % n + 1) % n == k % n
  {
    var a, b := (k - 1) % n, (k - 1) / n;
    assert k - 1 == n * b + a;
    if a + 1 < n {
      ModUnique(k, n, b, a + 1);
      ModUnique(a + 1, n, 0, a + 1);
    } else {
      assert k == n * (b + 1) + 0;
      ModUnique(k, n, b + 1, 0);
      ModUnique(a + 1, n, 1, 0);
    }
  }

  /** One round on an all-idle pool of at most ten lanes hands out the candidate and leaves every counter 0. */
  lemma IdleRound(s: PoolState)
    requires WellFormed(s) && 0 < |s.counts| <= 10 && s.counts == Zeros(|s.counts|)
    ensures Round(s) == PoolState(Zeros(|s.counts|), Candidate(s))
  {
    var c := Candidate(s);
    LastCharIndexOfSmallLabel(c);
    assert AfterSelect(s) == PoolState(s.counts[c := 1], c);
    assert s.counts[c := 1][c := 0] == s.counts;
  }

  /** One task at a time on at most ten lanes: every counter stays 0 and the cursor is the last lane used. */
  lemma {:induction false} SequentialState(n: nat, k: nat)
    requires 0 < n <= 10
    ensures Rounds(Fresh(n), k).counts == Zeros(n)
    ensures Rounds(Fresh(n), k).cursor == (if k == 0 then -1 else (k - 1) % n)
  {
    if k > 0 {
      SequentialState(n, k - 1);
      var s := Rounds(Fresh(n), k - 1);
      IdleRound(s);
      if k > 1 {
        ModSuccessor(k - 1, n);
      }
    }
  }

  /**
   * With at most ten lanes, when every task finishes before the next is
   * submitted, the k-th submission (from 0) hands out lane k mod n, the
   * least-loaded fallback never triggers, and every counter stays 0.
   */
  lemma SequentialUseIsRoundRobin(n: nat, k: nat)
    requires 0 < n <= 10
    ensures Rounds(Fresh(n), k).counts == Zeros(n)
    ensures Rounds(Fresh(n), k).cursor == (if k == 0 then -1 else (k - 1) % n)
    ensures Candidate(Rounds(Fresh(n), k)) == k % n
    ensures forall q :: Chosen(Rounds(Fresh(n), k), q) <==> q == k % n
  {
    SequentialState(n, k);
    var s := Rounds(Fresh(n), k);
    if k > 0 {
      ModSuccessor(k, n);
    }
    assert Candidate(s) == k % n;
    assert s.counts[k % n] == 0;
    forall q
      ensures Chosen(s, q) <==> q == k % n
    {
      SelectIdle(s, q);
    }
  }

  // ---- The counter that goes negative ----

  /**
   * Two lanes: submit A (lane 0), submit B (lane 1), B finishes, submit C.
   * Lane 0 is busy, so C goes to lane 1, but lane 0's counter is raised.
   * When C finishes, lane 1's counter drops to -1 while lane 0's reads 2
   * with only A outstanding.
   */
  lemma NegativeCounterTrace()
    ensures Chosen(Fresh(2), 0)
    ensures AfterSelect(Fresh(2)) == PoolState([1, 0], 0)
    ensures Chosen(PoolState([1, 0], 0), 1)
    ensures AfterSelect(PoolState([1, 0], 0)) == PoolState([1, 1], 1)
    ensures AfterComplete(PoolState([1, 1], 1), 1) == PoolState([1, 0], 1)
    ensures forall q :: Chosen(PoolState([1, 0], 1), q) <==> q == 1
    ensures AfterSelect(PoolState([1, 0], 1)) == PoolState([2, 0], 0)
    ensures AfterComplete(PoolState([2, 0], 0), 1) == PoolState([2, -1], 0)
  {
    LastCharIndexOfSmallLabel(0);
    LastCharIndexOfSmallLabel(1);
    assert Fresh(2).counts == [0, 0];
  }
}
