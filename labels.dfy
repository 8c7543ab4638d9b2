/**
 * Lane labels. Every lane's serial queue is created with the label
 * "Scheduler_" followed by the lane index in decimal, and the pool later
 * recovers a lane index from a queue by reading the LAST character of its
 * label and parsing it as an integer.
 */
module Labels {
  import opened Wrappers

  /** The label prefix shared by every lane of every pool. */
  const DispatcherPrefix: string := "Scheduler_"

  predicate IsDigit(c: char) {
    '0' <= c <= '9'
  }

  function DigitChar(d: nat): (c: char)
    requires d < 10
  {
    (('0' as int) + d) as char
  }

  /** Integer parse of a one-character string: only an ASCII digit yields a value. */
  function DigitValue(c: char): (r: Option<nat>)
    ensures r.Some? <==> IsDigit(c)
    ensures r.Some? ==> r.value < 10
  {
    if IsDigit(c) then Some(c as int - '0' as int) else None
  }

  /** Decimal rendering of a non-negative integer, as `String(index)` writes it. */
  function Decimal(n: nat): (r: string)
    ensures |r| >= 1
    ensures forall k :: 0 <= k < |r| ==> IsDigit(r[k])
  {
    if n < 10 then [DigitChar(n)] else Decimal(n / 10) + [DigitChar(n % 10)]
  }

  /** Reference decimal parser: a non-empty string of ASCII digits, read most significant first. */
  function ParseDecimal(s: string): (r: Option<nat>)
    ensures r.Some? ==> |s| >= 1
  {
    if |s| == 0 then None
    else if |s| == 1 then DigitValue(s[0])
    else
      match (ParseDecimal(s[..|s| - 1]), DigitValue(s[|s| - 1]))
      case (Some(high), Some(low)) => Some(10 * high + low)
      case _ => None
  }

  lemma {:induction false} DecimalRoundTrip(n: nat)
    ensures ParseDecimal(Decimal(n)) == Some(n)
  {
    if n >= 10 {
      var s := Decimal(n);
      assert s == Decimal(n / 10) + [DigitChar(n % 10)];
      assert s[..|s| - 1] == Decimal(n / 10);
      DecimalRoundTrip(n / 10);
      assert DigitValue(s[|s| - 1]) == Some(n % 10);
    }
  }

  /**
   * The label given to lane `index` when the pool creates its queue: the
   * prefix, then at least one character, ending in the index's last digit.
   */
  function Label(index: nat): (r: string)
    ensures |r| > |DispatcherPrefix|
    ensures r[..|DispatcherPrefix|] == DispatcherPrefix
    ensures r[|r| - 1] == DigitChar(index % 10)
  {
    assert index >= 10 ==> Decimal(index) == Decimal(index / 10) + [DigitChar(index % 10)];
    DispatcherPrefix + Decimal(index)
  }

  /** Distinct lanes get distinct labels. */
  lemma LabelInjective(i: nat, j: nat)
    requires Label(i) == Label(j)
    ensures i == j
  {
    assert Decimal(i) == Label(i)[|DispatcherPrefix|..];
    assert Decimal(j) == Label(j)[|DispatcherPrefix|..];
    DecimalRoundTrip(i);
    DecimalRoundTrip(j);
  }

  /**
   * The lane index the pool reads back from a queue label: the integer value
   * of the label's last character, or None when it is not a digit. An empty
   * label is excluded: reading its last character traps.
   */
  function LastCharIndex(queueLabel: string): (r: Option<nat>)
    requires |queueLabel| > 0
    ensures r.Some? ==> r.value < 10
  {
    DigitValue(queueLabel[|queueLabel| - 1])
  }

  /** Reading back the queueLabel of lane i yields i's last decimal digit. */
  lemma LastCharIndexOfLabel(index: nat)
    ensures LastCharIndex(Label(index)) == Some(index % 10)
  {
    if index >= 10 {
      assert Decimal(index) == Decimal(index / 10) + [DigitChar(index % 10)];
    }
  }

  /** For the first ten lanes the read-back index is the lane itself. */
  lemma LastCharIndexOfSmallLabel(index: nat)
    requires index < 10
    ensures LastCharIndex(Label(index)) == Some(index)
  {
    LastCharIndexOfLabel(index);
  }

  /** The read-back index of a lane of an n-lane pool is always a lane of that pool. */
  lemma LastCharIndexInPool(index: nat, n: nat)
    requires index < n
    ensures LastCharIndex(Label(index)).Some?
    ensures LastCharIndex(Label(index)).value < n
  {
    LastCharIndexOfLabel(index);
  }

  /** From lane 10 on, the read-back index names another lane: lane 11 reads back as lane 1. */
  lemma LastCharIndexAliasesLane11()
    ensures Label(11) != Label(1)
    ensures LastCharIndex(Label(11)) == Some(1)
  {
    LastCharIndexOfLabel(11);
    assert Label(11)[|Label(11)| - 2] == '1';
  }

  /**
   * The lane index a queueLabel denotes, read from everything after the prefix:
   * the identification the labels were built for.
   */
  function LabelLaneIndex(queueLabel: string): (r: Option<nat>)
  {
    if |queueLabel| > |DispatcherPrefix| && queueLabel[..|DispatcherPrefix|] == DispatcherPrefix
    then ParseDecimal(queueLabel[|DispatcherPrefix|..])
    else None
  }

  lemma LabelLaneIndexRoundTrip(index: nat)
    ensures LabelLaneIndex(Label(index)) == Some(index)
  {
    assert Label(index)[|DispatcherPrefix|..] == Decimal(index);
    DecimalRoundTrip(index);
  }
}
