/**
  The collision counters of the status bar: a plain `Counter`, and a
  `RateCounter` that keeps the counts of the last few sampling intervals
  and shows their average.

  The count is a Java `int`, so `inc` wraps around after the largest
  value. The timer that samples a rate counter every second is not
  modelled; a sample is a plain operation.
*/
module Counters {

  import opened Wrappers
  import opened Int32

  /** A `Counter`: its count. */
  datatype Counter = Counter(count: int)

  /** A new counter counts from zero. */
  function NewCounter(): (c: Counter)
    ensures c.count == 0 && InRange(c.count)
  {
    Counter(0)
  }

  /** `inc`: one more event, with the wrap-around of `int`. */
  function Inc(c: Counter): (r: Counter)
    requires InRange(c.count)
    ensures InRange(r.count)
    ensures c.count < MaxInt ==> r.count == c.count + 1
    ensures (r.count - c.count - 1) % 0x1_0000_0000 == 0
  {
    Counter(Succ(c.count))
  }

  /** `resetCount`. */
  function ResetCount(c: Counter): (r: Counter)
    ensures r.count == 0
  {
    Counter(0)
  }

  /** `getCount`: the count, without changing the counter. */
  function GetCount(c: Counter): int {
    c.count
  }

  /** Resetting twice is resetting once. */
  lemma ResetIdempotent(c: Counter)
    ensures ResetCount(ResetCount(c)) == ResetCount(c)
    ensures GetCount(ResetCount(c)) == 0
  {
  }

  /** `n` successive `inc` calls. */
  function IncTimes(c: Counter, n: nat): (r: Counter)
    requires InRange(c.count)
    ensures InRange(r.count)
  {
    if n == 0 then c else Inc(IncTimes(c, n - 1))
  }

  /** After `n` increments the count has grown by `n`, modulo 2^32, and by
      exactly `n` while it stays within range. */
  lemma {:induction false} IncTimesCounts(c: Counter, n: nat)
    requires InRange(c.count)
    ensures (IncTimes(c, n).count - c.count - n) % 0x1_0000_0000 == 0
    ensures c.count + n <= MaxInt ==> IncTimes(c, n).count == c.count + n
  {
    if n > 0 {
      IncTimesCounts(c, n - 1);
      var p := IncTimes(c, n - 1).count;
      var q := IncTimes(c, n).count;
      assert (q - p - 1) % 0x1_0000_0000 == 0;
      ModSum(q - p - 1, p - c.count - (n - 1));
    }
  }

  /** Two multiples of 2^32 add up to one. */
  lemma ModSum(a: int, b: int)
    requires a % 0x1_0000_0000 == 0 && b % 0x1_0000_0000 == 0
    ensures (a + b) % 0x1_0000_0000 == 0
  {
    var k, l := a / 0x1_0000_0000, b / 0x1_0000_0000;
    assert a == 0x1_0000_0000 * k && b == 0x1_0000_0000 * l;
    assert a + b == 0x1_0000_0000 * (k + l);
  }

  /** A `RateCounter`: the count of the current interval, the counts of
      the last `sampleTime` intervals (oldest first) and `sampleTime`. */
  datatype RateCounter = RateCounter(count: int, history: seq<int>, sampleTime: int)

  /** The history holds one count per interval of the window. */
  predicate Valid(rc: RateCounter) {
    rc.sampleTime >= 1 && |rc.history| == rc.sampleTime && InRange(rc.count)
  }

  /** Why a rate counter cannot be built: a window shorter than one
      interval (`ArrayBlockingQueue` refuses a capacity below one). */
  datatype CounterError = BadSampleTime

  function Zeros(n: nat): (z: seq<int>)
    ensures |z| == n && forall i :: 0 <= i < n ==> z[i] == 0
  {
    seq(n, _ => 0)
  }

  /** A new rate counter: count zero and a history of `sampleTime` zeros. */
  function NewRateCounter(sampleTime: int): (r: Result<RateCounter, CounterError>)
    ensures r.Success? <==> sampleTime >= 1
    ensures r.Success? ==> Valid(r.value) && r.value.count == 0 && r.value.sampleTime == sampleTime
    ensures r.Success? ==> forall i :: 0 <= i < |r.value.history| ==> r.value.history[i] == 0
  {
    if sampleTime < 1 then Failure(BadSampleTime) else Success(RateCounter(0, Zeros(sampleTime), sampleTime))
  }

  /** The sampling step: the oldest count leaves the window, the current
      count joins it, and the current count starts again from zero. */
  function Sample(rc: RateCounter): (r: RateCounter)
    requires Valid(rc)
    ensures Valid(r) && r.sampleTime == rc.sampleTime && r.count == 0
    ensures r.history[|r.history| - 1] == rc.count
    ensures forall i :: 0 <= i < |r.history| - 1 ==> r.history[i] == rc.history[i + 1]
  {
    RateCounter(0, rc.history[1..] + [rc.count], rc.sampleTime)
  }

  /** `inc` of a rate counter: one more event in the current interval. */
  function RateInc(rc: RateCounter): (r: RateCounter)
    requires Valid(rc)
    ensures Valid(r) && r.history == rc.history && r.sampleTime == rc.sampleTime
    ensures rc.count < MaxInt ==> r.count == rc.count + 1
  {
    rc.(count := Succ(rc.count))
  }

  /** `flushCount`: the window is refilled with zeros; the current count
      is kept. */
  function Flush(rc: RateCounter): (r: RateCounter)
    requires Valid(rc)
    ensures Valid(r) && r.count == rc.count && r.sampleTime == rc.sampleTime
    ensures forall i :: 0 <= i < |r.history| ==> r.history[i] == 0
  {
    rc.(history := Zeros(rc.sampleTime))
  }

  function Sum(s: seq<int>): int {
    if |s| == 0 then 0 else Sum(s[..|s| - 1]) + s[|s| - 1]
  }

  /** The displayed value: the average count over the window. */
  function Average(rc: RateCounter): real
    requires Valid(rc)
  {
    Sum(rc.history) as real / |rc.history| as real
  }

  /** A window of zeros sums to zero. */
  lemma {:induction false} SumZeros(s: seq<int>)
    requires forall i :: 0 <= i < |s| ==> s[i] == 0
    ensures Sum(s) == 0
  {
    if |s| > 0 {
      SumZeros(s[..|s| - 1]);
    }
  }

  /** Right after a flush the displayed average is zero. */
  lemma FlushAverage(rc: RateCounter)
    requires Valid(rc)
    ensures Average(Flush(rc)) == 0.0
  {
    SumZeros(Flush(rc).history);
  }

  /** Intervals with the given counts: each interval ends with its count
      in `count`, and then the sample is taken. */
  function Intervals(rc: RateCounter, counts: seq<int>): (r: RateCounter)
    requires Valid(rc) && forall i :: 0 <= i < |counts| ==> InRange(counts[i])
    ensures Valid(r) && r.sampleTime == rc.sampleTime
    decreases |counts|
  {
    if |counts| == 0 then rc
    else Intervals(Sample(rc.(count := counts[0])), counts[1..])
  }

  /** The window slides: after the intervals in `counts`, the history is
      the last `sampleTime` entries of the old history followed by `counts`. */
  lemma {:induction false} IntervalsSlide(rc: RateCounter, counts: seq<int>)
    requires Valid(rc) && forall i :: 0 <= i < |counts| ==> InRange(counts[i])
    ensures Intervals(rc, counts).history == (rc.history + counts)[|counts|..]
    decreases |counts|
  {
    if |counts| > 0 {
      var next := Sample(rc.(count := counts[0]));
      IntervalsSlide(next, counts[1..]);
      assert next.history + counts[1..] == (rc.history + counts)[1..];
    }
  }

  /** After at least `sampleTime` intervals the history holds exactly the
      last `sampleTime` interval counts, oldest first. */
  lemma LongRunKeepsLastCounts(rc: RateCounter, counts: seq<int>)
    requires Valid(rc) && forall i :: 0 <= i < |counts| ==> InRange(counts[i])
    requires |counts| >= rc.sampleTime
    ensures Intervals(rc, counts).history == counts[|counts| - rc.sampleTime..]
  {
    IntervalsSlide(rc, counts);
    assert (rc.history + counts)[|counts|..] == counts[|counts| - rc.sampleTime..];
  }
}
