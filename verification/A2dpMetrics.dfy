/** A2dpSessionMetrics: accumulating playback statistics, where a negative value means "not measured". */
module A2dpMetrics {
  datatype Metrics = Metrics(
    audioDurationMs: int,
    mediaTimerMinMs: int,
    mediaTimerMaxMs: int,
    mediaTimerAvgMs: int,
    totalSchedulingCount: int,
    bufferOverrunsMaxCount: int,
    bufferOverrunsTotal: int,
    bufferUnderrunsAverage: real,
    bufferUnderrunsCount: int,
    codecIndex: int,
    isA2dpOffload: bool)

  const DEFAULT := Metrics(-1, -1, -1, -1, -1, -1, -1, -1.0, -1, -1, false)

  function Min(a: int, b: int): int {
    if a < b then a else b
  }

  function Max(a: int, b: int): int {
    if a < b then b else a
  }

  /** Integer averages, combined with a truncating division of non-negative numbers. */
  function CombineAverages(avgA: nat, countA: nat, avgB: nat, countB: nat): nat {
    if countA > 0 && countB > 0 then (avgA * countA + avgB * countB) / (countA + countB)
    else if countB > 0 then avgB
    else avgA
  }

  function CombineRealAverages(avgA: real, countA: nat, avgB: real, countB: nat): real {
    if countA > 0 && countB > 0 then (avgA * countA as real + avgB * countB as real) / (countA + countB) as real
    else if countB > 0 then avgB
    else avgA
  }

  predicate TimerMeasured(m: Metrics) {
    m.mediaTimerAvgMs >= 0 && m.totalSchedulingCount >= 0
  }

  predicate UnderrunsMeasured(m: Metrics) {
    m.bufferUnderrunsAverage >= 0.0 && m.bufferUnderrunsCount >= 0
  }

  /** A total, a minimum and a maximum, each taking one more value that counts if it is measured. */
  function AddedTo(total: int, v: int): int {
    if v >= 0 then Max(0, total) + v else total
  }

  function LeastWith(least: int, v: int): int {
    if v < 0 then least else if least < 0 then v else Min(least, v)
  }

  function GreatestWith(greatest: int, v: int): int {
    if v >= 0 then Max(greatest, v) else greatest
  }

  function TimerWith(average: int, count: int, m: Metrics): (int, int) {
    if !TimerMeasured(m) then (average, count)
    else if average < 0 || count < 0 then (m.mediaTimerAvgMs, m.totalSchedulingCount)
    else (CombineAverages(average, count, m.mediaTimerAvgMs, m.totalSchedulingCount), count + m.totalSchedulingCount)
  }

  function UnderrunsWith(average: real, count: int, m: Metrics): (real, int) {
    if !UnderrunsMeasured(m) then (average, count)
    else if average < 0.0 || count < 0 then (m.bufferUnderrunsAverage, m.bufferUnderrunsCount)
    else
      (CombineRealAverages(average, count, m.bufferUnderrunsAverage, m.bufferUnderrunsCount),
       count + m.bufferUnderrunsCount)
  }

  function Update(a: Metrics, m: Metrics): Metrics {
    Metrics(
      AddedTo(a.audioDurationMs, m.audioDurationMs),
      LeastWith(a.mediaTimerMinMs, m.mediaTimerMinMs),
      GreatestWith(a.mediaTimerMaxMs, m.mediaTimerMaxMs),
      TimerWith(a.mediaTimerAvgMs, a.totalSchedulingCount, m).0,
      TimerWith(a.mediaTimerAvgMs, a.totalSchedulingCount, m).1,
      GreatestWith(a.bufferOverrunsMaxCount, m.bufferOverrunsMaxCount),
      AddedTo(a.bufferOverrunsTotal, m.bufferOverrunsTotal),
      UnderrunsWith(a.bufferUnderrunsAverage, a.bufferUnderrunsCount, m).0,
      UnderrunsWith(a.bufferUnderrunsAverage, a.bufferUnderrunsCount, m).1,
      if a.codecIndex < 0 then m.codecIndex else a.codecIndex,
      a.isA2dpOffload || m.isA2dpOffload)
  }

  /** The aggregate of a session: the default, updated with each report in turn. */
  function Aggregate(samples: seq<Metrics>): Metrics {
    if samples == [] then DEFAULT
    else Update(Aggregate(samples[..|samples| - 1]), samples[|samples| - 1])
  }

  class A2dpSessionMetrics {
    var audioDurationMs: int
    var mediaTimerMinMs: int
    var mediaTimerMaxMs: int
    var mediaTimerAvgMs: int
    var totalSchedulingCount: int
    var bufferOverrunsMaxCount: int
    var bufferOverrunsTotal: int
    var bufferUnderrunsAverage: real
    var bufferUnderrunsCount: int
    var codecIndex: int
    var isA2dpOffload: bool

    function Value(): Metrics
      reads this
    {
      Metrics(audioDurationMs, mediaTimerMinMs, mediaTimerMaxMs, mediaTimerAvgMs, totalSchedulingCount,
              bufferOverrunsMaxCount, bufferOverrunsTotal, bufferUnderrunsAverage, bufferUnderrunsCount,
              codecIndex, isA2dpOffload)
    }

    constructor ()
      ensures Value() == DEFAULT
    {
      audioDurationMs, mediaTimerMinMs, mediaTimerMaxMs, mediaTimerAvgMs, totalSchedulingCount := -1, -1, -1, -1, -1;
      bufferOverrunsMaxCount, bufferOverrunsTotal := -1, -1;
      bufferUnderrunsAverage, bufferUnderrunsCount, codecIndex, isA2dpOffload := -1.0, -1, -1, false;
    }

    method Clear()
      modifies this
      ensures Value() == DEFAULT
    {
      audioDurationMs, mediaTimerMinMs, mediaTimerMaxMs, mediaTimerAvgMs, totalSchedulingCount := -1, -1, -1, -1, -1;
      bufferOverrunsMaxCount, bufferOverrunsTotal := -1, -1;
      bufferUnderrunsAverage, bufferUnderrunsCount, codecIndex, isA2dpOffload := -1.0, -1, -1, false;
    }

    method UpdateWith(m: Metrics)
      modifies this
      ensures Value() == Update(old(Value()), m)
    {
      UpdateDurations(m);
      UpdateTimer(m);
      UpdateOverruns(m);
      UpdateUnderruns(m);
      if codecIndex < 0 {
        codecIndex := m.codecIndex;
      }
      if !isA2dpOffload {
        isA2dpOffload := m.isA2dpOffload;
      }
    }

    method UpdateDurations(m: Metrics)
      modifies this`audioDurationMs, this`mediaTimerMinMs, this`mediaTimerMaxMs
      ensures audioDurationMs == AddedTo(old(audioDurationMs), m.audioDurationMs)
      ensures mediaTimerMinMs == LeastWith(old(mediaTimerMinMs), m.mediaTimerMinMs)
      ensures mediaTimerMaxMs == GreatestWith(old(mediaTimerMaxMs), m.mediaTimerMaxMs)
    {
      if m.audioDurationMs >= 0 {
        audioDurationMs := Max(0, audioDurationMs);
        audioDurationMs := audioDurationMs + m.audioDurationMs;
      }
      if m.mediaTimerMinMs >= 0 {
        if mediaTimerMinMs < 0 {
          mediaTimerMinMs := m.mediaTimerMinMs;
        } else {
          mediaTimerMinMs := Min(mediaTimerMinMs, m.mediaTimerMinMs);
        }
      }
      if m.mediaTimerMaxMs >= 0 {
        mediaTimerMaxMs := Max(mediaTimerMaxMs, m.mediaTimerMaxMs);
      }
    }

    method UpdateOverruns(m: Metrics)
      modifies this`bufferOverrunsMaxCount, this`bufferOverrunsTotal
      ensures bufferOverrunsMaxCount == GreatestWith(old(bufferOverrunsMaxCount), m.bufferOverrunsMaxCount)
      ensures bufferOverrunsTotal == AddedTo(old(bufferOverrunsTotal), m.bufferOverrunsTotal)
    {
      if m.bufferOverrunsMaxCount >= 0 {
        bufferOverrunsMaxCount := Max(bufferOverrunsMaxCount, m.bufferOverrunsMaxCount);
      }
      if m.bufferOverrunsTotal >= 0 {
        bufferOverrunsTotal := Max(0, bufferOverrunsTotal);
        bufferOverrunsTotal := bufferOverrunsTotal + m.bufferOverrunsTotal;
      }
    }

    method UpdateTimer(m: Metrics)
      modifies this`mediaTimerAvgMs, this`totalSchedulingCount
      ensures (mediaTimerAvgMs, totalSchedulingCount) == TimerWith(old(mediaTimerAvgMs), old(totalSchedulingCount), m)
    {
      if m.mediaTimerAvgMs >= 0 && m.totalSchedulingCount >= 0 {
        if mediaTimerAvgMs < 0 || totalSchedulingCount < 0 {
          mediaTimerAvgMs := m.mediaTimerAvgMs;
          totalSchedulingCount := m.totalSchedulingCount;
        } else {
          mediaTimerAvgMs :=
            CombineAverages(mediaTimerAvgMs, totalSchedulingCount, m.mediaTimerAvgMs, m.totalSchedulingCount);
          totalSchedulingCount := totalSchedulingCount + m.totalSchedulingCount;
        }
      }
    }

    method UpdateUnderruns(m: Metrics)
      modifies this`bufferUnderrunsAverage, this`bufferUnderrunsCount
      ensures (bufferUnderrunsAverage, bufferUnderrunsCount) ==
              UnderrunsWith(old(bufferUnderrunsAverage), old(bufferUnderrunsCount), m)
    {
      if m.bufferUnderrunsAverage >= 0.0 && m.bufferUnderrunsCount >= 0 {
        if bufferUnderrunsAverage < 0.0 || bufferUnderrunsCount < 0 {
          bufferUnderrunsAverage := m.bufferUnderrunsAverage;
          bufferUnderrunsCount := m.bufferUnderrunsCount;
        } else {
          bufferUnderrunsAverage :=
            CombineRealAverages(
              bufferUnderrunsAverage, bufferUnderrunsCount, m.bufferUnderrunsAverage, m.bufferUnderrunsCount);
          bufferUnderrunsCount := bufferUnderrunsCount + m.bufferUnderrunsCount;
        }
      }
    }
  }

  // ---------- independent definitions ----------

  /** The measured values of one field, in order. */
  function Measured(samples: seq<Metrics>, field: Metrics -> int): seq<int> {
    if samples == [] then []
    else
      var v := field(samples[|samples| - 1]);
      Measured(samples[..|samples| - 1], field) + (if v >= 0 then [v] else [])
  }

  function Sum(values: seq<int>): int {
    if values == [] then 0 else Sum(values[..|values| - 1]) + values[|values| - 1]
  }

  ghost predicate IsTotal(total: int, values: seq<int>) {
    total == if values == [] then -1 else Sum(values)
  }

  ghost predicate IsLeast(least: int, values: seq<int>) {
    if values == [] then least == -1 else least in values && forall v :: v in values ==> least <= v
  }

  ghost predicate IsGreatest(greatest: int, values: seq<int>) {
    if values == [] then greatest == -1 else greatest in values && forall v :: v in values ==> v <= greatest
  }

  /** The reports with a measured timer, their total count and their weighted sum. */
  function TimerSamples(samples: seq<Metrics>): seq<Metrics> {
    if samples == [] then []
    else
      var m := samples[|samples| - 1];
      TimerSamples(samples[..|samples| - 1]) + (if TimerMeasured(m) then [m] else [])
  }

  function TimerCount(samples: seq<Metrics>): int {
    if samples == [] then 0 else TimerCount(samples[..|samples| - 1]) + samples[|samples| - 1].totalSchedulingCount
  }

  function TimerSum(samples: seq<Metrics>): int {
    if samples == [] then 0
    else
      var m := samples[|samples| - 1];
      TimerSum(samples[..|samples| - 1]) + m.mediaTimerAvgMs * m.totalSchedulingCount
  }

  function UnderrunSamples(samples: seq<Metrics>): seq<Metrics> {
    if samples == [] then []
    else
      var m := samples[|samples| - 1];
      UnderrunSamples(samples[..|samples| - 1]) + (if UnderrunsMeasured(m) then [m] else [])
  }

  function UnderrunCount(samples: seq<Metrics>): int {
    if samples == [] then 0 else UnderrunCount(samples[..|samples| - 1]) + samples[|samples| - 1].bufferUnderrunsCount
  }

  function UnderrunSum(samples: seq<Metrics>): real {
    if samples == [] then 0.0
    else
      var m := samples[|samples| - 1];
      UnderrunSum(samples[..|samples| - 1]) + m.bufferUnderrunsAverage * m.bufferUnderrunsCount as real
  }

  function Duration(m: Metrics): int { m.audioDurationMs }
  function TimerMin(m: Metrics): int { m.mediaTimerMinMs }
  function TimerMax(m: Metrics): int { m.mediaTimerMaxMs }
  function OverrunsMax(m: Metrics): int { m.bufferOverrunsMaxCount }
  function OverrunsTotal(m: Metrics): int { m.bufferOverrunsTotal }

  lemma {:induction false} MeasuredIsNatural(samples: seq<Metrics>, field: Metrics -> int)
    ensures forall v :: v in Measured(samples, field) ==> 0 <= v
    ensures 0 <= Sum(Measured(samples, field))
  {
    if samples != [] {
      MeasuredIsNatural(samples[..|samples| - 1], field);
      var before, all := Measured(samples[..|samples| - 1], field), Measured(samples, field);
      if all != before { assert all[..|all| - 1] == before; }
    }
  }

  lemma {:induction false} TotalStep(total: int, before: seq<int>, v: int)
    requires IsTotal(total, before) && 0 <= Sum(before)
    ensures IsTotal(AddedTo(total, v), before + if v >= 0 then [v] else [])
  {
    if v >= 0 { assert (before + [v])[..|before|] == before; } else { assert before + [] == before; }
  }

  lemma {:induction false} GreatestStep(greatest: int, before: seq<int>, v: int)
    requires IsGreatest(greatest, before) && forall x :: x in before ==> 0 <= x
    ensures IsGreatest(GreatestWith(greatest, v), before + if v >= 0 then [v] else [])
  {
    if v < 0 { assert before + [] == before; } else { assert (before + [v])[|before|] == v; }
  }

  lemma {:induction false} LeastStep(least: int, before: seq<int>, v: int)
    requires IsLeast(least, before) && forall x :: x in before ==> 0 <= x
    ensures IsLeast(LeastWith(least, v), before + if v >= 0 then [v] else [])
  {
    if v < 0 { assert before + [] == before; } else { assert (before + [v])[|before|] == v; }
  }

  lemma {:induction false} TotalsAreExact(samples: seq<Metrics>)
    ensures IsTotal(Aggregate(samples).audioDurationMs, Measured(samples, Duration))
    ensures IsTotal(Aggregate(samples).bufferOverrunsTotal, Measured(samples, OverrunsTotal))
  {
    if samples != [] {
      var before, m := samples[..|samples| - 1], samples[|samples| - 1];
      TotalsAreExact(before);
      MeasuredIsNatural(before, Duration);
      MeasuredIsNatural(before, OverrunsTotal);
      TotalStep(Aggregate(before).audioDurationMs, Measured(before, Duration), m.audioDurationMs);
      TotalStep(Aggregate(before).bufferOverrunsTotal, Measured(before, OverrunsTotal), m.bufferOverrunsTotal);
    }
  }

  lemma {:induction false} MinimumIsExact(samples: seq<Metrics>)
    ensures IsLeast(Aggregate(samples).mediaTimerMinMs, Measured(samples, TimerMin))
  {
    if samples != [] {
      var before, m := samples[..|samples| - 1], samples[|samples| - 1];
      MinimumIsExact(before);
      MeasuredIsNatural(before, TimerMin);
      LeastStep(Aggregate(before).mediaTimerMinMs, Measured(before, TimerMin), m.mediaTimerMinMs);
    }
  }

  lemma {:induction false} MaximaAreExact(samples: seq<Metrics>)
    ensures IsGreatest(Aggregate(samples).mediaTimerMaxMs, Measured(samples, TimerMax))
    ensures IsGreatest(Aggregate(samples).bufferOverrunsMaxCount, Measured(samples, OverrunsMax))
  {
    if samples != [] {
      var before, m := samples[..|samples| - 1], samples[|samples| - 1];
      MaximaAreExact(before);
      MeasuredIsNatural(before, TimerMax);
      MeasuredIsNatural(before, OverrunsMax);
      GreatestStep(Aggregate(before).mediaTimerMaxMs, Measured(before, TimerMax), m.mediaTimerMaxMs);
      GreatestStep(Aggregate(before).bufferOverrunsMaxCount, Measured(before, OverrunsMax), m.bufferOverrunsMaxCount);
    }
  }

  /** The codec is the first measured one; offload is reported if any report says so. */
  lemma {:induction false} FlagsAreSticky(samples: seq<Metrics>, i: nat)
    requires i < |samples|
    ensures Aggregate(samples).isA2dpOffload <==> exists j :: 0 <= j < |samples| && samples[j].isA2dpOffload
    ensures samples[i].codecIndex >= 0 && (forall j :: 0 <= j < i ==> samples[j].codecIndex < 0) ==>
              Aggregate(samples).codecIndex == samples[i].codecIndex
    ensures (forall j :: 0 <= j < |samples| ==> samples[j].codecIndex < 0) ==> Aggregate(samples).codecIndex < 0
  {
    var n := |samples| - 1;
    assert samples == samples[..n] + [samples[n]];
    if i < n { FlagsAreSticky(samples[..n], i); } else if n > 0 { FlagsAreSticky(samples[..n], 0); }
  }

  // ---------- the averages ----------

  /** How far the stored average may lie from the true one after `n` measured reports. */
  ghost predicate WithinDrift(average: int, count: int, sum: int, n: nat) {
    && 0 <= average && 0 <= count && 0 < n
    && (count == 0 ==> sum == 0)
    && (count > 0 ==> 0 <= sum - average * count <= (n - 1) * (count - 1))
  }

  lemma {:induction false} DriftStep(average: nat, count: nat, sum: int, n: nat, b: nat, c: nat)
    requires WithinDrift(average, count, sum, n)
    ensures WithinDrift(CombineAverages(average, count, b, c), count + c, sum + b * c, n + 1)
  {
    if count > 0 && c > 0 {
      var total, numerator := count + c, average * count + b * c;
      var combined := numerator / total;
      assert numerator == combined * total + numerator % total;
      var rounding := numerator % total;
      assert sum + b * c - combined * total == (sum - average * count) + rounding;
      Wider(n, count, total);
    } else if c > 0 {
      assert b * c - b * c == 0 <= n * (c - 1);
    } else if count > 0 {
      Wider(n, count, count);
    }
  }

  lemma {:induction false} Wider(n: nat, count: nat, total: nat)
    requires 0 < n && 0 < count <= total
    ensures (n - 1) * (count - 1) + (total - 1) <= n * (total - 1)
  {
    calc {
      n * (total - 1) - ((n - 1) * (count - 1) + (total - 1));
      (n - 1) * (total - 1) - (n - 1) * (count - 1);
      (n - 1) * (total - count);
    }
  }

  /**
   After n measured reports the stored average is never above the true one and,
   weighted with the count, at most (n - 1) * (count - 1) below it; the count is exact.
   */
  lemma {:induction false} AverageDrift(samples: seq<Metrics>)
    ensures var a, xs := Aggregate(samples), TimerSamples(samples);
            && (xs == [] ==> a.mediaTimerAvgMs == -1 && a.totalSchedulingCount == -1)
            && (xs != [] ==>
                  && a.totalSchedulingCount == TimerCount(xs)
                  && WithinDrift(a.mediaTimerAvgMs, a.totalSchedulingCount, TimerSum(xs), |xs|))
  {
    if samples != [] {
      var before, m := samples[..|samples| - 1], samples[|samples| - 1];
      AverageDrift(before);
      var a, xs := Aggregate(before), TimerSamples(before);
      if TimerMeasured(m) {
        assert (xs + [m])[..|xs|] == xs;
        if xs != [] {
          DriftStep(
            a.mediaTimerAvgMs, a.totalSchedulingCount, TimerSum(xs), |xs|, m.mediaTimerAvgMs, m.totalSchedulingCount);
        }
      } else {
        assert TimerSamples(samples) == xs;
      }
    }
  }

  ghost predicate IsAverage(average: real, count: int, sum: real) {
    0.0 <= average && 0 <= count && average * count as real == sum
  }

  /** What the underrun fields of an aggregate say about the reports `xs` that measured them. */
  ghost predicate UnderrunsSummarise(average: real, count: int, xs: seq<Metrics>) {
    if xs == [] then average == -1.0 && count == -1
    else count == UnderrunCount(xs) && IsAverage(average, count, UnderrunSum(xs))
  }

  /** The underrun average, over the reals, is exact. */
  lemma {:induction false} UnderrunAverageIsExact(samples: seq<Metrics>)
    ensures var a := Aggregate(samples);
            UnderrunsSummarise(a.bufferUnderrunsAverage, a.bufferUnderrunsCount, UnderrunSamples(samples))
  {
    if samples != [] {
      var before, m := samples[..|samples| - 1], samples[|samples| - 1];
      UnderrunAverageIsExact(before);
      var a := Aggregate(before);
      UnderrunStep(a.bufferUnderrunsAverage, a.bufferUnderrunsCount, UnderrunSamples(before), m);
      assert UnderrunsMeasured(m) || UnderrunSamples(samples) == UnderrunSamples(before);
    }
  }

  lemma {:induction false} UnderrunStep(average: real, count: int, xs: seq<Metrics>, m: Metrics)
    requires UnderrunsSummarise(average, count, xs)
    ensures var r := UnderrunsWith(average, count, m);
            UnderrunsSummarise(r.0, r.1, if UnderrunsMeasured(m) then xs + [m] else xs)
  {
    if UnderrunsMeasured(m) {
      assert (xs + [m])[..|xs|] == xs;
      if xs != [] {
        ExactStep(average, count, UnderrunSum(xs), m.bufferUnderrunsAverage, m.bufferUnderrunsCount);
        assert UnderrunSum(xs + [m]) == UnderrunSum(xs) + m.bufferUnderrunsAverage * m.bufferUnderrunsCount as real;
      }
    }
  }

  lemma {:induction false} ExactStep(average: real, count: nat, sum: real, b: real, c: nat)
    requires IsAverage(average, count, sum) && 0.0 <= b
    ensures IsAverage(CombineRealAverages(average, count, b, c), count + c, sum + b * c as real)
  {
    var numerator, total := average * count as real + b * c as real, (count + c) as real;
    assert 0.0 <= average * count as real && 0.0 <= b * c as real;
    if count > 0 && c > 0 {
      assert (numerator / total) * total == numerator;
    }
  }

  /** As long as all measured reports count nothing, the averages are those of the first of them. */
  lemma {:induction false} FirstAverageStands(samples: seq<Metrics>)
    ensures var xs := TimerSamples(samples);
            xs != [] && TimerCount(xs) == 0 ==> Aggregate(samples).mediaTimerAvgMs == xs[0].mediaTimerAvgMs
    ensures var xs := UnderrunSamples(samples);
            xs != [] && UnderrunCount(xs) == 0 ==>
              Aggregate(samples).bufferUnderrunsAverage == xs[0].bufferUnderrunsAverage
  {
    if samples != [] {
      var before, m := samples[..|samples| - 1], samples[|samples| - 1];
      FirstAverageStands(before);
      AverageDrift(before);
      UnderrunAverageIsExact(before);
      var xs, ys := TimerSamples(before), UnderrunSamples(before);
      if TimerMeasured(m) { assert (xs + [m])[..|xs|] == xs; } else { assert TimerSamples(samples) == xs; }
      if UnderrunsMeasured(m) { assert (ys + [m])[..|ys|] == ys; } else { assert UnderrunSamples(samples) == ys; }
    }
  }
}
