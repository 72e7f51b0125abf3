/** The sampling stage and the mean computed from it, as functions of the
    trace of wakes the loop consumes. Each slot keeps the samples it
    reported, in order; slot 0 paces the loop; failed polls are counted
    across the whole loop and never reset. */
module Sampling {
  import opened GyroTypes

  /** A slot's samples after one wake: its fresh report, if any, appended. */
  function Extend(v: seq<Vec3>, c: Option<Vec3>): seq<Vec3>
  {
    match c
    case Some(x) => v + [x]
    case None => v
  }

  /** The samples slot s reported during the wakes of t, in order. */
  function Samples(t: seq<Wake>, s: nat): seq<Vec3>
  {
    if t == [] then []
    else
      Extend(Samples(t[..|t| - 1], s), Changed(t[|t| - 1], s))
  }

  /** The number of wakes of t on which poll failed (poll_errcount). */
  function Failures(t: seq<Wake>): nat
  {
    if t == [] then 0
    else Failures(t[..|t| - 1]) + (if t[|t| - 1].PollFailed? then 1 else 0)
  }

  /** The per-axis sum of a run of samples, added in order. */
  function SumOf(v: seq<Vec3>): Vec3
  {
    if v == [] then Zero else Add(SumOf(v[..|v| - 1]), v[|v| - 1])
  }

  /** The latest slot-0 report kept in gyro_report_0 (all zero before the first). */
  function LastSample(v: seq<Vec3>): Vec3
  {
    if v == [] then Zero else v[|v| - 1]
  }

  /** A running sum held as offsets, before the division. */
  function FromSum(a: Vec3): GyroScale
  {
    GyroScale(Finite(a.x), Finite(a.y), Finite(a.z))
  }

  /** One sample added into a slot's running sums (the three += lines). */
  function AddSample(g: GyroScale, v: Vec3): GyroScale
  {
    GyroScale(Plus(g.xOffset, v.x), Plus(g.yOffset, v.y), Plus(g.zOffset, v.z))
  }

  function DivScale(g: GyroScale, n: nat): GyroScale
  {
    GyroScale(Div(g.xOffset, n), Div(g.yOffset, n), Div(g.zOffset, n))
  }

  /** The loop leaves after the wakes of t: slot 0 has its count, or the
      failed polls have gone past the ceiling. */
  predicate Stops(t: seq<Wake>)
  {
    |Samples(t, 0)| >= CalibrationCount || Failures(t) > MaxPollErrors
  }

  /** The first prefix length from i on at which the loop leaves, or |t| if
      the trace runs out first. */
  function StopFrom(t: seq<Wake>, i: nat): (n: nat)
    requires i <= |t|
    requires forall j {:trigger Stops(t[..j])} :: 0 <= j < i ==> !Stops(t[..j])
    ensures i <= n <= |t|
    ensures forall j {:trigger Stops(t[..j])} :: 0 <= j < n ==> !Stops(t[..j])
    ensures n == |t| || Stops(t[..n])
    decreases |t| - i
  {
    if i == |t| || Stops(t[..i]) then i else StopFrom(t, i + 1)
  }

  /** The number of wakes the sampling loop consumes from t. */
  function StopIndex(t: seq<Wake>): (n: nat)
    ensures n <= |t|
    ensures forall j {:trigger Stops(t[..j])} :: 0 <= j < n ==> !Stops(t[..j])
    ensures n == |t| || Stops(t[..n])
  {
    StopFrom(t, 0)
  }

  /** How the sampling loop ends on the trace t. */
  function ExitOf(t: seq<Wake>): LoopExit
  {
    var p := t[..StopIndex(t)];
    if !Stops(p) then TraceExhausted
    else if Failures(p) > MaxPollErrors then Aborted
    else Completed
  }

  /** The progress notification after one successful poll, whether or not
      slot 0 reported on it: one message whenever slot 0's count n is a
      multiple of a twentieth of the target (zero included). */
  function ProgressNote(n: nat, w: Wake): seq<Message>
  {
    if w.Woke? && n % (CalibrationCount / 20) == 0 then [Progress(n * 100 / CalibrationCount)] else []
  }

  /** The progress notifications of the wakes of t. */
  function ProgressLog(t: seq<Wake>): seq<Message>
  {
    if t == [] then []
    else ProgressLog(t[..|t| - 1]) + ProgressNote(|Samples(t, 0)|, t[|t| - 1])
  }

  /** The offsets of a slot once its sum is divided by its own counter. */
  function Mean(v: seq<Vec3>): (m: GyroScale)
    ensures IsFinite(m) <==> |v| > 0
    ensures |v| > 0 ==> m.xOffset.value * |v| as real == SumOf(v).x
    ensures |v| > 0 ==> m.yOffset.value * |v| as real == SumOf(v).y
    ensures |v| > 0 ==> m.zOffset.value * |v| as real == SumOf(v).z
  {
    DivScale(FromSum(SumOf(v)), |v|)
  }

  function Abs(r: real): real
  {
    if r < 0.0 then -r else r
  }

  /** The validation rule: slot 0's offsets are finite and each lies within
      MaxOff of the last raw slot-0 report. */
  predicate Acceptable(last: Vec3, m: GyroScale)
  {
    && IsFinite(m)
    && Abs(last.x - m.xOffset.value) <= MaxOff
    && Abs(last.y - m.yOffset.value) <= MaxOff
    && Abs(last.z - m.zOffset.value) <= MaxOff
  }

  // ---------------------------------------------------------------------------
  // One wake at a time

  lemma SamplesSnoc(t: seq<Wake>, w: Wake, s: nat)
    ensures Samples(t + [w], s) == Extend(Samples(t, s), Changed(w, s))
    ensures Failures(t + [w]) == Failures(t) + (if w.PollFailed? then 1 else 0)
  {
    assert (t + [w])[..|t|] == t;
  }

  lemma ProgressLogSnoc(t: seq<Wake>, w: Wake)
    ensures ProgressLog(t + [w]) == ProgressLog(t) + ProgressNote(|Samples(t + [w], 0)|, w)
  {
    assert (t + [w])[..|t|] == t;
  }

  lemma SumOfSnoc(v: seq<Vec3>, x: Vec3)
    ensures SumOf(v + [x]) == Add(SumOf(v), x)
  {
    assert (v + [x])[..|v|] == v;
  }

  // ---------------------------------------------------------------------------
  // Counters and failed polls

  /** Splitting a trace splits each slot's samples. */
  lemma {:induction false} SamplesAppend(t: seq<Wake>, u: seq<Wake>, s: nat)
    ensures Samples(t + u, s) == Samples(t, s) + Samples(u, s)
    decreases |u|
  {
    if u == [] {
      assert t + u == t;
    } else {
      var u' := u[..|u| - 1];
      var w := u[|u| - 1];
      assert t + u == (t + u') + [w];
      assert u == u' + [w];
      SamplesAppend(t, u', s);
      SamplesSnoc(t + u', w, s);
      SamplesSnoc(u', w, s);
    }
  }

  /** poll_errcount only grows: failed polls of a longer trace are those of
      its prefix plus those of the rest. */
  lemma {:induction false} FailuresAppend(t: seq<Wake>, u: seq<Wake>)
    ensures Failures(t + u) == Failures(t) + Failures(u)
    decreases |u|
  {
    if u == [] {
      assert t + u == t;
    } else {
      var u' := u[..|u| - 1];
      var w := u[|u| - 1];
      assert t + u == (t + u') + [w];
      assert u == u' + [w];
      FailuresAppend(t, u');
      SamplesSnoc(t + u', w, 0);
      SamplesSnoc(u', w, 0);
    }
  }

  /** Each wake adds at most one sample to a slot and none on a failed poll,
      so a slot's counter plus the failed polls never exceed the wakes. */
  lemma {:induction false} CountBound(t: seq<Wake>, s: nat)
    ensures |Samples(t, s)| + Failures(t) <= |t|
  {
    if t != [] {
      CountBound(t[..|t| - 1], s);
    }
  }

  /** The loop consumes some wakes before it stops: the empty prefix never ends it. */
  lemma NotDoneAtStart(t: seq<Wake>)
    ensures !Stops(t[..0])
  {
    assert t[..0] == [];
  }

  /** A prefix that neither ends the loop nor exhausts the trace lies
      before the stop point. */
  lemma StillRunning(t: seq<Wake>, i: nat)
    requires i < |t| && i <= StopIndex(t) && !Stops(t[..i])
    ensures i < StopIndex(t)
  {
  }

  /** The first prefix, from the start, that ends the loop or exhausts the
      trace is the stop point, and the loop's exit is read off it. */
  lemma ExitAt(t: seq<Wake>, i: nat)
    requires i <= StopIndex(t) && (i == |t| || Stops(t[..i]))
    ensures StopIndex(t) == i
    ensures ExitOf(t) == if !Stops(t[..i]) then TraceExhausted
      else if Failures(t[..i]) > MaxPollErrors then Aborted else Completed
  {
  }

  /** Leaving the loop without an abort means slot 0 has exactly the target
      count: it grows by at most one per wake and the loop stops at the
      first wake that reaches the target. */
  lemma {:induction false} CompletedCountExact(t: seq<Wake>)
    requires ExitOf(t) == Completed
    ensures |Samples(t[..StopIndex(t)], 0)| == CalibrationCount
  {
    var n := StopIndex(t);
    NotDoneAtStart(t);
    assert n > 0;
    assert t[..n] == t[..n - 1] + [t[n - 1]];
    SamplesSnoc(t[..n - 1], t[n - 1], 0);
    assert !Stops(t[..n - 1]);
  }

  /** An abort happens on the failed poll that takes poll_errcount from 1000
      to 1001, before slot 0 has its count. */
  lemma {:induction false} AbortOnFirstExcess(t: seq<Wake>)
    requires ExitOf(t) == Aborted
    ensures StopIndex(t) > 0 && t[StopIndex(t) - 1] == PollFailed
    ensures Failures(t[..StopIndex(t)]) == MaxPollErrors + 1
    ensures |Samples(t[..StopIndex(t)], 0)| < CalibrationCount
  {
    var n := StopIndex(t);
    NotDoneAtStart(t);
    assert n > 0;
    assert t[..n] == t[..n - 1] + [t[n - 1]];
    SamplesSnoc(t[..n - 1], t[n - 1], 0);
    assert !Stops(t[..n - 1]);
  }

  /** Only a failed poll can stop the loop by abort, and a trace with at most
      1000 failed polls never aborts. */
  lemma FewFailuresNeverAbort(t: seq<Wake>)
    requires Failures(t) <= MaxPollErrors
    ensures ExitOf(t) != Aborted
  {
    var n := StopIndex(t);
    assert t == t[..n] + t[n..];
    FailuresAppend(t[..n], t[n..]);
  }

  /** gyro_report_0 is the last slot-0 sample of the trace: once slot 0
      reports v, v stays the snapshot until slot 0 reports again. */
  lemma {:induction false} SnapshotIsLastSlot0Report(t: seq<Wake>, i: nat, v: Vec3)
    requires i < |t| && Changed(t[i], 0) == Some(v)
    requires forall j :: i < j < |t| ==> Changed(t[j], 0).None?
    ensures LastSample(Samples(t, 0)) == v
  {
    var p := t[..|t| - 1];
    assert t == p + [t[|t| - 1]];
    SamplesSnoc(p, t[|t| - 1], 0);
    if i < |t| - 1 {
      SnapshotIsLastSlot0Report(p, i, v);
    }
  }

  /** Progress messages report multiples of five percent. */
  lemma {:induction false} ProgressPercents(t: seq<Wake>)
    ensures forall m :: m in ProgressLog(t) ==> m.Progress? && m.percent % 5 == 0
  {
    if t != [] {
      ProgressPercents(t[..|t| - 1]);
      var n := |Samples(t, 0)|;
      if n % (CalibrationCount / 20) == 0 {
        var k := n / 250;
        assert n == 250 * k;
        assert n * 100 == 5000 * (5 * k);
        assert n * 100 / CalibrationCount == 5 * k;
      }
    }
  }

  /** The progress test looks at slot 0's count on every successful poll,
      so a poll on which slot 0 stays silent repeats the message of the
      current count, the count 0 included. */
  lemma ProgressWithoutSlot0Sample(t: seq<Wake>, w: Wake)
    requires w.Woke? && Changed(w, 0).None?
    requires |Samples(t, 0)| % (CalibrationCount / 20) == 0
    ensures ProgressLog(t + [w]) == ProgressLog(t) + [Progress(|Samples(t, 0)| * 100 / CalibrationCount)]
  {
    SamplesSnoc(t, w, 0);
    ProgressLogSnoc(t, w);
  }

  /** The same wake n times over. */
  function Repeat(w: Wake, n: nat): (r: seq<Wake>)
    ensures |r| == n && forall i :: 0 <= i < n ==> r[i] == w
  {
    if n == 0 then [] else Repeat(w, n - 1) + [w]
  }

  lemma {:induction false} RepeatSamples(w: Wake, n: nat, s: nat)
    ensures |Samples(Repeat(w, n), s)| == if Changed(w, s).Some? then n else 0
  {
    if n > 0 {
      RepeatSamples(w, n - 1, s);
      SamplesSnoc(Repeat(w, n - 1), w, s);
    }
  }

  lemma {:induction false} RepeatFailures(w: Wake, n: nat)
    ensures Failures(Repeat(w, n)) == if w.PollFailed? then n else 0
  {
    if n > 0 {
      var r := Repeat(w, n - 1);
      assert Repeat(w, n) == r + [w];
      RepeatFailures(w, n - 1);
      SamplesSnoc(r, w, 0);
    }
  }

  /** The counts after a first wake on which only slot 1 reports, followed
      by k wakes on which slots 0 and 1 both report. */
  lemma LateSlot0Counts(v: Vec3, k: nat)
    ensures var t := [Woke(None, Some(v), None)] + Repeat(Woke(Some(v), Some(v), None), k);
      && |Samples(t, 0)| == k
      && |Samples(t, 1)| == k + 1
      && Failures(t) == 0
  {
    var first := Woke(None, Some(v), None);
    var both := Woke(Some(v), Some(v), None);
    SamplesAppend([first], Repeat(both, k), 0);
    SamplesAppend([first], Repeat(both, k), 1);
    FailuresAppend([first], Repeat(both, k));
    RepeatSamples(both, k, 0);
    RepeatSamples(both, k, 1);
    RepeatFailures(both, k);
    assert [first] == [] + [first];
    SamplesSnoc([], first, 0);
    SamplesSnoc([], first, 1);
  }

  /** Only slot 0's counter is bounded by the loop: a slot that reports on
      every poll, while slot 0 misses the first one, ends with one sample
      more than the target. */
  lemma SlotCountsUncapped(v: Vec3)
    ensures var t := [Woke(None, Some(v), None)] + Repeat(Woke(Some(v), Some(v), None), CalibrationCount);
      && ExitOf(t) == Completed
      && |Samples(t[..StopIndex(t)], 1)| == CalibrationCount + 1
  {
    var first := Woke(None, Some(v), None);
    var both := Woke(Some(v), Some(v), None);
    var t := [first] + Repeat(both, CalibrationCount);
    var n := StopIndex(t);
    if n < |t| {
      assert n > 0 by {
        assert t[..0] == [];
      }
      assert t[..n] == [first] + Repeat(both, n - 1) by {
        assert t[1..n] == Repeat(both, CalibrationCount)[..n - 1];
        RepeatPrefix(both, CalibrationCount, n - 1);
        assert t[..n] == [first] + t[1..n];
      }
      LateSlot0Counts(v, n - 1);
      assert false;
    }
    assert t[..n] == t;
    LateSlot0Counts(v, CalibrationCount);
  }

  lemma RepeatPrefix(w: Wake, n: nat, m: nat)
    requires m <= n
    ensures Repeat(w, n)[..m] == Repeat(w, m)
  {
  }

  // ---------------------------------------------------------------------------
  // Means and validation

  lemma {:induction false} SumOfConstant(v: seq<Vec3>, c: Vec3)
    requires forall i :: 0 <= i < |v| ==> v[i] == c
    ensures SumOf(v) == Vec3(|v| as real * c.x, |v| as real * c.y, |v| as real * c.z)
  {
    if v != [] {
      SumOfConstant(v[..|v| - 1], c);
    }
  }

  /** A slot that reported the same reading every time has that reading as
      its mean, so a stationary slot 0 always passes validation. */
  lemma ConstantSamplesAccepted(v: seq<Vec3>, c: Vec3)
    requires |v| > 0
    requires forall i :: 0 <= i < |v| ==> v[i] == c
    ensures Mean(v) == FromSum(c)
    ensures Acceptable(LastSample(v), Mean(v))
  {
    SumOfConstant(v, c);
    var n := |v|;
    assert SumOf(v) == Vec3(n as real * c.x, n as real * c.y, n as real * c.z);
    Cancel(n, c.x);
    Cancel(n, c.y);
    Cancel(n, c.z);
  }

  /** Dividing n copies of x by n gives x back. */
  lemma Cancel(n: nat, x: real)
    requires n > 0
    ensures Div(Finite(n as real * x), n) == Finite(x)
  {
    var m := n as real;
    assert m * x / m == x;
  }

  /** A slot with no samples has non-finite offsets after the division, and
      such a slot 0 always fails validation. */
  lemma EmptySlotRejected(last: Vec3)
    ensures !IsFinite(Mean([]))
    ensures !Acceptable(last, Mean([]))
  {
  }
}
