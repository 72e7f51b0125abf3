/** do_gyro_calibration as imperative code. The class holds the routine's
    working state: the per-slot arrays it updates in place (offsets,
    counters, device ids), the result code threaded through the stages, the
    slot-0 snapshot, the failed-poll counter, and what it leaves in the outside
    world (parameter store, param_set calls, device applies, save, notifications).
    Each stage is a method proved against the stage's specification, and
    DoGyroCalibration is proved to have exactly the effects of Pipeline.Expected. */
module GyroCalibration {
  import opened GyroTypes
  import opened ResetStage
  import opened Sampling
  import opened CommitStage
  import opened Pipeline

  class Calibration {
    /** gyro_scale[]: zero offsets after reset, running sums while sampling, means after the division. */
    const gyroScale: array<GyroScale>
    /** calibration_counter[]: samples accumulated per slot. */
    const calibrationCounter: array<nat>
    /** device_id[]: set only for slots whose device opened during reset. */
    const deviceId: array<Option<int>>
    var res: int
    /** gyro_report_0: the latest slot-0 report. */
    var gyroReport0: Vec3
    var pollErrcount: nat
    var params: map<ParamKey, ParamValue>
    var writes: seq<ParamKey>
    var applies: seq<Apply>
    var saved: bool
    var log: seq<Message>

    ghost predicate Valid()
      reads this
    {
      gyroScale.Length == MaxGyros && calibrationCounter.Length == MaxGyros && deviceId.Length == MaxGyros
    }

    /** The routine's entry: the start notifications, zeroed working state,
        and the parameter store as it was before the run. */
    constructor (params0: map<ParamKey, ParamValue>)
      ensures Valid() && fresh(gyroScale) && fresh(calibrationCounter) && fresh(deviceId)
      ensures forall s :: 0 <= s < MaxGyros ==>
        gyroScale[s] == ZeroScale && calibrationCounter[s] == 0 && deviceId[s] == None
      ensures res == Ok && gyroReport0 == Zero && pollErrcount == 0
      ensures params == params0 && writes == [] && applies == [] && !saved
      ensures log == [Started, HoldStill]
    {
      gyroScale := new GyroScale[MaxGyros](_ => ZeroScale);
      calibrationCounter := new nat[MaxGyros](_ => 0);
      deviceId := new Option<int>[MaxGyros](_ => None);
      res := Ok;
      gyroReport0 := Zero;
      pollErrcount := 0;
      params := params0;
      writes := [];
      applies := [];
      saved := false;
      log := [Started, HoldStill];
    }

    /** Reset every slot to zero offsets and send that reset to each device
        that opens; every sent reset overwrites the result code. */
    method Reset(o: seq<ResetOracle>)
      requires Valid() && |o| == MaxGyros && res == Ok
      modifies this`res, this`log, gyroScale, deviceId
      ensures res == ResetRes(o)
      ensures forall s :: 0 <= s < MaxGyros ==>
        gyroScale[s] == ZeroScale && deviceId[s] == DeviceIdAfterReset(o[s], old(deviceId[s]))
      ensures log == old(log) + ResetLog(o)
    {
      for s := 0 to MaxGyros
        invariant res == ResetRes(o[..s])
        invariant log == old(log) + ResetLog(o[..s])
        invariant forall u :: 0 <= u < s ==>
          gyroScale[u] == ZeroScale && deviceId[u] == DeviceIdAfterReset(o[u], old(deviceId[u]))
        invariant forall u :: s <= u < MaxGyros ==> deviceId[u] == old(deviceId[u])
      {
        assert o[..s + 1][..s] == o[..s];
        gyroScale[s] := ZeroScale;
        if !o[s].opens {
          continue;
        }
        deviceId[s] := Some(o[s].deviceId);
        res := o[s].resetResult;
        if res != Ok {
          log := log + [FailedReset];
        }
      }
      assert o[..MaxGyros] == o;
    }

    /** The working state reflects the wakes of t: each slot's counter and
        running sums hold its samples so far, and gyro_report_0 the last
        slot-0 sample. */
    ghost predicate Tracks(t: seq<Wake>)
      reads this, gyroScale, calibrationCounter
    {
      && Valid()
      && (forall s :: 0 <= s < MaxGyros ==>
            && calibrationCounter[s] == |Samples(t, s)|
            && gyroScale[s] == FromSum(SumOf(Samples(t, s))))
      && gyroReport0 == LastSample(Samples(t, 0))
    }

    /** One slot's turn within a successful poll: add its fresh sample if it
        reported one, keep slot 0's report, and for slot 0 emit the progress
        message when its count is a multiple of the twentieth. */
    method DrainSlot(s: nat, w: Wake, ghost prev: seq<Vec3>)
      requires Valid() && s < MaxGyros && w.Woke?
      requires calibrationCounter[s] == |prev| && gyroScale[s] == FromSum(SumOf(prev))
      requires s == 0 ==> gyroReport0 == LastSample(prev)
      modifies this`gyroReport0, this`log, gyroScale, calibrationCounter
      ensures calibrationCounter[s] == |Extend(prev, Changed(w, s))|
      ensures gyroScale[s] == FromSum(SumOf(Extend(prev, Changed(w, s))))
      ensures forall u :: 0 <= u < MaxGyros && u != s ==>
        calibrationCounter[u] == old(calibrationCounter[u]) && gyroScale[u] == old(gyroScale[u])
      ensures gyroReport0 == if s == 0 then LastSample(Extend(prev, Changed(w, s))) else old(gyroReport0)
      ensures log == old(log) + if s == 0 then ProgressNote(|Extend(prev, Changed(w, s))|, w) else []
    {
      var n := calibrationCounter[s];
      match Changed(w, s) {
        case Some(v) =>
          if s == 0 {
            gyroReport0 := v;
          }
          SumOfSnoc(prev, v);
          gyroScale[s] := AddSample(gyroScale[s], v);
          n := n + 1;
          calibrationCounter[s] := n;
        case None =>
      }
      if s == 0 && n % (CalibrationCount / 20) == 0 {
        log := log + [Progress(n * 100 / CalibrationCount)];
      }
    }

    /** The sampling loop's whole state after the wakes of t, given the
        notifications log0 sent before the loop. */
    ghost predicate Sampled(t: seq<Wake>, log0: seq<Message>)
      reads this, gyroScale, calibrationCounter
    {
      Tracks(t) && pollErrcount == Failures(t) && log == log0 + ProgressLog(t)
    }

    /** A successful poll: every slot in order takes its fresh report, if any. */
    method Drain(w: Wake, ghost before: seq<Wake>)
      requires Tracks(before) && w.Woke?
      modifies this`gyroReport0, this`log, gyroScale, calibrationCounter
      ensures Tracks(before + [w])
      ensures log == old(log) + ProgressNote(|Samples(before + [w], 0)|, w)
    {
      ghost var after := before + [w];
      for s := 0 to MaxGyros
        invariant forall u :: 0 <= u < s ==>
          && calibrationCounter[u] == |Samples(after, u)|
          && gyroScale[u] == FromSum(SumOf(Samples(after, u)))
        invariant forall u :: s <= u < MaxGyros ==>
          && calibrationCounter[u] == |Samples(before, u)|
          && gyroScale[u] == FromSum(SumOf(Samples(before, u)))
        invariant gyroReport0 == LastSample(Samples(if s == 0 then before else after, 0))
        invariant log == old(log) + if s == 0 then [] else ProgressNote(|Samples(after, 0)|, w)
      {
        SamplesSnoc(before, w, s);
        DrainSlot(s, w, Samples(before, s));
      }
    }

    /** One wake of the loop: a failed poll bumps the failed-poll counter,
        a successful one drains every slot. */
    method Step(w: Wake, ghost before: seq<Wake>, ghost log0: seq<Message>)
      requires Sampled(before, log0)
      modifies this`gyroReport0, this`log, this`pollErrcount, gyroScale, calibrationCounter
      ensures Sampled(before + [w], log0)
    {
      SamplesSnoc(before, w, 0);
      ProgressLogSnoc(before, w);
      match w {
        case PollFailed =>
          SamplesSnoc(before, w, 1);
          SamplesSnoc(before, w, 2);
          pollErrcount := pollErrcount + 1;
        case Woke(_, _, _) =>
          Drain(w, before);
      }
    }

    /** The sampling loop: one wake of the trace per iteration, paced on
        slot 0's counter, leaving on the 1001st failed poll. It stops early,
        with TraceExhausted, when the trace ends while the loop still waits;
        i is the number of wakes it consumed. */
    method SampleLoop(trace: seq<Wake>) returns (i: nat, exit: LoopExit)
      requires Tracks([])
      modifies this`log, this`gyroReport0, this`pollErrcount, gyroScale, calibrationCounter
      ensures i <= StopIndex(trace) && (i == |trace| || Stops(trace[..i]))
      ensures Sampled(trace[..i], old(log))
      ensures exit == if !Stops(trace[..i]) then TraceExhausted
        else if Failures(trace[..i]) > MaxPollErrors then Aborted else Completed
    {
      i := 0;
      ghost var done: seq<Wake> := [];
      pollErrcount := 0;
      while calibrationCounter[0] < CalibrationCount
        invariant 0 <= i <= StopIndex(trace) && done == trace[..i]
        invariant Sampled(done, old(log)) && pollErrcount <= MaxPollErrors
        decreases |trace| - i
      {
        if i == |trace| {
          return i, TraceExhausted;
        }
        StillRunning(trace, i);
        var w := trace[i];
        Step(w, done, old(log));
        done := done + [w];
        i := i + 1;
        assert done == trace[..i];
        if pollErrcount > MaxPollErrors {
          return i, Aborted;
        }
      }
      exit := Completed;
    }

    /** The loop with its abort notice: an abort logs the failed sensor and
        sets the result code to ERROR. */
    method Accumulate(trace: seq<Wake>) returns (exit: LoopExit)
      requires Tracks([]) && res == Ok
      modifies this`res, this`log, this`gyroReport0, this`pollErrcount, gyroScale, calibrationCounter
      ensures exit == ExitOf(trace)
      ensures Tracks(Consumed(trace))
      ensures pollErrcount == Failures(Consumed(trace))
      ensures res == (if exit == Aborted then Error else Ok)
      ensures log == old(log) + ProgressLog(Consumed(trace)) + (if exit == Aborted then [FailedSensor] else [])
    {
      var i;
      i, exit := SampleLoop(trace);
      ExitAt(trace, i);
      if exit == Aborted {
        log := log + [FailedSensor];
        res := Error;
      }
    }

    /** Divide every slot's sums by that slot's own counter, a zero counter included. */
    method Finalize()
      requires Valid()
      modifies gyroScale
      ensures forall s :: 0 <= s < MaxGyros ==>
        gyroScale[s] == DivScale(old(gyroScale[s]), calibrationCounter[s])
    {
      for s := 0 to MaxGyros
        invariant forall u :: 0 <= u < s ==> gyroScale[u] == DivScale(old(gyroScale[u]), calibrationCounter[u])
        invariant forall u :: s <= u < MaxGyros ==> gyroScale[u] == old(gyroScale[u])
      {
        gyroScale[s] := gyroScale[s].(xOffset := Div(gyroScale[s].xOffset, calibrationCounter[s]));
        gyroScale[s] := gyroScale[s].(yOffset := Div(gyroScale[s].yOffset, calibrationCounter[s]));
        gyroScale[s] := gyroScale[s].(zOffset := Div(gyroScale[s].zOffset, calibrationCounter[s]));
      }
    }

    /** The sampling block: the loop, then, unless it never ends, the
        division of every slot's sums into means. */
    method Measure(trace: seq<Wake>) returns (exit: LoopExit)
      requires Tracks([]) && res == Ok
      modifies this`res, this`log, this`gyroReport0, this`pollErrcount, gyroScale, calibrationCounter
      ensures exit == ExitOf(trace)
      ensures res == (if exit == Aborted then Error else Ok)
      ensures log == old(log) + ProgressLog(Consumed(trace)) + (if exit == Aborted then [FailedSensor] else [])
      ensures exit != TraceExhausted ==>
        && calibrationCounter[..] == Counts(Consumed(trace))
        && gyroScale[..] == Means(Consumed(trace))
        && gyroReport0 == LastSample(Samples(Consumed(trace), 0))
    {
      exit := Accumulate(trace);
      if exit == TraceExhausted {
        return;
      }
      Finalize();
      ghost var t := Consumed(trace);
      assert calibrationCounter[..] == Counts(t);
      assert gyroScale[..] == Means(t);
    }

    /** Reject slot 0's offsets when one is not finite or lies more than
        MaxOff away from the last raw slot-0 report. */
    method Validate()
      requires Valid() && res == Ok
      modifies this`res, this`log
      ensures res == (if Acceptable(gyroReport0, gyroScale[0]) then Ok else Error)
      ensures log == old(log) + (if res == Ok then [] else [OffsetsRejected])
    {
      var g := gyroScale[0];
      if || !IsFinite(g)
         || Abs(gyroReport0.x - g.xOffset.value) > MaxOff
         || Abs(gyroReport0.y - g.yOffset.value) > MaxOff
         || Abs(gyroReport0.z - g.zOffset.value) > MaxOff
      {
        log := log + [OffsetsRejected];
        res := Error;
      }
    }

    /** param_set on one key, whose outcome the store decides. */
    method ParamSet(key: ParamKey, v: ParamValue, succeeds: bool) returns (status: int)
      modifies this`params, this`writes
      ensures params == Write(old(params), key, v, succeeds)
      ensures writes == old(writes) + [key]
      ensures status == (if succeeds then Ok else Error)
    {
      writes := writes + [key];
      if succeeds {
        params := params[key := v];
        status := Ok;
      } else {
        status := Error;
      }
    }

    /** An eligible slot's turn in the commit loop: its four parameters are
        written whatever each write returns, and its offsets are applied if
        its device opens. Returns whether the slot raises the failure flag. */
    method CommitSlot(s: nat, o: CommitOracle) returns (slotFailed: bool)
      requires Valid() && s < MaxGyros
      modifies this`res, this`log, this`params, this`writes, this`applies
      ensures slotFailed == SlotFails(o)
      ensures params == SlotParams(old(params), s, gyroScale[s], deviceId[s], o)
      ensures writes == old(writes) + SlotKeys(s)
      ensures applies == old(applies) + if o.opens then [Apply(s, gyroScale[s])] else []
      ensures res == if o.opens then o.applyResult else old(res)
      ensures log == old(log) + if o.opens && o.applyResult != Ok then [FailedApply] else []
    {
      var g, id := gyroScale[s], deviceId[s];
      var status := ParamSet(CalGyro(s, XOff), ParamFor(XOff, g, id), o.xSet);
      slotFailed := status != Ok;
      status := ParamSet(CalGyro(s, YOff), ParamFor(YOff, g, id), o.ySet);
      slotFailed := slotFailed || status != Ok;
      status := ParamSet(CalGyro(s, ZOff), ParamFor(ZOff, g, id), o.zSet);
      slotFailed := slotFailed || status != Ok;
      status := ParamSet(CalGyro(s, Id), ParamFor(Id, g, id), o.idSet);
      slotFailed := slotFailed || status != Ok;
      if !o.opens {
        slotFailed := true;
        return;
      }
      res := o.applyResult;
      applies := applies + [Apply(s, g)];
      if res != Ok {
        log := log + [FailedApply];
      }
    }

    /** The commit loop: write and apply the offsets of every slot with
        enough samples, and report whether any write failed or any device
        did not open. */
    method CommitSlots(o: seq<CommitOracle>) returns (failed: bool)
      requires Valid() && res == Ok && |o| == MaxGyros
      modifies this`res, this`log, this`params, this`writes, this`applies
      ensures failed == CommitFailed(calibrationCounter[..], o, |o|)
      ensures params == CommitParams(old(params), calibrationCounter[..], gyroScale[..], deviceId[..], o, |o|)
      ensures writes == old(writes) + CommitWrites(calibrationCounter[..], |o|)
      ensures applies == old(applies) + CommitApplies(calibrationCounter[..], gyroScale[..], o, |o|)
      ensures res == ResAfterApplies(calibrationCounter[..], o, |o|)
      ensures log == old(log) + ApplyLog(calibrationCounter[..], o, |o|)
    {
      ghost var counts := calibrationCounter[..];
      ghost var scales := gyroScale[..];
      ghost var ids := deviceId[..];
      failed := false;
      for s := 0 to MaxGyros
        invariant failed == CommitFailed(counts, o, s)
        invariant params == CommitParams(old(params), counts, scales, ids, o, s)
        invariant writes == old(writes) + CommitWrites(counts, s)
        invariant applies == old(applies) + CommitApplies(counts, scales, o, s)
        invariant res == ResAfterApplies(counts, o, s)
        invariant log == old(log) + ApplyLog(counts, o, s)
      {
        CommitFailedStep(counts, o, s);
        if calibrationCounter[s] < CalibrationCount / 2 {
          continue;
        }
        var slotFailed := CommitSlot(s, o[s]);
        failed := failed || slotFailed;
      }
    }

    /** The commit stage: the commit loop, then a raised failure flag forces
        ERROR whatever the applies returned. */
    method Commit(o: seq<CommitOracle>)
      requires Valid() && res == Ok && |o| == MaxGyros
      modifies this`res, this`log, this`params, this`writes, this`applies
      ensures params == CommitParams(old(params), calibrationCounter[..], gyroScale[..], deviceId[..], o, |o|)
      ensures writes == old(writes) + CommitWrites(calibrationCounter[..], |o|)
      ensures applies == old(applies) + CommitApplies(calibrationCounter[..], gyroScale[..], o, |o|)
      ensures res == CommitRes(calibrationCounter[..], o)
      ensures log == old(log) + CommitLog(calibrationCounter[..], o)
    {
      var failed := CommitSlots(o);
      if failed {
        log := log + [FailedSetParams];
        res := Error;
      }
    }

    /** Save the parameters; the save's result becomes the result code. */
    method Persist(saveResult: int)
      requires res == Ok
      modifies this`res, this`saved, this`log
      ensures res == saveResult && saved
      ensures log == old(log) + (if saveResult == Ok then [] else [FailedSave])
    {
      saved := true;
      res := saveResult;
      if res != Ok {
        log := log + [FailedSave];
      }
    }

    /** The final notification. */
    method Conclude()
      modifies this`log
      ensures log == old(log) + [if res == Ok then Done else Failed]
    {
      if res == Ok {
        log := log + [Done];
      } else {
        log := log + [Failed];
      }
    }

    /** Commit, persist when the commit left OK, and conclude: the tail of a
        run whose means passed validation. */
    method Finish(o: seq<CommitOracle>, saveResult: int) returns (result: RunResult)
      requires Valid() && res == Ok && |o| == MaxGyros && writes == [] && applies == [] && !saved
      modifies this`res, this`log, this`params, this`writes, this`applies, this`saved
      ensures result == Committed(old(params), calibrationCounter[..], gyroScale[..], deviceId[..], o, saveResult, old(log))
    {
      Commit(o);
      if res == Ok {
        Persist(saveResult);
      }
      Conclude();
      result := RunResult(Returned(res), params, writes, applies, saved, log);
    }

    /** Everything after a sampling loop that ended: validate if the loop
        left OK, then commit and persist if still OK, and conclude. */
    method Settle(env: Environment) returns (result: RunResult)
      requires WellFormed(env) && Valid() && ExitOf(env.trace) != TraceExhausted
      requires res == (if ExitOf(env.trace) == Aborted then Error else Ok)
      requires calibrationCounter[..] == Counts(Consumed(env.trace))
      requires gyroScale[..] == Means(Consumed(env.trace))
      requires gyroReport0 == LastSample(Samples(Consumed(env.trace), 0))
      requires deviceId[..] == Ids(env.reset) && writes == [] && applies == [] && !saved
      modifies this`res, this`log, this`params, this`writes, this`applies, this`saved
      ensures result == AfterLoop(env, old(params), old(log))
    {
      ghost var t := Consumed(env.trace);
      if res == Ok {
        assert gyroScale[0] == Means(t)[0];
        Validate();
      }
      if res == Ok {
        result := Finish(env.commit, env.saveResult);
        return;
      }
      Conclude();
      result := RunResult(Returned(res), params, writes, applies, saved, log);
    }

    /** Everything after a reset that left OK: sample, and, unless the loop
        never ends, settle. */
    method Proceed(env: Environment) returns (result: RunResult)
      requires WellFormed(env) && Tracks([]) && res == Ok && deviceId[..] == Ids(env.reset)
      requires writes == [] && applies == [] && !saved
      modifies this`res, this`log, this`gyroReport0, this`pollErrcount, gyroScale, calibrationCounter
      modifies this`params, this`writes, this`applies, this`saved
      ensures result == FromSampling(env, old(params), old(log))
    {
      var exit := Measure(env.trace);
      if exit == TraceExhausted {
        return RunResult(Stalled, params, writes, applies, saved, log);
      }
      result := Settle(env);
    }
  }

  /** One run of the calibration against env, starting from the parameter
      store params0: it has exactly the effects Pipeline.Expected describes. */
  method DoGyroCalibration(env: Environment, params0: map<ParamKey, ParamValue>) returns (result: RunResult)
    requires WellFormed(env)
    ensures result == Expected(env, params0)
  {
    var c := new Calibration(params0);
    c.Reset(env.reset);
    if c.res == Ok {
      assert c.deviceId[..] == Ids(env.reset);
      result := c.Proceed(env);
      return;
    }
    c.Conclude();
    result := RunResult(Returned(c.res), c.params, c.writes, c.applies, c.saved, c.log);
  }
}
