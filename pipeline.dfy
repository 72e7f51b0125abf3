/** The whole calibration run as a function of what the outside world
    answers: reset, sampling, the division into means, validation, commit,
    persisting and the final notification. Each stage runs only while the
    result code is still OK. */
module Pipeline {
  import opened GyroTypes
  import opened ResetStage
  import opened Sampling
  import opened CommitStage

  /** What a run leaves behind: its outcome, the parameter store, every key
      passed to param_set, every apply attempted during commit, whether the
      parameters were saved, and the notifications. */
  datatype RunResult = RunResult(
    outcome: Outcome,
    params: map<ParamKey, ParamValue>,
    writes: seq<ParamKey>,
    applies: seq<Apply>,
    saved: bool,
    log: seq<Message>)

  /** The wakes the sampling loop consumes. */
  function Consumed(t: seq<Wake>): seq<Wake>
  {
    t[..StopIndex(t)]
  }

  function Counts(t: seq<Wake>): seq<nat>
  {
    [|Samples(t, 0)|, |Samples(t, 1)|, |Samples(t, 2)|]
  }

  function Means(t: seq<Wake>): seq<GyroScale>
  {
    [Mean(Samples(t, 0)), Mean(Samples(t, 1)), Mean(Samples(t, 2))]
  }

  function Ids(o: seq<ResetOracle>): seq<Option<int>>
    requires |o| == MaxGyros
  {
    [DeviceIdAfterReset(o[0], None), DeviceIdAfterReset(o[1], None), DeviceIdAfterReset(o[2], None)]
  }

  /** Validation of the sampled trace t: slot 0's mean against its last report. */
  predicate Validates(t: seq<Wake>)
  {
    Acceptable(LastSample(Samples(t, 0)), Mean(Samples(t, 0)))
  }

  /** The run reaches the commit stage: the resets left OK, sampling completed
      and validation passed. */
  predicate ReachesCommit(env: Environment)
  {
    ResetRes(env.reset) == Ok && ExitOf(env.trace) == Completed && Validates(Consumed(env.trace))
  }

  /** The final notification closes a run that returned code. */
  function Concluded(code: int, p: map<ParamKey, ParamValue>, writes: seq<ParamKey>, applies: seq<Apply>,
                     saved: bool, log: seq<Message>): RunResult
  {
    RunResult(Returned(code), p, writes, applies, saved, log + [if code == Ok then Done else Failed])
  }

  /** The commit stage and what follows it, from parameter store p0 and the
      notifications log sent so far: the store is saved only when the result
      code is still OK after commit. */
  function Committed(p0: map<ParamKey, ParamValue>, counts: seq<nat>, means: seq<GyroScale>,
                     ids: seq<Option<int>>, o: seq<CommitOracle>, saveResult: int, log: seq<Message>): RunResult
    requires |counts| == |means| == |ids| == |o| == MaxGyros
  {
    var params := CommitParams(p0, counts, means, ids, o, |o|);
    var writes := CommitWrites(counts, |o|);
    var applies := CommitApplies(counts, means, o, |o|);
    var committed := log + CommitLog(counts, o);
    var c := CommitRes(counts, o);
    if c != Ok then Concluded(c, params, writes, applies, false, committed)
    else Concluded(saveResult, params, writes, applies, true, committed + if saveResult == Ok then [] else [FailedSave])
  }

  /** The run after a sampling loop that ended, given the notifications
      `looped` sent so far (the abort notice included): an aborted loop or a
      rejected mean concludes with ERROR, otherwise the offsets are committed. */
  function AfterLoop(env: Environment, p0: map<ParamKey, ParamValue>, looped: seq<Message>): RunResult
    requires WellFormed(env)
  {
    var t := Consumed(env.trace);
    if ExitOf(env.trace) == Aborted then Concluded(Error, p0, [], [], false, looped)
    else if !Validates(t) then Concluded(Error, p0, [], [], false, looped + [OffsetsRejected])
    else Committed(p0, Counts(t), Means(t), Ids(env.reset), env.commit, env.saveResult, looped)
  }

  /** The run from the sampling loop on, once the resets left OK, given the
      notifications `opening` sent so far. A loop still waiting when the
      trace ends leaves the run stalled. */
  function FromSampling(env: Environment, p0: map<ParamKey, ParamValue>, opening: seq<Message>): RunResult
    requires WellFormed(env)
  {
    var exit := ExitOf(env.trace);
    var sampled := opening + ProgressLog(Consumed(env.trace));
    if exit == TraceExhausted then RunResult(Stalled, p0, [], [], false, sampled)
    else AfterLoop(env, p0, sampled + if exit == Aborted then [FailedSensor] else [])
  }

  /** The effects of one run of the calibration on env, from parameter store p0. */
  function Expected(env: Environment, p0: map<ParamKey, ParamValue>): RunResult
    requires WellFormed(env)
  {
    var opening := [Started, HoldStill] + ResetLog(env.reset);
    var r := ResetRes(env.reset);
    if r != Ok then Concluded(r, p0, [], [], false, opening)
    else FromSampling(env, p0, opening)
  }

  // ---------------------------------------------------------------------------
  // Lemmas about a run

  /** The run returns OK exactly when every guarded stage kept the result
      code OK and the save succeeded. */
  lemma OkIffEveryStagePasses(env: Environment, p0: map<ParamKey, ParamValue>)
    requires WellFormed(env)
    ensures Expected(env, p0).outcome == Returned(Ok) <==>
      ReachesCommit(env) && CommitRes(Counts(Consumed(env.trace)), env.commit) == Ok && env.saveResult == Ok
  {
  }

  /** A run that does not reach the commit stage (a reset that fails on the
      last opened device, an abort, a stall or a rejected mean) writes no
      CAL_GYRO<s>_* parameter, applies nothing and saves nothing. */
  lemma NoCommitBeforeValidation(env: Environment, p0: map<ParamKey, ParamValue>)
    requires WellFormed(env) && !ReachesCommit(env)
    ensures var r := Expected(env, p0);
      r.params == p0 && r.writes == [] && r.applies == [] && !r.saved
  {
  }

  /** Parameters are saved only when the result code is still OK after commit,
      and then the returned code is the save's result. */
  lemma SavedOnlyAfterCleanCommit(env: Environment, p0: map<ParamKey, ParamValue>)
    requires WellFormed(env)
    ensures var r := Expected(env, p0);
      r.saved <==> ReachesCommit(env) && CommitRes(Counts(Consumed(env.trace)), env.commit) == Ok
    ensures var r := Expected(env, p0);
      r.saved ==> r.outcome == Returned(env.saveResult)
  {
  }

  /** An aborted sampling loop ends the run with ERROR. */
  lemma AbortFailsRun(env: Environment, p0: map<ParamKey, ParamValue>)
    requires WellFormed(env) && ResetRes(env.reset) == Ok && ExitOf(env.trace) == Aborted
    ensures Expected(env, p0).outcome == Returned(Error)
    ensures Failures(Consumed(env.trace)) == MaxPollErrors + 1
  {
    AbortOnFirstExcess(env.trace);
  }

  /** A slot with fewer than half the target samples keeps all four of its
      parameters as they were. */
  lemma {:induction false} ThinSlotKeepsParams(env: Environment, p0: map<ParamKey, ParamValue>, key: ParamKey)
    requires WellFormed(env) && key.slot < MaxGyros
    requires |Samples(Consumed(env.trace), key.slot)| < CalibrationCount / 2
    ensures var p := Expected(env, p0).params;
      (key in p <==> key in p0) && (key in p0 ==> p[key] == p0[key])
  {
    var t := Consumed(env.trace);
    if ReachesCommit(env) {
      assert Counts(t)[key.slot] == |Samples(t, key.slot)|;
      UnwrittenKeyUntouched(p0, Counts(t), Means(t), Ids(env.reset), env.commit, |env.commit|, key);
    }
  }

  /** Each parameter written for an eligible slot holds that slot's own mean
      (a finite value whose product with the slot's counter is the sum of its
      samples) or its device id. */
  lemma {:induction false} CommittedValueIsMean(env: Environment, p0: map<ParamKey, ParamValue>, key: ParamKey)
    requires WellFormed(env) && ReachesCommit(env) && key.slot < MaxGyros
    requires |Samples(Consumed(env.trace), key.slot)| >= CalibrationCount / 2
    requires SetOk(env.commit[key.slot], key.field)
    ensures var p := Expected(env, p0).params;
      var v := Samples(Consumed(env.trace), key.slot);
      && IsFinite(Mean(v))
      && key in p
      && p[key] == ParamFor(key.field, Mean(v), DeviceIdAfterReset(env.reset[key.slot], None))
  {
    var t := Consumed(env.trace);
    assert Counts(t)[key.slot] == |Samples(t, key.slot)|;
    assert Means(t)[key.slot] == Mean(Samples(t, key.slot));
    assert Ids(env.reset)[key.slot] == DeviceIdAfterReset(env.reset[key.slot], None);
    WrittenKeyHolds(p0, Counts(t), Means(t), Ids(env.reset), env.commit, |env.commit|, key);
  }

  /** A run that returns OK sampled exactly the target count on slot 0 and
      stored slot 0's mean offsets on every axis. */
  lemma OkRunStoresSlot0Mean(env: Environment, p0: map<ParamKey, ParamValue>, f: Field)
    requires WellFormed(env) && Expected(env, p0).outcome == Returned(Ok)
    ensures |Samples(Consumed(env.trace), 0)| == CalibrationCount
    ensures var v := Samples(Consumed(env.trace), 0);
      var p := Expected(env, p0).params;
      CalGyro(0, f) in p && p[CalGyro(0, f)] == ParamFor(f, Mean(v), DeviceIdAfterReset(env.reset[0], None))
  {
    var t := Consumed(env.trace);
    CompletedCountExact(env.trace);
    assert Counts(t)[0] == CalibrationCount;
    assert !CommitFailed(Counts(t), env.commit, |env.commit|);
    assert Eligible(Counts(t)[0]) ==> !SlotFails(env.commit[0]);
    CommittedValueIsMean(env, p0, CalGyro(0, f));
  }
}
