# Gyroscope offset calibration, modelled and verified in Dafny

This project models `do_gyro_calibration` in
`src/modules/commander/gyro_calibration.cpp`. That routine is the PX4
commander's gyroscope bias calibration, run over three fixed sensor slots.
It runs in five stages:

1. **Reset.** It zeroes every slot's offsets and sends that reset to every
   device that opens. Each reset it sends overwrites the result code.
2. **Sampling.** It polls until slot 0 has 5000 samples. Every slot that
   reports adds its sample to its own running sums and counter. Slot 0's
   latest report is kept as a snapshot. A failed poll counts towards a
   ceiling of 1000, and going past the ceiling aborts. Afterwards each
   slot's sums are divided by its own counter, even on the abort path and
   even when the counter is zero.
3. **Validation.** Slot 0's mean must be finite and within 0.01 of the
   snapshot on every axis.
4. **Commit.** Every slot with at least 2500 samples has its three offsets
   and its device id written, whatever the earlier writes returned. Its
   offsets are then applied to its device. Write failures and devices that
   do not open are OR-ed into one flag, which forces ERROR. Each apply
   overwrites the result code.
5. **Save and return.** The parameters are saved only when the result code
   is still OK. The final code is returned, after a done or failed notice.

The project is laid out in the routine's own structure:

- `types.dfy` (`GyroTypes`) holds the values the routine works with:
  - samples as `real` triples;
  - offsets as a finite real or a non-finite marker;
  - parameter keys as (slot, field) pairs;
  - notifications as abstract messages.

  It also holds the answers the outside world gives. Each answer is an
  input to the model:
  - a trace of wakes of the poll loop;
  - per-slot results for open, reset and apply;
  - per-key results for `param_set`;
  - the save's result.
- `reset.dfy`, `sampling.dfy` and `commit.dfy` specify each stage as pure
  functions of those inputs and prove the stage's properties about them.
  - `ResetRes`, `ResetLog` and `DeviceIdAfterReset` specify the reset.
  - `Samples`, `Failures`, `StopIndex`, `ExitOf`, `ProgressLog`, `Mean` and
    `Acceptable` specify sampling and validation.
  - `CommitParams`, `CommitWrites`, `CommitApplies`, `CommitRes` and
    `CommitLog` specify the commit.
- `pipeline.dfy` composes the stages into `Pipeline.Expected`, the complete
  effect of one run:
  - the outcome;
  - the parameter store;
  - every key passed to `param_set`;
  - every apply;
  - whether the parameters were saved;
  - the notifications.

  It also proves the run-level properties.
- `calibration.dfy` is the routine itself, as imperative code. The class
  `Calibration` holds its working state:
  - the arrays `gyro_scale[]`, `calibration_counter[]` and `device_id[]`,
    updated in place;
  - `res`, `gyro_report_0` and `poll_errcount`;
  - the parameter store, the notifications and the other effects.

  Each stage is a method whose loops carry their invariants. Each method is
  proved against its stage's functions. `DoGyroCalibration` is proved to
  produce exactly `Pipeline.Expected` of its environment.

The poll loop in the source can wait forever. In the model it consumes
one wake per iteration from a finite trace. If the trace runs out while
the loop still waits, the run ends with the outcome `Stalled`.

The model reproduces these behaviours of the code as written:

- **Reset result** (gyro_calibration.cpp:113, 126): the reset result of the
  last device that opens decides whether sampling starts. Earlier failed
  resets only raise a notice.
- **Failed apply** (gyro_calibration.cpp:241): each apply overwrites the
  result code, so the last apply's result stands. An earlier failure is
  masked by a later success.
- **Division by every counter** (gyro_calibration.cpp:183-189): every slot
  is divided by its own counter, a zero counter included, and on the abort
  path too.
- **Commit regardless of reset** (gyro_calibration.cpp:219-230): any slot
  with enough samples is committed, whether or not its device opened
  during reset.
- **Open failures during commit** (gyro_calibration.cpp:236-238): a device
  that does not open during commit raises the failure flag.
- **Progress notices** (gyro_calibration.cpp:167-169): the message repeats
  on every successful poll that leaves slot 0's count on a five-percent
  boundary, count 0 included.
- **Finiteness check** (gyro_calibration.cpp:201-203): only slot 0's
  offsets are checked for finiteness.
- **Counters of slots 1 and 2** (gyro_calibration.cpp:143, 164): only slot
  0's counter is bounded by the loop, so the others can pass the target
  count.

## Model

| member | source | states |
|---|---|---|
| GyroCalibration.Calibration.constructor | src/modules/commander/gyro_calibration.cpp:65-124 | The run starts with the two opening notices. All slots start with zero offsets, zero counters and no device id. The result code starts OK, the snapshot all zero, no failed polls, and the store untouched. |
| GyroCalibration.Calibration.Reset | src/modules/commander/gyro_calibration.cpp:98-119 | Every slot is zeroed and every opened slot records its device id. The result code becomes `ResetRes` (the last opened slot's reset result). One notice is sent per failed reset. |
| GyroCalibration.Calibration.DrainSlot | src/modules/commander/gyro_calibration.cpp:150-169 | A slot's turn within a poll. Its counter, sums and (for slot 0) the snapshot extend by its fresh sample, if it has one. No other slot changes. For slot 0 the progress notice depends on the new count. |
| GyroCalibration.Calibration.Drain | src/modules/commander/gyro_calibration.cpp:148-170 | After a successful poll, every slot's counter, sums and the snapshot describe the trace extended by that wake. |
| GyroCalibration.Calibration.Step | src/modules/commander/gyro_calibration.cpp:146-174 | One wake keeps the loop state in step with the trace: counters, sums, snapshot, `poll_errcount == Failures` and the progress log. |
| GyroCalibration.Calibration.SampleLoop | src/modules/commander/gyro_calibration.cpp:143-181 | The loop consumes exactly the wakes up to `StopIndex`. It leaves with the exit `ExitOf` reads off that prefix, and the whole state describes that prefix. |
| GyroCalibration.Calibration.Accumulate | src/modules/commander/gyro_calibration.cpp:143-181 | The loop's exit is `ExitOf(trace)` and the state describes the consumed wakes. `res` is ERROR exactly on abort, which adds the failed-sensor notice. |
| GyroCalibration.Calibration.Finalize | src/modules/commander/gyro_calibration.cpp:183-189 | Every slot's sums are divided by that slot's own counter, a zero counter included. |
| GyroCalibration.Calibration.Measure | src/modules/commander/gyro_calibration.cpp:126-190 | Unless the trace ran out, the counters are the per-slot sample counts and the offsets are `Mean` of each slot's samples, on the abort path too. The snapshot is slot 0's last sample. |
| GyroCalibration.Calibration.Validate | src/modules/commander/gyro_calibration.cpp:192-210 | `res` stays OK exactly when slot 0's offsets are `Acceptable` against the snapshot; otherwise ERROR and one notice. |
| GyroCalibration.Calibration.ParamSet | src/modules/commander/gyro_calibration.cpp:223-230 | Each attempted write is recorded. The store takes the value only when the set succeeds, and the status says which happened. |
| GyroCalibration.Calibration.CommitSlot | src/modules/commander/gyro_calibration.cpp:223-246 | All four keys of the slot are attempted in order. The slot's failure flag covers every failed write and a device that does not open. An opened device is applied with the slot's offsets, and its result becomes the result code. |
| GyroCalibration.Calibration.CommitSlots | src/modules/commander/gyro_calibration.cpp:214-247 | After the loop, the flag is `CommitFailed` (some eligible slot failed). Store, writes, applies, result code and notices are those of `CommitStage` over all three slots. |
| GyroCalibration.Calibration.Commit | src/modules/commander/gyro_calibration.cpp:212-253 | The result code is `CommitRes`: ERROR when the flag is raised, otherwise the last apply's result. The store, writes and applies are as `CommitStage` specifies. |
| GyroCalibration.Calibration.Persist | src/modules/commander/gyro_calibration.cpp:381-388 | The save is made and its result becomes the result code; a failed save is notified. |
| GyroCalibration.Calibration.Conclude | src/modules/commander/gyro_calibration.cpp:390-397 | The last notice is done when the result code is OK, failed otherwise. |
| GyroCalibration.Calibration.Finish | src/modules/commander/gyro_calibration.cpp:212-397 | Commit, save only if still OK, and conclude give exactly `Pipeline.Committed`. |
| GyroCalibration.Calibration.Settle | src/modules/commander/gyro_calibration.cpp:192-397 | After a loop that ended, the rest of the run gives exactly `Pipeline.AfterLoop`: an abort or rejected mean concludes with ERROR and nothing written. |
| GyroCalibration.Calibration.Proceed | src/modules/commander/gyro_calibration.cpp:126-397 | From sampling on, the run gives exactly `Pipeline.FromSampling`, or `Stalled` with nothing written when the trace runs out. |
| GyroCalibration.DoGyroCalibration | src/modules/commander/gyro_calibration.cpp:65-398 | One run has exactly the effects `Pipeline.Expected` gives its environment: outcome, store, writes, applies, save and notifications. |
| ResetStage.NoDeviceKeepsOk | src/modules/commander/gyro_calibration.cpp:98-119 | If no device opens, the result code stays OK. |
| ResetStage.LastOpenedDecides | src/modules/commander/gyro_calibration.cpp:105-126 | Otherwise the reset result of the last opened slot is the result code that gates sampling, whatever earlier resets returned. |
| ResetStage.ResetLogCountsFailures | src/modules/commander/gyro_calibration.cpp:113-118 | Exactly one failed-reset notice per opened slot whose reset failed, and no other notice. |
| Sampling.Mean | src/modules/commander/gyro_calibration.cpp:161-164 | The offsets are finite exactly when the slot has samples. Then each axis times the count equals the sum of that axis over the slot's samples. |
| Sampling.SamplesSnoc | src/modules/commander/gyro_calibration.cpp:146-174 | A wake adds at most one sample to a slot: its fresh report, only when it has one. `poll_errcount` grows by one exactly on a failed poll. |
| Sampling.FailuresAppend | src/modules/commander/gyro_calibration.cpp:172-174 | `poll_errcount` is cumulative: the failed polls of a trace are those of its prefix plus those of the rest. |
| Sampling.CountBound | src/modules/commander/gyro_calibration.cpp:143-174 | A slot's counter plus the failed polls never exceed the number of wakes. |
| Sampling.StopIndex | src/modules/commander/gyro_calibration.cpp:143-181 | The loop consumes a prefix of the trace. No shorter prefix meets the loop's exit condition, and the prefix either meets it or is the whole trace. |
| Sampling.CompletedCountExact | src/modules/commander/gyro_calibration.cpp:143-165 | A loop that ends without abort leaves slot 0's counter exactly at 5000. |
| Sampling.AbortOnFirstExcess | src/modules/commander/gyro_calibration.cpp:172-180 | An abort happens on a failed poll, the 1001st, before slot 0 reaches its count. |
| Sampling.FewFailuresNeverAbort | src/modules/commander/gyro_calibration.cpp:172-180 | A trace with at most 1000 failed polls never aborts. |
| Sampling.SnapshotIsLastSlot0Report | src/modules/commander/gyro_calibration.cpp:154-159 | The snapshot is slot 0's last report: once slot 0 reports v, v stays the snapshot until slot 0 reports again. |
| Sampling.ProgressPercents | src/modules/commander/gyro_calibration.cpp:167-169 | Every progress notice reports a multiple of five percent. |
| Sampling.ProgressWithoutSlot0Sample | src/modules/commander/gyro_calibration.cpp:167-169 | A successful poll on which slot 0 stays silent repeats the notice of the current count when it sits on a boundary, count 0 included. |
| Sampling.SlotCountsUncapped | src/modules/commander/gyro_calibration.cpp:143-165 | A concrete trace: slot 1 reports on every poll and slot 0 misses the first. The loop completes with slot 1 at 5001 samples, above the target. |
| Sampling.ConstantSamplesAccepted | src/modules/commander/gyro_calibration.cpp:194-209 | A slot that reports one steady reading has that reading as its mean, so a stationary slot 0 passes validation. |
| Sampling.EmptySlotRejected | src/modules/commander/gyro_calibration.cpp:186-203 | A slot with no samples has non-finite offsets after the division, and such a slot 0 always fails validation. |
| CommitStage.CommitFailedStep | src/modules/commander/gyro_calibration.cpp:214-238 | The flag after one more slot is the flag before, OR that slot being eligible with a failed write or a device that does not open. |
| CommitStage.UnwrittenKeyUntouched | src/modules/commander/gyro_calibration.cpp:218-230 | A key changes only by a successful write of an eligible slot. A thin slot's parameters and any key whose set failed keep their old values or stay absent. |
| CommitStage.WrittenKeyHolds | src/modules/commander/gyro_calibration.cpp:223-230 | A successful write of an eligible slot leaves the slot's offset, or its device id, in the store. |
| CommitStage.WrittenIffEligible | src/modules/commander/gyro_calibration.cpp:216-230 | A key is passed to `param_set` exactly when its slot has at least 2500 samples, whatever the earlier writes returned. |
| CommitStage.AppliedIffEligibleAndOpen | src/modules/commander/gyro_calibration.cpp:232-242 | Offsets are applied exactly to eligible slots whose device opens, each with its own offsets. |
| CommitStage.NoApplyKeepsOk | src/modules/commander/gyro_calibration.cpp:236-241 | If no apply is attempted, the commit loop leaves the result code OK. |
| CommitStage.LastApplyDecides | src/modules/commander/gyro_calibration.cpp:241-246 | Otherwise the last attempted apply's result is the result code after the loop. |
| CommitStage.CommitOkIff | src/modules/commander/gyro_calibration.cpp:214-252 | The commit stage leaves OK exactly when the flag stays down and the last apply, if any, returned OK. |
| CommitStage.EarlierApplyFailureMasked | src/modules/commander/gyro_calibration.cpp:241-252 | A failed apply on an earlier slot is masked: with no write or open failure and the last applied slot returning OK, the stage ends OK. |
| CommitStage.LastApplyFailureFailsStage | src/modules/commander/gyro_calibration.cpp:241-252 | A failed apply on the last applied slot fails the stage even with the flag down. |
| Pipeline.OkIffEveryStagePasses | src/modules/commander/gyro_calibration.cpp:126-397 | A run returns OK exactly when: the reset left OK, sampling completed, validation passed, the commit left OK, and the save succeeded. |
| Pipeline.NoCommitBeforeValidation | src/modules/commander/gyro_calibration.cpp:192-253 | A run that does not reach the commit writes no `CAL_GYRO<s>_*` parameter, applies nothing and saves nothing. That covers a failing reset, an abort, a stall and a rejected mean. |
| Pipeline.SavedOnlyAfterCleanCommit | src/modules/commander/gyro_calibration.cpp:381-388 | Parameters are saved exactly when the run reaches the commit and the commit leaves OK. The save's result is then the returned code. |
| Pipeline.AbortFailsRun | src/modules/commander/gyro_calibration.cpp:176-180 | An aborted loop, after 1001 failed polls, makes the run return ERROR. |
| Pipeline.ThinSlotKeepsParams | src/modules/commander/gyro_calibration.cpp:218-221 | A slot with fewer than 2500 samples keeps all four of its parameters as they were. |
| Pipeline.CommittedValueIsMean | src/modules/commander/gyro_calibration.cpp:183-230 | Each parameter written for an eligible slot holds that slot's own finite mean, or its device id. |
| Pipeline.OkRunStoresSlot0Mean | src/modules/commander/gyro_calibration.cpp:143-230 | A run that returns OK sampled exactly 5000 times on slot 0 and stored slot 0's mean on every axis. |

## Left out

- `sleep(2)` is not modelled: it is only a delay.
- The notification text is not modelled. Notifications are abstract `Message` values, in order. The wording and the info/critical level are left out.
- `mcu_unique_id` and the `CAL_BOARD_ID` write are not modelled: their result is discarded and does not affect the run.
- Device and bus I/O are inputs to the model, not modelled. This covers `open`/`close`/`ioctl`, `orb_subscribe_multi`/`orb_check`/`orb_copy`, `poll`, `param_find`/`param_set` and `param_save_default`. Their answers come in as the `Environment`.
- `param_set` is assumed to store the value exactly when it returns OK.
- The second `orb_copy` into `gyro_report_0` is assumed to read the same sample as the first.
- Parameter names built with `sprintf` are (slot, field) keys.
- The scale factors are left out. They stay 1.0 throughout the routine, so only offsets are represented.
- IEEE float rounding is not modelled: sums and means are exact reals, and 0.01f is taken as 0.01.
- NaN and infinity are one non-finite marker. Only a division by a zero counter produces it, because samples are finite reals.
- `unsigned` counter wrap-around is not modelled. Counters stay far below 2^32: slot 0 at 5000, the others below the number of wakes.
- The value of `device_id[s]` for a slot whose device never opened is left undefined by the C code. It is modelled as a `None` device id.
- The `#if 0` scale-calibration block is not modelled: it is never compiled.
- The poll timeout is not modelled. A poll that returns 0 or less is one `PollFailed` wake; the model does not distinguish timeout from error.
- `GyroCalibration.DoGyroCalibration` does not model the case where the poll loop never ends. The trace of wakes is finite, and a loop still waiting when it runs out ends with the `Stalled` outcome.
