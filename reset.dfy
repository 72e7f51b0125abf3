/** The reset stage: every slot's calibration is set back to zero offsets,
    and each device that opens is sent that reset. The run's result code is
    overwritten by every reset that is sent, so the last opened slot decides
    whether sampling starts. */
module ResetStage {
  import opened GyroTypes

  /** The result code after the reset loop has visited the slots of `o`,
      starting from OK. */
  function ResetRes(o: seq<ResetOracle>): int
  {
    if o == [] then Ok
    else if o[|o| - 1].opens then o[|o| - 1].resetResult
    else ResetRes(o[..|o| - 1])
  }

  /** One FailedReset notification per opened slot whose reset failed, in slot order. */
  function ResetLog(o: seq<ResetOracle>): seq<Message>
  {
    if o == [] then []
    else ResetLog(o[..|o| - 1]) + (if o[|o| - 1].opens && o[|o| - 1].resetResult != Ok then [FailedReset] else [])
  }

  /** The device id recorded for a slot: only an opened device reports one. */
  function DeviceIdAfterReset(r: ResetOracle, before: Option<int>): Option<int>
  {
    if r.opens then Some(r.deviceId) else before
  }

  /** When no device opens, the result code stays OK. */
  lemma {:induction false} NoDeviceKeepsOk(o: seq<ResetOracle>)
    requires forall s :: 0 <= s < |o| ==> !o[s].opens
    ensures ResetRes(o) == Ok
  {
    if o != [] {
      NoDeviceKeepsOk(o[..|o| - 1]);
    }
  }

  /** Otherwise the reset result of the last opened slot is the result code,
      whatever the earlier resets returned. */
  lemma {:induction false} LastOpenedDecides(o: seq<ResetOracle>, s: nat)
    requires s < |o| && o[s].opens
    requires forall u :: s < u < |o| ==> !o[u].opens
    ensures ResetRes(o) == o[s].resetResult
  {
    if s < |o| - 1 {
      LastOpenedDecides(o[..|o| - 1], s);
    }
  }

  /** One FailedReset notification per opened slot whose reset failed, and
      no other notification. */
  lemma {:induction false} ResetLogCountsFailures(o: seq<ResetOracle>)
    ensures |ResetLog(o)| == |set s | 0 <= s < |o| && o[s].opens && o[s].resetResult != Ok|
    ensures forall m :: m in ResetLog(o) ==> m == FailedReset
  {
    if o != [] {
      var p := o[..|o| - 1];
      ResetLogCountsFailures(p);
      var before := set s | 0 <= s < |p| && p[s].opens && p[s].resetResult != Ok;
      var after := set s | 0 <= s < |o| && o[s].opens && o[s].resetResult != Ok;
      if o[|o| - 1].opens && o[|o| - 1].resetResult != Ok {
        assert after == before + {|o| - 1};
      } else {
        assert after == before;
      }
    }
  }
}
