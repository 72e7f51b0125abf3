/** The commit stage: every slot with at least half the target count gets
    its three offsets and its device id written to the parameter store and
    its new offsets applied to the device. Failed writes and devices that do
    not open are gathered into one flag; the result code is overwritten by
    every apply. The functions below describe the stage after the first k
    slots, given each slot's counter, offsets, device id and what the
    outside world answers. */
module CommitStage {
  import opened GyroTypes

  /** A slot is committed only with at least half the target count. */
  predicate Eligible(count: nat)
  {
    count >= CalibrationCount / 2
  }

  function SetOk(o: CommitOracle, f: Field): bool
  {
    match f
    case XOff => o.xSet
    case YOff => o.ySet
    case ZOff => o.zSet
    case Id => o.idSet
  }

  /** The value written to CAL_GYRO<s>_<f>. */
  function ParamFor(f: Field, g: GyroScale, id: Option<int>): ParamValue
  {
    match f
    case XOff => OffsetValue(g.xOffset)
    case YOff => OffsetValue(g.yOffset)
    case ZOff => OffsetValue(g.zOffset)
    case Id => DeviceIdValue(id)
  }

  /** The four keys of a slot, in the order they are written. */
  function SlotKeys(s: nat): seq<ParamKey>
  {
    [CalGyro(s, XOff), CalGyro(s, YOff), CalGyro(s, ZOff), CalGyro(s, Id)]
  }

  /** A slot raises the failure flag when any of its writes fails or its
      device does not open. */
  predicate SlotFails(o: CommitOracle)
  {
    !(o.xSet && o.ySet && o.zSet && o.idSet && o.opens)
  }

  /** param_set on one key: the store takes the value only when the set succeeds. */
  function Write(p: map<ParamKey, ParamValue>, key: ParamKey, v: ParamValue, ok: bool): map<ParamKey, ParamValue>
  {
    if ok then p[key := v] else p
  }

  /** The four writes of slot s, in order. */
  function SlotParams(p: map<ParamKey, ParamValue>, s: nat, g: GyroScale, id: Option<int>, o: CommitOracle): map<ParamKey, ParamValue>
  {
    var p1 := Write(p, CalGyro(s, XOff), ParamFor(XOff, g, id), o.xSet);
    var p2 := Write(p1, CalGyro(s, YOff), ParamFor(YOff, g, id), o.ySet);
    var p3 := Write(p2, CalGyro(s, ZOff), ParamFor(ZOff, g, id), o.zSet);
    Write(p3, CalGyro(s, Id), ParamFor(Id, g, id), o.idSet)
  }

  predicate Shaped(counts: seq<nat>, scales: seq<GyroScale>, ids: seq<Option<int>>, o: seq<CommitOracle>)
  {
    |counts| == |scales| == |ids| == |o|
  }

  /** The parameter store after the first k slots. */
  function CommitParams(p0: map<ParamKey, ParamValue>, counts: seq<nat>, scales: seq<GyroScale>,
                        ids: seq<Option<int>>, o: seq<CommitOracle>, k: nat): map<ParamKey, ParamValue>
    requires Shaped(counts, scales, ids, o) && k <= |o|
  {
    if k == 0 then p0
    else
      var p := CommitParams(p0, counts, scales, ids, o, k - 1);
      if Eligible(counts[k - 1]) then SlotParams(p, k - 1, scales[k - 1], ids[k - 1], o[k - 1]) else p
  }

  /** The keys passed to param_set for the first k slots, in order. */
  function CommitWrites(counts: seq<nat>, k: nat): seq<ParamKey>
    requires k <= |counts|
  {
    if k == 0 then []
    else CommitWrites(counts, k - 1) + (if Eligible(counts[k - 1]) then SlotKeys(k - 1) else [])
  }

  /** The applies attempted for the first k slots: eligible slots whose device opens. */
  function CommitApplies(counts: seq<nat>, scales: seq<GyroScale>, o: seq<CommitOracle>, k: nat): seq<Apply>
    requires |counts| == |scales| == |o| && k <= |o|
  {
    if k == 0 then []
    else
      CommitApplies(counts, scales, o, k - 1)
        + (if Eligible(counts[k - 1]) && o[k - 1].opens then [Apply(k - 1, scales[k - 1])] else [])
  }

  /** The result of the last apply among the first k slots, if any was attempted. */
  function LastApply(counts: seq<nat>, o: seq<CommitOracle>, k: nat): Option<int>
    requires |counts| == |o| && k <= |o|
  {
    if k == 0 then None
    else if Eligible(counts[k - 1]) && o[k - 1].opens then Some(o[k - 1].applyResult)
    else LastApply(counts, o, k - 1)
  }

  /** One FailedApply per apply among the first k slots that did not return OK. */
  function ApplyLog(counts: seq<nat>, o: seq<CommitOracle>, k: nat): seq<Message>
    requires |counts| == |o| && k <= |o|
  {
    if k == 0 then []
    else
      ApplyLog(counts, o, k - 1)
        + (if Eligible(counts[k - 1]) && o[k - 1].opens && o[k - 1].applyResult != Ok then [FailedApply] else [])
  }

  /** The failure flag after the first k slots. */
  predicate CommitFailed(counts: seq<nat>, o: seq<CommitOracle>, k: nat)
    requires |counts| == |o| && k <= |o|
  {
    exists s :: 0 <= s < k && Eligible(counts[s]) && SlotFails(o[s])
  }

  /** The result code after the first k slots, before the failure flag is looked at. */
  function ResAfterApplies(counts: seq<nat>, o: seq<CommitOracle>, k: nat): int
    requires |counts| == |o| && k <= |o|
  {
    match LastApply(counts, o, k)
    case None => Ok
    case Some(r) => r
  }

  /** The result code when the commit stage ends. */
  function CommitRes(counts: seq<nat>, o: seq<CommitOracle>): int
    requires |counts| == |o|
  {
    if CommitFailed(counts, o, |o|) then Error else ResAfterApplies(counts, o, |o|)
  }

  /** The notifications of the commit stage. */
  function CommitLog(counts: seq<nat>, o: seq<CommitOracle>): seq<Message>
    requires |counts| == |o|
  {
    ApplyLog(counts, o, |o|) + (if CommitFailed(counts, o, |o|) then [FailedSetParams] else [])
  }

  // ---------------------------------------------------------------------------
  // Lemmas

  /** The failure flag after one more slot. */
  lemma CommitFailedStep(counts: seq<nat>, o: seq<CommitOracle>, k: nat)
    requires |counts| == |o| && k < |o|
    ensures CommitFailed(counts, o, k + 1) <==> CommitFailed(counts, o, k) || (Eligible(counts[k]) && SlotFails(o[k]))
  {
    if CommitFailed(counts, o, k + 1) && !(Eligible(counts[k]) && SlotFails(o[k])) {
      var s :| 0 <= s < k + 1 && Eligible(counts[s]) && SlotFails(o[s]);
      assert s < k;
    }
  }

  lemma SlotParamsOnly(p: map<ParamKey, ParamValue>, s: nat, g: GyroScale, id: Option<int>, o: CommitOracle, key: ParamKey)
    ensures var q := SlotParams(p, s, g, id, o);
      if key.slot == s && SetOk(o, key.field) then key in q && q[key] == ParamFor(key.field, g, id)
      else (key in q <==> key in p) && (key in p ==> q[key] == p[key])
  {
  }

  /** A key changes only through a successful write of an eligible slot:
      the parameters of a slot with too few samples, and any key whose
      param_set failed, keep their previous values. */
  lemma {:induction false} UnwrittenKeyUntouched(p0: map<ParamKey, ParamValue>, counts: seq<nat>, scales: seq<GyroScale>,
                                                 ids: seq<Option<int>>, o: seq<CommitOracle>, k: nat, key: ParamKey)
    requires Shaped(counts, scales, ids, o) && k <= |o|
    requires !(key.slot < k && Eligible(counts[key.slot]) && SetOk(o[key.slot], key.field))
    ensures var p := CommitParams(p0, counts, scales, ids, o, k);
      (key in p <==> key in p0) && (key in p0 ==> p[key] == p0[key])
  {
    if k > 0 {
      UnwrittenKeyUntouched(p0, counts, scales, ids, o, k - 1, key);
      if Eligible(counts[k - 1]) {
        SlotParamsOnly(CommitParams(p0, counts, scales, ids, o, k - 1), k - 1, scales[k - 1], ids[k - 1], o[k - 1], key);
      }
    }
  }

  /** An eligible slot's successful write leaves its value in the store:
      the slot's offset or its device id. */
  lemma {:induction false} WrittenKeyHolds(p0: map<ParamKey, ParamValue>, counts: seq<nat>, scales: seq<GyroScale>,
                                           ids: seq<Option<int>>, o: seq<CommitOracle>, k: nat, key: ParamKey)
    requires Shaped(counts, scales, ids, o) && k <= |o|
    requires key.slot < k && Eligible(counts[key.slot]) && SetOk(o[key.slot], key.field)
    ensures var p := CommitParams(p0, counts, scales, ids, o, k);
      key in p && p[key] == ParamFor(key.field, scales[key.slot], ids[key.slot])
  {
    var p := CommitParams(p0, counts, scales, ids, o, k - 1);
    if key.slot < k - 1 {
      WrittenKeyHolds(p0, counts, scales, ids, o, k - 1, key);
    }
    if Eligible(counts[k - 1]) {
      SlotParamsOnly(p, k - 1, scales[k - 1], ids[k - 1], o[k - 1], key);
    }
  }

  /** Every key of every eligible slot is passed to param_set, whatever the
      earlier writes returned, and no key of any other slot is. */
  lemma {:induction false} WrittenIffEligible(counts: seq<nat>, k: nat, key: ParamKey)
    requires k <= |counts|
    ensures key in CommitWrites(counts, k) <==> key.slot < k && Eligible(counts[key.slot])
  {
    if k > 0 {
      WrittenIffEligible(counts, k - 1, key);
      var ks := SlotKeys(k - 1);
      if key.slot == k - 1 {
        match key.field
        case XOff => assert ks[0] == key;
        case YOff => assert ks[1] == key;
        case ZOff => assert ks[2] == key;
        case Id => assert ks[3] == key;
      }
    }
  }

  /** Offsets are applied exactly to the eligible slots whose device opens,
      each with that slot's own offsets. */
  lemma {:induction false} AppliedIffEligibleAndOpen(counts: seq<nat>, scales: seq<GyroScale>, o: seq<CommitOracle>, k: nat, a: Apply)
    requires |counts| == |scales| == |o| && k <= |o|
    ensures a in CommitApplies(counts, scales, o, k) <==>
      a.slot < k && Eligible(counts[a.slot]) && o[a.slot].opens && a.scale == scales[a.slot]
  {
    if k > 0 {
      AppliedIffEligibleAndOpen(counts, scales, o, k - 1, a);
    }
  }

  /** When no apply is attempted the result code stays OK. */
  lemma {:induction false} NoApplyKeepsOk(counts: seq<nat>, o: seq<CommitOracle>, k: nat)
    requires |counts| == |o| && k <= |o|
    requires forall s :: 0 <= s < k ==> !(Eligible(counts[s]) && o[s].opens)
    ensures ResAfterApplies(counts, o, k) == Ok
  {
    if k > 0 {
      NoApplyKeepsOk(counts, o, k - 1);
    }
  }

  /** Otherwise the last attempted apply decides the result code: a failed
      apply on an earlier slot is masked by a later one. */
  lemma {:induction false} LastApplyDecides(counts: seq<nat>, o: seq<CommitOracle>, k: nat, s: nat)
    requires |counts| == |o| && s < k <= |o|
    requires Eligible(counts[s]) && o[s].opens
    requires forall u :: s < u < k ==> !(Eligible(counts[u]) && o[u].opens)
    ensures ResAfterApplies(counts, o, k) == o[s].applyResult
  {
    if s < k - 1 {
      LastApplyDecides(counts, o, k - 1, s);
    }
  }

  /** The commit stage keeps the run OK exactly when no write failed, every
      eligible device opened, and the last attempted apply (if any) returned OK. */
  lemma CommitOkIff(counts: seq<nat>, o: seq<CommitOracle>)
    requires |counts| == |o|
    ensures CommitRes(counts, o) == Ok <==>
      !CommitFailed(counts, o, |o|) && (LastApply(counts, o, |o|).None? || LastApply(counts, o, |o|) == Some(Ok))
  {
  }

  /** An apply that fails on an earlier slot is masked when a later slot's
      apply succeeds: with every write succeeding and every eligible device
      opening, the stage ends OK whatever the earlier applies returned. */
  lemma EarlierApplyFailureMasked(counts: seq<nat>, o: seq<CommitOracle>, s: nat)
    requires |counts| == |o| && s < |o|
    requires forall u :: 0 <= u < |o| ==> !(Eligible(counts[u]) && SlotFails(o[u]))
    requires Eligible(counts[s]) && o[s].opens && o[s].applyResult == Ok
    requires forall u :: s < u < |o| ==> !Eligible(counts[u])
    ensures CommitRes(counts, o) == Ok
  {
    LastApplyDecides(counts, o, |o|, s);
  }

  /** Conversely a failed apply on the last applied slot fails the stage
      even though the failure flag stays down. */
  lemma LastApplyFailureFailsStage(counts: seq<nat>, o: seq<CommitOracle>, s: nat)
    requires |counts| == |o| && s < |o|
    requires Eligible(counts[s]) && o[s].opens && o[s].applyResult != Ok
    requires forall u :: s < u < |o| ==> !Eligible(counts[u])
    ensures CommitRes(counts, o) != Ok
  {
    LastApplyDecides(counts, o, |o|, s);
  }
}
