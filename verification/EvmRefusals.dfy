/** Why a call to the Ethereum contract is refused: what each error says about the contract's past. */
module EvmRefusals {
  import opened Bytes
  import opened EvmJournal
  import opened Settlement
  import opened EvmEscrow
  import opened EvmRuns

  /** Some event released or refunded this id. */
  ghost predicate SettledBefore(h: History<nat, Address>, id: nat) {
    exists i: nat :: i < |h| && Settles(h[i], id)
  }

  lemma {:induction false} OpenedAt(h: History<nat, Address>, k: nat) returns (j: nat)
    requires k < |OpenedKeys(h)|
    ensures j < |h| && h[j].Opened? && h[j].key == OpenedKeys(h)[k]
    decreases |h|
  {
    var front := h[..|h| - 1];
    if k < |OpenedKeys(front)| {
      j := OpenedAt(front, k);
    } else {
      j := |h| - 1;
    }
  }

  /** An id is open exactly if it was given out and nothing in the records settled it. */
  lemma OpenMeansUnsettled(d: Deployment, s: Contract, id: nat)
    requires Reachable(d, s)
    ensures id in LiveOf(s.escrows) <==> 1 <= id <= s.lastId && !SettledBefore(s.history, id)
  {
    hide Replay, Held, Honours, AuthOf, LiveOf, OpenedKeys;
    ReachableSafe(d, s);
    var h, auth := s.history, AuthOf(d);
    if id in LiveOf(s.escrows) {
      OpenIsKnown(s, id);
      var j := OpenSince(auth, h, id);
      if i: nat :| i < |h| && Settles(h[i], id) {
        var o := SettlementOrigin(auth, h, i);
        assert false;
      }
    } else if 1 <= id <= s.lastId {
      var j := OpenedAt(h, id - 1);
      OpenIff(auth, h, id);
      var m :| j < m < |h| && h[m].key == id;
      assert !h[m].Opened?;
      assert Settles(h[m], id);
    }
  }

  lemma OpenIsKnown(s: Contract, id: nat)
    requires Storage(s) && id in LiveOf(s.escrows)
    ensures 1 <= id <= s.lastId
  {
  }

  /** Why a finish is refused. The id was never given out; or the caller is not its recipient; or
      the records show it settled; or its finish block lies ahead; or its receipt does not fit it,
      or does not verify; or its payee refuses. */
  lemma FinishErrors(d: Deployment, s: Contract, caller: Account, id: nat, seal: Bytes, journal: Bytes, payee: Payee)
    requires Reachable(d, s)
    ensures var error, e := Exec(d, s, Finish(caller, id, seal, journal, payee)).error, Slot(s, id);
            var known, settled := 1 <= id <= s.lastId, SettledBefore(s.history, id);
            var due := known && caller == e.recipient && !settled && FinishOpen(DealOf(e), s.block);
            var binding, digest := CheckBinding(d.self, e, id, journal), d.sha256(journal);
            var verified := d.verifies(s.block, seal, d.imageId, digest);
            && (error == Some(EscrowNotExists) <==> !known)
            && (error == Some(OnlyRecipient) <==> known && caller != e.recipient)
            && (error == Some(AlreadySettled) <==> known && caller == e.recipient && settled)
            && (error == Some(TooEarlyToFinish) <==>
                  known && caller == e.recipient && !settled && !FinishOpen(DealOf(e), s.block))
            && (forall reason :: error == Some(BadJournal(reason)) <==>
                  due && e.conditionId != ZERO_WORD && binding == Fail(reason))
            && (error == Some(ProofRejected) <==> due && e.conditionId != ZERO_WORD && binding.Pass? && !verified)
            && (error == Some(TransferFailed) <==>
                  due && (e.conditionId != ZERO_WORD ==> binding.Pass? && verified) && !payee.accepts)
  {
    hide CheckBinding, Replay, Held, SettledBefore, Payout, Legal, Numbered, Chronicle;
    ReachableSafe(d, s);
    OpenMeansUnsettled(d, s, id);
    FinishGuardIsLegal(d, s, caller, id, seal, journal);
    if FinishGuard(d, s, caller, id, seal, journal).Pass? {
      PayoutSafe(d, s, id, FinishRecord(s, id, seal, journal), payee);
      PayoutError(d, s, id, FinishRecord(s, id, seal, journal), payee);
    }
  }

  lemma PayoutError(d: Deployment, s: Contract, id: nat, record: Event<nat, Address>, payee: Payee)
    ensures var error := Payout(d, s, id, record, payee).error; error.None? || error == Some(TransferFailed)
  {
  }

  /** Why a cancel is refused, likewise; an escrow without a cancel block says so. */
  lemma CancelErrors(d: Deployment, s: Contract, caller: Account, id: nat, payee: Payee)
    requires Reachable(d, s)
    ensures var error, e := Exec(d, s, Cancel(caller, id, payee)).error, Slot(s, id);
            var known, settled := 1 <= id <= s.lastId, SettledBefore(s.history, id);
            var open := known && caller == e.sender && !settled;
            && (error == Some(EscrowNotExists) <==> !known)
            && (error == Some(OnlySender) <==> known && caller != e.sender)
            && (error == Some(AlreadySettled) <==> known && caller == e.sender && settled)
            && (error == Some(CancelDisabled) <==> open && DealOf(e).cancelAfter.None?)
            && (error == Some(TooEarlyToCancel) <==>
                  open && DealOf(e).cancelAfter.Some? && !CancelOpen(DealOf(e), s.block))
            && (error == Some(TransferFailed) <==> open && CancelOpen(DealOf(e), s.block) && !payee.accepts)
  {
    hide CheckBinding, Replay, Held, SettledBefore, Payout, Legal, Numbered, Chronicle;
    ReachableSafe(d, s);
    OpenMeansUnsettled(d, s, id);
    CancelGuardIsLegal(d, s, caller, id);
    if CancelGuard(s, caller, id).Pass? {
      PayoutSafe(d, s, id, CancelRecord(s, id), payee);
      PayoutError(d, s, id, CancelRecord(s, id), payee);
    }
  }

  /** Why a create is refused, in terms of the deal asked for. */
  lemma CreateErrors(d: Deployment, s: Contract, caller: Account, value: U256, recipient: Address, finishAfter: U256,
                     cancelAfter: U256, conditionId: Digest)
    ensures var error := Exec(d, s, Create(caller, value, recipient, finishAfter, cancelAfter, conditionId)).error;
            var deal := Deal(caller, recipient, value, Lock(finishAfter), Lock(cancelAfter), conditionId);
            var funded := recipient != 0 && value > 0;
            var timed := funded && (deal.finishAfter.Some? || deal.cancelAfter.Some?);
            var lacks := deal.Conditioned() && deal.cancelAfter.None?;
            && (error == Some(InvalidRecipient) <==> recipient == 0)
            && (error == Some(InsufficientValue) <==> recipient != 0 && value == 0)
            && (error == Some(TimeLockUnset) <==> funded && deal.finishAfter.None? && deal.cancelAfter.None?)
            && (error == Some(ConditionRequiresCancel) <==> timed && lacks)
            && (error == Some(InvalidTimeOrder) <==> timed && !lacks && !MayOpen(deal))
            && (error == Some(IdOverflow) <==> recipient != 0 && MayOpen(deal) && s.lastId + 1 >= TWO_256)
  {
    CreateGuardIsMayOpen(caller, value, recipient, finishAfter, cancelAfter, conditionId);
  }
}
