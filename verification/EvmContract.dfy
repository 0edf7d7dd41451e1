/** The escrow contract in its own form: storage fields updated in place by three entry points,
    with an external call in the middle of two of them. */
module EvmContract {
  import opened Bytes
  import opened EvmJournal
  import opened Settlement
  import opened EvmEscrow

  class EscrowContract {
    const deployment: Deployment
    var lastId: nat
    var escrows: map<nat, EscrowDB>
    var balance: nat
    var entered: bool
    var block: nat
    var forced: nat
    var history: History<nat, Address>

    function View(): Contract
      reads this
    {
      Contract(lastId, escrows, balance, entered, block, forced, history)
    }

    /** A fresh contract; ether may already sit at its address. */
    constructor (verifier: Address, deployment: Deployment, prefunded: nat, block: nat)
      requires verifier != 0 && deployment.imageId != ZERO_WORD
      ensures this.deployment == deployment
      ensures View() == Genesis(prefunded, block) && Inv(deployment, View())
    {
      this.deployment := deployment;
      lastId, escrows, balance, entered := 0, map[], prefunded, false;
      this.block, forced, history := block, prefunded, [];
      new;
      GenesisSafe(deployment, prefunded, block);
    }

    /** The effect of a revert. */
    method Restore(s: Contract)
      modifies this
      ensures View() == s
    {
      lastId, escrows, balance, entered := s.lastId, s.escrows, s.balance, s.entered;
      block, forced, history := s.block, s.forced, s.history;
    }

    method CreateEscrow(sender: Account, value: U256, recipient: Address, finishAfter: U256, cancelAfter: U256,
                        conditionId: Digest) returns (r: Result<nat, EvmError>)
      modifies this
      ensures var step := CreateStep(old(View()), sender, value, recipient, finishAfter, cancelAfter, conditionId);
              && View() == step.after
              && r == if step.error.None? then Ok(old(lastId) + 1) else Err(step.error.value)
    {
      if recipient == 0 { return Err(InvalidRecipient); }
      if value == 0 { return Err(InsufficientValue); }
      if finishAfter == 0 && cancelAfter == 0 { return Err(TimeLockUnset); }
      if conditionId != ZERO_WORD && cancelAfter == 0 { return Err(ConditionRequiresCancel); }
      if finishAfter != 0 && cancelAfter != 0 && finishAfter >= cancelAfter { return Err(InvalidTimeOrder); }
      if lastId + 1 >= TWO_256 { return Err(IdOverflow); }
      lastId := lastId + 1;
      var e := EscrowDB(sender, recipient, value, finishAfter, cancelAfter, conditionId, false);
      escrows := escrows[lastId := e];
      balance := balance + value;
      history := history + [Opened(block, lastId, DealOf(e))];
      return Ok(lastId);
    }

    method CheckReceipt(e: EscrowDB, id: nat, seal: Bytes, journal: Bytes) returns (r: Outcome<EvmError>)
      ensures r == VerifyReceipt(deployment, block, e, id, seal, journal)
    {
      var binding := CheckJournalBinding(deployment.self, e, id, journal);
      if binding.Fail? { return Fail(BadJournal(binding.error)); }
      if !deployment.verifies(block, seal, deployment.imageId, deployment.sha256(journal)) {
        return Fail(ProofRejected);
      }
      return Pass;
    }

    /** The guards of a finish, in order. */
    method CheckFinish(caller: Account, id: nat, seal: Bytes, journal: Bytes) returns (r: Outcome<EvmError>)
      ensures r == FinishGuard(deployment, View(), caller, id, seal, journal)
    {
      if entered { return Fail(ReentrantCall); }
      var e := Slot(View(), id);
      if e.sender == 0 { return Fail(EscrowNotExists); }
      if caller != e.recipient { return Fail(OnlyRecipient); }
      if e.settled { return Fail(AlreadySettled); }
      if e.finishAfter != 0 && block < e.finishAfter { return Fail(TooEarlyToFinish); }
      if e.conditionId != ZERO_WORD {
        r := CheckReceipt(e, id, seal, journal);
      } else {
        r := Pass;
      }
    }

    method FinishEscrow(caller: Account, id: nat, seal: Bytes, journal: Bytes, payee: Payee)
      returns (error: Option<EvmError>)
      modifies this
      ensures Step(View(), error) == Exec(deployment, old(View()), Finish(caller, id, seal, journal, payee))
      decreases payee, 3
    {
      var check := CheckFinish(caller, id, seal, journal);
      if check.Fail? { return Some(check.error); }
      var before, e := View(), Slot(View(), id);
      entered := true;
      var payout := e.amount;
      escrows := escrows[id := e.(settled := true, amount := 0)];
      history := history + [Released(block, id, e.recipient, payout, seal, journal)];
      var ok := Send(payout, payee);
      if !ok {
        Restore(before);
        return Some(TransferFailed);
      }
      entered := false;
      return None;
    }

    method CancelEscrow(caller: Account, id: nat, payee: Payee) returns (error: Option<EvmError>)
      modifies this
      ensures Step(View(), error) == Exec(deployment, old(View()), Cancel(caller, id, payee))
      decreases payee, 3
    {
      if entered { return Some(ReentrantCall); }
      var e := Slot(View(), id);
      if e.sender == 0 { return Some(EscrowNotExists); }
      if caller != e.sender { return Some(OnlySender); }
      if e.settled { return Some(AlreadySettled); }
      if e.cancelAfter == 0 { return Some(CancelDisabled); }
      if block < e.cancelAfter { return Some(TooEarlyToCancel); }
      var before := View();
      entered := true;
      var refund := e.amount;
      escrows := escrows[id := e.(settled := true, amount := 0)];
      history := history + [Refunded(block, id, e.sender, refund)];
      var ok := Send(refund, payee);
      if !ok {
        Restore(before);
        return Some(TransferFailed);
      }
      entered := false;
      return None;
    }

    /** `call{value}`: the transfer, then whatever the payee runs. */
    method Send(value: nat, payee: Payee) returns (ok: bool)
      modifies this
      ensures ok == (old(balance) >= value && payee.accepts)
      ensures old(balance) >= value ==>
                View() == ExecAll(deployment, old(View()).(balance := old(balance) - value), payee.calls)
      decreases payee, 2
    {
      if balance < value { return false; }
      balance := balance - value;
      RunCalls(payee.calls);
      return payee.accepts;
    }

    method RunCalls(calls: seq<Call>)
      modifies this
      ensures View() == ExecAll(deployment, old(View()), calls)
      decreases calls, 1
    {
      for i := 0 to |calls|
        invariant ExecAll(deployment, View(), calls[i..]) == ExecAll(deployment, old(View()), calls)
      {
        Dispatch(calls[i]);
        assert calls[i..][1..] == calls[i + 1..];
      }
    }

    method Dispatch(c: Call)
      modifies this
      ensures View() == Exec(deployment, old(View()), c).after
      decreases c, 4
    {
      match c
      case Create(caller, value, recipient, finishAfter, cancelAfter, conditionId) =>
        var _ := CreateEscrow(caller, value, recipient, finishAfter, cancelAfter, conditionId);
      case Finish(caller, id, seal, journal, payee) =>
        var _ := FinishEscrow(caller, id, seal, journal, payee);
      case Cancel(caller, id, payee) =>
        var _ := CancelEscrow(caller, id, payee);
      case Force(ether) =>
        balance, forced := balance + ether, forced + ether;
      case Frame(calls, reverts) =>
        var before := View();
        RunCalls(calls);
        if reverts { Restore(before); }
    }
  }
}
