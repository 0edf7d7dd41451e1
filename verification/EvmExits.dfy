/** Which Ethereum escrows can always be settled, and which never can. */
module EvmExits {
  import opened Bytes
  import opened EvmJournal
  import opened Settlement
  import opened EvmEscrow
  import opened EvmRuns

  // ---------------------------------------------------------------- no stranded funds

  function ExitCall(acts: Actors<Address>, id: nat, deal: Deal<Address>, payee: Payee): Call
    requires deal.sender != 0 && deal.recipient != 0
  {
    if ExitsByRefund(acts, deal) then Cancel(deal.sender, id, payee) else Finish(deal.recipient, id, [], [], payee)
  }

  /** An open escrow keeps its terms through any run that leaves it open. */
  lemma TermsStand(d: Deployment, s: Contract, more: seq<Tx>, id: nat)
    requires Reachable(d, s) && id in LiveOf(s.escrows) && id in LiveOf(Run(d, s, more).escrows)
    ensures Reachable(d, Run(d, s, more))
    ensures LiveOf(Run(d, s, more).escrows)[id] == LiveOf(s.escrows)[id] && MayOpen(LiveOf(s.escrows)[id])
  {
    hide Run, Replay;
    ReachableSafe(d, s);
    RunSafe(d, s, more);
    ReachableRun(d, s, more);
    var t, auth := Run(d, s, more), AuthOf(d);
    var j := OpenSince(auth, s.history, id);
    var j' := OpenSince(auth, t.history, id);
    assert s.history[j] == t.history[j];
    assert j == j';
  }

  /** No stranded funds: an escrow with an exit keeps its terms whatever other accounts do, and
      from its exit block on a call that needs no proof, by an account that can act, settles it
      for the deposited amount, failing only if its own payee refuses the ether. */
  lemma NoStrandedFunds(d: Deployment, acts: Actors<Address>, s: Contract, more: seq<Tx>, id: nat, payee: Payee)
    requires Reachable(d, s) && id in LiveOf(s.escrows) && HasExit(acts, LiveOf(s.escrows)[id])
    requires var t := Run(d, s, more);
             id in LiveOf(t.escrows) && t.block >= ExitBlock(acts, LiveOf(s.escrows)[id])
    ensures var t, deal := Run(d, s, more), LiveOf(s.escrows)[id];
            && LiveOf(t.escrows)[id] == deal && deal.sender != 0 && deal.recipient != 0
            && var step := Exec(d, t, ExitCall(acts, id, deal, payee));
               && (step.error.None? <==> payee.accepts)
               && (payee.accepts ==> SettledBy(t, step.after, Exit(acts, id, deal, t.block)))
    ensures ReachableBy(d, acts, s) ==> acts(ExitCall(acts, id, LiveOf(s.escrows)[id], payee).caller)
  {
    hide Run, Exec, Replay;
    ReachableSafe(d, s);
    TermsStand(d, s, more, id);
    var t, deal := Run(d, s, more), LiveOf(s.escrows)[id];
    if ExitsByRefund(acts, deal) {
      CancelSucceedsIff(d, t, deal.sender, id, payee);
    } else {
      FinishSucceedsIff(d, t, deal.recipient, id, [], [], payee);
    }
    if ReachableBy(d, acts, s) {
      SendersAct(d, acts, s);
    }
  }

  // ---------------------------------------------------------------- when there is no exit

  /** Every call in the tree is made by an account that can act. The contract itself cannot, nor
      can an address with neither a key nor code that calls. */
  predicate MadeBy(acts: Actors<Address>, c: Call)
    decreases c, 1
  {
    match c
    case Create(caller, _, _, _, _, _) => acts(caller)
    case Finish(caller, _, _, _, payee) => acts(caller) && AllMadeBy(acts, payee.calls)
    case Cancel(caller, _, payee) => acts(caller) && AllMadeBy(acts, payee.calls)
    case Force(_) => true
    case Frame(calls, _) => AllMadeBy(acts, calls)
  }

  predicate AllMadeBy(acts: Actors<Address>, calls: seq<Call>)
    decreases calls, 0
  {
    calls == [] || (MadeBy(acts, calls[0]) && AllMadeBy(acts, calls[1..]))
  }

  predicate Issuable(acts: Actors<Address>, txs: seq<Tx>) {
    forall tx | tx in txs && tx.Transact? :: MadeBy(acts, tx.call)
  }

  /** The states reachable by runs of such calls. */
  ghost predicate ReachableBy(d: Deployment, acts: Actors<Address>, s: Contract) {
    exists prefunded: nat, block: nat, txs: seq<Tx> ::
      Run(d, Genesis(prefunded, block), txs) == s && Issuable(acts, txs)
  }

  predicate ActingSenders(acts: Actors<Address>, s: Contract) {
    forall id | id in s.escrows :: acts(s.escrows[id].sender)
  }

  lemma {:induction false} CallKeepsSenders(d: Deployment, acts: Actors<Address>, s: Contract, c: Call)
    requires MadeBy(acts, c) && ActingSenders(acts, s)
    ensures ActingSenders(acts, Exec(d, s, c).after)
    decreases c, 1
  {
    hide VerifyReceipt, CheckBinding;
    match c {
      case Create(_, _, _, _, _, _) =>
      case Finish(caller, id, seal, journal, payee) =>
        if FinishGuard(d, s, caller, id, seal, journal).Pass? && s.balance >= Slot(s, id).amount {
          CallsKeepSenders(d, acts, PayingOut(s, id, FinishRecord(s, id, seal, journal)), payee.calls);
        }
      case Cancel(caller, id, payee) =>
        if CancelGuard(s, caller, id).Pass? && s.balance >= Slot(s, id).amount {
          CallsKeepSenders(d, acts, PayingOut(s, id, CancelRecord(s, id)), payee.calls);
        }
      case Force(_) =>
      case Frame(calls, _) =>
        CallsKeepSenders(d, acts, s, calls);
    }
  }

  lemma {:induction false} CallsKeepSenders(d: Deployment, acts: Actors<Address>, s: Contract, calls: seq<Call>)
    requires AllMadeBy(acts, calls) && ActingSenders(acts, s)
    ensures ActingSenders(acts, ExecAll(d, s, calls))
    decreases calls, 0
  {
    if calls != [] {
      CallKeepsSenders(d, acts, s, calls[0]);
      CallsKeepSenders(d, acts, Exec(d, s, calls[0]).after, calls[1..]);
    }
  }

  lemma {:induction false} RunKeepsSenders(d: Deployment, acts: Actors<Address>, s: Contract, txs: seq<Tx>)
    requires Issuable(acts, txs) && ActingSenders(acts, s)
    ensures ActingSenders(acts, Run(d, s, txs))
  {
    hide Exec;
    if txs != [] {
      var front, tx := txs[..|txs| - 1], txs[|txs| - 1];
      RunKeepsSenders(d, acts, s, front);
      assert tx in txs;
      if tx.Transact? {
        CallKeepsSenders(d, acts, Run(d, s, front), tx.call);
      }
    }
  }

  lemma SendersAct(d: Deployment, acts: Actors<Address>, s: Contract)
    requires ReachableBy(d, acts, s)
    ensures Reachable(d, s) && ActingSenders(acts, s)
  {
    var prefunded: nat, block: nat, txs: seq<Tx> :|
      Run(d, Genesis(prefunded, block), txs) == s && Issuable(acts, txs);
    RunKeepsSenders(d, acts, Genesis(prefunded, block), txs);
  }

  /** The recipient cannot act and nobody may cancel. */
  predicate Stuck(acts: Actors<Address>, s: Contract, id: nat) {
    && id in s.escrows && id <= s.lastId && s.escrows[id].sender != 0 && !s.escrows[id].settled
    && !acts(s.escrows[id].recipient) && s.escrows[id].cancelAfter == 0
  }

  lemma {:induction false} CallKeepsStuck(d: Deployment, acts: Actors<Address>, s: Contract, c: Call, id: nat)
    requires MadeBy(acts, c) && Stuck(acts, s, id)
    ensures Stuck(acts, Exec(d, s, c).after, id) && Exec(d, s, c).after.escrows[id] == s.escrows[id]
    decreases c, 1
  {
    hide VerifyReceipt, CheckBinding;
    match c {
      case Create(_, _, _, _, _, _) =>
      case Finish(caller, id', seal, journal, payee) =>
        if FinishGuard(d, s, caller, id', seal, journal).Pass? && s.balance >= Slot(s, id').amount {
          CallsKeepStuck(d, acts, PayingOut(s, id', FinishRecord(s, id', seal, journal)), payee.calls, id);
        }
      case Cancel(caller, id', payee) =>
        if CancelGuard(s, caller, id').Pass? && s.balance >= Slot(s, id').amount {
          CallsKeepStuck(d, acts, PayingOut(s, id', CancelRecord(s, id')), payee.calls, id);
        }
      case Force(_) =>
      case Frame(calls, _) =>
        CallsKeepStuck(d, acts, s, calls, id);
    }
  }

  lemma {:induction false} CallsKeepStuck(d: Deployment, acts: Actors<Address>, s: Contract, calls: seq<Call>, id: nat)
    requires AllMadeBy(acts, calls) && Stuck(acts, s, id)
    ensures Stuck(acts, ExecAll(d, s, calls), id) && ExecAll(d, s, calls).escrows[id] == s.escrows[id]
    decreases calls, 0
  {
    if calls != [] {
      CallKeepsStuck(d, acts, s, calls[0], id);
      CallsKeepStuck(d, acts, Exec(d, s, calls[0]).after, calls[1..], id);
    }
  }

  /** An escrow for an account that cannot act, which nobody may cancel, stays open, on the same terms,
      through every run of calls by those that can. */
  lemma {:induction false} StuckForever(d: Deployment, acts: Actors<Address>, s: Contract, txs: seq<Tx>, id: nat)
    requires Issuable(acts, txs) && Stuck(acts, s, id)
    ensures Stuck(acts, Run(d, s, txs), id) && Run(d, s, txs).escrows[id] == s.escrows[id]
  {
    hide Exec;
    if txs != [] {
      var front, tx := txs[..|txs| - 1], txs[|txs| - 1];
      StuckForever(d, acts, s, front, id);
      assert tx in txs;
      if tx.Transact? {
        CallKeepsStuck(d, acts, Run(d, s, front), tx.call, id);
      }
    }
  }

  /** The shortest way out: wait for the exit block, then make the exit call. */
  function WayOut(acts: Actors<Address>, id: nat, deal: Deal<Address>): seq<Tx>
    requires deal.sender != 0 && deal.recipient != 0
  {
    [Mine(ExitBlock(acts, deal)), Transact(ExitCall(acts, id, deal, Payee([], true)))]
  }

  lemma WayOutWorks(d: Deployment, acts: Actors<Address>, s: Contract, id: nat)
    requires ReachableBy(d, acts, s) && id in LiveOf(s.escrows) && HasExit(acts, LiveOf(s.escrows)[id])
    ensures var deal := LiveOf(s.escrows)[id];
            && deal.sender != 0 && deal.recipient != 0 && Issuable(acts, WayOut(acts, id, deal))
            && id !in LiveOf(Run(d, s, WayOut(acts, id, deal)).escrows)
  {
    hide Exec, Replay, Held, ActingSenders, Chronicle;
    SendersAct(d, acts, s);
    ReachableSafe(d, s);
    var deal := LiveOf(s.escrows)[id];
    var wait, way := [Mine(ExitBlock(acts, deal))], WayOut(acts, id, deal);
    assert wait[..0] == [] && way[..1] == wait;
    assert Run(d, s, wait) == s.(block := s.block + ExitBlock(acts, deal));
    NoStrandedFunds(d, acts, s, wait, id, Payee([], true));
    assert MadeBy(acts, way[1].call);
  }

  /** Exactly the escrows with an exit can ever be settled: some run of calls by accounts that can
      act settles an open escrow if and only if its recipient can act or it can be cancelled. */
  lemma ExitExistsIff(d: Deployment, acts: Actors<Address>, s: Contract, id: nat)
    requires ReachableBy(d, acts, s) && id in LiveOf(s.escrows)
    ensures (exists txs: seq<Tx> :: Issuable(acts, txs) && id !in LiveOf(Run(d, s, txs).escrows)) <==>
            HasExit(acts, LiveOf(s.escrows)[id])
  {
    hide Run, Exec, Replay;
    SendersAct(d, acts, s);
    ReachableSafe(d, s);
    var deal := LiveOf(s.escrows)[id];
    if HasExit(acts, deal) {
      WayOutWorks(d, acts, s, id);
      assert id !in LiveOf(Run(d, s, WayOut(acts, id, deal)).escrows);
    } else {
      forall txs: seq<Tx> | Issuable(acts, txs) ensures id in LiveOf(Run(d, s, txs).escrows) {
        StuckForever(d, acts, s, txs, id);
      }
    }
  }

  /** Such an escrow can be created: the contract takes any non-zero recipient, its own address
      included, and what is deposited for one that cannot act, with no cancel block, never leaves. */
  lemma StrandedEscrow(d: Deployment, acts: Actors<Address>, caller: Account, recipient: Account)
    requires acts(caller) && !acts(recipient)
    ensures var s := Exec(d, Genesis(0, 0), Create(caller, 1, recipient, 1, 0, ZERO_WORD)).after;
            && ReachableBy(d, acts, s) && 1 in LiveOf(s.escrows) && LiveOf(s.escrows)[1].amount == 1
            && forall txs: seq<Tx> | Issuable(acts, txs) :: 1 in LiveOf(Run(d, s, txs).escrows)
  {
    var create := Create(caller, 1, recipient, 1, 0, ZERO_WORD);
    var s, txs := Exec(d, Genesis(0, 0), create).after, [Transact(create)];
    assert txs[..0] == [];
    assert Run(d, Genesis(0, 0), txs) == s && Issuable(acts, txs);
    forall txs: seq<Tx> | Issuable(acts, txs) ensures 1 in LiveOf(Run(d, s, txs).escrows) {
      StuckForever(d, acts, s, txs, 1);
    }
  }
}
