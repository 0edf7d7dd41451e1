/** What holds over whole runs of the Ethereum contract. */
module EvmRuns {
  import opened Bytes
  import opened Journal
  import opened EvmJournal
  import opened Settlement
  import opened EvmEscrow

  datatype Tx = Mine(blocks: nat) | Transact(call: Call)

  function Apply(d: Deployment, s: Contract, tx: Tx): Contract {
    match tx
    case Mine(blocks) => s.(block := s.block + blocks)
    case Transact(call) => Exec(d, s, call).after
  }

  function Run(d: Deployment, s: Contract, txs: seq<Tx>): Contract {
    if txs == [] then s else Apply(d, Run(d, s, txs[..|txs| - 1]), txs[|txs| - 1])
  }

  lemma {:induction false} RunSafe(d: Deployment, s: Contract, txs: seq<Tx>)
    requires Inv(d, s) && !s.entered
    ensures var t := Run(d, s, txs);
            Inv(d, t) && !t.entered && s.history <= t.history && s.block <= t.block && s.lastId <= t.lastId
  {
    hide Exec, Replay, Legal, Numbered, Held;
    if txs != [] {
      RunSafe(d, s, txs[..|txs| - 1]);
      var before, tx := Run(d, s, txs[..|txs| - 1]), txs[|txs| - 1];
      if tx.Transact? {
        ExecSafe(d, before, tx.call);
      }
    }
  }

  /** The states a deployed contract can be in between transactions. */
  ghost predicate Reachable(d: Deployment, s: Contract) {
    exists prefunded: nat, block: nat, txs: seq<Tx> :: Run(d, Genesis(prefunded, block), txs) == s
  }

  lemma ReachableSafe(d: Deployment, s: Contract)
    requires Reachable(d, s)
    ensures Inv(d, s) && !s.entered
  {
    var prefunded: nat, block: nat, txs: seq<Tx> :| Run(d, Genesis(prefunded, block), txs) == s;
    GenesisSafe(d, prefunded, block);
    RunSafe(d, Genesis(prefunded, block), txs);
  }

  /** Ids count the openings: `lastId` is their number, the k-th opened escrow has id k, and these
      are the ids on record. */
  lemma IdsCountOpenings(d: Deployment, s: Contract)
    requires Reachable(d, s)
    ensures |OpenedKeys(s.history)| == s.lastId
    ensures forall k | 0 <= k < s.lastId :: OpenedKeys(s.history)[k] == k + 1
    ensures forall id :: id in s.escrows <==> 1 <= id <= s.lastId
  {
    ReachableSafe(d, s);
  }

  // ---------------------------------------------------------------- solvency

  /** The contract can pay everyone it owes; only forced ether is in excess. */
  ghost predicate Solvent(s: Contract) {
    && s.balance >= Held(LiveOf(s.escrows))
    && s.balance == Held(LiveOf(s.escrows)) + s.forced
    && (forall id | id in s.escrows && s.escrows[id].settled :: s.escrows[id].amount == 0)
    && Deposited(s.history) == Held(LiveOf(s.escrows)) + PaidOut(s.history) + PaidBack(s.history)
  }

  /** Solvency in every reachable state and at every point inside the next transaction,
      whatever its payees do. */
  lemma SolventThroughout(d: Deployment, s: Contract, c: Call)
    requires Reachable(d, s)
    ensures Solvent(s)
    ensures forall p | p in Points(d, s, c) :: Solvent(p)
  {
    ReachableSafe(d, s);
    Conservation(AuthOf(d), s.history);
    ExecSafe(d, s, c);
    forall p | p in Points(d, s, c) ensures Solvent(p) {
      assert Follows(d, s, p);
      Conservation(AuthOf(d), p.history);
    }
  }

  // ---------------------------------------------------------------- settled at most once

  /** Each settlement is of the one opening of its id, with the opening's own terms. */
  lemma PayoutsAreOwed(d: Deployment, s: Contract, i: nat) returns (j: nat)
    requires Reachable(d, s) && i < |s.history| && !s.history[i].Opened?
    ensures j < i && s.history[j].Opened? && s.history[j].key == s.history[i].key
    ensures Honours(AuthOf(d), s.history[j].deal, s.history[i])
    ensures forall m | 0 <= m < |s.history| && m != i && m != j :: s.history[m].key != s.history[i].key
  {
    ReachableSafe(d, s);
    var h, auth := s.history, AuthOf(d);
    j := SettlementOrigin(auth, h, i);
    forall m | 0 <= m < |h| && m != i && m != j ensures h[m].key != h[i].key {
      if h[m].key == h[i].key && !h[m].Opened? {
        if m < i {
          var j' := SettledOncePerOpening(auth, h, m, i);
          var o := SettlementOrigin(auth, h, m);
        } else {
          var j' := SettledOncePerOpening(auth, h, i, m);
        }
      }
    }
  }

  /** No release before the finish block, no refund before the cancel block, and until then
      every settlement goes to the recipient. */
  lemma WindowsRespected(d: Deployment, s: Contract, i: nat) returns (j: nat)
    requires Reachable(d, s) && i < |s.history| && !s.history[i].Opened?
    ensures j < i && s.history[j].Opened? && s.history[j].key == s.history[i].key
    ensures s.history[i].at >= s.history[j].deal.finishAfter.GetOr(0)
    ensures s.history[j].deal.cancelAfter.None? || s.history[i].at < s.history[j].deal.cancelAfter.value
            ==> s.history[i].Released? && s.history[i].to == s.history[j].deal.recipient
  {
    ReachableSafe(d, s);
    j := NoSettlementOutsideWindow(AuthOf(d), s.history, i);
  }

  ghost predicate ReleasedByProof(h: History<nat, Address>, i: nat) {
    && i < |h| && h[i].Released?
    && exists j :: 0 <= j < i && h[j].Opened? && h[j].key == h[i].key && h[j].deal.Conditioned()
  }

  lemma ProofReleaseBinds(d: Deployment, s: Contract, i: nat) returns (j: nat)
    requires Reachable(d, s) && ReleasedByProof(s.history, i)
    ensures j < i && s.history[j].Opened? && s.history[j].key == s.history[i].key
    ensures s.history[j].deal.Conditioned()
    ensures var r := s.history[i];
            VerifyReceipt(d, r.at, EscrowOf(s.history[j].deal), r.key, r.seal, r.journal).Pass?
  {
    j := PayoutsAreOwed(d, s, i);
  }

  /** Two proof releases, of any two contracts in any two runs, rest on one journal exactly when
      the contracts' addresses, the ids, the parties, the amounts and the conditions agree. The
      journal says nothing else: not the network, the image, or the locks. */
  lemma JournalsAgreeIff(d: Deployment, s: Contract, i: nat, d': Deployment, s': Contract, i': nat)
    returns (j: nat, j': nat)
    requires Reachable(d, s) && ReleasedByProof(s.history, i)
    requires Reachable(d', s') && ReleasedByProof(s'.history, i')
    ensures j < i && s.history[j].Opened? && s.history[j].key == s.history[i].key
    ensures j' < i' && s'.history[j'].Opened? && s'.history[j'].key == s'.history[i'].key
    ensures var deal, deal' := s.history[j].deal, s'.history[j'].deal;
            s.history[i].journal == s'.history[i'].journal <==>
            && d.self == d'.self && s.history[i].key == s'.history[i'].key
            && deal.sender == deal'.sender && deal.recipient == deal'.recipient
            && deal.amount == deal'.amount && deal.condition == deal'.condition
  {
    hide CheckBinding, Encode, Reachable;
    j := ProofReleaseBinds(d, s, i);
    j' := ProofReleaseBinds(d', s', i');
    var id, id' := s.history[i].key, s'.history[i'].key;
    var e, e' := EscrowOf(s.history[j].deal), EscrowOf(s'.history[j'].deal);
    ParserRefinesEncoder(d.self, e, id, s.history[i].journal);
    ParserRefinesEncoder(d'.self, e', id', s'.history[i'].journal);
    if s.history[i].journal == s'.history[i'].journal {
      JournalBindsOneEscrow(d.self, e, id, d'.self, e', id', s.history[i].journal);
    }
  }

  /** A journal settles at most once over a whole run of one contract. */
  lemma JournalSettlesOnce(d: Deployment, s: Contract, i: nat, i': nat)
    requires Reachable(d, s) && i < i'
    requires ReleasedByProof(s.history, i) && ReleasedByProof(s.history, i')
    ensures s.history[i].journal != s.history[i'].journal
  {
    var j, j' := JournalsAgreeIff(d, s, i, d, s, i');
    var o := PayoutsAreOwed(d, s, i);
  }

  // ---------------------------------------------------------------- what each call needs and does

  /** A finish succeeds exactly when the abstract machine allows the release and the payee takes
      the money; it then records that release, and besides it only new openings. */
  lemma FinishSucceedsIff(d: Deployment, s: Contract, caller: Account, id: nat, seal: Bytes, journal: Bytes,
                          payee: Payee)
    requires Reachable(d, s)
    ensures var step := Exec(d, s, Finish(caller, id, seal, journal, payee));
            var live := LiveOf(s.escrows);
            && (step.error.None? <==>
                  && id in live && caller == live[id].recipient && FinishOpen(live[id], s.block)
                  && (live[id].Conditioned() ==> AuthOf(d)(s.block, id, live[id], seal, journal))
                  && payee.accepts)
            && (step.error.None? ==>
                  SettledBy(s, step.after, Released(s.block, id, caller, live[id].amount, seal, journal)))
            && (step.error.Some? ==> step.after == s)
  {
    ReachableSafe(d, s);
    FinishGuardIsLegal(d, s, caller, id, seal, journal);
    if FinishGuard(d, s, caller, id, seal, journal).Pass? {
      var record := FinishRecord(s, id, seal, journal);
      PayoutSafe(d, s, id, record, payee);
      if payee.accepts {
        PayoutRecords(d, s, id, record, payee);
      }
    }
  }

  /** A create succeeds exactly under the abstract machine's rule, for a real recipient, while
      ids last; it records one opening under a fresh id. */
  lemma CreateSucceedsIff(d: Deployment, s: Contract, caller: Account, value: U256, recipient: Address,
                          finishAfter: U256, cancelAfter: U256, conditionId: Digest)
    requires Reachable(d, s)
    ensures var step := Exec(d, s, Create(caller, value, recipient, finishAfter, cancelAfter, conditionId));
            var deal := Deal(caller, recipient, value, Lock(finishAfter), Lock(cancelAfter), conditionId);
            && (step.error.None? <==> MayOpen(deal) && recipient != 0 && s.lastId + 1 < TWO_256)
            && (step.error.Some? ==> step.after == s)
            && (step.error.None? ==>
                  && step.after.history == s.history + [Opened(s.block, s.lastId + 1, deal)]
                  && s.lastId + 1 !in s.escrows
                  && step.after.lastId == s.lastId + 1
                  && step.after.escrows == s.escrows[s.lastId + 1 :=
                       EscrowDB(caller, recipient, value, finishAfter, cancelAfter, conditionId, false)]
                  && LiveOf(step.after.escrows) == LiveOf(s.escrows)[s.lastId + 1 := deal]
                  && step.after.balance == s.balance + value && step.after.forced == s.forced)
  {
    ReachableSafe(d, s);
    CreateGuardIsMayOpen(caller, value, recipient, finishAfter, cancelAfter, conditionId);
    var e := EscrowDB(caller, recipient, value, finishAfter, cancelAfter, conditionId, false);
    if recipient != 0 {
      CreatedLive(s, e);
    }
  }

  lemma CancelSucceedsIff(d: Deployment, s: Contract, caller: Account, id: nat, payee: Payee)
    requires Reachable(d, s)
    ensures var step := Exec(d, s, Cancel(caller, id, payee));
            var live := LiveOf(s.escrows);
            && (step.error.None? <==>
                  id in live && caller == live[id].sender && CancelOpen(live[id], s.block) && payee.accepts)
            && (step.error.None? ==> SettledBy(s, step.after, Refunded(s.block, id, caller, live[id].amount)))
            && (step.error.Some? ==> step.after == s)
  {
    ReachableSafe(d, s);
    CancelGuardIsLegal(d, s, caller, id);
    if CancelGuard(s, caller, id).Pass? {
      var record := CancelRecord(s, id);
      PayoutSafe(d, s, id, record, payee);
      if payee.accepts {
        PayoutRecords(d, s, id, record, payee);
      }
    }
  }

  /** The settlement happened, was recorded first, and nothing but openings came with it; the
      settled record changed only in being settled and emptied, the others not at all. */
  predicate SettledBy(s: Contract, t: Contract, record: Event<nat, Address>) {
    && |s.history| < |t.history| && s.history <= t.history
    && t.history[|s.history|] == record
    && (forall i | |s.history| < i < |t.history| :: t.history[i].Opened?)
    && record.key in s.escrows && record.key in t.escrows
    && t.escrows[record.key] == s.escrows[record.key].(settled := true, amount := 0)
    && (forall id | id in s.escrows && id != record.key :: id in t.escrows && t.escrows[id] == s.escrows[id])
    && !t.entered
  }

  lemma PayoutRecords(d: Deployment, s: Contract, id: nat, record: Event<nat, Address>, payee: Payee)
    requires id in s.escrows && Storage(s)
    requires record.key == id && s.balance >= Slot(s, id).amount && payee.accepts
    ensures SettledBy(s, Payout(d, s, id, record, payee).after, record)
  {
    var paying := PayingOut(s, id, record);
    LockedAllOnlyOpens(d, paying, payee.calls);
    assert paying.history[|s.history|] == record;
    assert s.history <= paying.history;
  }

  // ---------------------------------------------------------------- the recipient's window

  lemma {:induction false} RunExtends(d: Deployment, s: Contract, txs: seq<Tx>, more: seq<Tx>)
    ensures Run(d, Run(d, s, txs), more) == Run(d, s, txs + more)
    decreases |more|
  {
    if more == [] {
      assert txs + more == txs;
    } else {
      RunExtends(d, s, txs, more[..|more| - 1]);
      assert (txs + more)[..|txs + more| - 1] == txs + more[..|more| - 1];
    }
  }

  lemma ReachableRun(d: Deployment, s: Contract, txs: seq<Tx>)
    requires Reachable(d, s)
    ensures Reachable(d, Run(d, s, txs))
  {
    var prefunded: nat, block: nat, txs': seq<Tx> :| Run(d, Genesis(prefunded, block), txs') == s;
    RunExtends(d, Genesis(prefunded, block), txs', txs);
  }

  lemma MinedTo(d: Deployment, s: Contract, now: nat)
    requires s.block <= now
    ensures Run(d, s, [Mine(now - s.block)]) == s.(block := now)
  {
    assert [Mine(now - s.block)][..0] == [];
  }

  ghost predicate RefusesEveryone(d: Deployment, s: Contract, id: nat) {
    && (forall caller: Account, payee: Payee :: Exec(d, s, Cancel(caller, id, payee)).error.Some?)
    && (forall caller: Account, seal: Bytes, journal: Bytes, payee: Payee ::
          Exec(d, s, Finish(caller, id, seal, journal, payee)).error.Some?)
  }

  /** No cancel succeeds; a finish does exactly for the recipient, with a proof if one is needed
      and a payee that takes the money. */
  ghost predicate PaysOnlyRecipient(d: Deployment, s: Contract, id: nat, deal: Deal<Address>) {
    && (forall caller: Account, payee: Payee :: Exec(d, s, Cancel(caller, id, payee)).error.Some?)
    && (forall caller: Account, seal: Bytes, journal: Bytes, payee: Payee ::
          Exec(d, s, Finish(caller, id, seal, journal, payee)).error.None? <==>
          && caller == deal.recipient && payee.accepts
          && (deal.Conditioned() ==> AuthOf(d)(s.block, id, deal, seal, journal)))
  }

  /** The recipient's window: whenever a cancellable escrow is open, nobody can settle it before
      its finish block, and at every block from there to its cancel block, a range that is never
      empty, only its recipient can. */
  lemma RecipientWindow(d: Deployment, s: Contract, id: nat, now: nat)
    requires Reachable(d, s) && id in LiveOf(s.escrows) && s.block <= now
    requires LiveOf(s.escrows)[id].cancelAfter.Some?
    ensures var deal, t := LiveOf(s.escrows)[id], s.(block := now);
            var finish, cancel := deal.finishAfter.GetOr(0), deal.cancelAfter.value;
            && finish < cancel && Reachable(d, t)
            && (now < finish ==> RefusesEveryone(d, t, id))
            && (finish <= now < cancel ==> PaysOnlyRecipient(d, t, id, deal))
  {
    hide Exec, VerifyReceipt, CheckBinding, Replay, Run;
    ReachableSafe(d, s);
    MinedTo(d, s, now);
    ReachableRun(d, s, [Mine(now - s.block)]);
    var t, deal := s.(block := now), LiveOf(s.escrows)[id];
    var j := OpenSince(AuthOf(d), s.history, id);
    assert MayOpen(deal);
    forall caller: Account, payee: Payee ensures
        Exec(d, t, Cancel(caller, id, payee)).error.None? <==>
        caller == deal.sender && CancelOpen(deal, now) && payee.accepts {
      CancelSucceedsIff(d, t, caller, id, payee);
    }
    forall caller: Account, seal: Bytes, journal: Bytes, payee: Payee ensures
        Exec(d, t, Finish(caller, id, seal, journal, payee)).error.None? <==>
        && caller == deal.recipient && FinishOpen(deal, now) && payee.accepts
        && (deal.Conditioned() ==> AuthOf(d)(now, id, deal, seal, journal)) {
      FinishSucceedsIff(d, t, caller, id, seal, journal, payee);
    }
  }

  /** Ids are opened once, so at most one further event happens under an open deal's id. */
  lemma NoEarlierEvent(d: Deployment, s: Contract, t: Contract, id: nat, i: nat, m: nat)
    requires Inv(d, s) && Inv(d, t) && s.history <= t.history && id in LiveOf(s.escrows)
    requires |s.history| <= m < i < |t.history| && t.history[i].key == id
    ensures t.history[m].key != id
  {
    hide Replay, Honours, Held, LiveOf;
    var j := OpenSince(AuthOf(d), s.history, id);
    assert t.history[j] == s.history[j];
    if t.history[m].key == id {
      var o := SettledOncePerOpening(AuthOf(d), t.history, m, i);
      assert false;
    }
  }

  /** The same for everything a transaction may contain: whatever call tree runs before the cancel
      block, anything it records under an open escrow's id is a release to the recipient. */
  lemma OnlyRecipientInside(d: Deployment, s: Contract, c: Call, id: nat, i: nat)
    requires Reachable(d, s) && id in LiveOf(s.escrows) && !CancelOpen(LiveOf(s.escrows)[id], s.block)
    requires var t := Exec(d, s, c).after; |s.history| <= i < |t.history| && t.history[i].key == id
    ensures var t, deal := Exec(d, s, c).after, LiveOf(s.escrows)[id];
            && t.history[i].Released? && t.history[i].to == deal.recipient
            && Honours(AuthOf(d), deal, t.history[i])
  {
    hide Exec, Replay, Honours, Points, Held, LiveOf;
    ReachableSafe(d, s);
    ExecSafe(d, s, c);
    var t := Exec(d, s, c).after;
    forall m | |s.history| <= m < i ensures t.history[m].key != id {
      NoEarlierEvent(d, s, t, id, i, m);
    }
    NextInWindow(AuthOf(d), s.history, t.history, id, i);
  }
}
