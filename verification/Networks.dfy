/** One receipt on several networks. The journal names the kind of chain, the contract's address or
    the program's id, and the terms of the escrow; it does not name the network. */
module Networks {
  import opened Bytes
  import opened Journal
  import opened Settlement
  import J = EvmJournal
  import E = EvmEscrow
  import ER = EvmRuns
  import P = SolanaJournal
  import S = SolanaEscrow
  import SR = SolanaRuns

  // ---------------------------------------------------------------- Ethereum

  /** Two deployments at one address, for one guest image, whose verifiers give this receipt one
      verdict in the given blocks. */
  ghost predicate SameVerdict(d: E.Deployment, at: nat, d': E.Deployment, at': nat, seal: Bytes, journal: Bytes) {
    && d.self == d'.self && d.imageId == d'.imageId && d.sha256 == d'.sha256
    && (d.verifies(at, seal, d.imageId, d.sha256(journal)) <==> d'.verifies(at', seal, d.imageId, d.sha256(journal)))
  }

  /** What a journal can tell apart of two deals. */
  predicate SameStakes<A(==)>(deal: Deal<A>, deal': Deal<A>) {
    && deal.sender == deal'.sender && deal.recipient == deal'.recipient
    && deal.amount == deal'.amount && deal.condition == deal'.condition
  }

  /** A receipt releases an open escrow on one network exactly if it releases the escrow with the
      same id and stakes on the other, whatever the locks, once both finish blocks are reached. */
  lemma EvmReceiptFitsBoth(d: E.Deployment, s: E.Contract, d': E.Deployment, s': E.Contract, id: nat, seal: Bytes,
                           journal: Bytes, payee: E.Payee)
    requires ER.Reachable(d, s) && ER.Reachable(d', s') && SameVerdict(d, s.block, d', s'.block, seal, journal)
    requires id in E.LiveOf(s.escrows) && id in E.LiveOf(s'.escrows)
    requires var deal, deal' := E.LiveOf(s.escrows)[id], E.LiveOf(s'.escrows)[id];
             SameStakes(deal, deal') && FinishOpen(deal, s.block) && FinishOpen(deal', s'.block)
    ensures E.LiveOf(s.escrows)[id].recipient != 0
    ensures var finish := E.Finish(E.LiveOf(s.escrows)[id].recipient, id, seal, journal, payee);
            E.Exec(d, s, finish).error.None? <==> E.Exec(d', s', finish).error.None?
  {
    hide E.Exec, Replay, J.CheckBinding, ER.Reachable;
    ER.ReachableSafe(d, s);
    var deal, deal' := E.LiveOf(s.escrows)[id], E.LiveOf(s'.escrows)[id];
    ER.FinishSucceedsIff(d, s, deal.recipient, id, seal, journal, payee);
    ER.FinishSucceedsIff(d', s', deal.recipient, id, seal, journal, payee);
    E.CheckBindingReads(d.self, E.EscrowOf(deal), E.EscrowOf(deal'), id, journal);
  }

  /** The first conditioned escrow of a contract. */
  function FirstEscrow(sender: E.Account, recipient: E.Account, amount: U256, condition: Digest): J.EscrowDB {
    J.EscrowDB(sender, recipient, amount, 0, 1, condition, false)
  }

  /** Its journal. */
  function FirstJournal(self: J.Address, sender: E.Account, recipient: E.Account, amount: U256, condition: Digest):
    Bytes
  {
    match Encode(J.BoundCommitment(self, FirstEscrow(sender, recipient, amount, condition), 1))
    case Ok(journal) => journal
    case Err(_) => []
  }

  lemma FirstJournalFits(self: J.Address, sender: E.Account, recipient: E.Account, amount: U256, condition: Digest)
    ensures var journal := FirstJournal(self, sender, recipient, amount, condition);
            J.CheckBinding(self, FirstEscrow(sender, recipient, amount, condition), 1, journal).Pass?
  {
    var e := FirstEscrow(sender, recipient, amount, condition);
    EncodeFailsIff(J.BoundCommitment(self, e, 1));
    J.ParserRefinesEncoder(self, e, 1, FirstJournal(self, sender, recipient, amount, condition));
  }

  /** A payout to an account that takes the money and does nothing else. */
  lemma QuietPayout(d: E.Deployment, s: E.Contract, id: nat, record: Event<nat, J.Address>)
    requires s.balance >= E.Slot(s, id).amount
    ensures E.Payout(d, s, id, record, E.Payee([], true)) ==
            E.Step(E.PayingOut(s, id, record).(entered := false), None)
  {
    assert E.ExecAll(d, E.PayingOut(s, id, record), []) == E.PayingOut(s, id, record);
  }

  /** One network: from nothing, in any block in which a seal verifies for it, the escrow is opened
      and released. */
  lemma EvmReleaseFromNothing(d: E.Deployment, sender: E.Account, recipient: E.Account, amount: U256, condition: Digest,
                              seal: Bytes, block: nat) returns (s: E.Contract)
    requires amount > 0 && condition != ZERO_WORD
    requires var journal := FirstJournal(d.self, sender, recipient, amount, condition);
             d.verifies(block, seal, d.imageId, d.sha256(journal))
    ensures ER.Reachable(d, s)
    ensures s.history ==
            [Opened(block, 1, Deal(sender, recipient, amount, None, Some(1), condition)),
             Released(block, 1, recipient, amount, seal, FirstJournal(d.self, sender, recipient, amount, condition))]
  {
    hide J.CheckBinding, FirstJournal;
    FirstJournalFits(d.self, sender, recipient, amount, condition);
    var journal := FirstJournal(d.self, sender, recipient, amount, condition);
    var start, create := E.Genesis(0, block), E.Create(sender, amount, recipient, 0, 1, condition);
    var ready := E.Exec(d, start, create).after;
    assert ready.escrows[1] == FirstEscrow(sender, recipient, amount, condition);
    var finish := E.Finish(recipient, 1, seal, journal, E.Payee([], true));
    assert E.FinishGuard(d, ready, recipient, 1, seal, journal).Pass?;
    s := E.Exec(d, ready, finish).after;
    var deal := Deal(sender, recipient, amount, None, Some(1), condition);
    assert ready.history == [Opened(block, 1, deal)];
    QuietPayout(d, ready, 1, E.FinishRecord(ready, 1, seal, journal));
    var txs := [ER.Transact(create), ER.Transact(finish)];
    assert txs[..1] == [ER.Transact(create)] && txs[..1][..0] == [];
    assert ER.Run(d, start, txs[..1]) == ready;
    assert ER.Run(d, start, txs) == s;
  }

  /** One receipt settles twice: on two networks with a contract at one address, the same seal and
      journal release one escrow each, though neither contract ever reuses an id. */
  lemma EvmReceiptSettlesTwice(d: E.Deployment, d': E.Deployment, sender: E.Account, recipient: E.Account, amount: U256,
                               condition: Digest, seal: Bytes, block: nat, block': nat)
    returns (s: E.Contract, s': E.Contract)
    requires amount > 0 && condition != ZERO_WORD
    requires var journal := FirstJournal(d.self, sender, recipient, amount, condition);
             d.verifies(block, seal, d.imageId, d.sha256(journal)) && SameVerdict(d, block, d', block', seal, journal)
    ensures ER.Reachable(d, s) && ER.ReleasedByProof(s.history, 1)
    ensures ER.Reachable(d', s') && ER.ReleasedByProof(s'.history, 1)
    ensures s.history[1].seal == s'.history[1].seal == seal && s.history[1].journal == s'.history[1].journal
  {
    hide FirstJournal, ER.Reachable;
    s := EvmReleaseFromNothing(d, sender, recipient, amount, condition, seal, block);
    s' := EvmReleaseFromNothing(d', sender, recipient, amount, condition, seal, block');
    assert s.history[0].key == s.history[1].key && s.history[0].deal.Conditioned();
    assert s'.history[0].key == s'.history[1].key && s'.history[0].deal.Conditioned();
  }

  // ---------------------------------------------------------------- Solana

  /** The program under one id and one image on two clusters whose routers give this seal one verdict
      on this escrow in the given slots. */
  predicate SameRouterVerdict(p: S.Program, at: nat, p': S.Program, at': nat, e: P.EscrowAccount,
                              accounts: seq<S.AccountMeta>, seal: Bytes)
  {
    && p.programId == p'.programId
    && (S.ProofAccepted(p, at, e, accounts, seal) <==> S.ProofAccepted(p', at', e, accounts, seal))
  }

  /** A seal releases an open account on one cluster exactly if it releases the account with the same
      key, amount and condition on the other. */
  lemma SolanaReceiptFitsBoth(p: S.Program, l: S.Ledger, p': S.Program, l': S.Ledger, key: S.Key,
                              accounts: seq<S.AccountMeta>, seal: Bytes)
    requires SR.Reachable(p, l) && S.TotalLamports(l) < TWO_64 && key in l.accounts
    requires SR.Reachable(p', l') && S.TotalLamports(l') < TWO_64 && key in l'.accounts
    requires var e, e' := l.accounts[key], l'.accounts[key];
             && SameRouterVerdict(p, l.slot, p', l'.slot, e, accounts, seal)
             && e.amount == e'.amount && e.condition == e'.condition
             && FinishOpen(S.DealOf(e), l.slot) && FinishOpen(S.DealOf(e'), l'.slot)
    ensures var finish := S.Finish(key.recipient, key, accounts, seal);
            S.Exec(p, l, finish).Ok? <==> S.Exec(p', l', finish).Ok?
  {
    hide S.Exec, P.ReconstructJournal, SR.Reachable, S.TotalLamports, SR.PaidOnly;
    KeysMatch(p, l, key);
    KeysMatch(p', l', key);
    SR.JournalReads(p.programId, l.accounts[key], l'.accounts[key]);
    SR.FinishSucceedsIff(p, l, key.recipient, key, accounts, seal);
    SR.FinishSucceedsIff(p', l', key.recipient, key, accounts, seal);
  }

  lemma KeysMatch(p: S.Program, l: S.Ledger, key: S.Key)
    requires SR.Reachable(p, l) && key in l.accounts
    ensures var e := l.accounts[key]; key == S.Key(e.sender, e.recipient, e.id)
  {
    SR.ReachableSafe(p, l);
  }

  /** One receipt settles twice: on two clusters that run the program under one id, the same seal
      and journal release one account each, with no account opened again on either. */
  lemma SolanaReceiptSettlesTwice(p: S.Program, p': S.Program, key: S.Key, amount: U64, condition: Digest,
                                  accounts: seq<S.AccountMeta>, seal: Bytes, slot: nat, slot': nat)
    returns (l: S.Ledger, l': S.Ledger)
    requires key.sender != key.recipient && amount > 0 && condition != ZERO_WORD
    requires p.rent + amount < TWO_64 && p'.rent + amount < TWO_64
    requires var e := P.EscrowAccount(key.sender, key.recipient, amount, key.id, None, Some(1), condition);
             && S.ProofAccepted(p, slot, e, accounts, seal)
             && SameRouterVerdict(p, slot, p', slot', e, accounts, seal)
    ensures SR.Reachable(p, l) && |l.history| == 2 && SR.ReleasedByProof(l.history, 0, 1)
    ensures SR.Reachable(p', l') && |l'.history| == 2 && SR.ReleasedByProof(l'.history, 0, 1)
    ensures l.history[1].seal == l'.history[1].seal == seal && l.history[1].journal == l'.history[1].journal
  {
    hide P.ReconstructJournal, S.ProofAccepted, SR.Reachable;
    l := SR.ReleaseFromNothing(p, key, amount, condition, accounts, seal, slot);
    l' := SR.ReleaseFromNothing(p', key, amount, condition, accounts, seal, slot');
  }
}
