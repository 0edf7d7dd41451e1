/** Why an instruction to the Solana program is refused, while no supply overflows. */
module SolanaRefusals {
  import opened Bytes
  import opened Settlement
  import opened SolanaJournal
  import opened SolanaEscrow
  import opened SolanaRuns

  /** Why a finish is refused. The recipient check of the handler is never the one to fail: the
      account's own address already names the recipient. */
  lemma FinishErrors(p: Program, l: Ledger, recipient: Pubkey, key: Key, accounts: seq<AccountMeta>, seal: Bytes)
    requires Reachable(p, l) && TotalLamports(l) < TWO_64
    ensures var r := Exec(p, l, Finish(recipient, key, accounts, seal));
            && (r == Err(AccountNotInitialized) <==> key !in l.accounts)
            && (r == Err(ConstraintSeeds) <==> key in l.accounts && recipient != key.recipient)
            && r != Err(Unauthorized)
            && (key in l.accounts && recipient == key.recipient ==>
                  var e := l.accounts[key];
                  && (r == Err(NotReady) <==> !FinishOpen(DealOf(e), l.slot))
                  && (r == Err(ProofVerificationFailed) <==>
                        FinishOpen(DealOf(e), l.slot) && e.condition != ZERO_WORD
                        && !ProofAccepted(p, l.slot, e, accounts, seal)))
  {
    hide ProofAccepted, ReconstructJournal, Replay, Chronicle, TotalLamports;
    ReachableSafe(p, l);
    OverflowUnreachable(p, l, Finish(recipient, key, accounts, seal));
  }

  /** Why a cancel is refused; again the sender check of the handler is never the one to fail. */
  lemma CancelErrors(p: Program, l: Ledger, sender: Pubkey, key: Key)
    requires Reachable(p, l) && TotalLamports(l) < TWO_64
    ensures var r := Exec(p, l, Cancel(sender, key));
            && (r == Err(AccountNotInitialized) <==> key !in l.accounts)
            && (r == Err(ConstraintSeeds) <==> key in l.accounts && sender != key.sender)
            && r != Err(Unauthorized)
            && (key in l.accounts && sender == key.sender ==>
                  var deal := DealOf(l.accounts[key]);
                  && (r == Err(CancelNotAllowed) <==> deal.cancelAfter.None?)
                  && (r == Err(NotExpired) <==> deal.cancelAfter.Some? && !CancelOpen(deal, l.slot)))
  {
    hide Replay, Chronicle, TotalLamports;
    ReachableSafe(p, l);
    OverflowUnreachable(p, l, Cancel(sender, key));
  }

  /** Why a create is refused, in terms of the deal asked for. The reserve is paid before the terms
      are looked at, the amount after. */
  lemma CreateErrors(p: Program, l: Ledger, sender: Pubkey, recipient: Pubkey, id: U64, amount: U64,
                     finishAfter: Option<U64>, cancelAfter: Option<U64>, condition: Digest)
    requires Reachable(p, l) && TotalLamports(l) < TWO_64
    ensures var r := Exec(p, l, Create(sender, recipient, id, amount, finishAfter, cancelAfter, condition));
            var key := Key(sender, recipient, id);
            var deal := Deal(sender, recipient, amount, finishAfter, cancelAfter, condition);
            var present, wallet := Balance(l.vaults, key), Balance(l.wallets, sender);
            var missing := if present < p.rent then p.rent - present else 0;
            var vacant := sender != recipient && key !in l.accounts;
            var ready := vacant && missing <= wallet;
            var lacks := deal.Conditioned() && cancelAfter.None?;
            var timed := ready && (finishAfter.Some? || cancelAfter.Some?) && !lacks;
            var ordered := cancelAfter.Some? ==> cancelAfter.value > finishAfter.GetOr(0);
            && (r == Err(InvalidRecipient) <==> sender == recipient)
            && (r == Err(AccountInUse) <==> sender != recipient && key in l.accounts)
            && (r == Err(InsufficientFunds) <==>
                  vacant && (wallet < missing || (MayOpen(deal) && wallet < missing + amount)))
            && (r == Err(MustSpecifyPath) <==> ready && finishAfter.None? && cancelAfter.None?)
            && (r == Err(ConditionRequiresCancel) <==> ready && finishAfter.Some? && lacks)
            && (r == Err(InvalidTimeOrder) <==> timed && !ordered)
            && (r == Err(InvalidAmount) <==> timed && ordered && amount == 0)
  {
    hide Reachable, TotalLamports;
    OverflowUnreachable(p, l, Create(sender, recipient, id, amount, finishAfter, cancelAfter, condition));
  }
}
