/** The Solana program in its own form: account fields written, lamports moved and the account
    closed in place. */
module SolanaProgram {
  import opened Bytes
  import opened Settlement
  import opened SolanaJournal
  import opened SolanaEscrow

  class EscrowProgram {
    const program: Program
    var wallets: map<Pubkey, nat>
    var vaults: map<Key, nat>
    var accounts: map<Key, EscrowAccount>
    var slot: nat
    var history: History<Key, Pubkey>

    function View(): Ledger
      reads this
    {
      Ledger(wallets, vaults, accounts, slot, history)
    }

    constructor (program: Program, genesis: Ledger)
      ensures this.program == program && View() == genesis
    {
      this.program := program;
      wallets, vaults, accounts := genesis.wallets, genesis.vaults, genesis.accounts;
      slot, history := genesis.slot, genesis.history;
    }

    /** A system transfer from a wallet to an escrow address. */
    method Fund(sender: Pubkey, key: Key, lamports: nat) returns (r: Outcome<SolanaError>)
      modifies this`wallets, this`vaults
      ensures r.Pass? <==> lamports <= old(Balance(wallets, sender)) && old(Balance(vaults, key)) + lamports < TWO_64
      ensures r.Pass? ==> lamports <= old(Balance(wallets, sender))
                          && wallets == Debit(old(wallets), sender, lamports)
                          && vaults == Credit(old(vaults), key, lamports)
      ensures r.Fail? ==> wallets == old(wallets) && vaults == old(vaults)
      ensures r.Fail? ==>
                r.error == if old(Balance(wallets, sender)) < lamports then InsufficientFunds else ArithmeticOverflow
    {
      if Balance(wallets, sender) < lamports { return Fail(InsufficientFunds); }
      if Balance(vaults, key) + lamports >= TWO_64 { return Fail(ArithmeticOverflow); }
      wallets := Debit(wallets, sender, lamports);
      vaults := Credit(vaults, key, lamports);
      return Pass;
    }

    /** The checks of a creation, in order. */
    method CheckTerms(amount: U64, finishAfter: Option<U64>, cancelAfter: Option<U64>, condition: Digest)
      returns (r: Outcome<SolanaError>)
      ensures r == CreateGuard(amount, finishAfter, cancelAfter, condition)
    {
      if finishAfter.None? && cancelAfter.None? { return Fail(MustSpecifyPath); }
      if condition != ZERO_WORD && cancelAfter.None? { return Fail(ConditionRequiresCancel); }
      if cancelAfter.Some? && cancelAfter.value <= finishAfter.GetOr(0) { return Fail(InvalidTimeOrder); }
      if amount == 0 { return Fail(InvalidAmount); }
      return Pass;
    }

    /** The reserve before the checks and the amount after them; nothing is left moved on failure. */
    method FundChecked(sender: Pubkey, key: Key, reserve: nat, amount: U64, finishAfter: Option<U64>,
                       cancelAfter: Option<U64>, condition: Digest) returns (r: Outcome<SolanaError>)
      modifies this`wallets, this`vaults
      ensures var wallet, vault := old(Balance(wallets, sender)), old(Balance(vaults, key));
              var check := CreateGuard(amount, finishAfter, cancelAfter, condition);
              r == if wallet < reserve then Fail(InsufficientFunds)
                   else if vault + reserve >= TWO_64 then Fail(ArithmeticOverflow)
                   else if check.Fail? then check
                   else if wallet < reserve + amount then Fail(InsufficientFunds)
                   else if vault + reserve + amount >= TWO_64 then Fail(ArithmeticOverflow)
                   else Pass
      ensures r.Pass? ==> wallets == Debit(old(wallets), sender, reserve + amount)
                          && vaults == Credit(old(vaults), key, reserve + amount)
      ensures r.Fail? ==> wallets == old(wallets) && vaults == old(vaults)
    {
      var wallets0, vaults0 := wallets, vaults;
      r := Fund(sender, key, reserve);
      if r.Fail? { return; }
      r := CheckTerms(amount, finishAfter, cancelAfter, condition);
      if r.Pass? {
        r := Fund(sender, key, amount);
      }
      if r.Fail? {
        wallets, vaults := wallets0, vaults0;
      }
    }

    method CreateEscrow(sender: Pubkey, recipient: Pubkey, id: U64, amount: U64, finishAfter: Option<U64>,
                        cancelAfter: Option<U64>, condition: Digest) returns (r: Outcome<SolanaError>)
      modifies this
      ensures match CreateStep(program, old(View()), sender, recipient, id, amount, finishAfter, cancelAfter, condition)
              case Ok(after) => r == Pass && View() == after
              case Err(e) => r == Fail(e) && View() == old(View())
    {
      var key := Key(sender, recipient, id);
      if recipient == sender { return Fail(InvalidRecipient); }
      if key in accounts { return Fail(AccountInUse); }
      r := FundChecked(sender, key, TopUp(program, View(), key), amount, finishAfter, cancelAfter, condition);
      if r.Fail? { return; }
      accounts := accounts[key := EscrowAccount(sender, recipient, amount, id, finishAfter, cancelAfter, condition)];
      history := history + [Opened(slot, key, DealOf(accounts[key]))];
    }

    method VerifyReleaseProof(e: EscrowAccount, routerAccounts: seq<AccountMeta>, seal: Bytes) returns (ok: bool)
      ensures ok == ProofAccepted(program, slot, e, routerAccounts, seal)
      ensures Framed(seal) ==>
                exists data ::
                  var digest := program.sha256(ReconstructJournal(program.programId, e));
                  && ok == program.router(slot, routerAccounts, data)
                  && BorshVerifyArgs(data) == Some(VerifyArgs(seal[4..], program.imageId, digest))
    {
      var journal := ReconstructJournal(program.programId, e);
      var digest := program.sha256(journal);
      var data := CpiData(program.sha256, seal, program.imageId, digest);
      ok := program.router(slot, routerAccounts, data);
      RouterCallPinned(program.sha256, seal, program.imageId, digest);
    }

    /** The `close` constraint, run when an instruction exits. */
    method Close(key: Key) returns (r: Outcome<SolanaError>)
      requires key in accounts
      modifies this
      ensures match Closed(old(View()), key)
              case Ok(after) => r == Pass && View() == after
              case Err(e) => r == Fail(e) && View() == old(View())
    {
      var rest, sender := Balance(vaults, key), accounts[key].sender;
      if Balance(wallets, sender) + rest >= TWO_64 { return Fail(ArithmeticOverflow); }
      wallets := Credit(wallets, sender, rest);
      vaults := vaults[key := 0];
      accounts := accounts - {key};
      return Pass;
    }

    method FinishEscrow(recipient: Pubkey, key: Key, routerAccounts: seq<AccountMeta>, seal: Bytes)
      returns (r: Outcome<SolanaError>)
      modifies this
      ensures match FinishStep(program, old(View()), recipient, key, routerAccounts, seal)
              case Ok(after) => r == Pass && View() == after
              case Err(e) => r == Fail(e) && View() == old(View())
    {
      if key !in accounts { return Fail(AccountNotInitialized); }
      var e := accounts[key];
      if key != Key(e.sender, recipient, e.id) { return Fail(ConstraintSeeds); }
      if recipient != e.recipient { return Fail(Unauthorized); }
      if e.finishAfter.Some? && slot < e.finishAfter.value { return Fail(NotReady); }
      if e.condition != ZERO_WORD {
        var ok := VerifyReleaseProof(e, routerAccounts, seal);
        if !ok { return Fail(ProofVerificationFailed); }
      }
      var record := FinishRecord(program, View(), key, seal);
      if Balance(vaults, key) < e.amount { return Fail(ArithmeticOverflow); }
      if Balance(wallets, recipient) + e.amount >= TWO_64 { return Fail(ArithmeticOverflow); }
      var wallets0, vaults0, history0 := wallets, vaults, history;
      vaults := Debit(vaults, key, e.amount);
      wallets := Credit(wallets, recipient, e.amount);
      history := history + [record];
      r := Close(key);
      if r.Fail? {
        wallets, vaults, history := wallets0, vaults0, history0;
      }
    }

    method CancelEscrow(sender: Pubkey, key: Key) returns (r: Outcome<SolanaError>)
      modifies this
      ensures match CancelStep(old(View()), sender, key)
              case Ok(after) => r == Pass && View() == after
              case Err(e) => r == Fail(e) && View() == old(View())
    {
      if key !in accounts { return Fail(AccountNotInitialized); }
      var e := accounts[key];
      if key != Key(sender, e.recipient, e.id) { return Fail(ConstraintSeeds); }
      if sender != e.sender { return Fail(Unauthorized); }
      if e.cancelAfter.None? { return Fail(CancelNotAllowed); }
      if slot < e.cancelAfter.value { return Fail(NotExpired); }
      var history0 := history;
      history := history + [CancelRecord(View(), key)];
      r := Close(key);
      if r.Fail? {
        history := history0;
      }
    }
  }
}
