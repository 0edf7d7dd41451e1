/** What holds over whole runs of the Solana program. */
module SolanaRuns {
  import opened Bytes
  import opened Settlement
  import opened SolanaJournal
  import opened SolanaEscrow

  /** Time passes, or a transaction runs its instructions all or nothing. */
  datatype Tx = Tick(slots: nat) | Atomic(instructions: seq<Instruction>)

  function ExecAll(p: Program, l: Ledger, ixs: seq<Instruction>): Result<Ledger, SolanaError>
    decreases |ixs|
  {
    if ixs == [] then Ok(l)
    else
      var next :- Exec(p, l, ixs[0]);
      ExecAll(p, next, ixs[1..])
  }

  function Apply(p: Program, l: Ledger, tx: Tx): Ledger {
    match tx
    case Tick(slots) => l.(slot := l.slot + slots)
    case Atomic(ixs) => match ExecAll(p, l, ixs) case Ok(after) => after case Err(_) => l
  }

  function Run(p: Program, l: Ledger, txs: seq<Tx>): Ledger {
    if txs == [] then l else Apply(p, Run(p, l, txs[..|txs| - 1]), txs[|txs| - 1])
  }

  /** Before the first escrow, any wallets and any lamports already sitting at any address. */
  function Genesis(wallets: map<Pubkey, nat>, vaults: map<Key, nat>, slot: nat): Ledger {
    Ledger(wallets, vaults, map[], slot, [])
  }

  ghost predicate Reachable(p: Program, l: Ledger) {
    exists wallets: map<Pubkey, nat>, vaults: map<Key, nat>, slot: nat, txs: seq<Tx> ::
      Run(p, Genesis(wallets, vaults, slot), txs) == l
  }

  lemma {:induction false} ExecAllSafe(p: Program, l: Ledger, ixs: seq<Instruction>)
    requires Inv(p, l) && ExecAll(p, l, ixs).Ok?
    ensures var after := ExecAll(p, l, ixs).value;
            && Inv(p, after) && TotalLamports(after) == TotalLamports(l)
            && l.history <= after.history && after.slot == l.slot
    decreases |ixs|
  {
    if ixs != [] {
      ExecSafe(p, l, ixs[0]);
      ExecAllSafe(p, Exec(p, l, ixs[0]).value, ixs[1..]);
    }
  }

  /** Lamports are conserved and the invariant kept over every run. */
  lemma {:induction false} RunSafe(p: Program, l: Ledger, txs: seq<Tx>)
    requires Inv(p, l)
    ensures var after := Run(p, l, txs);
            && Inv(p, after) && TotalLamports(after) == TotalLamports(l)
            && l.history <= after.history && l.slot <= after.slot
  {
    if txs != [] {
      RunSafe(p, l, txs[..|txs| - 1]);
      var before, tx := Run(p, l, txs[..|txs| - 1]), txs[|txs| - 1];
      if tx.Atomic? && ExecAll(p, before, tx.instructions).Ok? {
        ExecAllSafe(p, before, tx.instructions);
      }
    }
  }

  lemma ReachableSafe(p: Program, l: Ledger)
    requires Reachable(p, l)
    ensures Inv(p, l)
  {
    var wallets: map<Pubkey, nat>, vaults: map<Key, nat>, slot: nat, txs: seq<Tx> :|
      Run(p, Genesis(wallets, vaults, slot), txs) == l;
    assert LiveOf(map[]) == map[];
    RunSafe(p, Genesis(wallets, vaults, slot), txs);
  }

  // ---------------------------------------------------------------- arithmetic never overflows

  lemma BalanceBounded<K>(m: map<K, nat>, k: K)
    ensures Balance(m, k) <= Sum(m)
  {
    SumCredit(m, k, 0);
  }

  /** With a supply below 2^64 no instruction ever takes an overflow branch. */
  lemma OverflowUnreachable(p: Program, l: Ledger, ix: Instruction)
    requires Reachable(p, l) && TotalLamports(l) < TWO_64
    ensures Exec(p, l, ix) != Err(ArithmeticOverflow)
  {
    hide ReconstructJournal, CpiData, Replay;
    ReachableSafe(p, l);
    match ix {
      case Create(sender, recipient, id, _, _, _, _) =>
        BalanceBounded(l.wallets, sender);
        BalanceBounded(l.vaults, Key(sender, recipient, id));
      case Finish(recipient, key, _, _) =>
        if key in l.accounts {
          CreditsFit(l, recipient, key, l.accounts[key].amount);
        }
      case Cancel(sender, key) =>
        BalanceBounded(l.wallets, sender);
        BalanceBounded(l.vaults, key);
      case Deposit(sender, key, _) =>
        BalanceBounded(l.wallets, sender);
        BalanceBounded(l.vaults, key);
      case Transfer(sender, recipient, lamports) =>
        if lamports <= Balance(l.wallets, sender) {
          SumDebit(l.wallets, sender, lamports);
          BalanceBounded(Debit(l.wallets, sender, lamports), recipient);
        }
    }
  }

  lemma CreditsFit(l: Ledger, recipient: Pubkey, key: Key, amount: nat)
    requires key in l.accounts && amount <= Balance(l.vaults, key) && TotalLamports(l) < TWO_64
    ensures Balance(l.wallets, recipient) + amount < TWO_64
    ensures var sender, paid := l.accounts[key].sender, Credit(l.wallets, recipient, amount);
            Balance(paid, sender) + Balance(Debit(l.vaults, key, amount), key) < TWO_64
  {
    BalanceBounded(l.wallets, recipient);
    BalanceBounded(l.vaults, key);
    SumCredit(l.wallets, recipient, amount);
    BalanceBounded(Credit(l.wallets, recipient, amount), l.accounts[key].sender);
  }

  // ---------------------------------------------------------------- what each instruction needs and does

  /** The two parties gain these amounts, the account is gone, and nothing else moved. */
  ghost predicate PaidOnly(l: Ledger, after: Ledger, key: Key, toRecipient: nat, toSender: nat) {
    && Balance(after.wallets, key.recipient) == Balance(l.wallets, key.recipient) + toRecipient
    && Balance(after.wallets, key.sender) == Balance(l.wallets, key.sender) + toSender
    && (forall w: Pubkey | w != key.recipient && w != key.sender :: Balance(after.wallets, w) == Balance(l.wallets, w))
    && Balance(after.vaults, key) == 0
    && (forall k: Key | k != key :: Balance(after.vaults, k) == Balance(l.vaults, k))
    && after.accounts == l.accounts - {key}
  }

  /** What closing pays, after `amount` lamports went from the address to the recipient. */
  lemma ClosedPays(l: Ledger, m: Ledger, key: Key, amount: nat)
    requires key in l.accounts && l.accounts[key].sender == key.sender && key.sender != key.recipient
    requires amount <= Balance(l.vaults, key)
    requires m.wallets == Credit(l.wallets, key.recipient, amount) && m.vaults == Debit(l.vaults, key, amount)
    requires m.accounts == l.accounts && Closed(m, key).Ok?
    ensures PaidOnly(l, Closed(m, key).value, key, amount, Balance(l.vaults, key) - amount)
  {
  }

  lemma FinishPays(p: Program, l: Ledger, recipient: Pubkey, key: Key, accounts: seq<AccountMeta>, seal: Bytes)
    requires Inv(p, l) && FinishStep(p, l, recipient, key, accounts, seal).Ok?
    ensures var after, amount := FinishStep(p, l, recipient, key, accounts, seal).value, l.accounts[key].amount;
            && Balance(l.vaults, key) >= p.rent + amount
            && PaidOnly(l, after, key, amount, Balance(l.vaults, key) - amount)
  {
    hide ReconstructJournal, ProofAccepted, Replay, Chronicle, Closed, PaidOnly;
    assert FinishGuard(p, l, recipient, key, accounts, seal).Pass?;
    var amount := l.accounts[key].amount;
    var m := l.(wallets := Credit(l.wallets, recipient, amount), vaults := Debit(l.vaults, key, amount),
                history := l.history + [FinishRecord(p, l, key, seal)]);
    ClosedPays(l, m, key, amount);
  }

  /** A finish succeeds exactly when the terms allow the release and, for a conditioned escrow, the
      router accepts the call with the accounts the caller passed along; the recipient gets exactly
      the amount, the sender everything else at the address, at least the rent. */
  lemma FinishSucceedsIff(p: Program, l: Ledger, recipient: Pubkey, key: Key, accounts: seq<AccountMeta>, seal: Bytes)
    requires Reachable(p, l) && TotalLamports(l) < TWO_64
    ensures Exec(p, l, Finish(recipient, key, accounts, seal)).Ok? <==>
            && key in l.accounts && recipient == key.recipient
            && var e := l.accounts[key];
               && FinishOpen(DealOf(e), l.slot)
               && (DealOf(e).Conditioned() ==> ProofAccepted(p, l.slot, e, accounts, seal))
    ensures Exec(p, l, Finish(recipient, key, accounts, seal)).Ok? ==>
              var after := Exec(p, l, Finish(recipient, key, accounts, seal)).value;
              var amount := l.accounts[key].amount;
              && Balance(l.vaults, key) >= p.rent + amount
              && PaidOnly(l, after, key, amount, Balance(l.vaults, key) - amount)
              && after.history == l.history + [FinishRecord(p, l, key, seal)] && after.slot == l.slot
  {
    hide ReconstructJournal, ProofAccepted, Replay, Chronicle, PaidOnly, FinishRecord, Closed;
    ReachableSafe(p, l);
    OverflowUnreachable(p, l, Finish(recipient, key, accounts, seal));
    var r := FinishStep(p, l, recipient, key, accounts, seal);
    if r.Ok? {
      FinishPays(p, l, recipient, key, accounts, seal);
      FinishSafe(p, l, recipient, key, accounts, seal);
    } else {
      FinishErrs(p, l, recipient, key, accounts, seal);
    }
  }

  /** Without overflow a finish fails only in its checks. */
  lemma FinishErrs(p: Program, l: Ledger, recipient: Pubkey, key: Key, accounts: seq<AccountMeta>, seal: Bytes)
    requires FinishStep(p, l, recipient, key, accounts, seal).Err?
    requires FinishStep(p, l, recipient, key, accounts, seal) != Err(ArithmeticOverflow)
    ensures FinishGuard(p, l, recipient, key, accounts, seal).Fail?
  {
    hide FinishGuard, FinishRecord;
  }

  /** A cancel succeeds exactly in the refund window, and returns everything to the sender. */
  lemma CancelSucceedsIff(p: Program, l: Ledger, sender: Pubkey, key: Key)
    requires Reachable(p, l) && TotalLamports(l) < TWO_64
    ensures Exec(p, l, Cancel(sender, key)).Ok? <==>
            key in l.accounts && sender == key.sender && CancelOpen(DealOf(l.accounts[key]), l.slot)
    ensures Exec(p, l, Cancel(sender, key)).Ok? ==>
              var after := Exec(p, l, Cancel(sender, key)).value;
              && Balance(l.vaults, key) >= p.rent + l.accounts[key].amount
              && PaidOnly(l, after, key, 0, Balance(l.vaults, key))
              && after.history == l.history + [CancelRecord(l, key)] && after.slot == l.slot
  {
    hide ReconstructJournal, Replay, Chronicle, PaidOnly;
    ReachableSafe(p, l);
    OverflowUnreachable(p, l, Cancel(sender, key));
    if CancelStep(l, sender, key).Ok? {
      CancelSafe(p, l, sender, key);
      CancelPays(p, l, sender, key);
    }
  }

  lemma CancelPays(p: Program, l: Ledger, sender: Pubkey, key: Key)
    requires Inv(p, l) && CancelStep(l, sender, key).Ok?
    ensures Balance(l.vaults, key) >= p.rent + l.accounts[key].amount
    ensures PaidOnly(l, CancelStep(l, sender, key).value, key, 0, Balance(l.vaults, key))
  {
    hide Replay, Chronicle;
  }

  /** A create succeeds exactly under the abstract rule, with distinct parties, a free key and
      enough lamports; a key is free again once its account is closed. The sender pays exactly
      what brings the address to its rent reserve plus the amount. */
  lemma CreateSucceedsIff(p: Program, l: Ledger, sender: Pubkey, recipient: Pubkey, id: U64, amount: U64,
                          finishAfter: Option<U64>, cancelAfter: Option<U64>, condition: Digest)
    requires Reachable(p, l) && TotalLamports(l) < TWO_64
    ensures var key := Key(sender, recipient, id);
            var deal := Deal(sender, recipient, amount, finishAfter, cancelAfter, condition);
            var reserve := if Balance(l.vaults, key) < p.rent then p.rent else Balance(l.vaults, key);
            var r := Exec(p, l, Create(sender, recipient, id, amount, finishAfter, cancelAfter, condition));
            && (r.Ok? <==>
                  && MayOpen(deal) && sender != recipient && key !in l.accounts
                  && reserve - Balance(l.vaults, key) + amount <= Balance(l.wallets, sender))
            && (r.Ok? ==>
                  && Balance(r.value.vaults, key) == reserve + amount
                  && Balance(r.value.wallets, sender) ==
                     Balance(l.wallets, sender) - (reserve - Balance(l.vaults, key) + amount)
                  && (forall w: Pubkey | w != sender :: Balance(r.value.wallets, w) == Balance(l.wallets, w))
                  && (forall k: Key | k != key :: Balance(r.value.vaults, k) == Balance(l.vaults, k))
                  && r.value.accounts == l.accounts[key :=
                       EscrowAccount(sender, recipient, amount, id, finishAfter, cancelAfter, condition)]
                  && LiveOf(r.value.accounts) == LiveOf(l.accounts)[key := deal]
                  && r.value.history == l.history + [Opened(l.slot, key, deal)] && r.value.slot == l.slot)
  {
    hide ReconstructJournal, CpiData, Replay;
    OverflowUnreachable(p, l, Create(sender, recipient, id, amount, finishAfter, cancelAfter, condition));
    CreateGuardIsMayOpen(EscrowAccount(sender, recipient, amount, id, finishAfter, cancelAfter, condition),
                         amount, finishAfter, cancelAfter);
  }

  /** No release before the finish slot, no refund before the cancel slot, and until then every
      settlement goes to the recipient; all against the latest opening of the key. */
  lemma WindowsRespected(p: Program, l: Ledger, i: nat) returns (j: nat)
    requires Reachable(p, l) && i < |l.history| && !l.history[i].Opened?
    ensures j < i && l.history[j].Opened? && l.history[j].key == l.history[i].key
    ensures forall m | j < m < i :: l.history[m].key != l.history[i].key
    ensures l.history[i].at >= l.history[j].deal.finishAfter.GetOr(0)
    ensures l.history[j].deal.cancelAfter.None? || l.history[i].at < l.history[j].deal.cancelAfter.value
            ==> l.history[i].Released? && l.history[i].to == l.history[j].deal.recipient
  {
    ReachableSafe(p, l);
    j := NoSettlementOutsideWindow(AuthOf(p), l.history, i);
  }

  // ---------------------------------------------------------------- the recipient's window

  lemma {:induction false} RunExtends(p: Program, l: Ledger, txs: seq<Tx>, more: seq<Tx>)
    ensures Run(p, Run(p, l, txs), more) == Run(p, l, txs + more)
    decreases |more|
  {
    if more == [] {
      assert txs + more == txs;
    } else {
      RunExtends(p, l, txs, more[..|more| - 1]);
      assert (txs + more)[..|txs + more| - 1] == txs + more[..|more| - 1];
    }
  }

  lemma ReachableRun(p: Program, l: Ledger, more: seq<Tx>)
    requires Reachable(p, l)
    ensures Reachable(p, Run(p, l, more))
  {
    var wallets: map<Pubkey, nat>, vaults: map<Key, nat>, slot: nat, txs: seq<Tx> :|
      Run(p, Genesis(wallets, vaults, slot), txs) == l;
    RunExtends(p, Genesis(wallets, vaults, slot), txs, more);
  }

  /** One transaction that succeeds is one step of a run. */
  lemma ReachableNext(p: Program, l: Ledger, ix: Instruction)
    requires Reachable(p, l) && Exec(p, l, ix).Ok?
    ensures Reachable(p, Exec(p, l, ix).value)
    ensures TotalLamports(Exec(p, l, ix).value) == TotalLamports(l)
  {
    hide Exec, TotalLamports;
    var tx := Atomic([ix]);
    assert [ix][1..] == [] && [tx][..0] == [];
    assert ExecAll(p, l, [ix]) == Exec(p, l, ix) by {
      assert ExecAll(p, Exec(p, l, ix).value, []) == Ok(Exec(p, l, ix).value);
    }
    assert Run(p, l, [tx]) == Exec(p, l, ix).value;
    ReachableRun(p, l, [tx]);
    ReachableSafe(p, l);
    ExecSafe(p, l, ix);
  }

  lemma TickedTo(p: Program, l: Ledger, now: nat)
    requires Reachable(p, l) && l.slot <= now
    ensures Reachable(p, l.(slot := now)) && TotalLamports(l.(slot := now)) == TotalLamports(l)
  {
    var wait := [Tick(now - l.slot)];
    assert wait[..0] == [];
    assert Run(p, l, wait) == l.(slot := now);
    ReachableRun(p, l, wait);
  }

  ghost predicate RefusesEveryone(p: Program, l: Ledger, key: Key) {
    && (forall sender: Pubkey :: Exec(p, l, Cancel(sender, key)).Err?)
    && (forall recipient: Pubkey, accounts: seq<AccountMeta>, seal: Bytes ::
          Exec(p, l, Finish(recipient, key, accounts, seal)).Err?)
  }

  /** No cancel succeeds; a finish does exactly for the recipient, with an accepted proof if one
      is needed. */
  ghost predicate PaysOnlyRecipient(p: Program, l: Ledger, key: Key, e: EscrowAccount) {
    && (forall sender: Pubkey :: Exec(p, l, Cancel(sender, key)).Err?)
    && (forall recipient: Pubkey, accounts: seq<AccountMeta>, seal: Bytes ::
          Exec(p, l, Finish(recipient, key, accounts, seal)).Ok? <==>
          recipient == e.recipient && (e.condition != ZERO_WORD ==> ProofAccepted(p, l.slot, e, accounts, seal)))
  }

  lemma LiveMayOpen(p: Program, l: Ledger, key: Key)
    requires Reachable(p, l) && key in l.accounts
    ensures MayOpen(DealOf(l.accounts[key]))
    ensures key.sender == l.accounts[key].sender && key.recipient == l.accounts[key].recipient
  {
    hide Replay, Chronicle;
    ReachableSafe(p, l);
    var j := OpenSince(AuthOf(p), l.history, key);
  }

  /** Before the finish slot nobody can settle, and in the window only the recipient can. */
  lemma WindowAt(p: Program, l: Ledger, key: Key)
    requires Reachable(p, l) && TotalLamports(l) < TWO_64 && key in l.accounts
    requires !CancelOpen(DealOf(l.accounts[key]), l.slot)
    ensures if FinishOpen(DealOf(l.accounts[key]), l.slot) then PaysOnlyRecipient(p, l, key, l.accounts[key])
            else RefusesEveryone(p, l, key)
  {
    hide Exec, ProofAccepted, TotalLamports, PaidOnly, Reachable, FinishOpen, CancelOpen;
    LiveMayOpen(p, l, key);
    forall sender: Pubkey ensures Exec(p, l, Cancel(sender, key)).Err? {
      CancelSucceedsIff(p, l, sender, key);
    }
    var e := l.accounts[key];
    forall recipient: Pubkey, accounts: seq<AccountMeta>, seal: Bytes ensures
        Exec(p, l, Finish(recipient, key, accounts, seal)).Ok? <==>
        && recipient == e.recipient && FinishOpen(DealOf(e), l.slot)
        && (e.condition != ZERO_WORD ==> ProofAccepted(p, l.slot, e, accounts, seal)) {
      FinishSucceedsIff(p, l, recipient, key, accounts, seal);
    }
  }

  /** The recipient's window: whenever a cancellable escrow is open, nobody can settle it before
      its finish slot, and at every slot from there to its cancel slot, a range that is never
      empty, only its recipient can. */
  lemma RecipientWindow(p: Program, l: Ledger, key: Key, now: nat)
    requires Reachable(p, l) && TotalLamports(l) < TWO_64 && l.slot <= now
    requires key in l.accounts && l.accounts[key].cancelAfter.Some?
    ensures var e, t := l.accounts[key], l.(slot := now);
            var finish, cancel := e.finishAfter.GetOr(0), e.cancelAfter.value;
            && finish < cancel && Reachable(p, t)
            && (now < finish ==> RefusesEveryone(p, t, key))
            && (finish <= now < cancel ==> PaysOnlyRecipient(p, t, key, e))
  {
    hide Reachable, TotalLamports, RefusesEveryone, PaysOnlyRecipient;
    TickedTo(p, l, now);
    LiveMayOpen(p, l, key);
    if now < l.accounts[key].cancelAfter.value {
      WindowAt(p, l.(slot := now), key);
    }
  }

  /** The same for everything a transaction may contain: before the cancel slot, the first thing
      it records under an open escrow's key is a release to the recipient. */
  lemma OnlyRecipientInside(p: Program, l: Ledger, ixs: seq<Instruction>, key: Key, i: nat)
    requires Reachable(p, l) && key in l.accounts && !CancelOpen(DealOf(l.accounts[key]), l.slot)
    requires ExecAll(p, l, ixs).Ok?
    requires var t := ExecAll(p, l, ixs).value; |l.history| <= i < |t.history| && t.history[i].key == key
    requires var t := ExecAll(p, l, ixs).value; forall m | |l.history| <= m < i :: t.history[m].key != key
    ensures var t, deal := ExecAll(p, l, ixs).value, DealOf(l.accounts[key]);
            && t.history[i].Released? && t.history[i].to == deal.recipient
            && Honours(AuthOf(p), deal, t.history[i])
  {
    hide ExecAll, Replay, Honours, Reserved, TotalLamports;
    ReachableSafe(p, l);
    ExecAllSafe(p, l, ixs);
    var t := ExecAll(p, l, ixs).value;
    NextInWindow(AuthOf(p), l.history, t.history, key, i);
  }

  // ---------------------------------------------------------------- what the records say

  /** Every opening carries a `u64` amount under the key of its own parties. */
  ghost predicate OpeningsFit(h: History<Key, Pubkey>) {
    forall j | 0 <= j < |h| && h[j].Opened? ::
      var deal := h[j].deal;
      deal.amount < TWO_64 && h[j].key == Key(deal.sender, deal.recipient, h[j].key.id)
  }

  lemma {:induction false} ExecAllOpenings(p: Program, l: Ledger, ixs: seq<Instruction>)
    requires OpeningsFit(l.history) && ExecAll(p, l, ixs).Ok?
    ensures OpeningsFit(ExecAll(p, l, ixs).value.history)
    decreases |ixs|
  {
    hide ReconstructJournal, ProofAccepted;
    if ixs != [] {
      ExecAllOpenings(p, Exec(p, l, ixs[0]).value, ixs[1..]);
    }
  }

  lemma {:induction false} RunOpenings(p: Program, l: Ledger, txs: seq<Tx>)
    requires OpeningsFit(l.history)
    ensures OpeningsFit(Run(p, l, txs).history)
  {
    hide OpeningsFit, Exec;
    if txs != [] {
      RunOpenings(p, l, txs[..|txs| - 1]);
      var before, tx := Run(p, l, txs[..|txs| - 1]), txs[|txs| - 1];
      if tx.Atomic? && ExecAll(p, before, tx.instructions).Ok? {
        ExecAllOpenings(p, before, tx.instructions);
      }
    }
  }

  lemma ReachableOpenings(p: Program, l: Ledger)
    requires Reachable(p, l)
    ensures OpeningsFit(l.history)
  {
    var wallets: map<Pubkey, nat>, vaults: map<Key, nat>, slot: nat, txs: seq<Tx> :|
      Run(p, Genesis(wallets, vaults, slot), txs) == l;
    RunOpenings(p, Genesis(wallets, vaults, slot), txs);
  }

  /** Event `i` released the conditioned escrow opened by event `j`. */
  ghost predicate ReleasedByProof(h: History<Key, Pubkey>, j: nat, i: nat) {
    && j < i < |h| && h[i].Released? && h[j].Opened? && h[j].key == h[i].key && h[j].deal.Conditioned()
    && forall m | j < m < i :: h[m].key != h[i].key
  }

  /** Each proof release passed the router with the journal rebuilt from the terms it was opened
      with. */
  lemma ProofReleaseBinds(p: Program, l: Ledger, j: nat, i: nat)
    requires Reachable(p, l) && ReleasedByProof(l.history, j, i)
    ensures var e, r := AccountOf(l.history[i].key, l.history[j].deal), l.history[i];
            && e.amount < TWO_64 && r.key == Key(e.sender, e.recipient, e.id)
            && r.journal == ReconstructJournal(p.programId, e) && SealAccepted(p, r.at, e, r.seal)
  {
    hide Replay, ReconstructJournal, SealAccepted;
    ReachableSafe(p, l);
    ReachableOpenings(p, l);
    var j' := SettlementOrigin(AuthOf(p), l.history, i);
    assert j' == j;
  }

  /** The journal is built from the parties, the id, the amount and the condition only. */
  lemma JournalReads(programId: Pubkey, e: EscrowAccount, e': EscrowAccount)
    requires e.sender == e'.sender && e.recipient == e'.recipient && e.id == e'.id
    requires e.amount == e'.amount && e.condition == e'.condition
    ensures ReconstructJournal(programId, e) == ReconstructJournal(programId, e')
  {
  }

  /** Two proof releases, of any two programs on any two ledgers, rest on one journal exactly when
      the program ids, the keys, the amounts and the conditions agree. The journal says nothing
      else: not the cluster, the image, or the locks. */
  lemma JournalsAgreeIff(p: Program, l: Ledger, j: nat, i: nat, p': Program, l': Ledger, j': nat, i': nat)
    requires Reachable(p, l) && ReleasedByProof(l.history, j, i)
    requires Reachable(p', l') && ReleasedByProof(l'.history, j', i')
    ensures var deal, deal' := l.history[j].deal, l'.history[j'].deal;
            l.history[i].journal == l'.history[i'].journal <==>
            && p.programId == p'.programId && l.history[i].key == l'.history[i'].key
            && deal.amount == deal'.amount && deal.condition == deal'.condition
  {
    hide ReconstructJournal, SealAccepted, Reachable;
    ProofReleaseBinds(p, l, j, i);
    ProofReleaseBinds(p', l', j', i');
    var e := AccountOf(l.history[i].key, l.history[j].deal);
    var e' := AccountOf(l'.history[i'].key, l'.history[j'].deal);
    if l.history[i].journal == l'.history[i'].journal {
      JournalInjective(p.programId, e, p'.programId, e');
    }
    if l.history[i].key == l'.history[i'].key && e.amount == e'.amount && e.condition == e'.condition {
      JournalReads(p.programId, e, e');
    }
  }

  /** In one run of one program, two releases on one journal have an opening in between. */
  lemma SharedJournalIff(p: Program, l: Ledger, j: nat, i: nat, j': nat, i': nat)
    requires Reachable(p, l) && i < i'
    requires ReleasedByProof(l.history, j, i) && ReleasedByProof(l.history, j', i')
    ensures var h := l.history;
            && (h[i].journal == h[i'].journal <==>
                  && h[i].key == h[i'].key && h[j].deal.amount == h[j'].deal.amount
                  && h[j].deal.condition == h[j'].deal.condition)
            && (h[i].journal == h[i'].journal ==> i < j' < i')
  {
    hide Reachable;
    JournalsAgreeIff(p, l, j, i, p, l, j', i');
  }

  /** An escrow opened again under the same key, with the same amount and condition and any locks,
      is released by the same seal: a proof authorises a release per opening, not one for all. */
  lemma SealReleasesAgain(p: Program, l: Ledger, key: Key, accounts: seq<AccountMeta>, seal: Bytes,
                          finishAfter: Option<U64>, cancelAfter: Option<U64>)
    requires Reachable(p, l) && TotalLamports(l) < TWO_64 && key in l.accounts
    requires var finish := Exec(p, l, Finish(key.recipient, key, accounts, seal));
             finish.Ok? && Balance(finish.value.wallets, key.sender) >= p.rent + l.accounts[key].amount
    requires var e := l.accounts[key];
             var again := Deal(key.sender, key.recipient, e.amount, finishAfter, cancelAfter, e.condition);
             MayOpen(again) && FinishOpen(again, l.slot)
    ensures l.accounts[key].amount < TWO_64
    ensures var e, finish := l.accounts[key], Finish(key.recipient, key, accounts, seal);
            var open := Create(key.sender, key.recipient, key.id, e.amount, finishAfter, cancelAfter, e.condition);
            var again := Deal(key.sender, key.recipient, e.amount, finishAfter, cancelAfter, e.condition);
            var release := FinishRecord(p, l, key, seal);
            var r := ExecAll(p, l, [finish, open, finish]);
            r.Ok? && r.value.history == l.history + [release, Opened(l.slot, key, again), release]
  {
    hide Exec, ExecAll, ReconstructJournal, ProofAccepted, FinishRecord, PaidOnly, TotalLamports, Reachable;
    var e, finish := l.accounts[key], Finish(key.recipient, key, accounts, seal);
    assert e.amount < TWO_64 && key == Key(e.sender, e.recipient, e.id) && key.sender != key.recipient by {
      hide Replay, Chronicle;
      ReachableSafe(p, l);
    }
    FinishSucceedsIff(p, l, key.recipient, key, accounts, seal);
    ReachableNext(p, l, finish);
    var l1 := Exec(p, l, finish).value;
    EmptiedByFinish(p, l, key, accounts, seal);
    var open := Create(key.sender, key.recipient, key.id, e.amount, finishAfter, cancelAfter, e.condition);
    OpensOn(p, l1, key, e.amount, finishAfter, cancelAfter, e.condition);
    var l2 := Exec(p, l1, open).value;
    SameRelease(p, l, l2, key, accounts, seal);
    FinishSucceedsIff(p, l2, key.recipient, key, accounts, seal);
    ExecThree(p, l, finish, open, finish);
    var release, again := FinishRecord(p, l, key, seal), DealOf(l2.accounts[key]);
    assert l.history + [release] + [Opened(l.slot, key, again)] + [release] ==
           l.history + [release, Opened(l.slot, key, again), release];
  }

  /** Opening an escrow at an address that holds nothing. */
  lemma OpensOn(p: Program, l: Ledger, key: Key, amount: U64, finishAfter: Option<U64>, cancelAfter: Option<U64>,
                condition: Digest)
    requires Reachable(p, l) && TotalLamports(l) < TWO_64 && key !in l.accounts && Balance(l.vaults, key) == 0
    requires MayOpen(Deal(key.sender, key.recipient, amount, finishAfter, cancelAfter, condition))
    requires key.sender != key.recipient && p.rent + amount <= Balance(l.wallets, key.sender)
    ensures var open := Create(key.sender, key.recipient, key.id, amount, finishAfter, cancelAfter, condition);
            var e := EscrowAccount(key.sender, key.recipient, amount, key.id, finishAfter, cancelAfter, condition);
            var r := Exec(p, l, open);
            && r.Ok? && Reachable(p, r.value) && TotalLamports(r.value) == TotalLamports(l)
            && key in r.value.accounts && r.value.accounts[key] == e && r.value.slot == l.slot
            && r.value.history == l.history + [Opened(l.slot, key, DealOf(e))]
  {
    hide ReconstructJournal, ProofAccepted, TotalLamports, Replay, MayOpen, Reachable;
    var open := Create(key.sender, key.recipient, key.id, amount, finishAfter, cancelAfter, condition);
    CreateSucceedsIff(p, l, key.sender, key.recipient, key.id, amount, finishAfter, cancelAfter, condition);
    ReachableNext(p, l, open);
  }

  lemma EmptiedByFinish(p: Program, l: Ledger, key: Key, accounts: seq<AccountMeta>, seal: Bytes)
    requires Reachable(p, l) && TotalLamports(l) < TWO_64
    requires Exec(p, l, Finish(key.recipient, key, accounts, seal)).Ok?
    ensures var after := Exec(p, l, Finish(key.recipient, key, accounts, seal)).value;
            Balance(after.vaults, key) == 0 && key !in after.accounts
  {
    hide Exec, TotalLamports;
    FinishSucceedsIff(p, l, key.recipient, key, accounts, seal);
  }

  /** Releases of two accounts that differ only in their locks need the same and record the same. */
  lemma SameRelease(p: Program, l: Ledger, l': Ledger, key: Key, accounts: seq<AccountMeta>, seal: Bytes)
    requires key in l.accounts && key in l'.accounts && l.slot == l'.slot
    requires var e, e' := l.accounts[key], l'.accounts[key];
             && e.sender == e'.sender && e.recipient == e'.recipient && e.id == e'.id
             && e.amount == e'.amount && e.condition == e'.condition
    ensures ProofAccepted(p, l.slot, l.accounts[key], accounts, seal) <==>
            ProofAccepted(p, l.slot, l'.accounts[key], accounts, seal)
    ensures FinishRecord(p, l, key, seal) == FinishRecord(p, l', key, seal)
  {
    hide ReconstructJournal;
    JournalReads(p.programId, l.accounts[key], l'.accounts[key]);
  }

  lemma ExecThree(p: Program, l: Ledger, a: Instruction, b: Instruction, c: Instruction)
    requires Exec(p, l, a).Ok? && Exec(p, Exec(p, l, a).value, b).Ok?
    ensures ExecAll(p, l, [a, b, c]) == Exec(p, Exec(p, Exec(p, l, a).value, b).value, c)
  {
    hide Exec;
    var l1 := Exec(p, l, a).value;
    var l2 := Exec(p, l1, b).value;
    assert [a, b, c][1..] == [b, c] && [b, c][1..] == [c] && [c][1..] == [];
    assert ExecAll(p, l2, [c]) == Exec(p, l2, c);
    assert ExecAll(p, l1, [b, c]) == ExecAll(p, l2, [c]);
  }

  lemma OneWallet(l: Ledger, owner: Pubkey, lamports: nat)
    requires l.wallets == map[owner := lamports] && l.vaults == map[]
    ensures TotalLamports(l) == lamports
  {
    SumUpdate(map[], owner, lamports);
    assert l.wallets == map[][owner := lamports];
  }

  /** A ledger on which one wallet holds just enough to open an escrow. */
  function Funded(p: Program, key: Key, amount: U64, slot: nat): Ledger {
    Genesis(map[key.sender := p.rent + amount], map[], slot)
  }

  /** From such a ledger the escrow can be opened in the first transaction. */
  lemma OpenFromNothing(p: Program, key: Key, amount: U64, finishAfter: Option<U64>, cancelAfter: Option<U64>,
                        condition: Digest, slot: nat) returns (l: Ledger)
    requires key.sender != key.recipient && p.rent + amount < TWO_64
    requires MayOpen(Deal(key.sender, key.recipient, amount, finishAfter, cancelAfter, condition))
    ensures var open := Create(key.sender, key.recipient, key.id, amount, finishAfter, cancelAfter, condition);
            Exec(p, Funded(p, key, amount, slot), open) == Ok(l)
    ensures Reachable(p, l) && TotalLamports(l) == p.rent + amount && l.slot == slot && key in l.accounts
    ensures l.accounts[key] ==
            EscrowAccount(key.sender, key.recipient, amount, key.id, finishAfter, cancelAfter, condition)
    ensures l.history == [Opened(slot, key, DealOf(l.accounts[key]))]
  {
    hide Exec, TotalLamports, MayOpen;
    var start := Funded(p, key, amount, slot);
    assert Run(p, start, []) == start;
    OneWallet(start, key.sender, p.rent + amount);
    OpensOn(p, start, key, amount, finishAfter, cancelAfter, condition);
    l := Exec(p, start, Create(key.sender, key.recipient, key.id, amount, finishAfter, cancelAfter, condition)).value;
  }

  /** One receipt, one run: with a seal the router accepts for it in that slot, a conditioned escrow
      is opened and released from nothing. */
  lemma ReleaseFromNothing(p: Program, key: Key, amount: U64, condition: Digest, accounts: seq<AccountMeta>,
                           seal: Bytes, slot: nat) returns (l: Ledger)
    requires key.sender != key.recipient && amount > 0 && p.rent + amount < TWO_64 && condition != ZERO_WORD
    requires ProofAccepted(p, slot, EscrowAccount(key.sender, key.recipient, amount, key.id, None, Some(1), condition),
                           accounts, seal)
    ensures Reachable(p, l) && ReleasedByProof(l.history, 0, 1)
    ensures var e := EscrowAccount(key.sender, key.recipient, amount, key.id, None, Some(1), condition);
            l.history == [Opened(slot, key, DealOf(e)),
                          Released(slot, key, key.recipient, amount, seal, ReconstructJournal(p.programId, e))]
  {
    hide Exec, ReconstructJournal, ProofAccepted, TotalLamports, Reachable, PaidOnly;
    var l0 := OpenFromNothing(p, key, amount, None, Some(1), condition, slot);
    var finish := Finish(key.recipient, key, accounts, seal);
    FinishSucceedsIff(p, l0, key.recipient, key, accounts, seal);
    ReachableNext(p, l0, finish);
    l := Exec(p, l0, finish).value;
  }
}
