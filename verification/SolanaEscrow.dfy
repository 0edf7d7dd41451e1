/** The Solana escrow program as a state machine over lamport balances and escrow accounts. */
module SolanaEscrow {
  import opened Bytes
  import opened Settlement
  import opened SolanaJournal

  /** What the address of an escrow account is derived from. */
  datatype Key = Key(sender: Pubkey, recipient: Pubkey, id: U64)

  /** An account the caller passes along for the router. */
  datatype AccountMeta = AccountMeta(key: Pubkey, signer: bool, writable: bool)

  /** The deployed program, its pinned image, the rent reserve of an escrow account, and the two
      primitives it relies on. The router judges raw call data, with the
      accounts passed along; its verdict may change from slot to slot. */
  datatype Program = Program(
    programId: Pubkey,
    imageId: Digest,
    rent: nat,
    sha256: HashFn,
    router: (nat, seq<AccountMeta>, Bytes) -> bool)

  /** Lamports of wallets and of escrow addresses, the live escrow accounts, the slot, and the
      events emitted so far. An address can hold lamports while no account lives there. */
  datatype Ledger = Ledger(
    wallets: map<Pubkey, nat>,
    vaults: map<Key, nat>,
    accounts: map<Key, EscrowAccount>,
    slot: nat,
    history: History<Key, Pubkey>)

  datatype SolanaError =
    | MustSpecifyPath | ConditionRequiresCancel | InvalidTimeOrder | InvalidAmount | InvalidRecipient
    | AccountInUse | InsufficientFunds | AccountNotInitialized | ConstraintSeeds | Unauthorized
    | NotReady | CancelNotAllowed | NotExpired | ProofVerificationFailed | ArithmeticOverflow

  /** The signer of each instruction comes first. */
  datatype Instruction =
    | Create(sender: Pubkey, recipient: Pubkey, id: U64, amount: U64, finishAfter: Option<U64>,
             cancelAfter: Option<U64>, condition: Digest)
    | Finish(recipient: Pubkey, key: Key, accounts: seq<AccountMeta>, seal: Bytes)
    | Cancel(sender: Pubkey, key: Key)
    | Deposit(sender: Pubkey, key: Key, lamports: nat)
    | Transfer(sender: Pubkey, recipient: Pubkey, lamports: nat)

  // ---------------------------------------------------------------- balances

  function Balance<K>(m: map<K, nat>, k: K): nat {
    if k in m then m[k] else 0
  }

  function Credit<K>(m: map<K, nat>, k: K, lamports: nat): map<K, nat> {
    m[k := Balance(m, k) + lamports]
  }

  function Debit<K>(m: map<K, nat>, k: K, lamports: nat): map<K, nat>
    requires lamports <= Balance(m, k)
  {
    m[k := Balance(m, k) - lamports]
  }

  lemma SumCredit<K>(m: map<K, nat>, k: K, lamports: nat)
    ensures Sum(Credit(m, k, lamports)) == Sum(m) + lamports
    ensures Balance(m, k) <= Sum(m)
  {
    SumUpdate(m, k, Balance(m, k) + lamports);
  }

  lemma SumDebit<K>(m: map<K, nat>, k: K, lamports: nat)
    requires lamports <= Balance(m, k)
    ensures Sum(Debit(m, k, lamports)) == Sum(m) - lamports
  {
    SumUpdate(m, k, Balance(m, k) - lamports);
  }

  ghost function TotalLamports(l: Ledger): nat {
    Sum(l.wallets) + Sum(l.vaults)
  }

  // ---------------------------------------------------------------- instructions

  function CreateGuard(amount: U64, finishAfter: Option<U64>, cancelAfter: Option<U64>, condition: Digest):
    Outcome<SolanaError>
  {
    if finishAfter.None? && cancelAfter.None? then Fail(MustSpecifyPath)
    else if condition != ZERO_WORD && cancelAfter.None? then Fail(ConditionRequiresCancel)
    else if cancelAfter.Some? && cancelAfter.value <= finishAfter.GetOr(0) then Fail(InvalidTimeOrder)
    else if amount == 0 then Fail(InvalidAmount)
    else Pass
  }

  /** Account initialisation tops the address up to its rent reserve. */
  function TopUp(p: Program, l: Ledger, key: Key): nat {
    var present := Balance(l.vaults, key);
    if present < p.rent then p.rent - present else 0
  }

  function Created(p: Program, l: Ledger, key: Key, e: EscrowAccount): Ledger
    requires TopUp(p, l, key) + e.amount <= Balance(l.wallets, key.sender)
  {
    var funding := TopUp(p, l, key) + e.amount;
    l.(wallets := Debit(l.wallets, key.sender, funding),
       vaults := Credit(l.vaults, key, funding),
       accounts := l.accounts[key := e],
       history := l.history + [Opened(l.slot, key, DealOf(e))])
  }

  /** The account is initialised first, with its rent reserve, and funded only after the checks. */
  function CreateStep(p: Program, l: Ledger, sender: Pubkey, recipient: Pubkey, id: U64, amount: U64,
                      finishAfter: Option<U64>, cancelAfter: Option<U64>, condition: Digest):
    Result<Ledger, SolanaError>
  {
    var key := Key(sender, recipient, id);
    if recipient == sender then Err(InvalidRecipient)
    else if key in l.accounts then Err(AccountInUse)
    else if Balance(l.wallets, sender) < TopUp(p, l, key) then Err(InsufficientFunds)
    else if Balance(l.vaults, key) + TopUp(p, l, key) >= TWO_64 then Err(ArithmeticOverflow)
    else match CreateGuard(amount, finishAfter, cancelAfter, condition)
      case Fail(e) => Err(e)
      case Pass =>
        var funding := TopUp(p, l, key) + amount;
        if Balance(l.wallets, sender) < funding then Err(InsufficientFunds)
        else if Balance(l.vaults, key) + funding >= TWO_64 then Err(ArithmeticOverflow)
        else Ok(Created(p, l, key, EscrowAccount(sender, recipient, amount, id, finishAfter, cancelAfter, condition)))
  }

  /** The router is asked about the seal, the pinned image and the rebuilt journal's digest. */
  predicate ProofAccepted(p: Program, at: nat, e: EscrowAccount, accounts: seq<AccountMeta>, seal: Bytes) {
    p.router(at, accounts, CpiData(p.sha256, seal, p.imageId, p.sha256(ReconstructJournal(p.programId, e))))
  }

  function FinishGuard(p: Program, l: Ledger, recipient: Pubkey, key: Key, accounts: seq<AccountMeta>, seal: Bytes):
    Outcome<SolanaError>
  {
    if key !in l.accounts then Fail(AccountNotInitialized)
    else
      var e := l.accounts[key];
      if key != Key(e.sender, recipient, e.id) then Fail(ConstraintSeeds)
      else if recipient != e.recipient then Fail(Unauthorized)
      else if e.finishAfter.Some? && l.slot < e.finishAfter.value then Fail(NotReady)
      else if e.condition == ZERO_WORD || ProofAccepted(p, l.slot, e, accounts, seal) then Pass
      else Fail(ProofVerificationFailed)
  }

  function CancelGuard(l: Ledger, sender: Pubkey, key: Key): Outcome<SolanaError> {
    if key !in l.accounts then Fail(AccountNotInitialized)
    else
      var e := l.accounts[key];
      if key != Key(sender, e.recipient, e.id) then Fail(ConstraintSeeds)
      else if sender != e.sender then Fail(Unauthorized)
      else if e.cancelAfter.None? then Fail(CancelNotAllowed)
      else if l.slot < e.cancelAfter.value then Fail(NotExpired)
      else Pass
  }

  function FinishRecord(p: Program, l: Ledger, key: Key, seal: Bytes): Event<Key, Pubkey>
    requires key in l.accounts
  {
    var e := l.accounts[key];
    Released(l.slot, key, e.recipient, e.amount, seal,
             if e.condition != ZERO_WORD then ReconstructJournal(p.programId, e) else [])
  }

  function CancelRecord(l: Ledger, key: Key): Event<Key, Pubkey>
    requires key in l.accounts
  {
    Refunded(l.slot, key, l.accounts[key].sender, l.accounts[key].amount)
  }

  /** `close = sender`: whatever the address still holds goes to the sender and the account is
      gone, so its key can be used again. */
  function Closed(l: Ledger, key: Key): Result<Ledger, SolanaError>
    requires key in l.accounts
  {
    var rest, sender := Balance(l.vaults, key), l.accounts[key].sender;
    if Balance(l.wallets, sender) + rest >= TWO_64 then Err(ArithmeticOverflow)
    else
      Ok(l.(wallets := Credit(l.wallets, sender, rest), vaults := l.vaults[key := 0],
            accounts := l.accounts - {key}))
  }

  function FinishStep(p: Program, l: Ledger, recipient: Pubkey, key: Key, accounts: seq<AccountMeta>, seal: Bytes):
    Result<Ledger, SolanaError>
  {
    match FinishGuard(p, l, recipient, key, accounts, seal)
    case Fail(e) => Err(e)
    case Pass =>
      var amount := l.accounts[key].amount;
      if Balance(l.vaults, key) < amount then Err(ArithmeticOverflow)
      else if Balance(l.wallets, recipient) + amount >= TWO_64 then Err(ArithmeticOverflow)
      else
        Closed(l.(wallets := Credit(l.wallets, recipient, amount), vaults := Debit(l.vaults, key, amount),
                  history := l.history + [FinishRecord(p, l, key, seal)]), key)
  }

  function CancelStep(l: Ledger, sender: Pubkey, key: Key): Result<Ledger, SolanaError> {
    match CancelGuard(l, sender, key)
    case Fail(e) => Err(e)
    case Pass => Closed(l.(history := l.history + [CancelRecord(l, key)]), key)
  }

  function Exec(p: Program, l: Ledger, ix: Instruction): Result<Ledger, SolanaError> {
    match ix
    case Create(sender, recipient, id, amount, finishAfter, cancelAfter, condition) =>
      CreateStep(p, l, sender, recipient, id, amount, finishAfter, cancelAfter, condition)
    case Finish(recipient, key, accounts, seal) => FinishStep(p, l, recipient, key, accounts, seal)
    case Cancel(sender, key) => CancelStep(l, sender, key)
    case Deposit(sender, key, lamports) =>
      if Balance(l.wallets, sender) < lamports then Err(InsufficientFunds)
      else if Balance(l.vaults, key) + lamports >= TWO_64 then Err(ArithmeticOverflow)
      else Ok(l.(wallets := Debit(l.wallets, sender, lamports), vaults := Credit(l.vaults, key, lamports)))
    case Transfer(sender, recipient, lamports) =>
      if Balance(l.wallets, sender) < lamports then Err(InsufficientFunds)
      else
        var debited := Debit(l.wallets, sender, lamports);
        if Balance(debited, recipient) + lamports >= TWO_64 then Err(ArithmeticOverflow)
        else Ok(l.(wallets := Credit(debited, recipient, lamports)))
  }

  // ---------------------------------------------------------------- the abstract machine's view

  function DealOf(e: EscrowAccount): Deal<Pubkey> {
    Deal(e.sender, e.recipient, e.amount, e.finishAfter, e.cancelAfter, e.condition)
  }

  function AccountOf(key: Key, deal: Deal<Pubkey>): EscrowAccount {
    EscrowAccount(deal.sender, deal.recipient, deal.amount, key.id, deal.finishAfter, deal.cancelAfter, deal.condition)
  }

  function LiveOf(accounts: map<Key, EscrowAccount>): Live<Key, Pubkey> {
    map key | key in accounts :: DealOf(accounts[key])
  }

  /** A seal releases a deal when the router accepts it with some accounts passed along. */
  ghost predicate SealAccepted(p: Program, at: nat, e: EscrowAccount, seal: Bytes) {
    exists accounts: seq<AccountMeta> :: ProofAccepted(p, at, e, accounts, seal)
  }

  ghost function AuthOf(p: Program): Auth<Key, Pubkey> {
    (at: nat, key: Key, deal: Deal<Pubkey>, seal: Bytes, journal: Bytes) =>
      && journal == ReconstructJournal(p.programId, AccountOf(key, deal))
      && SealAccepted(p, at, AccountOf(key, deal), seal)
  }

  /** Every live account matches its own address and holds its rent reserve and its amount. */
  ghost predicate Reserved(p: Program, l: Ledger) {
    forall key | key in l.accounts ::
      var e := l.accounts[key];
      && key == Key(e.sender, e.recipient, e.id)
      && e.sender != e.recipient
      && 0 < e.amount < TWO_64
      && Balance(l.vaults, key) >= p.rent + e.amount
  }

  predicate Chronicle(h: History<Key, Pubkey>, slot: nat) {
    && (forall i | 0 <= i < |h| :: h[i].at <= slot)
    && (forall i, j | 0 <= i < j < |h| :: h[i].at <= h[j].at)
  }

  ghost predicate Inv(p: Program, l: Ledger) {
    && Reserved(p, l)
    && Chronicle(l.history, l.slot)
    && Replay(AuthOf(p), l.history) == Some(LiveOf(l.accounts))
  }

  lemma Recorded(p: Program, h: History<Key, Pubkey>, slot: nat, record: Event<Key, Pubkey>)
    requires Chronicle(h, slot) && record.at == slot
    requires Replay(AuthOf(p), h).Some? && Legal(AuthOf(p), Replay(AuthOf(p), h).value, record)
    ensures Chronicle(h + [record], slot)
    ensures Replay(AuthOf(p), h + [record]) == Some(After(Replay(AuthOf(p), h).value, record))
  {
    assert (h + [record])[..|h + [record]| - 1] == h;
  }

  /** The program's creation rule is the abstract machine's. */
  lemma CreateGuardIsMayOpen(e: EscrowAccount, amount: U64, finishAfter: Option<U64>, cancelAfter: Option<U64>)
    requires e.amount == amount && e.finishAfter == finishAfter && e.cancelAfter == cancelAfter
    ensures CreateGuard(amount, finishAfter, cancelAfter, e.condition).Pass? <==> MayOpen(DealOf(e))
  {
  }

  /** The checks pass, with some accounts passed along, exactly for the releases the abstract
      machine allows. */
  lemma FinishGuardIsLegal(p: Program, l: Ledger, recipient: Pubkey, key: Key, seal: Bytes)
    requires Reserved(p, l)
    ensures (exists accounts: seq<AccountMeta> :: FinishGuard(p, l, recipient, key, accounts, seal).Pass?) <==>
            && key in l.accounts && recipient == key.recipient
            && Legal(AuthOf(p), LiveOf(l.accounts), FinishRecord(p, l, key, seal))
  {
    hide ReconstructJournal, ProofAccepted;
    if key in l.accounts {
      var e := l.accounts[key];
      assert AccountOf(key, DealOf(e)) == e;
      if e.condition == ZERO_WORD {
        assert FinishGuard(p, l, recipient, key, [], seal).Pass? <==>
               recipient == key.recipient && FinishOpen(DealOf(e), l.slot);
      } else if SealAccepted(p, l.slot, e, seal) {
        var accounts: seq<AccountMeta> :| ProofAccepted(p, l.slot, e, accounts, seal);
        assert FinishGuard(p, l, recipient, key, accounts, seal).Pass? <==>
               recipient == key.recipient && FinishOpen(DealOf(e), l.slot);
      }
    }
  }

  lemma CancelGuardIsLegal(p: Program, l: Ledger, sender: Pubkey, key: Key)
    requires Reserved(p, l)
    ensures CancelGuard(l, sender, key).Pass? <==>
            && key in l.accounts && sender == key.sender
            && Legal(AuthOf(p), LiveOf(l.accounts), CancelRecord(l, key))
  {
  }

  lemma CreatedConserves(p: Program, l: Ledger, key: Key, e: EscrowAccount)
    requires TopUp(p, l, key) + e.amount <= Balance(l.wallets, key.sender)
    ensures TotalLamports(Created(p, l, key, e)) == TotalLamports(l)
  {
    var funding := TopUp(p, l, key) + e.amount;
    SumDebit(l.wallets, key.sender, funding);
    SumCredit(l.vaults, key, funding);
  }

  lemma CreatedFunded(p: Program, l: Ledger, key: Key, e: EscrowAccount)
    requires Reserved(p, l)
    requires key == Key(e.sender, e.recipient, e.id) && e.sender != e.recipient
    requires 0 < e.amount < TWO_64
    requires TopUp(p, l, key) + e.amount <= Balance(l.wallets, key.sender)
    ensures Reserved(p, Created(p, l, key, e))
  {
  }

  lemma CreatedSafe(p: Program, l: Ledger, key: Key, e: EscrowAccount)
    requires Inv(p, l) && key !in l.accounts
    requires key == Key(e.sender, e.recipient, e.id) && e.sender != e.recipient
    requires MayOpen(DealOf(e)) && e.amount < TWO_64
    requires TopUp(p, l, key) + e.amount <= Balance(l.wallets, key.sender)
    ensures Inv(p, Created(p, l, key, e)) && TotalLamports(Created(p, l, key, e)) == TotalLamports(l)
  {
    hide ReconstructJournal, CpiData, Replay, Reserved, Chronicle, TotalLamports;
    CreatedConserves(p, l, key, e);
    CreatedFunded(p, l, key, e);
    assert LiveOf(Created(p, l, key, e).accounts) == LiveOf(l.accounts)[key := DealOf(e)];
    Recorded(p, l.history, l.slot, Opened(l.slot, key, DealOf(e)));
  }

  lemma ClosedConserves(m: Ledger, key: Key)
    requires key in m.accounts && Closed(m, key).Ok?
    ensures TotalLamports(Closed(m, key).value) == TotalLamports(m)
  {
    SumCredit(m.wallets, m.accounts[key].sender, Balance(m.vaults, key));
    SumUpdate(m.vaults, key, 0);
  }

  lemma ClosedFunded(p: Program, l: Ledger, m: Ledger, key: Key)
    requires Reserved(p, l) && key in l.accounts && m.accounts == l.accounts
    requires forall k | k != key :: Balance(m.vaults, k) == Balance(l.vaults, k)
    requires Closed(m, key).Ok?
    ensures Reserved(p, Closed(m, key).value)
    ensures LiveOf(Closed(m, key).value.accounts) == LiveOf(l.accounts) - {key}
  {
    var after := Closed(m, key).value;
    forall k | k in after.accounts ensures Balance(after.vaults, k) == Balance(l.vaults, k) {
      assert k != key;
    }
  }

  /** Closing after a legal settlement keeps the invariant and every lamport. */
  lemma ClosedSafe(p: Program, l: Ledger, m: Ledger, key: Key, record: Event<Key, Pubkey>)
    requires Inv(p, l) && key in l.accounts
    requires !record.Opened? && record.key == key && record.at == l.slot
    requires Legal(AuthOf(p), LiveOf(l.accounts), record)
    requires m.accounts == l.accounts && m.slot == l.slot && m.history == l.history + [record]
    requires forall k | k != key :: Balance(m.vaults, k) == Balance(l.vaults, k)
    requires Closed(m, key).Ok?
    ensures Inv(p, Closed(m, key).value) && TotalLamports(Closed(m, key).value) == TotalLamports(m)
    ensures Closed(m, key).value.history == l.history + [record]
  {
    hide ReconstructJournal, CpiData, Replay;
    ClosedConserves(m, key);
    ClosedFunded(p, l, m, key);
    Recorded(p, l.history, l.slot, record);
  }

  lemma FinishSafe(p: Program, l: Ledger, recipient: Pubkey, key: Key, accounts: seq<AccountMeta>, seal: Bytes)
    requires Inv(p, l) && FinishStep(p, l, recipient, key, accounts, seal).Ok?
    ensures var after := FinishStep(p, l, recipient, key, accounts, seal).value;
            && Inv(p, after) && TotalLamports(after) == TotalLamports(l)
            && after.history == l.history + [FinishRecord(p, l, key, seal)] && after.slot == l.slot
  {
    hide ReconstructJournal, ProofAccepted, Replay, Legal, Chronicle;
    assert FinishGuard(p, l, recipient, key, accounts, seal).Pass?;
    FinishGuardIsLegal(p, l, recipient, key, seal);
    var amount, record := l.accounts[key].amount, FinishRecord(p, l, key, seal);
    SumCredit(l.wallets, recipient, amount);
    SumDebit(l.vaults, key, amount);
    var m := l.(wallets := Credit(l.wallets, recipient, amount), vaults := Debit(l.vaults, key, amount),
                history := l.history + [record]);
    ClosedSafe(p, l, m, key, record);
  }

  lemma CancelSafe(p: Program, l: Ledger, sender: Pubkey, key: Key)
    requires Inv(p, l) && CancelStep(l, sender, key).Ok?
    ensures var after := CancelStep(l, sender, key).value;
            && Inv(p, after) && TotalLamports(after) == TotalLamports(l)
            && after.history == l.history + [CancelRecord(l, key)] && after.slot == l.slot
  {
    hide ReconstructJournal, ProofAccepted, Replay, Legal, Chronicle;
    CancelGuardIsLegal(p, l, sender, key);
    ClosedSafe(p, l, l.(history := l.history + [CancelRecord(l, key)]), key, CancelRecord(l, key));
  }

  lemma CreateSafe(p: Program, l: Ledger, sender: Pubkey, recipient: Pubkey, id: U64, amount: U64,
                   finishAfter: Option<U64>, cancelAfter: Option<U64>, condition: Digest)
    requires Inv(p, l) && CreateStep(p, l, sender, recipient, id, amount, finishAfter, cancelAfter, condition).Ok?
    ensures var after := CreateStep(p, l, sender, recipient, id, amount, finishAfter, cancelAfter, condition).value;
            && Inv(p, after) && TotalLamports(after) == TotalLamports(l)
            && l.history <= after.history && after.slot == l.slot
  {
    hide ReconstructJournal, Replay, Legal, MayOpen, Chronicle, Reserved, TotalLamports;
    var e := EscrowAccount(sender, recipient, amount, id, finishAfter, cancelAfter, condition);
    CreateGuardIsMayOpen(e, amount, finishAfter, cancelAfter);
    CreatedSafe(p, l, Key(sender, recipient, id), e);
  }

  /** Lamports sent from outside to an escrow address leave every reserve in place. */
  lemma DepositSafe(p: Program, l: Ledger, sender: Pubkey, key: Key, lamports: nat)
    requires Inv(p, l) && Exec(p, l, Deposit(sender, key, lamports)).Ok?
    ensures var after := Exec(p, l, Deposit(sender, key, lamports)).value;
            && Inv(p, after) && TotalLamports(after) == TotalLamports(l)
            && after.history == l.history && after.slot == l.slot
  {
    hide ReconstructJournal, Replay, Chronicle;
    SumDebit(l.wallets, sender, lamports);
    SumCredit(l.vaults, key, lamports);
  }

  lemma TransferSafe(p: Program, l: Ledger, sender: Pubkey, recipient: Pubkey, lamports: nat)
    requires Inv(p, l) && Exec(p, l, Transfer(sender, recipient, lamports)).Ok?
    ensures var after := Exec(p, l, Transfer(sender, recipient, lamports)).value;
            && Inv(p, after) && TotalLamports(after) == TotalLamports(l)
            && after.history == l.history && after.slot == l.slot
  {
    hide ReconstructJournal, Replay, Chronicle;
    SumDebit(l.wallets, sender, lamports);
    SumCredit(Debit(l.wallets, sender, lamports), recipient, lamports);
  }

  /** Every instruction that succeeds keeps the invariant and the total of all lamports. */
  lemma ExecSafe(p: Program, l: Ledger, ix: Instruction)
    requires Inv(p, l) && Exec(p, l, ix).Ok?
    ensures var after := Exec(p, l, ix).value;
            && Inv(p, after) && TotalLamports(after) == TotalLamports(l)
            && l.history <= after.history && after.slot == l.slot
  {
    hide Inv, TotalLamports, CreateStep, FinishStep, CancelStep;
    match ix {
      case Create(sender, recipient, id, amount, finishAfter, cancelAfter, condition) =>
        CreateSafe(p, l, sender, recipient, id, amount, finishAfter, cancelAfter, condition);
      case Finish(recipient, key, accounts, seal) =>
        FinishSafe(p, l, recipient, key, accounts, seal);
      case Cancel(sender, key) =>
        CancelSafe(p, l, sender, key);
      case Deposit(sender, key, lamports) =>
        DepositSafe(p, l, sender, key, lamports);
      case Transfer(sender, recipient, lamports) =>
        TransferSafe(p, l, sender, recipient, lamports);
    }
  }
}
