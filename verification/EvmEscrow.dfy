/** The Ethereum escrow contract as a state machine over call trees, in which the payee of a
    payout may run arbitrary code before the payout returns. */
module EvmEscrow {
  import opened Bytes
  import opened EvmJournal
  import opened Settlement

  /** A transaction or message sender; never the zero address. */
  type Account = a: Address | a != 0 witness 1

  /** What the contract is deployed with, and the two primitives it calls. The verifier is a router
      whose verdict may change from block to block. */
  datatype Deployment = Deployment(
    self: Address,
    imageId: Digest,
    sha256: HashFn,
    verifies: (nat, Bytes, Digest, Digest) -> bool)

  /** The contract's storage, its balance, the block it runs in and the records it has emitted.
      `forced` counts ether that arrived without a call to `createEscrow`. */
  datatype Contract = Contract(
    lastId: nat,
    escrows: map<nat, EscrowDB>,
    balance: nat,
    entered: bool,
    block: nat,
    forced: nat,
    history: History<nat, Address>)

  datatype EvmError =
    | InvalidRecipient | InsufficientValue | TimeLockUnset | ConditionRequiresCancel | InvalidTimeOrder
    | EscrowNotExists | OnlyRecipient | OnlySender | AlreadySettled | TooEarlyToFinish
    | TooEarlyToCancel | CancelDisabled | TransferFailed | BadJournal(reason: JournalError)
    | ProofRejected | ReentrantCall | IdOverflow | FrameReverted

  /** One call into the contract or one frame of foreign code around such calls. The code a
      payee runs on receiving its payout is a list of calls of the same kind. */
  datatype Call =
    | Create(caller: Account, value: U256, recipient: Address, finishAfter: U256, cancelAfter: U256,
             conditionId: Digest)
    | Finish(caller: Account, id: nat, seal: Bytes, journal: Bytes, payee: Payee)
    | Cancel(caller: Account, id: nat, payee: Payee)
    | Force(ether: nat)
    | Frame(calls: seq<Call>, reverts: bool)

  datatype Payee = Payee(calls: seq<Call>, accepts: bool)

  /** The state after a call and, if the call reverted, why; a reverted call changes nothing. */
  datatype Step = Step(after: Contract, error: Option<EvmError>)

  const EMPTY_SLOT := EscrowDB(0, 0, 0, 0, 0, ZERO_WORD, false)

  function Slot(s: Contract, id: nat): EscrowDB {
    if id in s.escrows then s.escrows[id] else EMPTY_SLOT
  }

  // ---------------------------------------------------------------- create

  function CreateGuard(value: U256, recipient: Address, finishAfter: U256, cancelAfter: U256, conditionId: Digest):
    Outcome<EvmError>
  {
    if recipient == 0 then Fail(InvalidRecipient)
    else if value == 0 then Fail(InsufficientValue)
    else if finishAfter == 0 && cancelAfter == 0 then Fail(TimeLockUnset)
    else if conditionId != ZERO_WORD && cancelAfter == 0 then Fail(ConditionRequiresCancel)
    else if finishAfter != 0 && cancelAfter != 0 && finishAfter >= cancelAfter then Fail(InvalidTimeOrder)
    else Pass
  }

  function Created(s: Contract, e: EscrowDB): Contract {
    var id := s.lastId + 1;
    s.(lastId := id, escrows := s.escrows[id := e], balance := s.balance + e.amount,
       history := s.history + [Opened(s.block, id, DealOf(e))])
  }

  function CreateStep(s: Contract, caller: Account, value: U256, recipient: Address, finishAfter: U256,
                      cancelAfter: U256, conditionId: Digest): Step
  {
    match CreateGuard(value, recipient, finishAfter, cancelAfter, conditionId)
    case Fail(e) => Step(s, Some(e))
    case Pass =>
      if s.lastId + 1 >= TWO_256 then Step(s, Some(IdOverflow))
      else Step(Created(s, EscrowDB(caller, recipient, value, finishAfter, cancelAfter, conditionId, false)), None)
  }

  // ---------------------------------------------------------------- finish and cancel

  function VerifyReceipt(d: Deployment, at: nat, e: EscrowDB, id: nat, seal: Bytes, journal: Bytes): Outcome<EvmError> {
    match CheckBinding(d.self, e, id, journal)
    case Fail(reason) => Fail(BadJournal(reason))
    case Pass => if d.verifies(at, seal, d.imageId, d.sha256(journal)) then Pass else Fail(ProofRejected)
  }

  function FinishGuard(d: Deployment, s: Contract, caller: Account, id: nat, seal: Bytes, journal: Bytes):
    Outcome<EvmError>
  {
    var e := Slot(s, id);
    if s.entered then Fail(ReentrantCall)
    else if e.sender == 0 then Fail(EscrowNotExists)
    else if caller != e.recipient then Fail(OnlyRecipient)
    else if e.settled then Fail(AlreadySettled)
    else if e.finishAfter != 0 && s.block < e.finishAfter then Fail(TooEarlyToFinish)
    else if e.conditionId != ZERO_WORD then VerifyReceipt(d, s.block, e, id, seal, journal)
    else Pass
  }

  function CancelGuard(s: Contract, caller: Account, id: nat): Outcome<EvmError> {
    var e := Slot(s, id);
    if s.entered then Fail(ReentrantCall)
    else if e.sender == 0 then Fail(EscrowNotExists)
    else if caller != e.sender then Fail(OnlySender)
    else if e.settled then Fail(AlreadySettled)
    else if e.cancelAfter == 0 then Fail(CancelDisabled)
    else if s.block < e.cancelAfter then Fail(TooEarlyToCancel)
    else Pass
  }

  /** The moment the payee's code gets control: settled, emptied, recorded, paid, and locked. */
  function PayingOut(s: Contract, id: nat, record: Event<nat, Address>): Contract
    requires s.balance >= Slot(s, id).amount
  {
    var e := Slot(s, id);
    s.(entered := true, escrows := s.escrows[id := e.(settled := true, amount := 0)],
       balance := s.balance - e.amount, history := s.history + [record])
  }

  /** Sends the payout, runs the payee, and unlocks; everything is undone if the send fails. */
  function Payout(d: Deployment, s: Contract, id: nat, record: Event<nat, Address>, payee: Payee): Step
    decreases payee, 1
  {
    if s.balance < Slot(s, id).amount then Step(s, Some(TransferFailed))
    else
      var after := ExecAll(d, PayingOut(s, id, record), payee.calls);
      if payee.accepts then Step(after.(entered := false), None) else Step(s, Some(TransferFailed))
  }

  function FinishRecord(s: Contract, id: nat, seal: Bytes, journal: Bytes): Event<nat, Address> {
    Released(s.block, id, Slot(s, id).recipient, Slot(s, id).amount, seal, journal)
  }

  function CancelRecord(s: Contract, id: nat): Event<nat, Address> {
    Refunded(s.block, id, Slot(s, id).sender, Slot(s, id).amount)
  }

  /** One call, with everything its payee does inside it. */
  function Exec(d: Deployment, s: Contract, c: Call): Step
    decreases c, 2
  {
    match c
    case Create(caller, value, recipient, finishAfter, cancelAfter, conditionId) =>
      CreateStep(s, caller, value, recipient, finishAfter, cancelAfter, conditionId)
    case Finish(caller, id, seal, journal, payee) =>
      (match FinishGuard(d, s, caller, id, seal, journal)
       case Fail(e) => Step(s, Some(e))
       case Pass => Payout(d, s, id, FinishRecord(s, id, seal, journal), payee))
    case Cancel(caller, id, payee) =>
      (match CancelGuard(s, caller, id)
       case Fail(e) => Step(s, Some(e))
       case Pass => Payout(d, s, id, CancelRecord(s, id), payee))
    case Force(ether) =>
      Step(s.(balance := s.balance + ether, forced := s.forced + ether), None)
    case Frame(calls, reverts) =>
      if reverts then Step(s, Some(FrameReverted)) else Step(ExecAll(d, s, calls), None)
  }

  function ExecAll(d: Deployment, s: Contract, calls: seq<Call>): Contract
    decreases calls, 0
  {
    if calls == [] then s else ExecAll(d, Exec(d, s, calls[0]).after, calls[1..])
  }

  /** Every state the contract passes through while a call runs, including those inside
      payouts and inside frames that are rolled back in the end. */
  function Points(d: Deployment, s: Contract, c: Call): seq<Contract>
    decreases c, 1
  {
    var end := [Exec(d, s, c).after];
    match c
    case Create(_, _, _, _, _, _) => end
    case Finish(caller, id, seal, journal, payee) =>
      if FinishGuard(d, s, caller, id, seal, journal).Pass? && s.balance >= Slot(s, id).amount then
        var paying := PayingOut(s, id, FinishRecord(s, id, seal, journal));
        [paying] + PointsAll(d, paying, payee.calls) + end
      else end
    case Cancel(caller, id, payee) =>
      if CancelGuard(s, caller, id).Pass? && s.balance >= Slot(s, id).amount then
        var paying := PayingOut(s, id, CancelRecord(s, id));
        [paying] + PointsAll(d, paying, payee.calls) + end
      else end
    case Force(_) => end
    case Frame(calls, _) => [s] + PointsAll(d, s, calls) + end
  }

  function PointsAll(d: Deployment, s: Contract, calls: seq<Call>): seq<Contract>
    decreases calls, 0
  {
    if calls == [] then []
    else Points(d, s, calls[0]) + PointsAll(d, Exec(d, s, calls[0]).after, calls[1..])
  }

  /** `PointsAll` misses nothing: whatever happens inside any call of a list, run from where the
      earlier calls left off, is among the points of the list. */
  lemma {:induction false} PointsCover(d: Deployment, s: Contract, calls: seq<Call>, k: nat)
    requires k < |calls|
    ensures forall p | p in Points(d, ExecAll(d, s, calls[..k]), calls[k]) :: p in PointsAll(d, s, calls)
    decreases |calls|
  {
    hide Points, Exec;
    if k > 0 {
      var next := Exec(d, s, calls[0]).after;
      PointsCover(d, next, calls[1..], k - 1);
      assert calls[1..][..k - 1] == calls[..k][1..];
    } else {
      assert calls[..0] == [];
    }
  }

  // ---------------------------------------------------------------- the abstract machine's view

  function Lock(block: nat): Option<nat> {
    if block == 0 then None else Some(block)
  }

  function DealOf(e: EscrowDB): Deal<Address> {
    Deal(e.sender, e.recipient, e.amount, Lock(e.finishAfter), Lock(e.cancelAfter), e.conditionId)
  }

  function EscrowOf(deal: Deal<Address>): EscrowDB {
    EscrowDB(deal.sender, deal.recipient, deal.amount, deal.finishAfter.GetOr(0), deal.cancelAfter.GetOr(0),
             deal.condition, false)
  }

  function LiveOf(escrows: map<nat, EscrowDB>): Live<nat, Address> {
    map id | id in escrows && !escrows[id].settled :: DealOf(escrows[id])
  }

  function AuthOf(d: Deployment): Auth<nat, Address> {
    (at: nat, id: nat, deal: Deal<Address>, seal: Bytes, journal: Bytes) =>
      VerifyReceipt(d, at, EscrowOf(deal), id, seal, journal).Pass?
  }

  predicate Storage(s: Contract) {
    forall id | id in s.escrows ::
      && 1 <= id <= s.lastId
      && s.escrows[id].sender != 0 && s.escrows[id].recipient != 0
      && (s.escrows[id].settled ==> s.escrows[id].amount == 0)
      && s.escrows[id].amount < TWO_256
  }

  /** Ids are given out one after another, from 1. */
  predicate Dense(s: Contract) {
    forall id | 1 <= id <= s.lastId :: id in s.escrows
  }

  /** The keys of the openings of a history, in order. */
  function OpenedKeys(h: History<nat, Address>): seq<nat> {
    if h == [] then []
    else
      var e := h[|h| - 1];
      OpenedKeys(h[..|h| - 1]) + if e.Opened? then [e.key] else []
  }

  /** The k-th escrow ever opened has id k, and `lastId` counts them. */
  predicate Numbered(h: History<nat, Address>, lastId: nat) {
    && |OpenedKeys(h)| == lastId
    && forall k | 0 <= k < lastId :: OpenedKeys(h)[k] == k + 1
  }

  predicate Chronicle(h: History<nat, Address>, lastId: nat, block: nat) {
    && (forall i | 0 <= i < |h| :: h[i].at <= block)
    && (forall i, j | 0 <= i < j < |h| :: h[i].at <= h[j].at)
    && (forall i | 0 <= i < |h| && h[i].Opened? :: 1 <= h[i].key <= lastId)
    && (forall i, j | 0 <= i < j < |h| && h[i].Opened? && h[j].Opened? :: h[i].key < h[j].key)
  }

  /** What holds of the contract at every point of every run: it owes exactly what it holds
      minus what was forced in, and its records are a legal history of the abstract machine
      whose open deals are its unsettled escrows. */
  ghost predicate Inv(d: Deployment, s: Contract) {
    && Storage(s) && Dense(s)
    && Chronicle(s.history, s.lastId, s.block)
    && Numbered(s.history, s.lastId)
    && s.balance == Held(LiveOf(s.escrows)) + s.forced
    && Replay(AuthOf(d), s.history) == Some(LiveOf(s.escrows))
  }

  lemma CreateGuardIsMayOpen(caller: Account, value: U256, recipient: Address, finishAfter: U256, cancelAfter: U256,
                             conditionId: Digest)
    ensures CreateGuard(value, recipient, finishAfter, cancelAfter, conditionId).Pass? <==>
            recipient != 0
            && MayOpen(DealOf(EscrowDB(caller, recipient, value, finishAfter, cancelAfter, conditionId, false)))
  {
  }

  lemma CreatedLive(s: Contract, e: EscrowDB)
    requires Storage(s) && e.sender != 0 && e.recipient != 0 && !e.settled && e.amount < TWO_256
    ensures Storage(Created(s, e))
    ensures s.lastId + 1 !in LiveOf(s.escrows)
    ensures LiveOf(Created(s, e).escrows) == LiveOf(s.escrows)[s.lastId + 1 := DealOf(e)]
  {
  }

  lemma RecordedChronicle(h: History<nat, Address>, lastId: nat, lastId': nat, block: nat, record: Event<nat, Address>)
    requires Chronicle(h, lastId, block) && record.at == block && lastId <= lastId'
    requires record.Opened? ==> record.key == lastId' == lastId + 1
    ensures Chronicle(h + [record], lastId', block)
  {
  }

  lemma RecordedNumbered(h: History<nat, Address>, lastId: nat, record: Event<nat, Address>)
    requires Numbered(h, lastId) && (record.Opened? ==> record.key == lastId + 1)
    ensures Numbered(h + [record], if record.Opened? then lastId + 1 else lastId)
  {
    assert (h + [record])[..|h + [record]| - 1] == h;
  }

  lemma RecordedReplay(d: Deployment, h: History<nat, Address>, record: Event<nat, Address>)
    requires Replay(AuthOf(d), h).Some? && Legal(AuthOf(d), Replay(AuthOf(d), h).value, record)
    ensures Replay(AuthOf(d), h + [record]) == Some(After(Replay(AuthOf(d), h).value, record))
  {
    assert (h + [record])[..|h + [record]| - 1] == h;
  }

  lemma CreatedBalance(s: Contract, e: EscrowDB)
    requires Storage(s) && e.sender != 0 && e.recipient != 0 && !e.settled && e.amount < TWO_256
    ensures Held(LiveOf(Created(s, e).escrows)) == Held(LiveOf(s.escrows)) + e.amount
  {
    CreatedLive(s, e);
    var id: nat := s.lastId + 1;
    HeldOpen(LiveOf(s.escrows), id, DealOf(e));
  }

  lemma CreatedHistory(d: Deployment, s: Contract, e: EscrowDB)
    requires Inv(d, s)
    requires e.sender != 0 && e.recipient != 0 && !e.settled && e.amount < TWO_256 && MayOpen(DealOf(e))
    ensures var after := Created(s, e);
            && Chronicle(after.history, after.lastId, after.block)
            && Numbered(after.history, after.lastId)
            && Replay(AuthOf(d), after.history) == Some(LiveOf(after.escrows))
  {
    hide Chronicle, Numbered, Replay, LiveOf, Held, CheckBinding, VerifyReceipt, MayOpen;
    CreatedLive(s, e);
    var id: nat := s.lastId + 1;
    var record := Opened(s.block, id, DealOf(e));
    assert Legal(AuthOf(d), LiveOf(s.escrows), record);
    RecordedChronicle(s.history, s.lastId, id, s.block, record);
    RecordedNumbered(s.history, s.lastId, record);
    RecordedReplay(d, s.history, record);
  }

  lemma CreatedSafe(d: Deployment, s: Contract, e: EscrowDB)
    requires Inv(d, s)
    requires e.sender != 0 && e.recipient != 0 && !e.settled && e.amount < TWO_256 && MayOpen(DealOf(e))
    ensures Inv(d, Created(s, e))
  {
    hide Numbered, Chronicle, Replay, Held;
    CreatedLive(s, e);
    CreatedBalance(s, e);
    CreatedHistory(d, s, e);
  }

  /** The guards let through exactly the settlements the abstract machine allows. */
  lemma FinishGuardIsLegal(d: Deployment, s: Contract, caller: Account, id: nat, seal: Bytes, journal: Bytes)
    requires Storage(s)
    ensures FinishGuard(d, s, caller, id, seal, journal).Pass? <==>
            && !s.entered
            && id in LiveOf(s.escrows) && caller == LiveOf(s.escrows)[id].recipient
            && Legal(AuthOf(d), LiveOf(s.escrows), FinishRecord(s, id, seal, journal))
  {
    var e := Slot(s, id);
    assert DealOf(e).Conditioned() <==> e.conditionId != ZERO_WORD;
    CheckBindingReads(d.self, e, EscrowOf(DealOf(e)), id, journal);
  }

  /** The journal check reads only the parties, the amount and the condition. */
  lemma CheckBindingReads(self: Address, e: EscrowDB, e': EscrowDB, id: nat, journal: Bytes)
    requires e.sender == e'.sender && e.recipient == e'.recipient
    requires e.amount == e'.amount && e.conditionId == e'.conditionId
    ensures CheckBinding(self, e, id, journal) == CheckBinding(self, e', id, journal)
  {
    var header := ExpectHeader(journal);
    if header.Ok? {
      PartiesRead(header.value, self, e, e', id);
      var parties := ExpectParties(header.value, self, e, id);
      if parties.Ok? {
        TermsRead(parties.value, e, e');
      }
    }
  }

  lemma PartiesRead(s: Bytes, self: Address, e: EscrowDB, e': EscrowDB, id: nat)
    requires e.sender == e'.sender && e.recipient == e'.recipient
    ensures ExpectParties(s, self, e, id) == ExpectParties(s, self, e', id)
  {
  }

  lemma TermsRead(s: Bytes, e: EscrowDB, e': EscrowDB)
    requires e.amount == e'.amount && e.conditionId == e'.conditionId
    ensures ExpectTerms(s, e) == ExpectTerms(s, e')
  {
  }

  lemma CancelGuardIsLegal(d: Deployment, s: Contract, caller: Account, id: nat)
    requires Storage(s)
    ensures CancelGuard(s, caller, id).Pass? <==>
            && !s.entered
            && id in LiveOf(s.escrows) && caller == LiveOf(s.escrows)[id].sender
            && Legal(AuthOf(d), LiveOf(s.escrows), CancelRecord(s, id))
  {
  }

  lemma PayingOutSafe(d: Deployment, s: Contract, id: nat, record: Event<nat, Address>)
    requires Inv(d, s) && id in LiveOf(s.escrows)
    requires !record.Opened? && record.key == id && record.at == s.block
    requires Legal(AuthOf(d), LiveOf(s.escrows), record)
    ensures s.balance >= Slot(s, id).amount
    ensures Inv(d, PayingOut(s, id, record))
    ensures id !in LiveOf(PayingOut(s, id, record).escrows)
  {
    hide CheckBinding, VerifyReceipt, Chronicle, Numbered, Replay;
    HeldSettle(LiveOf(s.escrows), id);
    var after := PayingOut(s, id, record);
    assert LiveOf(after.escrows) == LiveOf(s.escrows) - {id};
    RecordedChronicle(s.history, s.lastId, s.lastId, s.block, record);
    RecordedNumbered(s.history, s.lastId, record);
    RecordedReplay(d, s.history, record);
  }

  /** A state reached from `s` in one block: nothing recorded is lost. */
  ghost predicate Follows(d: Deployment, s: Contract, t: Contract) {
    && Inv(d, t)
    && s.history <= t.history
    && t.block == s.block
    && s.lastId <= t.lastId
  }

  ghost predicate AllFollow(d: Deployment, s: Contract, points: seq<Contract>) {
    forall p | p in points :: Follows(d, s, p)
  }

  lemma FollowsThrough(d: Deployment, s: Contract, t: Contract, points: seq<Contract>)
    requires Follows(d, s, t) && AllFollow(d, t, points)
    ensures AllFollow(d, s, points)
  {
  }

  lemma {:induction false} PayoutSafe(d: Deployment, s: Contract, id: nat, record: Event<nat, Address>, payee: Payee)
    requires Inv(d, s) && !s.entered && id in LiveOf(s.escrows)
    requires !record.Opened? && record.key == id && record.at == s.block
    requires Legal(AuthOf(d), LiveOf(s.escrows), record)
    ensures s.balance >= Slot(s, id).amount
    ensures var step := Payout(d, s, id, record, payee);
            && Follows(d, s, step.after) && !step.after.entered
            && (step.error.None? <==> payee.accepts)
            && (step.error.Some? ==> step.after == s)
    ensures var paying := PayingOut(s, id, record);
            AllFollow(d, s, [paying] + PointsAll(d, paying, payee.calls))
    decreases payee, 1
  {
    hide CheckBinding, VerifyReceipt, Replay, Honours, Held, Legal, Numbered;
    PayingOutSafe(d, s, id, record);
    var paying := PayingOut(s, id, record);
    ExecAllSafe(d, paying, payee.calls);
    FollowsThrough(d, s, paying, PointsAll(d, paying, payee.calls));
    var after := ExecAll(d, paying, payee.calls);
    assert Follows(d, s, after);
    assert Inv(d, after.(entered := false));
  }

  lemma CreateSafe(d: Deployment, s: Contract, caller: Account, value: U256, recipient: Address, finishAfter: U256,
                   cancelAfter: U256, conditionId: Digest)
    requires Inv(d, s)
    ensures var after := CreateStep(s, caller, value, recipient, finishAfter, cancelAfter, conditionId).after;
            Follows(d, s, after) && after.entered == s.entered
  {
    hide Replay, MayOpen, Held, Numbered;
    CreateGuardIsMayOpen(caller, value, recipient, finishAfter, cancelAfter, conditionId);
    if CreateStep(s, caller, value, recipient, finishAfter, cancelAfter, conditionId).error.None? {
      CreatedSafe(d, s, EscrowDB(caller, recipient, value, finishAfter, cancelAfter, conditionId, false));
    }
  }

  /** The invariant holds after every call and at every point inside it. */
  lemma {:induction false} ExecSafe(d: Deployment, s: Contract, c: Call)
    requires Inv(d, s)
    ensures Follows(d, s, Exec(d, s, c).after)
    ensures Exec(d, s, c).after.entered == s.entered
    ensures AllFollow(d, s, Points(d, s, c))
    decreases c, 2
  {
    hide CheckBinding, VerifyReceipt, Replay, MayOpen, Held, Legal, CreateStep, ExecAll, PointsAll, Numbered;
    match c {
      case Create(caller, value, recipient, finishAfter, cancelAfter, conditionId) =>
        CreateSafe(d, s, caller, value, recipient, finishAfter, cancelAfter, conditionId);
      case Finish(caller, id, seal, journal, payee) =>
        FinishGuardIsLegal(d, s, caller, id, seal, journal);
        if FinishGuard(d, s, caller, id, seal, journal).Pass? {
          PayoutSafe(d, s, id, FinishRecord(s, id, seal, journal), payee);
        }
      case Cancel(caller, id, payee) =>
        CancelGuardIsLegal(d, s, caller, id);
        if CancelGuard(s, caller, id).Pass? {
          PayoutSafe(d, s, id, CancelRecord(s, id), payee);
        }
      case Force(_) =>
      case Frame(calls, _) =>
        ExecAllSafe(d, s, calls);
    }
  }

  lemma {:induction false} ExecAllSafe(d: Deployment, s: Contract, calls: seq<Call>)
    requires Inv(d, s)
    ensures Follows(d, s, ExecAll(d, s, calls))
    ensures ExecAll(d, s, calls).entered == s.entered
    ensures AllFollow(d, s, PointsAll(d, s, calls))
    decreases calls, 0
  {
    if calls != [] {
      ExecSafe(d, s, calls[0]);
      var next := Exec(d, s, calls[0]).after;
      ExecAllSafe(d, next, calls[1..]);
      FollowsThrough(d, s, next, PointsAll(d, next, calls[1..]));
    }
  }

  function Genesis(prefunded: nat, block: nat): Contract {
    Contract(0, map[], prefunded, false, block, prefunded, [])
  }

  lemma GenesisSafe(d: Deployment, prefunded: nat, block: nat)
    ensures Inv(d, Genesis(prefunded, block))
  {
    var live := LiveOf(map[]);
    assert live == map[];
    assert Amounts(live) == map[];
  }

  // ---------------------------------------------------------------- what a payee can do

  /** From `s` to `t` only new escrows appeared. */
  predicate OnlyOpens(s: Contract, t: Contract) {
    && s.history <= t.history
    && (forall i | |s.history| <= i < |t.history| :: t.history[i].Opened?)
    && s.lastId <= t.lastId
    && (forall id | id in s.escrows && id <= s.lastId :: id in t.escrows && t.escrows[id] == s.escrows[id])
  }

  /** While the lock is held, finishes and cancels are refused at every depth, so a payee can
      open escrows and nothing else. */
  lemma {:induction false} LockedOnlyOpens(d: Deployment, s: Contract, c: Call)
    requires s.entered
    ensures OnlyOpens(s, Exec(d, s, c).after) && Exec(d, s, c).after.entered
    ensures c.Finish? || c.Cancel? ==> Exec(d, s, c) == Step(s, Some(ReentrantCall))
    decreases c, 1
  {
    if c.Frame? {
      LockedAllOnlyOpens(d, s, c.calls);
    }
  }

  lemma {:induction false} LockedAllOnlyOpens(d: Deployment, s: Contract, calls: seq<Call>)
    requires s.entered
    ensures OnlyOpens(s, ExecAll(d, s, calls)) && ExecAll(d, s, calls).entered
    decreases calls, 0
  {
    if calls != [] {
      LockedOnlyOpens(d, s, calls[0]);
      LockedAllOnlyOpens(d, Exec(d, s, calls[0]).after, calls[1..]);
    }
  }
}
