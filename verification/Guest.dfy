/** The off-chain escrow context and the guest program: from a private proof input to the
    journal bytes it commits. */
module Guest {
  import opened Bytes
  import opened Conditions
  import opened Journal

  datatype ID = Hex(text: string) | Base58(text: string) | Base64(text: string) | Raw(bytes: Bytes)

  /** The text decoders are library code, taken as partial functions. */
  datatype Decoders = Decoders(
    hex: string -> Option<Bytes>,
    base58: string -> Option<Bytes>,
    base64: string -> Option<Bytes>)

  datatype Prover = Prover(crypto: Crypto, decoders: Decoders)

  datatype Asset = Asset(kind: AssetKind, agentId: Option<ID>, amount: nat, decimals: Option<byte>)

  datatype Escrow = Escrow(
    asset: Asset,
    recipient: ID,
    sender: ID,
    condition: Option<Condition>,
    state: ExecutionState)

  datatype ProofInput = ProofInput(escrow: Escrow, chain: Chain, agentId: ID, escrowId: U64)

  datatype EscrowError =
    | InvalidState
    | UndecodableIdentity
    | EmptyIdentity
    | ZeroAmount
    | MissingId
    | ConditionFailed(reason: ConditionError)

  function StripHexPrefix(s: string): string {
    if |s| >= 2 && s[0] == '0' && s[1] == 'x' then s[2..] else s
  }

  function ToBytes(d: Decoders, id: ID): Option<Bytes> {
    match id
    case Hex(s) => d.hex(StripHexPrefix(s))
    case Base58(s) => d.base58(s)
    case Base64(s) => d.base64(s)
    case Raw(b) => Some(b)
  }

  /** The bytes an identity stands for: its own for raw bytes, otherwise its text read in its own
      alphabet; a hexadecimal text may start with `0x`, which is not read. */
  ghost predicate Names(d: Decoders, id: ID, bytes: Bytes) {
    match id
    case Hex(s) => exists digits: string ::
      (s == "0x" + digits || (s == digits && !("0x" <= s))) && d.hex(digits) == Some(bytes)
    case Base58(s) => d.base58(s) == Some(bytes)
    case Base64(s) => d.base64(s) == Some(bytes)
    case Raw(b) => b == bytes
  }

  lemma ToBytesNames(d: Decoders, id: ID, bytes: Bytes)
    ensures ToBytes(d, id) == Some(bytes) <==> Names(d, id, bytes)
  {
    if id.Hex? {
      var s := id.text;
      if "0x" <= s {
        assert s == "0x" + s[2..];
        assert forall digits: string | s == "0x" + digits :: digits == s[2..];
      }
    }
  }

  /** With or without `0x`, a hexadecimal text is one identity. */
  lemma HexPrefixOptional(d: Decoders, digits: string)
    requires !("0x" <= digits)
    ensures ToBytes(d, Hex("0x" + digits)) == ToBytes(d, Hex(digits)) == d.hex(digits)
  {
    assert ("0x" + digits)[2..] == digits;
  }

  function ValidateId(d: Decoders, id: ID): Outcome<EscrowError> {
    match ToBytes(d, id)
    case None => Fail(UndecodableIdentity)
    case Some(bytes) => if bytes == [] then Fail(EmptyIdentity) else Pass
  }

  function ValidateAsset(d: Decoders, asset: Asset): Outcome<EscrowError> {
    if asset.amount == 0 then Fail(ZeroAmount)
    else match asset.kind
      case Native => Pass
      case Token => if asset.agentId.None? then Fail(MissingId) else ValidateId(d, asset.agentId.value)
  }

  function VerifyConditions(crypto: Crypto, condition: Option<Condition>): Outcome<EscrowError> {
    match condition
    case None => Pass
    case Some(c) => match Verify(crypto, c) case Ok(_) => Pass case Err(e) => Fail(ConditionFailed(e))
  }

  /** The escrow after a successful execution, or the first check that failed. */
  function Executed(p: Prover, e: Escrow): Result<Escrow, EscrowError> {
    if e.state != Funded then Err(InvalidState) else
    :- ValidateId(p.decoders, e.sender);
    :- ValidateId(p.decoders, e.recipient);
    :- ValidateAsset(p.decoders, e.asset);
    :- VerifyConditions(p.crypto, e.condition);
    Ok(e.(state := ConditionsMet))
  }

  predicate Named(bytes: Option<Bytes>) {
    bytes.Some? && bytes.value != []
  }

  /** The release rule in the prover's own terms. */
  ghost predicate MayRelease(p: Prover, e: Escrow) {
    && e.state == Funded
    && Named(ToBytes(p.decoders, e.sender))
    && Named(ToBytes(p.decoders, e.recipient))
    && e.asset.amount > 0
    && (e.asset.kind == Token ==>
          e.asset.agentId.Some? && Named(ToBytes(p.decoders, e.asset.agentId.value)))
    && (e.condition.Some? ==> Satisfied(p.crypto, e.condition.value))
  }

  /** Which error an execution fails with: the state first, then the sender, the recipient, the
      asset and the condition. */
  lemma ExecuteErrors(p: Prover, e: Escrow)
    ensures var r := Executed(p, e);
            var sender, recipient := ToBytes(p.decoders, e.sender), ToBytes(p.decoders, e.recipient);
            var parties := e.state == Funded && Named(sender) && Named(recipient);
            var token := e.asset.kind == Token && e.asset.agentId.Some?;
            var id := if token then ToBytes(p.decoders, e.asset.agentId.value) else Some([0]);
            && (r == Err(InvalidState) <==> e.state != Funded)
            && (r == Err(UndecodableIdentity) <==>
                  e.state == Funded
                  && (sender.None? || (Named(sender) && recipient.None?)
                      || (parties && e.asset.amount > 0 && id.None?)))
            && (r == Err(EmptyIdentity) <==>
                  e.state == Funded
                  && (sender == Some([]) || (Named(sender) && recipient == Some([]))
                      || (parties && e.asset.amount > 0 && id == Some([]))))
            && (r == Err(ZeroAmount) <==> parties && e.asset.amount == 0)
            && (r == Err(MissingId) <==>
                  parties && e.asset.amount > 0 && e.asset.kind == Token && e.asset.agentId.None?)
            && (forall reason :: r == Err(ConditionFailed(reason)) ==>
                  e.condition.Some? && Verify(p.crypto, e.condition.value) == Err(reason))
  {
  }

  lemma ExecuteSucceedsIff(p: Prover, e: Escrow)
    ensures Executed(p, e).Ok? <==> MayRelease(p, e)
    ensures Executed(p, e).Ok? ==> Executed(p, Executed(p, e).value) == Err(InvalidState)
  {
    if e.condition.Some? {
      VerifyMeansSatisfied(p.crypto, e.condition.value);
    }
  }

  function TokenBytes(d: Decoders, asset: Asset): Option<Bytes> {
    if asset.agentId.None? then Some([]) else ToBytes(d, asset.agentId.value)
  }

  function ConditionCommitment(h: HashFn, condition: Option<Condition>): Digest {
    match condition case None => ZERO_WORD case Some(c) => Commitment(h, c)
  }

  /** `PublicCommitment::new`: fails when an identity cannot be decoded. */
  function NewCommitment(p: Prover, input: ProofInput, outcome: ExecutionResult): Option<PublicCommitment> {
    var token := TokenBytes(p.decoders, input.escrow.asset);
    var agent := ToBytes(p.decoders, input.agentId);
    var sender := ToBytes(p.decoders, input.escrow.sender);
    var recipient := ToBytes(p.decoders, input.escrow.recipient);
    if token.None? || agent.None? || sender.None? || recipient.None? then None
    else Some(PublicCommitment(
                input.chain, agent.value, input.escrowId, sender.value, recipient.value,
                input.escrow.asset.kind, token.value, input.escrow.asset.amount,
                ConditionCommitment(p.crypto.sha256, input.escrow.condition), outcome))
  }

  function OutcomeOf(p: Prover, e: Escrow): ExecutionResult {
    match Executed(p, e) case Ok(after) => Success(after.state) case Err(_) => Failure
  }

  lemma OutcomeMeans(p: Prover, e: Escrow)
    ensures OutcomeOf(p, e) == if MayRelease(p, e) then Success(ConditionsMet) else Failure
  {
    ExecuteSucceedsIff(p, e);
  }

  /** The bytes the guest commits; `None` when it panics and commits nothing. */
  function GuestJournal(p: Prover, input: ProofInput): Option<Bytes> {
    match NewCommitment(p, input, OutcomeOf(p, input.escrow))
    case None => None
    case Some(c) => match Encode(c) case Ok(b) => Some(b) case Err(_) => None
  }

  /** A committed journal says exactly what the guest was given and what it found: read back,
      it names the input's escrow, and it reports success only for a releasable one. */
  lemma GuestJournalMeans(p: Prover, input: ProofInput)
    requires GuestJournal(p, input).Some?
    ensures Decode(GuestJournal(p, input).value).Ok?
    ensures var c := Decode(GuestJournal(p, input).value).value;
            && c.chain == input.chain
            && c.escrowId == input.escrowId
            && Names(p.decoders, input.agentId, c.agentId)
            && Names(p.decoders, input.escrow.sender, c.sender)
            && Names(p.decoders, input.escrow.recipient, c.recipient)
            && (match input.escrow.asset.agentId
                case None => c.assetToken == []
                case Some(id) => Names(p.decoders, id, c.assetToken))
            && c.assetKind == input.escrow.asset.kind
            && c.amount == input.escrow.asset.amount
            && c.condition == (match input.escrow.condition
                               case None => Zeros(32)
                               case Some(condition) => Commitment(p.crypto.sha256, condition))
            && c.outcome == if MayRelease(p, input.escrow) then Success(ConditionsMet) else Failure
  {
    var c := NewCommitment(p, input, OutcomeOf(p, input.escrow)).value;
    assert Decode(GuestJournal(p, input).value) == Ok(c) by {
      DecodeEncode(c);
    }
    OutcomeMeans(p, input.escrow);
    ToBytesNames(p.decoders, input.agentId, c.agentId);
    ToBytesNames(p.decoders, input.escrow.sender, c.sender);
    ToBytesNames(p.decoders, input.escrow.recipient, c.recipient);
    if input.escrow.asset.agentId.Some? {
      ToBytesNames(p.decoders, input.escrow.asset.agentId.value, c.assetToken);
    }
  }

  /** When the guest commits at all: every identity decodes and fits, and so does the amount. */
  lemma GuestCommitsIff(p: Prover, input: ProofInput)
    ensures GuestJournal(p, input).Some? <==>
            && input.escrow.asset.amount < TWO_256
            && Fits(TokenBytes(p.decoders, input.escrow.asset))
            && Fits(ToBytes(p.decoders, input.agentId))
            && Fits(ToBytes(p.decoders, input.escrow.sender))
            && Fits(ToBytes(p.decoders, input.escrow.recipient))
  {
    var c := NewCommitment(p, input, OutcomeOf(p, input.escrow));
    if c.Some? {
      EncodeFailsIff(c.value);
    }
  }

  predicate Fits(bytes: Option<Bytes>) {
    bytes.Some? && |bytes.value| <= MAX_FIELD
  }

  /** The input is a releasable escrow whose parties, id, asset and condition are those of the
      success commitment `c`. */
  ghost predicate Backs(p: Prover, input: ProofInput, c: PublicCommitment) {
    && input.chain == c.chain
    && input.escrowId == c.escrowId
    && ToBytes(p.decoders, input.agentId) == Some(c.agentId)
    && ToBytes(p.decoders, input.escrow.sender) == Some(c.sender)
    && ToBytes(p.decoders, input.escrow.recipient) == Some(c.recipient)
    && input.escrow.asset.kind == c.assetKind
    && TokenBytes(p.decoders, input.escrow.asset) == Some(c.assetToken)
    && input.escrow.asset.amount == c.amount
    && ConditionCommitment(p.crypto.sha256, input.escrow.condition) == c.condition
    && MayRelease(p, input.escrow)
  }

  /** The guest commits the journal of a given success commitment exactly when its input backs
      that commitment. */
  lemma GuestJournalIsIff(p: Prover, input: ProofInput, c: PublicCommitment)
    requires c.outcome == Success(ConditionsMet) && Encode(c).Ok?
    ensures GuestJournal(p, input) == Some(Encode(c).value) <==> Backs(p, input, c)
  {
    if GuestJournal(p, input) == Some(Encode(c).value) {
      GuestJournalMeans(p, input);
      DecodeEncode(c);
      ToBytesNames(p.decoders, input.agentId, c.agentId);
      ToBytesNames(p.decoders, input.escrow.sender, c.sender);
      ToBytesNames(p.decoders, input.escrow.recipient, c.recipient);
      if input.escrow.asset.agentId.Some? {
        ToBytesNames(p.decoders, input.escrow.asset.agentId.value, c.assetToken);
      }
    }
    if Backs(p, input, c) {
      OutcomeMeans(p, input.escrow);
      assert NewCommitment(p, input, OutcomeOf(p, input.escrow)) == Some(c);
    }
  }

  /** Some guest run commits a journal with this digest. */
  ghost predicate GuestDigest(p: Prover, digest: Digest) {
    exists input :: GuestJournal(p, input).Some? && p.crypto.sha256(GuestJournal(p, input).value) == digest
  }

  // ---------------------------------------------------------------- the program's own form

  /** The escrow context whose `state` the guest advances. */
  class EscrowContext {
    const asset: Asset
    const recipient: ID
    const sender: ID
    const condition: Option<Condition>
    var state: ExecutionState

    constructor (e: Escrow)
      ensures View() == e
    {
      asset, recipient, sender := e.asset, e.recipient, e.sender;
      condition, state := e.condition, e.state;
    }

    function View(): Escrow
      reads this
    {
      Escrow(asset, recipient, sender, condition, state)
    }

    /** Runs the checks in order; the state changes only when all of them pass. */
    method Execute(p: Prover) returns (r: Result<ExecutionState, EscrowError>)
      modifies this
      ensures match Executed(p, old(View()))
              case Ok(after) => r == Ok(after.state) && View() == after
              case Err(e) => r == Err(e) && View() == old(View())
    {
      if state != Funded { return Err(InvalidState); }
      var check := ValidateId(p.decoders, sender);
      if check.Fail? { return Err(check.error); }
      check := ValidateId(p.decoders, recipient);
      if check.Fail? { return Err(check.error); }
      check := ValidateAsset(p.decoders, asset);
      if check.Fail? { return Err(check.error); }
      check := VerifyConditions(p.crypto, condition);
      if check.Fail? { return Err(check.error); }
      state := ConditionsMet;
      return Ok(state);
    }
  }

  /** The guest's `main`: execute, build the commitment from the mutated input, encode it. */
  method RunGuest(p: Prover, input: ProofInput) returns (journal: Option<Bytes>)
    ensures journal == GuestJournal(p, input)
  {
    var escrow := new EscrowContext(input.escrow);
    var executed := escrow.Execute(p);
    var outcome := match executed case Ok(state) => Success(state) case Err(_) => Failure;
    var commitment := NewCommitment(p, input.(escrow := escrow.View()), outcome);
    if commitment.None? { return None; }
    var bytes := ToJournalBytes(commitment.value);
    journal := match bytes case Ok(b) => Some(b) case Err(_) => None;
  }
}
