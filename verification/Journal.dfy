/** The public commitment and its journal bytes: encoder, decoder, and the proofs that the two
    are inverse and that journals are self-delimiting. */
module Journal {
  import opened Bytes

  datatype Chain = Ethereum | Solana
  datatype AssetKind = Native | Token
  datatype ExecutionState = Initialized | Funded | ConditionsMet
  datatype ExecutionResult = Success(state: ExecutionState) | Failure

  datatype PublicCommitment = PublicCommitment(
    chain: Chain,
    agentId: Bytes,
    escrowId: U64,
    sender: Bytes,
    recipient: Bytes,
    assetKind: AssetKind,
    assetToken: Bytes,
    amount: nat,
    condition: Digest,
    outcome: ExecutionResult)

  datatype CommitmentError =
    | AmountTooLarge
    | FieldTooLong(length: nat)
    | Truncated(offset: nat)
    | TrailingBytes(offset: nat)
    | UnknownVersion(version: byte)
    | UnknownTag(field: string, value: byte)

  const JOURNAL_VERSION: byte := 1
  const AMOUNT_WIDTH: nat := 32
  const MAX_FIELD: nat := 65535

  function ChainTag(chain: Chain): byte {
    match chain case Ethereum => 0 case Solana => 1
  }

  function ChainFromTag(tag: byte): Result<Chain, CommitmentError> {
    if tag == 0 then Ok(Ethereum) else if tag == 1 then Ok(Solana) else Err(UnknownTag("chain", tag))
  }

  function AssetKindTag(kind: AssetKind): byte {
    match kind case Native => 0 case Token => 1
  }

  function AssetKindFromTag(tag: byte): Result<AssetKind, CommitmentError> {
    if tag == 0 then Ok(Native) else if tag == 1 then Ok(Token) else Err(UnknownTag("asset_kind", tag))
  }

  function StateTag(state: ExecutionState): byte {
    match state case Initialized => 0 case Funded => 1 case ConditionsMet => 2
  }

  function StateFromTag(tag: byte): Result<ExecutionState, CommitmentError> {
    if tag == 0 then Ok(Initialized)
    else if tag == 1 then Ok(Funded)
    else if tag == 2 then Ok(ConditionsMet)
    else Err(UnknownTag("execution_state", tag))
  }

  // ---------------------------------------------------------------- encoding

  function OutcomeBytes(outcome: ExecutionResult): Bytes {
    match outcome
    case Success(state) => [1, StateTag(state)]
    case Failure => [0]
  }

  function LengthPrefixed(field: Bytes): Result<Bytes, CommitmentError> {
    if |field| > MAX_FIELD then Err(FieldTooLong(|field|)) else Ok(ToBE(|field|, 2) + field)
  }

  function AmountBytes(amount: nat): Result<Bytes, CommitmentError> {
    if amount >= TWO_256 then Err(AmountTooLarge) else Ok(ToBE(amount, AMOUNT_WIDTH))
  }

  function EncodeHeader(c: PublicCommitment, tail: Bytes): Bytes {
    [JOURNAL_VERSION] + ([ChainTag(c.chain)] + (OutcomeBytes(c.outcome) + tail))
  }

  function EncodeParties(c: PublicCommitment, tail: Bytes): Result<Bytes, CommitmentError> {
    var agent :- LengthPrefixed(c.agentId);
    var sender :- LengthPrefixed(c.sender);
    var recipient :- LengthPrefixed(c.recipient);
    Ok(agent + (ToBE(c.escrowId, 8) + (sender + (recipient + tail))))
  }

  function EncodeTerms(c: PublicCommitment, tail: Bytes): Result<Bytes, CommitmentError> {
    var token :- LengthPrefixed(c.assetToken);
    var amount :- AmountBytes(c.amount);
    Ok([AssetKindTag(c.assetKind)] + (token + (amount + (c.condition + tail))))
  }

  /** The journal layout followed by `tail`; the errors are met in field order. */
  function EncodeOnto(c: PublicCommitment, tail: Bytes): Result<Bytes, CommitmentError> {
    var parties :- EncodeParties(c, []);
    var terms :- EncodeTerms(c, tail);
    Ok(EncodeHeader(c, EncodeParties(c, terms).value))
  }

  function Encode(c: PublicCommitment): Result<Bytes, CommitmentError> {
    EncodeOnto(c, [])
  }

  /** Field `i`, of length `n`, is the first over-long one. */
  predicate FirstTooLong(fields: seq<Bytes>, i: nat, n: nat) {
    i < |fields| && |fields[i]| == n > MAX_FIELD && forall k | 0 <= k < i :: |fields[k]| <= MAX_FIELD
  }

  /** Encoding fails exactly on an over-long field or an amount of 2^256 or more. The first
      over-long field in journal order is the one reported, with its length; the amount is reported
      only when all fields fit. */
  lemma EncodeFailsIff(c: PublicCommitment)
    ensures var fields := [c.agentId, c.sender, c.recipient, c.assetToken];
            var fit := forall i | 0 <= i < |fields| :: |fields[i]| <= MAX_FIELD;
            && (Encode(c).Ok? <==> fit && c.amount < TWO_256)
            && (Encode(c) == Err(AmountTooLarge) <==> fit && c.amount >= TWO_256)
            && (forall n: nat :: Encode(c) == Err(FieldTooLong(n)) <==> exists i: nat :: FirstTooLong(fields, i, n))
  {
    var fields := [c.agentId, c.sender, c.recipient, c.assetToken];
    var over := if |c.agentId| > MAX_FIELD then 0 else if |c.sender| > MAX_FIELD then 1
                else if |c.recipient| > MAX_FIELD then 2 else 3;
    if |fields[over]| > MAX_FIELD {
      var n := |fields[over]|;
      assert Encode(c) == Err(FieldTooLong(n)) && FirstTooLong(fields, over, n);
      forall i: nat, m: nat | FirstTooLong(fields, i, m) ensures m == n {
        assert i == over;
      }
    }
  }

  lemma EncodeOntoAppends(c: PublicCommitment, tail: Bytes)
    requires Encode(c).Ok?
    ensures EncodeOnto(c, tail) == Ok(Encode(c).value + tail)
  {
    var terms := EncodeTerms(c, []).value;
    EncodeTermsAppends(c, tail);
    EncodePartiesAppends(c, terms, tail);
    EncodeHeaderAppends(c, EncodeParties(c, terms).value, tail);
  }

  lemma EncodeHeaderAppends(c: PublicCommitment, s: Bytes, tail: Bytes)
    ensures EncodeHeader(c, s + tail) == EncodeHeader(c, s) + tail
  {
    var t2 := OutcomeBytes(c.outcome) + s;
    assert OutcomeBytes(c.outcome) + (s + tail) == t2 + tail;
    var t1 := [ChainTag(c.chain)] + t2;
    assert [ChainTag(c.chain)] + (t2 + tail) == t1 + tail;
    assert [JOURNAL_VERSION] + (t1 + tail) == ([JOURNAL_VERSION] + t1) + tail;
  }

  lemma EncodePartiesAppends(c: PublicCommitment, s: Bytes, tail: Bytes)
    requires EncodeParties(c, s).Ok?
    ensures EncodeParties(c, s + tail) == Ok(EncodeParties(c, s).value + tail)
  {
    var agent, sender := LengthPrefixed(c.agentId).value, LengthPrefixed(c.sender).value;
    var recipient := LengthPrefixed(c.recipient).value;
    var t3 := recipient + s;
    assert recipient + (s + tail) == t3 + tail;
    var t2 := sender + t3;
    assert sender + (t3 + tail) == t2 + tail;
    var t1 := ToBE(c.escrowId, 8) + t2;
    assert ToBE(c.escrowId, 8) + (t2 + tail) == t1 + tail;
    assert agent + (t1 + tail) == (agent + t1) + tail;
  }

  lemma EncodeTermsAppends(c: PublicCommitment, tail: Bytes)
    requires EncodeTerms(c, []).Ok?
    ensures EncodeTerms(c, tail) == Ok(EncodeTerms(c, []).value + tail)
  {
    var token, amount := LengthPrefixed(c.assetToken).value, AmountBytes(c.amount).value;
    var t3 := c.condition + [];
    assert c.condition + tail == t3 + tail;
    var t2 := amount + t3;
    assert amount + (t3 + tail) == t2 + tail;
    var t1 := token + t2;
    assert token + (t2 + tail) == t1 + tail;
    assert [AssetKindTag(c.assetKind)] + (t1 + tail) == ([AssetKindTag(c.assetKind)] + t1) + tail;
  }

  // ---------------------------------------------------------------- decoding

  /** Reads `n` of the unread bytes `s` of a journal of `total` bytes. */
  function Take(total: nat, s: Bytes, n: nat): (r: Result<Cursor<Bytes>, CommitmentError>)
    requires |s| <= total
    ensures r.Ok? <==> n <= |s|
    ensures r.Ok? ==> |r.value.value| == n && s == r.value.value + r.value.rest
  {
    if |s| < n then Err(Truncated(total - |s|)) else Ok(Cursor(s[..n], s[n..]))
  }

  lemma TakeExactly(total: nat, x: Bytes, rest: Bytes)
    requires |x| + |rest| <= total
    ensures Take(total, x + rest, |x|) == Ok(Cursor(x, rest))
  {
    assert (x + rest)[..|x|] == x && (x + rest)[|x|..] == rest;
  }

  function TakeByte(total: nat, s: Bytes): (r: Result<Cursor<byte>, CommitmentError>)
    requires |s| <= total
    ensures r.Ok? ==> s == [r.value.value] + r.value.rest
  {
    var c :- Take(total, s, 1);
    Ok(Cursor(c.value[0], c.rest))
  }

  function TakeField(total: nat, s: Bytes): (r: Result<Cursor<Bytes>, CommitmentError>)
    requires |s| <= total
    ensures r.Ok? ==> |r.value.rest| <= total
  {
    var prefix :- Take(total, s, 2);
    Take(total, prefix.rest, FromBE(prefix.value))
  }

  function TakeOutcome(total: nat, s: Bytes): (r: Result<Cursor<ExecutionResult>, CommitmentError>)
    requires |s| <= total
    ensures r.Ok? ==> |r.value.rest| <= total
  {
    var tag :- TakeByte(total, s);
    if tag.value == 0 then Ok(Cursor(Failure, tag.rest))
    else if tag.value == 1 then
      var stateTag :- TakeByte(total, tag.rest);
      var state :- StateFromTag(stateTag.value);
      Ok(Cursor(Success(state), stateTag.rest))
    else Err(UnknownTag("outcome", tag.value))
  }

  datatype Header = Header(chain: Chain, outcome: ExecutionResult)
  datatype Parties = Parties(agentId: Bytes, escrowId: U64, sender: Bytes, recipient: Bytes)
  datatype Terms = Terms(assetKind: AssetKind, assetToken: Bytes, amount: nat, condition: Digest)

  function TakeHeader(total: nat, s: Bytes): (r: Result<Cursor<Header>, CommitmentError>)
    requires |s| <= total
    ensures r.Ok? ==> |r.value.rest| <= total
  {
    var version :- TakeByte(total, s);
    if version.value != JOURNAL_VERSION then Err(UnknownVersion(version.value)) else
    var chainTag :- TakeByte(total, version.rest);
    var chain :- ChainFromTag(chainTag.value);
    var outcome :- TakeOutcome(total, chainTag.rest);
    Ok(Cursor(Header(chain, outcome.value), outcome.rest))
  }

  function TakeU64(total: nat, s: Bytes): (r: Result<Cursor<U64>, CommitmentError>)
    requires |s| <= total
    ensures r.Ok? ==> |r.value.rest| <= total
  {
    var c :- Take(total, s, 8);
    Pow256Constants();
    FromBEBound(c.value);
    Ok(Cursor(FromBE(c.value), c.rest))
  }

  function TakeParties(total: nat, s: Bytes): (r: Result<Cursor<Parties>, CommitmentError>)
    requires |s| <= total
    ensures r.Ok? ==> |r.value.rest| <= total
  {
    var agent :- TakeField(total, s);
    var id :- TakeU64(total, agent.rest);
    var sender :- TakeField(total, id.rest);
    var recipient :- TakeField(total, sender.rest);
    Ok(Cursor(Parties(agent.value, id.value, sender.value, recipient.value), recipient.rest))
  }

  function TakeTerms(total: nat, s: Bytes): (r: Result<Cursor<Terms>, CommitmentError>)
    requires |s| <= total
    ensures r.Ok? ==> |r.value.rest| <= total
  {
    var kindTag :- TakeByte(total, s);
    var kind :- AssetKindFromTag(kindTag.value);
    var token :- TakeField(total, kindTag.rest);
    var amount :- Take(total, token.rest, AMOUNT_WIDTH);
    var condition :- Take(total, amount.rest, 32);
    Ok(Cursor(Terms(kind, token.value, FromBE(amount.value), condition.value), condition.rest))
  }

  function Assemble(h: Header, p: Parties, t: Terms): PublicCommitment {
    PublicCommitment(h.chain, p.agentId, p.escrowId, p.sender, p.recipient, t.assetKind,
                     t.assetToken, t.amount, t.condition, h.outcome)
  }

  /** All the fields in order, leaving whatever follows them unread. */
  function TakeCommitment(total: nat, s: Bytes): (r: Result<Cursor<PublicCommitment>, CommitmentError>)
    requires |s| <= total
    ensures r.Ok? ==> |r.value.rest| <= total
  {
    var header :- TakeHeader(total, s);
    var parties :- TakeParties(total, header.rest);
    var terms :- TakeTerms(total, parties.rest);
    Ok(Cursor(Assemble(header.value, parties.value, terms.value), terms.rest))
  }

  /** A commitment and nothing after it. */
  function DecodeRest(total: nat, s: Bytes): Result<PublicCommitment, CommitmentError>
    requires |s| <= total
  {
    var parsed :- TakeCommitment(total, s);
    if parsed.rest == [] then Ok(parsed.value) else Err(TrailingBytes(total - |parsed.rest|))
  }

  function Decode(b: Bytes): Result<PublicCommitment, CommitmentError> {
    DecodeRest(|b|, b)
  }

  // ---------------------------------------------------------------- decode inverts encode

  lemma TakeByteExactly(total: nat, x: byte, rest: Bytes)
    requires 1 + |rest| <= total
    ensures TakeByte(total, [x] + rest) == Ok(Cursor(x, rest))
  {
    TakeExactly(total, [x], rest);
  }

  lemma TakeFieldExactly(total: nat, field: Bytes, rest: Bytes)
    requires |field| <= MAX_FIELD
    requires 2 + |field| + |rest| <= total
    ensures TakeField(total, LengthPrefixed(field).value + rest) == Ok(Cursor(field, rest))
  {
    var prefix := ToBE(|field|, 2);
    assert (prefix + field) + rest == prefix + (field + rest);
    TakeExactly(total, prefix, field + rest);
    Pow256Constants();
    FromToBE(|field|, 2);
    TakeExactly(total, field, rest);
  }

  lemma TakeOutcomeExactly(total: nat, outcome: ExecutionResult, rest: Bytes)
    requires |OutcomeBytes(outcome) + rest| <= total
    ensures TakeOutcome(total, OutcomeBytes(outcome) + rest) == Ok(Cursor(outcome, rest))
  {
    match outcome {
      case Success(state) =>
        assert OutcomeBytes(outcome) + rest == [1] + ([StateTag(state)] + rest);
        TakeByteExactly(total, 1, [StateTag(state)] + rest);
        TakeByteExactly(total, StateTag(state), rest);
      case Failure =>
        TakeByteExactly(total, 0, rest);
    }
  }

  lemma TakeHeaderExactly(total: nat, c: PublicCommitment, tail: Bytes)
    requires |EncodeHeader(c, tail)| <= total
    ensures TakeHeader(total, EncodeHeader(c, tail)) == Ok(Cursor(Header(c.chain, c.outcome), tail))
  {
    var s2 := OutcomeBytes(c.outcome) + tail;
    TakeByteExactly(total, JOURNAL_VERSION, [ChainTag(c.chain)] + s2);
    TakeByteExactly(total, ChainTag(c.chain), s2);
    TakeOutcomeExactly(total, c.outcome, tail);
  }

  lemma TakePartiesExactly(total: nat, c: PublicCommitment, tail: Bytes)
    requires EncodeParties(c, tail).Ok? && |EncodeParties(c, tail).value| <= total
    ensures TakeParties(total, EncodeParties(c, tail).value) ==
            Ok(Cursor(Parties(c.agentId, c.escrowId, c.sender, c.recipient), tail))
  {
    var s3 := LengthPrefixed(c.recipient).value + tail;
    var s2 := LengthPrefixed(c.sender).value + s3;
    var s1 := ToBE(c.escrowId, 8) + s2;
    TakeFieldExactly(total, c.agentId, s1);
    TakeExactly(total, ToBE(c.escrowId, 8), s2);
    Pow256Constants();
    FromToBE(c.escrowId, 8);
    TakeFieldExactly(total, c.sender, s3);
    TakeFieldExactly(total, c.recipient, tail);
  }

  lemma TakeTermsExactly(total: nat, c: PublicCommitment, tail: Bytes)
    requires EncodeTerms(c, tail).Ok? && |EncodeTerms(c, tail).value| <= total
    ensures TakeTerms(total, EncodeTerms(c, tail).value) ==
            Ok(Cursor(Terms(c.assetKind, c.assetToken, c.amount, c.condition), tail))
  {
    var s3 := c.condition + tail;
    var s2 := AmountBytes(c.amount).value + s3;
    var s1 := LengthPrefixed(c.assetToken).value + s2;
    TakeByteExactly(total, AssetKindTag(c.assetKind), s1);
    TakeFieldExactly(total, c.assetToken, s2);
    TakeExactly(total, AmountBytes(c.amount).value, s3);
    Pow256Constants();
    FromToBE(c.amount, 32);
    TakeExactly(total, c.condition, tail);
  }

  /** Whatever follows an encoded commitment, parsing stops exactly at its end. */
  lemma TakeCommitmentExactly(c: PublicCommitment, tail: Bytes)
    requires Encode(c).Ok?
    ensures var b := Encode(c).value + tail;
            TakeCommitment(|b|, b) == Ok(Cursor(c, tail))
  {
    EncodeOntoAppends(c, tail);
    var terms := EncodeTerms(c, tail).value;
    var parties := EncodeParties(c, terms).value;
    var b := EncodeHeader(c, parties);
    TakeHeaderExactly(|b|, c, parties);
    TakePartiesExactly(|b|, c, terms);
    TakeTermsExactly(|b|, c, tail);
  }

  /** Round trip: every encodable commitment is read back unchanged. */
  lemma DecodeEncode(c: PublicCommitment)
    requires Encode(c).Ok?
    ensures Decode(Encode(c).value) == Ok(c)
  {
    TakeCommitmentExactly(c, []);
    assert Encode(c).value + [] == Encode(c).value;
  }

  // ---------------------------------------------------------------- encode inverts decode

  lemma TakeFieldInverse(total: nat, s: Bytes)
    requires |s| <= total && TakeField(total, s).Ok?
    ensures var r := TakeField(total, s).value;
            LengthPrefixed(r.value).Ok? && s == LengthPrefixed(r.value).value + r.rest
  {
    var prefix := Take(total, s, 2).value;
    var r := TakeField(total, s).value;
    Pow256Constants();
    FromBEBound(prefix.value);
    ToFromBE(prefix.value);
    assert prefix.value + (r.value + r.rest) == (prefix.value + r.value) + r.rest;
  }

  lemma TakeOutcomeInverse(total: nat, s: Bytes)
    requires |s| <= total && TakeOutcome(total, s).Ok?
    ensures var r := TakeOutcome(total, s).value; s == OutcomeBytes(r.value) + r.rest
  {
    var r := TakeOutcome(total, s).value;
    if r.value.Success? {
      assert [1] + ([StateTag(r.value.state)] + r.rest) == OutcomeBytes(r.value) + r.rest;
    }
  }

  lemma TakeHeaderInverse(total: nat, s: Bytes, c: PublicCommitment)
    requires |s| <= total && TakeHeader(total, s).Ok?
    requires TakeHeader(total, s).value.value == Header(c.chain, c.outcome)
    ensures s == EncodeHeader(c, TakeHeader(total, s).value.rest)
  {
    var s1 := TakeByte(total, s).value.rest;
    var s2 := TakeByte(total, s1).value.rest;
    TakeOutcomeInverse(total, s2);
  }

  lemma TakePartiesInverse(total: nat, s: Bytes, c: PublicCommitment)
    requires |s| <= total && TakeParties(total, s).Ok?
    requires TakeParties(total, s).value.value == Parties(c.agentId, c.escrowId, c.sender, c.recipient)
    ensures EncodeParties(c, TakeParties(total, s).value.rest) == Ok(s)
  {
    TakeFieldInverse(total, s);
    var s1 := TakeField(total, s).value.rest;
    var id := Take(total, s1, 8).value;
    ToFromBE(id.value);
    TakeFieldInverse(total, id.rest);
    TakeFieldInverse(total, TakeField(total, id.rest).value.rest);
  }

  lemma TakeTermsInverse(total: nat, s: Bytes, c: PublicCommitment)
    requires |s| <= total && TakeTerms(total, s).Ok?
    requires TakeTerms(total, s).value.value == Terms(c.assetKind, c.assetToken, c.amount, c.condition)
    ensures EncodeTerms(c, TakeTerms(total, s).value.rest) == Ok(s)
  {
    var s1 := TakeByte(total, s).value.rest;
    TakeFieldInverse(total, s1);
    var s2 := TakeField(total, s1).value.rest;
    var amount := Take(total, s2, 32).value;
    Pow256Constants();
    FromBEBound(amount.value);
    ToFromBE(amount.value);
  }

  /** Every journal that decodes is exactly the encoding of what it decodes to. */
  lemma EncodeDecode(b: Bytes)
    requires Decode(b).Ok?
    ensures Encode(Decode(b).value) == Ok(b)
  {
    var c := Decode(b).value;
    var header := TakeHeader(|b|, b).value;
    var parties := TakeParties(|b|, header.rest).value;
    TakeHeaderInverse(|b|, b, c);
    TakePartiesInverse(|b|, header.rest, c);
    TakeTermsInverse(|b|, parties.rest, c);
  }

  /** The two directions together: bytes decode to a commitment exactly when it encodes to them. */
  lemma CodecBijection(b: Bytes, c: PublicCommitment)
    ensures Decode(b) == Ok(c) <==> Encode(c) == Ok(b)
  {
    hide Encode, Decode;
    if Decode(b) == Ok(c) {
      EncodeDecode(b);
    }
    if Encode(c) == Ok(b) {
      DecodeEncode(c);
    }
  }

  /** Distinct commitments have distinct journals. */
  lemma EncodeInjective(c: PublicCommitment, d: PublicCommitment)
    requires Encode(c).Ok? && Encode(c) == Encode(d)
    ensures c == d
  {
    DecodeEncode(c);
    DecodeEncode(d);
  }

  /** No valid journal is a proper prefix of another. */
  lemma JournalsPrefixFree(b: Bytes, tail: Bytes)
    requires Decode(b).Ok? && tail != []
    ensures Decode(b + tail) == Err(TrailingBytes(|b|))
  {
    var c := Decode(b).value;
    EncodeDecode(b);
    TakeCommitmentExactly(c, tail);
  }

  // ---------------------------------------------------------------- the program's own form

  /** A growable byte vector. */
  class ByteVec {
    var bytes: Bytes

    constructor ()
      ensures bytes == []
    {
      bytes := [];
    }

    method Push(b: byte)
      modifies this
      ensures bytes == old(bytes) + [b]
    {
      bytes := bytes + [b];
    }

    method ExtendFromSlice(slice: Bytes)
      modifies this
      ensures bytes == old(bytes) + slice
    {
      bytes := bytes + slice;
    }

    /** Appends a two-byte length and the field; refuses an over-long field untouched. */
    method PushBytes(field: Bytes) returns (r: Result<(), CommitmentError>)
      modifies this
      ensures match LengthPrefixed(field)
              case Ok(framed) => r == Ok(()) && bytes == old(bytes) + framed
              case Err(e) => r == Err(e) && bytes == old(bytes)
    {
      if |field| > MAX_FIELD {
        return Err(FieldTooLong(|field|));
      }
      ghost var before := bytes;
      ExtendFromSlice(ToBE(|field|, 2));
      ExtendFromSlice(field);
      assert bytes == before + LengthPrefixed(field).value;
      return Ok(());
    }
  }

  /** Copies `be` into the tail of a zeroed buffer of the amount's width. */
  method CopyIntoTail(be: Bytes) returns (padded: Bytes)
    requires |be| <= AMOUNT_WIDTH
    ensures padded == Zeros(AMOUNT_WIDTH - |be|) + be
  {
    var offset := AMOUNT_WIDTH - |be|;
    var buffer: array<byte> := new byte[AMOUNT_WIDTH](_ => 0);
    forall i | 0 <= i < |be| {
      buffer[offset + i] := be[i];
    }
    assert buffer[offset..] == be;
    assert buffer[..offset] == Zeros(offset);
    padded := buffer[..];
  }

  method AmountBeBytes(amount: nat) returns (r: Result<Bytes, CommitmentError>)
    ensures r == AmountBytes(amount)
  {
    var be := MinimalBE(amount);
    Pow256Constants();
    MinimalBEFits(amount, AMOUNT_WIDTH);
    if |be| > AMOUNT_WIDTH {
      return Err(AmountTooLarge);
    }
    var padded := CopyIntoTail(be);
    return Ok(padded);
  }

  /** `to_journal_bytes`: the fields pushed one after another. */
  method ToJournalBytes(c: PublicCommitment) returns (r: Result<Bytes, CommitmentError>)
    ensures r == Encode(c)
  {
    var out := new ByteVec();
    out.Push(JOURNAL_VERSION);
    out.Push(ChainTag(c.chain));
    match c.outcome {
      case Success(state) =>
        out.Push(1);
        out.Push(StateTag(state));
      case Failure =>
        out.Push(0);
    }
    assert out.bytes == EncodeHeader(c, []);
    var agent := out.PushBytes(c.agentId);
    if agent.Err? { return Err(agent.error); }
    out.ExtendFromSlice(ToBE(c.escrowId, 8));
    var sender := out.PushBytes(c.sender);
    if sender.Err? { return Err(sender.error); }
    var recipient := out.PushBytes(c.recipient);
    if recipient.Err? { return Err(recipient.error); }
    ghost var parties := EncodeParties(c, []).value;
    assert out.bytes == EncodeHeader(c, []) + parties by {
      PartiesInOrder(c, EncodeHeader(c, []));
    }
    out.Push(AssetKindTag(c.assetKind));
    var token := out.PushBytes(c.assetToken);
    if token.Err? { return Err(token.error); }
    var amount := AmountBeBytes(c.amount);
    if amount.Err? { return Err(amount.error); }
    out.ExtendFromSlice(amount.value);
    out.ExtendFromSlice(c.condition);
    assert out.bytes == (EncodeHeader(c, []) + parties) + EncodeTerms(c, []).value by {
      TermsInOrder(c, EncodeHeader(c, []) + parties);
    }
    PartsJoin(c);
    r := Ok(out.bytes);
  }

  lemma PartiesInOrder(c: PublicCommitment, s: Bytes)
    requires EncodeParties(c, []).Ok?
    ensures var agent, sender := LengthPrefixed(c.agentId).value, LengthPrefixed(c.sender).value;
            var recipient := LengthPrefixed(c.recipient).value;
            s + agent + ToBE(c.escrowId, 8) + sender + recipient == s + EncodeParties(c, []).value
  {
    var agent, sender := LengthPrefixed(c.agentId).value, LengthPrefixed(c.sender).value;
    var recipient := LengthPrefixed(c.recipient).value;
    Regroup(s, agent, ToBE(c.escrowId, 8), sender, recipient);
  }

  lemma TermsInOrder(c: PublicCommitment, s: Bytes)
    requires EncodeTerms(c, []).Ok?
    ensures var token, amount := LengthPrefixed(c.assetToken).value, AmountBytes(c.amount).value;
            s + [AssetKindTag(c.assetKind)] + token + amount + c.condition == s + EncodeTerms(c, []).value
  {
    var token, amount := LengthPrefixed(c.assetToken).value, AmountBytes(c.amount).value;
    Regroup(s, [AssetKindTag(c.assetKind)], token, amount, c.condition);
  }

  lemma Regroup(s: Bytes, a: Bytes, b: Bytes, c: Bytes, d: Bytes)
    ensures s + a + b + c + d == s + (a + (b + (c + (d + []))))
  {
    assert d + [] == d;
    assert s + a + b + c + d == s + a + b + (c + d);
    assert s + a + b + (c + d) == s + a + (b + (c + d));
    assert s + a + (b + (c + d)) == s + (a + (b + (c + d)));
  }

  lemma PartsJoin(c: PublicCommitment)
    requires Encode(c).Ok?
    ensures (EncodeHeader(c, []) + EncodeParties(c, []).value) + EncodeTerms(c, []).value == Encode(c).value
  {
    var parties, terms := EncodeParties(c, []).value, EncodeTerms(c, []).value;
    EncodePartiesAppends(c, [], terms);
    assert [] + terms == terms;
    EncodeHeaderAppends(c, [], parties + terms);
    assert [] + (parties + terms) == parties + terms;
    assert (EncodeHeader(c, []) + parties) + terms == EncodeHeader(c, []) + (parties + terms);
  }

  /** Bounds-checked forward cursor over journal bytes. */
  class Reader {
    const bytes: Bytes
    var offset: nat

    ghost predicate Valid()
      reads this
    {
      offset <= |bytes|
    }

    ghost function Rest(): (s: Bytes)
      requires Valid()
      reads this
      ensures |s| <= |bytes|
    {
      bytes[offset..]
    }

    constructor (bytes: Bytes)
      ensures Valid() && this.bytes == bytes && Rest() == bytes
    {
      this.bytes := bytes;
      offset := 0;
    }

    method TakeSlice(len: nat) returns (r: Result<Bytes, CommitmentError>)
      requires Valid()
      modifies this
      ensures Valid()
      ensures match Take(|bytes|, old(Rest()), len)
              case Ok(c) => r == Ok(c.value) && Rest() == c.rest
              case Err(e) => r == Err(e) && offset == old(offset)
    {
      var end := offset + len;
      if end > |bytes| {
        return Err(Truncated(offset));
      }
      var slice := bytes[offset..end];
      assert slice == bytes[offset..][..len];
      assert bytes[end..] == bytes[offset..][len..];
      offset := end;
      return Ok(slice);
    }

    method U8() returns (r: Result<byte, CommitmentError>)
      requires Valid()
      modifies this
      ensures Valid()
      ensures match TakeByte(|bytes|, old(Rest()))
              case Ok(c) => r == Ok(c.value) && Rest() == c.rest
              case Err(e) => r == Err(e)
    {
      var s := TakeSlice(1);
      if s.Err? { return Err(s.error); }
      return Ok(s.value[0]);
    }

    method ReadU64() returns (r: Result<U64, CommitmentError>)
      requires Valid()
      modifies this
      ensures Valid()
      ensures match TakeU64(|bytes|, old(Rest()))
              case Ok(c) => r == Ok(c.value) && Rest() == c.rest
              case Err(e) => r == Err(e)
    {
      var s := TakeSlice(8);
      if s.Err? { return Err(s.error); }
      Pow256Constants();
      FromBEBound(s.value);
      return Ok(FromBE(s.value));
    }

    method Prefixed() returns (r: Result<Bytes, CommitmentError>)
      requires Valid()
      modifies this
      ensures Valid()
      ensures match TakeField(|bytes|, old(Rest()))
              case Ok(c) => r == Ok(c.value) && Rest() == c.rest
              case Err(e) => r == Err(e)
    {
      var prefix := TakeSlice(2);
      if prefix.Err? { return Err(prefix.error); }
      r := TakeSlice(FromBE(prefix.value));
    }

    method Finish() returns (r: Result<(), CommitmentError>)
      requires Valid()
      ensures r == if Rest() == [] then Ok(()) else Err(TrailingBytes(|bytes| - |Rest()|))
    {
      if offset == |bytes| {
        r := Ok(());
      } else {
        r := Err(TrailingBytes(offset));
      }
    }
  }

  method ReadOutcome(reader: Reader) returns (r: Result<ExecutionResult, CommitmentError>)
    requires reader.Valid()
    modifies reader
    ensures reader.Valid()
    ensures match TakeOutcome(|reader.bytes|, old(reader.Rest()))
            case Ok(c) => r == Ok(c.value) && reader.Rest() == c.rest
            case Err(e) => r == Err(e)
  {
    var tag := reader.U8();
    if tag.Err? { return Err(tag.error); }
    if tag.value == 0 {
      return Ok(Failure);
    } else if tag.value == 1 {
      var stateTag := reader.U8();
      if stateTag.Err? { return Err(stateTag.error); }
      var state := StateFromTag(stateTag.value);
      if state.Err? { return Err(state.error); }
      return Ok(Success(state.value));
    } else {
      return Err(UnknownTag("outcome", tag.value));
    }
  }

  method ReadHeader(reader: Reader) returns (r: Result<Header, CommitmentError>)
    requires reader.Valid()
    modifies reader
    ensures reader.Valid()
    ensures match TakeHeader(|reader.bytes|, old(reader.Rest()))
            case Ok(c) => r == Ok(c.value) && reader.Rest() == c.rest
            case Err(e) => r == Err(e)
  {
    var version := reader.U8();
    if version.Err? { return Err(version.error); }
    if version.value != JOURNAL_VERSION { return Err(UnknownVersion(version.value)); }
    var chainTag := reader.U8();
    if chainTag.Err? { return Err(chainTag.error); }
    var chain := ChainFromTag(chainTag.value);
    if chain.Err? { return Err(chain.error); }
    var outcome := ReadOutcome(reader);
    if outcome.Err? { return Err(outcome.error); }
    return Ok(Header(chain.value, outcome.value));
  }

  method ReadParties(reader: Reader) returns (r: Result<Parties, CommitmentError>)
    requires reader.Valid()
    modifies reader
    ensures reader.Valid()
    ensures match TakeParties(|reader.bytes|, old(reader.Rest()))
            case Ok(c) => r == Ok(c.value) && reader.Rest() == c.rest
            case Err(e) => r == Err(e)
  {
    var agentId := reader.Prefixed();
    if agentId.Err? { return Err(agentId.error); }
    var escrowId := reader.ReadU64();
    if escrowId.Err? { return Err(escrowId.error); }
    var sender := reader.Prefixed();
    if sender.Err? { return Err(sender.error); }
    var recipient := reader.Prefixed();
    if recipient.Err? { return Err(recipient.error); }
    return Ok(Parties(agentId.value, escrowId.value, sender.value, recipient.value));
  }

  method ReadTerms(reader: Reader) returns (r: Result<Terms, CommitmentError>)
    requires reader.Valid()
    modifies reader
    ensures reader.Valid()
    ensures match TakeTerms(|reader.bytes|, old(reader.Rest()))
            case Ok(c) => r == Ok(c.value) && reader.Rest() == c.rest
            case Err(e) => r == Err(e)
  {
    var kindTag := reader.U8();
    if kindTag.Err? { return Err(kindTag.error); }
    var kind := AssetKindFromTag(kindTag.value);
    if kind.Err? { return Err(kind.error); }
    var token := reader.Prefixed();
    if token.Err? { return Err(token.error); }
    var amount := reader.TakeSlice(AMOUNT_WIDTH);
    if amount.Err? { return Err(amount.error); }
    var condition := reader.TakeSlice(32);
    if condition.Err? { return Err(condition.error); }
    return Ok(Terms(kind.value, token.value, FromBE(amount.value), condition.value));
  }

  method ReadCommitment(reader: Reader) returns (r: Result<PublicCommitment, CommitmentError>)
    requires reader.Valid()
    modifies reader
    ensures reader.Valid()
    ensures match TakeCommitment(|reader.bytes|, old(reader.Rest()))
            case Ok(c) => r == Ok(c.value) && reader.Rest() == c.rest
            case Err(e) => r == Err(e)
  {
    var header := ReadHeader(reader);
    if header.Err? { return Err(header.error); }
    var parties := ReadParties(reader);
    if parties.Err? { return Err(parties.error); }
    var terms := ReadTerms(reader);
    if terms.Err? { return Err(terms.error); }
    return Ok(Assemble(header.value, parties.value, terms.value));
  }

  method ReadWhole(reader: Reader) returns (r: Result<PublicCommitment, CommitmentError>)
    requires reader.Valid()
    modifies reader
    ensures r == DecodeRest(|reader.bytes|, old(reader.Rest()))
  {
    hide TakeCommitment;
    ghost var s := reader.Rest();
    r := ReadCommitment(reader);
    if r.Err? { return; }
    ghost var parsed := TakeCommitment(|reader.bytes|, s).value;
    assert parsed.value == r.value && parsed.rest == reader.Rest();
    var end := reader.Finish();
    if end.Err? { return Err(end.error); }
  }

  /** `from_journal_bytes`: every field read through one cursor, then no byte left over. */
  method FromJournalBytes(bytes: Bytes) returns (r: Result<PublicCommitment, CommitmentError>)
    ensures r == Decode(bytes)
  {
    var reader := new Reader(bytes);
    r := ReadWhole(reader);
  }

  /** The digest a verifier checks a seal against. */
  function JournalDigest(h: HashFn, c: PublicCommitment): Result<Digest, CommitmentError> {
    var bytes :- Encode(c);
    Ok(h(bytes))
  }

  /** Equal digests identify one commitment, or exhibit two journals with one digest. */
  lemma DigestIdentifiesCommitment(h: HashFn, c: PublicCommitment, d: PublicCommitment)
    requires JournalDigest(h, c).Ok? && JournalDigest(h, c) == JournalDigest(h, d)
    ensures c == d || Collision(h, Encode(c).value, Encode(d).value)
  {
    if Encode(c) == Encode(d) {
      EncodeInjective(c, d);
    }
  }
}
