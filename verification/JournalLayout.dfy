/** The journal byte for byte: what stands where, and which offset or tag a decoder complains
    about when bytes are missing or wrong. */
module JournalLayout {
  import opened Bytes
  import opened Journal

  // ---------------------------------------------------------------- what stands where

  /** At `at` stand a two-byte length and the field. */
  predicate FieldAt(b: Bytes, at: nat, field: Bytes) {
    && at + 2 + |field| <= |b|
    && FromBE(b[at..at + 2]) == |field|
    && b[at + 2..at + 2 + |field|] == field
  }

  lemma Peel(b: Bytes, at: nat, piece: Bytes, rest: Bytes)
    requires at <= |b| && b[at..] == piece + rest
    ensures at + |piece| + |rest| == |b|
    ensures b[at..at + |piece|] == piece && b[at + |piece|..] == rest
    ensures piece != [] ==> b[at] == piece[0]
  {
    assert |b[at..]| == |piece| + |rest|;
    assert b[at..at + |piece|] == b[at..][..|piece|];
    assert b[at + |piece|..] == b[at..][|piece|..];
    if piece != [] {
      assert b[at] == b[at..][0];
    }
  }

  lemma PeelField(b: Bytes, at: nat, field: Bytes, rest: Bytes)
    requires at <= |b| && |field| <= MAX_FIELD && b[at..] == LengthPrefixed(field).value + rest
    ensures FieldAt(b, at, field)
    ensures at + 2 + |field| + |rest| == |b| && b[at + 2 + |field|..] == rest
  {
    var prefix := ToBE(|field|, 2);
    assert (prefix + field) + rest == prefix + (field + rest);
    Peel(b, at, prefix, field + rest);
    Peel(b, at + 2, field, rest);
    Pow256Constants();
    FromToBE(|field|, 2);
  }

  /** Where the fields after the outcome begin, given the commitment. */
  function AgentAt(c: PublicCommitment): nat {
    if c.outcome.Success? then 4 else 3
  }

  function IdAt(c: PublicCommitment): nat {
    AgentAt(c) + 2 + |c.agentId|
  }

  function SenderAt(c: PublicCommitment): nat {
    IdAt(c) + 8
  }

  function RecipientAt(c: PublicCommitment): nat {
    SenderAt(c) + 2 + |c.sender|
  }

  function KindAt(c: PublicCommitment): nat {
    RecipientAt(c) + 2 + |c.recipient|
  }

  function AmountAt(c: PublicCommitment): nat {
    KindAt(c) + 3 + |c.assetToken|
  }

  lemma HeaderLayout(c: PublicCommitment, tail: Bytes)
    ensures var b := EncodeHeader(c, tail);
            && |b| == AgentAt(c) + |tail| && b[AgentAt(c)..] == tail
            && b[0] == 1 && b[1] == (if c.chain == Ethereum then 0 else 1)
            && b[2] == (if c.outcome.Success? then 1 else 0)
            && (c.outcome.Success? ==>
                  b[3] == match c.outcome.state case Initialized => 0 case Funded => 1 case ConditionsMet => 2)
  {
  }

  lemma PartiesLayout(c: PublicCommitment, b: Bytes, terms: Bytes)
    requires EncodeParties(c, terms).Ok? && AgentAt(c) <= |b| && b[AgentAt(c)..] == EncodeParties(c, terms).value
    ensures FieldAt(b, AgentAt(c), c.agentId)
    ensures SenderAt(c) <= |b| && FromBE(b[IdAt(c)..SenderAt(c)]) == c.escrowId
    ensures FieldAt(b, SenderAt(c), c.sender) && FieldAt(b, RecipientAt(c), c.recipient)
    ensures KindAt(c) <= |b| && b[KindAt(c)..] == terms
  {
    hide LengthPrefixed, FieldAt, ToBE, FromBE;
    var s3 := LengthPrefixed(c.recipient).value + terms;
    var s2 := LengthPrefixed(c.sender).value + s3;
    var s1 := ToBE(c.escrowId, 8) + s2;
    FieldsFit(c);
    PeelField(b, AgentAt(c), c.agentId, s1);
    Peel(b, IdAt(c), ToBE(c.escrowId, 8), s2);
    Pow256Constants();
    FromToBE(c.escrowId, 8);
    PeelField(b, SenderAt(c), c.sender, s3);
    PeelField(b, RecipientAt(c), c.recipient, terms);
  }

  lemma FieldsFit(c: PublicCommitment)
    requires EncodeParties(c, []).Ok? || exists tail :: EncodeParties(c, tail).Ok?
    ensures |c.agentId| <= MAX_FIELD && |c.sender| <= MAX_FIELD && |c.recipient| <= MAX_FIELD
  {
  }

  lemma TermsLayout(c: PublicCommitment, b: Bytes)
    requires EncodeTerms(c, []).Ok? && KindAt(c) <= |b| && b[KindAt(c)..] == EncodeTerms(c, []).value
    ensures |b| == AmountAt(c) + 64 && b[KindAt(c)] == (if c.assetKind == Native then 0 else 1)
    ensures FieldAt(b, KindAt(c) + 1, c.assetToken)
    ensures FromBE(b[AmountAt(c)..AmountAt(c) + 32]) == c.amount && b[AmountAt(c) + 32..] == c.condition
  {
    hide FieldAt, ToBE, FromBE;
    var s2 := AmountBytes(c.amount).value + (c.condition + []);
    Peel(b, KindAt(c), [AssetKindTag(c.assetKind)], LengthPrefixed(c.assetToken).value + s2);
    PeelField(b, KindAt(c) + 1, c.assetToken, s2);
    Peel(b, AmountAt(c), ToBE(c.amount, 32), c.condition + []);
    Pow256Constants();
    FromToBE(c.amount, 32);
    assert c.condition + [] == c.condition;
  }

  /** Every byte of a journal: version, chain, outcome and state tags, the identities behind their
      lengths, the id in eight big-endian bytes, the asset kind and token, the amount in 32
      big-endian bytes, and the condition. */
  lemma Layout(c: PublicCommitment)
    requires Encode(c).Ok?
    ensures var b := Encode(c).value;
            && |b| == AmountAt(c) + 64
            && b[0] == 1 && b[1] == (if c.chain == Ethereum then 0 else 1)
            && b[2] == (if c.outcome.Success? then 1 else 0)
            && (c.outcome.Success? ==>
                  b[3] == match c.outcome.state case Initialized => 0 case Funded => 1 case ConditionsMet => 2)
            && FieldAt(b, AgentAt(c), c.agentId)
            && FromBE(b[IdAt(c)..SenderAt(c)]) == c.escrowId
            && FieldAt(b, SenderAt(c), c.sender) && FieldAt(b, RecipientAt(c), c.recipient)
            && b[KindAt(c)] == (if c.assetKind == Native then 0 else 1)
            && FieldAt(b, KindAt(c) + 1, c.assetToken)
            && FromBE(b[AmountAt(c)..AmountAt(c) + 32]) == c.amount
            && b[AmountAt(c) + 32..] == c.condition
  {
    hide EncodeHeader, EncodeParties, EncodeTerms, FieldAt, FromBE;
    var terms := EncodeTerms(c, []).value;
    PartiesEncode(c, terms);
    var parties := EncodeParties(c, terms).value;
    HeaderLayout(c, parties);
    PartiesLayout(c, Encode(c).value, terms);
    TermsLayout(c, Encode(c).value);
  }

  lemma PartiesEncode(c: PublicCommitment, tail: Bytes)
    ensures EncodeParties(c, tail).Ok? <==> EncodeParties(c, []).Ok?
  {
  }

  // ---------------------------------------------------------------- wrong tags

  /** The first tag that names nothing is reported, with its value. */
  lemma HeaderErrors(b: Bytes)
    ensures |b| >= 1 && b[0] != 1 ==> Decode(b) == Err(UnknownVersion(b[0]))
    ensures |b| >= 2 && b[0] == 1 && b[1] > 1 ==> Decode(b) == Err(UnknownTag("chain", b[1]))
    ensures |b| >= 3 && b[0] == 1 && b[1] <= 1 && b[2] > 1 ==> Decode(b) == Err(UnknownTag("outcome", b[2]))
    ensures |b| >= 4 && b[0] == 1 && b[1] <= 1 && b[2] == 1 && b[3] > 2
            ==> Decode(b) == Err(UnknownTag("execution_state", b[3]))
  {
    hide TakeParties, TakeTerms;
  }

  lemma AssetKindError(c: PublicCommitment, tag: byte)
    requires Encode(c).Ok? && tag > 1
    ensures KindAt(c) < |Encode(c).value|
    ensures Decode(Encode(c).value[KindAt(c) := tag]) == Err(UnknownTag("asset_kind", tag))
  {
    hide Encode, EncodeHeader, EncodeParties, FieldAt, TakeHeader, TakeParties;
    Layout(c);
    assert Encode(c).Ok? && EncodeParties(c, []).Ok? && EncodeTerms(c, []).Ok? by {
      EncodeParts(c);
    }
    var terms := EncodeTerms(c, []).value;
    var wrong := [tag] + terms[1..];
    PartiesEncode(c, terms);
    PartiesEncode(c, wrong);
    var parties, parties' := EncodeParties(c, terms).value, EncodeParties(c, wrong).value;
    var b := EncodeHeader(c, parties');
    HeaderLayout(c, parties');
    PartiesLayout(c, b, wrong);
    ChangedByte(c, tag);
    TakeHeaderExactly(|b|, c, parties');
    TakePartiesExactly(|b|, c, wrong);
    TakeByteExactly(|b|, tag, terms[1..]);
  }

  lemma EncodeParts(c: PublicCommitment)
    requires Encode(c).Ok?
    ensures EncodeParties(c, []).Ok? && EncodeTerms(c, []).Ok?
    ensures EncodeParties(c, EncodeTerms(c, []).value).Ok?
    ensures Encode(c).value == EncodeHeader(c, EncodeParties(c, EncodeTerms(c, []).value).value)
  {
  }

  lemma ChangedByte(c: PublicCommitment, tag: byte)
    requires Encode(c).Ok?
    ensures EncodeTerms(c, []).Ok? && |EncodeTerms(c, []).value| >= 1 && KindAt(c) < |Encode(c).value|
    ensures var wrong := [tag] + EncodeTerms(c, []).value[1..];
            && EncodeParties(c, wrong).Ok?
            && Encode(c).value[KindAt(c) := tag] == EncodeHeader(c, EncodeParties(c, wrong).value)
  {
    hide EncodeHeader, EncodeParties, FieldAt;
    EncodeParts(c);
    var terms := EncodeTerms(c, []).value;
    var wrong := [tag] + terms[1..];
    var front := EncodeHeader(c, []) + EncodeParties(c, []).value;
    FrontThen(c, terms);
    FrontThen(c, wrong);
    Layout(c);
    assert (front + terms)[|front| := tag] == front + wrong;
  }

  /** Header and parties come before whatever follows them, and end where the asset kind stands. */
  lemma FrontThen(c: PublicCommitment, tail: Bytes)
    requires EncodeParties(c, []).Ok?
    ensures EncodeParties(c, tail).Ok?
    ensures |EncodeHeader(c, []) + EncodeParties(c, []).value| == KindAt(c)
    ensures EncodeHeader(c, EncodeParties(c, tail).value) ==
            (EncodeHeader(c, []) + EncodeParties(c, []).value) + tail
  {
    hide EncodeHeader, EncodeParties, FieldAt, FromBE;
    PartiesEncode(c, tail);
    var parties := EncodeParties(c, []).value;
    EncodePartiesAppends(c, [], tail);
    assert [] + tail == tail;
    EncodeHeaderAppends(c, [], parties + tail);
    assert [] + (parties + tail) == parties + tail;
    assert (EncodeHeader(c, []) + parties) + tail == EncodeHeader(c, []) + (parties + tail);
    HeaderLayout(c, []);
    HeaderLayout(c, parties);
    PartiesLayout(c, EncodeHeader(c, parties), []);
    EncodeHeaderAppends(c, [], parties);
    assert [] + parties == parties;
  }

  // ---------------------------------------------------------------- missing bytes

  function Extent(ws: seq<nat>): nat {
    if ws == [] then 0 else ws[0] + Extent(ws[1..])
  }

  /** How far the reads get that fit into `n` bytes, one after another. */
  function Reached(ws: seq<nat>, n: nat): nat {
    if ws == [] || n < ws[0] then 0 else ws[0] + Reached(ws[1..], n - ws[0])
  }

  lemma {:induction false} ReachedAppend(a: seq<nat>, b: seq<nat>, n: nat)
    ensures Extent(a + b) == Extent(a) + Extent(b)
    ensures Reached(a + b, n) == if n < Extent(a) then Reached(a, n) else Extent(a) + Reached(b, n - Extent(a))
    decreases |a|
  {
    if a == [] {
      assert a + b == b;
    } else {
      assert (a + b)[1..] == a[1..] + b;
      ReachedAppend(a[1..], b, if n < a[0] then 0 else n - a[0]);
    }
  }

  /** That is the boundary before the first read that does not fit. */
  lemma {:induction false} ReachedIsBoundary(ws: seq<nat>, n: nat) returns (i: nat)
    requires n < Extent(ws)
    ensures i < |ws| && Reached(ws, n) == Extent(ws[..i]) <= n < Extent(ws[..i + 1])
    decreases |ws|
  {
    if n < ws[0] {
      i := 0;
      assert ws[..1][1..] == [];
    } else {
      var k := ReachedIsBoundary(ws[1..], n - ws[0]);
      i := k + 1;
      assert ws[..i][1..] == ws[1..][..k] && ws[..i + 1][1..] == ws[1..][..k + 1];
    }
  }

  /** The widths of the reads a decoder makes of a commitment's journal, in order. */
  function FieldReads(field: Bytes): seq<nat> {
    [2, |field|]
  }

  function HeaderReads(c: PublicCommitment): seq<nat> {
    [1, 1, 1] + if c.outcome.Success? then [1] else []
  }

  function PartyReads(c: PublicCommitment): seq<nat> {
    FieldReads(c.agentId) + ([8] + (FieldReads(c.sender) + FieldReads(c.recipient)))
  }

  function TermReads(c: PublicCommitment): seq<nat> {
    [1] + (FieldReads(c.assetToken) + [AMOUNT_WIDTH, 32])
  }

  function Reads(c: PublicCommitment): seq<nat> {
    HeaderReads(c) + (PartyReads(c) + TermReads(c))
  }

  /** The result of reading `ws` from the first `m` of the bytes `ws` and `rest`: truncated where
      the reads get to, or `value` and what is left of `rest`. */
  ghost predicate ReadsCut<T>(r: Result<Cursor<T>, CommitmentError>, total: nat, ws: seq<nat>, m: nat, value: T,
                              rest: Bytes)
    requires m <= total && m <= Extent(ws) + |rest|
  {
    r == if m < Extent(ws) then Err(Truncated(total - m + Reached(ws, m)))
         else Ok(Cursor(value, rest[..m - Extent(ws)]))
  }

  lemma OneRead(w: nat, n: nat)
    ensures Extent([w]) == w && Reached([w], n) == if n < w then 0 else w
  {
    assert [w][1..] == [];
  }

  lemma TwoReads(w: nat, v: nat, n: nat)
    ensures Extent([w, v]) == w + v
    ensures Reached([w, v], n) == if n < w then 0 else if n < w + v then w else w + v
  {
    assert [w, v][1..] == [v];
    OneRead(v, if n < w then 0 else n - w);
  }

  lemma TakeCut(total: nat, x: Bytes, rest: Bytes, m: nat)
    requires m <= total && m <= |x| + |rest|
    ensures Take(total, (x + rest)[..m], |x|) ==
            if m < |x| then Err(Truncated(total - m)) else Ok(Cursor(x, rest[..m - |x|]))
  {
    var s := (x + rest)[..m];
    if m >= |x| {
      assert s == x + rest[..m - |x|];
      TakeExactly(total, x, rest[..m - |x|]);
    }
  }

  lemma ByteCut(total: nat, x: byte, rest: Bytes, m: nat)
    requires m <= total && m <= 1 + |rest|
    ensures TakeByte(total, ([x] + rest)[..m]) ==
            if m < 1 then Err(Truncated(total - m)) else Ok(Cursor(x, rest[..m - 1]))
  {
    TakeCut(total, [x], rest, m);
  }

  lemma FieldCut(total: nat, field: Bytes, rest: Bytes, m: nat)
    requires |field| <= MAX_FIELD && m <= total && m <= 2 + |field| + |rest|
    ensures Extent(FieldReads(field)) == 2 + |field|
    ensures ReadsCut(TakeField(total, (LengthPrefixed(field).value + rest)[..m]), total, FieldReads(field), m, field,
                     rest)
  {
    hide ToBE, FromBE, Pow256;
    TwoReads(2, |field|, m);
    var prefix := ToBE(|field|, 2);
    assert (prefix + field) + rest == prefix + (field + rest);
    TakeCut(total, prefix, field + rest, m);
    Pow256Constants();
    FromToBE(|field|, 2);
    if m >= 2 {
      TakeCut(total, field, rest, m - 2);
    }
  }

  lemma OutcomeCut(total: nat, outcome: ExecutionResult, rest: Bytes, m: nat)
    requires m <= total && m <= |OutcomeBytes(outcome)| + |rest|
    ensures var ws := [1] + if outcome.Success? then [1] else [];
            && Extent(ws) == |OutcomeBytes(outcome)|
            && ReadsCut(TakeOutcome(total, (OutcomeBytes(outcome) + rest)[..m]), total, ws, m, outcome, rest)
  {
    match outcome {
      case Success(state) =>
        assert [1] + [1] == [1, 1];
        TwoReads(1, 1, m);
        assert OutcomeBytes(outcome) + rest == [1] + ([StateTag(state)] + rest);
        ByteCut(total, 1, [StateTag(state)] + rest, m);
        if m >= 1 {
          ByteCut(total, StateTag(state), rest, m - 1);
        }
      case Failure =>
        assert [1] + [] == [1];
        OneRead(1, m);
        ByteCut(total, 0, rest, m);
    }
  }

  lemma HeaderCut(total: nat, c: PublicCommitment, tail: Bytes, m: nat)
    requires m <= total && m <= |EncodeHeader(c, tail)|
    ensures Extent(HeaderReads(c)) == AgentAt(c) && |EncodeHeader(c, tail)| == AgentAt(c) + |tail|
    ensures ReadsCut(TakeHeader(total, EncodeHeader(c, tail)[..m]), total, HeaderReads(c), m,
                     Header(c.chain, c.outcome), tail)
  {
    hide Extent, Reached, TakeOutcome, OutcomeBytes;
    HeaderLayout(c, tail);
    var last := [1] + if c.outcome.Success? then [1] else [];
    assert HeaderReads(c) == [1, 1] + last;
    var s2 := OutcomeBytes(c.outcome) + tail;
    OutcomeWidth(c.outcome);
    TwoReads(1, 1, m);
    ReachedAppend([1, 1], last, m);
    ByteCut(total, JOURNAL_VERSION, [ChainTag(c.chain)] + s2, m);
    if m >= 1 {
      ByteCut(total, ChainTag(c.chain), s2, m - 1);
    }
    OutcomeCut(total, c.outcome, tail, if m >= 2 then m - 2 else 0);
  }

  lemma OutcomeWidth(outcome: ExecutionResult)
    ensures |OutcomeBytes(outcome)| == if outcome.Success? then 2 else 1
  {
  }

  lemma PartiesCut(total: nat, c: PublicCommitment, tail: Bytes, m: nat)
    requires EncodeParties(c, tail).Ok? && m <= total && m <= |EncodeParties(c, tail).value|
    ensures |EncodeParties(c, tail).value| == Extent(PartyReads(c)) + |tail|
    ensures ReadsCut(TakeParties(total, EncodeParties(c, tail).value[..m]), total, PartyReads(c), m,
                     Parties(c.agentId, c.escrowId, c.sender, c.recipient), tail)
  {
    hide Extent, Reached, TakeField, LengthPrefixed, ToBE, FromBE, Take, FieldReads;
    FieldsFit(c);
    PrefixWidths(c);
    var s3 := LengthPrefixed(c.recipient).value + tail;
    var s2 := LengthPrefixed(c.sender).value + s3;
    var s1 := ToBE(c.escrowId, 8) + s2;
    var w3 := FieldReads(c.sender) + FieldReads(c.recipient);
    var w2 := [8] + w3;
    var n1 := Minus(m, 2 + |c.agentId|);
    var n2 := Minus(n1, 8);
    var n3 := Minus(n2, 2 + |c.sender|);
    FieldCut(total, c.agentId, s1, m);
    ReachedAppend(FieldReads(c.agentId), w2, m);
    TakeCut(total, ToBE(c.escrowId, 8), s2, n1);
    Pow256Constants();
    FromToBE(c.escrowId, 8);
    OneRead(8, n1);
    ReachedAppend([8], w3, n1);
    FieldCut(total, c.sender, s3, n2);
    ReachedAppend(FieldReads(c.sender), FieldReads(c.recipient), n2);
    FieldCut(total, c.recipient, tail, n3);
  }

  function Minus(m: nat, k: nat): nat {
    if m < k then 0 else m - k
  }

  lemma PrefixWidths(c: PublicCommitment)
    requires |c.agentId| <= MAX_FIELD && |c.sender| <= MAX_FIELD && |c.recipient| <= MAX_FIELD
    ensures LengthPrefixed(c.agentId).Ok? && |LengthPrefixed(c.agentId).value| == 2 + |c.agentId|
    ensures LengthPrefixed(c.sender).Ok? && |LengthPrefixed(c.sender).value| == 2 + |c.sender|
    ensures LengthPrefixed(c.recipient).Ok? && |LengthPrefixed(c.recipient).value| == 2 + |c.recipient|
  {
  }

  lemma TermsCut(total: nat, c: PublicCommitment, m: nat)
    requires EncodeTerms(c, []).Ok? && m <= total && m <= |EncodeTerms(c, []).value|
    ensures |EncodeTerms(c, []).value| == Extent(TermReads(c))
    ensures ReadsCut(TakeTerms(total, EncodeTerms(c, []).value[..m]), total, TermReads(c), m,
                     Terms(c.assetKind, c.assetToken, c.amount, c.condition), [])
  {
    hide Extent, Reached, TakeField, ToBE, FromBE, Take, FieldReads;
    var s3 := c.condition + [];
    var s2 := ToBE(c.amount, 32) + s3;
    var s1 := LengthPrefixed(c.assetToken).value + s2;
    assert |LengthPrefixed(c.assetToken).value| == 2 + |c.assetToken|;
    var w1 := FieldReads(c.assetToken) + [AMOUNT_WIDTH, 32];
    var n1 := Minus(m, 1);
    var n2 := Minus(n1, 2 + |c.assetToken|);
    ByteCut(total, AssetKindTag(c.assetKind), s1, m);
    OneRead(1, m);
    ReachedAppend([1], w1, m);
    FieldCut(total, c.assetToken, s2, n1);
    ReachedAppend(FieldReads(c.assetToken), [AMOUNT_WIDTH, 32], n1);
    TwoReads(AMOUNT_WIDTH, 32, n2);
    TakeCut(total, ToBE(c.amount, 32), s3, n2);
    Pow256Constants();
    FromToBE(c.amount, 32);
    TakeCut(total, c.condition, [], Minus(n2, 32));
  }

  /** A journal cut short anywhere is reported as truncated at the last read boundary at or before
      the cut, with boundaries counted from the widths of the commitment's own fields. */
  lemma TruncatedAt(b: Bytes, n: nat) returns (i: nat)
    requires Decode(b).Ok? && n < |b|
    ensures var ws := Reads(Decode(b).value);
            && |b| == Extent(ws) && i < |ws| && Extent(ws[..i]) <= n < Extent(ws[..i + 1])
            && Decode(b[..n]) == Err(Truncated(Extent(ws[..i])))
  {
    hide Extent, Reached, TakeHeader, TakeParties, TakeTerms, EncodeHeader, EncodeTerms, EncodeParties, Reads;
    var c := Decode(b).value;
    EncodeDecode(b);
    EncodeParts(c);
    CutWhole(c, n);
    i := ReachedIsBoundary(Reads(c), n);
  }

  lemma CutWhole(c: PublicCommitment, n: nat)
    requires Encode(c).Ok? && n < |Encode(c).value|
    ensures |Encode(c).value| == Extent(Reads(c))
    ensures Decode(Encode(c).value[..n]) == Err(Truncated(Reached(Reads(c), n)))
  {
    hide Extent, Reached, TakeHeader, TakeParties, TakeTerms, EncodeHeader, EncodeTerms, EncodeParties, HeaderReads,
         PartyReads, TermReads;
    EncodeParts(c);
    var terms := EncodeTerms(c, []).value;
    var parties := EncodeParties(c, terms).value;
    HeaderCut(n, c, parties, n);
    ReachedAppend(HeaderReads(c), PartyReads(c) + TermReads(c), n);
    var n1 := Minus(n, AgentAt(c));
    PartiesCut(n, c, terms, n1);
    ReachedAppend(PartyReads(c), TermReads(c), n1);
    TermsCut(n, c, Minus(n1, Extent(PartyReads(c))));
  }
}
