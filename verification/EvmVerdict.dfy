/** What the contract's parser answers on every journal, accepted or not: its verdict in terms of
    the commitment the journal decodes to, and its answer to a journal cut short or extended. */
module EvmVerdict {
  import opened Bytes
  import opened Journal
  import opened JournalLayout
  import opened EvmJournal

  // ---------------------------------------------------------------- journals that decode

  /** An identity must have 20 bytes to be readable, and be the expected account. */
  function PartyVerdict(bytes: Bytes, account: Address): Outcome<JournalError> {
    if |bytes| != 20 then Fail(MalformedJournal)
    else if bytes != ToBE(account, 20) then Fail(JournalBindingMismatch)
    else Pass
  }

  /** The verdict on the parties and the id, in the order they stand. */
  function PartiesVerdict(self: Address, e: EscrowDB, id: nat, c: PublicCommitment): Outcome<JournalError> {
    if PartyVerdict(c.agentId, self).Fail? then PartyVerdict(c.agentId, self)
    else if c.escrowId != id then Fail(JournalBindingMismatch)
    else if PartyVerdict(c.sender, e.sender).Fail? then PartyVerdict(c.sender, e.sender)
    else PartyVerdict(c.recipient, e.recipient)
  }

  function TermsVerdict(e: EscrowDB, c: PublicCommitment): Outcome<JournalError> {
    if c.assetKind != Native || c.assetToken != [] then Fail(MalformedJournal)
    else if c.amount != e.amount || c.condition != e.conditionId then Fail(JournalBindingMismatch)
    else Pass
  }

  /** Wrong chain, outcome, identity width or asset is malformed; a wrong identity, id, amount or
      condition is a mismatch; the first in journal order counts. */
  function Verdict(self: Address, e: EscrowDB, id: nat, c: PublicCommitment): Outcome<JournalError> {
    if c.chain != Ethereum || c.outcome != Success(ConditionsMet) then Fail(MalformedJournal)
    else if PartiesVerdict(self, e, id, c).Fail? then PartiesVerdict(self, e, id, c)
    else TermsVerdict(e, c)
  }

  lemma WordRead(x: Bytes, rest: Bytes)
    ensures ReadWord(x + rest, |x|) == Ok(Cursor(FromBE(x), rest))
  {
    assert (x + rest)[..|x|] == x && (x + rest)[|x|..] == rest;
  }

  lemma ByteExpected(x: byte, v: nat, e: JournalError, rest: Bytes)
    ensures Expect([x] + rest, 1, v, e) == if x == v then Ok(rest) else Err(e)
  {
    WordRead([x], rest);
    assert FromBE([x]) == FromBE([]) * 256 + x by {
      assert [x][..0] == [];
    }
  }

  lemma HeaderVerdict(c: PublicCommitment, tail: Bytes)
    ensures ExpectHeader(EncodeHeader(c, tail)) ==
            if c.chain == Ethereum && c.outcome == Success(ConditionsMet) then Ok(tail) else Err(MalformedJournal)
  {
    hide Expect;
    var s2 := OutcomeBytes(c.outcome) + tail;
    ByteExpected(1, 1, MalformedJournal, [ChainTag(c.chain)] + s2);
    ByteExpected(ChainTag(c.chain), 0, MalformedJournal, s2);
    match c.outcome {
      case Success(state) =>
        assert s2 == [1] + ([StateTag(state)] + tail);
        ByteExpected(1, 1, MalformedJournal, [StateTag(state)] + tail);
        ByteExpected(StateTag(state), 2, MalformedJournal, tail);
      case Failure =>
        ByteExpected(0, 1, MalformedJournal, tail);
    }
  }

  lemma PartyRead(field: Bytes, v: Address, rest: Bytes)
    requires |field| <= MAX_FIELD
    ensures ExpectParty(LengthPrefixed(field).value + rest, v) ==
            match PartyVerdict(field, v) case Pass => Ok(rest) case Fail(e) => Err(e)
  {
    hide ToBE, FromBE, ReadWord, Pow256;
    var prefix := ToBE(|field|, 2);
    assert (prefix + field) + rest == prefix + (field + rest);
    WordRead(prefix, field + rest);
    Pow256Constants();
    FromToBE(|field|, 2);
    if |field| == 20 {
      WordRead(field, rest);
      BEUnique(field, v);
    }
  }

  lemma PartiesRead(self: Address, e: EscrowDB, id: nat, c: PublicCommitment, tail: Bytes)
    requires EncodeParties(c, tail).Ok?
    ensures ExpectParties(EncodeParties(c, tail).value, self, e, id) ==
            match PartiesVerdict(self, e, id, c) case Pass => Ok(tail) case Fail(err) => Err(err)
  {
    hide ToBE, FromBE, ReadWord, Pow256, ExpectParty, LengthPrefixed, PartyVerdict;
    FieldsFit(c);
    PrefixWidths(c);
    var s3 := LengthPrefixed(c.recipient).value + tail;
    var s2 := LengthPrefixed(c.sender).value + s3;
    var s1 := ToBE(c.escrowId, 8) + s2;
    PartyRead(c.agentId, self, s1);
    WordRead(ToBE(c.escrowId, 8), s2);
    Pow256Constants();
    FromToBE(c.escrowId, 8);
    PartyRead(c.sender, e.sender, s3);
    PartyRead(c.recipient, e.recipient, tail);
  }

  lemma TokenExpected(field: Bytes, rest: Bytes)
    requires |field| <= MAX_FIELD
    ensures Expect(LengthPrefixed(field).value + rest, 2, 0, MalformedJournal) ==
            if field == [] then Ok(rest) else Err(MalformedJournal)
  {
    hide ToBE, FromBE, ReadWord, Pow256;
    var prefix := ToBE(|field|, 2);
    assert (prefix + field) + rest == prefix + (field + rest);
    WordRead(prefix, field + rest);
    Pow256Constants();
    FromToBE(|field|, 2);
    if field == [] {
      assert field + rest == rest;
    }
  }

  lemma TermsRead(e: EscrowDB, c: PublicCommitment)
    requires EncodeTerms(c, []).Ok?
    ensures ExpectTerms(EncodeTerms(c, []).value, e) ==
            match TermsVerdict(e, c) case Pass => Ok([]) case Fail(err) => Err(err)
  {
    hide ToBE, FromBE, Pow256;
    var s3 := c.condition + [];
    var s2 := ToBE(c.amount, 32) + s3;
    var s1 := LengthPrefixed(c.assetToken).value + s2;
    ByteExpected(AssetKindTag(c.assetKind), 0, MalformedJournal, s1);
    TokenExpected(c.assetToken, s2);
    WordRead(ToBE(c.amount, 32), s3);
    Pow256Constants();
    FromToBE(c.amount, 32);
    WordRead(c.condition, []);
    FromBEBound(e.conditionId);
    BEUnique(c.condition, FromBE(e.conditionId));
    ToFromBE(e.conditionId);
  }

  /** The parser's answer to every journal that decodes, error kinds included. */
  lemma ParserVerdict(self: Address, e: EscrowDB, id: nat, journal: Bytes)
    requires Decode(journal).Ok?
    ensures CheckBinding(self, e, id, journal) == Verdict(self, e, id, Decode(journal).value)
  {
    hide EncodeHeader, EncodeParties, EncodeTerms, ExpectHeader, ExpectParties, ExpectTerms, PartiesVerdict,
         TermsVerdict;
    var c := Decode(journal).value;
    EncodeDecode(journal);
    EncodeParts(c);
    var terms := EncodeTerms(c, []).value;
    HeaderVerdict(c, EncodeParties(c, terms).value);
    PartiesRead(self, e, id, c, terms);
    TermsRead(e, c);
  }

  // ---------------------------------------------------------------- journals cut short or extended

  lemma ExpectCut(s: Bytes, n: nat, v: nat, e: JournalError, m: nat)
    requires m <= |s| && Expect(s, n, v, e).Ok?
    ensures n <= |s| && |Expect(s, n, v, e).value| == |s| - n
    ensures Expect(s[..m], n, v, e) ==
            if m < n then Err(MalformedJournal) else Ok(Expect(s, n, v, e).value[..m - n])
  {
    if n <= m {
      assert s[..m][..n] == s[..n] && s[..m][n..] == s[n..][..m - n];
    }
  }

  lemma PartyCut(s: Bytes, v: Address, m: nat)
    requires m <= |s| && ExpectParty(s, v).Ok?
    ensures 22 <= |s| && |ExpectParty(s, v).value| == |s| - 22
    ensures ExpectParty(s[..m], v) ==
            if m < 22 then Err(MalformedJournal) else Ok(ExpectParty(s, v).value[..m - 22])
  {
    ExpectCut(s, 2, 20, MalformedJournal, m);
    var t := Expect(s, 2, 20, MalformedJournal).value;
    if m >= 2 {
      ExpectCut(t, 20, v, JournalBindingMismatch, m - 2);
    }
  }

  lemma HeaderCut(s: Bytes, m: nat)
    requires m <= |s| && ExpectHeader(s).Ok?
    ensures 4 <= |s| && |ExpectHeader(s).value| == |s| - 4
    ensures ExpectHeader(s[..m]) == if m < 4 then Err(MalformedJournal) else Ok(ExpectHeader(s).value[..m - 4])
  {
    hide Expect;
    ExpectCut(s, 1, 1, MalformedJournal, m);
    var s1 := Expect(s, 1, 1, MalformedJournal).value;
    ExpectCut(s1, 1, 0, MalformedJournal, Minus(m, 1));
    var s2 := Expect(s1, 1, 0, MalformedJournal).value;
    ExpectCut(s2, 1, 1, MalformedJournal, Minus(m, 2));
    var s3 := Expect(s2, 1, 1, MalformedJournal).value;
    ExpectCut(s3, 1, 2, MalformedJournal, Minus(m, 3));
  }

  lemma PartiesCut(s: Bytes, self: Address, e: EscrowDB, id: nat, m: nat)
    requires m <= |s| && ExpectParties(s, self, e, id).Ok?
    ensures 74 <= |s| && |ExpectParties(s, self, e, id).value| == |s| - 74
    ensures ExpectParties(s[..m], self, e, id) ==
            if m < 74 then Err(MalformedJournal) else Ok(ExpectParties(s, self, e, id).value[..m - 74])
  {
    hide Expect, ExpectParty;
    PartyCut(s, self, m);
    var s1 := ExpectParty(s, self).value;
    ExpectCut(s1, 8, id, JournalBindingMismatch, Minus(m, 22));
    var s2 := Expect(s1, 8, id, JournalBindingMismatch).value;
    PartyCut(s2, e.sender, Minus(m, 30));
    var s3 := ExpectParty(s2, e.sender).value;
    PartyCut(s3, e.recipient, Minus(m, 52));
  }

  lemma TermsCut(s: Bytes, e: EscrowDB, m: nat)
    requires m <= |s| && ExpectTerms(s, e).Ok?
    ensures 67 <= |s| && |ExpectTerms(s, e).value| == |s| - 67
    ensures ExpectTerms(s[..m], e) ==
            if m < 67 then Err(MalformedJournal) else Ok(ExpectTerms(s, e).value[..m - 67])
  {
    hide Expect;
    ExpectCut(s, 1, 0, MalformedJournal, m);
    var s1 := Expect(s, 1, 0, MalformedJournal).value;
    ExpectCut(s1, 2, 0, MalformedJournal, Minus(m, 1));
    var s2 := Expect(s1, 2, 0, MalformedJournal).value;
    ExpectCut(s2, 32, e.amount, JournalBindingMismatch, Minus(m, 3));
    var s3 := Expect(s2, 32, e.amount, JournalBindingMismatch).value;
    ExpectCut(s3, 32, FromBE(e.conditionId), JournalBindingMismatch, Minus(m, 35));
  }

  /** An accepted journal has 145 bytes, and cut short anywhere it is malformed. */
  lemma CutIsMalformed(self: Address, e: EscrowDB, id: nat, journal: Bytes, n: nat)
    requires CheckBinding(self, e, id, journal).Pass? && n < |journal|
    ensures |journal| == 145 && CheckBinding(self, e, id, journal[..n]) == Fail(MalformedJournal)
  {
    hide ExpectHeader, ExpectParties, ExpectTerms;
    HeaderCut(journal, n);
    var s1 := ExpectHeader(journal).value;
    PartiesCut(s1, self, e, id, Minus(n, 4));
    var s2 := ExpectParties(s1, self, e, id).value;
    TermsCut(s2, e, Minus(n, 78));
  }

  /** Extended by anything, an accepted journal is malformed. */
  lemma ExtendedIsMalformed(self: Address, e: EscrowDB, id: nat, journal: Bytes, tail: Bytes)
    requires CheckBinding(self, e, id, journal).Pass? && tail != []
    ensures CheckBinding(self, e, id, journal + tail) == Fail(MalformedJournal)
  {
    hide EncodeHeader, EncodeParties, EncodeTerms;
    ParserRefinesEncoder(self, e, id, journal);
    var c := BoundCommitment(self, e, id);
    EncodeOntoAppends(c, tail);
    EncodeParts(c);
    EncodeTermsAppends(c, tail);
    var terms := EncodeTerms(c, tail).value;
    PartiesEncode(c, terms);
    var parties := EncodeParties(c, terms).value;
    HeaderVerdict(c, parties);
    ExpectPartiesIff(parties, self, e, id, terms);
    ExpectTermsIff(terms, e, c, tail);
  }
}
