/** The contract's own journal parser, and the proof that it accepts exactly one journal per
    escrow: the one the guest's encoder would produce for it. */
module EvmJournal {
  import opened Bytes
  import opened Journal

  type Address = x: nat | x < TWO_160

  datatype EscrowDB = EscrowDB(
    sender: Address,
    recipient: Address,
    amount: nat,
    finishAfter: nat,
    cancelAfter: nat,
    conditionId: Digest,
    settled: bool)

  datatype JournalError = MalformedJournal | JournalBindingMismatch

  // ---------------------------------------------------------------- the parser's meaning

  function ReadWord(s: Bytes, n: nat): Result<Cursor<nat>, JournalError> {
    if |s| < n then Err(MalformedJournal) else Ok(Cursor(FromBE(s[..n]), s[n..]))
  }

  function ReadParty(s: Bytes): Result<Cursor<nat>, JournalError> {
    var len :- ReadWord(s, 2);
    if len.value != 20 then Err(MalformedJournal) else ReadWord(len.rest, 20)
  }

  /** One field that must hold `v`; `e` is the error when it does not. */
  function Expect(s: Bytes, n: nat, v: nat, e: JournalError): Result<Bytes, JournalError> {
    var c :- ReadWord(s, n);
    if c.value != v then Err(e) else Ok(c.rest)
  }

  function ExpectParty(s: Bytes, v: Address): Result<Bytes, JournalError> {
    var c :- ReadParty(s);
    if c.value != v then Err(JournalBindingMismatch) else Ok(c.rest)
  }

  function ExpectHeader(s: Bytes): Result<Bytes, JournalError> {
    var s1 :- Expect(s, 1, 1, MalformedJournal);
    var s2 :- Expect(s1, 1, 0, MalformedJournal);
    var s3 :- Expect(s2, 1, 1, MalformedJournal);
    Expect(s3, 1, 2, MalformedJournal)
  }

  function ExpectParties(s: Bytes, self: Address, e: EscrowDB, id: nat): Result<Bytes, JournalError> {
    var s1 :- ExpectParty(s, self);
    var s2 :- Expect(s1, 8, id, JournalBindingMismatch);
    var s3 :- ExpectParty(s2, e.sender);
    ExpectParty(s3, e.recipient)
  }

  function ExpectTerms(s: Bytes, e: EscrowDB): Result<Bytes, JournalError> {
    var s1 :- Expect(s, 1, 0, MalformedJournal);
    var s2 :- Expect(s1, 2, 0, MalformedJournal);
    var s3 :- Expect(s2, 32, e.amount, JournalBindingMismatch);
    Expect(s3, 32, FromBE(e.conditionId), JournalBindingMismatch)
  }

  /** The journal check of one escrow of the contract at `self`. */
  function CheckBinding(self: Address, e: EscrowDB, id: nat, journal: Bytes): Outcome<JournalError> {
    match ExpectHeader(journal)
    case Err(err) => Fail(err)
    case Ok(s1) =>
      match ExpectParties(s1, self, e, id)
      case Err(err) => Fail(err)
      case Ok(s2) =>
        match ExpectTerms(s2, e)
        case Err(err) => Fail(err)
        case Ok(s3) => if s3 == [] then Pass else Fail(MalformedJournal)
  }

  // ---------------------------------------------------------------- one journal per escrow

  /** The commitment a successful guest run makes for this escrow. */
  function BoundCommitment(self: Address, e: EscrowDB, id: U64): PublicCommitment {
    PublicCommitment(Ethereum, ToBE(self, 20), id, ToBE(e.sender, 20), ToBE(e.recipient, 20),
                     Native, [], e.amount, e.conditionId, Success(ConditionsMet))
  }

  lemma ExpectIff(s: Bytes, n: nat, v: nat, e: JournalError, rest: Bytes)
    ensures Expect(s, n, v, e) == Ok(rest) <==> v < Pow256(n) && s == ToBE(v, n) + rest
  {
    if Expect(s, n, v, e) == Ok(rest) {
      FromBEBound(s[..n]);
      ToFromBE(s[..n]);
      assert s == s[..n] + s[n..];
    }
    if v < Pow256(n) && s == ToBE(v, n) + rest {
      FromToBE(v, n);
      assert s[..n] == ToBE(v, n) && s[n..] == rest;
    }
  }

  lemma ExpectPartyIff(s: Bytes, v: Address, rest: Bytes)
    ensures ExpectParty(s, v) == Ok(rest) <==> s == LengthPrefixed(ToBE(v, 20)).value + rest
  {
    Pow256Constants();
    var party := ToBE(v, 20);
    assert LengthPrefixed(party).value + rest == ToBE(20, 2) + (party + rest);
    ExpectIff(s, 2, 20, MalformedJournal, party + rest);
    ExpectIff(party + rest, 20, v, JournalBindingMismatch, rest);
    if ExpectParty(s, v) == Ok(rest) {
      var s1 := ReadWord(s, 2).value.rest;
      ExpectIff(s, 2, 20, MalformedJournal, s1);
      ExpectIff(s1, 20, v, JournalBindingMismatch, rest);
    }
  }

  lemma SmallWords(rest: Bytes)
    ensures ToBE(0, 1) == [0] && ToBE(1, 1) == [1] && ToBE(2, 1) == [2] && ToBE(0, 2) == [0, 0]
    ensures LengthPrefixed([]).value + rest == ToBE(0, 2) + rest
  {
    ToBEZero(2);
    assert ToBE(1, 1) == ToBE(0, 0) + [1];
    assert ToBE(2, 1) == ToBE(0, 0) + [2];
    assert LengthPrefixed([]).value == ToBE(0, 2);
  }

  lemma ExpectHeaderIff(s: Bytes, c: PublicCommitment, rest: Bytes)
    requires c.chain == Ethereum && c.outcome == Success(ConditionsMet)
    ensures ExpectHeader(s) == Ok(rest) <==> s == EncodeHeader(c, rest)
  {
    Pow256Constants();
    SmallWords(rest);
    var s3, s2 := [2] + rest, [1] + ([2] + rest);
    var s1 := [0] + s2;
    assert OutcomeBytes(c.outcome) + rest == s2;
    ExpectIff(s3, 1, 2, MalformedJournal, rest);
    ExpectIff(s2, 1, 1, MalformedJournal, s3);
    ExpectIff(s1, 1, 0, MalformedJournal, s2);
    ExpectIff(s, 1, 1, MalformedJournal, s1);
    if ExpectHeader(s) == Ok(rest) {
      var t1 := Expect(s, 1, 1, MalformedJournal).value;
      var t2 := Expect(t1, 1, 0, MalformedJournal).value;
      var t3 := Expect(t2, 1, 1, MalformedJournal).value;
      ExpectIff(t3, 1, 2, MalformedJournal, rest);
      ExpectIff(t2, 1, 1, MalformedJournal, t3);
      ExpectIff(t1, 1, 0, MalformedJournal, t2);
      ExpectIff(s, 1, 1, MalformedJournal, t1);
    }
  }

  lemma ExpectPartiesIff(s: Bytes, self: Address, e: EscrowDB, id: nat, rest: Bytes)
    ensures ExpectParties(s, self, e, id) == Ok(rest) <==>
            id < TWO_64 && EncodeParties(BoundCommitment(self, e, id), rest) == Ok(s)
  {
    Pow256Constants();
    if ExpectParties(s, self, e, id) == Ok(rest) {
      var t1 := ExpectParty(s, self).value;
      var t2 := Expect(t1, 8, id, JournalBindingMismatch).value;
      var t3 := ExpectParty(t2, e.sender).value;
      ExpectPartyIff(s, self, t1);
      ExpectIff(t1, 8, id, JournalBindingMismatch, t2);
      ExpectPartyIff(t2, e.sender, t3);
      ExpectPartyIff(t3, e.recipient, rest);
    }
    if id < TWO_64 && EncodeParties(BoundCommitment(self, e, id), rest) == Ok(s) {
      var t3 := LengthPrefixed(ToBE(e.recipient, 20)).value + rest;
      var t2 := LengthPrefixed(ToBE(e.sender, 20)).value + t3;
      var t1 := ToBE(id, 8) + t2;
      ExpectPartyIff(s, self, t1);
      ExpectIff(t1, 8, id, JournalBindingMismatch, t2);
      ExpectPartyIff(t2, e.sender, t3);
      ExpectPartyIff(t3, e.recipient, rest);
    }
  }

  lemma TermsReadBack(s: Bytes, e: EscrowDB, c: PublicCommitment, rest: Bytes)
    requires c.assetKind == Native && c.assetToken == [] && c.amount == e.amount && c.condition == e.conditionId
    requires ExpectTerms(s, e) == Ok(rest)
    ensures EncodeTerms(c, rest) == Ok(s)
  {
    hide ToBE, FromBE, Pow256;
    Pow256Constants();
    ToFromBE(e.conditionId);
    var t1 := Expect(s, 1, 0, MalformedJournal).value;
    var t2 := Expect(t1, 2, 0, MalformedJournal).value;
    var t3 := Expect(t2, 32, e.amount, JournalBindingMismatch).value;
    ExpectIff(s, 1, 0, MalformedJournal, t1);
    ExpectIff(t1, 2, 0, MalformedJournal, t2);
    ExpectIff(t2, 32, e.amount, JournalBindingMismatch, t3);
    ExpectIff(t3, 32, FromBE(e.conditionId), JournalBindingMismatch, rest);
    SmallWords(t2);
  }

  lemma TermsAccepted(s: Bytes, e: EscrowDB, c: PublicCommitment, rest: Bytes)
    requires c.assetKind == Native && c.assetToken == [] && c.amount == e.amount && c.condition == e.conditionId
    requires EncodeTerms(c, rest) == Ok(s)
    ensures ExpectTerms(s, e) == Ok(rest)
  {
    hide Expect, ToBE, FromBE, Pow256;
    Pow256Constants();
    FromBEBound(e.conditionId);
    ToFromBE(e.conditionId);
    var t3 := e.conditionId + rest;
    var t2 := ToBE(e.amount, 32) + t3;
    var t1 := ToBE(0, 2) + t2;
    SmallWords(t2);
    ExpectIff(s, 1, 0, MalformedJournal, t1);
    ExpectIff(t1, 2, 0, MalformedJournal, t2);
    ExpectIff(t2, 32, e.amount, JournalBindingMismatch, t3);
    ExpectIff(t3, 32, FromBE(e.conditionId), JournalBindingMismatch, rest);
  }

  lemma ExpectTermsIff(s: Bytes, e: EscrowDB, c: PublicCommitment, rest: Bytes)
    requires c.assetKind == Native && c.assetToken == [] && c.amount == e.amount && c.condition == e.conditionId
    ensures ExpectTerms(s, e) == Ok(rest) <==> EncodeTerms(c, rest) == Ok(s)
  {
    hide ExpectTerms, EncodeTerms;
    if ExpectTerms(s, e) == Ok(rest) {
      TermsReadBack(s, e, c, rest);
    }
    if EncodeTerms(c, rest) == Ok(s) {
      TermsAccepted(s, e, c, rest);
    }
  }

  /** The parser accepts a byte string exactly when the escrow id fits eight bytes and the
      string is the encoded success commitment for that escrow. */
  lemma ParserRefinesEncoder(self: Address, e: EscrowDB, id: nat, journal: Bytes)
    ensures CheckBinding(self, e, id, journal).Pass? <==>
            id < TWO_64 && Encode(BoundCommitment(self, e, id)) == Ok(journal)
  {
    var c := BoundCommitment(self, e, if id < TWO_64 then id else 0);
    if CheckBinding(self, e, id, journal).Pass? {
      var s1 := ExpectHeader(journal).value;
      var s2 := ExpectParties(s1, self, e, id).value;
      ExpectHeaderIff(journal, c, s1);
      ExpectPartiesIff(s1, self, e, id, s2);
      ExpectTermsIff(s2, e, c, []);
    }
    if id < TWO_64 && Encode(c) == Ok(journal) {
      var s2 := EncodeTerms(c, []).value;
      var s1 := EncodeParties(c, s2).value;
      ExpectHeaderIff(journal, c, s1);
      ExpectPartiesIff(s1, self, e, id, s2);
      ExpectTermsIff(s2, e, c, []);
    }
  }

  lemma ToBEInjective(a: Address, b: Address)
    requires ToBE(a, 20) == ToBE(b, 20)
    ensures a == b
  {
    Pow256Constants();
    FromToBE(a, 20);
    FromToBE(b, 20);
  }

  /** One journal authorises one escrow of one contract, with one set of terms. */
  lemma JournalBindsOneEscrow(self: Address, e: EscrowDB, id: nat, self': Address, e': EscrowDB, id': nat,
                              journal: Bytes)
    requires CheckBinding(self, e, id, journal).Pass?
    requires CheckBinding(self', e', id', journal).Pass?
    ensures self == self' && id == id' && e.sender == e'.sender && e.recipient == e'.recipient
    ensures e.amount == e'.amount && e.conditionId == e'.conditionId
  {
    ParserRefinesEncoder(self, e, id, journal);
    ParserRefinesEncoder(self', e', id', journal);
    EncodeInjective(BoundCommitment(self, e, id), BoundCommitment(self', e', id'));
    ToBEInjective(self, self');
    ToBEInjective(e.sender, e'.sender);
    ToBEInjective(e.recipient, e'.recipient);
  }

  // ---------------------------------------------------------------- the program's own form

  /** Shift the accumulator left one byte in its width and add the next byte. */
  function ShiftIn(acc: nat, b: byte, width: nat): nat
    requires width > 0
  {
    (acc * 256) % width + b
  }

  lemma ShiftInRoom(acc: nat, b: byte, width: nat)
    requires acc * 256 < width
    ensures ShiftIn(acc, b, width) == acc * 256 + b
  {
    SmallMod(acc * 256, width);
  }

  /** The shift never loses a bit while fewer bytes than the accumulator holds were read. */
  lemma ShiftInExact(s: Bytes, b: byte, n: nat, width: nat)
    requires |s| < n && width == Pow256(n)
    ensures ShiftIn(FromBE(s), b, width) == FromBE(s + [b])
  {
    FromBEBound(s);
    Pow256Monotone(|s| + 1, n);
    assert Pow256(|s| + 1) == 256 * Pow256(|s|);
    ShiftInRoom(FromBE(s), b, width);
    FromBEAppend(s, b);
  }

  lemma NextSlice(journal: Bytes, start: nat, i: nat)
    requires start <= i < |journal|
    ensures journal[start..i + 1] == journal[start..i] + [journal[i]]
  {
  }

  lemma SliceOfRest(journal: Bytes, start: nat, next: nat)
    requires start <= next <= |journal|
    ensures journal[start..next] == journal[start..][..next - start]
    ensures journal[next..] == journal[start..][next - start..]
  {
  }

  /** Reads `n` bytes, at most 32, into a 256-bit accumulator. */
  method ReadBE(journal: Bytes, offset: nat, n: nat) returns (r: Result<(nat, nat), JournalError>)
    requires offset <= |journal| && n <= 32
    ensures match ReadWord(journal[offset..], n)
            case Ok(c) =>
              r.Ok? && r.value.0 == c.value && offset <= r.value.1 <= |journal| && journal[r.value.1..] == c.rest
            case Err(e) => r == Err(e)
    ensures r.Ok? ==> r.value.0 < Pow256(n)
  {
    var next := offset + n;
    if next > |journal| {
      return Err(MalformedJournal);
    }
    var value := 0;
    Pow256Constants();
    for i := offset to next
      invariant value == FromBE(journal[offset..i])
    {
      ShiftInExact(journal[offset..i], journal[i], 32, TWO_256);
      value := ShiftIn(value, journal[i], TWO_256);
      NextSlice(journal, offset, i);
    }
    SliceOfRest(journal, offset, next);
    FromBEBound(journal[offset..next]);
    return Ok((value, next));
  }

  /** After a length of 20 the party is the word that follows. */
  lemma PartyFollows(journal: Bytes, offset: nat, start: nat)
    requires offset <= start <= |journal|
    requires ReadWord(journal[offset..], 2) == Ok(Cursor(20, journal[start..]))
    ensures ReadParty(journal[offset..]) ==
            if |journal| < start + 20 then Err(MalformedJournal)
            else Ok(Cursor(FromBE(journal[start..start + 20]), journal[start + 20..]))
  {
    if start + 20 <= |journal| {
      SliceOfRest(journal, start, start + 20);
    }
  }

  /** Reads a length-prefixed 20-byte account into a 160-bit accumulator. */
  method ReadAddress(journal: Bytes, offset: nat) returns (r: Result<(Address, nat), JournalError>)
    requires offset <= |journal|
    ensures match ReadParty(journal[offset..])
            case Ok(c) =>
              r.Ok? && r.value.0 == c.value && offset <= r.value.1 <= |journal| && journal[r.value.1..] == c.rest
            case Err(e) => r == Err(e)
  {
    var len := ReadBE(journal, offset, 2);
    if len.Err? { return Err(len.error); }
    if len.value.0 != 20 { return Err(MalformedJournal); }
    var start := len.value.1;
    var next := start + 20;
    PartyFollows(journal, offset, start);
    if next > |journal| { return Err(MalformedJournal); }
    var acc: nat := 0;
    Pow256Constants();
    for i := start to next
      invariant acc == FromBE(journal[start..i])
    {
      ShiftInExact(journal[start..i], journal[i], 20, TWO_160);
      acc := ShiftIn(acc, journal[i], TWO_160);
      NextSlice(journal, start, i);
    }
    FromBEBound(journal[start..next]);
    return Ok((acc, next));
  }

  method CheckHeader(journal: Bytes) returns (r: Result<nat, JournalError>)
    ensures match ExpectHeader(journal)
            case Ok(rest) => r.Ok? && r.value <= |journal| && journal[r.value..] == rest
            case Err(e) => r == Err(e)
  {
    assert journal[0..] == journal;
    var f := ReadBE(journal, 0, 1);
    if f.Err? { return Err(f.error); }
    if f.value.0 != 1 { return Err(MalformedJournal); }
    f := ReadBE(journal, f.value.1, 1);
    if f.Err? { return Err(f.error); }
    if f.value.0 != 0 { return Err(MalformedJournal); }
    f := ReadBE(journal, f.value.1, 1);
    if f.Err? { return Err(f.error); }
    if f.value.0 != 1 { return Err(MalformedJournal); }
    f := ReadBE(journal, f.value.1, 1);
    if f.Err? { return Err(f.error); }
    if f.value.0 != 2 { return Err(MalformedJournal); }
    return Ok(f.value.1);
  }

  method CheckParties(self: Address, e: EscrowDB, id: nat, journal: Bytes, offset: nat)
    returns (r: Result<nat, JournalError>)
    requires offset <= |journal|
    ensures match ExpectParties(journal[offset..], self, e, id)
            case Ok(rest) => r.Ok? && r.value <= |journal| && journal[r.value..] == rest
            case Err(err) => r == Err(err)
  {
    var agent := ReadAddress(journal, offset);
    if agent.Err? { return Err(agent.error); }
    if agent.value.0 != self { return Err(JournalBindingMismatch); }
    var f := ReadBE(journal, agent.value.1, 8);
    if f.Err? { return Err(f.error); }
    if f.value.0 != id { return Err(JournalBindingMismatch); }
    var party := ReadAddress(journal, f.value.1);
    if party.Err? { return Err(party.error); }
    if party.value.0 != e.sender { return Err(JournalBindingMismatch); }
    party := ReadAddress(journal, party.value.1);
    if party.Err? { return Err(party.error); }
    if party.value.0 != e.recipient { return Err(JournalBindingMismatch); }
    return Ok(party.value.1);
  }

  method CheckTerms(e: EscrowDB, journal: Bytes, offset: nat) returns (r: Result<nat, JournalError>)
    requires offset <= |journal|
    ensures match ExpectTerms(journal[offset..], e)
            case Ok(rest) => r.Ok? && r.value <= |journal| && journal[r.value..] == rest
            case Err(err) => r == Err(err)
  {
    var f := ReadBE(journal, offset, 1);
    if f.Err? { return Err(f.error); }
    if f.value.0 != 0 { return Err(MalformedJournal); }
    f := ReadBE(journal, f.value.1, 2);
    if f.Err? { return Err(f.error); }
    if f.value.0 != 0 { return Err(MalformedJournal); }
    f := ReadBE(journal, f.value.1, 32);
    if f.Err? { return Err(f.error); }
    if f.value.0 != e.amount { return Err(JournalBindingMismatch); }
    f := ReadBE(journal, f.value.1, 32);
    if f.Err? { return Err(f.error); }
    Pow256Constants();
    FromBEBound(e.conditionId);
    BEUnique(e.conditionId, f.value.0);
    if ToBE(f.value.0, 32) != e.conditionId { return Err(JournalBindingMismatch); }
    return Ok(f.value.1);
  }

  /** Parses every field in order, threading the offset, and accepts only the one journal. */
  method CheckJournalBinding(self: Address, e: EscrowDB, id: nat, journal: Bytes)
    returns (r: Outcome<JournalError>)
    ensures r == CheckBinding(self, e, id, journal)
    ensures r.Pass? <==> id < TWO_64 && Encode(BoundCommitment(self, e, id)) == Ok(journal)
  {
    ParserRefinesEncoder(self, e, id, journal);
    var off := CheckHeader(journal);
    if off.Err? { return Fail(off.error); }
    off := CheckParties(self, e, id, journal, off.value);
    if off.Err? { return Fail(off.error); }
    off := CheckTerms(e, journal, off.value);
    if off.Err? { return Fail(off.error); }
    if off.value != |journal| { return Fail(MalformedJournal); }
    return Pass;
  }
}
