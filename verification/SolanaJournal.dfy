/** The journal the Solana program rebuilds from its own account, and the call data it sends to
    the verifier router. */
module SolanaJournal {
  import opened Bytes
  import opened Conditions
  import opened Journal
  import opened EvmJournal

  type Pubkey = Digest

  datatype EscrowAccount = EscrowAccount(
    sender: Pubkey,
    recipient: Pubkey,
    amount: nat,
    id: U64,
    finishAfter: Option<nat>,
    cancelAfter: Option<nat>,
    condition: Digest)

  // ---------------------------------------------------------------- the reconstructed journal

  /** The success journal of a native-coin escrow, put together field by field. */
  function ReconstructJournal(programId: Pubkey, e: EscrowAccount): Bytes {
    [1, 1, 1, 2]
    + [0, 32] + programId
    + ToBE(e.id, 8)
    + [0, 32] + e.sender
    + [0, 32] + e.recipient
    + [0]
    + [0, 0]
    + (Zeros(24) + ToBE(e.amount, 8))
    + e.condition
  }

  function SolanaCommitment(programId: Pubkey, e: EscrowAccount): PublicCommitment {
    PublicCommitment(Solana, programId, e.id, e.sender, e.recipient, Native, [], e.amount, e.condition,
                     Success(ConditionsMet))
  }

  lemma KeyPrefix(key: Pubkey)
    ensures LengthPrefixed(key) == Ok([0, 32] + key)
  {
    ToBEZero(1);
    assert Zeros(1) == [0];
    assert ToBE(32, 2) == ToBE(0, 1) + [32] == [0, 32];
  }

  lemma HeaderBytes(programId: Pubkey, e: EscrowAccount)
    ensures EncodeHeader(SolanaCommitment(programId, e), []) == [1, 1, 1, 2]
  {
  }

  lemma PartyBytes(programId: Pubkey, e: EscrowAccount)
    ensures EncodeParties(SolanaCommitment(programId, e), []) ==
            Ok([0, 32] + programId + ToBE(e.id, 8) + [0, 32] + e.sender + [0, 32] + e.recipient)
  {
    KeyPrefix(programId);
    KeyPrefix(e.sender);
    KeyPrefix(e.recipient);
    var agent, sender, recipient := [0, 32] + programId, [0, 32] + e.sender, [0, 32] + e.recipient;
    var id := ToBE(e.id, 8);
    assert agent + (id + (sender + (recipient + []))) == agent + id + sender + recipient;
    assert agent + id + sender + recipient ==
           [0, 32] + programId + id + [0, 32] + e.sender + [0, 32] + e.recipient;
  }

  lemma EmptyPrefix()
    ensures LengthPrefixed([]) == Ok([0, 0])
  {
    ToBEZero(2);
    assert Zeros(2) + [] == [0, 0];
  }

  lemma AmountField(amount: nat)
    requires amount < TWO_64
    ensures AmountBytes(amount) == Ok(Zeros(24) + ToBE(amount, 8))
  {
    Pow256Constants();
    ToBEPad(amount, 24, 8);
  }

  lemma Assoc(x: Bytes, y: Bytes, z: Bytes)
    ensures x + (y + z) == x + y + z
  {
  }

  lemma AppendTerms(x: Bytes, a: Bytes, b: Bytes, c: Bytes, d: Bytes)
    ensures x + (a + b + c + d) == x + a + b + c + d
  {
    Assoc(x, a + b + c, d);
    Assoc(x, a + b, c);
    Assoc(x, a, b);
  }

  lemma TermBytes(programId: Pubkey, e: EscrowAccount)
    requires e.amount < TWO_64
    ensures EncodeTerms(SolanaCommitment(programId, e), []) ==
            Ok([0] + [0, 0] + (Zeros(24) + ToBE(e.amount, 8)) + e.condition)
  {
    hide LengthPrefixed, AmountBytes, ToBE;
    EmptyPrefix();
    AmountField(e.amount);
    var amount := Zeros(24) + ToBE(e.amount, 8);
    assert e.condition + [] == e.condition;
    assert EncodeTerms(SolanaCommitment(programId, e), []) == Ok([0] + ([0, 0] + (amount + e.condition)));
    Assoc([0, 0], amount, e.condition);
    Assoc([0], [0, 0] + amount, e.condition);
    Assoc([0], [0, 0], amount);
  }

  lemma AppendChain(x: Bytes, a: Bytes, b: Bytes, c: Bytes, d: Bytes, e: Bytes, f: Bytes, g: Bytes)
    ensures x + (a + b + c + d + e + f + g) == x + a + b + c + d + e + f + g
  {
    Assoc(x, a + b + c + d + e + f, g);
    Assoc(x, a + b + c + d + e, f);
    Assoc(x, a + b + c + d, e);
    AppendTerms(x, a, b, c, d);
  }

  /** Parity with the guest's encoder, for every account whose amount is a `u64`. */
  lemma JournalParity(programId: Pubkey, e: EscrowAccount)
    requires e.amount < TWO_64
    ensures Encode(SolanaCommitment(programId, e)) == Ok(ReconstructJournal(programId, e))
  {
    var c := SolanaCommitment(programId, e);
    HeaderBytes(programId, e);
    PartyBytes(programId, e);
    TermBytes(programId, e);
    PartsJoin(c);
    AppendChain([1, 1, 1, 2], [0, 32], programId, ToBE(e.id, 8), [0, 32], e.sender, [0, 32], e.recipient);
    var parties := EncodeParties(c, []).value;
    AppendTerms([1, 1, 1, 2] + parties, [0], [0, 0], Zeros(24) + ToBE(e.amount, 8), e.condition);
  }

  /** The reconstructed journal determines every field it was built from. */
  lemma JournalInjective(programId: Pubkey, e: EscrowAccount, programId': Pubkey, e': EscrowAccount)
    requires e.amount < TWO_64 && e'.amount < TWO_64
    requires ReconstructJournal(programId, e) == ReconstructJournal(programId', e')
    ensures programId == programId' && e.sender == e'.sender && e.recipient == e'.recipient
    ensures e.amount == e'.amount && e.id == e'.id && e.condition == e'.condition
  {
    JournalParity(programId, e);
    JournalParity(programId', e');
    EncodeInjective(SolanaCommitment(programId, e), SolanaCommitment(programId', e'));
  }

  /** No Solana journal releases anything on Ethereum. */
  lemma NeverAcceptedByEvm(programId: Pubkey, e: EscrowAccount, self: Address, db: EscrowDB, id: nat)
    requires e.amount < TWO_64
    ensures CheckBinding(self, db, id, ReconstructJournal(programId, e)).Fail?
  {
    var journal := ReconstructJournal(programId, e);
    ParserRefinesEncoder(self, db, id, journal);
    JournalParity(programId, e);
    if CheckBinding(self, db, id, journal).Pass? {
      EncodeInjective(SolanaCommitment(programId, e), BoundCommitment(self, db, id));
    }
  }

  // ---------------------------------------------------------------- the router call

  /** The router instruction's data: discriminator, the caller's seal bytes, the pinned image
      id, the journal digest. Nothing checks the seal bytes here. */
  function CpiData(h: HashFn, seal: Bytes, imageId: Digest, digest: Digest): Bytes {
    h(Ascii("global:verify"))[..8] + seal + imageId + digest
  }

  /** The client's framing of a seal; a length of 2^32 or more is refused. */
  function RouterSeal(seal: Bytes): Option<Bytes> {
    if |seal| < TWO_32 then Some(ToLE(|seal|, 4) + seal) else None
  }

  datatype VerifyArgs = VerifyArgs(seal: Bytes, imageId: Digest, digest: Digest)

  /** Borsh decoding of the router's three arguments behind an eight-byte discriminator, and the
      bytes it leaves unread. */
  function BorshRead(data: Bytes): Option<Cursor<VerifyArgs>> {
    if |data| < 12 then None
    else
      var len, body := FromLE(data[8..12]), data[12..];
      if |body| < len + 64 then None
      else Some(Cursor(VerifyArgs(body[..len], body[len..len + 32], body[len + 32..len + 64]), body[len + 64..]))
  }

  /** The same, accepting only when every byte is used. */
  function BorshVerifyArgs(data: Bytes): Option<VerifyArgs> {
    match BorshRead(data)
    case Some(c) => if c.rest == [] then Some(c.value) else None
    case None => None
  }

  /** The seal bytes are a length prefix and at least as many bytes as it announces. */
  predicate Announces(seal: Bytes) {
    |seal| >= 4 && 4 + FromLE(seal[..4]) <= |seal|
  }

  /** The seal bytes are a length prefix and exactly as many bytes as it announces. */
  predicate Framed(seal: Bytes) {
    |seal| >= 4 && |seal| == 4 + FromLE(seal[..4])
  }

  lemma SplitAt(x: Bytes, y: Bytes, i: nat)
    requires i == |x|
    ensures (x + y)[..i] == x && (x + y)[i..] == y
  {
  }

  lemma BorshReadSplit(data: Bytes, front: Bytes, len: Bytes, payload: Bytes, tail: Bytes)
    requires |front| == 8 && |len| == 4 && |payload| == FromLE(len)
    requires data == front + (len + (payload + tail))
    ensures if |tail| < 64 then BorshRead(data) == None
            else BorshRead(data) == Some(Cursor(VerifyArgs(payload, tail[..32], tail[32..64]), tail[64..]))
  {
    var body := payload + tail;
    assert data[8..12] == len;
    assert data[12..] == body;
    SplitAt(payload, tail, |payload|);
    if |tail| >= 64 {
      var n := |payload|;
      assert body[n..n + 32] == tail[..32];
      assert body[n + 32..n + 64] == tail[32..64];
      assert body[n + 64..] == tail[64..];
    }
  }

  /** What follows the announced part of the seal bytes in the call data. */
  function AfterSeal(seal: Bytes, imageId: Digest, digest: Digest): (r: Bytes)
    requires Announces(seal)
    ensures |r| >= 64
  {
    seal[4 + FromLE(seal[..4])..] + (imageId + digest)
  }

  lemma CallReads(h: HashFn, seal: Bytes, imageId: Digest, digest: Digest)
    requires Announces(seal)
    ensures var tail := AfterSeal(seal, imageId, digest);
            BorshRead(CpiData(h, seal, imageId, digest)) ==
            Some(Cursor(VerifyArgs(seal[4..4 + FromLE(seal[..4])], tail[..32], tail[32..64]), tail[64..]))
  {
    hide BorshRead, FromLE;
    var front, len, words := h(Ascii("global:verify"))[..8], seal[..4], imageId + digest;
    var n := FromLE(len);
    var payload, extra := seal[4..4 + n], seal[4 + n..];
    assert seal == len + (payload + extra);
    var data := CpiData(h, seal, imageId, digest);
    assert data == front + seal + words;
    assert data == front + (len + (payload + (extra + words)));
    BorshReadSplit(data, front, len, payload, extra + words);
  }

  lemma CallTooShort(h: HashFn, seal: Bytes, imageId: Digest, digest: Digest)
    requires !Announces(seal)
    ensures BorshRead(CpiData(h, seal, imageId, digest)) == None
  {
    var data := CpiData(h, seal, imageId, digest);
    if |seal| >= 4 {
      var front, rest := h(Ascii("global:verify"))[..8], seal[4..] + imageId + digest;
      assert data == front + (seal[..4] + rest);
      assert data[8..12] == seal[..4];
    }
  }

  /** Which seal bytes the router can read at all, which ones use up the call data, and that
      then, whatever the caller put there, the call asks about the pinned image and the program's
      own digest. */
  lemma RouterCallPinned(h: HashFn, callerSeal: Bytes, imageId: Digest, digest: Digest)
    ensures var data := CpiData(h, callerSeal, imageId, digest);
            && (BorshRead(data).Some? <==> Announces(callerSeal))
            && (BorshVerifyArgs(data).Some? <==> Framed(callerSeal))
            && (Framed(callerSeal) ==>
                  && BorshVerifyArgs(data) == Some(VerifyArgs(callerSeal[4..], imageId, digest))
                  && callerSeal == ToLE(|callerSeal[4..]|, 4) + callerSeal[4..])
  {
    hide BorshRead, FromLE, CpiData;
    if Announces(callerSeal) {
      CallReads(h, callerSeal, imageId, digest);
      if Framed(callerSeal) {
        assert callerSeal[|callerSeal|..] == [];
        var words := imageId + digest;
        assert AfterSeal(callerSeal, imageId, digest) == words;
        assert words[..32] == imageId && words[32..64] == digest && words[64..] == [];
        assert callerSeal[4..|callerSeal|] == callerSeal[4..];
        ToFromLE(callerSeal[..4]);
        assert callerSeal == callerSeal[..4] + callerSeal[4..];
      }
    } else {
      CallTooShort(h, callerSeal, imageId, digest);
    }
  }

  /** Exactly framed seal bytes are the ones the client produces. */
  lemma FramedIffFromClient(bytes: Bytes)
    ensures Framed(bytes) <==> exists seal: Bytes :: RouterSeal(seal) == Some(bytes)
  {
    Pow256Constants();
    if Framed(bytes) {
      FromLEBound(bytes[..4]);
      ToFromLE(bytes[..4]);
      assert RouterSeal(bytes[4..]) == Some(bytes[..4] + bytes[4..]);
      assert bytes == bytes[..4] + bytes[4..];
    }
    if seal: Bytes :| RouterSeal(seal) == Some(bytes) {
      FromToLE(|seal|, 4);
      SplitAt(ToLE(|seal|, 4), seal, 4);
    }
  }

  /** Framed by the client, the call carries exactly the seal, the pinned image and the digest. */
  lemma RouterCallRoundTrip(h: HashFn, seal: Bytes, imageId: Digest, digest: Digest)
    requires |seal| < TWO_32
    ensures BorshVerifyArgs(CpiData(h, RouterSeal(seal).value, imageId, digest)) ==
            Some(VerifyArgs(seal, imageId, digest))
    ensures CpiData(h, RouterSeal(seal).value, imageId, digest)[..8] == h(Ascii("global:verify"))[..8]
  {
    hide BorshVerifyArgs, FromLE, ToLE;
    var bytes := RouterSeal(seal).value;
    FramedIffFromClient(bytes);
    RouterCallPinned(h, bytes, imageId, digest);
    SplitAt(ToLE(|seal|, 4), seal, 4);
  }

  /** The call, as the router reads it, is about the pinned image and the program's digest. */
  predicate Pinned(h: HashFn, seal: Bytes, imageId: Digest, digest: Digest) {
    var call := BorshRead(CpiData(h, seal, imageId, digest));
    call.Some? && call.value.value.imageId == imageId && call.value.value.digest == digest
  }

  /** The splicing pins both words, whatever they are, exactly for framed seal bytes. */
  lemma PinnedIffFramed(h: HashFn, seal: Bytes)
    ensures (forall imageId: Digest, digest: Digest :: Pinned(h, seal, imageId, digest)) <==> Framed(seal)
  {
    hide BorshRead, FromLE, CpiData;
    if Framed(seal) {
      forall imageId: Digest, digest: Digest ensures Pinned(h, seal, imageId, digest) {
        RouterCallPinned(h, seal, imageId, digest);
      }
    } else if Announces(seal) {
      var other: Digest := OtherWord(seal[4 + FromLE(seal[..4])]);
      CallReads(h, seal, other, ZERO_WORD);
      assert AfterSeal(seal, other, ZERO_WORD)[..32][0] != other[0];
      assert !Pinned(h, seal, other, ZERO_WORD);
    } else {
      RouterCallPinned(h, seal, ZERO_WORD, ZERO_WORD);
      assert !Pinned(h, seal, ZERO_WORD, ZERO_WORD);
    }
  }

  /** A word that does not start with `b`. */
  function OtherWord(b: byte): (w: Digest)
    ensures w[0] != b
  {
    seq(32, _ => (b + 1) % 256)
  }

  /** Seal bytes that go on for two more words after the announced part are read with those two
      words in place of the pinned image and the program's digest. */
  lemma OverlongSealReads(h: HashFn, seal: Bytes, image: Digest, word: Digest, imageId: Digest, digest: Digest)
    requires |seal| < TWO_32
    ensures BorshRead(CpiData(h, RouterSeal(seal).value + (image + word), imageId, digest)) ==
            Some(Cursor(VerifyArgs(seal, image, word), imageId + digest))
  {
    hide BorshRead, FromLE, CpiData, ToLE;
    var len := ToLE(|seal|, 4);
    var bytes := RouterSeal(seal).value + (image + word);
    Pow256Constants();
    FromToLE(|seal|, 4);
    assert bytes == len + (seal + (image + word));
    assert bytes[..4] == len;
    var n := |seal|;
    assert bytes[4..4 + n] == seal;
    assert bytes[4 + n..] == image + word;
    CallReads(h, bytes, imageId, digest);
    var tail := AfterSeal(bytes, imageId, digest);
    assert tail == (image + word) + (imageId + digest);
    SplitAt(image + word, imageId + digest, 64);
    assert tail[..32] == image && tail[32..64] == word;
  }
}
