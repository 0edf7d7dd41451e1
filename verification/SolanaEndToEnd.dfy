/** From the guest to the Solana program and back: what a release proves, when it proves nothing, and
    which releases an honest prover obtains. */
module SolanaEndToEnd {
  import opened Bytes
  import opened Conditions
  import opened Journal
  import opened Guest
  import opened Settlement
  import opened SolanaJournal
  import opened SolanaEscrow
  import opened SolanaRuns

  /** Soundness of the router, as a hypothesis on the three arguments it reads: call data that
      reads as being about the pinned image is accepted only with the digest of a journal some
      guest run committed. Nothing is asked about bytes left unread. */
  ghost predicate RouterSound(p: Program, prover: Prover) {
    forall slot, accounts, data | p.router(slot, accounts, data) && BorshRead(data).Some? ::
      var args := BorshRead(data).value.value;
      args.imageId == p.imageId ==> GuestDigest(prover, args.digest)
  }

  /** A guest run over this very escrow found its condition present, satisfied and committed to by
      the stored word; or its journal and the recorded one collide. */
  ghost predicate Backed(p: Program, prover: Prover, key: Key, deal: Deal<Pubkey>, journal: Bytes, input: ProofInput) {
    && GuestJournal(prover, input).Some?
    && (|| Collision(p.sha256, journal, GuestJournal(prover, input).value)
        || (&& Backs(prover, input, SolanaCommitment(p.programId, AccountOf(key, deal)))
            && input.escrow.condition.Some?
            && Satisfied(prover.crypto, input.escrow.condition.value)
            && Commitment(p.sha256, input.escrow.condition.value) == deal.condition))
  }

  /** Any input at all, for when there is nothing to show. */
  function NoInput(): ProofInput {
    ProofInput(Escrow(Asset(Native, None, 0, None), Raw([]), Raw([]), None, Initialized), Solana, Raw([]), 0)
  }

  /** End to end: every proof release, in every run, whose call was about the pinned image and the
      program's digest is backed by a guest run, or by a collision; and its call was, whenever the
      seal bytes it recorded are exactly framed. */
  lemma EndToEnd(p: Program, prover: Prover, l: Ledger, j: nat, i: nat) returns (input: ProofInput)
    requires p.sha256 == prover.crypto.sha256 && RouterSound(p, prover)
    requires Reachable(p, l) && ReleasedByProof(l.history, j, i)
    ensures var r := l.history[i];
            && (Framed(r.seal) ==> Pinned(p.sha256, r.seal, p.imageId, p.sha256(r.journal)))
            && (Pinned(p.sha256, r.seal, p.imageId, p.sha256(r.journal)) ==>
                  Backed(p, prover, r.key, l.history[j].deal, r.journal, input))
  {
    hide BorshRead, CpiData, Encode, GuestJournal, Backs, ReconstructJournal;
    ProofReleaseBinds(p, l, j, i);
    var r, e := l.history[i], AccountOf(l.history[i].key, l.history[j].deal);
    var digest := p.sha256(r.journal);
    RouterCallPinned(p.sha256, r.seal, p.imageId, digest);
    if Pinned(p.sha256, r.seal, p.imageId, digest) {
      var accounts: seq<AccountMeta> :| ProofAccepted(p, r.at, e, accounts, r.seal);
      assert p.router(r.at, accounts, CpiData(p.sha256, r.seal, p.imageId, digest));
      assert GuestDigest(prover, digest);
      input :| GuestJournal(prover, input).Some? && prover.crypto.sha256(GuestJournal(prover, input).value) == digest;
      JournalParity(p.programId, e);
      GuestJournalIsIff(prover, input, SolanaCommitment(p.programId, e));
      BackedOrCollides(p, prover, r.key, l.history[j].deal, r.journal, input);
    } else {
      input := NoInput();
    }
  }

  lemma BackedOrCollides(p: Program, prover: Prover, key: Key, deal: Deal<Pubkey>, journal: Bytes, input: ProofInput)
    requires p.sha256 == prover.crypto.sha256 && deal.Conditioned() && GuestJournal(prover, input).Some?
    requires p.sha256(GuestJournal(prover, input).value) == p.sha256(journal)
    requires GuestJournal(prover, input).value == journal ==>
               Backs(prover, input, SolanaCommitment(p.programId, AccountOf(key, deal)))
    ensures Backed(p, prover, key, deal, journal, input)
  {
    hide GuestJournal;
  }

  /** A router that also rejects call data with bytes left over. */
  ghost predicate ReadsInFull(p: Program) {
    forall slot, accounts, data | p.router(slot, accounts, data) :: BorshVerifyArgs(data).Some?
  }

  /** Behind such a router every proof release is backed, whatever seal bytes the caller sent. */
  lemma EndToEndReadInFull(p: Program, prover: Prover, l: Ledger, j: nat, i: nat) returns (input: ProofInput)
    requires p.sha256 == prover.crypto.sha256 && RouterSound(p, prover) && ReadsInFull(p)
    requires Reachable(p, l) && ReleasedByProof(l.history, j, i)
    ensures Backed(p, prover, l.history[i].key, l.history[j].deal, l.history[i].journal, input)
  {
    hide BorshVerifyArgs, CpiData, GuestJournal, Backed, ReconstructJournal;
    input := EndToEnd(p, prover, l, j, i);
    ProofReleaseBinds(p, l, j, i);
    var r, e := l.history[i], AccountOf(l.history[i].key, l.history[j].deal);
    var accounts: seq<AccountMeta> :| ProofAccepted(p, r.at, e, accounts, r.seal);
    RouterCallPinned(p.sha256, r.seal, p.imageId, p.sha256(r.journal));
  }

  /** The same against the condition the depositor had in mind: what was satisfied is bound to the
      depositor's own condition tree, or a collision is in hand. */
  lemma ReleasedOnTheAgreedCondition(p: Program, prover: Prover, l: Ledger, j: nat, i: nat, agreed: Condition)
    returns (input: ProofInput, x: Bytes, y: Bytes)
    requires p.sha256 == prover.crypto.sha256 && RouterSound(p, prover)
    requires Reachable(p, l) && ReleasedByProof(l.history, j, i) && Framed(l.history[i].seal)
    requires l.history[j].deal.condition == Commitment(p.sha256, agreed)
    ensures || Collision(p.sha256, x, y)
            || (&& input.escrow.condition.Some?
                && Satisfied(prover.crypto, input.escrow.condition.value)
                && Bound(input.escrow.condition.value) == Bound(agreed))
  {
    hide GuestJournal, Backs, Satisfied, Framed, Pinned;
    input := EndToEnd(p, prover, l, j, i);
    x, y := l.history[i].journal, GuestJournal(prover, input).value;
    if !Collision(p.sha256, x, y) {
      var c := input.escrow.condition.value;
      CommitmentBinds(p.sha256, c, agreed);
      var found := FindCollision(p.sha256, c, agreed);
      if found.Some? {
        x, y := found.value.0, found.value.1;
      }
    }
  }

  // ---------------------------------------------------------------- honest releases succeed

  /** Prover completeness: an honest prover who holds a satisfied condition for an account always
      gets exactly the journal the program rebuilds for it. */
  lemma ProverCompleteness(programId: Pubkey, prover: Prover, input: ProofInput, e: EscrowAccount)
    requires e.amount < TWO_64
    ensures GuestJournal(prover, input) == Some(ReconstructJournal(programId, e)) <==>
            Backs(prover, input, SolanaCommitment(programId, e))
  {
    hide GuestJournal, Backs, ReconstructJournal, Encode;
    JournalParity(programId, e);
    GuestJournalIsIff(prover, input, SolanaCommitment(programId, e));
  }

  /** Completeness of the router in a given slot, as a hypothesis: for what a guest run committed there is a seal
      and a list of accounts it accepts, the seal framed by the client. */
  ghost predicate RouterComplete(p: Program, prover: Prover, slot: nat) {
    forall digest | GuestDigest(prover, digest) ::
      exists seal: Bytes, accounts: seq<AccountMeta> ::
        |seal| < TWO_32 && p.router(slot, accounts, CpiData(p.sha256, RouterSeal(seal).value, p.imageId, digest))
  }

  /** So a recipient who holds a satisfied condition for an open escrow can always be paid once the
      finish slot is reached, with a client-framed seal. */
  lemma HonestReleaseSucceeds(p: Program, prover: Prover, l: Ledger, key: Key, input: ProofInput)
    returns (seal: Bytes, accounts: seq<AccountMeta>)
    requires p.sha256 == prover.crypto.sha256 && RouterComplete(p, prover, l.slot)
    requires Reachable(p, l) && TotalLamports(l) < TWO_64 && key in l.accounts
    requires FinishOpen(DealOf(l.accounts[key]), l.slot)
    requires Backs(prover, input, SolanaCommitment(p.programId, l.accounts[key]))
    ensures |seal| < TWO_32
    ensures Exec(p, l, Finish(key.recipient, key, accounts, RouterSeal(seal).value)).Ok?
  {
    hide Exec, GuestJournal, Backs, ReconstructJournal, CpiData, TotalLamports, Replay;
    ReachableSafe(p, l);
    var e := l.accounts[key];
    ProverCompleteness(p.programId, prover, input, e);
    var digest := p.sha256(ReconstructJournal(p.programId, e));
    assert GuestDigest(prover, digest);
    seal, accounts :|
      |seal| < TWO_32 && p.router(l.slot, accounts, CpiData(p.sha256, RouterSeal(seal).value, p.imageId, digest));
    FinishSucceedsIff(p, l, key.recipient, key, accounts, RouterSeal(seal).value);
  }

  // ---------------------------------------------------------------- framing is needed

  /** A hash function that tells one byte string from all others. */
  function Marking(x: Bytes, word: Digest): HashFn {
    (y: Bytes) => if y == x then word else ZERO_WORD
  }

  /** Under such a function nothing commits to a third word and nothing collides with `journal`. */
  lemma NothingBacks(p: Program, prover: Prover, key: Key, deal: Deal<Pubkey>, journal: Bytes, input: ProofInput,
                     word: Digest)
    requires p.sha256 == Marking(journal, word) && prover.crypto.sha256 == p.sha256
    requires word != ZERO_WORD && deal.condition != ZERO_WORD && deal.condition != word
    ensures !Backed(p, prover, key, deal, journal, input)
  {
    hide GuestJournal, Backs, Satisfied;
  }

  /** Behind a router that leaves bytes unread and accepts no call about the pinned image, a release
      of the one open escrow still passes, on seal bytes that name another image. */
  lemma OverlongSealAccepted(p: Program, slot: nat, e: EscrowAccount, image: Digest)
    requires p.router == ((slot: nat, accounts: seq<AccountMeta>, data: Bytes) =>
                            BorshRead(data).Some? && BorshRead(data).value.value.imageId == image)
    ensures var seal := RouterSeal([]).value + (image + image); ProofAccepted(p, slot, e, [], seal) && !Framed(seal)
  {
    hide BorshRead, ReconstructJournal, CpiData;
    var digest := p.sha256(ReconstructJournal(p.programId, e));
    OverlongSealReads(p.sha256, [], image, image, p.imageId, digest);
    var seal := RouterSeal([]).value + (image + image);
    assert seal[..4] == ToLE(0, 4);
    Pow256Constants();
    FromToLE(0, 4);
  }

  /** Without framing the end-to-end result fails: behind a sound router that leaves bytes unread
      there is a run, of one opening and one release, that no guest run and no collision backs,
      whoever the prover is. */
  lemma UnframedReleaseUnbacked() returns (p: Program, l: Ledger)
    ensures Reachable(p, l) && ReleasedByProof(l.history, 0, 1) && !Framed(l.history[1].seal)
    ensures forall prover: Prover | prover.crypto.sha256 == p.sha256 ::
              && RouterSound(p, prover)
              && forall input: ProofInput ::
                   !Backed(p, prover, l.history[1].key, l.history[0].deal, l.history[1].journal, input)
  {
    hide BorshRead, ReconstructJournal, Exec, Backed, ProofAccepted, TotalLamports, Reachable, Framed;
    var one, two := OtherWord(0), OtherWord(1);
    assert one[0] == 1 && two[0] == 2;
    var key := Key(ZERO_WORD, one, 0);
    var e := EscrowAccount(ZERO_WORD, one, 1, 0, None, Some(1), two);
    var journal := ReconstructJournal(ZERO_WORD, e);
    p := Program(ZERO_WORD, ZERO_WORD, 0, Marking(journal, one),
                 (slot: nat, accounts: seq<AccountMeta>, data: Bytes) =>
                   BorshRead(data).Some? && BorshRead(data).value.value.imageId == one);
    OverlongSealAccepted(p, 0, e, one);
    l := ReleaseFromNothing(p, key, 1, two, [], RouterSeal([]).value + (one + one), 0);
    forall prover: Prover, input: ProofInput | prover.crypto.sha256 == p.sha256
      ensures !Backed(p, prover, key, DealOf(e), journal, input)
    {
      NothingBacks(p, prover, key, DealOf(e), journal, input, one);
    }
  }
}
