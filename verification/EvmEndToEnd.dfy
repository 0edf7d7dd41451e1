/** From the guest to the Ethereum contract and back: what a release proves, and which releases an
    honest prover obtains. */
module EvmEndToEnd {
  import opened Bytes
  import opened Conditions
  import opened Guest
  import opened EvmJournal
  import opened Settlement
  import opened EvmEscrow
  import opened EvmRuns

  /** The contract accepts the journal a guest commits exactly when the guest was given this
      very escrow and found it releasable. */
  lemma GuestJournalAcceptedIff(self: Address, p: Prover, input: ProofInput, id: nat, e: EscrowDB)
    requires GuestJournal(p, input).Some?
    ensures CheckBinding(self, e, id, GuestJournal(p, input).value).Pass? <==>
            id < TWO_64 && e.amount < TWO_256 && Backs(p, input, BoundCommitment(self, e, id))
  {
    ParserRefinesEncoder(self, e, id, GuestJournal(p, input).value);
    if id < TWO_64 && e.amount < TWO_256 {
      GuestJournalIsIff(p, input, BoundCommitment(self, e, id));
    }
  }

  /** Prover completeness: an honest prover who holds a satisfied condition for a stored escrow
      always gets a journal, and the contract's parser accepts it. */
  lemma ProverCompleteness(self: Address, p: Prover, input: ProofInput, id: nat, e: EscrowDB)
    requires id < TWO_64 && e.amount < TWO_256
    requires Backs(p, input, BoundCommitment(self, e, id))
    ensures GuestJournal(p, input).Some?
    ensures CheckBinding(self, e, id, GuestJournal(p, input).value).Pass?
  {
    GuestJournalIsIff(p, input, BoundCommitment(self, e, id));
    GuestJournalAcceptedIff(self, p, input, id, e);
  }

  /** Completeness of the proof system in a given block, as a hypothesis: what a guest run committed
      can be proved. */
  ghost predicate ProvesGuestJournals(d: Deployment, p: Prover, at: nat) {
    forall digest | GuestDigest(p, digest) :: exists seal: Bytes :: d.verifies(at, seal, d.imageId, digest)
  }

  /** So a recipient who holds a satisfied condition for a conditioned escrow can always be paid:
      once the finish block is reached, some seal and the guest's journal settle it. */
  lemma HonestReleaseSucceeds(d: Deployment, p: Prover, s: Contract, id: nat, input: ProofInput, payee: Payee)
    returns (seal: Bytes)
    requires d.sha256 == p.crypto.sha256 && ProvesGuestJournals(d, p, s.block)
    requires Reachable(d, s) && id in LiveOf(s.escrows) && id < TWO_64
    requires var deal := LiveOf(s.escrows)[id];
             && FinishOpen(deal, s.block)
             && Backs(p, input, BoundCommitment(d.self, EscrowOf(deal), id))
    ensures GuestJournal(p, input).Some? && LiveOf(s.escrows)[id].recipient != 0
    ensures var deal, journal := LiveOf(s.escrows)[id], GuestJournal(p, input).value;
            Exec(d, s, Finish(deal.recipient, id, seal, journal, payee)).error.None? <==> payee.accepts
  {
    hide Exec, Replay, CheckBinding, GuestJournal, Backs;
    ReachableSafe(d, s);
    var deal := LiveOf(s.escrows)[id];
    ProverCompleteness(d.self, p, input, id, EscrowOf(deal));
    var journal := GuestJournal(p, input).value;
    assert GuestDigest(p, d.sha256(journal));
    seal :| d.verifies(s.block, seal, d.imageId, d.sha256(journal));
    FinishSucceedsIff(d, s, deal.recipient, id, seal, journal, payee);
  }

  /** Soundness of the proof system, as a hypothesis: a seal verifies against the pinned image
      only for the digest of a journal some guest run committed. */
  ghost predicate OnlyGuestJournals(d: Deployment, p: Prover) {
    forall at, seal, digest | d.verifies(at, seal, d.imageId, digest) :: GuestDigest(p, digest)
  }

  /** End to end: every release of a conditioned escrow, in every run, is backed by a guest run
      over an escrow with the same terms whose condition is present, satisfied and committed to
      by the stored id; or the two journals are distinct with one digest. */
  lemma EndToEnd(d: Deployment, p: Prover, s: Contract, i: nat)
    returns (j: nat, input: ProofInput)
    requires d.sha256 == p.crypto.sha256 && OnlyGuestJournals(d, p)
    requires Reachable(d, s) && ReleasedByProof(s.history, i)
    ensures j < i && s.history[j].Opened? && s.history[j].key == s.history[i].key
    ensures GuestJournal(p, input).Some?
    ensures var deal, id := s.history[j].deal, s.history[i].key;
            || Collision(d.sha256, s.history[i].journal, GuestJournal(p, input).value)
            || (&& id < TWO_64 && Backs(p, input, BoundCommitment(d.self, EscrowOf(deal), id))
                && input.escrow.condition.Some?
                && Satisfied(p.crypto, input.escrow.condition.value)
                && Commitment(d.sha256, input.escrow.condition.value) == deal.condition)
  {
    j := ProofReleaseBinds(d, s, i);
    var r := s.history[i];
    assert GuestDigest(p, d.sha256(r.journal));
    input :| GuestJournal(p, input).Some? && p.crypto.sha256(GuestJournal(p, input).value) == d.sha256(r.journal);
    if GuestJournal(p, input).value == r.journal {
      GuestJournalAcceptedIff(d.self, p, input, r.key, EscrowOf(s.history[j].deal));
    }
  }

  /** The same, against the condition the depositor had in mind: what was satisfied is bound to
      the depositor's own condition tree, or a collision is in hand. */
  lemma ReleasedOnTheAgreedCondition(d: Deployment, p: Prover, s: Contract, i: nat, agreed: Condition)
    returns (j: nat, input: ProofInput, x: Bytes, y: Bytes)
    requires d.sha256 == p.crypto.sha256 && OnlyGuestJournals(d, p)
    requires Reachable(d, s) && ReleasedByProof(s.history, i)
    requires forall m | 0 <= m < i && s.history[m].Opened? && s.history[m].key == s.history[i].key ::
               s.history[m].deal.condition == Commitment(d.sha256, agreed)
    ensures j < i && s.history[j].Opened? && s.history[j].key == s.history[i].key
    ensures || Collision(d.sha256, x, y)
            || (&& input.escrow.condition.Some?
                && Satisfied(p.crypto, input.escrow.condition.value)
                && Bound(input.escrow.condition.value) == Bound(agreed))
  {
    j, input := EndToEnd(d, p, s, i);
    x, y := s.history[i].journal, GuestJournal(p, input).value;
    if !Collision(d.sha256, x, y) {
      var c := input.escrow.condition.value;
      CommitmentBinds(d.sha256, c, agreed);
      var found := FindCollision(d.sha256, c, agreed);
      if found.Some? {
        x, y := found.value.0, found.value.1;
      }
    }
  }
}
