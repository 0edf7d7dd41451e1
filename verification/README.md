# Zescrow settlement, verified

A Dafny model of the settlement protocol of Zescrow: release conditions and the commitment
an escrow stores for them, the journal a zero-knowledge guest commits, the Ethereum contract and
the Solana program that pay out against that journal, and the two small text functions the
configuration and the display rely on. `dafny verify dfyconfig.toml` checks everything.

## How it is laid out

- `Bytes.dfy`: byte strings, big- and little-endian integers, `Option`, `Result`, `Outcome`.
- `Conditions.dfy`: condition trees, what verification means, and what a commitment binds.
- `Journal.dfy`: the public commitment, its encoder and decoder, as functions and in the
  program's own form (a growing vector, a bounds-checked cursor).
- `JournalLayout.dfy`: the journal byte for byte, and the offset or tag a decoder complains about.
- `Guest.dfy`: identities, assets, `Escrow::execute`, and the guest from proof input to journal.
- `Settlement.dfy`: one abstract escrow machine. Its runs are histories of openings, releases and
  refunds; `Replay` says which histories are legal and which deals are open after them. The
  whole-run properties are proved here once, for any key and account types.
- `EvmJournal.dfy`: the contract's journal parser, with its loops and offsets.
- `EvmVerdict.dfy`: the parser's answer to every journal, error kinds included.
- `EvmEscrow.dfy`: the contract as a state machine over call trees. A payee's code is a list of
  calls of the same kind (create, finish, cancel, forced ether, frames that may roll back), nested
  to any depth. `Exec` gives the outcome of a call, `Points` every state passed on the way,
  including those inside frames that are rolled back in the end.
- `EvmContract.dfy`: the contract as a class whose entry points update storage in place.
- `EvmRuns.dfy`: runs of transactions: solvency, windows, what each call needs and does.
- `EvmRefusals.dfy`: what each error says about the contract's past.
- `EvmExits.dfy`: which escrows can always be settled, given which accounts can act.
- `EvmEndToEnd.dfy`: from the guest to the contract and back.
- `EvmTrace.dfy`: the contract one step at a time, on an explicit stack with saved states, and the
  proof that `Points` is exactly the trace of that machine.
- `SolanaJournal.dfy`, `SolanaEscrow.dfy`, `SolanaProgram.dfy`, `SolanaRuns.dfy`,
  `SolanaRefusals.dfy`, `SolanaExits.dfy`, `SolanaEndToEnd.dfy`: the same steps for Solana, with lamport balances, atomic transactions and
  account closing.
- `Networks.dfy`: one receipt on two networks of one kind.
- `Agents.dfy`: both agents under one set of client parameters.
- `Templates.dfy`, `Amounts.dfy`: `${NAME}` expansion and fixed-point printing.

Both agents keep the invariant `Replay(auth, history) == Some(open escrows)`: each run of either
agent, read as its own records, is a legal run of the abstract machine. That is the refinement, and
it is how "settled at most once", "in its window", "for the deposited amount" and "never stranded"
reach both chains from one proof.

SHA-256 is a function parameter with 32-byte results; nothing else is assumed of it. Results that
need collision resistance instead end in "or here are two distinct inputs with one digest", with the
inputs named. Signature checks, text decoders, the RISC Zero verifier and the Solana router are
predicate or function parameters; the verdict of the verifier and of the router may change from
block to block. Soundness of the proof system appears only as a stated hypothesis of the end-to-end
lemmas (`OnlyGuestJournals` and `RouterSound`, in `EndToEnd`, `EndToEndReadInFull` and
`ReleasedOnTheAgreedCondition`), and completeness only in those on honest releases
(`ProvesGuestJournals`, `RouterComplete`). Which accounts can act (hold a key, or run code that calls)
is a predicate parameter of the lemmas on exits.

## What turned out false, and when it holds

- That rebuilding the journal on chain binds the seal to this one escrow
  (`agent/solana/escrow/programs/escrow/src/lib.rs:194-195`) holds only if the caller's seal bytes are
  a length prefix and exactly as many bytes as it announces. The program never checks that
  (`agent/solana/escrow/programs/escrow/src/lib.rs:209-216`); the client always sends it so
  (`client/src/solana.rs:245-249`). `PinnedIffFramed`: both words are pinned, whatever they are, exactly
  for such seal bytes. `EndToEnd` holds for every release whose recorded seal is framed, and
  `EndToEndReadInFull` for every release if the router also rejects bytes left over, which nothing in
  the repository says; otherwise it fails, and `UnframedReleaseUnbacked` gives a run.
- "A valid receipt authorizes exactly one settlement" (`SECURITY.md:24`) is true only within one run
  of one Ethereum contract (`JournalSettlesOnce`). The journal names the kind of chain, the contract's
  address or the program's id, and the terms, but no network (`core/src/commitment.rs:114-132`):
  `JournalsAgreeIff`, on either chain, says exactly which releases, in any two runs of any two
  deployments, rest on one journal. `Networks.EvmReceiptFitsBoth` and `Networks.SolanaReceiptFitsBoth`:
  two networks with a contract at one address, or the program under one id, accept the same receipts for
  escrows with the same id, parties, amount and condition; `EvmReceiptSettlesTwice` and
  `SolanaReceiptSettlesTwice` give the pairs of runs. The program id is one for all clusters
  (`agent/solana/escrow/Anchor.toml:5-10`); the contract's address follows from the deployer and the
  count of its transactions (`agent/ethereum/script/Deploy.s.sol:22`).
- On Solana one ledger is enough: a closed key can be opened again. `SharedJournalIff` says that two
  releases rest on one journal exactly when key, amount and condition agree, always with an opening in
  between, and `SealReleasesAgain` gives the runs in which one seal releases twice.
- Not every escrow can be settled in the end. An unconditioned one with no cancel block never is if its
  recipient cannot act: on Ethereum only the zero recipient is refused
  (`agent/ethereum/src/Escrow.sol:99`), so it may be the contract itself or a precompile; on Solana only
  the sender is (`agent/solana/escrow/programs/escrow/src/lib.rs:313`), so it may be an address without a
  key. `StrandedEscrow` creates one and `ExitExistsIff`, on either chain, says that an open escrow can be
  settled by some run exactly when its recipient can act or it has a cancel block.
- A secp256k1 commitment does not bind the split between key and message
  (`core/src/condition.rs:117-121`); `KeyMessageSplitNotBound` gives two leaves. The split is bound
  exactly when the key lengths agree (`KeyMessageSplitBoundIff`), and for every tree whose keys follow
  sections 2.3.3 and 2.3.4 of SEC 1 v2.0 the commitment identifies the whole statement.
- Thresholds above `u32::MAX` are committed as `u32::MAX`; `ThresholdCapBoundIff` says exactly which
  are told apart.
- "The recipient always holds an exclusive release window"
  (`agent/solana/escrow/programs/escrow/src/lib.rs:56-60`) is true of block or slot numbers, not of
  blocks after creation: neither agent compares the locks with the current block when it creates.
  `WindowLeftIff`: some of the window is left at creation exactly when creation precedes the cancel
  block; in what is left of it, only the recipient can settle (`RecipientWindow` on both chains). The
  model follows the code.
- The two agents do not accept the same parameters when a lock is `Some(0)`, because the client sends
  an absent lock to Ethereum as zero (`client/src/ethereum.rs:160-161`). `CreationRulesAgreeIff`
  characterises the disagreement over all their inputs: only Solana refuses equal parties
  (`agent/solana/escrow/programs/escrow/src/lib.rs:313`) and amounts of 2^64 and more
  (`client/src/solana.rs:266-268`), and for the rest a zero lock is the only clash. Whatever both accept,
  they settle alike.
- A journal carries eight bytes of escrow id, so a conditioned Ethereum escrow with an id of 2^64 or
  more can never be released by proof. `ParserRefinesEncoder` has that bound as part of the equivalence.

## Model

| member | source | states |
|---|---|---|
| Conditions.VerifyMeansSatisfied | core/src/condition/threshold.rs:33-60 | verification succeeds if and only if, recursively, `0 < k <= n` and some set of exactly `k` distinct children holds |
| Conditions.ThresholdErrors | core/src/condition/threshold.rs:33-50 | which threshold error is returned, with the number of children that really pass |
| Conditions.CountIsCardinality | core/src/condition/threshold.rs:52-60 | the filtered count is the number of distinct passing positions |
| Conditions.VerifyMonotone | core/src/condition.rs:62-70 | replacing failing leaves by verifying ones anywhere never turns success into failure |
| Conditions.ComputeCommitment | core/src/condition.rs:105-133 | the streaming hasher with its recursion over children computes the commitment function |
| Conditions.LeafErrors | core/src/condition.rs:62-70 | a leaf that does not hold fails with the error of its kind |
| Conditions.LeafLayout | core/src/condition.rs:108-121 | a leaf's commitment is the digest of its literal domain tag, its hash or key, and its message |
| Conditions.ThresholdLayout | core/src/condition.rs:122-130 | a threshold's commitment is the digest of its literal domain tag, the capped required number and child count in four big-endian bytes each, and the children's commitments in their places |
| Conditions.FeedChildren | core/src/condition.rs:126-129 | the loop feeds the children's commitments in order |
| Conditions.SaturatingU32 | core/src/condition.rs:136-141 | counts are kept below 2^32 and changed only when above `u32::MAX` |
| Conditions.CommitmentBinds | core/src/condition.rs:103-133 | equal commitments of trees of any depth give equal bound parts, or the recursive search returns two preimages with one digest |
| Conditions.BoundDeterminesPreimage | core/src/condition.rs:105-133 | converse: nothing but the bound part enters the hash |
| Conditions.WitnessesDoNotMatter | core/src/condition.rs:103-133 | trees that differ only in preimages and signatures, anywhere, commit alike |
| Conditions.CommitmentIdentifiesStatement | core/src/condition.rs:103-133 | for SEC 1 keys and 32-bit thresholds: same commitment if and only if same public statement, or an explicit collision |
| Conditions.KeyMessageSplitNotBound | core/src/condition.rs:117-121 | two secp256k1 leaves with different statements and one commitment |
| Conditions.KeyMessageSplitBoundIff | core/src/condition.rs:117-121 | under one preimage the statements agree exactly when the key lengths do |
| Conditions.ThresholdCapBoundIff | core/src/condition.rs:122-126 | two thresholds over the same children hash alike exactly when equal after the cap |
| Journal.EncodeFailsIff | core/src/commitment.rs:105-135 | encoding fails exactly on a field over 65535 bytes or an amount of 2^256 or more; the first over-long field in journal order is the one reported, and the amount only when all fields fit |
| Journal.DecodeEncode | core/src/commitment.rs:112-182 | decoding an encoded commitment gives it back |
| Journal.EncodeDecode | core/src/commitment.rs:143-182 | whatever decodes re-encodes to the same bytes |
| Journal.CodecBijection | core/src/commitment.rs:112-182 | bytes decode to a commitment if and only if it encodes to them |
| Journal.EncodeInjective | core/src/commitment.rs:112-135 | one journal belongs to one commitment |
| Journal.JournalsPrefixFree | core/src/commitment.rs:309-313 | a valid journal followed by anything is rejected, at the offset where it ended |
| Journal.ToJournalBytes | core/src/commitment.rs:112-135 | pushing field after field produces the encoding or its first error |
| Journal.FromJournalBytes | core/src/commitment.rs:143-182 | the cursor-based parser computes the decoder, errors and offsets included |
| Journal.ReadOutcome | core/src/commitment.rs:152-156 | the one- or two-byte outcome field is read as specified |
| Journal.ByteVec.PushBytes | core/src/commitment.rs:213-218 | appends a two-byte length and the field, or refuses and leaves the vector alone |
| Journal.AmountBeBytes | core/src/commitment.rs:202-210 | the minimal form, right-aligned in a zeroed buffer, is the 32-byte big-endian amount; fails exactly from 2^256 |
| Journal.CopyIntoTail | core/src/commitment.rs:207-208 | the buffer holds zeros and then the bytes |
| Journal.Reader.TakeSlice | core/src/commitment.rs:278-289 | returns the next bytes and advances, or reports truncation and does not move |
| Journal.Reader.Prefixed | core/src/commitment.rs:304-307 | reads a length and exactly that many bytes |
| Journal.Reader.Finish | core/src/commitment.rs:309-313 | succeeds exactly when no byte is left |
| JournalLayout.Layout | core/src/commitment.rs:112-135 | every byte of a journal: literal version, chain, outcome, state and asset tags, identities behind two-byte lengths, id, amount and condition at their offsets |
| JournalLayout.TruncatedAt | core/src/commitment.rs:278-307 | a journal cut short anywhere is reported truncated at the last read boundary at or before the cut, counted from the commitment's field widths |
| JournalLayout.HeaderErrors | core/src/commitment.rs:146-156 | a wrong version, chain, outcome or state tag is the one reported, with its value |
| JournalLayout.AssetKindError | core/src/commitment.rs:162-162 | a wrong asset tag in an otherwise valid journal is reported, with its value |
| Journal.DigestIdentifiesCommitment | core/src/commitment.rs:184-192 | equal journal digests mean one commitment, or two journals that collide |
| Guest.ExecuteSucceedsIff | core/src/escrow.rs:63-91 | execution succeeds exactly for a funded escrow with decodable parties, a valid asset and a satisfied condition, and never twice |
| Guest.ExecuteErrors | core/src/escrow.rs:63-91 | which error an execution fails with: state, then sender, recipient, asset and condition |
| Guest.ToBytesNames | core/src/identity.rs:159-171 | an identity decodes to bytes exactly when its text, in its own alphabet and without a leading `0x`, does |
| Guest.HexPrefixOptional | core/src/identity.rs:161-164 | a hexadecimal text is the same identity with and without `0x` |
| Guest.EscrowContext.Execute | core/src/escrow.rs:63-72 | the state changes to conditions-met on success and not at all otherwise |
| Guest.GuestCommitsIff | prover/methods/guest/src/main.rs:11-28 | when the guest commits a journal at all |
| Guest.GuestJournalMeans | prover/methods/guest/src/main.rs:11-28 | the committed journal, read back, names the chain, id, identities, asset and condition of the input, each decoded in its own alphabet, and reports success exactly for a releasable escrow |
| Guest.GuestJournalIsIff | core/src/commitment.rs:77-135 | the guest commits a given success journal exactly when its input backs that commitment |
| Guest.RunGuest | prover/methods/guest/src/main.rs:11-28 | the guest program, mutating its input on the way, computes that journal |
| EvmJournal.ParserRefinesEncoder | agent/ethereum/src/Escrow.sol:215-258 | the parser accepts a byte string if and only if the id is below 2^64 and the bytes are the encoded success commitment of the stored escrow |
| EvmJournal.JournalBindsOneEscrow | agent/ethereum/src/Escrow.sol:215-258 | one journal fits one contract address, one id and one set of parties, amount and condition |
| EvmJournal.CheckJournalBinding | agent/ethereum/src/Escrow.sol:215-258 | the field-by-field parser with its threaded offset decides exactly that, with its error kinds |
| EvmVerdict.ParserVerdict | agent/ethereum/src/Escrow.sol:215-280 | the parser's answer to every journal that decodes: malformed for a wrong chain, outcome, identity width or asset, mismatch for a wrong value, the first in journal order |
| EvmVerdict.CutIsMalformed | agent/ethereum/src/Escrow.sol:257-293 | an accepted journal has 145 bytes and is malformed when cut short anywhere |
| EvmVerdict.ExtendedIsMalformed | agent/ethereum/src/Escrow.sol:257-257 | an accepted journal with anything after it is malformed |
| EvmJournal.ReadBE | agent/ethereum/src/Escrow.sol:282-293 | the shifting loop reads the big-endian value in 256 bits without losing a bit, or reports truncation |
| EvmJournal.ReadAddress | agent/ethereum/src/Escrow.sol:260-280 | the length-prefixed account is read in 160 bits without losing a bit |
| EvmJournal.ShiftInExact | agent/ethereum/src/Escrow.sol:275-278 | shifting in a byte is exact while fewer bytes than the width were read |
| Settlement.Conservation | agent/ethereum/src/Escrow.sol:93-175 | in every legal history deposits equal what is held plus released plus refunded |
| Settlement.OpenSince | agent/solana/escrow/programs/escrow/src/lib.rs:332-335 | every open deal is the untouched latest opening of its key |
| Settlement.SettlementOrigin | agent/ethereum/src/Escrow.sol:133-175 | every settlement honours the latest opening of its key: payee, amount, window and proof |
| Settlement.SettledOncePerOpening | agent/solana/escrow/programs/escrow/src/lib.rs:359-366 | two settlements of one key have an opening of it between them |
| Settlement.NextInWindow | agent/ethereum/src/Escrow.sol:133-175 | while refunds are closed, the next event under an open deal's key is a release to its recipient, in full and with a proof if one is needed |
| Settlement.WindowLeftIff | agent/solana/escrow/programs/escrow/src/lib.rs:72-77 | some of that range is left at creation exactly when creation precedes the cancel block |
| Settlement.LateOpeningHasNoWindow | agent/solana/escrow/programs/escrow/src/lib.rs:56-60 | a deal that may be opened and leaves the recipient no exclusive block |
| Settlement.NoSettlementOutsideWindow | agent/ethereum/src/Escrow.sol:141-166 | nothing settles before its finish block, and before the cancel block only the recipient is paid |
| Settlement.DealStands | agent/ethereum/src/Escrow.sol:133-175 | events on other keys never change an open deal |
| Settlement.ExitAlwaysOpens | agent/ethereum/src/Escrow.sol:101-107 | from its exit block on, a settlement that needs no proof and pays the deposit is legal after any further events |
| EvmEscrow.CreateGuardIsMayOpen | agent/ethereum/src/Escrow.sol:99-107 | the contract's creation checks are the abstract rule plus a non-zero recipient |
| EvmEscrow.FinishGuardIsLegal | agent/ethereum/src/Escrow.sol:137-147 | the finish checks pass exactly when unlocked, called by the recipient, and the release is legal |
| EvmEscrow.CancelGuardIsLegal | agent/ethereum/src/Escrow.sol:161-166 | the cancel checks pass exactly when unlocked, called by the sender, and the refund is legal |
| EvmEscrow.PayoutSafe | agent/ethereum/src/Escrow.sol:149-155 | a legal payout never lacks balance, fails only if the payee refuses, undoes everything then, and keeps the invariant at every point inside the payee's code |
| EvmEscrow.ExecSafe | agent/ethereum/src/Escrow.sol:93-175 | every call, with any call tree inside it, keeps the invariant at every point and loses no record |
| EvmEscrow.LockedOnlyOpens | agent/ethereum/src/Escrow.sol:133-160 | during a payout, finishes and cancels are refused at every depth and the payee can only open escrows |
| EvmEscrow.PointsCover | agent/ethereum/src/Escrow.sol:154-154 | the recorded points contain everything inside every call of a list |
| EvmContract.EscrowContract.constructor | agent/ethereum/src/Escrow.sol:73-78 | deployment starts in the invariant, whatever ether is already at the address |
| EvmContract.EscrowContract.CreateEscrow | agent/ethereum/src/Escrow.sol:93-123 | the whole new storage, the returned id, and the checks in order |
| EvmContract.EscrowContract.CheckReceipt | agent/ethereum/src/Escrow.sol:199-207 | journal binding first, then the seal against the pinned image and the journal's digest |
| EvmContract.EscrowContract.CheckFinish | agent/ethereum/src/Escrow.sol:135-147 | the finish checks in order, changing nothing |
| EvmContract.EscrowContract.FinishEscrow | agent/ethereum/src/Escrow.sol:133-156 | effects before interaction, the payee's call tree, full rollback on a failed transfer |
| EvmContract.EscrowContract.CancelEscrow | agent/ethereum/src/Escrow.sol:160-175 | the same for refunds |
| EvmContract.EscrowContract.Send | agent/ethereum/src/Escrow.sol:154-155 | the transfer and the callee's run |
| EvmContract.EscrowContract.Dispatch | agent/ethereum/src/Escrow.sol:16-16 | any call or foreign frame, with rollback, computes the state machine's step |
| EvmRuns.ReachableSafe | agent/ethereum/src/Escrow.sol:93-175 | refinement: in every reachable state the records replay, in the abstract machine, to exactly the unsettled escrows, and the lock is free |
| EvmRuns.IdsCountOpenings | agent/ethereum/src/Escrow.sol:109-110 | in every reachable state the id counter is the number of openings, the k-th opening has id k, and these are the ids on record |
| EvmRuns.SolventThroughout | agent/ethereum/src/Escrow.sol:93-175 | at every point of every call in every reachable state: balance covers what is owed with only forced ether over, settled means emptied, deposits are conserved |
| EvmRuns.PayoutsAreOwed | agent/ethereum/src/Escrow.sol:133-175 | each settlement honours the one opening of its id, and an id is opened once and settled at most once |
| EvmRuns.WindowsRespected | agent/ethereum/src/Escrow.sol:141-166 | over every run, the finish and cancel blocks are respected and before the cancel block only the recipient is paid |
| EvmRuns.ProofReleaseBinds | agent/ethereum/src/Escrow.sol:145-147 | every release of a conditioned escrow passed the receipt check for the terms it was opened with |
| EvmRuns.JournalsAgreeIff | agent/ethereum/src/Escrow.sol:215-258 | two proof releases, of any contracts in any runs, rest on one journal exactly when address, id, parties, amount and condition agree |
| EvmRuns.JournalSettlesOnce | agent/ethereum/src/Escrow.sol:109-258 | no byte string releases two escrows over a whole run of one contract |
| EvmRuns.CreateSucceedsIff | agent/ethereum/src/Escrow.sol:93-123 | exactly when a create succeeds, and the next id, the counter, the records and the balance it leaves |
| EvmRuns.FinishSucceedsIff | agent/ethereum/src/Escrow.sol:133-156 | exactly when a finish succeeds; it records one release first and nothing but openings after it, and changes no record but its own, only to settled and empty |
| EvmRuns.CancelSucceedsIff | agent/ethereum/src/Escrow.sol:160-175 | exactly when a cancel succeeds, likewise |
| EvmRefusals.OpenMeansUnsettled | agent/ethereum/src/Escrow.sol:133-175 | an id is open exactly if it was given out and no record settles it |
| EvmRefusals.FinishErrors | agent/ethereum/src/Escrow.sol:135-155 | which error a finish fails with, in terms of ids given out, past settlements, the terms, the receipt and the payee |
| EvmRefusals.CancelErrors | agent/ethereum/src/Escrow.sol:160-174 | which error a cancel fails with, likewise |
| EvmRefusals.CreateErrors | agent/ethereum/src/Escrow.sol:99-109 | which error a create fails with, in terms of the deal asked for |
| EvmRuns.RecipientWindow | agent/ethereum/src/Escrow.sol:133-166 | in every reachable state and at every later block: before the finish block nobody can settle an open cancellable escrow; from there to the cancel block, a range that is never empty, no cancel succeeds and a finish does exactly for the recipient, with a proof if needed and a willing payee |
| EvmRuns.OnlyRecipientInside | agent/ethereum/src/Escrow.sol:133-175 | before the cancel block, whatever call tree a transaction runs, all it can record under an open escrow's id is a release to the recipient |
| EvmExits.NoStrandedFunds | agent/ethereum/src/Escrow.sol:85-107 | an open escrow with an exit keeps its terms through any run, and from its exit block a proofless call by an account that can act settles it in full unless its own payee refuses |
| EvmExits.StuckForever | agent/ethereum/src/Escrow.sol:137-164 | an escrow whose recipient cannot act and that nobody may cancel stays open, on the same terms, through every run of calls by accounts that can |
| EvmExits.ExitExistsIff | agent/ethereum/src/Escrow.sol:99-107 | an open escrow can be settled by some run exactly when its recipient can act or it has a cancel block |
| EvmExits.StrandedEscrow | agent/ethereum/src/Escrow.sol:99-107 | a creation the contract accepts, for any recipient that cannot act, whose deposit never leaves |
| EvmEndToEnd.GuestJournalAcceptedIff | agent/ethereum/src/Escrow.sol:215-258 | the contract accepts a guest's journal exactly when the guest was given that escrow and found it releasable |
| EvmEndToEnd.ProverCompleteness | core/src/commitment.rs:77-135 | a satisfied condition for a stored escrow always yields a journal the parser accepts |
| EvmEndToEnd.HonestReleaseSucceeds | agent/ethereum/src/Escrow.sol:133-156 | with a proof system that proves what the guest commits, an input that backs an open escrow gives a seal with which the finish succeeds, unless the payee refuses |
| EvmEndToEnd.EndToEnd | agent/ethereum/src/Escrow.sol:133-207 | every release of a conditioned escrow is backed by a guest input with the same agent, id, parties and amount whose condition is present, satisfied and committed to, or by a collision |
| EvmEndToEnd.ReleasedOnTheAgreedCondition | core/src/condition.rs:103-133 | what was satisfied is bound to the depositor's own condition tree, or a collision is returned |
| EvmTrace.TraceIsPoints | agent/ethereum/src/Escrow.sol:133-175 | the recorded points of a call are, state for state, what a stack machine with saved states passes through, and its last state is the outcome |
| EvmTrace.SolventAtEveryStep | agent/ethereum/src/Escrow.sol:93-175 | the contract is solvent after every single step of every transaction |
| SolanaJournal.JournalParity | agent/solana/escrow/programs/escrow/src/lib.rs:243-278 | the reconstructed journal is the guest encoder's output for the account, for every `u64` amount |
| SolanaJournal.JournalInjective | agent/solana/escrow/programs/escrow/src/lib.rs:243-278 | it determines program, parties, amount, id and condition |
| SolanaJournal.NeverAcceptedByEvm | agent/ethereum/src/Escrow.sol:224-225 | no Solana journal passes the Ethereum parser |
| SolanaJournal.RouterCallRoundTrip | client/src/solana.rs:238-249 | client framing inside the program's call data Borsh-decodes to the seal, the pinned image and the digest, using every byte |
| SolanaJournal.RouterCallPinned | agent/solana/escrow/programs/escrow/src/lib.rs:203-216 | which seal bytes the router can read at all, which use up the call data, and that exactly those make it read the rest of the seal, the pinned image and the program's own digest |
| SolanaJournal.PinnedIffFramed | agent/solana/escrow/programs/escrow/src/lib.rs:203-216 | seal bytes leave both words pinned, whatever they are, exactly when they are framed |
| SolanaJournal.FramedIffFromClient | client/src/solana.rs:238-249 | framed seal bytes are exactly those the client produces |
| SolanaJournal.OverlongSealReads | agent/solana/escrow/programs/escrow/src/lib.rs:209-216 | seal bytes with two more words after the announced part are read with those in place of the pinned image and the digest |
| SolanaEscrow.CreateGuardIsMayOpen | agent/solana/escrow/programs/escrow/src/lib.rs:64-78 | the program's creation checks are the abstract rule |
| SolanaEscrow.FinishGuardIsLegal | agent/solana/escrow/programs/escrow/src/lib.rs:123-139 | the finish checks pass, with some accounts passed to the router, exactly when signed by the recipient and the release is legal |
| SolanaEscrow.CancelGuardIsLegal | agent/solana/escrow/programs/escrow/src/lib.rs:171-178 | the cancel checks pass exactly when signed by the sender and the refund is legal |
| SolanaEscrow.CreatedSafe | agent/solana/escrow/programs/escrow/src/lib.rs:80-97 | creation keeps every lamport and leaves rent plus amount at the address |
| SolanaEscrow.ClosedSafe | agent/solana/escrow/programs/escrow/src/lib.rs:359-366 | closing after a legal settlement keeps the invariant and every lamport |
| SolanaEscrow.ExecSafe | agent/solana/escrow/programs/escrow/src/lib.rs:63-190 | every successful instruction, outside deposits and transfers included, keeps the invariant and the total |
| SolanaProgram.EscrowProgram.CreateEscrow | agent/solana/escrow/programs/escrow/src/lib.rs:63-108 | the whole new ledger, or the error and nothing changed |
| SolanaProgram.EscrowProgram.VerifyReleaseProof | agent/solana/escrow/programs/escrow/src/lib.rs:197-241 | the router is given the accounts passed along and call data that, for a framed seal, reads as that seal, the pinned image and the rebuilt journal's digest |
| SolanaProgram.EscrowProgram.Close | agent/solana/escrow/programs/escrow/src/lib.rs:359-366 | everything left at the address goes to the sender and the account disappears |
| SolanaProgram.EscrowProgram.FinishEscrow | agent/solana/escrow/programs/escrow/src/lib.rs:119-164 | the checked lamport moves and the closing, or the error and nothing changed |
| SolanaProgram.EscrowProgram.CancelEscrow | agent/solana/escrow/programs/escrow/src/lib.rs:171-189 | the refund by closing, or the error and nothing changed |
| SolanaRuns.RunSafe | agent/solana/escrow/programs/escrow/src/lib.rs:63-190 | over every run of atomic transactions total lamports are constant and the invariant holds |
| SolanaRuns.ReachableSafe | agent/solana/escrow/programs/escrow/src/lib.rs:63-190 | refinement: in every reachable state the events replay, in the abstract machine, to exactly the live accounts |
| SolanaRuns.OverflowUnreachable | agent/solana/escrow/programs/escrow/src/lib.rs:144-151 | with a supply below 2^64 no overflow branch is ever taken |
| SolanaRuns.CreateSucceedsIff | agent/solana/escrow/programs/escrow/src/lib.rs:63-108 | exactly when a create succeeds, what the sender pays, what the address then holds, the account it leaves, and that nothing else moved |
| SolanaRefusals.FinishErrors | agent/solana/escrow/programs/escrow/src/lib.rs:119-155 | which error a finish fails with; its own recipient check is never the one |
| SolanaRefusals.CancelErrors | agent/solana/escrow/programs/escrow/src/lib.rs:171-178 | which error a cancel fails with; its own sender check is never the one |
| SolanaRefusals.CreateErrors | agent/solana/escrow/programs/escrow/src/lib.rs:63-87 | which error a create fails with, in terms of the deal asked for, the reserve being paid before the checks |
| SolanaRuns.FinishSucceedsIff | agent/solana/escrow/programs/escrow/src/lib.rs:119-164 | exactly when a finish succeeds, for the accounts and seal the caller passes; the recipient gets exactly the amount, the sender the rest, nobody else anything |
| SolanaRuns.CancelSucceedsIff | agent/solana/escrow/programs/escrow/src/lib.rs:171-189 | exactly when a cancel succeeds; the sender gets everything at the address |
| SolanaRuns.WindowsRespected | agent/solana/escrow/programs/escrow/src/lib.rs:128-178 | the same window property over every Solana run |
| SolanaRuns.RecipientWindow | agent/solana/escrow/programs/escrow/src/lib.rs:54-77 | in every reachable ledger and at every later slot: before the finish slot nobody can settle an open cancellable escrow; from there to the cancel slot, a range that is never empty, no cancel succeeds and a finish does exactly for the recipient, with an accepted proof if needed |
| SolanaRuns.OnlyRecipientInside | agent/solana/escrow/programs/escrow/src/lib.rs:119-190 | before the cancel slot, the first thing any transaction records under an open escrow's key is a release to the recipient |
| SolanaExits.NoStrandedFunds | agent/solana/escrow/programs/escrow/src/lib.rs:54-62 | a live escrow with an exit that nobody settles keeps its terms, and from its exit slot a proofless instruction signed by an account that can act settles it in full |
| SolanaExits.StuckForever | agent/solana/escrow/programs/escrow/src/lib.rs:119-178 | an escrow whose recipient cannot act and that nobody may cancel stays open through every run of instructions signed by accounts that can |
| SolanaExits.ExitExistsIff | agent/solana/escrow/programs/escrow/src/lib.rs:54-77 | a live account can be closed by some run exactly when its recipient can act or it has a cancel slot |
| SolanaExits.StrandedEscrow | agent/solana/escrow/programs/escrow/src/lib.rs:310-314 | a creation the program accepts, for any recipient that cannot act, whose deposit never leaves |
| SolanaRuns.ProofReleaseBinds | agent/solana/escrow/programs/escrow/src/lib.rs:132-139 | every release of a conditioned escrow passed the router with the journal rebuilt from the terms it was opened with |
| SolanaRuns.JournalsAgreeIff | agent/solana/escrow/programs/escrow/src/lib.rs:243-278 | two proof releases, of any programs on any ledgers, rest on one journal exactly when program id, key, amount and condition agree |
| SolanaRuns.SharedJournalIff | agent/solana/escrow/programs/escrow/src/lib.rs:332-335 | two proof releases in one run rest on one journal exactly when key, amount and condition agree, and then an opening lies in between |
| SolanaRuns.SealReleasesAgain | agent/solana/escrow/programs/escrow/src/lib.rs:332-335 | an escrow opened again with the same key, amount and condition is released by the same seal, in one transaction |
| SolanaEndToEnd.EndToEnd | agent/solana/escrow/programs/escrow/src/lib.rs:132-139 | every proof release whose recorded seal is framed, or whose call was in fact about the pinned words, is backed by a guest input for that escrow with a satisfied, committed condition, or by a collision |
| SolanaEndToEnd.EndToEndReadInFull | agent/solana/escrow/programs/escrow/src/lib.rs:132-139 | the same for every proof release, behind a router that rejects bytes left over |
| SolanaEndToEnd.UnframedReleaseUnbacked | agent/solana/escrow/programs/escrow/src/lib.rs:209-216 | a run behind a sound router whose one release no guest run and no collision backs |
| SolanaEndToEnd.ReleasedOnTheAgreedCondition | core/src/condition.rs:103-133 | what was satisfied is bound to the depositor's own condition tree, or a collision is returned |
| SolanaEndToEnd.ProverCompleteness | core/src/commitment.rs:77-135 | the guest commits the journal the program rebuilds for an account exactly when its input backs that account |
| SolanaEndToEnd.HonestReleaseSucceeds | agent/solana/escrow/programs/escrow/src/lib.rs:119-164 | with a router that accepts what the guest commits, an input that backs an open escrow gives a client-framed seal with which the finish succeeds |
| Networks.EvmReceiptFitsBoth | agent/ethereum/src/Escrow.sol:199-258 | where their verifiers agree on a receipt, two contracts at one address both accept it or both refuse it for open escrows with the same id, parties, amount and condition |
| Networks.EvmReceiptSettlesTwice | agent/ethereum/src/Escrow.sol:199-258 | two runs, on two networks, in which one seal and journal release an escrow each |
| Networks.SolanaReceiptFitsBoth | agent/solana/escrow/programs/escrow/src/lib.rs:197-278 | where the routers agree on a seal, the program under one id accepts it on both of two clusters or on neither, for open accounts with the same key, amount and condition |
| Networks.SolanaReceiptSettlesTwice | agent/solana/escrow/programs/escrow/src/lib.rs:197-278 | two runs, on two clusters, in which one seal releases an account each |
| Agents.CreationRulesAgreeIff | client/src/ethereum.rs:115-163 | for distinct parties and an amount below 2^64 the agents agree on exactly the parameters without a zero-lock clash; otherwise, where only Solana refuses, on exactly those Ethereum refuses too |
| Agents.ZeroLockClashes | client/src/ethereum.rs:160-162 | parameters on which each agent accepts what the other refuses, by a zero lock or by the amount |
| Agents.AgentsEnforceAlike | client/src/ethereum.rs:160-163 | whatever both accept has the same windows, payouts, proof need and exit on both |
| Templates.RenderTokens | core/src/interface.rs:78-101 | every text is the rendering of the tokens the scan finds |
| Templates.TokensWellFormed | core/src/interface.rs:81-98 | those tokens are maximal literals, `}`-free names, and at most one unclosed tail |
| Templates.TokensRender | core/src/interface.rs:81-98 | scanning a rendered template gives its tokens back |
| Templates.ExpansionOfTemplate | core/src/interface.rs:65-102 | expanding a rendered template joins its literals and looked-up values, with no value scanned again |
| Templates.ScanUnclosed | core/src/interface.rs:93-96 | an unclosed reference is kept verbatim |
| Templates.ExpandWith | core/src/interface.rs:70-102 | the loop computes the value of the text's tokens, looks names up in order, and returns a text without references unchanged |
| Templates.ExpansionInOrder | core/src/interface.rs:81-101 | the expansion divides into one piece for each token, in order: literals and an unclosed tail verbatim, references their value or nothing |
| Templates.NamesInOrder | core/src/interface.rs:81-92 | the names looked up are those of the references, in the order they stand, repetitions included |
| Templates.UnsetEmptyIff | core/src/interface.rs:113-123 | the collected names are exactly the unset ones |
| Templates.UnsetInOrder | core/src/interface.rs:113-120 | they are collected in the order they are met, repetitions included |
| Templates.ExpandEnvChecked | core/src/interface.rs:112-131 | succeeds exactly when every referenced name is set, otherwise lists the names at exactly the unset positions, in order |
| Amounts.FormatAmountExact | core/src/asset.rs:152-167 | a canonical whole part, a point and exactly `decimals` digits (no point for zero or unset decimals), whose value is the amount |
| Amounts.FormatAmountInjective | core/src/asset.rs:152-167 | for fixed decimals different amounts print differently |

## Left out

- SolanaExits.NoStrandedFunds: leaves out the runtime's rule that no account may end a transaction with some lamports but below its own rent minimum, which can refuse a release of a small amount to an empty wallet.
- SolanaRuns.FinishSucceedsIff: leaves out the same rent rule for the credited recipient.
- SolanaRuns.CreateSucceedsIff: leaves out the same rent rule for the paying wallet.
- SolanaRuns.RecipientWindow: leaves out the same rent rule for the credited recipient.
- SolanaRuns.SealReleasesAgain: leaves out the same rent rule for the paying and credited wallets.
- SolanaEndToEnd.HonestReleaseSucceeds: leaves out the same rent rule for the credited recipient.
- SolanaExits.ExitExistsIff: leaves out the same rent rule.
- SolanaEscrow.ProofAccepted: the router's verdict is a function of the slot, the call data and the accounts passed along; a change of those accounts' contents within one slot is not modelled, nor is the router itself.
- EvmEscrow.VerifyReceipt: the verifier's verdict is a function of the block, the seal, the image and the digest; a change of the router's registry within one block is not modelled, nor is the router itself.
- Guest.GuestJournalMeans: starts from a decoded proof input; the frame read and its bincode decoding are not modelled.
- Guest.GuestCommitsIff: likewise starts from a decoded proof input.
- Guest.RunGuest: likewise starts from a decoded proof input.
- Conditions.Verify: a failing signature is one error, without the reason the signature libraries give; counts are unbounded naturals rather than a machine's `usize`.
- EvmContract.EscrowContract.CreateEscrow: callers are non-zero accounts, as the chain guarantees; the callers' own ether balances are not tracked.
- SolanaEscrow.TopUp: the top-up to the rent reserve and the order of account checks follow Anchor's `init`, `seeds` and `close`, whose code is not part of this model.
- SHA-256, Ed25519, ECDSA, Groth16 and the verifier contracts: library code, taken as parameters.
- Hex, Base58, Base64, JSON and bincode: library code; identities decode through partial function parameters.
- RPC clients, transaction signing, key files, the command line, logging and file reading: input and output only.
- `getEscrow`, `nextEscrowId` and `escrowCount` of the contract: they read storage as it is.
- Gas, fees, error texts, PDA derivation and bump seeds: an escrow account is addressed by sender, recipient and id.
- ERC-20 and SPL settlement: neither agent implements it.
- Byte-level UTF-8 in templates: text is a sequence of characters, and the environment is a function.
