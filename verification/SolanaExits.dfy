/** Which Solana escrows can always be settled, and which never can. */
module SolanaExits {
  import opened Bytes
  import opened Settlement
  import opened SolanaJournal
  import opened SolanaEscrow
  import opened SolanaRuns

  // ---------------------------------------------------------------- no stranded funds

  function ExitInstruction(acts: Actors<Pubkey>, key: Key, deal: Deal<Pubkey>): Instruction {
    if ExitsByRefund(acts, deal) then Cancel(deal.sender, key) else Finish(deal.recipient, key, [], [])
  }

  /** Nothing in the run from `l` to `t` settled `key`. */
  ghost predicate Unsettled(l: Ledger, t: Ledger, key: Key) {
    l.history <= t.history && forall e | e in t.history[|l.history|..] :: !Settles(e, key)
  }

  lemma DealPersists(p: Program, l: Ledger, more: seq<Tx>, key: Key)
    requires Reachable(p, l) && key in l.accounts && Unsettled(l, Run(p, l, more), key)
    ensures var t := Run(p, l, more);
            && Reachable(p, t) && TotalLamports(t) == TotalLamports(l)
            && key in t.accounts && DealOf(t.accounts[key]) == DealOf(l.accounts[key])
            && MayOpen(DealOf(l.accounts[key]))
  {
    hide ReconstructJournal, CpiData, Replay, Run, Reserved, Chronicle, TotalLamports;
    ReachableSafe(p, l);
    RunSafe(p, l, more);
    ReachableRun(p, l, more);
    var t := Run(p, l, more);
    var tail := t.history[|l.history|..];
    assert l.history + tail == t.history;
    DealStands(AuthOf(p), l.history, tail, key);
    var j := OpenSince(AuthOf(p), l.history, key);
  }

  /** The exit instruction did what the exit event says. */
  ghost predicate ExitSettles(acts: Actors<Pubkey>, t: Ledger, after: Ledger, key: Key, deal: Deal<Pubkey>)
    requires Balance(t.vaults, key) >= deal.amount
  {
    && after.history == t.history + [Exit(acts, key, deal, t.slot)]
    && if ExitsByRefund(acts, deal) then PaidOnly(t, after, key, 0, Balance(t.vaults, key))
       else PaidOnly(t, after, key, deal.amount, Balance(t.vaults, key) - deal.amount)
  }

  lemma ExitSucceeds(p: Program, acts: Actors<Pubkey>, t: Ledger, key: Key)
    requires Reachable(p, t) && TotalLamports(t) < TWO_64 && key in t.accounts
    requires var deal := DealOf(t.accounts[key]);
             && MayOpen(deal) && HasExit(acts, deal) && t.slot >= ExitBlock(acts, deal)
             && Balance(t.vaults, key) >= deal.amount
    ensures var deal := DealOf(t.accounts[key]);
            var r := Exec(p, t, ExitInstruction(acts, key, deal));
            r.Ok? && ExitSettles(acts, t, r.value, key, deal)
  {
    hide Exec, PaidOnly, TotalLamports;
    LiveMayOpen(p, t, key);
    var deal := DealOf(t.accounts[key]);
    if ExitsByRefund(acts, deal) {
      CancelSucceedsIff(p, t, deal.sender, key);
    } else {
      FinishSucceedsIff(p, t, deal.recipient, key, [], []);
    }
  }

  /** No stranded funds: a live escrow with an exit that nobody settles keeps its terms through any
      run, and from its exit slot on an instruction that needs no proof, signed by an account that
      can act, settles it in full. */
  lemma NoStrandedFunds(p: Program, acts: Actors<Pubkey>, l: Ledger, more: seq<Tx>, key: Key)
    requires Reachable(p, l) && TotalLamports(l) < TWO_64 && key in l.accounts
    requires HasExit(acts, DealOf(l.accounts[key])) && Unsettled(l, Run(p, l, more), key)
    requires Run(p, l, more).slot >= ExitBlock(acts, DealOf(l.accounts[key]))
    ensures var t, deal := Run(p, l, more), DealOf(l.accounts[key]);
            && key in t.accounts && DealOf(t.accounts[key]) == deal
            && Balance(t.vaults, key) >= p.rent + deal.amount
            && var r := Exec(p, t, ExitInstruction(acts, key, deal));
               r.Ok? && ExitSettles(acts, t, r.value, key, deal)
    ensures ReachableBy(p, acts, l) ==> SignedBy(acts, ExitInstruction(acts, key, DealOf(l.accounts[key])))
  {
    hide Exec, Run, ExitSettles, TotalLamports;
    DealPersists(p, l, more, key);
    var t := Run(p, l, more);
    ReachableSafe(p, t);
    ExitSucceeds(p, acts, t, key);
    if ReachableBy(p, acts, l) {
      SendersAct(p, acts, l);
    }
  }

  // ---------------------------------------------------------------- when there is no exit

  /** The signer can act: a wallet somebody holds the key of, not an address without one. */
  predicate SignedBy(acts: Actors<Pubkey>, ix: Instruction) {
    match ix
    case Create(sender, _, _, _, _, _, _) => acts(sender)
    case Finish(recipient, _, _, _) => acts(recipient)
    case Cancel(sender, _) => acts(sender)
    case Deposit(sender, _, _) => acts(sender)
    case Transfer(sender, _, _) => acts(sender)
  }

  predicate AllSignedBy(acts: Actors<Pubkey>, ixs: seq<Instruction>) {
    forall ix | ix in ixs :: SignedBy(acts, ix)
  }

  predicate Issuable(acts: Actors<Pubkey>, txs: seq<Tx>) {
    forall tx | tx in txs && tx.Atomic? :: AllSignedBy(acts, tx.instructions)
  }

  /** The ledgers reachable by runs of such instructions. */
  ghost predicate ReachableBy(p: Program, acts: Actors<Pubkey>, l: Ledger) {
    exists wallets: map<Pubkey, nat>, vaults: map<Key, nat>, slot: nat, txs: seq<Tx> ::
      Run(p, Genesis(wallets, vaults, slot), txs) == l && Issuable(acts, txs)
  }

  /** What signed instructions keep: every sender can act, and an account whose recipient cannot
      act and which nobody may cancel stays as it is. */
  ghost predicate Kept(acts: Actors<Pubkey>, before: Ledger, after: Ledger) {
    && ((forall key | key in before.accounts :: acts(before.accounts[key].sender)) ==>
          forall key | key in after.accounts :: acts(after.accounts[key].sender))
    && (forall key | Stuck(acts, before, key) ::
          Stuck(acts, after, key) && after.accounts[key] == before.accounts[key])
  }

  predicate Stuck(acts: Actors<Pubkey>, l: Ledger, key: Key) {
    key in l.accounts && !acts(l.accounts[key].recipient) && l.accounts[key].cancelAfter.None?
  }

  lemma ExecKeeps(p: Program, acts: Actors<Pubkey>, l: Ledger, ix: Instruction)
    requires SignedBy(acts, ix) && Exec(p, l, ix).Ok?
    ensures Kept(acts, l, Exec(p, l, ix).value)
  {
    hide ReconstructJournal, ProofAccepted;
  }

  lemma {:induction false} ExecAllKeeps(p: Program, acts: Actors<Pubkey>, l: Ledger, ixs: seq<Instruction>)
    requires AllSignedBy(acts, ixs) && ExecAll(p, l, ixs).Ok?
    ensures Kept(acts, l, ExecAll(p, l, ixs).value)
    decreases |ixs|
  {
    hide Exec;
    if ixs != [] {
      assert ixs[0] in ixs;
      ExecKeeps(p, acts, l, ixs[0]);
      ExecAllKeeps(p, acts, Exec(p, l, ixs[0]).value, ixs[1..]);
    }
  }

  lemma {:induction false} RunKeeps(p: Program, acts: Actors<Pubkey>, l: Ledger, txs: seq<Tx>)
    requires Issuable(acts, txs)
    ensures Kept(acts, l, Run(p, l, txs))
  {
    hide ExecAll;
    if txs != [] {
      var front, tx := txs[..|txs| - 1], txs[|txs| - 1];
      RunKeeps(p, acts, l, front);
      assert tx in txs;
      if tx.Atomic? && ExecAll(p, Run(p, l, front), tx.instructions).Ok? {
        ExecAllKeeps(p, acts, Run(p, l, front), tx.instructions);
      }
    }
  }

  lemma SendersAct(p: Program, acts: Actors<Pubkey>, l: Ledger)
    requires ReachableBy(p, acts, l)
    ensures Reachable(p, l) && forall key | key in l.accounts :: acts(l.accounts[key].sender)
  {
    hide Run;
    var wallets: map<Pubkey, nat>, vaults: map<Key, nat>, slot: nat, txs: seq<Tx> :|
      Run(p, Genesis(wallets, vaults, slot), txs) == l && Issuable(acts, txs);
    RunKeeps(p, acts, Genesis(wallets, vaults, slot), txs);
  }

  /** An escrow for an account that cannot act, which nobody may cancel, stays open through every
      run of instructions signed by those that can. */
  lemma StuckForever(p: Program, acts: Actors<Pubkey>, l: Ledger, txs: seq<Tx>, key: Key)
    requires Issuable(acts, txs) && Stuck(acts, l, key)
    ensures var t := Run(p, l, txs); Stuck(acts, t, key) && t.accounts[key] == l.accounts[key]
  {
    hide Run;
    RunKeeps(p, acts, l, txs);
  }

  /** The shortest way out: wait for the exit slot, then run the exit instruction. */
  function WayOut(acts: Actors<Pubkey>, key: Key, deal: Deal<Pubkey>): seq<Tx> {
    [Tick(ExitBlock(acts, deal)), Atomic([ExitInstruction(acts, key, deal)])]
  }

  lemma WayOutWorks(p: Program, acts: Actors<Pubkey>, l: Ledger, key: Key)
    requires ReachableBy(p, acts, l) && TotalLamports(l) < TWO_64 && key in l.accounts
    requires HasExit(acts, DealOf(l.accounts[key]))
    ensures var way := WayOut(acts, key, DealOf(l.accounts[key]));
            Issuable(acts, way) && key !in Run(p, l, way).accounts
  {
    hide Exec, TotalLamports, Reachable;
    SendersAct(p, acts, l);
    var deal := DealOf(l.accounts[key]);
    var exit, way := ExitInstruction(acts, key, deal), WayOut(acts, key, deal);
    var t := l.(slot := l.slot + ExitBlock(acts, deal));
    TickedTo(p, l, t.slot);
    LiveMayOpen(p, l, key);
    ReserveHeld(p, t, key);
    ExitSucceeds(p, acts, t, key);
    assert way[..1][..0] == [];
    assert Run(p, l, way[..1]) == t;
    assert [exit][1..] == [];
    assert ExecAll(p, t, [exit]) == Exec(p, t, exit);
    assert Run(p, l, way) == Exec(p, t, exit).value;
  }

  lemma ReserveHeld(p: Program, l: Ledger, key: Key)
    requires Reachable(p, l) && key in l.accounts
    ensures Balance(l.vaults, key) >= p.rent + l.accounts[key].amount
  {
    ReachableSafe(p, l);
  }

  /** Exactly the escrows with an exit can ever be settled: some run of instructions signed by
      accounts that can act closes a live account if and only if its recipient can act or it can be
      cancelled. */
  lemma ExitExistsIff(p: Program, acts: Actors<Pubkey>, l: Ledger, key: Key)
    requires ReachableBy(p, acts, l) && TotalLamports(l) < TWO_64 && key in l.accounts
    ensures (exists txs: seq<Tx> :: Issuable(acts, txs) && key !in Run(p, l, txs).accounts) <==>
            HasExit(acts, DealOf(l.accounts[key]))
  {
    hide Run, TotalLamports, WayOut;
    if HasExit(acts, DealOf(l.accounts[key])) {
      WayOutWorks(p, acts, l, key);
    } else {
      forall txs: seq<Tx> | Issuable(acts, txs) ensures key in Run(p, l, txs).accounts {
        StuckForever(p, acts, l, txs, key);
      }
    }
  }

  /** Such an escrow can be created: the program takes any recipient but the sender, and what is
      deposited for one that cannot act, with no cancel slot, never leaves. */
  lemma StrandedEscrow(p: Program, acts: Actors<Pubkey>, key: Key) returns (l: Ledger)
    requires acts(key.sender) && !acts(key.recipient) && p.rent + 1 < TWO_64
    ensures ReachableBy(p, acts, l) && key in l.accounts && l.accounts[key].amount == 1
    ensures forall txs: seq<Tx> | Issuable(acts, txs) :: key in Run(p, l, txs).accounts
  {
    hide Exec;
    l := OpenFromNothing(p, key, 1, Some(1), None, ZERO_WORD, 0);
    var start, open := Funded(p, key, 1, 0), Create(key.sender, key.recipient, key.id, 1, Some(1), None, ZERO_WORD);
    var txs := [Atomic([open])];
    assert txs[..0] == [] && [open][1..] == [];
    assert ExecAll(p, start, [open]) == Exec(p, start, open);
    assert Run(p, start, txs) == l;
    assert SignedBy(acts, open);
    assert Issuable(acts, txs);
    forall txs: seq<Tx> | Issuable(acts, txs) ensures key in Run(p, l, txs).accounts {
      StuckForever(p, acts, l, txs, key);
    }
  }
}
