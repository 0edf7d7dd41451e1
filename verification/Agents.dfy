/** The two agents side by side, as the client drives them with one set of parameters. */
module Agents {
  import opened Bytes
  import opened Settlement
  import E = EvmEscrow
  import S = SolanaEscrow

  /** The client's amount, of any size, its time locks and its condition. */
  datatype Params = Params(amount: nat, finishAfter: Option<U64>, cancelAfter: Option<U64>, condition: Digest)

  /** The Ethereum client sends an amount of up to 256 bits, and an absent lock as zero. */
  predicate EvmAccepts(p: Params, recipient: E.Account) {
    && p.amount < TWO_256
    && E.CreateGuard(p.amount, recipient, p.finishAfter.GetOr(0), p.cancelAfter.GetOr(0), p.condition).Pass?
  }

  /** The Solana client sends an amount of up to 64 bits, and the program wants distinct parties. */
  predicate SolanaAccepts<A(==)>(p: Params, sender: A, recipient: A) {
    && p.amount < TWO_64 && sender != recipient
    && S.CreateGuard(p.amount, p.finishAfter, p.cancelAfter, p.condition).Pass?
  }

  /** What the Ethereum agent will enforce for these parameters. */
  function EvmDeal<A>(p: Params, sender: A, recipient: A): Deal<A> {
    Deal(sender, recipient, p.amount, E.Lock(p.finishAfter.GetOr(0)), E.Lock(p.cancelAfter.GetOr(0)), p.condition)
  }

  /** What the Solana agent will enforce. */
  function SolanaDeal<A>(p: Params, sender: A, recipient: A): Deal<A> {
    Deal(sender, recipient, p.amount, p.finishAfter, p.cancelAfter, p.condition)
  }

  /** A zero lock on an unconditioned escrow that only one agent reads as "unset". */
  predicate ZeroLockClash(p: Params) {
    && p.amount > 0 && p.condition == ZERO_WORD
    && (|| (p.finishAfter == Some(0) && p.cancelAfter == None)
        || (p.cancelAfter == Some(0) && p.finishAfter.GetOr(0) > 0))
  }

  /** Where the two agents agree to create: for distinct parties and an amount below 2^64, on
      exactly the parameters without a zero-lock clash, in particular whenever neither lock is
      `Some(0)`; for equal parties or larger amounts, which only Solana refuses, on exactly the
      parameters Ethereum refuses as well. */
  lemma CreationRulesAgreeIff<A>(p: Params, account: E.Account, sender: A, recipient: A)
    ensures (EvmAccepts(p, account) <==> SolanaAccepts(p, sender, recipient)) <==>
            if sender != recipient && p.amount < TWO_64 then !ZeroLockClash(p) else !EvmAccepts(p, account)
    ensures p.finishAfter != Some(0) && p.cancelAfter != Some(0) ==> !ZeroLockClash(p)
  {
    if p.amount < TWO_64 {
      var f, c := p.finishAfter.GetOr(0), p.cancelAfter.GetOr(0);
      var solana := S.CreateGuard(p.amount, p.finishAfter, p.cancelAfter, p.condition).Pass?;
      if p.cancelAfter == Some(0) {
        assert !solana;
        assert EvmAccepts(p, account) <==> p.amount > 0 && f > 0 && p.condition == ZERO_WORD;
      } else if p.cancelAfter == None {
        assert solana <==> p.amount > 0 && p.finishAfter.Some? && p.condition == ZERO_WORD;
        assert EvmAccepts(p, account) <==> p.amount > 0 && f > 0 && p.condition == ZERO_WORD;
      } else {
        assert solana <==> p.amount > 0 && c > f;
        assert EvmAccepts(p, account) <==> p.amount > 0 && c > f;
      }
    }
  }

  /** The clashes are real: a zero lock in both directions of the client's mapping, and an amount
      only one chain can carry. */
  lemma ZeroLockClashes<A>(account: E.Account, sender: A, recipient: A)
    requires sender != recipient
    ensures var p := Params(1, Some(0), None, ZERO_WORD);
            SolanaAccepts(p, sender, recipient) && !EvmAccepts(p, account)
    ensures var p := Params(1, Some(7), Some(0), ZERO_WORD);
            !SolanaAccepts(p, sender, recipient) && EvmAccepts(p, account)
    ensures var p := Params(TWO_64, Some(7), Some(9), ZERO_WORD);
            !SolanaAccepts(p, sender, recipient) && EvmAccepts(p, account) && !ZeroLockClash(p)
  {
  }

  /** Whatever both agents accept, they settle alike: one amount, the same parties, the same
      finish and cancel windows at every block, the same need for a proof, the same exit. */
  lemma AgentsEnforceAlike<A>(p: Params, sender: A, recipient: A, account: E.Account, acts: Actors<A>, now: nat)
    requires EvmAccepts(p, account) && SolanaAccepts(p, sender, recipient)
    ensures var e, s := EvmDeal(p, sender, recipient), SolanaDeal(p, sender, recipient);
            && MayOpen(e) && MayOpen(s)
            && (FinishOpen(e, now) <==> FinishOpen(s, now))
            && (CancelOpen(e, now) <==> CancelOpen(s, now))
            && (e.Conditioned() <==> s.Conditioned())
            && (HasExit(acts, e) <==> HasExit(acts, s)) && ExitBlock(acts, e) == ExitBlock(acts, s)
            && (forall key: nat :: Exit(acts, key, e, now) == Exit(acts, key, s, now))
  {
  }
}
