/** The escrow machine both agents implement, as legal histories of openings, releases and
    refunds over any key and account types, with everything that holds of all of them. */
module Settlement {
  import opened Bytes

  /** The terms of one escrow. `condition` all-zero means no release proof is needed. */
  datatype Deal<A> = Deal(
    sender: A,
    recipient: A,
    amount: nat,
    finishAfter: Option<nat>,
    cancelAfter: Option<nat>,
    condition: Digest)
  {
    predicate Conditioned() {
      condition != ZERO_WORD
    }
  }

  /** What the chain records, with the block or slot it happened in. A release also records
      the seal and the journal it was accepted on. */
  datatype Event<K, A> =
    | Opened(at: nat, key: K, deal: Deal<A>)
    | Released(at: nat, key: K, to: A, amount: nat, seal: Bytes, journal: Bytes)
    | Refunded(at: nat, key: K, to: A, amount: nat)

  type History<K, A> = seq<Event<K, A>>

  /** Whether a seal and journal authorise releasing a conditioned deal in a given block. */
  type Auth<!K, !A> = (nat, K, Deal<A>, Bytes, Bytes) -> bool

  /** The creation rule: a positive amount, at least one time lock, a refund deadline whenever
      release needs a proof, and the finish window opening strictly before the refund. */
  predicate MayOpen<A>(d: Deal<A>) {
    && d.amount > 0
    && (d.finishAfter.Some? || d.cancelAfter.Some?)
    && (d.Conditioned() ==> d.cancelAfter.Some?)
    && (d.cancelAfter.Some? ==> d.cancelAfter.value > d.finishAfter.GetOr(0))
  }

  predicate FinishOpen<A>(d: Deal<A>, now: nat) {
    d.finishAfter.Some? ==> now >= d.finishAfter.value
  }

  predicate CancelOpen<A>(d: Deal<A>, now: nat) {
    d.cancelAfter.Some? && now >= d.cancelAfter.value
  }

  /** The settlement `e` is what the terms `d` allow: right payee, full amount, open window,
      and a proof when one is needed. */
  predicate Honours<K, A(==)>(auth: Auth<K, A>, d: Deal<A>, e: Event<K, A>) {
    match e
    case Opened(_, _, _) => false
    case Released(at, key, to, amount, seal, journal) =>
      && to == d.recipient && amount == d.amount && FinishOpen(d, at)
      && (d.Conditioned() ==> auth(at, key, d, seal, journal))
    case Refunded(at, _, to, amount) =>
      to == d.sender && amount == d.amount && CancelOpen(d, at)
  }

  type Live<K, A> = map<K, Deal<A>>

  predicate Legal<K, A(==)>(auth: Auth<K, A>, live: Live<K, A>, e: Event<K, A>) {
    if e.Opened? then e.key !in live && MayOpen(e.deal)
    else e.key in live && Honours(auth, live[e.key], e)
  }

  function After<K, A>(live: Live<K, A>, e: Event<K, A>): Live<K, A> {
    if e.Opened? then live[e.key := e.deal] else live - {e.key}
  }

  /** The deals still open after a history; `None` if some event in it was not allowed. */
  function Replay<K, A(==)>(auth: Auth<K, A>, h: History<K, A>): Option<Live<K, A>> {
    if h == [] then Some(map[])
    else
      var before := Replay(auth, h[..|h| - 1]);
      var e := h[|h| - 1];
      if before.Some? && Legal(auth, before.value, e) then Some(After(before.value, e)) else None
  }

  predicate Settles<K(==), A>(e: Event<K, A>, key: K) {
    !e.Opened? && e.key == key
  }

  // ---------------------------------------------------------------- sums over maps

  ghost function Sum<K>(m: map<K, nat>): nat
    decreases m.Keys
  {
    if m.Keys == {} then 0
    else
      var k :| k in m.Keys;
      m[k] + Sum(m - {k})
  }

  lemma {:induction false} SumRemove<K>(m: map<K, nat>, k: K)
    requires k in m
    ensures Sum(m) == m[k] + Sum(m - {k})
    decreases m.Keys
  {
    var x :| x in m.Keys && Sum(m) == m[x] + Sum(m - {x});
    if x != k {
      SumRemove(m - {x}, k);
      SumRemove(m - {k}, x);
      assert m - {x} - {k} == m - {k} - {x};
    }
  }

  lemma SumUpdate<K>(m: map<K, nat>, k: K, v: nat)
    ensures Sum(m[k := v]) == (if k in m then Sum(m) - m[k] else Sum(m)) + v
    ensures k in m ==> Sum(m) >= m[k]
  {
    SumRemove(m[k := v], k);
    assert m[k := v] - {k} == m - {k};
    if k in m {
      SumRemove(m, k);
    } else {
      assert m - {k} == m;
    }
  }

  function Amounts<K, A>(live: Live<K, A>): map<K, nat> {
    map k | k in live :: live[k].amount
  }

  /** The total still owed to somebody. */
  ghost function Held<K, A>(live: Live<K, A>): nat {
    Sum(Amounts(live))
  }

  lemma HeldOpen<K, A>(live: Live<K, A>, k: K, d: Deal<A>)
    requires k !in live
    ensures Held(live[k := d]) == Held(live) + d.amount
  {
    SumUpdate(Amounts(live), k, d.amount);
    assert Amounts(live[k := d]) == Amounts(live)[k := d.amount];
  }

  lemma HeldSettle<K, A>(live: Live<K, A>, k: K)
    requires k in live
    ensures Held(live) == live[k].amount + Held(live - {k})
  {
    SumRemove(Amounts(live), k);
    assert Amounts(live - {k}) == Amounts(live) - {k};
  }

  // ---------------------------------------------------------------- all legal histories

  function Deposited<K, A>(h: History<K, A>): nat {
    if h == [] then 0
    else
      var e := h[|h| - 1];
      Deposited(h[..|h| - 1]) + if e.Opened? then e.deal.amount else 0
  }

  function PaidOut<K, A>(h: History<K, A>): nat {
    if h == [] then 0
    else
      var e := h[|h| - 1];
      PaidOut(h[..|h| - 1]) + if e.Released? then e.amount else 0
  }

  function PaidBack<K, A>(h: History<K, A>): nat {
    if h == [] then 0
    else
      var e := h[|h| - 1];
      PaidBack(h[..|h| - 1]) + if e.Refunded? then e.amount else 0
  }

  /** Conservation: everything deposited is held, released or refunded. */
  lemma {:induction false} Conservation<K, A>(auth: Auth<K, A>, h: History<K, A>)
    requires Replay(auth, h).Some?
    ensures Deposited(h) == Held(Replay(auth, h).value) + PaidOut(h) + PaidBack(h)
  {
    if h == [] {
      assert Amounts<K, A>(map[]) == map[];
    } else {
      Conservation(auth, h[..|h| - 1]);
      var live, e := Replay(auth, h[..|h| - 1]).value, h[|h| - 1];
      if e.Opened? {
        HeldOpen(live, e.key, e.deal);
      } else {
        HeldSettle(live, e.key);
      }
    }
  }

  lemma {:induction false} ReplayPrefix<K, A>(auth: Auth<K, A>, h: History<K, A>, n: nat)
    requires n <= |h| && Replay(auth, h).Some?
    ensures Replay(auth, h[..n]).Some?
    ensures n < |h| ==> Legal(auth, Replay(auth, h[..n]).value, h[n])
    decreases |h|
  {
    if n < |h| {
      var front := h[..|h| - 1];
      if n < |front| {
        ReplayPrefix(auth, front, n);
        assert front[..n] == h[..n];
      }
    } else {
      assert h[..n] == h;
    }
  }

  /** Every open deal was opened by a legal opening, and nothing has touched its key since. */
  lemma {:induction false} OpenSince<K, A>(auth: Auth<K, A>, h: History<K, A>, k: K) returns (j: nat)
    requires Replay(auth, h).Some? && k in Replay(auth, h).value
    ensures j < |h| && h[j].Opened? && h[j].key == k
    ensures h[j].deal == Replay(auth, h).value[k] && MayOpen(h[j].deal)
    ensures forall m | j < m < |h| :: h[m].key != k
    decreases |h|
  {
    var e := h[|h| - 1];
    if e.key == k {
      j := |h| - 1;
    } else {
      j := OpenSince(auth, h[..|h| - 1], k);
    }
  }

  /** Every settlement honours the terms of the latest opening under its key, with nothing in
      between: the payout is the deposit, to the agreed party, in the agreed window. */
  lemma SettlementOrigin<K, A>(auth: Auth<K, A>, h: History<K, A>, i: nat) returns (j: nat)
    requires Replay(auth, h).Some? && i < |h| && !h[i].Opened?
    ensures j < i && h[j].Opened? && h[j].key == h[i].key && MayOpen(h[j].deal)
    ensures forall m | j < m < i :: h[m].key != h[i].key
    ensures Honours(auth, h[j].deal, h[i])
  {
    ReplayPrefix(auth, h, i);
    j := OpenSince(auth, h[..i], h[i].key);
    forall m | j < m < i ensures h[m].key != h[i].key {
      assert h[m] == h[..i][m];
    }
  }

  /** Between two settlements of one key there is a fresh opening of it. */
  lemma SettledOncePerOpening<K, A>(auth: Auth<K, A>, h: History<K, A>, i: nat, i': nat) returns (j: nat)
    requires Replay(auth, h).Some? && i < i' < |h|
    requires Settles(h[i], h[i'].key) && Settles(h[i'], h[i'].key)
    ensures i < j < i' && h[j].Opened? && h[j].key == h[i].key
  {
    j := SettlementOrigin(auth, h, i');
  }

  /** As long as refunds of an open deal are closed, the next thing to happen to its key is the
      release its terms allow, to its recipient. */
  lemma NextInWindow<K, A>(auth: Auth<K, A>, h: History<K, A>, later: History<K, A>, k: K, i: nat)
    requires Replay(auth, h).Some? && k in Replay(auth, h).value
    requires h <= later && Replay(auth, later).Some? && |h| <= i < |later| && later[i].key == k
    requires forall m | |h| <= m < i :: later[m].key != k
    requires !CancelOpen(Replay(auth, h).value[k], later[i].at)
    ensures later[i].Released? && later[i].to == Replay(auth, h).value[k].recipient
    ensures Honours(auth, Replay(auth, h).value[k], later[i])
  {
    ReplayPrefix(auth, later, i);
    var between := later[|h|..i];
    assert later[..i] == h + between;
    DealStands(auth, h, between, k);
  }

  /** The window counts blocks, not blocks after creation. Some of it is left for the recipient
      when the deal is opened exactly if it is opened before the cancel block. */
  lemma WindowLeftIff<A>(d: Deal<A>, openedAt: nat)
    requires MayOpen(d) && d.cancelAfter.Some?
    ensures (exists now: nat :: openedAt <= now && FinishOpen(d, now) && !CancelOpen(d, now))
            <==> openedAt < d.cancelAfter.value
  {
    if openedAt < d.cancelAfter.value {
      var finish := d.finishAfter.GetOr(0);
      var now := if openedAt < finish then finish else openedAt;
      assert openedAt <= now && FinishOpen(d, now) && !CancelOpen(d, now);
    }
  }

  /** A deal opened at or after its own cancel block leaves the recipient no exclusive block. */
  lemma LateOpeningHasNoWindow<A>(a: A, b: A)
    ensures var d := Deal(a, b, 1, None, Some(5), ZERO_WORD);
            && MayOpen(d)
            && forall now: nat | 9 <= now :: FinishOpen(d, now) ==> CancelOpen(d, now)
  {
  }

  /** Before the cancel block every settlement of a key goes to the recipient named at its
      latest opening; before the finish block there is none. */
  lemma NoSettlementOutsideWindow<K, A>(auth: Auth<K, A>, h: History<K, A>, i: nat) returns (j: nat)
    requires Replay(auth, h).Some? && i < |h| && !h[i].Opened?
    ensures j < i && h[j].Opened? && h[j].key == h[i].key
    ensures forall m | j < m < i :: h[m].key != h[i].key
    ensures h[i].at >= h[j].deal.finishAfter.GetOr(0)
    ensures h[j].deal.cancelAfter.None? || h[i].at < h[j].deal.cancelAfter.value
            ==> h[i].Released? && h[i].to == h[j].deal.recipient
  {
    j := SettlementOrigin(auth, h, i);
  }

  /** A key is open exactly if nothing has happened to it since it was last opened. */
  lemma {:induction false} OpenIff<K, A>(auth: Auth<K, A>, h: History<K, A>, k: K)
    requires Replay(auth, h).Some?
    ensures k in Replay(auth, h).value <==>
            exists j: nat :: j < |h| && h[j].Opened? && h[j].key == k && forall m | j < m < |h| :: h[m].key != k
    decreases |h|
  {
    if k in Replay(auth, h).value {
      var j := OpenSince(auth, h, k);
    } else if j: nat :| j < |h| && h[j].Opened? && h[j].key == k && forall m | j < m < |h| :: h[m].key != k {
      var front := h[..|h| - 1];
      if j < |front| {
        OpenIff(auth, front, k);
      }
      assert false;
    }
  }

  // ---------------------------------------------------------------- a way out for every deal

  /** The accounts that can act: whose holders, or whose code, can call or sign. */
  type Actors<!A> = A -> bool

  /** A deal exits by refund if releasing it takes a proof or a recipient who cannot act. */
  predicate ExitsByRefund<A>(acts: Actors<A>, d: Deal<A>) {
    d.Conditioned() || !acts(d.recipient)
  }

  /** Checkable before opening: the recipient can act, or the deal can be cancelled. */
  predicate HasExit<A>(acts: Actors<A>, d: Deal<A>) {
    acts(d.recipient) || d.cancelAfter.Some?
  }

  /** From this block on a deal with an exit can be settled without any proof. */
  function ExitBlock<A>(acts: Actors<A>, d: Deal<A>): nat {
    if ExitsByRefund(acts, d) then d.cancelAfter.GetOr(0) else d.finishAfter.GetOr(0)
  }

  function Exit<K, A>(acts: Actors<A>, key: K, d: Deal<A>, now: nat): Event<K, A> {
    if ExitsByRefund(acts, d) then Refunded(now, key, d.sender, d.amount)
    else Released(now, key, d.recipient, d.amount, [], [])
  }

  /** No event on other keys, and no failed attempt, changes an open deal. */
  lemma {:induction false} DealStands<K, A>(auth: Auth<K, A>, h: History<K, A>, more: History<K, A>, k: K)
    requires Replay(auth, h).Some? && k in Replay(auth, h).value
    requires Replay(auth, h + more).Some?
    requires forall e | e in more :: !Settles(e, k)
    ensures k in Replay(auth, h + more).value
    ensures Replay(auth, h + more).value[k] == Replay(auth, h).value[k]
    decreases |more|
  {
    if more == [] {
      assert h + more == h;
    } else {
      var front, e := more[..|more| - 1], more[|more| - 1];
      assert (h + more)[..|h + more| - 1] == h + front;
      assert e in more;
      DealStands(auth, h, front, k);
    }
  }

  /** No stranded funds: whatever legal events follow, an open deal with an exit keeps its terms
      until it is settled, and from its exit block on the proofless exit, for the deposited amount,
      is always among the next legal events. */
  lemma ExitAlwaysOpens<K, A>(acts: Actors<A>, auth: Auth<K, A>, h: History<K, A>, more: History<K, A>, k: K, now: nat)
    requires Replay(auth, h).Some? && k in Replay(auth, h).value
    requires Replay(auth, h + more).Some?
    requires forall e | e in more :: !Settles(e, k)
    requires HasExit(acts, Replay(auth, h).value[k]) && now >= ExitBlock(acts, Replay(auth, h).value[k])
    ensures var exit := Exit(acts, k, Replay(auth, h).value[k], now);
            Replay(auth, h + more + [exit]) == Some(Replay(auth, h + more).value - {k})
  {
    DealStands(auth, h, more, k);
    var live := Replay(auth, h + more).value;
    var j := OpenSince(auth, h + more, k);
    var h' := h + more + [Exit(acts, k, live[k], now)];
    assert h'[..|h'| - 1] == h + more;
  }
}
