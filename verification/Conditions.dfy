/** Release conditions: trees of hashlocks, signatures and k-of-n thresholds. What it means for
    a tree to verify, and what its 32-byte commitment binds. */
module Conditions {
  import opened Bytes

  datatype Condition =
    | Hashlock(hash: Digest, preimage: Bytes)
    | Ed25519(publicKey: Digest, signature: Bytes, message: Bytes)
    | Secp256k1(secKey: Bytes, signature: Bytes, message: Bytes)
    | Threshold(threshold: nat, subconditions: seq<Condition>)

  /** The primitives a condition is checked with. The signature predicates take the key, the
      message and the signature, and stand for parsing and checking together. */
  datatype Crypto = Crypto(
    sha256: HashFn,
    ed25519: (Digest, Bytes, Bytes) -> bool,
    secp256k1: (Bytes, Bytes, Bytes) -> bool)

  datatype ThresholdError =
    | ZeroThreshold
    | ThresholdUnsatisfiable(required: nat, available: nat)
    | ThresholdNotMet(required: nat, satisfied: nat)

  datatype ConditionError =
    | HashlockMismatch
    | Ed25519Rejected
    | Secp256k1Rejected
    | ThresholdFailed(reason: ThresholdError)

  function Verify(crypto: Crypto, c: Condition): Result<(), ConditionError>
    decreases c, 1
  {
    match c
    case Hashlock(hash, preimage) =>
      if crypto.sha256(preimage) == hash then Ok(()) else Err(HashlockMismatch)
    case Ed25519(key, signature, message) =>
      if crypto.ed25519(key, message, signature) then Ok(()) else Err(Ed25519Rejected)
    case Secp256k1(key, signature, message) =>
      if crypto.secp256k1(key, message, signature) then Ok(()) else Err(Secp256k1Rejected)
    case Threshold(required, subs) =>
      if required == 0 then Err(ThresholdFailed(ZeroThreshold))
      else if required > |subs| then Err(ThresholdFailed(ThresholdUnsatisfiable(required, |subs|)))
      else
        var satisfied := CountSatisfied(crypto, subs);
        if satisfied >= required then Ok(())
        else Err(ThresholdFailed(ThresholdNotMet(required, satisfied)))
  }

  function CountSatisfied(crypto: Crypto, subs: seq<Condition>): (n: nat)
    ensures n <= |subs|
    decreases subs, 0
  {
    if subs == [] then 0
    else (if Verify(crypto, subs[0]).Ok? then 1 else 0) + CountSatisfied(crypto, subs[1..])
  }

  // ---------------------------------------------------------------- meaning of verification

  /** The intended meaning: a threshold holds when some set of exactly `k` distinct children,
      `0 < k <= n`, all hold. */
  ghost predicate Satisfied(crypto: Crypto, c: Condition)
    decreases c, 1
  {
    match c
    case Hashlock(hash, preimage) => crypto.sha256(preimage) == hash
    case Ed25519(key, signature, message) => crypto.ed25519(key, message, signature)
    case Secp256k1(key, signature, message) => crypto.secp256k1(key, message, signature)
    case Threshold(required, subs) =>
      && 0 < required <= |subs|
      && exists chosen: set<nat> :: |chosen| == required && AllSatisfied(crypto, subs, chosen)
  }

  ghost predicate AllSatisfied(crypto: Crypto, subs: seq<Condition>, chosen: set<nat>)
    decreases subs, 0
  {
    forall i: nat | i in chosen :: i < |subs| && Satisfied(crypto, subs[i])
  }

  function Passing(crypto: Crypto, subs: seq<Condition>): set<nat> {
    set i: nat | i < |subs| && Verify(crypto, subs[i]).Ok?
  }

  lemma {:induction false} CountAppend(crypto: Crypto, subs: seq<Condition>, c: Condition)
    ensures CountSatisfied(crypto, subs + [c]) ==
            CountSatisfied(crypto, subs) + if Verify(crypto, c).Ok? then 1 else 0
    decreases |subs|
  {
    if subs == [] {
      assert ([] + [c])[1..] == [];
    } else {
      CountAppend(crypto, subs[1..], c);
      assert (subs + [c])[1..] == subs[1..] + [c];
    }
  }

  lemma PassingAppend(crypto: Crypto, subs: seq<Condition>, c: Condition)
    ensures Passing(crypto, subs + [c]) ==
            Passing(crypto, subs) + if Verify(crypto, c).Ok? then {|subs|} else {}
  {
  }

  lemma {:induction false} CountIsCardinality(crypto: Crypto, subs: seq<Condition>)
    ensures CountSatisfied(crypto, subs) == |Passing(crypto, subs)|
    decreases |subs|
  {
    if subs != [] {
      var front, last := subs[..|subs| - 1], subs[|subs| - 1];
      CountIsCardinality(crypto, front);
      CountAppend(crypto, front, last);
      PassingAppend(crypto, front, last);
      assert subs == front + [last];
    }
  }

  lemma SubsetCardinality(a: set<nat>, b: set<nat>)
    requires a <= b
    ensures |a| <= |b|
  {
    assert b == a + (b - a);
  }

  lemma {:induction false} TakeSubset(s: set<nat>, k: nat) returns (t: set<nat>)
    requires k <= |s|
    ensures t <= s && |t| == k
    decreases |s| - k
  {
    if k == |s| {
      t := s;
    } else {
      var x :| x in s;
      t := TakeSubset(s - {x}, k);
    }
  }

  /** Verification succeeds exactly when the condition is satisfied, at every depth. */
  lemma {:induction false} VerifyMeansSatisfied(crypto: Crypto, c: Condition)
    ensures Verify(crypto, c).Ok? <==> Satisfied(crypto, c)
    decreases c
  {
    if c.Threshold? && 0 < c.threshold <= |c.subconditions| {
      var subs := c.subconditions;
      forall i: nat | i < |subs| ensures Verify(crypto, subs[i]).Ok? <==> Satisfied(crypto, subs[i]) {
        VerifyMeansSatisfied(crypto, subs[i]);
      }
      CountIsCardinality(crypto, subs);
      var passing := Passing(crypto, subs);
      if Verify(crypto, c).Ok? {
        var chosen := TakeSubset(passing, c.threshold);
        assert AllSatisfied(crypto, subs, chosen);
      }
      if Satisfied(crypto, c) {
        var chosen: set<nat> :| |chosen| == c.threshold && AllSatisfied(crypto, subs, chosen);
        SubsetCardinality(chosen, passing);
      }
    }
  }

  /** Which error a threshold fails with, and the counts it reports. */
  lemma ThresholdErrors(crypto: Crypto, required: nat, subs: seq<Condition>)
    ensures var passing := |Passing(crypto, subs)|;
            Verify(crypto, Threshold(required, subs)) ==
            if required == 0 then Err(ThresholdFailed(ZeroThreshold))
            else if |subs| < required then Err(ThresholdFailed(ThresholdUnsatisfiable(required, |subs|)))
            else if passing < required then Err(ThresholdFailed(ThresholdNotMet(required, passing)))
            else Ok(())
  {
    CountIsCardinality(crypto, subs);
  }

  /** Which error a leaf that does not hold fails with. */
  lemma LeafErrors(crypto: Crypto, c: Condition)
    requires !c.Threshold?
    ensures Verify(crypto, c) ==
            if Satisfied(crypto, c) then Ok(())
            else Err(if c.Hashlock? then HashlockMismatch else if c.Ed25519? then Ed25519Rejected
                     else Secp256k1Rejected)
  {
  }

  /** `b` is `a` with, at most, failing leaves replaced by verifying ones. */
  ghost predicate NoWorse(crypto: Crypto, a: Condition, b: Condition)
    decreases a
  {
    if a.Threshold? && b.Threshold? then
      && a.threshold == b.threshold
      && |a.subconditions| == |b.subconditions|
      && forall i | 0 <= i < |a.subconditions| ::
           NoWorse(crypto, a.subconditions[i], b.subconditions[i])
    else
      && !a.Threshold? && !b.Threshold?
      && (Verify(crypto, a).Ok? ==> Verify(crypto, b).Ok?)
  }

  /** Repairing leaves never turns success into failure. */
  lemma {:induction false} VerifyMonotone(crypto: Crypto, a: Condition, b: Condition)
    requires NoWorse(crypto, a, b)
    requires Verify(crypto, a).Ok?
    ensures Verify(crypto, b).Ok?
    decreases a
  {
    if a.Threshold? {
      CountIsCardinality(crypto, a.subconditions);
      CountIsCardinality(crypto, b.subconditions);
      var pa, pb := Passing(crypto, a.subconditions), Passing(crypto, b.subconditions);
      forall i | i in pa ensures i in pb {
        VerifyMonotone(crypto, a.subconditions[i], b.subconditions[i]);
      }
      SubsetCardinality(pa, pb);
    }
  }

  // ---------------------------------------------------------------- commitment

  const HASHLOCK_DOMAIN := Ascii("ZESCROW_COND_HASHLOCK_V1")
  const ED25519_DOMAIN := Ascii("ZESCROW_COND_ED25519_V1")
  const SECP256K1_DOMAIN := Ascii("ZESCROW_COND_SECP256K1_V1")
  const THRESHOLD_DOMAIN := Ascii("ZESCROW_COND_THRESHOLD_V1")

  const U32_MAX: nat := TWO_32 - 1

  function SaturatingU32(value: nat): (r: nat)
    ensures r < TWO_32 && (r == value || r == U32_MAX < value)
  {
    if value <= U32_MAX then value else U32_MAX
  }

  /** The bytes fed to SHA-256 for one node; children contribute their own commitments. */
  function Preimage(h: HashFn, c: Condition): Bytes
    decreases c, 1
  {
    match c
    case Hashlock(hash, _) => HASHLOCK_DOMAIN + hash
    case Ed25519(key, _, message) => ED25519_DOMAIN + key + message
    case Secp256k1(key, _, message) => SECP256K1_DOMAIN + key + message
    case Threshold(required, subs) =>
      THRESHOLD_DOMAIN + ToBE(SaturatingU32(required), 4) + ToBE(SaturatingU32(|subs|), 4)
      + SubCommitments(h, subs)
  }

  function SubCommitments(h: HashFn, subs: seq<Condition>): (r: Bytes)
    ensures |r| == 32 * |subs|
    decreases subs, 0
  {
    if subs == [] then [] else h(Preimage(h, subs[0])) + SubCommitments(h, subs[1..])
  }

  function Commitment(h: HashFn, c: Condition): Digest {
    h(Preimage(h, c))
  }

  /** A SHA-256 state fed piece by piece. */
  class Hasher {
    var fed: Bytes

    constructor ()
      ensures fed == []
    {
      fed := [];
    }

    method Update(data: Bytes)
      modifies this
      ensures fed == old(fed) + data
    {
      fed := fed + data;
    }

    method Finalize(h: HashFn) returns (digest: Digest)
      ensures digest == h(fed)
    {
      digest := h(fed);
    }
  }

  lemma {:induction false} SubCommitmentsAppend(h: HashFn, subs: seq<Condition>, c: Condition)
    ensures SubCommitments(h, subs + [c]) == SubCommitments(h, subs) + Commitment(h, c)
    decreases |subs|
  {
    if subs == [] {
      assert SubCommitments(h, [c]) == Commitment(h, c) + SubCommitments(h, [c][1..]);
    } else {
      SubCommitmentsAppend(h, subs[1..], c);
      assert (subs + [c])[1..] == subs[1..] + [c];
    }
  }

  /** The commitment as the program computes it, streaming every field into one hasher per
      node. */
  method ComputeCommitment(h: HashFn, c: Condition) returns (digest: Digest)
    ensures digest == Commitment(h, c)
    decreases c, 1
  {
    var hasher := new Hasher();
    match c {
      case Hashlock(hash, _) =>
        hasher.Update(HASHLOCK_DOMAIN);
        assert hasher.fed == HASHLOCK_DOMAIN;
        hasher.Update(hash);
      case Ed25519(key, _, message) =>
        hasher.Update(ED25519_DOMAIN);
        assert hasher.fed == ED25519_DOMAIN;
        hasher.Update(key);
        hasher.Update(message);
      case Secp256k1(key, _, message) =>
        hasher.Update(SECP256K1_DOMAIN);
        assert hasher.fed == SECP256K1_DOMAIN;
        hasher.Update(key);
        hasher.Update(message);
      case Threshold(required, subs) =>
        hasher.Update(THRESHOLD_DOMAIN);
        assert hasher.fed == THRESHOLD_DOMAIN;
        hasher.Update(ToBE(SaturatingU32(required), 4));
        hasher.Update(ToBE(SaturatingU32(|subs|), 4));
        FeedChildren(h, hasher, subs);
    }
    digest := hasher.Finalize(h);
  }

  /** The loop over the children of a threshold. */
  method FeedChildren(h: HashFn, hasher: Hasher, subs: seq<Condition>)
    modifies hasher
    ensures hasher.fed == old(hasher.fed) + SubCommitments(h, subs)
    decreases subs, 0
  {
    for i := 0 to |subs|
      invariant hasher.fed == old(hasher.fed) + SubCommitments(h, subs[..i])
    {
      var sub := ComputeCommitment(h, subs[i]);
      hasher.Update(sub);
      SubCommitmentsAppend(h, subs[..i], subs[i]);
      assert subs[..i + 1] == subs[..i] + [subs[i]];
    }
    assert subs[..|subs|] == subs;
  }

  // ---------------------------------------------------------------- the hashed bytes

  lemma HashlockDomainBytes()
    ensures HASHLOCK_DOMAIN ==
            [90, 69, 83, 67, 82, 79, 87, 95, 67, 79, 78, 68, 95, 72, 65, 83, 72, 76, 79, 67, 75, 95, 86, 49]
  {
  }

  lemma Ed25519DomainBytes()
    ensures ED25519_DOMAIN ==
            [90, 69, 83, 67, 82, 79, 87, 95, 67, 79, 78, 68, 95, 69, 68, 50, 53, 53, 49, 57, 95, 86, 49]
  {
  }

  lemma Secp256k1DomainBytes()
    ensures SECP256K1_DOMAIN ==
            [90, 69, 83, 67, 82, 79, 87, 95, 67, 79, 78, 68, 95, 83, 69, 67, 80, 50, 53, 54, 75, 49, 95, 86, 49]
  {
  }

  lemma ThresholdDomainBytes()
    ensures THRESHOLD_DOMAIN ==
            [90, 69, 83, 67, 82, 79, 87, 95, 67, 79, 78, 68, 95, 84, 72, 82, 69, 83, 72, 79, 76, 68, 95, 86, 49]
  {
  }

  /** A leaf is the digest of its whole domain tag, then its key or hash, then its message. */
  lemma LeafLayout(h: HashFn, word: Digest, key: Bytes, message: Bytes, secret: Bytes)
    ensures Commitment(h, Hashlock(word, secret)) ==
            h([90, 69, 83, 67, 82, 79, 87, 95, 67, 79, 78, 68, 95, 72, 65, 83, 72, 76, 79, 67, 75, 95, 86, 49] + word)
    ensures Commitment(h, Ed25519(word, secret, message)) ==
            h([90, 69, 83, 67, 82, 79, 87, 95, 67, 79, 78, 68, 95, 69, 68, 50, 53, 53, 49, 57, 95, 86, 49]
              + word + message)
    ensures Commitment(h, Secp256k1(key, secret, message)) ==
            h([90, 69, 83, 67, 82, 79, 87, 95, 67, 79, 78, 68, 95, 83, 69, 67, 80, 50, 53, 54, 75, 49, 95, 86, 49]
              + key + message)
  {
    HashlockDomainBytes();
    Ed25519DomainBytes();
    Secp256k1DomainBytes();
  }

  lemma {:induction false} SubCommitmentAt(h: HashFn, subs: seq<Condition>, i: nat)
    requires i < |subs|
    ensures SubCommitments(h, subs)[32 * i..32 * i + 32] == Commitment(h, subs[i])
    decreases i
  {
    var first: Bytes, rest: Bytes := Commitment(h, subs[0]), SubCommitments(h, subs[1..]);
    if i == 0 {
      assert (first + rest)[..32] == first;
    } else {
      SubCommitmentAt(h, subs[1..], i - 1);
      assert (first + rest)[32 * i..32 * i + 32] == rest[32 * (i - 1)..32 * (i - 1) + 32];
    }
  }

  /** A threshold is the digest of its whole domain tag, the required number and the number of
      children in four big-endian bytes each, capped at `u32::MAX`, and every child's commitment in
      its place. */
  lemma ThresholdLayout(h: HashFn, required: nat, subs: seq<Condition>) returns (b: Bytes)
    ensures Commitment(h, Threshold(required, subs)) == h(b)
    ensures |b| == 33 + 32 * |subs|
    ensures b[..25] ==
            [90, 69, 83, 67, 82, 79, 87, 95, 67, 79, 78, 68, 95, 84, 72, 82, 69, 83, 72, 79, 76, 68, 95, 86, 49]
    ensures FromBE(b[25..29]) == if required < TWO_32 then required else TWO_32 - 1
    ensures FromBE(b[29..33]) == if |subs| < TWO_32 then |subs| else TWO_32 - 1
    ensures forall i: nat | i < |subs| :: b[33 + 32 * i..65 + 32 * i] == Commitment(h, subs[i])
  {
    ThresholdDomainBytes();
    Pow256Constants();
    var k, n := SaturatingU32(required), SaturatingU32(|subs|);
    FromToBE(k, 4);
    FromToBE(n, 4);
    var domain, children := THRESHOLD_DOMAIN, SubCommitments(h, subs);
    b := Preimage(h, Threshold(required, subs));
    assert b == domain + ToBE(k, 4) + ToBE(n, 4) + children;
    assert b[25..29] == ToBE(k, 4) && b[29..33] == ToBE(n, 4) && b[33..] == children;
    forall i: nat | i < |subs| ensures b[33 + 32 * i..65 + 32 * i] == Commitment(h, subs[i]) {
      SubCommitmentAt(h, subs, i);
      assert b[33 + 32 * i..65 + 32 * i] == children[32 * i..32 * i + 32];
    }
  }

  // ---------------------------------------------------------------- what a commitment binds

  /** The condition with every secret witness removed. */
  function Statement(c: Condition): Condition
    decreases c, 1
  {
    match c
    case Hashlock(hash, _) => Hashlock(hash, [])
    case Ed25519(key, _, message) => Ed25519(key, [], message)
    case Secp256k1(key, _, message) => Secp256k1(key, [], message)
    case Threshold(required, subs) => Threshold(required, Statements(subs))
  }

  function Statements(subs: seq<Condition>): (r: seq<Condition>)
    ensures |r| == |subs|
    decreases subs, 0
  {
    if subs == [] then [] else [Statement(subs[0])] + Statements(subs[1..])
  }

  /** What the hashed bytes determine: the statement, with a secp256k1 key and message run
      together and a threshold count capped at `u32::MAX`. */
  function Bound(c: Condition): Condition
    decreases c, 1
  {
    match c
    case Hashlock(hash, _) => Hashlock(hash, [])
    case Ed25519(key, _, message) => Ed25519(key, [], message)
    case Secp256k1(key, _, message) => Secp256k1([], [], key + message)
    case Threshold(required, subs) => Threshold(SaturatingU32(required), BoundAll(subs))
  }

  function BoundAll(subs: seq<Condition>): (r: seq<Condition>)
    ensures |r| == |subs|
    decreases subs, 0
  {
    if subs == [] then [] else [Bound(subs[0])] + BoundAll(subs[1..])
  }

  /** Searches two trees, node against node, for two different preimages. */
  function FindCollision(h: HashFn, a: Condition, b: Condition): Option<(Bytes, Bytes)>
    decreases a, 1
  {
    if Preimage(h, a) != Preimage(h, b) then Some((Preimage(h, a), Preimage(h, b)))
    else if a.Threshold? && b.Threshold? then FindCollisionAmong(h, a.subconditions, b.subconditions)
    else None
  }

  function FindCollisionAmong(h: HashFn, a: seq<Condition>, b: seq<Condition>): Option<(Bytes, Bytes)>
    decreases a, 0
  {
    if a == [] || b == [] then None
    else
      var first := FindCollision(h, a[0], b[0]);
      if first.Some? then first else FindCollisionAmong(h, a[1..], b[1..])
  }

  lemma DomainsDiffer()
    ensures |HASHLOCK_DOMAIN| == 24 && |ED25519_DOMAIN| == 23
    ensures |SECP256K1_DOMAIN| == 25 && |THRESHOLD_DOMAIN| == 25
    ensures HASHLOCK_DOMAIN[13] == 72 && ED25519_DOMAIN[13] == 69
    ensures SECP256K1_DOMAIN[13] == 83 && THRESHOLD_DOMAIN[13] == 84
  {
    assert "ZESCROW_COND_HASHLOCK_V1"[13] == 'H';
    assert "ZESCROW_COND_ED25519_V1"[13] == 'E';
    assert "ZESCROW_COND_SECP256K1_V1"[13] == 'S';
    assert "ZESCROW_COND_THRESHOLD_V1"[13] == 'T';
  }

  /** One hashed string belongs to one kind of node. */
  lemma PreimageKind(h: HashFn, c: Condition)
    ensures |Preimage(h, c)| > 13
    ensures Preimage(h, c)[13] ==
            if c.Hashlock? then 72 else if c.Ed25519? then 69 else if c.Secp256k1? then 83 else 84
  {
    DomainsDiffer();
  }

  lemma SplitEqual(a: Bytes, b: Bytes, x: Bytes, y: Bytes)
    requires |a| == |b| && a + x == b + y
    ensures a == b && x == y
  {
    assert a == (a + x)[..|a|] && b == (b + y)[..|b|];
    assert x == (a + x)[|a|..] && y == (b + y)[|b|..];
  }

  /** Equal leaf or threshold preimages give equal bound fields at this node. */
  lemma PreimageFields(h: HashFn, a: Condition, b: Condition)
    requires Preimage(h, a) == Preimage(h, b)
    ensures a.Hashlock? ==> b.Hashlock? && a.hash == b.hash
    ensures a.Ed25519? ==> b.Ed25519? && a.publicKey == b.publicKey && a.message == b.message
    ensures a.Secp256k1? ==> b.Secp256k1? && a.secKey + a.message == b.secKey + b.message
    ensures a.Threshold? ==>
              && b.Threshold?
              && SaturatingU32(a.threshold) == SaturatingU32(b.threshold)
              && SubCommitments(h, a.subconditions) == SubCommitments(h, b.subconditions)
  {
    PreimageKind(h, a);
    PreimageKind(h, b);
    match a {
      case Hashlock(_, _) =>
        SplitEqual(HASHLOCK_DOMAIN, HASHLOCK_DOMAIN, a.hash, b.hash);
      case Ed25519(_, _, _) =>
        SplitEqual(ED25519_DOMAIN + a.publicKey, ED25519_DOMAIN + b.publicKey, a.message, b.message);
        SplitEqual(ED25519_DOMAIN, ED25519_DOMAIN, a.publicKey, b.publicKey);
      case Secp256k1(_, _, _) =>
        assert SECP256K1_DOMAIN + a.secKey + a.message == SECP256K1_DOMAIN + (a.secKey + a.message);
        assert SECP256K1_DOMAIN + b.secKey + b.message == SECP256K1_DOMAIN + (b.secKey + b.message);
        SplitEqual(SECP256K1_DOMAIN, SECP256K1_DOMAIN, a.secKey + a.message, b.secKey + b.message);
      case Threshold(_, _) =>
        ThresholdPreimageFields(h, a, b);
    }
  }

  lemma ThresholdPreimageFields(h: HashFn, a: Condition, b: Condition)
    requires a.Threshold? && b.Threshold?
    requires Preimage(h, a) == Preimage(h, b)
    ensures SaturatingU32(a.threshold) == SaturatingU32(b.threshold)
    ensures SubCommitments(h, a.subconditions) == SubCommitments(h, b.subconditions)
  {
    var ka, kb := ToBE(SaturatingU32(a.threshold), 4), ToBE(SaturatingU32(b.threshold), 4);
    var na, nb := ToBE(SaturatingU32(|a.subconditions|), 4), ToBE(SaturatingU32(|b.subconditions|), 4);
    var sa, sb := SubCommitments(h, a.subconditions), SubCommitments(h, b.subconditions);
    SplitEqual(THRESHOLD_DOMAIN + ka + na, THRESHOLD_DOMAIN + kb + nb, sa, sb);
    SplitEqual(THRESHOLD_DOMAIN + ka, THRESHOLD_DOMAIN + kb, na, nb);
    SplitEqual(THRESHOLD_DOMAIN, THRESHOLD_DOMAIN, ka, kb);
    Pow256Constants();
    FromToBE(SaturatingU32(a.threshold), 4);
    FromToBE(SaturatingU32(b.threshold), 4);
  }

  /** Equal commitments bind equal statements, up to what the hashed bytes can tell apart, or
      the search returns two distinct strings with one digest. */
  lemma {:induction false} CommitmentBinds(h: HashFn, a: Condition, b: Condition)
    requires Commitment(h, a) == Commitment(h, b)
    ensures var found := FindCollision(h, a, b);
            if found.Some? then Collision(h, found.value.0, found.value.1) else Bound(a) == Bound(b)
    decreases a, 1
  {
    if Preimage(h, a) == Preimage(h, b) {
      PreimageFields(h, a, b);
      if a.Threshold? {
        CommitmentsBind(h, a.subconditions, b.subconditions);
      }
    }
  }

  lemma {:induction false} CommitmentsBind(h: HashFn, a: seq<Condition>, b: seq<Condition>)
    requires SubCommitments(h, a) == SubCommitments(h, b)
    ensures var found := FindCollisionAmong(h, a, b);
            if found.Some? then Collision(h, found.value.0, found.value.1) else BoundAll(a) == BoundAll(b)
    decreases a, 0
  {
    assert 32 * |a| == 32 * |b|;
    if a != [] {
      SplitEqual(Commitment(h, a[0]), Commitment(h, b[0]), SubCommitments(h, a[1..]), SubCommitments(h, b[1..]));
      CommitmentBinds(h, a[0], b[0]);
      if FindCollision(h, a[0], b[0]).None? {
        CommitmentsBind(h, a[1..], b[1..]);
      }
    }
  }

  /** The converse: nothing outside the bound part enters the commitment. */
  lemma {:induction false} BoundDeterminesPreimage(h: HashFn, a: Condition, b: Condition)
    requires Bound(a) == Bound(b)
    ensures Preimage(h, a) == Preimage(h, b)
    decreases a, 1
  {
    match a {
      case Hashlock(_, _) =>
      case Ed25519(_, _, _) =>
      case Secp256k1(_, _, _) =>
        assert SECP256K1_DOMAIN + a.secKey + a.message == SECP256K1_DOMAIN + (a.secKey + a.message);
        assert SECP256K1_DOMAIN + b.secKey + b.message == SECP256K1_DOMAIN + (b.secKey + b.message);
      case Threshold(_, _) =>
        BoundsDetermineSubCommitments(h, a.subconditions, b.subconditions);
    }
  }

  lemma {:induction false} BoundsDetermineSubCommitments(h: HashFn, a: seq<Condition>, b: seq<Condition>)
    requires BoundAll(a) == BoundAll(b)
    ensures |a| == |b| && SubCommitments(h, a) == SubCommitments(h, b)
    decreases a, 0
  {
    assert |a| == |b|;
    if a != [] {
      assert BoundAll(a)[0] == BoundAll(b)[0] && BoundAll(a)[1..] == BoundAll(b)[1..];
      BoundDeterminesPreimage(h, a[0], b[0]);
      BoundsDetermineSubCommitments(h, a[1..], b[1..]);
    }
  }

  /** Statements determine bounds, so two trees that differ only in witnesses, anywhere,
      commit alike. */
  lemma {:induction false} StatementDeterminesBound(a: Condition)
    ensures Bound(Statement(a)) == Bound(a)
    decreases a, 1
  {
    if a.Threshold? {
      StatementsDetermineBounds(a.subconditions);
    }
  }

  lemma {:induction false} StatementsDetermineBounds(a: seq<Condition>)
    ensures BoundAll(Statements(a)) == BoundAll(a)
    decreases a, 0
  {
    if a != [] {
      StatementDeterminesBound(a[0]);
      StatementsDetermineBounds(a[1..]);
      assert Statements(a)[1..] == Statements(a[1..]);
    }
  }

  lemma WitnessesDoNotMatter(h: HashFn, a: Condition, b: Condition)
    requires Statement(a) == Statement(b)
    ensures Commitment(h, a) == Commitment(h, b)
  {
    StatementDeterminesBound(a);
    StatementDeterminesBound(b);
    BoundDeterminesPreimage(h, a, b);
  }

  /** SEC 1 v2.0, sections 2.3.3 and 2.3.4: the first byte of an encoded point fixes its
      length, 33 bytes compressed and 65 uncompressed. */
  predicate Sec1Key(key: Bytes) {
    key != [] && ((key[0] in {2, 3} && |key| == 33) || (key[0] == 4 && |key| == 65))
  }

  /** Every secp256k1 key is in SEC 1 form and every threshold fits 32 bits. */
  predicate WellFormed(c: Condition)
    decreases c, 1
  {
    match c
    case Hashlock(_, _) => true
    case Ed25519(_, _, _) => true
    case Secp256k1(key, _, _) => Sec1Key(key)
    case Threshold(required, subs) => required <= U32_MAX && AllWellFormed(subs)
  }

  predicate AllWellFormed(subs: seq<Condition>)
    decreases subs, 0
  {
    subs == [] || (WellFormed(subs[0]) && AllWellFormed(subs[1..]))
  }

  lemma {:induction false} BoundDeterminesStatement(a: Condition, b: Condition)
    requires WellFormed(a) && WellFormed(b)
    requires Bound(a) == Bound(b)
    ensures Statement(a) == Statement(b)
    decreases a, 1
  {
    if a.Secp256k1? {
      assert a.secKey[0] == (a.secKey + a.message)[0] == b.secKey[0];
      SplitEqual(a.secKey, b.secKey, a.message, b.message);
    } else if a.Threshold? {
      BoundsDetermineStatements(a.subconditions, b.subconditions);
    }
  }

  lemma {:induction false} BoundsDetermineStatements(a: seq<Condition>, b: seq<Condition>)
    requires AllWellFormed(a) && AllWellFormed(b)
    requires BoundAll(a) == BoundAll(b)
    ensures Statements(a) == Statements(b)
    decreases a, 0
  {
    assert |a| == |b|;
    if a != [] {
      assert BoundAll(a)[0] == BoundAll(b)[0] && BoundAll(a)[1..] == BoundAll(b)[1..];
      BoundDeterminesStatement(a[0], b[0]);
      BoundsDetermineStatements(a[1..], b[1..]);
    }
  }

  /** For well-formed trees of any depth the commitment identifies the statement: the same
      statement exactly when the same commitment, or else an explicit collision. */
  lemma CommitmentIdentifiesStatement(h: HashFn, a: Condition, b: Condition)
    requires WellFormed(a) && WellFormed(b)
    ensures var found := FindCollision(h, a, b);
            || (Commitment(h, a) == Commitment(h, b) <==> Statement(a) == Statement(b))
            || (found.Some? && Collision(h, found.value.0, found.value.1))
  {
    if Commitment(h, a) == Commitment(h, b) {
      CommitmentBinds(h, a, b);
      if FindCollision(h, a, b).None? {
        BoundDeterminesStatement(a, b);
      }
    }
    if Statement(a) == Statement(b) {
      WitnessesDoNotMatter(h, a, b);
    }
  }

  /** Without the SEC 1 length rule the split between key and message is not bound: these two
      leaves make different claims under one commitment. */
  lemma KeyMessageSplitNotBound(h: HashFn)
    ensures var a, b := Secp256k1([2], [], [3, 5]), Secp256k1([2, 3], [], [5]);
            Commitment(h, a) == Commitment(h, b) && Statement(a) != Statement(b)
  {
    var a, b := Secp256k1([2], [], [3, 5]), Secp256k1([2, 3], [], [5]);
    assert a.secKey + a.message == b.secKey + b.message;
    BoundDeterminesPreimage(h, a, b);
  }

  /** Two secp256k1 leaves under one preimage state the same key and message exactly when
      their keys have the same length. */
  lemma KeyMessageSplitBoundIff(h: HashFn, a: Condition, b: Condition)
    requires a.Secp256k1? && b.Secp256k1?
    requires Preimage(h, a) == Preimage(h, b)
    ensures Statement(a) == Statement(b) <==> |a.secKey| == |b.secKey|
  {
    PreimageFields(h, a, b);
    if |a.secKey| == |b.secKey| {
      SplitEqual(a.secKey, b.secKey, a.message, b.message);
    }
  }

  /** Thresholds above `u32::MAX` are committed as `u32::MAX`; two thresholds over one list
      of children commit alike exactly when they agree after that cap (absent a collision). */
  lemma ThresholdCapBoundIff(h: HashFn, j: nat, k: nat, subs: seq<Condition>)
    ensures Preimage(h, Threshold(j, subs)) == Preimage(h, Threshold(k, subs))
            <==> j == k || (j >= U32_MAX && k >= U32_MAX)
  {
    var a, b := Threshold(j, subs), Threshold(k, subs);
    if Preimage(h, a) == Preimage(h, b) {
      ThresholdPreimageFields(h, a, b);
    }
  }
}
