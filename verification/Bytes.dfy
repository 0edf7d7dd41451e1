/** Byte strings, fixed-width big-endian and little-endian integers, and the result types
    every other module uses. */
module Bytes {

  type byte = x: int | 0 <= x < 256
  type Bytes = seq<byte>

  function Zeros(n: nat): (r: Bytes)
    ensures |r| == n
  {
    seq(n, _ => 0)
  }

  /** A 32-byte word: a SHA-256 digest, a `bytes32`, or a Solana public key. */
  type Digest = s: Bytes | |s| == 32 witness Zeros(32)

  const ZERO_WORD: Digest := Zeros(32)

  /** SHA-256, taken as a parameter. Nothing is assumed about it but its output width. */
  type HashFn = Bytes -> Digest

  /** Two distinct inputs with one digest. */
  predicate Collision(h: HashFn, x: Bytes, y: Bytes) {
    x != y && h(x) == h(y)
  }

  const TWO_32 := 0x1_0000_0000
  const TWO_64 := 0x1_0000_0000_0000_0000
  const TWO_160 := 0x1_0000_0000_0000_0000_0000_0000_0000_0000_0000_0000
  const TWO_256 := 0x1_0000_0000_0000_0000_0000_0000_0000_0000_0000_0000_0000_0000_0000_0000_0000_0000

  type U64 = x: nat | x < TWO_64
  type U256 = x: nat | x < TWO_256

  datatype Option<+T> = None | Some(value: T) {
    function GetOr(default: T): T {
      if Some? then value else default
    }
  }

  datatype Result<+T, +E> = Ok(value: T) | Err(error: E) {
    predicate IsFailure() {
      Err?
    }

    function PropagateFailure<U>(): Result<U, E>
      requires Err?
    {
      Err(error)
    }

    function Extract(): T
      requires Ok?
    {
      value
    }
  }

  /** A check with nothing to return. */
  datatype Outcome<+E> = Pass | Fail(error: E) {
    predicate IsFailure() {
      Fail?
    }

    function PropagateFailure<U>(): Result<U, E>
      requires Fail?
    {
      Err(error)
    }
  }

  /** A parsed value and the bytes still unread. */
  datatype Cursor<+T> = Cursor(value: T, rest: Bytes)

  function Pow256(n: nat): (p: nat)
    ensures p > 0
  {
    if n == 0 then 1 else 256 * Pow256(n - 1)
  }

  lemma {:induction false} Pow256Add(m: nat, n: nat)
    ensures Pow256(m + n) == Pow256(m) * Pow256(n)
  {
    if m > 0 {
      Pow256Add(m - 1, n);
      assert Pow256(m + n) == 256 * Pow256((m - 1) + n);
      assert 256 * (Pow256(m - 1) * Pow256(n)) == (256 * Pow256(m - 1)) * Pow256(n);
    }
  }

  lemma Pow256Constants()
    ensures Pow256(1) == 256 && Pow256(2) == 65536 && Pow256(4) == TWO_32 && Pow256(8) == TWO_64
    ensures Pow256(20) == TWO_160 && Pow256(32) == TWO_256
  {
    assert Pow256(1) == 256 * Pow256(0);
    assert Pow256(2) == 256 * Pow256(1);
    Pow256Add(2, 2);
    Pow256Add(4, 4);
    Pow256Add(8, 8);
    Pow256Add(16, 4);
    Pow256Add(16, 16);
  }

  lemma {:induction false} Pow256Monotone(m: nat, n: nat)
    requires m <= n
    ensures Pow256(m) <= Pow256(n)
  {
    if m < n {
      Pow256Monotone(m, n - 1);
    }
  }

  /** The value of a big-endian byte string. */
  function FromBE(s: Bytes): nat {
    if s == [] then 0 else FromBE(s[..|s| - 1]) * 256 + s[|s| - 1]
  }

  lemma FromBEAppend(s: Bytes, b: byte)
    ensures FromBE(s + [b]) == FromBE(s) * 256 + b
  {
    assert (s + [b])[..|s|] == s;
  }

  /** The low `n` bytes of `v`, big-endian. */
  function ToBE(v: nat, n: nat): (r: Bytes)
    ensures |r| == n
  {
    if n == 0 then [] else ToBE(v / 256, n - 1) + [v % 256]
  }

  lemma {:induction false} FromBEBound(s: Bytes)
    ensures FromBE(s) < Pow256(|s|)
  {
    if s != [] {
      FromBEBound(s[..|s| - 1]);
    }
  }

  lemma {:induction false} FromToBE(v: nat, n: nat)
    requires v < Pow256(n)
    ensures FromBE(ToBE(v, n)) == v
  {
    if n > 0 {
      FromToBE(v / 256, n - 1);
      var r := ToBE(v, n);
      assert r[..|r| - 1] == ToBE(v / 256, n - 1);
    }
  }

  lemma {:induction false} ToFromBE(s: Bytes)
    ensures ToBE(FromBE(s), |s|) == s
  {
    if s != [] {
      ToFromBE(s[..|s| - 1]);
      assert s == s[..|s| - 1] + [s[|s| - 1]];
    }
  }

  /** Big-endian strings of one width are equal exactly when their values are. */
  lemma BEUnique(s: Bytes, v: nat)
    requires v < Pow256(|s|)
    ensures FromBE(s) == v <==> s == ToBE(v, |s|)
  {
    FromToBE(v, |s|);
    ToFromBE(s);
  }

  /** `BigUint::to_bytes_be`: no leading zero byte, and a single zero byte for zero. */
  function MinimalBE(v: nat): (r: Bytes)
    ensures |r| >= 1
  {
    if v < 256 then [v] else MinimalBE(v / 256) + [v % 256]
  }

  lemma {:induction false} ToBEZero(n: nat)
    ensures ToBE(0, n) == Zeros(n)
  {
    if n > 0 {
      ToBEZero(n - 1);
    }
  }

  /** The minimal form fits a width exactly when the value does, and left-padding it with
      zeros gives the fixed-width form. */
  lemma {:induction false} MinimalBEFits(v: nat, n: nat)
    requires n >= 1
    ensures |MinimalBE(v)| <= n <==> v < Pow256(n)
    ensures v < Pow256(n) ==> Zeros(n - |MinimalBE(v)|) + MinimalBE(v) == ToBE(v, n)
  {
    if v < 256 {
      Pow256Monotone(1, n);
      assert Pow256(1) == 256 * Pow256(0);
      ToBEZero(n - 1);
      assert v / 256 == 0;
    } else if n == 1 {
      assert Pow256(1) == 256 * Pow256(0);
    } else {
      MinimalBEFits(v / 256, n - 1);
      if v < Pow256(n) {
        var k := n - |MinimalBE(v)|;
        assert Zeros(k) + MinimalBE(v) == (Zeros(k) + MinimalBE(v / 256)) + [v % 256];
      }
    }
  }

  /** Widening a field only adds leading zero bytes. */
  lemma {:induction false} ToBEPad(v: nat, k: nat, n: nat)
    requires v < Pow256(n)
    ensures ToBE(v, k + n) == Zeros(k) + ToBE(v, n)
  {
    if n == 0 {
      ToBEZero(k);
    } else {
      ToBEPad(v / 256, k, n - 1);
      assert ToBE(v, k + n) == ToBE(v / 256, k + (n - 1)) + [v % 256];
    }
  }

  function Ascii(s: string): Bytes {
    seq(|s|, i requires 0 <= i < |s| => (s[i] as int) % 256)
  }

  lemma SmallMod(x: nat, w: nat)
    requires x < w
    ensures x % w == x
  {
  }

  function ToLE(v: nat, n: nat): (r: Bytes)
    ensures |r| == n
  {
    if n == 0 then [] else [v % 256] + ToLE(v / 256, n - 1)
  }

  function FromLE(s: Bytes): nat {
    if s == [] then 0 else s[0] + 256 * FromLE(s[1..])
  }

  lemma {:induction false} FromLEBound(s: Bytes)
    ensures FromLE(s) < Pow256(|s|)
  {
    if s != [] {
      FromLEBound(s[1..]);
    }
  }

  lemma {:induction false} FromToLE(v: nat, n: nat)
    requires v < Pow256(n)
    ensures FromLE(ToLE(v, n)) == v
  {
    if n > 0 {
      FromToLE(v / 256, n - 1);
      assert ToLE(v, n)[1..] == ToLE(v / 256, n - 1);
    }
  }

  lemma SplitLow(b: byte, high: nat)
    ensures (b + 256 * high) % 256 == b && (b + 256 * high) / 256 == high
  {
  }

  lemma {:induction false} ToFromLE(s: Bytes)
    ensures ToLE(FromLE(s), |s|) == s
  {
    if s != [] {
      ToFromLE(s[1..]);
      SplitLow(s[0], FromLE(s[1..]));
      assert s == [s[0]] + s[1..];
    }
  }
}
