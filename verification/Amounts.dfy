/** Fixed-point printing of raw amounts. */
module Amounts {
  import opened Bytes

  type Digits = s: string | forall i | 0 <= i < |s| :: '0' <= s[i] <= '9' witness ""

  function Digit(n: nat): char
    requires n < 10
  {
    '0' + n as char
  }

  function DigitValue(c: char): nat
    requires '0' <= c <= '9'
  {
    c as int - '0' as int
  }

  function Pow10(n: nat): (p: nat)
    ensures p > 0
  {
    if n == 0 then 1 else 10 * Pow10(n - 1)
  }

  /** Decimal digits without leading zeros; a single zero for zero. */
  function Decimal(n: nat): (s: Digits)
    ensures |s| >= 1
    ensures s[0] == '0' ==> s == "0"
    ensures s == "0" ==> n == 0
  {
    if n < 10 then [Digit(n)] else Decimal(n / 10) + [Digit(n % 10)]
  }

  function ReadDigits(s: Digits): nat {
    if s == "" then 0 else 10 * ReadDigits(s[..|s| - 1]) + DigitValue(s[|s| - 1])
  }

  function ZeroDigits(n: nat): (s: Digits)
    ensures |s| == n
  {
    seq(n, _ => '0')
  }

  function PadLeft(s: Digits, width: nat): Digits {
    if |s| < width then ZeroDigits(width - |s|) + s else s
  }

  /** The amount as `whole.fraction` with exactly `decimals` fraction digits. */
  function FormatAmount(amount: nat, decimals: Option<byte>): string {
    var parts := DivRem(amount, Pow10(decimals.GetOr(0)));
    Print(parts.0, parts.1, decimals.GetOr(0))
  }

  function DivRem(n: nat, d: nat): (r: (nat, nat))
    requires d > 0
    ensures n == r.0 * d + r.1 && r.1 < d
  {
    (n / d, n % d)
  }

  function Print(whole: nat, rem: nat, places: nat): string {
    if places == 0 then Decimal(whole) else Decimal(whole) + "." + PadLeft(Decimal(rem), places)
  }

  lemma {:induction false} DecimalReadsBack(n: nat)
    ensures ReadDigits(Decimal(n)) == n
  {
    if n >= 10 {
      DecimalReadsBack(n / 10);
      var s := Decimal(n);
      assert s[..|s| - 1] == Decimal(n / 10);
    }
  }

  lemma {:induction false} DecimalFits(n: nat, width: nat)
    requires width >= 1
    ensures |Decimal(n)| <= width <==> n < Pow10(width)
  {
    if n >= 10 && width > 1 {
      DecimalFits(n / 10, width - 1);
    } else if n >= 10 {
      assert Pow10(1) == 10 * Pow10(0);
    } else {
      Pow10AtLeast(width);
    }
  }

  lemma {:induction false} Pow10AtLeast(n: nat)
    requires n >= 1
    ensures Pow10(n) >= 10
  {
    if n > 1 {
      Pow10AtLeast(n - 1);
    } else {
      assert Pow10(1) == 10 * Pow10(0);
    }
  }

  lemma {:induction false} PadReadsBack(k: nat, s: Digits)
    ensures ReadDigits(ZeroDigits(k) + s) == ReadDigits(s)
    decreases |s|, k
  {
    if s != "" {
      PadReadsBack(k, s[..|s| - 1]);
      var t := ZeroDigits(k) + s;
      assert t[..|t| - 1] == ZeroDigits(k) + s[..|s| - 1];
    } else if k > 0 {
      PadReadsBack(k - 1, "");
      var t := ZeroDigits(k) + "";
      assert t[..|t| - 1] == ZeroDigits(k - 1) + "";
    }
  }

  lemma FractionReadsBack(rem: nat, places: nat)
    requires places >= 1 && rem < Pow10(places)
    ensures |PadLeft(Decimal(rem), places)| == places
    ensures ReadDigits(PadLeft(Decimal(rem), places)) == rem
  {
    var s := Decimal(rem);
    DecimalReadsBack(rem);
    DecimalFits(rem, places);
    PadReadsBack(places - |s|, s);
  }

  lemma PrintReadsBack(quotient: nat, rem: nat, places: nat) returns (whole: Digits, fraction: Digits)
    requires rem < Pow10(places)
    ensures Print(quotient, rem, places) == if places == 0 then whole else whole + "." + fraction
    ensures |fraction| == places
    ensures |whole| >= 1 && (whole[0] == '0' ==> whole == "0")
    ensures ReadDigits(whole) == quotient && ReadDigits(fraction) == rem
  {
    whole := Decimal(quotient);
    DecimalReadsBack(quotient);
    if places == 0 {
      fraction := "";
    } else {
      fraction := PadLeft(Decimal(rem), places);
      FractionReadsBack(rem, places);
    }
  }

  /** The printed form: a canonical whole part, then a point and exactly `decimals` digits, or
      no point at all for none, unset ones included; reading the digits back gives the amount
      exactly. */
  lemma FormatAmountExact(amount: nat, decimals: Option<byte>) returns (whole: Digits, fraction: Digits)
    ensures var places := decimals.GetOr(0);
            && FormatAmount(amount, decimals) == (if places == 0 then whole else whole + "." + fraction)
            && |fraction| == places
            && ReadDigits(whole) * Pow10(places) + ReadDigits(fraction) == amount
    ensures |whole| >= 1 && (whole[0] == '0' ==> whole == "0")
  {
    hide Print, DivRem;
    var places: nat := decimals.GetOr(0);
    var parts := DivRem(amount, Pow10(places));
    whole, fraction := PrintReadsBack(parts.0, parts.1, places);
  }

  /** For one setting of the decimals, different amounts print differently. */
  lemma FormatAmountInjective(a: nat, b: nat, decimals: Option<byte>)
    requires FormatAmount(a, decimals) == FormatAmount(b, decimals)
    ensures a == b
  {
    hide FormatAmount, ReadDigits, Pow10;
    var wa, fa := FormatAmountExact(a, decimals);
    var wb, fb := FormatAmountExact(b, decimals);
    if decimals.GetOr(0) > 0 {
      var s := wa + "." + fa;
      assert |wa| == |wb|;
      assert wa == s[..|wa|] && wb == (wb + "." + fb)[..|wb|];
      assert fa == s[|wa| + 1..] && fb == (wb + "." + fb)[|wb| + 1..];
    }
  }
}
