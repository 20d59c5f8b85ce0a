/** `Number.prototype.toString(radix)` on non-negative integers and on the
    fractions `Math.random()` returns, with the inverse that `parseInt` computes. */
module Radix {

  /** The characters `toString(36)` writes: `[0-9a-z]`. */
  predicate IsDigitChar(c: char) {
    ('0' <= c <= '9') || ('a' <= c <= 'z')
  }

  predicate AllDigitChars(s: string) {
    forall i :: 0 <= i < |s| ==> IsDigitChar(s[i])
  }

  /** A sequence of digit values below `base`. */
  predicate IsDigits(ds: seq<nat>, base: nat) {
    forall i :: 0 <= i < |ds| ==> ds[i] < base
  }

  function DigitValue(c: char): (d: nat)
    requires IsDigitChar(c)
    ensures d < 36
  {
    if c <= '9' then (c as int) - ('0' as int) else (c as int) - ('a' as int) + 10
  }

  function DigitChar(d: nat): (c: char)
    requires d < 36
    ensures IsDigitChar(c) && DigitValue(c) == d
  {
    if d < 10 then (('0' as int) + d) as char else (('a' as int) + d - 10) as char
  }

  /** The two radixes the application formats numbers in. */
  predicate IsRadix(base: nat) {
    base == 10 || base == 36
  }

  /** `n.toString(base)`: most significant digit first, no leading zeros. */
  function ToRadix(n: nat, base: nat): (s: string)
    requires IsRadix(base)
    ensures |s| >= 1 && AllDigitChars(s)
  {
    if n < base then [DigitChar(n)] else ToRadix(n / base, base) + [DigitChar(n % base)]
  }

  /** The value of a string of digits in `base` (what `parseInt(s, base)` gives
      for such a string). */
  function FromRadix(s: string, base: nat): nat
    requires AllDigitChars(s)
  {
    if s == [] then 0 else FromRadix(s[..|s| - 1], base) * base + DigitValue(s[|s| - 1])
  }

  /** Reading back what `ToRadix` wrote gives the number. */
  lemma {:induction false} FromToRadix(n: nat, base: nat)
    requires IsRadix(base)
    ensures FromRadix(ToRadix(n, base), base) == n
  {
    if n < base {
      assert ToRadix(n, base) == [DigitChar(n)];
      assert FromRadix([DigitChar(n)], base) == FromRadix([], base) * base + n;
    } else {
      var q, d := n / base, n % base;
      var pre := ToRadix(q, base);
      var s := pre + [DigitChar(d)];
      assert ToRadix(n, base) == s;
      assert s[..|s| - 1] == pre;
      DivMod(n, base);
      FromToRadix(q, base);
      assert FromRadix(s, base) == FromRadix(pre, base) * base + d;
    }
  }

  lemma DivMod(n: nat, base: nat)
    requires IsRadix(base) && n >= base
    ensures (n / base) * base + n % base == n
    ensures n / base < n
  {
    QuotientSmaller(n, base);
  }

  lemma QuotientSmaller(n: nat, base: nat)
    requires IsRadix(base) && n >= base
    ensures n / base < n
  {
    if base == 10 {
      assert n / 10 < n;
    } else {
      assert n / 36 < n;
    }
  }

  /** `ToRadix` is injective: distinct numbers are written differently. */
  lemma ToRadixInjective(m: nat, n: nat, base: nat)
    requires IsRadix(base) && m != n
    ensures ToRadix(m, base) != ToRadix(n, base)
  {
    FromToRadix(m, base);
    FromToRadix(n, base);
  }

  function DigitsText(ds: seq<nat>): (s: string)
    requires IsDigits(ds, 36)
    ensures |s| == |ds| && AllDigitChars(s)
    ensures forall i :: 0 <= i < |ds| ==> DigitValue(s[i]) == ds[i]
  {
    if ds == [] then [] else [DigitChar(ds[0])] + DigitsText(ds[1..])
  }

  /** `x.toString(36)` for a number `0 <= x < 1` whose base-36 fraction digits
      are `ds`: `"0"` for zero, `"0."` followed by the digits otherwise. */
  function FractionText(ds: seq<nat>): string
    requires IsDigits(ds, 36)
  {
    if ds == [] then "0" else "0." + DigitsText(ds)
  }
}
