/** The 64-bit accumulators of Content-Length and chunk sizes, and exactly when they
    compute the number that is written. */
module HttpNumbers {
  import opened Wrappers
  import opened HttpTypes
  import opened HttpSwitch

  predicate Digits(ds: seq<nat>, base: nat) { ds != [] && forall d | d in ds :: d < base }

  // The number that the digits denote
  function Value(ds: seq<nat>, base: nat): nat {
    if ds == [] then 0 else Value(ds[..|ds| - 1], base) * base + ds[|ds| - 1]
  }

  // What the parser makes of them: the first digit is stored, the others are accumulated
  function Accumulated(ds: seq<nat>, base: nat): Option<nat>
    requires ds != []
  {
    if |ds| == 1 then Some(ds[0])
    else
      match Accumulated(ds[..|ds| - 1], base)
      case Some(cl) => Accumulate(cl, base, ds[|ds| - 1])
      case None => None
  }

  lemma AccumulateExact(cl: nat, base: nat, d: nat)
    requires cl < ULLONG_MAX && (base == 10 || base == 16) && d < base
    ensures Accumulate(cl, base, d) == Some(cl * base + d) <==> cl * base + d < ULLONG_MAX
    ensures Accumulate(cl, base, d).Some? ==> Accumulate(cl, base, d).value < ULLONG_MAX
  {}

  lemma ValueGrows(ds: seq<nat>, base: nat)
    requires ds != [] && base >= 1
    ensures Value(ds[..|ds| - 1], base) <= Value(ds, base)
  {
    var v := Value(ds[..|ds| - 1], base);
    assert v <= v * base;
  }

  lemma {:induction false} AccumulatedBelow(ds: seq<nat>, base: nat)
    requires Digits(ds, base) && (base == 10 || base == 16)
    ensures Accumulated(ds, base).Some? ==> Accumulated(ds, base).value < ULLONG_MAX
  {
    if |ds| == 1 {
      assert ds[0] in ds;
    } else {
      var front, d := ds[..|ds| - 1], ds[|ds| - 1];
      assert d in ds && forall x | x in front :: x in ds;
      AccumulatedBelow(front, base);
      if Accumulated(front, base).Some? { AccumulateExact(Accumulated(front, base).value, base, d); }
    }
  }

  /** The accumulator yields the written number exactly if that number is below 2^64 - 1.
      From there on it either refuses or, after an unnoticed wrap, yields another number. */
  lemma {:induction false} AccumulatorExact(ds: seq<nat>, base: nat)
    requires Digits(ds, base) && (base == 10 || base == 16)
    ensures Accumulated(ds, base) == Some(Value(ds, base)) <==> Value(ds, base) < ULLONG_MAX
  {
    AccumulatedBelow(ds, base);
    if |ds| == 1 {
      assert ds[0] in ds && Value(ds[..0], base) == 0;
    } else if Value(ds, base) < ULLONG_MAX {
      var front, d := ds[..|ds| - 1], ds[|ds| - 1];
      assert d in ds && forall x | x in front :: x in ds;
      ValueGrows(ds, base);
      AccumulatorExact(front, base);
      AccumulateExact(Value(front, base), base, d);
    }
  }

  /** The overflow test compares the wrapped sum only: after the hexadecimal digits of
      0x1800000000000000 one more 0 is accepted, as 0x8000000000000000. */
  lemma OverflowUnnoticed()
    ensures Accumulate(0x1800_0000_0000_0000, 16, 0) == Some(0x8000_0000_0000_0000)
    ensures 0x1800_0000_0000_0000 * 16 != 0x8000_0000_0000_0000
  {}

  lemma AccumulatedMore(ds: seq<nat>, d: nat, base: nat)
    requires ds != []
    ensures Accumulated(ds + [d], base) ==
      match Accumulated(ds, base) case Some(cl) => Accumulate(cl, base, d) case None => None
  {
    assert (ds + [d])[..|ds|] == ds;
  }

  // ---- numerals ----

  const NUMERALS: string := "0123456789abcdef"
  const UPPER_NUMERALS: string := "0123456789ABCDEF"

  // c is the digit d, in either case
  predicate IsDigitOf(c: char, d: nat) { d < 16 && (c == NUMERALS[d] || c == UPPER_NUMERALS[d]) }

  // w is a numeral of n, by quotient and remainder; it may have leading zeros
  predicate Spells(w: string, n: nat, base: nat)
    requires base == 10 || base == 16
    decreases |w|
  {
    && w != "" && IsDigitOf(w[|w| - 1], n % base)
    && if |w| == 1 then n < base else Spells(w[..|w| - 1], n / base, base)
  }

  function Numeral(n: nat, base: nat): string
    requires base == 10 || base == 16
  {
    if n < base then [NUMERALS[n]] else Numeral(n / base, base) + [NUMERALS[n % base]]
  }

  lemma NumeralDigit(d: nat)
    requires d < 16
    ensures |NUMERALS| == |UPPER_NUMERALS| == 16 && IsDigitOf(NUMERALS[d], d)
  {}

  lemma OneMoreDigit(w: string, c: char, n: nat, base: nat)
    requires base == 10 || base == 16
    requires n >= base && Spells(w, n / base, base) && IsDigitOf(c, n % base)
    ensures Spells(w + [c], n, base)
  {
    hide IsDigitOf;
    assert (w + [c])[..|w|] == w;
  }

  lemma {:induction false} NumeralSpells(n: nat, base: nat)
    requires base == 10 || base == 16
    ensures Numeral(n, base) != "" && Spells(Numeral(n, base), n, base)
  {
    hide NUMERALS, UPPER_NUMERALS;
    NumeralDigit(n % base);
    if n >= base {
      NumeralSpells(n / base, base);
      hide IsDigitOf, Numeral;
      OneMoreDigit(Numeral(n / base, base), NUMERALS[n % base], n, base);
    }
  }

  lemma DigitOnce(c: char, d: nat, e: nat)
    ensures IsDigitOf(c, d) && IsDigitOf(c, e) ==> d == e
  {}

  lemma Together(n: nat, base: nat)
    requires base > 0
    ensures n == n / base * base + n % base
  {}

  // A numeral is a numeral of one number only
  lemma {:induction false} SpellsOnce(w: string, n: nat, m: nat, base: nat)
    requires (base == 10 || base == 16) && Spells(w, n, base) && Spells(w, m, base)
    ensures n == m
    decreases |w|
  {
    DigitOnce(w[|w| - 1], n % base, m % base);
    hide IsDigitOf;
    if |w| > 1 {
      SpellsOnce(w[..|w| - 1], n / base, m / base, base);
      Together(n, base);
      Together(m, base);
    }
  }

  /** The table gives every hexadecimal digit its value; bytes from 0x80 on read as 0, and no other
      byte is known. */
  lemma UnhexExact(c: char)
    ensures forall d: nat :: Unhex(c) == Some(d) <==> IsDigitOf(c, d) || (d == 0 && c as int >= 128)
  {}

  lemma DigitExact(c: char)
    ensures IsNum(c) <==> exists d: nat :: d < 10 && IsDigitOf(c, d)
    ensures IsNum(c) ==> Digit(c) < 10 && IsDigitOf(c, Digit(c))
  {
    if IsNum(c) { assert IsDigitOf(c, Digit(c)); }
  }

  lemma Less(a: nat, b: nat, k: nat)
    ensures a < b ==> (a + 1) * k <= b * k
  {}

  // A number and its last digit
  lemma LastDigit(v: nat, d: nat, n: nat, base: nat)
    requires 2 <= base && d < base
    ensures v * base + d == n <==> d == n % base && v == n / base
  {
    var q := n / base;
    Together(n, base);
    Less(v, q, base);
    Less(q, v, base);
  }

  lemma ValueMore(ds: seq<nat>, d: nat, base: nat)
    ensures Value(ds + [d], base) == Value(ds, base) * base + d
  {
    assert (ds + [d])[..|ds|] == ds;
  }

  // ds are the decimal digits that the characters of w stand for
  predicate DigitsAt(w: string, ds: seq<nat>) {
    |ds| == |w| && forall i :: 0 <= i < |w| ==> IsNum(w[i]) && ds[i] == Digit(w[i])
  }

  lemma LastSpells(w: string, n: nat)
    requires w != "" && IsNum(w[|w| - 1])
    ensures Spells(w, n, 10) <==>
      Digit(w[|w| - 1]) == n % 10 && if |w| == 1 then n < 10 else Spells(w[..|w| - 1], n / 10, 10)
  {
    var c := w[|w| - 1];
    DigitExact(c);
    DigitOnce(c, Digit(c), n % 10);
    hide IsDigitOf, IsNum, Digit;
  }

  /** Decimal digits have the value of the number that they spell, and of no other. */
  lemma {:induction false} DigitsSpell(w: string, ds: seq<nat>, n: nat)
    requires w != "" && DigitsAt(w, ds)
    ensures Value(ds, 10) == n <==> Spells(w, n, 10)
    decreases |w|
  {
    var k := |w| - 1;
    LastSpells(w, n);
    DigitExact(w[k]);
    assert ds == ds[..k] + [ds[k]];
    ValueMore(ds[..k], ds[k], 10);
    hide IsDigitOf, IsNum, Digit, Spells;
    if k == 0 {
      assert ds[..0] == [];
    } else {
      DigitsSpell(w[..k], ds[..k], n / 10);
      hide Value;
      LastDigit(Value(ds[..k], 10), ds[k], n, 10);
    }
  }
}
