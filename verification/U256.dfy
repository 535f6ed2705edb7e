/**
 * crates/risk-core/src/u256.rs: a 256-bit unsigned integer kept as two 128-bit limbs.
 *
 * Limbs are integers below 2^128. A shift or a mask of a limb is written as the division, the
 * remainder or the product it computes, and `overflowing_add`, `wrapping_sub` and `<<` carry their
 * reduction modulo 2^128 explicitly.
 */
module U256 {
  import opened Wrappers
  import opened Arithmetic
  import Decimal

  const TWO64: int := 0x1_0000_0000_0000_0000
  const TWO128: int := 0x1_0000_0000_0000_0000_0000_0000_0000_0000
  const TWO256: int := 0x1_0000_0000_0000_0000_0000_0000_0000_0000_0000_0000_0000_0000_0000_0000_0000_0000

  type u128 = x: int | 0 <= x < TWO128

  /** Field order matches the derived ordering of the source: `hi` is compared before `lo`. */
  datatype U256 = U256(hi: u128, lo: u128) {

    /** The number the two limbs stand for. */
    function Value(): (v: nat)
      ensures v < TWO256
    {
      hi * TWO128 + lo
    }

    function TryIntoU128(): Option<u128> {
      if hi == 0 then Some(lo) else None
    }

    predicate IsZero() {
      hi == 0 && lo == 0
    }

    function CheckedAdd(other: U256): Option<U256> {
      var carry := if lo + other.lo >= TWO128 then 1 else 0;
      var low := (lo + other.lo) % TWO128;
      if hi + other.hi >= TWO128 then None
      else if hi + other.hi + carry >= TWO128 then None
      else Some(U256(hi + other.hi + carry, low))
    }

    function CheckedSub(other: U256): Option<U256> {
      var borrow := if lo < other.lo then 1 else 0;
      var low := (lo - other.lo) % TWO128;
      if hi - other.hi < 0 then None
      else if hi - other.hi - borrow < 0 then None
      else Some(U256(hi - other.hi - borrow, low))
    }

    function CheckedMulU128(multiplier: u128): Option<U256> {
      var loPart := MulU128(lo, multiplier);
      var hiPart := MulU128(hi, multiplier);
      if hiPart.hi != 0 then None
      else if loPart.hi + hiPart.lo >= TWO128 then None
      else Some(U256(loPart.hi + hiPart.lo, loPart.lo))
    }

    /** Bit `i`, counted from the least significant. */
    function Bit(i: nat): (b: u128)
      requires i < 256
      ensures b < 2
    {
      if i >= 128 then (hi / Pow2(i - 128)) % 2 else (lo / Pow2(i)) % 2
    }

    /** `SetBit` is a bitwise or with `1 << i`: it changes nothing when the bit is already set. */
    function SetBit(i: nat): U256
      requires i < 256
    {
      if Bit(i) == 1 then this
      else if i >= 128 then
        RoomForBit(hi, i - 128);
        U256(hi + Pow2(i - 128), lo)
      else
        RoomForBit(lo, i);
        U256(hi, lo + Pow2(i))
    }
  }

  const ZERO := U256(0, 0)
  const ONE := U256(0, 1)
  const MAX := U256(TWO128 - 1, TWO128 - 1)

  function FromU128(value: u128): U256 {
    U256(0, value)
  }

  /** The limbs of a number that fits. */
  function FromNat(v: nat): (u: U256)
    requires v < TWO256
    ensures u.Value() == v
  {
    U256(v / TWO128, v % TWO128)
  }

  lemma LimbsAreUnique(a: U256, b: U256)
    requires a.Value() == b.Value()
    ensures a == b
  {
  }

  /** The 64-bit halves of `a * b`, folded with both carries. */
  function MulU128(a: u128, b: u128): (product: U256)
    ensures product.Value() == a * b
  {
    var aHi, aLo := a / TWO64, a % TWO64;
    var bHi, bLo := b / TWO64, b % TWO64;
    HalfProductsFit(a, b);
    var ll: u128, lh: u128, hl: u128, hh: u128 := aLo * bLo, aLo * bHi, aHi * bLo, aHi * bHi;
    var (hi, lo) := Folded(ll, lh, hl, hh);
    Schoolbook(aHi, aLo, bHi, bLo);
    ProductFits(a, b);
    HighLimbFits(hi, lo);
    U256(hi, lo)
  }

  /** The four half products added up limb by limb, with both carries. */
  function Folded(ll: u128, lh: u128, hl: u128, hh: u128): (limbs: (nat, u128))
    ensures limbs.0 * TWO128 + limbs.1 == hh * TWO128 + (lh + hl) * TWO64 + ll
  {
    var mid, midCarry := (lh + hl) % TWO128, if lh + hl >= TWO128 then 1 else 0;
    var shifted := (mid * TWO64) % TWO128;
    var lo, loCarry := (ll + shifted) % TWO128, if ll + shifted >= TWO128 then 1 else 0;
    CarriesAreKept(ll, lh, hl, hh);
    (hh + mid / TWO64 + loCarry + midCarry * TWO64, lo)
  }

  lemma HighLimbFits(hi: nat, lo: u128)
    ensures hi * TWO128 + lo < TWO256 ==> hi < TWO128
  {
  }

  lemma HalfProductsFit(a: u128, b: u128)
    ensures 0 <= (a % TWO64) * (b % TWO64) <= (TWO64 - 1) * (TWO64 - 1)
    ensures 0 <= (a % TWO64) * (b / TWO64) <= (TWO64 - 1) * (TWO64 - 1)
    ensures 0 <= (a / TWO64) * (b % TWO64) <= (TWO64 - 1) * (TWO64 - 1)
    ensures 0 <= (a / TWO64) * (b / TWO64) <= (TWO64 - 1) * (TWO64 - 1)
  {
    forall x, y | 0 <= x < TWO64 && 0 <= y < TWO64
      ensures 0 <= x * y <= (TWO64 - 1) * (TWO64 - 1)
    {
      MulLe(0, x, y);
      MulLe(x, TWO64 - 1, y);
      MulLe(y, TWO64 - 1, TWO64 - 1);
    }
  }

  /** Folding the half products: both carries are kept, so the limbs hold the whole sum. */
  lemma CarriesAreKept(ll: u128, lh: u128, hl: u128, hh: u128)
    ensures
      var mid, midCarry := (lh + hl) % TWO128, if lh + hl >= TWO128 then 1 else 0;
      var shifted := (mid * TWO64) % TWO128;
      var lo, loCarry := (ll + shifted) % TWO128, if ll + shifted >= TWO128 then 1 else 0;
      var hi := hh + mid / TWO64 + loCarry + midCarry * TWO64;
      hi * TWO128 + lo == hh * TWO128 + (lh + hl) * TWO64 + ll
  {
    var mid, midCarry := (lh + hl) % TWO128, if lh + hl >= TWO128 then 1 else 0;
    var shifted := (mid * TWO64) % TWO128;
    var lo, loCarry := (ll + shifted) % TWO128, if ll + shifted >= TWO128 then 1 else 0;
    assert mid + midCarry * TWO128 == lh + hl;
    assert shifted == (mid % TWO64) * TWO64;
    assert lo + loCarry * TWO128 == ll + shifted;
  }

  lemma ProductFits(a: u128, b: u128)
    ensures 0 <= a * b < TWO256
  {
    MulLe(0, a, b);
    MulLe(a, TWO128 - 1, b);
    MulLe(b, TWO128 - 1, TWO128 - 1);
  }

  lemma Schoolbook(p: int, q: int, r: int, s: int)
    ensures (p * TWO64 + q) * (r * TWO64 + s)
         == (p * r) * TWO128 + (q * r + p * s) * TWO64 + q * s
  {
    assert (p * TWO64) * (r * TWO64) == (p * r) * TWO128;
    assert (p * TWO64) * s == (p * s) * TWO64;
    assert q * (r * TWO64) == (q * r) * TWO64;
  }

  /** Addition is exact, and refuses exactly when the sum leaves 256 bits. */
  lemma CheckedAddIsExact(a: U256, b: U256)
    ensures a.CheckedAdd(b).Some? <==> a.Value() + b.Value() < TWO256
    ensures a.CheckedAdd(b).Some? ==> a.CheckedAdd(b).value.Value() == a.Value() + b.Value()
  {
  }

  lemma CheckedSubIsExact(a: U256, b: U256)
    ensures a.CheckedSub(b).Some? <==> b.Value() <= a.Value()
    ensures a.CheckedSub(b).Some? ==> a.CheckedSub(b).value.Value() == a.Value() - b.Value()
  {
  }

  /** Multiplication by a limb is exact, and refuses exactly when the product leaves 256 bits. */
  lemma CheckedMulIsExact(a: U256, m: u128)
    ensures a.CheckedMulU128(m).Some? <==> a.Value() * m < TWO256
    ensures a.CheckedMulU128(m).Some? ==> a.CheckedMulU128(m).value.Value() == a.Value() * m
  {
    MulDist(a.hi * TWO128, a.lo, m);
    MulAssoc(m, a.hi, TWO128);
    var loPart, hiPart := MulU128(a.lo, m), MulU128(a.hi, m);
    assert a.Value() * m == hiPart.Value() * TWO128 + loPart.Value();
  }

  // ------------------------------------------------------------------------------------- bits

  function Pow2(k: nat): (p: nat)
    ensures 0 < p
  {
    if k == 0 then 1 else 2 * Pow2(k - 1)
  }

  lemma {:induction false} Pow2Add(a: nat, b: nat)
    ensures Pow2(a + b) == Pow2(a) * Pow2(b)
  {
    if a > 0 {
      Pow2Add(a - 1, b);
      MulAssoc(2, Pow2(a - 1), Pow2(b));
    }
  }

  lemma Pow2Double(k: nat, n: nat, p: nat)
    requires Pow2(k) == p && n == k + k
    ensures Pow2(n) == p * p
  {
    Pow2Add(k, k);
  }

  /** The two powers the limbs are built on; `n` keeps the exponents symbolic for the solver. */
  lemma Pow2Limb(n: nat)
    requires n == 128
    ensures Pow2(n) == TWO128
    ensures Pow2(n + n) == TWO256
  {
    assert Pow2(8) == 0x100;
    Pow2Double(8, 16, 0x100);
    Pow2Double(16, 32, 0x1_0000);
    Pow2Double(32, 64, 0x1_0000_0000);
    Pow2Double(64, n, TWO64);
    Pow2Double(n, n + n, TWO128);
  }

  /** The weight of bit `i` divides a limb's 2^128 an even number of times. */
  lemma LimbIsEvenMultiple(i: nat)
    requires i < 128
    ensures TWO128 == (2 * Pow2(127 - i)) * Pow2(i)
  {
    Pow2Limb(128);
    Pow2Add(128 - i, i);
  }

  lemma RoomAbove(x: nat, p: nat, k: nat)
    requires 0 < p && x < (2 * k) * p && (x / p) % 2 == 0
    ensures x + p < (2 * k) * p
  {
    FloorBounds(x, p);
    FloorBelow(x, p, 2 * k);
    MulLe(x / p + 2, 2 * k, p);
    MulDist(x / p, 2, p);
  }

  /** A limb whose bit `i` is clear has room for it. */
  lemma RoomForBit(x: u128, i: nat)
    requires i < 128 && (x / Pow2(i)) % 2 == 0
    ensures x + Pow2(i) < TWO128
  {
    LimbIsEvenMultiple(i);
    RoomAbove(x, Pow2(i), Pow2(127 - i));
  }

  lemma EvenShift(h: nat, k: nat, p: nat, l: nat)
    requires 0 < p
    ensures ((h * ((2 * k) * p) + l) / p) % 2 == (l / p) % 2
  {
    EvenFactor(h, k, p);
    FloorShift(l, 2 * (h * k), p);
    FloorShift(l / p, h * k, 2);
  }

  lemma EvenFactor(h: nat, k: nat, p: nat)
    ensures h * ((2 * k) * p) == (2 * (h * k)) * p
  {
    MulAssoc(h, 2 * k, p);
    MulAssoc(h, 2, k);
  }

  /** Bit `i` of the limbs is bit `i` of the number. */
  lemma BitOfValue(u: U256, i: nat)
    requires i < 256
    ensures u.Bit(i) == (u.Value() / Pow2(i)) % 2
  {
    if i >= 128 {
      Pow2Limb(128);
      Pow2Add(128, i - 128);
      HighLimb(u);
      FloorTwice(u.Value(), TWO128, Pow2(i - 128));
    } else {
      LimbIsEvenMultiple(i);
      EvenShift(u.hi, Pow2(127 - i), Pow2(i), u.lo);
    }
  }

  lemma HighLimb(u: U256)
    ensures u.Value() / TWO128 == u.hi
  {
  }

  /** Setting a clear bit adds its weight. */
  lemma SetBitAdds(u: U256, i: nat)
    requires i < 256 && u.Bit(i) == 0
    ensures u.SetBit(i).Value() == u.Value() + Pow2(i)
  {
    if i >= 128 {
      Pow2Limb(128);
      Pow2Add(128, i - 128);
      MulDist(u.hi, Pow2(i - 128), TWO128);
    }
  }

  // --------------------------------------------------------------------------------- division

  /** Quotient and remainder of the number by a limb, or nothing for a zero divisor. */
  function DivRem(u: U256, divisor: u128): Option<(U256, u128)> {
    if divisor == 0 then None
    else
      QuotientFits(u, divisor);
      Some((FromNat(u.Value() / divisor), u.Value() % divisor))
  }

  lemma QuotientIsFloor(u: U256, divisor: u128)
    requires divisor != 0
    ensures DivRem(u, divisor).Some? && DivRem(u, divisor).value.0.Value() == u.Value() / divisor
  {
  }

  /** There is an answer exactly for a divisor other than zero: n = q * d + r with r below d. */
  lemma DivisionMeans(u: U256, divisor: u128)
    ensures DivRem(u, divisor).None? <==> divisor == 0
    ensures DivRem(u, divisor).Some? ==>
      var (q, r) := DivRem(u, divisor).value;
      q.Value() * divisor + r == u.Value() && 0 <= r < divisor
  {
    if divisor != 0 {
      QuotientFits(u, divisor);
      FloorBounds(u.Value(), divisor);
    }
  }

  lemma NarrowingIsExact(u: U256)
    ensures u.TryIntoU128() == if u.Value() < TWO128 then Some(u.Value()) else None
  {
  }

  lemma QuotientFits(u: U256, divisor: u128)
    requires divisor != 0
    ensures 0 <= u.Value() / divisor < TWO256
    ensures 0 <= u.Value() % divisor < divisor
  {
    FloorBounds(u.Value(), divisor);
    MulLe(1, divisor, u.Value() / divisor);
  }

  /** One more bit of the dividend: the next prefix is twice the last one plus the bit. */
  lemma NextPrefix(u: U256, i: nat)
    requires i < 256
    ensures u.Value() / Pow2(i) == 2 * (u.Value() / Pow2(i + 1)) + u.Bit(i)
  {
    BitOfValue(u, i);
    FloorTwice(u.Value(), Pow2(i), 2);
    assert Pow2(i) * 2 == Pow2(i + 1);
  }

  /** A multiple of 2^(i+1) has bit `i` clear. */
  lemma LowBitClear(u: U256, i: nat, q: nat)
    requires i < 256 && u.Value() == q * Pow2(i + 1)
    ensures u.Bit(i) == 0
  {
    BitOfValue(u, i);
    EvenMultiple(q, Pow2(i));
  }

  lemma EvenMultiple(q: nat, p: nat)
    requires 0 < p
    ensures (q * (2 * p) / p) % 2 == 0
  {
    MulAssoc(q, 2, p);
    FloorExact(q * 2, p);
  }

  /** Shifting a limb left leaves its lowest bit free for the next bit of the dividend. */
  lemma ShiftedFits(rem: u128, bit: u128)
    requires bit < 2
    ensures 0 <= (rem * 2) % TWO128 + bit < TWO128
  {
    if rem < TWO128 / 2 {
      assert (rem * 2) % TWO128 == rem * 2;
    } else {
      assert (rem * 2) % TWO128 == rem * 2 - TWO128;
    }
  }

  /**
   * One iteration on the partial remainder, in the source's own 128-bit terms: shift in a bit, and
   * subtract the divisor when a bit was carried out or the shifted value reaches it.
   */
  lemma RestoringStep(prefix: int, q: nat, rem: u128, bit: u128, divisor: u128)
    requires rem < divisor && bit < 2 && prefix == q * divisor + rem
    ensures
      var carriedOut := rem / (TWO128 / 2) != 0;
      var shifted := (rem * 2) % TWO128 + bit;
      var subtract := carriedOut || shifted >= divisor;
      var rem' := if subtract then (shifted - divisor) % TWO128 else shifted;
      var q' := 2 * q + (if subtract then 1 else 0);
      0 <= rem' < divisor && 2 * prefix + bit == q' * divisor + rem'
  {
    var carriedOut := rem / (TWO128 / 2) != 0;
    var shifted := (rem * 2) % TWO128 + bit;
    var subtract := carriedOut || shifted >= divisor;
    MulAssoc(2, q, divisor);
    MulDist(2 * q, 1, divisor);
    if carriedOut {
      assert shifted == rem * 2 - TWO128 + bit;
      assert (shifted - divisor) % TWO128 == rem * 2 + bit - divisor;
    } else {
      assert shifted == rem * 2 + bit;
    }
  }

  /** Bits `i` and above are done: the quotient so far, shifted, and the remainder of that prefix. */
  ghost predicate Divided(u: U256, divisor: u128, i: nat, quotient: U256, remainder: u128)
  {
    && remainder < divisor
    && exists q: nat :: Prefix(u, divisor, i, quotient, remainder, q)
  }

  ghost predicate Prefix(u: U256, divisor: u128, i: nat, quotient: U256, remainder: u128, q: nat)
  {
    quotient.Value() == q * Pow2(i) && u.Value() / Pow2(i) == q * divisor + remainder
  }

  lemma NothingDivided(u: U256, divisor: u128, n: nat)
    requires n == 256 && 0 < divisor
    ensures Divided(u, divisor, n, ZERO, 0)
  {
    Pow2Limb(128);
    assert n == 128 + 128;
    FloorUnique(u.Value(), Pow2(n), 0);
    assert Prefix(u, divisor, n, ZERO, 0, 0);
  }

  /** One iteration of the source's loop body takes one more bit of the dividend. */
  lemma DivideBit(u: U256, divisor: u128, i: nat, quotient: U256, remainder: u128)
    requires i < 256 && Divided(u, divisor, i + 1, quotient, remainder)
    ensures
      var carriedOut := remainder / (TWO128 / 2) != 0;
      var shifted := (remainder * 2) % TWO128 + u.Bit(i);
      if carriedOut || shifted >= divisor
      then Divided(u, divisor, i, quotient.SetBit(i), (shifted - divisor) % TWO128)
      else Divided(u, divisor, i, quotient, shifted)
  {
    var carriedOut := remainder / (TWO128 / 2) != 0;
    var shifted := (remainder * 2) % TWO128 + u.Bit(i);
    var q: nat :| Prefix(u, divisor, i + 1, quotient, remainder, q);
    NextPrefix(u, i);
    LowBitClear(quotient, i, q);
    RestoringStep(u.Value() / Pow2(i + 1), q, remainder, u.Bit(i), divisor);
    MulAssoc(q, 2, Pow2(i));
    if carriedOut || shifted >= divisor {
      MulDist(2 * q, 1, Pow2(i));
      SetBitAdds(quotient, i);
      assert Prefix(u, divisor, i, quotient.SetBit(i), (shifted - divisor) % TWO128, 2 * q + 1);
    } else {
      assert Prefix(u, divisor, i, quotient, shifted, 2 * q);
    }
  }

  lemma AllDivided(u: U256, divisor: u128, quotient: U256, remainder: u128)
    requires Divided(u, divisor, 0, quotient, remainder)
    ensures DivRem(u, divisor) == Some((quotient, remainder))
  {
    var q: nat :| Prefix(u, divisor, 0, quotient, remainder, q);
    assert Pow2(0) == 1;
    FloorUnique(u.Value(), divisor, q);
    LimbsAreUnique(quotient, FromNat(u.Value() / divisor));
  }

  /** Restoring bitwise long division: 256 iterations, exact for every dividend and divisor. */
  method DivRemU128(u: U256, divisor: u128) returns (r: Option<(U256, u128)>)
    ensures r == DivRem(u, divisor)
  {
    if divisor == 0 {
      return None;
    }
    var quotient, remainder: u128 := ZERO, 0;
    var i: nat := 256;
    NothingDivided(u, divisor, i);
    while i > 0
      invariant i <= 256 && Divided(u, divisor, i, quotient, remainder)
    {
      i := i - 1;
      DivideBit(u, divisor, i, quotient, remainder);
      ShiftedFits(remainder, u.Bit(i));
      var carriedOut := remainder / (TWO128 / 2) != 0;
      remainder := (remainder * 2) % TWO128 + u.Bit(i);
      if carriedOut || remainder >= divisor {
        remainder := (remainder - divisor) % TWO128;
        quotient := quotient.SetBit(i);
      }
    }
    AllDivided(u, divisor, quotient, remainder);
    return Some((quotient, remainder));
  }

  // ---------------------------------------------------------------------------- decimal text

  /** A non-empty string of digits worth less than 2^256, as the number; nothing otherwise. */
  function Parsed(text: string): Option<U256> {
    if text != "" && Decimal.AllDigits(text) && Decimal.Value(text) < TWO256
    then Some(FromNat(Decimal.Value(text)))
    else None
  }

  lemma {:induction false} PrefixValue(text: string, k: nat)
    requires Decimal.AllDigits(text) && k <= |text|
    ensures Decimal.Value(text[..k]) <= Decimal.Value(text)
  {
    if k == |text| {
      assert text[..k] == text;
    } else {
      PrefixValue(text[..|text| - 1], k);
      assert text[..|text| - 1][..k] == text[..k];
    }
  }

  method FromDecStr(text: string) returns (r: Option<U256>)
    ensures r == Parsed(text)
  {
    if text == "" {
      return None;
    }
    var acc := ZERO;
    for k := 0 to |text|
      invariant Decimal.AllDigits(text[..k])
      invariant acc.Value() == Decimal.Value(text[..k])
    {
      var c := text[k];
      if !Decimal.IsDigit(c) {
        assert !Decimal.AllDigits(text);
        return None;
      }
      assert text[..k + 1][..k] == text[..k];
      ghost var next := Decimal.Value(text[..k + 1]);
      if Decimal.AllDigits(text) {
        PrefixValue(text, k + 1);
      }
      CheckedMulIsExact(acc, 10);
      var scaled := acc.CheckedMulU128(10);
      if scaled.None? {
        return None;
      }
      CheckedAddIsExact(scaled.value, FromU128(Decimal.DigitValue(c)));
      var sum := scaled.value.CheckedAdd(FromU128(Decimal.DigitValue(c)));
      if sum.None? {
        return None;
      }
      acc := sum.value;
    }
    assert text[..|text|] == text;
    LimbsAreUnique(acc, FromNat(Decimal.Value(text)));
    return Some(acc);
  }

  function Reversed(s: string): string {
    if s == "" then "" else Reversed(s[1..]) + [s[0]]
  }

  lemma {:induction false} ReversedSnoc(s: string, c: char)
    ensures Reversed(s + [c]) == [c] + Reversed(s)
  {
    if s == "" {
      assert Reversed([c]) == Reversed([]) + [c];
    } else {
      ReversedSnoc(s[1..], c);
      assert (s + [c])[1..] == s[1..] + [c];
    }
  }

  /** Display: least significant digits first into a buffer, then reversed. */
  method Display(u: U256) returns (text: string)
    ensures text == Decimal.Text(u.Value()) && Decimal.Canonical(text)
  {
    Decimal.TextCanonical(u.Value());
    if u.IsZero() {
      return "0";
    }
    var digits: string := "";
    var value := u;
    while !value.IsZero()
      invariant value.IsZero() ==> Reversed(digits) == Decimal.Text(u.Value())
      invariant !value.IsZero() ==> Decimal.Text(value.Value()) + Reversed(digits) == Decimal.Text(u.Value())
      decreases value.Value()
    {
      var qr := DivRemU128(value, 10);
      var (quotient, remainder) := qr.value;
      assert quotient.Value() == value.Value() / 10;
      ReversedSnoc(digits, Decimal.DigitChar(remainder));
      ghost var v := value.Value();
      if v >= 10 {
        assert Decimal.Text(v) == Decimal.Text(v / 10) + [Decimal.DigitChar(v % 10)];
        assert Decimal.Text(v) + Reversed(digits)
            == Decimal.Text(v / 10) + Reversed(digits + [Decimal.DigitChar(remainder)]);
      }
      digits := digits + [Decimal.DigitChar(remainder)];
      value := quotient;
    }
    text := Reversed(digits);
  }

  /** Printing then parsing is the identity on all 256-bit values. */
  lemma ParseOfText(u: U256)
    ensures Parsed(Decimal.Text(u.Value())) == Some(u)
  {
    Decimal.ReadOfText(u.Value());
    LimbsAreUnique(u, FromNat(u.Value()));
  }

  /** Parsing then printing gives every accepted string back up to its leading zeros. */
  lemma TextOfParse(s: string)
    requires Parsed(s).Some? && Decimal.Canonical(s)
    ensures Decimal.Text(Parsed(s).value.Value()) == s
  {
    Decimal.TextOfRead(s);
  }

  /** The derived ordering on (`hi`, `lo`) is the ordering of the numbers. */
  lemma LimbOrderIsNumericOrder(a: U256, b: U256)
    ensures a.Value() < b.Value() <==> a.hi < b.hi || (a.hi == b.hi && a.lo < b.lo)
  {
  }
}
