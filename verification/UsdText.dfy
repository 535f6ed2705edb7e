/** packages/domain/src/risk.ts, presentation: formatting a usd18 amount and reading one back. */
module UsdText {
  import opened Arithmetic
  import opened MoneyMath
  import opened Decimal

  function Repeat(c: char, n: nat): (s: string)
    ensures |s| == n && forall i :: 0 <= i < n ==> s[i] == c
  {
    seq(n, _ => c)
  }

  function PadStart(s: string, n: nat): string {
    if |s| >= n then s else Repeat('0', n - |s|) + s
  }

  function PadEnd(s: string, n: nat): string {
    if |s| >= n then s else s + Repeat('0', n - |s|)
  }

  function Prefix(s: string, n: nat): string {
    if |s| <= n then s else s[..n]
  }

  /** A comma before every digit, the first excepted, with a multiple of three digits from it to the end. */
  function Grouped(s: string, i: nat): string
    requires i <= |s|
    decreases |s| - i
  {
    if i == |s| then ""
    else (if i > 0 && (|s| - i) % 3 == 0 then "," else "") + [s[i]] + Grouped(s, i + 1)
  }

  function FormatUsd(usd18: int, decimals: nat): string {
    var v := if usd18 < 0 then -usd18 else usd18;
    var whole, frac := v / USD, v % USD;
    var fracText := Prefix(PadStart(Text(frac), 18), decimals);
    (if usd18 < 0 then "-" else "") + Grouped(Text(whole), 0)
    + (if decimals > 0 then "." + fracText else "")
  }

  function WithoutCommas(s: string): string {
    if s == "" then "" else (if s[0] == ',' then "" else [s[0]]) + WithoutCommas(s[1..])
  }

  predicate IsSpace(c: char) {
    c in {' ', '\t', '\n', '\r', '\U{000B}', '\U{000C}', '\U{00A0}', '\U{1680}', '\U{2028}', '\U{2029}',
          '\U{202F}', '\U{205F}', '\U{3000}', '\U{FEFF}'}
    || '\U{2000}' <= c <= '\U{200A}'
  }

  function TrimStart(s: string): string {
    if s != "" && IsSpace(s[0]) then TrimStart(s[1..]) else s
  }

  function TrimEnd(s: string): string {
    if s != "" && IsSpace(s[|s| - 1]) then TrimEnd(s[..|s| - 1]) else s
  }

  /** The position of the first point, or the length when there is none. */
  function PointAt(s: string): (k: nat)
    ensures k <= |s|
    ensures k < |s| ==> s[k] == '.'
    ensures forall i :: 0 <= i < k ==> s[i] != '.'
  {
    if s == "" || s[0] == '.' then 0 else 1 + PointAt(s[1..])
  }

  function WholePart(s: string): string {
    s[..PointAt(s)]
  }

  function FractionPart(s: string): string {
    if PointAt(s) < |s| then s[PointAt(s) + 1..] else ""
  }

  /** Digits with at most one point among them, and at least one digit. */
  predicate IsAmount(s: string) {
    AllDigits(WholePart(s)) && AllDigits(FractionPart(s)) && s != "" && s != "."
  }

  function ParseUsd(input: string): nat {
    var cleaned := TrimEnd(TrimStart(WithoutCommas(input)));
    if !IsAmount(cleaned) then 0
    else
      Value(WholePart(cleaned)) * USD + Value(Prefix(PadEnd(FractionPart(cleaned), 18), 18))
  }

  // -------------------------------------------------------------------------------------- commas

  /** Counting from the end, every fourth character is a comma and all others are digits. */
  predicate Placed(c: char, fromEnd: int) {
    if fromEnd % 4 == 3 then c == ',' else IsDigit(c)
  }

  predicate InThrees(s: string) {
    forall k :: 0 <= k < |s| ==> Placed(s[k], |s| - 1 - k)
  }

  lemma PutInFront(c: char, s: string)
    requires InThrees(s) && Placed(c, |s|)
    ensures InThrees([c] + s)
  {
    forall k | 0 <= k < |[c] + s|
      ensures Placed(([c] + s)[k], |s| - k)
    {
      assert 0 < k ==> ([c] + s)[k] == s[k - 1];
    }
  }

  lemma {:induction false} CommasAfterFirst(s: string, i: nat)
    requires 0 < i <= |s| && AllDigits(s)
    ensures |Grouped(s, i)| == (|s| - i) + (|s| - i) / 3 && InThrees(Grouped(s, i))
    decreases |s| - i
  {
    if i < |s| {
      CommasAfterFirst(s, i + 1);
      DigitInFront(s[i], Grouped(s, i + 1), |s| - i - 1);
      assert Grouped(s, i) == DigitAndRest(s[i], Grouped(s, i + 1), |s| - i - 1);
    }
  }

  /** A digit in front of a tail that shows n digits, with its comma. */
  function DigitAndRest(c: char, rest: string, n: nat): string {
    (if (n + 1) % 3 == 0 then "," else "") + [c] + rest
  }

  /** n digits with their commas fill n % 3 characters of the last group of four. */
  lemma LengthInThrees(n: nat)
    ensures (n + n / 3) % 4 == n % 3
    ensures (n + 1) + (n + 1) / 3 == n + n / 3 + if (n + 1) % 3 == 0 then 2 else 1
  {
    assert n == 3 * (n / 3) + n % 3;
  }

  lemma DigitInFront(c: char, rest: string, n: nat)
    requires IsDigit(c) && InThrees(rest) && |rest| == n + n / 3
    ensures
      var longer := DigitAndRest(c, rest, n);
      InThrees(longer) && |longer| == (n + 1) + (n + 1) / 3
  {
    LengthInThrees(n);
    PutInFront(c, rest);
    if (n + 1) % 3 == 0 {
      PutInFront(',', [c] + rest);
      assert DigitAndRest(c, rest, n) == [','] + ([c] + rest);
    } else {
      assert DigitAndRest(c, rest, n) == [c] + rest;
    }
  }

  /** The digits stand in threes from the end, with a comma between every two groups and none in front. */
  lemma CommasInThrees(s: string)
    requires AllDigits(s) && s != ""
    ensures InThrees(Grouped(s, 0)) && IsDigit(Grouped(s, 0)[0])
    ensures WithoutCommas(Grouped(s, 0)) == s
  {
    CommasAfterFirst(s, 1);
    UngroupedIsOriginal(s, 0);
    PutInFront(s[0], Grouped(s, 1));
    FirstHasNoComma(s);
  }

  lemma FirstHasNoComma(s: string)
    requires s != ""
    ensures Grouped(s, 0) == [s[0]] + Grouped(s, 1)
  {
  }

  // ---------------------------------------------------------------------------------- round trip

  lemma {:induction false} WithoutCommasConcat(s: string, t: string)
    ensures WithoutCommas(s + t) == WithoutCommas(s) + WithoutCommas(t)
  {
    if s == "" {
      assert s + t == t;
    } else {
      var kept := if s[0] == ',' then "" else [s[0]];
      calc {
        WithoutCommas(s + t);
        { assert (s + t)[0] == s[0] && (s + t)[1..] == s[1..] + t; }
        kept + WithoutCommas(s[1..] + t);
        { WithoutCommasConcat(s[1..], t); }
        kept + (WithoutCommas(s[1..]) + WithoutCommas(t));
        (kept + WithoutCommas(s[1..])) + WithoutCommas(t);
      }
    }
  }

  lemma {:induction false} NoCommasToRemove(s: string)
    requires forall i :: 0 <= i < |s| ==> s[i] != ','
    ensures WithoutCommas(s) == s
  {
    if s != "" {
      NoCommasToRemove(s[1..]);
    }
  }

  lemma {:induction false} UngroupedIsOriginal(s: string, i: nat)
    requires i <= |s| && AllDigits(s)
    ensures WithoutCommas(Grouped(s, i)) == s[i..]
    decreases |s| - i
  {
    if i < |s| {
      UngroupedIsOriginal(s, i + 1);
      var comma := if i > 0 && (|s| - i) % 3 == 0 then "," else "";
      WithoutCommasConcat(comma + [s[i]], Grouped(s, i + 1));
      WithoutCommasConcat(comma, [s[i]]);
      assert IsDigit(s[i]);
      NoCommasToRemove([s[i]]);
      assert WithoutCommas(",") == "" by { assert ","[1..] == ""; }
      assert WithoutCommas(comma) == "";
    }
  }

  lemma {:induction false} TextIsShort(n: nat, k: nat)
    requires 0 < k && n < Pow10(k)
    ensures |Text(n)| <= k
  {
    if n >= 10 {
      assert 1 < k by { assert Pow10(1) == 10 * Pow10(0); }
      assert Pow10(k) == 10 * Pow10(k - 1);
      TextIsShort(n / 10, k - 1);
    }
  }

  lemma TenTo18(n: nat)
    requires n == 18
    ensures Pow10(n) == USD
  {
    assert Pow10(6) == 1_000_000;
    Pow10Add(6, 6);
    Pow10Add(12, 6);
  }

  lemma PaddedFraction(frac: nat)
    requires frac < USD
    ensures |PadStart(Text(frac), 18)| == 18 && AllDigits(PadStart(Text(frac), 18))
    ensures Value(PadStart(Text(frac), 18)) == frac
  {
    TenTo18(18);
    TextIsShort(frac, 18);
    ReadOfText(frac);
    PaddedValue(Text(frac), 18);
  }

  lemma PaddedValue(s: string, n: nat)
    requires AllDigits(s) && |s| <= n
    ensures |PadStart(s, n)| == n && AllDigits(PadStart(s, n)) && Value(PadStart(s, n)) == Value(s)
  {
    var zeros := Repeat('0', n - |s|);
    ValueOfZeros(zeros);
    ValueConcat(zeros, s);
    assert PadStart(s, n) == zeros + s;
  }

  /** Keeping k of n digits and filling up with zeros clears the digits below. */
  lemma TruncatedValue(p: string, k: nat)
    requires AllDigits(p) && k <= |p|
    ensures AllDigits(p[..k] + Repeat('0', |p| - k))
    ensures Value(p[..k] + Repeat('0', |p| - k)) == Value(p) - Value(p) % Pow10(|p| - k)
  {
    assert p[..k] + p[k..] == p;
    TruncatedTail(p[..k], p[k..]);
  }

  lemma TruncatedTail(head: string, tail: string)
    requires AllDigits(head) && AllDigits(tail)
    ensures AllDigits(head + tail) && AllDigits(head + Repeat('0', |tail|))
    ensures Value(head + Repeat('0', |tail|)) == Value(head + tail) - Value(head + tail) % Pow10(|tail|)
  {
    ZeroFilled(head, |tail|);
    ValueConcat(head, tail);
    ValueBound(tail);
    DropLow(Value(head + tail), Value(head), Pow10(|tail|), Value(tail));
  }

  lemma ZeroFilled(digits: string, n: nat)
    requires AllDigits(digits)
    ensures AllDigits(digits + Repeat('0', n))
    ensures Value(digits + Repeat('0', n)) == Value(digits) * Pow10(n)
  {
    ValueOfZeros(Repeat('0', n));
    ValueConcat(digits, Repeat('0', n));
  }

  lemma DropLow(whole: nat, high: nat, shift: nat, low: nat)
    requires low < shift && whole == high * shift + low
    ensures whole - whole % shift == high * shift
  {
    FloorUnique(whole, shift, high);
  }

  lemma LowDigitsOfAmount(v: nat, d: nat)
    requires d <= 18
    ensures v % Pow10(18 - d) == (v % USD) % Pow10(18 - d)
  {
    var n := 18;
    TenTo18(n);
    Pow10Add(d, 18 - d);
    var p := Pow10(18 - d);
    FloorBounds(v, USD);
    MulAssoc(v / USD, Pow10(d), p);
    FloorShift(v % USD, (v / USD) * Pow10(d), p);
  }

  /** The text of a non-negative amount, once its commas are gone. */
  function Plain(v: nat, d: nat): string {
    Text(v / USD) + (if d > 0 then "." + Prefix(PadStart(Text(v % USD), 18), d) else "")
  }

  lemma FormattedWithoutCommas(v: nat, d: nat)
    ensures WithoutCommas(FormatUsd(v, d)) == Plain(v, d)
  {
    PaddedFraction(v % USD);
    var tail := if d > 0 then "." + Prefix(PadStart(Text(v % USD), 18), d) else "";
    assert FormatUsd(v, d) == Grouped(Text(v / USD), 0) + tail;
    UngroupedIsOriginal(Text(v / USD), 0);
    assert forall i :: 0 < i < |tail| ==> IsDigit(tail[i]);
    NoCommasToRemove(tail);
    WithoutCommasConcat(Grouped(Text(v / USD), 0), tail);
  }

  lemma PointAfterDigits(w: string, f: string, point: bool)
    requires AllDigits(w) && AllDigits(f) && (point || f == "")
    ensures WholePart(w + (if point then "." else "") + f) == w
    ensures FractionPart(w + (if point then "." else "") + f) == f
  {
    var s := w + (if point then "." else "") + f;
    assert forall i :: 0 <= i < |w| ==> IsDigit(w[i]) && s[i] == w[i];
    if point {
      assert s[|w|] == '.';
      assert PointAt(s) == |w|;
      assert s[|w| + 1..] == f;
    } else {
      assert s == w;
    }
    assert s[..|w|] == w;
  }

  /** Among the characters of ASCII exactly the blank and the five controls from tab on are trimmed. */
  lemma BlanksAreSpaces(c: char)
    requires c as int < 128
    ensures IsSpace(c) <==> c as int == 32 || 9 <= c as int <= 13
  {
  }

  predicate AllSpaces(s: string) {
    forall i :: 0 <= i < |s| ==> IsSpace(s[i])
  }

  lemma {:induction false} TrimStartDrops(before: string, s: string)
    requires AllSpaces(before) && s != "" && !IsSpace(s[0])
    ensures TrimStart(before + s) == s
  {
    if before == "" {
      assert before + s == s;
    } else {
      assert (before + s)[1..] == before[1..] + s;
      TrimStartDrops(before[1..], s);
    }
  }

  lemma {:induction false} TrimEndDrops(s: string, after: string)
    requires AllSpaces(after) && s != "" && !IsSpace(s[|s| - 1])
    ensures TrimEnd(s + after) == s
  {
    if after == "" {
      assert s + after == s;
    } else {
      assert (s + after)[..|s + after| - 1] == s + after[..|after| - 1];
      TrimEndDrops(s, after[..|after| - 1]);
    }
  }

  lemma {:induction false} TrimStartLeaves(s: string) returns (before: string)
    ensures s == before + TrimStart(s) && AllSpaces(before)
  {
    before := "";
    if s != "" && IsSpace(s[0]) {
      var rest := TrimStartLeaves(s[1..]);
      before := [s[0]] + rest;
    }
  }

  lemma {:induction false} TrimEndLeaves(s: string) returns (after: string)
    ensures s == TrimEnd(s) + after && AllSpaces(after)
  {
    after := "";
    if s != "" && IsSpace(s[|s| - 1]) {
      var rest := TrimEndLeaves(s[..|s| - 1]);
      after := rest + [s[|s| - 1]];
    }
  }

  /** Commas aside, the input is a number written as digits, or digits around one point, among spaces. */
  predicate Writes(input: string, before: string, w: string, point: bool, f: string, after: string) {
    && AllSpaces(before) && AllSpaces(after) && AllDigits(w) && AllDigits(f)
    && (w != "" || f != "") && (point || f == "")
    && WithoutCommas(input) == before + (w + (if point then "." else "") + f) + after
  }

  ghost predicate WritesAnAmount(input: string) {
    exists before, w, point, f, after :: Writes(input, before, w, point, f, after)
  }

  /** What an input writes is read to eighteen decimals, the further ones cut off; any other reads as zero. */
  lemma ParseMeans(input: string)
    ensures forall before, w, point, f, after | Writes(input, before, w, point, f, after) ::
      ParseUsd(input) == Value(w) * 1_000_000_000_000_000_000
                         + if |f| <= 18 then Value(f) * Pow10(18 - |f|) else Value(f[..18])
    ensures !WritesAnAmount(input) ==> ParseUsd(input) == 0
  {
    forall before, w, point, f, after | Writes(input, before, w, point, f, after)
      ensures ParseUsd(input) == Value(w) * 1_000_000_000_000_000_000
                                 + if |f| <= 18 then Value(f) * Pow10(18 - |f|) else Value(f[..18])
    {
      ReadOfWritten(input, before, w, point, f, after);
      FilledFraction(f);
    }
    if ParseUsd(input) != 0 {
      AcceptedIsWritten(input);
    }
  }

  lemma FilledFraction(f: string)
    requires AllDigits(f)
    ensures AllDigits(Prefix(PadEnd(f, 18), 18))
    ensures Value(Prefix(PadEnd(f, 18), 18)) == if |f| <= 18 then Value(f) * Pow10(18 - |f|) else Value(f[..18])
  {
    if |f| <= 18 {
      ZeroFilled(f, 18 - |f|);
      assert Prefix(PadEnd(f, 18), 18) == f + Repeat('0', 18 - |f|);
    } else {
      assert Prefix(PadEnd(f, 18), 18) == f[..18];
    }
  }

  lemma ReadOfWritten(input: string, before: string, w: string, point: bool, f: string, after: string)
    requires Writes(input, before, w, point, f, after)
    ensures AllDigits(Prefix(PadEnd(f, 18), 18))
    ensures ParseUsd(input) == Value(w) * USD + Value(Prefix(PadEnd(f, 18), 18))
  {
    var s := w + (if point then "." else "") + f;
    PointAfterDigits(w, f, point);
    EndsAreVisible(w, point, f);
    TrimStartDrops(before, s + after);
    assert before + s + after == before + (s + after);
    TrimEndDrops(s, after);
    FilledFraction(f);
  }

  lemma EndsAreVisible(w: string, point: bool, f: string)
    requires AllDigits(w) && AllDigits(f) && (w != "" || f != "") && (point || f == "")
    ensures
      var s := w + (if point then "." else "") + f;
      s != "" && !IsSpace(s[0]) && !IsSpace(s[|s| - 1]) && s != "."
  {
    var s := w + (if point then "." else "") + f;
    assert w != "" ==> IsDigit(w[0]) && s[0] == w[0] && IsDigit(w[|w| - 1]);
    assert f != "" ==> IsDigit(f[|f| - 1]) && s[|s| - 1] == f[|f| - 1];
    assert f == "" && !point ==> s == w;
    assert f == "" && point ==> s[|s| - 1] == '.';
    assert |s| == |w| + (if point then 1 else 0) + |f|;
  }

  lemma AcceptedIsWritten(input: string)
    requires ParseUsd(input) != 0
    ensures WritesAnAmount(input)
  {
    var bare := WithoutCommas(input);
    var before := TrimStartLeaves(bare);
    var after := TrimEndLeaves(TrimStart(bare));
    var cleaned := TrimEnd(TrimStart(bare));
    var w, f, point := WholePart(cleaned), FractionPart(cleaned), PointAt(cleaned) < |cleaned|;
    AmountSplits(cleaned);
    assert bare == before + cleaned + after;
    assert Writes(input, before, w, point, f, after);
  }

  lemma AmountSplits(s: string)
    requires s != "" && s != "."
    ensures
      var w, f, point := WholePart(s), FractionPart(s), PointAt(s) < |s|;
      s == w + (if point then "." else "") + f && (w != "" || f != "") && (point || f == "")
  {
    var k := PointAt(s);
    if k < |s| {
      SplitsAt(s, k);
    } else {
      AllBefore(s);
    }
  }

  lemma SplitsAt(s: string, k: nat)
    requires k < |s| && s[k] == '.' && s != "."
    ensures s == s[..k] + "." + s[k + 1..] && (s[..k] != "" || s[k + 1..] != "")
  {
  }

  lemma AllBefore(s: string)
    ensures s[..|s|] == s && s == s + "" + ""
  {
  }

  /**
   * Formatting with d decimals and reading back clears the digits below the d-th decimal and nothing
   * else; from 18 decimals on it is the identity. A negative amount does not read back at all.
   */
  lemma ReadOfFormatted(usd18: int, d: nat)
    ensures usd18 < 0 ==> ParseUsd(FormatUsd(usd18, d)) == 0
    ensures 0 <= usd18 && d <= 18 ==> ParseUsd(FormatUsd(usd18, d)) == usd18 - usd18 % Pow10(18 - d)
    ensures 0 <= usd18 && 18 <= d ==> ParseUsd(FormatUsd(usd18, d)) == usd18
  {
    if usd18 < 0 {
      NegativeIsNotAnAmount(usd18, d);
    } else {
      ReadOfNonNegative(usd18, d);
    }
  }

  /** The first k decimals of a fraction, read back as eighteen. */
  lemma ReadOfTruncatedFraction(frac: nat, k: nat)
    requires frac < USD && k <= 18
    ensures
      var f := Prefix(PadStart(Text(frac), 18), k);
      && AllDigits(f) && AllDigits(Prefix(PadEnd(f, 18), 18))
      && Value(Prefix(PadEnd(f, 18), 18)) == frac - frac % Pow10(18 - k)
  {
    PaddedFraction(frac);
    var padded := PadStart(Text(frac), 18);
    var f := Prefix(padded, k);
    assert f == padded[..k];
    assert padded[..k] + Repeat('0', 18 - k) == Prefix(PadEnd(f, 18), 18);
    TruncatedValue(padded, k);
  }

  lemma AmountParts(v: nat, k: nat)
    requires k <= 18
    ensures (v / USD) * USD + (v % USD - (v % USD) % Pow10(18 - k)) == v - v % Pow10(18 - k)
    ensures k == 18 ==> v % Pow10(18 - k) == 0
  {
    LowDigitsOfAmount(v, k);
    FloorBounds(v, USD);
    assert Pow10(0) == 1;
  }

  lemma PlainParts(v: nat, d: nat, k: nat)
    requires k == if d < 18 then d else 18
    ensures Plain(v, d) == Text(v / USD) + (if d > 0 then "." else "") + Prefix(PadStart(Text(v % USD), 18), k)
  {
    PaddedFraction(v % USD);
    var padded := PadStart(Text(v % USD), 18);
    assert Prefix(padded, d) == Prefix(padded, k);
    if d > 0 {
      assert Plain(v, d) == Text(v / USD) + ("." + Prefix(padded, k));
    } else {
      assert Prefix(padded, k) == "";
    }
  }

  /** The whole units, and the fraction cut to the shown digits. */
  lemma ReadInParts(v: nat, d: nat, k: nat)
    requires k == if d < 18 then d else 18
    ensures ParseUsd(FormatUsd(v, d)) == (v / USD) * USD + (v % USD - (v % USD) % Pow10(18 - k))
  {
    var f := Prefix(PadStart(Text(v % USD), 18), k);
    FormattedWithoutCommas(v, d);
    ReadOfTruncatedFraction(v % USD, k);
    ReadOfText(v / USD);
    PlainParts(v, d, k);
    assert WithoutCommas(FormatUsd(v, d)) == "" + (Text(v / USD) + (if d > 0 then "." else "") + f) + "";
    ReadOfWritten(FormatUsd(v, d), "", Text(v / USD), d > 0, f, "");
  }

  lemma ReadOfNonNegative(v: nat, d: nat)
    ensures d <= 18 ==> ParseUsd(FormatUsd(v, d)) == v - v % Pow10(18 - d)
    ensures 18 <= d ==> ParseUsd(FormatUsd(v, d)) == v
  {
    var k := if d < 18 then d else 18;
    ReadInParts(v, d, k);
    AmountParts(v, k);
  }

  lemma HighDigits(p: string, k: nat)
    requires AllDigits(p) && k <= |p|
    ensures Value(p[..k]) == Value(p) / Pow10(|p| - k)
  {
    assert p[..k] + p[k..] == p;
    HeadIsQuotient(p[..k], p[k..]);
  }

  lemma HeadIsQuotient(head: string, tail: string)
    requires AllDigits(head) && AllDigits(tail)
    ensures AllDigits(head + tail) && Value(head) == Value(head + tail) / Pow10(|tail|)
  {
    ValueConcat(head, tail);
    ValueBound(tail);
    FloorUnique(Value(head + tail), Pow10(|tail|), Value(head));
  }

  /** What is shown of an amount: its whole units in threes and, after a point, the first d of eighteen decimals. */
  lemma FormatMeans(v: nat, d: nat) returns (whole: string, fraction: string)
    requires 0 < d <= 18
    ensures FormatUsd(v, 0) == whole && FormatUsd(v, d) == whole + "." + fraction
    ensures InThrees(whole) && WithoutCommas(whole) == Text(v / 1_000_000_000_000_000_000)
    ensures |fraction| == d && AllDigits(fraction)
    ensures Value(fraction) == v % 1_000_000_000_000_000_000 / Pow10(18 - d)
  {
    whole := Grouped(Text(v / USD), 0);
    fraction := ShownFraction(v % USD, d);
    CommasInThrees(Text(v / USD));
    assert FormatUsd(v, d) == "" + whole + ("." + fraction);
    assert FormatUsd(v, 0) == "" + whole + "";
  }

  lemma ShownFraction(frac: nat, d: nat) returns (fraction: string)
    requires frac < USD && d <= 18
    ensures fraction == Prefix(PadStart(Text(frac), 18), d)
    ensures |fraction| == d && AllDigits(fraction) && Value(fraction) == frac / Pow10(18 - d)
  {
    fraction := Prefix(PadStart(Text(frac), 18), d);
    PaddedFraction(frac);
    HighDigits(PadStart(Text(frac), 18), d);
    assert fraction == PadStart(Text(frac), 18)[..d];
  }

  lemma NegativeIsNotAnAmount(usd18: int, d: nat)
    requires usd18 < 0
    ensures ParseUsd(FormatUsd(usd18, d)) == 0
  {
    MinusInFront(usd18, d);
    KeepsMinus(FormatUsd(-usd18, d));
    MinusIsNotAnAmount(WithoutCommas("-" + FormatUsd(-usd18, d)));
  }

  /** A negative amount is shown as its absolute value behind a minus sign. */
  lemma MinusInFront(usd18: int, d: nat)
    requires usd18 < 0
    ensures FormatUsd(usd18, d) == "-" + FormatUsd(-usd18, d)
  {
    var whole := Grouped(Text(-usd18 / USD), 0);
    var tail := if d > 0 then "." + Prefix(PadStart(Text(-usd18 % USD), 18), d) else "";
    SignInFront(whole, tail);
  }

  lemma SignInFront(whole: string, tail: string)
    ensures "-" + whole + tail == "-" + ("" + whole + tail)
  {
  }

  lemma KeepsMinus(s: string)
    ensures WithoutCommas("-" + s) == "-" + WithoutCommas(s)
  {
    assert ("-" + s)[1..] == s;
  }

  lemma MinusIsNotAnAmount(s: string)
    requires s != "" && s[0] == '-'
    ensures !IsAmount(TrimEnd(TrimStart(s)))
  {
    TrimKeepsFirst(s);
    var cleaned := TrimEnd(TrimStart(s));
    assert cleaned[0] == '-' && WholePart(cleaned)[0] == '-';
    assert !IsDigit(WholePart(cleaned)[0]);
  }

  lemma TrimKeepsFirst(s: string)
    requires s != "" && !IsSpace(s[0])
    ensures TrimStart(s) == s && TrimEnd(s) != "" && TrimEnd(s)[0] == s[0]
  {
    TrimEndKeepsFirst(s);
  }

  lemma {:induction false} TrimEndKeepsFirst(s: string)
    requires s != "" && !IsSpace(s[0])
    ensures TrimEnd(s) != "" && TrimEnd(s)[0] == s[0]
  {
    if IsSpace(s[|s| - 1]) {
      TrimEndKeepsFirst(s[..|s| - 1]);
    }
  }
}
