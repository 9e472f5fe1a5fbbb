/** The value of a number token: get_number. */
module JsonNumber {
  import opened Decimal
  import opened JsonResult
  import opened JsonValue

  const UINT_MAX := 0xffff_ffff_ffff_ffff
  const TWO_TO_64 := 0x1_0000_0000_0000_0000

  // The accumulator after one more digit; unsigned arithmetic wraps around.
  function Wrapped(value: UInt64, c: char): UInt64
    requires IsDigit(c)
  {
    (value * 10 + DigitValue(c)) % TWO_TO_64
  }

  // The number read from the digits, -1 when it is taken for a floating-point number.
  function Accumulated(t: string, value: UInt64, max: UInt64): (n: int)
    requires value <= max
    ensures -1 <= n <= max
  {
    if t == [] then value
    else if !IsDigit(t[0]) then -1
    else
      var temp := Wrapped(value, t[0]);
      if temp < value || temp > max then -1 else Accumulated(t[1..], temp, max)
  }

  // The largest absolute value: of a negative number 2 to the power of 63.
  function Limit(negative: bool): UInt64 {
    if negative then 0x8000_0000_0000_0000 else UINT_MAX
  }

  // get_number; `strtod` is the C library's function.
  function NumberOf(t: string, strtod: string -> real): Json {
    var negative := t != [] && t[0] == '-';
    var n := Accumulated(if negative then t[1..] else t, 0, Limit(negative));
    if n < 0 then Float(strtod(t))
    else if negative then Int(-n)
    else UInt(n)
  }

  // The type starts from the sign and becomes floating-point at the first sign of it.
  method GetNumber(t: string, strtod: string -> real) returns (result: Json)
    ensures result == NumberOf(t, strtod)
  {
    hide Wrapped;
    var curptr := 0;
    var negative := t != [] && t[0] == '-';
    var max: UInt64 := Limit(negative);
    if negative {
      curptr := 1;
    }
    ghost var first := curptr;
    var floating := false;
    var value: UInt64 := 0;
    assert !negative ==> t[0..] == t;
    while curptr < |t|
      invariant first <= curptr <= |t| && value <= max
      invariant Accumulated(t[first..], 0, max) == if floating then -1 else Accumulated(t[curptr..], value, max)
    {
      var c := t[curptr];
      ghost var left := t[curptr..];
      assert left[0] == c && left[1..] == t[curptr + 1..];
      if !IsDigit(c) {
        floating := true;
        if c != '.' {
          break;
        }
      } else if !floating {
        var temp := Wrapped(value, c);
        if temp < value || temp > max {
          floating := true;
        } else {
          value := temp;
        }
      }
      curptr := curptr + 1;
    }
    if floating {
      return Float(strtod(t));
    }
    assert t[curptr..] == [];
    var n: int := value;
    return if negative then Int(-n) else UInt(n);
  }

  // ---- Tokens with a fraction or an exponent ----

  lemma {:induction false} OtherCharacterStops(t: string, value: UInt64, max: UInt64)
    requires value <= max && !AllDigits(t)
    ensures Accumulated(t, value, max) == -1
  {
    hide Wrapped;
    if IsDigit(t[0]) {
      assert t == [t[0]] + t[1..];
      var temp := Wrapped(value, t[0]);
      if value <= temp <= max {
        OtherCharacterStops(t[1..], temp, max);
      }
    }
  }

  predicate HasFractionOrExponent(t: string) {
    '.' in t || 'e' in t || 'E' in t
  }

  // A number with a point or an exponent letter is what strtod makes of the whole token.
  lemma {:induction false} FractionIsFloat(t: string, strtod: string -> real)
    requires HasFractionOrExponent(t)
    ensures NumberOf(t, strtod) == Float(strtod(t))
  {
    var c :| c in t && (c == '.' || c == 'e' || c == 'E');
    var negative := t[0] == '-';
    var d := if negative then t[1..] else t;
    assert t == [t[0]] + t[1..];
    assert c in d && !IsDigit(c);
    OtherCharacterStops(d, 0, Limit(negative));
    hide Accumulated;
  }

  // ---- Integer tokens ----

  // The number that the digits `t` after the number `value` stand for.
  function Extended(value: nat, t: string): (n: nat)
    requires AllDigits(t)
    ensures value <= n
    decreases |t|
  {
    if t == [] then value else Extended(value * 10 + DigitValue(t[0]), t[1..])
  }

  lemma {:induction false} ExtendedSnoc(value: nat, t: string, c: char)
    requires AllDigits(t) && IsDigit(c)
    ensures Extended(value, t + [c]) == Extended(value, t) * 10 + DigitValue(c)
    decreases |t|
  {
    if t == [] {
      assert t + [c] == [c] && [c][1..] == [];
    } else {
      assert (t + [c])[1..] == t[1..] + [c];
      ExtendedSnoc(value * 10 + DigitValue(t[0]), t[1..], c);
    }
  }

  lemma {:induction false} ExtendedIsNumeral(t: string)
    requires AllDigits(t)
    ensures Extended(0, t) == Numeral(t)
    decreases |t|
  {
    if t != [] {
      var p := t[..|t| - 1];
      assert t == p + [t[|t| - 1]];
      ExtendedIsNumeral(p);
      ExtendedSnoc(0, p, t[|t| - 1]);
    }
  }

  // As long as the number fits, the guard does not fire.
  lemma {:induction false} AccumulatedFits(t: string, value: UInt64, max: UInt64)
    requires AllDigits(t) && value <= max && Extended(value, t) <= max
    ensures Accumulated(t, value, max) == Extended(value, t)
  {
    if t != [] {
      var next := value * 10 + DigitValue(t[0]);
      assert next <= max && Wrapped(value, t[0]) == next;
      AccumulatedFits(t[1..], next, max);
    }
  }

  // The integer a number is, if it was not read as a floating-point number.
  function IntegerIn(j: Json): Option<int> {
    match j
    case Int(i) => Some(i)
    case UInt(n) => Some(n)
    case _ => None
  }

  function Signed(n: int, negative: bool): int {
    if negative then -n else n
  }

  function Token(d: string, negative: bool): string {
    if negative then "-" + d else d
  }

  predicate Fits(n: nat, negative: bool) {
    n <= if negative then 0x8000_0000_0000_0000 else 0xffff_ffff_ffff_ffff
  }

  // An integer token is read exactly if and only if it fits: from 0 in an unsigned number of 64 bits, with a minus
  // sign in a signed one.
  lemma {:induction false} IntegerIsExactIff(d: string, negative: bool, strtod: string -> real)
    requires AllDigits(d) && d != []
    ensures var t := Token(d, negative);
            IntegerIn(NumberOf(t, strtod)) == Some(Signed(Numeral(d), negative)) <==> Fits(Numeral(d), negative)
    ensures var t := Token(d, negative);
            Fits(Numeral(d), negative) ==>
              NumberOf(t, strtod) == if negative then Int(Signed(Numeral(d), true)) else UInt(Numeral(d))
  {
    ExtendedIsNumeral(d);
    assert IsDigit(d[0]);
    assert ("-" + d)[1..] == d;
    hide Accumulated, Numeral, Extended;
    if Numeral(d) <= Limit(negative) {
      AccumulatedFits(d, 0, Limit(negative));
    }
  }

  // ---- When the guard fires ----

  // The number so far, as it wraps around in 64 bits.
  function WrappedNumeral(t: string): (n: UInt64)
    requires AllDigits(t)
  {
    Numeral(t) % TWO_TO_64
  }

  // From `i` on, no digit makes the wrapped number smaller than before it or larger than the limit.
  predicate NeverFires(t: string, i: nat, max: UInt64)
    requires AllDigits(t) && i <= |t|
  {
    forall k :: i <= k < |t| ==> Passes(t, k, max)
  }

  predicate Passes(t: string, k: nat, max: UInt64)
    requires AllDigits(t) && k < |t|
  {
    WrappedNumeral(t[..k]) <= WrappedNumeral(t[..k + 1]) <= max
  }

  lemma {:induction false} WrapOfWrapped(n: nat, d: nat)
    ensures (n % TWO_TO_64 * 10 + d) % TWO_TO_64 == (n * 10 + d) % TWO_TO_64
  {
    var q, r := n / TWO_TO_64, n % TWO_TO_64;
    assert n * 10 + d == r * 10 + d + 10 * q * TWO_TO_64;
    WholeWraps(r * 10 + d, 10 * q);
  }

  lemma {:induction false} WholeWraps(a: nat, k: nat)
    ensures (a + k * TWO_TO_64) % TWO_TO_64 == a % TWO_TO_64
  {
    if k > 0 {
      WholeWraps(a, k - 1);
      assert a + k * TWO_TO_64 == a + (k - 1) * TWO_TO_64 + TWO_TO_64;
      OnceMore(a + (k - 1) * TWO_TO_64);
    }
  }

  lemma {:induction false} OnceMore(a: nat)
    ensures (a + TWO_TO_64) % TWO_TO_64 == a % TWO_TO_64
  {
  }

  lemma {:induction false} NextWrapped(t: string, k: nat)
    requires AllDigits(t) && k < |t|
    ensures Wrapped(WrappedNumeral(t[..k]), t[k]) == WrappedNumeral(t[..k + 1])
  {
    var p := t[..k + 1];
    assert p[..k] == t[..k] && p[k] == t[k];
    assert Numeral(p) == Numeral(t[..k]) * 10 + DigitValue(t[k]);
    WrapOfWrapped(Numeral(t[..k]), DigitValue(t[k]));
  }

  // The accumulator holds the wrapped number as long as the guard has not fired.
  lemma {:induction false} AccumulatedWraps(t: string, i: nat, max: UInt64)
    requires AllDigits(t) && i <= |t| && WrappedNumeral(t[..i]) <= max
    ensures Accumulated(t[i..], WrappedNumeral(t[..i]), max) ==
              if NeverFires(t, i, max) then WrappedNumeral(t) else -1
    decreases |t| - i
  {
    hide WrappedNumeral, Wrapped;
    if i == |t| {
      assert t[..i] == t;
    } else {
      NextWrapped(t, i);
      assert t[i..][0] == t[i] && t[i..][1..] == t[i + 1..];
      assert NeverFires(t, i, max) <==> Passes(t, i, max) && NeverFires(t, i + 1, max);
      if Passes(t, i, max) {
        AccumulatedWraps(t, i + 1, max);
      }
    }
  }

  // An integer token of any length and either sign becomes a floating-point number exactly when the guard fires, and
  // otherwise the integer that its digits wrap around to.
  lemma {:induction false} GuardFiresIff(d: string, negative: bool, strtod: string -> real)
    requires AllDigits(d) && d != []
    ensures var r := NumberOf(Token(d, negative), strtod);
            if NeverFires(d, 0, Limit(negative)) then
              IntegerIn(r) == Some(Signed(WrappedNumeral(d), negative)) && (r.Int? <==> negative)
            else r == Float(strtod(Token(d, negative)))
  {
    assert IsDigit(d[0]) && ("-" + d)[1..] == d;
    assert d[..0] == [] && d[0..] == d;
    NothingWrapped();
    AccumulatedWraps(d, 0, Limit(negative));
    hide Accumulated, WrappedNumeral, NeverFires;
  }

  lemma {:induction false} NothingWrapped()
    ensures WrappedNumeral([]) == 0
  {
  }

  lemma {:induction false} PrefixIsLess(t: string, k: nat)
    requires AllDigits(t) && k <= |t|
    ensures Numeral(t[..k]) <= Numeral(t)
    decreases |t| - k
  {
    if k == |t| {
      assert t[..k] == t;
    } else {
      PrefixIsLess(t, k + 1);
      assert t[..k + 1][..k] == t[..k];
    }
  }

  lemma {:induction false} FitsPasses(t: string, k: nat, max: UInt64)
    requires AllDigits(t) && k < |t| && Numeral(t[..k + 1]) <= max
    ensures Passes(t, k, max)
  {
    PrefixIsLess(t[..k + 1], k);
    assert t[..k + 1][..k] == t[..k];
    hide Numeral;
    SmallIsUnwrapped(Numeral(t[..k]));
    SmallIsUnwrapped(Numeral(t[..k + 1]));
  }

  lemma {:induction false} SmallIsUnwrapped(n: UInt64)
    ensures n % TWO_TO_64 == n
  {
  }

  // The first digit that goes beyond the limit is noticed unless the wrapped number lies between the number before it
  // and the limit.
  lemma {:induction false} OverflowIsMissedIff(d: string, c: char, negative: bool, strtod: string -> real)
    requires AllDigits(d) && d != [] && IsDigit(c)
    requires Numeral(d) <= Limit(negative) < Numeral(d) * 10 + DigitValue(c)
    ensures var t := Token(d + [c], negative);
            var wrapped := (Numeral(d) * 10 + DigitValue(c)) % TWO_TO_64;
            NumberOf(t, strtod) ==
              if !(Numeral(d) <= wrapped <= Limit(negative)) then Float(strtod(t))
              else if negative then Int(Signed(wrapped, true))
              else UInt(wrapped)
  {
    var t := d + [c];
    assert t[..|d|] == d && t[..|d| + 1] == t && t[|d|] == c && t[..|t| - 1] == d;
    assert WrappedNumeral(t) == (Numeral(d) * 10 + DigitValue(c)) % TWO_TO_64;
    SmallIsUnwrapped(Numeral(d));
    GuardFiresIff(t, negative, strtod);
    forall k: nat | k < |d|
      ensures Passes(t, k, Limit(negative))
    {
      PrefixIsLess(d, k + 1);
      assert t[..k + 1] == d[..k + 1];
      FitsPasses(t, k, Limit(negative));
    }
    hide Numeral, NumberOf;
    assert NeverFires(t, 0, Limit(negative)) <==> Passes(t, |d|, Limit(negative));
  }

  lemma {:induction false} NumeralTimesTen(d: string)
    requires AllDigits(d)
    ensures Numeral(d + "0") == Numeral(d) * 10
  {
    assert (d + "0")[..|d + "0"| - 1] == d;
  }

  lemma {:induction false} TenTimes(n: UInt64, negative: bool, strtod: string -> real)
    requires n <= Limit(negative) < n * 10
    ensures var d := ToString(n); var wrapped := n * 10 % TWO_TO_64;
            && Numeral(d + "0") == n * 10
            && (n <= wrapped <= Limit(negative) ==>
                  NumberOf(Token(d + "0", negative), strtod) ==
                  if negative then Int(Signed(wrapped, true)) else UInt(wrapped))
  {
    hide NumberOf, ToString, Accumulated;
    var d := ToString(n);
    NumeralOfToString(n);
    NumeralTimesTen(d);
    hide Numeral;
    OverflowIsMissedIff(d, '0', negative, strtod);
  }

  // 30000000000000000000 and -62000000000000000000 are more than 64 bits hold, and are read as other integers.
  lemma {:induction false} OverflowsAreMissed(strtod: string -> real)
    ensures var d := ToString(3_000_000_000_000_000_000) + "0";
            && Numeral(d) == 30_000_000_000_000_000_000
            && NumberOf(d, strtod) == UInt(11_553_255_926_290_448_384)
    ensures var d := ToString(6_200_000_000_000_000_000) + "0";
            && Numeral(d) == 62_000_000_000_000_000_000
            && NumberOf("-" + d, strtod) == Int(-6_659_767_778_871_345_152)
  {
    hide NumberOf, ToString, Numeral;
    TenTimes(3_000_000_000_000_000_000, false, strtod);
    TenTimes(6_200_000_000_000_000_000, true, strtod);
  }
}
