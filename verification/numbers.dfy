/** `toNumber`: a cell is turned into a string, stripped of every character
    other than digits, '.' and '-', and read with JavaScript's `Number`;
    anything that does not read as a finite number counts as 0. */
module Numbers {
  import opened Wrappers
  import opened Seqs

  predicate IsDigit(c: char) {
    '0' <= c <= '9'
  }

  predicate AllDigits(s: string) {
    forall i :: 0 <= i < |s| ==> IsDigit(s[i])
  }

  function DigitValue(c: char): nat
    requires IsDigit(c)
  {
    (c as int) - ('0' as int)
  }

  function DigitChar(d: nat): (c: char)
    requires d < 10
    ensures IsDigit(c) && DigitValue(c) == d
  {
    (('0' as int) + d) as char
  }

  /** The value of a run of decimal digits, most significant first. */
  function DigitsValue(s: string): nat
    requires AllDigits(s)
    decreases |s|
  {
    if s == [] then 0 else 10 * DigitsValue(s[..|s| - 1]) + DigitValue(s[|s| - 1])
  }

  function Pow10(n: nat): (r: nat)
    ensures r >= 1
  {
    if n == 0 then 1 else 10 * Pow10(n - 1)
  }

  /** The shortest decimal rendering of a natural number. */
  function DecimalString(n: nat): (s: string)
    ensures |s| >= 1 && AllDigits(s)
    ensures n > 0 ==> s[0] != '0'
    decreases n
  {
    if n < 10 then [DigitChar(n)] else DecimalString(n / 10) + [DigitChar(n % 10)]
  }

  /** Reading a rendered number gives the number back. */
  lemma {:induction false} DecimalRoundTrip(n: nat)
    ensures DigitsValue(DecimalString(n)) == n
    decreases n
  {
    if n >= 10 {
      DecimalRoundTrip(n / 10);
      var s := DecimalString(n);
      assert s[..|s| - 1] == DecimalString(n / 10);
    }
  }

  /** The characters `replace(/[^0-9.-]/g, "")` keeps. */
  predicate Kept(c: char) {
    IsDigit(c) || c == '.' || c == '-'
  }

  /** The cleaned text: the kept characters of `s`, in their order. */
  function Clean(s: string): (r: string)
    ensures forall c :: c in r <==> c in s && Kept(c)
    ensures IsSubsequence(r, s)
  {
    FilterIsSubsequence(Kept, s);
    Filter(Kept, s)
  }

  /** Cleaning works character by character: a text is cleaned piecewise,
      and one character is kept or dropped according to `Kept` alone. */
  lemma CleanPiecewise(a: string, b: string, c: char)
    ensures Clean(a + b) == Clean(a) + Clean(b)
    ensures Clean([c]) == if Kept(c) then [c] else []
  {
    FilterAppend(Kept, a, b);
    assert [c][..0] == [];
  }

  /** `String(v)`: an absent cell prints as "undefined". */
  function Str(v: Option<string>): string {
    if v.Some? then v.value else "undefined"
  }

  /** Digits before and after a decimal point. */
  function PointValue(whole: string, frac: string): real
    requires AllDigits(whole) && AllDigits(frac)
  {
    DigitsValue(whole) as real + (DigitsValue(frac) as real) / (Pow10(|frac|) as real)
  }

  /** An unsigned number: digits, and an optional point with digits, with at
      least one digit in all. */
  function Unsigned(body: string): Option<real> {
    if '.' in body then
      var k := IndexOf(body, '.');
      var whole, frac := body[..k], body[k + 1..];
      if AllDigits(whole) && AllDigits(frac) && |whole| + |frac| > 0
      then Some(PointValue(whole, frac))
      else None
    else if AllDigits(body) && |body| > 0 then Some(DigitsValue(body) as real)
    else None
  }

  function Negate(x: Option<real>): Option<real> {
    if x.Some? then Some(-x.value) else None
  }

  /** `Number(s)` for a string of digits, '.' and '-': the empty string is 0,
      otherwise an optional minus sign and an unsigned number. `None` is NaN. */
  function NumberOf(s: string): Option<real> {
    if s == [] then Some(0.0)
    else if s[0] == '-' then Negate(Unsigned(s[1..]))
    else Unsigned(s)
  }

  /** An unsigned number is never negative and is written with a digit. */
  lemma UnsignedMeans(body: string)
    requires Unsigned(body).Some?
    ensures Unsigned(body).value >= 0.0
    ensures exists c :: c in body && IsDigit(c)
  {
    if '.' in body {
      var k := IndexOf(body, '.');
      var whole, frac := body[..k], body[k + 1..];
      if |whole| > 0 {
        assert whole[0] == body[0];
      } else {
        assert frac[0] == body[k + 1];
      }
    } else {
      assert IsDigit(body[0]);
    }
  }

  /** A number read from text is negative only with a minus sign, and is
      other than 0 only with a digit. */
  lemma NumberMeans(t: string)
    ensures NumberOf(t).Some? && NumberOf(t).value < 0.0 ==> '-' in t
    ensures NumberOf(t).Some? && NumberOf(t).value != 0.0 ==> exists c :: c in t && IsDigit(c)
  {
    if NumberOf(t).Some? && t != [] {
      var body := if t[0] == '-' then t[1..] else t;
      UnsignedMeans(body);
      var c :| c in body && IsDigit(c);
      assert c in t;
    }
  }

  /** `toNumber`: a negative result needs a minus sign in the text, and any
      result other than 0 needs a digit. */
  function ToNumber(v: Option<string>): (r: real)
    ensures r < 0.0 ==> '-' in Str(v)
    ensures r != 0.0 ==> exists c :: c in Str(v) && IsDigit(c)
  {
    NumberMeans(Clean(Str(v)));
    NumberOf(Clean(Str(v))).GetOr(0.0)
  }

  /** An absent cell counts as 0. */
  lemma ToNumberUndefined()
    ensures ToNumber(None) == 0.0
  {
    assert Clean("undefined") == [] by {
      FilterNone(Kept, "undefined");
    }
  }

  /** Characters outside digits, '.' and '-' never matter. */
  lemma ToNumberIgnoresOthers(s: string)
    ensures ToNumber(Some(s)) == ToNumber(Some(Clean(s)))
  {
    FilterAll(Kept, Clean(s));
  }

  /** A run of digits, with or without a leading minus sign, reads as its value. */
  lemma NumberOfDigits(d: string)
    requires AllDigits(d) && |d| > 0
    ensures NumberOf(d) == Some(DigitsValue(d) as real)
    ensures NumberOf("-" + d) == Some(-(DigitsValue(d) as real))
  {
    assert d[0] != '-';
    forall j | 0 <= j < |d| ensures d[j] != '.' {
      assert IsDigit(d[j]);
    }
    assert '.' !in d;
    assert Unsigned(d) == Some(DigitsValue(d) as real);
    assert ("-" + d)[1..] == d;
  }

  /** A rendered natural number reads back as itself, and with a leading
      minus sign as its negation. */
  lemma ToNumberDecimal(n: nat)
    ensures ToNumber(Some(DecimalString(n))) == n as real
    ensures ToNumber(Some("-" + DecimalString(n))) == -(n as real)
  {
    var d := DecimalString(n);
    DecimalRoundTrip(n);
    NumberOfDigits(d);
    FilterAll(Kept, d);
    FilterAll(Kept, "-" + d);
  }

  /** Two decimal points make NaN, which counts as 0. */
  lemma ToNumberTwoPoints(a: string, b: string, c: string)
    requires AllDigits(a) && AllDigits(b) && AllDigits(c)
    ensures ToNumber(Some(a + "." + b + "." + c)) == 0.0
  {
    var s := a + "." + b + "." + c;
    CleanKeepsFigure(a, b, c);
    assert s != [] && s[0] != '-' by {
      if |a| > 0 {
        assert s[0] == a[0];
      } else {
        assert s[0] == '.';
      }
    }
    UnsignedTwoPoints(a, b, c);
    assert NumberOf(s) == None;
  }

  /** Digits and points pass through cleaning untouched. */
  lemma CleanKeepsFigure(a: string, b: string, c: string)
    requires AllDigits(a) && AllDigits(b) && AllDigits(c)
    ensures Clean(a + "." + b + "." + c) == a + "." + b + "." + c
  {
    var s := a + "." + b + "." + c;
    assert forall x :: x in s ==> Kept(x);
    FilterAll(Kept, s);
  }

  lemma UnsignedTwoPoints(a: string, b: string, c: string)
    requires AllDigits(a) && AllDigits(b) && AllDigits(c)
    ensures Unsigned(a + "." + b + "." + c) == None
  {
    var s := a + "." + b + "." + c;
    assert s[|a|] == '.';
    var k := IndexOf(s, '.');
    forall j | 0 <= j < |a| ensures s[j] != '.' {
      assert s[j] == a[j];
    }
    assert k == |a|;
    assert s[k + 1..][|b|] == '.';
  }
}
