/**
 * JavaScript `parseFloat`: leading white space is skipped, then the longest
 * prefix that reads as a decimal literal (an optional sign, then `Infinity`
 * or digits with an optional fraction and an optional exponent) gives the
 * value; when no such prefix exists the result is NaN, modelled as `None`.
 * Values are exact reals; the rounding to a 64-bit float is not modelled.
 */
module Numbers {
  import opened Strings

  /** A number `parseFloat` can return (NaN is `None` at the call site). */
  datatype Num = Fin(val: real) | Inf(negative: bool)

  predicate IsDigit(c: char)
  {
    '0' <= c <= '9'
  }

  /** Every character of `s` from `i` up to `j` is a digit. */
  predicate DigitsBetween(s: string, i: nat, j: nat)
    requires i <= j <= |s|
  {
    forall k :: i <= k < j ==> IsDigit(s[k])
  }

  /** The end of the run of digits of `s` that starts at `i`. */
  function DigitEnd(s: string, i: nat): (j: nat)
    requires i <= |s|
    ensures i <= j <= |s|
    ensures j < |s| ==> !IsDigit(s[j])
    decreases |s| - i
  {
    if i < |s| && IsDigit(s[i]) then DigitEnd(s, i + 1) else i
  }

  lemma {:induction false} DigitEndDigits(s: string, i: nat)
    requires i <= |s|
    ensures DigitsBetween(s, i, DigitEnd(s, i))
    decreases |s| - i
  {
    if i < |s| && IsDigit(s[i]) {
      DigitEndDigits(s, i + 1);
    }
  }

  /** Past a `+` or `-` at `i`, if there is one. */
  function SignEnd(s: string, i: nat): (j: nat)
    requires i <= |s|
    ensures i <= j <= |s|
  {
    if i < |s| && (s[i] == '+' || s[i] == '-') then i + 1 else i
  }

  /** The end of a complete exponent part `e[+-]digits` at `i`, or `i` when there is none. */
  function ExponentEnd(s: string, i: nat): (j: nat)
    requires i <= |s|
    ensures i <= j <= |s|
  {
    if i < |s| && (s[i] == 'e' || s[i] == 'E') then
      var k := SignEnd(s, i + 1);
      var d := DigitEnd(s, k);
      if d == k then i else d
    else i
  }

  /** The end of the longest unsigned decimal literal at `i`, or `i` when there is none. */
  function UnsignedEnd(s: string, i: nat): (j: nat)
    requires i <= |s|
    ensures i <= j <= |s|
  {
    if OccursAt(s, "Infinity", i) then i + 8
    else
      var a := DigitEnd(s, i);
      if a < |s| && s[a] == '.' then
        var b := DigitEnd(s, a + 1);
        if a == i && b == a + 1 then i else ExponentEnd(s, b)
      else if a == i then i
      else ExponentEnd(s, a)
  }

  /** The length of the longest signed decimal literal at the front of `s` (0 when there is none). */
  function LiteralLen(s: string): (n: nat)
    ensures n <= |s|
  {
    var sg := SignEnd(s, 0);
    var n := UnsignedEnd(s, sg);
    if n == sg then 0 else n
  }

  /** The text `parseFloat(s)` reads: the literal after the leading white space. */
  function NumericLiteral(s: string): (lit: string)
    ensures lit == [] || !IsJsSpace(lit[0])
  {
    var u := TrimStartBy(s, IsJsSpace);
    u[..LiteralLen(u)]
  }

  /** `x * 10^n`, one factor of ten at a time. */
  function Shift10(x: real, n: nat): real
  {
    if n == 0 then x else 10.0 * Shift10(x, n - 1)
  }

  /** `x / 10^n`, one factor of ten at a time. */
  function Unshift10(x: real, n: nat): real
  {
    if n == 0 then x else Unshift10(x, n - 1) / 10.0
  }

  /** The value of the digits of `s` from `i` up to `j`. */
  function DigitsValue(s: string, i: nat, j: nat): nat
    requires i <= j <= |s| && DigitsBetween(s, i, j)
    decreases j - i
  {
    if j == i then 0 else DigitsValue(s, i, j - 1) * 10 + (s[j - 1] as int - '0' as int)
  }

  /** `x` scaled by the exponent part at `k` (left as it is when there is none). */
  function ApplyExponent(x: real, lit: string, k: nat): real
    requires k <= |lit|
  {
    if ExponentEnd(lit, k) == k then x
    else
      var sg := SignEnd(lit, k + 1);
      DigitEndDigits(lit, sg);
      var e := DigitsValue(lit, sg, DigitEnd(lit, sg));
      if sg == k + 2 && lit[k + 1] == '-' then Unshift10(x, e) else Shift10(x, e)
  }

  /** The value of the unsigned literal at `i` of `lit`. */
  function UnsignedValue(lit: string, i: nat): Num
    requires i <= |lit|
  {
    if OccursAt(lit, "Infinity", i) then Inf(false)
    else
      var a := DigitEnd(lit, i);
      DigitEndDigits(lit, i);
      if a < |lit| && lit[a] == '.' then
        var b := DigitEnd(lit, a + 1);
        DigitEndDigits(lit, a + 1);
        var mantissa := Shift10(DigitsValue(lit, i, a) as real, b - a - 1) + DigitsValue(lit, a + 1, b) as real;
        Fin(ApplyExponent(Unshift10(mantissa, b - a - 1), lit, b))
      else
        Fin(ApplyExponent(DigitsValue(lit, i, a) as real, lit, a))
  }

  function Negate(n: Num): Num
  {
    match n
    case Fin(v) => Fin(-v)
    case Inf(neg) => Inf(!neg)
  }

  /** `parseFloat(s)`, with NaN as `None`. */
  function ParseFloat(s: string): Option<Num>
  {
    var lit := NumericLiteral(s);
    if lit == [] then None
    else
      var v := UnsignedValue(lit, SignEnd(lit, 0));
      Some(if lit[0] == '-' then Negate(v) else v)
  }

  /** `!isNaN(parseFloat(s))`: some prefix of `s`, after white space, is a decimal literal. */
  predicate HasNumericPrefix(s: string)
  {
    ParseFloat(s).Some?
  }

  /** A numeric prefix is found exactly when the literal read is non-empty, and it starts with a digit, a sign, a point or `I`. */
  lemma NumericPrefixMeans(s: string)
    ensures HasNumericPrefix(s) <==> NumericLiteral(s) != []
    ensures HasNumericPrefix(s) ==> var c := NumericLiteral(s)[0];
      IsDigit(c) || c == '+' || c == '-' || c == '.' || c == 'I'
  {
  }

  /** Cutting `s` after the digit run at `i` does not change it. */
  lemma {:induction false} DigitEndPrefix(s: string, i: nat, m: nat)
    requires i <= |s| && DigitEnd(s, i) <= m <= |s|
    ensures DigitEnd(s[..m], i) == DigitEnd(s, i)
    decreases |s| - i
  {
    if i < |s| && IsDigit(s[i]) {
      assert s[..m][i] == s[i];
      DigitEndPrefix(s, i + 1, m);
    } else if i < m {
      assert s[..m][i] == s[i];
    }
  }

  /** Cutting `s` after the exponent part at `i` does not change it. */
  lemma ExponentEndPrefix(s: string, i: nat, m: nat)
    requires i <= |s| && ExponentEnd(s, i) <= m <= |s|
    ensures ExponentEnd(s[..m], i) == ExponentEnd(s, i)
  {
    var t := s[..m];
    if ExponentEnd(s, i) > i {
      assert t[i] == s[i];
      var k := SignEnd(s, i + 1);
      if k > i + 1 {
        assert t[i + 1] == s[i + 1];
      }
      assert SignEnd(t, i + 1) == k;
      DigitEndPrefix(s, k, m);
    } else if i < m {
      assert t[i] == s[i];
      if i + 1 < m && (s[i] == 'e' || s[i] == 'E') {
        assert t[i + 1] == s[i + 1];
        var k := SignEnd(s, i + 1);
        assert SignEnd(t, i + 1) == k;
        DigitEndPrefix(s, k, m);
      }
    }
  }

  /** `Infinity` at `i` is seen the same in `s` and in a prefix that holds it. */
  lemma InfinityPrefix(s: string, i: nat, m: nat)
    requires i <= m <= |s|
    ensures OccursAt(s[..m], "Infinity", i) ==> OccursAt(s, "Infinity", i)
    ensures OccursAt(s, "Infinity", i) && i + 8 <= m ==> OccursAt(s[..m], "Infinity", i)
  {
    if i + 8 <= m {
      assert s[..m][i..i + 8] == s[i..i + 8];
    }
  }

  /** An unsigned literal read from `s` at `i` is read whole from the prefix that ends with it. */
  lemma UnsignedEndPrefix(s: string, i: nat)
    requires i <= |s|
    ensures UnsignedEnd(s[..UnsignedEnd(s, i)], i) == UnsignedEnd(s, i)
  {
    var n := UnsignedEnd(s, i);
    var t := s[..n];
    InfinityPrefix(s, i, n);
    if !OccursAt(s, "Infinity", i) && n > i {
      var a := DigitEnd(s, i);
      DigitEndPrefix(s, i, n);
      if a < |s| && s[a] == '.' {
        var b := DigitEnd(s, a + 1);
        assert t[a] == '.';
        DigitEndPrefix(s, a + 1, n);
        ExponentEndPrefix(s, b, n);
      } else {
        ExponentEndPrefix(s, a, n);
        if a < n {
          assert t[a] == s[a];
        }
      }
    }
  }

  /** A signed literal read from `s` is read whole from the prefix that ends with it. */
  lemma LiteralLenPrefix(s: string)
    ensures LiteralLen(s[..LiteralLen(s)]) == LiteralLen(s)
  {
    var n := LiteralLen(s);
    if n > 0 {
      var t := s[..n];
      if SignEnd(s, 0) > 0 {
        assert t[0] == s[0];
      }
      assert SignEnd(t, 0) == SignEnd(s, 0);
      UnsignedEndPrefix(s, SignEnd(s, 0));
    }
  }

  /**
   * `parseFloat` reads only the literal: the literal it reads is read whole
   * on its own and gives the same number (or NaN for both).
   */
  lemma ParseFloatReadsLiteral(s: string)
    ensures NumericLiteral(NumericLiteral(s)) == NumericLiteral(s)
    ensures ParseFloat(NumericLiteral(s)) == ParseFloat(s)
  {
    var lit := NumericLiteral(s);
    var u := TrimStartBy(s, IsJsSpace);
    LiteralLenPrefix(u);
    if lit != [] {
      TrimStartVisible(lit, IsJsSpace);
    }
    assert lit[..LiteralLen(lit)] == lit;
  }

  /** A non-empty run of digits. */
  predicate AllDigits(s: string)
  {
    s != [] && forall k :: 0 <= k < |s| ==> IsDigit(s[k])
  }

  /** The text `\d+(\.\d+)?` matches: digits, optionally followed by a point and more digits. */
  predicate DecimalForm(lit: string)
  {
    AllDigits(lit)
    || ('.' in lit && AllDigits(lit[..IndexOfChar(lit, '.')]) && AllDigits(lit[IndexOfChar(lit, '.') + 1..]))
  }

  /** A run of digits from `i` that stops at `j` ends where `DigitEnd` says. */
  lemma {:induction false} DigitEndAt(s: string, i: nat, j: nat)
    requires i <= j <= |s| && DigitsBetween(s, i, j) && (j == |s| || !IsDigit(s[j]))
    ensures DigitEnd(s, i) == j
    decreases j - i
  {
    if i < j {
      DigitEndAt(s, i + 1, j);
    }
  }

  /** A text that starts with a digit is not `Infinity`. */
  lemma NotInfinity(s: string, i: nat)
    requires i < |s| && IsDigit(s[i])
    ensures !OccursAt(s, "Infinity", i)
  {
  }

  /** Digits alone are read whole. */
  lemma DigitsLiteralLen(lit: string)
    requires AllDigits(lit)
    ensures LiteralLen(lit) == |lit|
  {
    assert SignEnd(lit, 0) == 0;
    NotInfinity(lit, 0);
    DigitEndAt(lit, 0, |lit|);
  }

  /** Digits, a point and digits are read whole. */
  lemma PointLiteralLen(lit: string, a: nat)
    requires a < |lit| && lit[a] == '.' && AllDigits(lit[..a]) && AllDigits(lit[a + 1..])
    ensures LiteralLen(lit) == |lit|
  {
    assert lit[..a][0] == lit[0];
    assert SignEnd(lit, 0) == 0;
    NotInfinity(lit, 0);
    forall k | 0 <= k < a ensures IsDigit(lit[k]) {
      assert lit[k] == lit[..a][k];
    }
    DigitEndAt(lit, 0, a);
    forall k | a + 1 <= k < |lit| ensures IsDigit(lit[k]) {
      assert lit[k] == lit[a + 1..][k - a - 1];
    }
    DigitEndAt(lit, a + 1, |lit|);
  }

  /** The characters of a decimal form are digits and a point. */
  lemma DecimalChars(lit: string)
    requires DecimalForm(lit)
    ensures forall k :: 0 <= k < |lit| ==> IsDigit(lit[k]) || lit[k] == '.'
  {
    if !AllDigits(lit) {
      var a := IndexOfChar(lit, '.');
      forall k | 0 <= k < |lit| ensures IsDigit(lit[k]) || lit[k] == '.' {
        if k < a {
          assert lit[k] == lit[..a][k];
        } else if k > a {
          assert lit[k] == lit[a + 1..][k - a - 1];
        }
      }
    }
  }

  /** `parseFloat` reads a decimal form whole, and it holds no colon, `@` or brace. */
  lemma DecimalLiteral(lit: string)
    requires DecimalForm(lit)
    ensures NumericLiteral(lit) == lit && ParseFloat(lit).Some?
    ensures ':' !in lit && '@' !in lit && '{' !in lit
  {
    if AllDigits(lit) {
      DigitsLiteralLen(lit);
    } else {
      PointLiteralLen(lit, IndexOfChar(lit, '.'));
    }
    assert IsDigit(lit[0]);
    TrimStartVisible(lit, IsJsSpace);
    assert lit[..|lit|] == lit;
    DecimalChars(lit);
  }

  /** `parseFloat("1.2")` is 1.2. */
  lemma ParseDecimalExample()
    ensures NumericLiteral("1.2") == "1.2"
    ensures ParseFloat("1.2") == Some(Fin(1.2))
  {
    var s := "1.2";
    assert !IsJsSpace(s[0]);
    TrimStartVisible(s, IsJsSpace);
    assert !OccursAt(s, "Infinity", 0);
    assert DigitEnd(s, 0) == 1 by {
      assert DigitEnd(s, 1) == 1;
    }
    assert DigitEnd(s, 2) == 3;
    assert ExponentEnd(s, 3) == 3;
    assert LiteralLen(s) == 3;
    assert s[..3] == s;
    assert DigitsValue(s, 0, 1) == 1;
    assert DigitsValue(s, 2, 3) == 2;
    assert ExponentEnd(s, 3) == 3;
    assert Shift10(1.0, 1) == 10.0;
    assert Unshift10(12.0, 1) == 1.2;
  }

  /** `parseFloat("0")` is 0. */
  lemma ParseZeroExample()
    ensures NumericLiteral("0") == "0"
    ensures ParseFloat("0") == Some(Fin(0.0))
  {
    var s := "0";
    assert !IsJsSpace(s[0]);
    TrimStartVisible(s, IsJsSpace);
    assert !OccursAt(s, "Infinity", 0);
    assert DigitEnd(s, 0) == 1 by {
      assert DigitEnd(s, 1) == 1;
    }
    assert ExponentEnd(s, 1) == 1;
    assert LiteralLen(s) == 1;
    assert s[..1] == s;
    assert DigitsValue(s, 0, 1) == 0;
    assert ExponentEnd(s, 1) == 1;
  }

  /** Text after the literal is ignored: `parseFloat(" 5x")` is 5. */
  lemma ParsePrefixExample()
    ensures ParseFloat(" 5x") == Some(Fin(5.0))
  {
    var s := " 5x";
    var u := "5x";
    assert s[1..] == u;
    assert !IsJsSpace(u[0]);
    TrimStartVisible(u, IsJsSpace);
    assert TrimStartBy(s, IsJsSpace) == u;
    assert !OccursAt(u, "Infinity", 0);
    assert DigitEnd(u, 0) == 1 by {
      assert DigitEnd(u, 1) == 1;
    }
    assert ExponentEnd(u, 1) == 1;
    assert LiteralLen(u) == 1;
    var lit := u[..1];
    assert lit == "5";
    assert NumericLiteral(s) == lit;
    assert !OccursAt(lit, "Infinity", 0);
    assert DigitEnd(lit, 0) == 1;
    assert DigitsValue(lit, 0, 1) == 5;
    assert ExponentEnd(lit, 1) == 1;
  }

  /** Text without a literal is NaN. */
  lemma ParseNaNExample()
    ensures ParseFloat("abc") == None
  {
    var s := "abc";
    assert !IsJsSpace(s[0]);
    TrimStartVisible(s, IsJsSpace);
    assert !OccursAt(s, "Infinity", 0);
    assert DigitEnd(s, 0) == 0;
  }

  /** A point without digits is not a literal. */
  lemma ParsePointExample()
    ensures ParseFloat(".") == None
  {
    var s := ".";
    assert !IsJsSpace(s[0]);
    TrimStartVisible(s, IsJsSpace);
    assert !OccursAt(s, "Infinity", 0);
    assert DigitEnd(s, 0) == 0;
    assert DigitEnd(s, 1) == 1;
  }
}
