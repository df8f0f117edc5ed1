/**
 * The weight codec `calculateWeight`: enclosing `(...)` and `[...]` pairs are
 * peeled one at a time, an explicit `:value` after the last colon is read
 * with `parseFloat`, and the multiplier is 1.1 per round pair and 0.9 per
 * square pair, with one round pair absorbed by an explicit value.
 */
module WeightCodec {
  import opened Strings
  import opened Numbers

  /** `syntax`: `round`, `square` or `plain`. */
  datatype Syntax = Round | Square | PlainSyntax

  /** An explicit value: the literal `parseFloat` read and the number it gave. */
  datatype Explicit = Explicit(literal: string, num: Num)

  /** The result of `calculateWeight`: `{ text, value, syntax, explicitVal, depth }`. */
  datatype Weight = Weight(text: string, value: Num, syntax: Syntax, explicit: Option<Explicit>, depth: nat)

  /** What the peeling loop leaves: the inner text and how many pairs of each kind it removed. */
  datatype Peeled = Peeled(text: string, rounds: nat, squares: nat)

  /** `Math.pow(x, n)` for a whole exponent. */
  function Pow(x: real, n: nat): real
  {
    if n == 0 then 1.0 else x * Pow(x, n - 1)
  }

  /** `s.startsWith(open) && s.endsWith(close)` for one-character markers. */
  predicate Wrapped(s: string, open: char, close: char)
  {
    |s| >= 1 && s[0] == open && s[|s| - 1] == close
  }

  /** The inside of a wrapped string: `s.substring(1, s.length - 1)`. */
  function Inside(s: string): string
    requires |s| >= 2
  {
    s[1..|s| - 1]
  }

  /** The peeling loop as a function: the round test first, then the square test, until neither holds. */
  function Peel(s: string): Peeled
    decreases |s|
  {
    if Wrapped(s, '(', ')') then
      var p := Peel(Inside(s));
      p.(rounds := p.rounds + 1)
    else if Wrapped(s, '[', ']') then
      var p := Peel(Inside(s));
      p.(squares := p.squares + 1)
    else Peeled(s, 0, 0)
  }

  /** `v` times 1.1 once per round pair and 0.9 once per square pair, one factor at a time. */
  function Boost(v: real, rounds: nat, squares: nat): real
    decreases rounds, squares
  {
    if rounds > 0 then 1.1 * Boost(v, rounds - 1, squares)
    else if squares > 0 then 0.9 * Boost(v, 0, squares - 1)
    else v
  }

  /** `Math.pow(1.1, rounds) * Math.pow(0.9, squares)`. */
  function Multiplier(rounds: nat, squares: nat): real
  {
    Boost(1.0, rounds, squares)
  }

  /** `explicitVal * Math.pow(1.1, rounds) * Math.pow(0.9, squares)`: infinities stay infinite, the factors being positive. */
  function Scale(n: Num, rounds: nat, squares: nat): Num
  {
    match n
    case Fin(v) => Fin(Boost(v, rounds, squares))
    case Inf(neg) => Inf(neg)
  }

  /** The multiplier is the product of the powers `calculateWeight` computes with `Math.pow`. */
  lemma {:induction false} MultiplierIsPow(rounds: nat, squares: nat)
    ensures Multiplier(rounds, squares) == Pow(1.1, rounds) * Pow(0.9, squares)
    decreases rounds, squares
  {
    if rounds > 0 {
      MultiplierIsPow(rounds - 1, squares);
    } else if squares > 0 {
      MultiplierIsPow(0, squares - 1);
    }
  }

  /** An explicit value is multiplied by the same factor a bare tag gets. */
  lemma {:induction false} BoostIsProduct(v: real, rounds: nat, squares: nat)
    ensures Boost(v, rounds, squares) == v * Multiplier(rounds, squares)
    decreases rounds, squares
  {
    if rounds > 0 {
      BoostIsProduct(v, rounds - 1, squares);
    } else if squares > 0 {
      BoostIsProduct(v, 0, squares - 1);
    }
  }

  function SyntaxOf(rounds: nat, squares: nat): Syntax
  {
    if rounds > 0 then Round else if squares > 0 then Square else PlainSyntax
  }

  /**
   * The value rules of `calculateWeight` applied to the peeled text: an
   * explicit value after the last colon when `parseFloat` reads one there,
   * otherwise the bracket multiplier alone.
   */
  function Weigh(text: string, rounds: nat, squares: nat): Weight
  {
    var syntax := SyntaxOf(rounds, squares);
    var bare := Weight(text, Fin(Multiplier(rounds, squares)), syntax, None, rounds + squares);
    match LastIndexOf(text, ':')
    case None => bare
    case Some(c) =>
      var possibleVal := text[c + 1..];
      match ParseFloat(possibleVal)
      case None => bare
      case Some(n) =>
        var effectiveRounds := if rounds > 0 then rounds - 1 else 0;
        Weight(text[..c], Scale(n, effectiveRounds, squares),
               syntax, Some(Explicit(NumericLiteral(possibleVal), n)), rounds + squares)
  }

  /** `calculateWeight` as a function. */
  function Decode(token: string): Weight
  {
    var p := Peel(token);
    Weigh(p.text, p.rounds, p.squares)
  }

  /** `calculateWeight`: the `while (true)` peeling loop, then the value rules. */
  method CalculateWeight(token: string) returns (w: Weight)
    ensures w == Decode(token)
  {
    var text := token;
    var roundCount: nat := 0;
    var squareCount: nat := 0;
    while true
      invariant Peel(token) == Peeled(Peel(text).text, roundCount + Peel(text).rounds, squareCount + Peel(text).squares)
      decreases |text|
    {
      if Wrapped(text, '(', ')') {
        roundCount := roundCount + 1;
        text := text[1..|text| - 1];
      } else if Wrapped(text, '[', ']') {
        squareCount := squareCount + 1;
        text := text[1..|text| - 1];
      } else {
        break;
      }
    }
    assert Peel(text) == Peeled(text, 0, 0);
    w := Weigh(text, roundCount, squareCount);
  }

  /**
   * Peeling removes `depth` characters from each end and stops at a text
   * that is enclosed by neither `()` nor `[]`.
   */
  lemma {:induction false} PeelShape(s: string)
    ensures var p := Peel(s); var d := p.rounds + p.squares;
      2 * d <= |s| && p.text == s[d..|s| - d]
      && !Wrapped(p.text, '(', ')') && !Wrapped(p.text, '[', ']')
    decreases |s|
  {
    if Wrapped(s, '(', ')') || Wrapped(s, '[', ']') {
      var inner := Inside(s);
      PeelShape(inner);
      var p := Peel(inner);
      var d := p.rounds + p.squares;
      assert |inner| == |s| - 2;
      var x, y := inner[d..|inner| - d], s[d + 1..|s| - d - 1];
      assert |x| == |y|;
      forall k | 0 <= k < |x| ensures x[k] == y[k] {
        assert x[k] == inner[d + k] == s[d + k + 1];
      }
      assert x == y;
    }
  }

  /** Without an explicit value the text is kept whole and every pair counts. */
  lemma WeighBare(text: string, rounds: nat, squares: nat)
    ensures var w := Weigh(text, rounds, squares);
      w.explicit.None? ==> w.text == text && w.value == Fin(Multiplier(rounds, squares))
  {
  }

  /**
   * With an explicit value the text is cut at the last colon, what follows
   * it has no colon and parses to the value, and one round pair is absorbed.
   */
  lemma WeighExplicit(text: string, rounds: nat, squares: nat)
    ensures var w := Weigh(text, rounds, squares); var k := |w.text| + 1;
      w.explicit.Some? ==>
        && k <= |text| && text == w.text + ":" + text[k..] && ':' !in text[k..]
        && ParseFloat(text[k..]) == Some(w.explicit.value.num)
        && w.explicit.value.literal == NumericLiteral(text[k..])
        && w.value == Scale(w.explicit.value.num, if rounds > 0 then rounds - 1 else 0, squares)
  {
    if LastIndexOf(text, ':').Some? {
      LastIndexOfSplit(text, ':');
    }
  }

  /** Syntax and depth: `round` when a round pair was peeled, else `square` when a square pair was, else `plain`. */
  lemma WeighSyntax(text: string, rounds: nat, squares: nat)
    ensures var w := Weigh(text, rounds, squares);
      && w.depth == rounds + squares
      && (w.syntax == Round <==> rounds > 0)
      && (w.syntax == Square <==> rounds == 0 && squares > 0)
      && (w.syntax == PlainSyntax <==> rounds + squares == 0)
  {
  }

  /**
   * The value rules take an explicit value exactly when the peeled text has
   * a colon and the text after the last one has a numeric prefix.
   */
  lemma WeighExplicitWhen(text: string, rounds: nat, squares: nat)
    ensures ':' !in text ==> Weigh(text, rounds, squares).explicit == None
    ensures ':' in text ==> (Weigh(text, rounds, squares).explicit.Some? <==>
      HasNumericPrefix(text[LastIndexOf(text, ':').value + 1..]))
  {
    match LastIndexOf(text, ':')
    case None =>
      assert ':' !in text;
      assert Weigh(text, rounds, squares).explicit == None;
    case Some(c) =>
      var possibleVal := text[c + 1..];
      match ParseFloat(possibleVal)
      case None =>
        assert !HasNumericPrefix(possibleVal);
        assert Weigh(text, rounds, squares).explicit == None;
      case Some(n) =>
        assert HasNumericPrefix(possibleVal);
        assert Weigh(text, rounds, squares).explicit.Some?;
  }

  /** `k` copies of `c`. */
  function Repeat(c: char, k: nat): (r: string)
    ensures |r| == k && forall i :: 0 <= i < k ==> r[i] == c
  {
    if k == 0 then [] else [c] + Repeat(c, k - 1)
  }

  /** `k` nested pairs around a text that is not itself enclosed are all peeled, and nothing more. */
  lemma {:induction false} PeelNested(t: string, open: char, close: char, k: nat)
    requires (open == '(' && close == ')') || (open == '[' && close == ']')
    requires !Wrapped(t, '(', ')') && !Wrapped(t, '[', ']')
    ensures Peel(Repeat(open, k) + t + Repeat(close, k))
      == Peeled(t, if open == '(' then k else 0, if open == '[' then k else 0)
  {
    var s := Repeat(open, k) + t + Repeat(close, k);
    if k == 0 {
      assert s == t;
    } else {
      var inner := Repeat(open, k - 1) + t + Repeat(close, k - 1);
      assert s == [open] + inner + [close];
      assert Inside(s) == inner;
      PeelNested(t, open, close, k - 1);
    }
  }

  /** `k` round pairs around a bare tag weigh `1.1^k`; `k` square pairs weigh `0.9^k`. */
  lemma DecodeNested(t: string, open: char, close: char, k: nat)
    requires (open == '(' && close == ')') || (open == '[' && close == ']')
    requires !Wrapped(t, '(', ')') && !Wrapped(t, '[', ']') && ':' !in t
    ensures Decode(Repeat(open, k) + t + Repeat(close, k))
      == Weight(t, Fin(Multiplier(if open == '(' then k else 0, if open == '[' then k else 0)),
                if k == 0 then PlainSyntax else if open == '(' then Round else Square, None, k)
  {
    PeelNested(t, open, close, k);
  }

  /** One pair around a bare tag: `(t)` weighs 1.1 with round syntax, `[t]` weighs 0.9 with square syntax. */
  lemma DecodePair(t: string, open: char, close: char)
    requires (open == '(' && close == ')') || (open == '[' && close == ']')
    requires !Wrapped(t, '(', ')') && !Wrapped(t, '[', ']') && ':' !in t
    ensures Decode([open] + t + [close])
      == Weight(t, Fin(if open == '(' then 1.1 else 0.9), if open == '(' then Round else Square, None, 1)
  {
    assert Repeat(open, 1) + t + Repeat(close, 1) == [open] + t + [close];
    DecodeNested(t, open, close, 1);
  }

  /** The colon before a colon-free `lit` is the last colon of `t:lit`. */
  lemma LastColonBefore(t: string, lit: string)
    requires ':' !in lit
    ensures LastIndexOf(t + ":" + lit, ':') == Some(|t|)
    ensures (t + ":" + lit)[..|t|] == t && (t + ":" + lit)[|t| + 1..] == lit
  {
    LastIndexOfAppend(t + ":", lit, ':');
    assert (t + ":")[|t|] == ':';
  }

  /** `Weigh` when the last colon is at `c` and `parseFloat` reads `n` after it. */
  lemma WeighAtColon(text: string, c: nat, rounds: nat, squares: nat, n: Num)
    requires LastIndexOf(text, ':') == Some(c) && ParseFloat(text[c + 1..]) == Some(n)
    ensures Weigh(text, rounds, squares)
      == Weight(text[..c], Scale(n, if rounds > 0 then rounds - 1 else 0, squares),
                SyntaxOf(rounds, squares), Some(Explicit(NumericLiteral(text[c + 1..]), n)), rounds + squares)
  {
    var possibleVal := text[c + 1..];
    var effectiveRounds := if rounds > 0 then rounds - 1 else 0;
    assert ParseFloat(possibleVal) == Some(n);
    assert Weigh(text, rounds, squares)
      == Weight(text[..c], Scale(n, effectiveRounds, squares),
                SyntaxOf(rounds, squares), Some(Explicit(NumericLiteral(possibleVal), n)), rounds + squares);
  }

  lemma ScaleByOne(n: Num)
    ensures Scale(n, 0, 0) == n
  {
  }

  lemma PeelExplicitForm(t: string, lit: string, open: char, close: char)
    requires (open == '(' && close == ')') || (open == '[' && close == ']')
    requires t == [] || (t[0] != '(' && t[0] != '[')
    ensures Peel([open] + t + ":" + lit + [close])
      == Peeled(t + ":" + lit, if open == '(' then 1 else 0, if open == '[' then 1 else 0)
  {
    var inner := t + ":" + lit;
    assert inner[0] == (if t == [] then ':' else t[0]);
    PeelNested(inner, open, close, 1);
    assert Repeat(open, 1) + inner + Repeat(close, 1) == [open] + t + ":" + lit + [close];
  }

  lemma WeighExplicitForm(t: string, lit: string, n: Num, rounds: nat, squares: nat)
    requires NumericLiteral(lit) == lit && ':' !in lit && ParseFloat(lit) == Some(n)
    ensures Weigh(t + ":" + lit, rounds, squares)
      == Weight(t, Scale(n, if rounds > 0 then rounds - 1 else 0, squares),
                SyntaxOf(rounds, squares), Some(Explicit(lit, n)), rounds + squares)
  {
    LastColonBefore(t, lit);
    WeighAtColon(t + ":" + lit, |t|, rounds, squares, n);
  }

  /**
   * `(t:lit)` and `[t:lit]` decode to the tag `t` with the explicit value
   * `n` that `lit` reads as: the round pair is absorbed by the value, the
   * square pair scales it by 0.9.
   */
  lemma DecodeExplicitPair(t: string, lit: string, n: Num, open: char, close: char)
    requires (open == '(' && close == ')') || (open == '[' && close == ']')
    requires t == [] || (t[0] != '(' && t[0] != '[')
    requires NumericLiteral(lit) == lit && ':' !in lit && ParseFloat(lit) == Some(n)
    ensures Decode([open] + t + ":" + lit + [close])
      == Weight(t, Scale(n, 0, if open == '[' then 1 else 0), if open == '(' then Round else Square,
                Some(Explicit(lit, n)), 1)
  {
    PeelExplicitForm(t, lit, open, close);
    WeighExplicitForm(t, lit, n, if open == '(' then 1 else 0, if open == '[' then 1 else 0);
  }

  /** `(t:lit)` decodes to the tag `t` with the value `n` that `lit` reads as, and one round pair absorbed by it. */
  lemma DecodeExplicit(t: string, lit: string, n: Num)
    requires t == [] || (t[0] != '(' && t[0] != '[')
    requires NumericLiteral(lit) == lit && ':' !in lit && ParseFloat(lit) == Some(n)
    ensures Decode("(" + t + ":" + lit + ")") == Weight(t, n, Round, Some(Explicit(lit, n)), 1)
  {
    assert ['('] + t + ":" + lit + [')'] == "(" + t + ":" + lit + ")";
    DecodeExplicitPair(t, lit, n, '(', ')');
    ScaleByOne(n);
  }

  /** `((tag))` carries two emphasis factors: 1.1 squared. */
  lemma DecodeRoundExample()
    ensures Decode("((tag))") == Weight("tag", Fin(1.21), Round, None, 2)
  {
    DecodeNested("tag", '(', ')', 2);
    assert Repeat('(', 2) + "tag" + Repeat(')', 2) == "((tag))";
  }

  /** `[tag]` carries one de-emphasis factor. */
  lemma DecodeSquareExample()
    ensures Decode("[tag]") == Weight("tag", Fin(0.9), Square, None, 1)
  {
    DecodeNested("tag", '[', ']', 1);
    assert Multiplier(0, 1) == 0.9 * Boost(1.0, 0, 0);
    assert Repeat('[', 1) + "tag" + Repeat(']', 1) == "[tag]";
  }

  /** `[tag:1.2]` scales the explicit value 1.2 by 0.9: it weighs 1.08. */
  lemma DecodeSquareExplicitExample()
    ensures Decode("[tag:1.2]") == Weight("tag", Fin(1.08), Square, Some(Explicit("1.2", Fin(1.2))), 1)
  {
    var t, lit := "tag", "1.2";
    assert ['['] + t + ":" + lit + [']'] == "[tag:1.2]";
    assert ':' !in lit && t[0] == 't';
    ParseDecimalExample();
    DecodeExplicitPair(t, lit, Fin(1.2), '[', ']');
    assert Boost(1.2, 0, 1) == 0.9 * Boost(1.2, 0, 0);
  }

  /** `(tag:1.2)` carries the explicit value 1.2 and no factor. */
  lemma DecodeExplicitExample()
    ensures Decode("(tag:1.2)") == Weight("tag", Fin(1.2), Round, Some(Explicit("1.2", Fin(1.2))), 1)
  {
    var t, lit := "tag", "1.2";
    assert "(" + t + ":" + lit + ")" == "(tag:1.2)";
    assert ':' !in lit && t[0] == 't';
    ParseDecimalExample();
    DecodeExplicit(t, lit, Fin(1.2));
  }
}
