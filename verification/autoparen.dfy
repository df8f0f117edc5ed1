/**
 * The auto-parenthesis rule of the bubble editor: an edited text of the
 * form `tag:1.2` (the pattern `/^[^()<>[\]]+:\d+(\.\d+)?$/`) is written
 * back as `(tag:1.2)`, with any translation left outside the brackets.
 */
module AutoParen {
  import opened Strings
  import opened Translation
  import opened Numbers
  import W = WeightCodec

  /** No character of `s` is one of `()<>[]`. */
  predicate NoPairChars(s: string)
  {
    forall k :: 0 <= k < |s| ==> s[k] !in "()<>[]"
  }

  /**
   * The text the pattern matches: a non-empty run without `()<>[]`, a
   * colon, and a decimal form. Digits hold no colon, so the colon the
   * pattern matches is the last one.
   */
  predicate AutoParenMatch(s: string)
  {
    var c := LastIndexOf(s, ':');
    c.Some? && c.value >= 1 && NoPairChars(s[..c.value]) && DecimalForm(s[c.value + 1..])
  }

  /**
   * The edit rule: a matching text gets round brackets and comes first, the
   * translation stays outside them; any other token is left as it is.
   */
  function AutoParen(token: string): (r: string)
    ensures !AutoParenMatch(ParseTag(token).text) ==> r == token
    ensures AutoParenMatch(ParseTag(token).text) ==> "(" + ParseTag(token).text + ")" <= r
  {
    var fp := ParseTag(token);
    if AutoParenMatch(fp.text) then JoinTag("(" + fp.text + ")", fp.translation) else token
  }

  /**
   * A matching text is a tag `t` that opens with no pair character, a colon
   * and a literal `lit` that `parseFloat` reads whole, as `n`.
   */
  lemma AutoParenParts(s: string) returns (t: string, lit: string, n: Num)
    requires AutoParenMatch(s)
    ensures var c := LastIndexOf(s, ':').value; t == s[..c] && lit == s[c + 1..]
    ensures "(" + s + ")" == "(" + t + ":" + lit + ")" && t != [] && t[0] != '(' && t[0] != '['
    ensures NumericLiteral(lit) == lit && ':' !in lit && ParseFloat(lit) == Some(n)
    ensures lit != [] && '@' !in lit
  {
    var c := LastIndexOf(s, ':').value;
    t, lit := s[..c], s[c + 1..];
    SplitAround(s, c);
    assert t[0] !in "()<>[]";
    DecimalLiteral(lit);
    n := ParseFloat(lit).value;
    Regroup("(", t, ":", lit, ")");
  }

  /**
   * A matching `tag:1.2` becomes `(tag:1.2)`, which decodes to the tag with
   * the explicit value read from the digits.
   */
  lemma AutoParenWeight(s: string) returns (t: string, lit: string, n: Num)
    requires AutoParenMatch(s)
    ensures var c := LastIndexOf(s, ':').value; t == s[..c] && lit == s[c + 1..]
    ensures ParseFloat(lit) == Some(n)
    ensures W.Decode("(" + s + ")") == W.Weight(t, n, W.Round, Some(W.Explicit(lit, n)), 1)
  {
    t, lit, n := AutoParenParts(s);
    W.DecodeExplicit(t, lit, n);
  }

  /** An edited text that matches and carries no translation becomes the text in round brackets. */
  lemma AutoParenBare(s: string)
    requires AutoParenMatch(s)
    ensures AutoParen(s) == "(" + s + ")"
  {
    var t, lit, n := AutoParenParts(s);
    var c := LastIndexOf(s, ':').value;
    assert s[|s| - 1] == lit[|lit| - 1];
    EndsWithoutAt(s);
  }

  /**
   * An edited `tag:1.2@@tr@@` becomes `(tag:1.2)@@tr@@`: the brackets go
   * around the text and the translation stays outside them, where
   * `parseTag` finds it again.
   */
  lemma AutoParenTranslated(s: string, tr: string)
    requires AutoParenMatch(s) && Trimmed(s) && NoLineTerminator(s)
    requires tr != "" && '@' !in tr
    ensures AutoParen(s + "@@" + tr + "@@") == "(" + s + ")" + "@@" + tr + "@@"
    ensures ParseTag(AutoParen(s + "@@" + tr + "@@")) == Tag("(" + s + ")", tr)
  {
    AutoParenAnnotated(s, tr);
    var w := "(" + s + ")";
    assert w[0] == '(' && w[|w| - 1] == ')';
    WrapOneLine(s, '(', ')');
    EndsWithoutAt(w);
    ParseJoinTag(w, tr);
  }

  /** The rule sees the text of `s@@tr@@` as `s` and writes the brackets around it. */
  lemma AutoParenAnnotated(s: string, tr: string)
    requires AutoParenMatch(s) && Trimmed(s) && NoLineTerminator(s)
    requires tr != "" && '@' !in tr
    ensures AutoParen(s + "@@" + tr + "@@") == JoinTag("(" + s + ")", tr)
  {
    ParseTagAnnotated(s, tr);
    TrimByOfTrimmed(s, IsJsSpace);
  }
}
