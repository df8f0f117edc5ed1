/**
 * Bubbles and the serializer. `createBubbleElement` records each token as a
 * bubble (its tag, translation, weight syntax and explicit value, or the
 * parts of a dynamic token), and `updateTextarea` writes every bubble back
 * as text, drops the empty ones and joins the rest with ", ".
 */
module Serializer {
  import opened Strings
  import opened Translation
  import C = Classifier
  import W = WeightCodec
  import opened Numbers
  import opened SubParse
  import Tokenizer

  /** The weight fields of a bubble: `weightValueExplicit` (as the literal read) and `weightSyntax`. */
  datatype WeightData = WeightData(explicit: Option<W.Explicit>, syntax: W.Syntax)

  /** A child of a dynamic bubble: a static span of text and translations, or a wrapper of option sub-bubbles. */
  datatype DynPart = Literal(segments: seq<Segment>) | Choice(options: seq<Tag>)

  /** What the serializer reads back from a bubble. */
  datatype Bubble =
    | Standard(tag: string, translation: string, weight: Option<WeightData>)
    | Lora(tag: string)
    | Dynamic(parts: seq<DynPart>, translation: string)
    | Group(tag: string, options: seq<Tag>)

  /** The dictionary's translation for `tag`, empty when there is no entry. */
  function Lookup(dictionary: map<string, string>, tag: string): string
  {
    if tag in dictionary then dictionary[tag] else ""
  }

  /** `parseTag` of every option: the sub-bubbles' tags and translations. */
  function ParseOptions(opts: seq<string>): (tags: seq<Tag>)
    ensures |tags| == |opts|
  {
    if opts == [] then [] else [ParseTag(opts[0])] + ParseOptions(opts[1..])
  }

  /** One part of `baseToken.split(/({[^{}]+})/g)`: a wrapper when it looks braced, a static span otherwise. */
  function PartOf(part: string): DynPart
  {
    if Braced(part) then Choice(ParseOptions(ChoiceOptions(part))) else Literal(LiteralSegments(part))
  }

  /** The children of a dynamic bubble; empty parts get none. */
  function PartsOf(parts: seq<string>): seq<DynPart>
  {
    if parts == [] then []
    else (if parts[0] == "" then [] else [PartOf(parts[0])]) + PartsOf(parts[1..])
  }

  /**
   * The shared tail for weight and plain bubbles: `parseTag(tagText)` once
   * more. The translation found there wins, then the one passed in, then
   * the dictionary's; the weight fields are kept as given.
   */
  function Finish(tagText: string, translation: string, weight: Option<WeightData>,
                  dictionary: map<string, string>): (r: Bubble)
    ensures r.Standard? && r.weight == weight && r.tag == ParseTag(tagText).text
    ensures ParseTag(tagText).translation != "" ==> r.translation == ParseTag(tagText).translation
    ensures r.translation == "" ==> translation == "" && Lookup(dictionary, r.tag) == ""
  {
    var again := ParseTag(tagText);
    var tr := if again.translation != "" then again.translation else translation;
    Standard(again.text, if tr != "" then tr else Lookup(dictionary, again.text), weight)
  }

  /**
   * `createBubbleElement`: the external translation is split off first,
   * the base is classified, and each kind records what the serializer
   * reads back. Each label gives its own kind of bubble; a reference and a
   * group keep the raw token, and a dynamic bubble the external translation.
   */
  function Build(token: string, dictionary: map<string, string>): (r: Bubble)
    ensures r.Lora? <==> C.Classify(ParseTag(token).text) == C.Lora
    ensures r.Group? <==> C.Classify(ParseTag(token).text) == C.Group
    ensures r.Dynamic? <==> C.Classify(ParseTag(token).text) == C.Dynamic
    ensures r.Standard? && r.weight.Some? <==> C.Classify(ParseTag(token).text) == C.Weight
    ensures r.Lora? || r.Group? ==> r.tag == token
    ensures r.Dynamic? ==> r.translation == ParseTag(token).translation
  {
    var parsed := ParseTag(token);
    var base := parsed.text;
    var external := parsed.translation;
    match C.Classify(base)
    case Dynamic => Dynamic(PartsOf(DynamicParts(base)), external)
    case Lora => Lora(token)
    case Group => Group(token, ParseOptions(GroupOptionsAsWritten(token)))
    case Weight => BuildWeight(base, external, dictionary)
    case Plain => Finish(base, external, None, dictionary)
  }

  /** JavaScript truthiness of a number `parseFloat` produced: only zero is falsy. */
  predicate Truthy(n: Num)
  {
    n != Fin(0.0)
  }

  /** `if (explicitVal) bubble.dataset.weightValueExplicit = explicitVal`: a zero value is not stored. */
  function StoredAsWritten(e: Option<W.Explicit>): Option<W.Explicit>
  {
    if e.Some? && Truthy(e.value.num) then e else None
  }

  /**
   * The weight branch: `calculateWeight(baseToken)`, then `parseTag` of its
   * text, whose translation wins over the external one. The explicit value
   * is stored only when it is truthy.
   */
  function BuildWeight(base: string, external: string, dictionary: map<string, string>): Bubble
  {
    var w := W.Decode(base);
    var inner := ParseTag(w.text);
    Finish(inner.text, if inner.translation != "" then inner.translation else external,
           Some(WeightData(StoredAsWritten(w.explicit), w.syntax)), dictionary)
  }

  /**
   * `createBubbleElement` corrected: the options of a group are read from
   * its base, without the translation, and every explicit value read is
   * stored, zero included.
   */
  function BuildCorrected(token: string, dictionary: map<string, string>): Bubble
  {
    var parsed := ParseTag(token);
    var base := parsed.text;
    var external := parsed.translation;
    match C.Classify(base)
    case Dynamic => Dynamic(PartsOf(DynamicParts(base)), external)
    case Lora => Lora(token)
    case Group => Group(token, ParseOptions(GroupOptions(token)))
    case Weight => BuildWeightCorrected(base, external, dictionary)
    case Plain => Finish(base, external, None, dictionary)
  }

  /** The weight branch corrected: the explicit value is stored whatever number it is. */
  function BuildWeightCorrected(base: string, external: string, dictionary: map<string, string>): Bubble
  {
    var w := W.Decode(base);
    var inner := ParseTag(w.text);
    Finish(inner.text, if inner.translation != "" then inner.translation else external,
           Some(WeightData(w.explicit, w.syntax)), dictionary)
  }

  /** A sub-bubble as the serializer writes it: `tr ? t@@tr@@ : t`. */
  function SubTags(tags: seq<Tag>): (r: seq<string>)
    ensures |r| == |tags|
  {
    if tags == [] then [] else [JoinTag(tags[0].text, tags[0].translation)] + SubTags(tags[1..])
  }

  function RenderPart(p: DynPart): string
  {
    match p
    case Literal(segs) => RenderSegments(segs)
    case Choice(opts) => "{" + Join(SubTags(opts), "|") + "}"
  }

  /** The dynamic branch of the serializer: the children written one after another. */
  function RenderParts(ps: seq<DynPart>): string
  {
    if ps == [] then "" else RenderPart(ps[0]) + RenderParts(ps[1..])
  }

  /** `s` is wrapped in one pair: it opens with `open` and closes with `close`. */
  predicate InPair(s: string, open: char, close: char)
  {
    |s| >= 2 && s[0] == open && s[|s| - 1] == close
  }

  /** A `<...>` tag, which is written without its translation. */
  predicate Angled(text: string)
  {
    StartsWith(text, "<") && EndsWith(text, ">")
  }

  /**
   * The standard branch: `null` for an empty tag without weight; a weight
   * written in one pair around the annotated tag, round for an explicit
   * value whatever the syntax, square for a square syntax without one; an
   * unweighted `<...>` tag without its translation.
   */
  function RenderStandard(text: string, translation: string, weight: Option<WeightData>): (r: Option<string>)
    ensures r.None? <==> text == "" && weight.None?
    ensures weight.Some? && (weight.value.explicit.Some? || weight.value.syntax != W.Square)
      ==> r.Some? && InPair(r.value, '(', ')')
    ensures weight.Some? && weight.value.explicit.None? && weight.value.syntax == W.Square
      ==> r.Some? && InPair(r.value, '[', ']')
    ensures weight.None? && Angled(text) ==> r == Some(text)
  {
    if text == "" && weight.None? then None
    else match weight
      case Some(wd) =>
        var final := JoinTag(text, translation);
        Some(match wd.explicit
          case Some(e) => "(" + final + ":" + e.literal + ")"
          case None => if wd.syntax == W.Square then "[" + final + "]" else "(" + final + ")")
      case None =>
        Some(if translation != "" && !Angled(text) then text + "@@" + translation + "@@" else text)
  }

  /**
   * What the serializer maps one bubble to; `None` stands for `null`. A
   * reference is written as its raw token, a group as its raw token unless
   * it is empty.
   */
  function Render(b: Bubble): (r: Option<string>)
    ensures r.None? <==> (b.Group? || b.Standard?) && b.tag == "" && (b.Standard? ==> b.weight.None?)
    ensures b.Lora? ==> r == Some(b.tag)
    ensures b.Group? && b.tag != "" ==> r == Some(b.tag)
  {
    match b
    case Dynamic(parts, _) => Some(RenderParts(parts))
    case Lora(tag) => Some(tag)
    case Group(tag, _) => RenderStandard(tag, "", None)
    case Standard(tag, tr, w) => RenderStandard(tag, tr, w)
  }

  /** The standard branch corrected: an explicit value is written in the pair of its own syntax. */
  function RenderStandardCorrected(text: string, translation: string, weight: Option<WeightData>): (r: Option<string>)
    ensures weight.Some? && weight.value.syntax == W.Square ==> r.Some? && InPair(r.value, '[', ']')
    ensures weight.Some? && weight.value.syntax != W.Square ==> r.Some? && InPair(r.value, '(', ')')
  {
    match weight
    case Some(wd) =>
      var final := JoinTag(text, translation);
      var inner := match wd.explicit
        case Some(e) => final + ":" + e.literal
        case None => final;
      Some(if wd.syntax == W.Square then "[" + inner + "]" else "(" + inner + ")")
    case None => RenderStandard(text, translation, weight)
  }

  /** The serializer corrected for explicit values in square syntax. */
  function RenderCorrected(b: Bubble): Option<string>
  {
    match b
    case Standard(tag, tr, w) => RenderStandardCorrected(tag, tr, w)
    case _ => Render(b)
  }

  /** The correction only changes bubbles with an explicit value in square syntax. */
  lemma RenderCorrectedAgrees(b: Bubble)
    requires !(b.Standard? && b.weight.Some? && b.weight.value.explicit.Some? && b.weight.value.syntax == W.Square)
    ensures RenderCorrected(b) == Render(b)
  {
    if b.Standard? && b.weight.Some? {
      var wd := b.weight.value;
      var final := JoinTag(b.tag, b.translation);
      if wd.explicit.Some? {
        var lit := wd.explicit.value.literal;
        Regroup("(", final, ":", lit, ")");
      }
    }
  }

  /** `.filter(t => t)`: the rendered texts that are neither `null` nor empty. */
  function Kept(bubbles: seq<Bubble>): (r: seq<string>)
    ensures |r| <= |bubbles|
    ensures forall k :: 0 <= k < |r| ==> r[k] != ""
  {
    if bubbles == [] then []
    else
      var head := Render(bubbles[0]);
      (if head.Some? && head.value != "" then [head.value] else []) + Kept(bubbles[1..])
  }

  /** The new textarea value: `tags.join(", ")`. */
  function Serialize(bubbles: seq<Bubble>): string
  {
    Join(Kept(bubbles), ", ")
  }

  /** One bubble per token, as `renderBubbles` creates them. */
  function BuildAll(tokens: seq<string>, dictionary: map<string, string>): (r: seq<Bubble>)
    ensures |r| == |tokens|
    ensures forall k :: 0 <= k < |r| ==> r[k] == Build(tokens[k], dictionary)
  {
    if tokens == [] then [] else [Build(tokens[0], dictionary)] + BuildAll(tokens[1..], dictionary)
  }

  // ---------------------------------------------------------------------
  // Round trips, kind by kind

  /** A token without `@` carries no translation. */
  lemma ParseBare(s: string)
    requires '@' !in s
    ensures ParseTag(s) == Tag(s, "")
  {
    AnnotatedHasAt(s);
  }

  /** A `<...>` token is written back exactly as it was typed, translation included. */
  lemma LoraRoundTrip(token: string, dictionary: map<string, string>)
    requires C.Classify(ParseTag(token).text) == C.Lora
    ensures Render(Build(token, dictionary)) == Some(token)
  {
  }

  /** A `!!...!!` token is written back exactly as it was typed. */
  lemma GroupRoundTrip(token: string, dictionary: map<string, string>)
    requires C.Classify(ParseTag(token).text) == C.Group
    ensures Render(Build(token, dictionary)) == Some(token)
  {
    if token == "" {
      ParseBare(token);
      C.EmptyIsPlain();
      assert false;
    }
    BuildGroup(token, dictionary);
    assert RenderStandard(token, "", None) == Some(token);
  }

  /** The group branch of `createBubbleElement`, on its own. */
  lemma BuildGroup(token: string, dictionary: map<string, string>)
    requires C.Classify(ParseTag(token).text) == C.Group
    ensures Build(token, dictionary) == Group(token, ParseOptions(GroupOptionsAsWritten(token)))
  {
  }

  /** A plain token without `@` comes back unchanged, with the dictionary's translation attached when it has one. */
  lemma PlainRoundTrip(token: string, dictionary: map<string, string>)
    requires token != "" && '@' !in token
    requires C.Classify(token) == C.Plain
    ensures Render(Build(token, dictionary)) == Some(JoinTag(token, Lookup(dictionary, token)))
  {
    ParseBare(token);
    var tr := Lookup(dictionary, token);
    if tr != "" {
      assert !(StartsWith(token, "<") && EndsWith(token, ">")) by {
        PlainNotAngled(token);
      }
    }
  }

  /** A plain label rules out the `<...>` shape. */
  lemma PlainNotAngled(token: string)
    requires '@' !in token && C.Classify(token) == C.Plain
    ensures !(StartsWith(token, "<") && EndsWith(token, ">"))
  {
    if StartsWith(token, "<") && EndsWith(token, ">") {
      AngledBase(token);
    }
  }

  /** An `@`-free token that starts with `<` and ends with `>` is its own classifier base. */
  lemma AngledBase(token: string)
    requires '@' !in token && StartsWith(token, "<") && EndsWith(token, ">")
    ensures C.ClassifierBase(token) == token
  {
    assert token[0] == '<' && token[|token| - 1] == '>';
    TrimByOfTrimmed(token, IsJsSpace);
    AnnotatedHasAt(token);
  }

  /** An annotated plain token keeps its translation: `b@@t@@` is written back as it was. */
  lemma AnnotatedPlainRoundTrip(b: string, t: string, dictionary: map<string, string>)
    requires b != "" && Trimmed(b) && NoLineTerminator(b) && '@' !in b
    requires t != "" && '@' !in t
    requires C.Classify(b) == C.Plain
    ensures Render(Build(b + "@@" + t + "@@", dictionary)) == Some(b + "@@" + t + "@@")
  {
    ParseTagAnnotated(b, t);
    TrimByOfTrimmed(b, IsJsSpace);
    ParseBare(b);
    PlainNotAngled(b);
  }

  /** A tag text the weight codec and the classifier read as it is: no `@`, no brace, not opening a pair. */
  predicate TagText(t: string)
  {
    '@' !in t && '{' !in t && (t == [] || (t[0] != '(' && t[0] != '['))
  }

  /** A tag text without a colon, so that no explicit value is read from it. */
  predicate BareTag(t: string)
  {
    ':' !in t && TagText(t)
  }

  /** A literal `parseFloat` reads whole, free of `:`, `@` and `{`. */
  predicate ExplicitLiteral(lit: string)
  {
    NumericLiteral(lit) == lit && ':' !in lit && '@' !in lit && '{' !in lit
  }

  /** A brace-free token enclosed by `()` or `[]` carries no translation and is labelled a weight. */
  lemma WeightLabel(token: string)
    requires |token| >= 2 && '{' !in token
    requires (token[0] == '(' && token[|token| - 1] == ')') || (token[0] == '[' && token[|token| - 1] == ']')
    ensures ParseTag(token) == Tag(token, "")
    ensures C.Classify(token) == C.Weight
  {
    EndsWithoutAt(token);
    C.ClassifyBare(token);
    C.WeightShape(token);
  }

  /** Such a token goes through the weight branch with no external translation, in both builders. */
  lemma WeightBranch(token: string, dictionary: map<string, string>)
    requires |token| >= 2 && '{' !in token
    requires (token[0] == '(' && token[|token| - 1] == ')') || (token[0] == '[' && token[|token| - 1] == ']')
    ensures Build(token, dictionary) == BuildWeight(token, "", dictionary)
    ensures BuildCorrected(token, dictionary) == BuildWeightCorrected(token, "", dictionary)
  {
    WeightLabel(token);
  }

  /** When the decoded text carries no `@`, the weight branch keeps it as the tag, with the dictionary's translation. */
  lemma BareWeight(base: string, dictionary: map<string, string>)
    requires '@' !in W.Decode(base).text
    ensures var w := W.Decode(base);
      BuildWeight(base, "", dictionary)
        == Standard(w.text, Lookup(dictionary, w.text), Some(WeightData(StoredAsWritten(w.explicit), w.syntax)))
    ensures var w := W.Decode(base);
      BuildWeightCorrected(base, "", dictionary)
        == Standard(w.text, Lookup(dictionary, w.text), Some(WeightData(w.explicit, w.syntax)))
  {
    ParseBare(W.Decode(base).text);
  }

  /** When the decoded text is `t@@tr@@`, the weight branch takes `t` as the tag and `tr` as the translation. */
  lemma AnnotatedWeight(base: string, t: string, tr: string, dictionary: map<string, string>)
    requires W.Decode(base).text == t + "@@" + tr + "@@"
    requires Trimmed(t) && NoLineTerminator(t) && '@' !in t && tr != "" && '@' !in tr
    ensures var w := W.Decode(base);
      BuildWeight(base, "", dictionary) == Standard(t, tr, Some(WeightData(StoredAsWritten(w.explicit), w.syntax)))
    ensures var w := W.Decode(base);
      BuildWeightCorrected(base, "", dictionary) == Standard(t, tr, Some(WeightData(w.explicit, w.syntax)))
  {
    ParseTagAnnotated(t, tr);
    TrimByOfTrimmed(t, IsJsSpace);
    ParseBare(t);
  }

  /** The bubble of `k >= 1` nested pairs around a bare tag: the tag, the syntax of the pairs, no explicit value. */
  lemma NestedBubble(t: string, open: char, close: char, k: nat, dictionary: map<string, string>)
    requires (open == '(' && close == ')') || (open == '[' && close == ']')
    requires k >= 1 && BareTag(t)
    ensures Build(W.Repeat(open, k) + t + W.Repeat(close, k), dictionary)
      == Standard(t, Lookup(dictionary, t), Some(WeightData(None, if open == '(' then W.Round else W.Square)))
  {
    var token := W.Repeat(open, k) + t + W.Repeat(close, k);
    NestedToken(t, open, close, k);
    WeightBranch(token, dictionary);
    W.DecodeNested(t, open, close, k);
    BareWeight(token, dictionary);
  }

  lemma NestedToken(t: string, open: char, close: char, k: nat)
    requires (open == '(' && close == ')') || (open == '[' && close == ']')
    requires k >= 1 && BareTag(t)
    ensures var token := W.Repeat(open, k) + t + W.Repeat(close, k);
      |token| >= 2 && token[0] == open && token[|token| - 1] == close && '{' !in token && '@' !in token
  {
  }

  /**
   * Nested pairs around a bare tag come back as one pair of the same kind:
   * `[t]` and `(t)` are written back as they were, and `((t))` collapses
   * to `(t)`.
   */
  lemma NestedRoundTrip(t: string, open: char, close: char, k: nat, dictionary: map<string, string>)
    requires (open == '(' && close == ')') || (open == '[' && close == ']')
    requires k >= 1 && BareTag(t)
    ensures Render(Build(W.Repeat(open, k) + t + W.Repeat(close, k), dictionary))
      == Some([open] + JoinTag(t, Lookup(dictionary, t)) + [close])
  {
    NestedBubble(t, open, close, k, dictionary);
  }

  /**
   * The bubbles of `(t:lit)` and `[t:lit]`: tag `t`, the syntax of the
   * pair, and the explicit value `lit` reads as, which the code as written
   * stores only when it is truthy.
   */
  lemma ExplicitBubbleAt(t: string, lit: string, n: Num, open: char, close: char, dictionary: map<string, string>)
    requires (open == '(' && close == ')') || (open == '[' && close == ']')
    requires TagText(t) && ExplicitLiteral(lit) && ParseFloat(lit) == Some(n)
    ensures var token := [open] + t + ":" + lit + [close];
      var syntax := if open == '(' then W.Round else W.Square;
      Build(token, dictionary)
        == Standard(t, Lookup(dictionary, t), Some(WeightData(StoredAsWritten(Some(W.Explicit(lit, n))), syntax)))
    ensures var token := [open] + t + ":" + lit + [close];
      var syntax := if open == '(' then W.Round else W.Square;
      BuildCorrected(token, dictionary)
        == Standard(t, Lookup(dictionary, t), Some(WeightData(Some(W.Explicit(lit, n)), syntax)))
  {
    var token := [open] + t + ":" + lit + [close];
    assert token[0] == open && token[|token| - 1] == close;
    assert '{' !in token && '@' !in token;
    WeightBranch(token, dictionary);
    W.DecodeExplicitPair(t, lit, n, open, close);
    BareWeight(token, dictionary);
  }

  /** The bubble of `(t:lit)` for a truthy value: tag `t`, round syntax, the explicit value `lit` reads as. */
  lemma ExplicitBubble(t: string, lit: string, n: Num, dictionary: map<string, string>)
    requires TagText(t) && ExplicitLiteral(lit) && ParseFloat(lit) == Some(n) && Truthy(n)
    ensures Build("(" + t + ":" + lit + ")", dictionary)
      == Standard(t, Lookup(dictionary, t), Some(WeightData(Some(W.Explicit(lit, n)), W.Round)))
  {
    ExplicitBubbleAt(t, lit, n, '(', ')', dictionary);
  }

  /** `(t:lit)` with a truthy value is written back as it was typed. */
  lemma ExplicitRoundTrip(t: string, lit: string, n: Num, dictionary: map<string, string>)
    requires TagText(t) && ExplicitLiteral(lit) && ParseFloat(lit) == Some(n) && Truthy(n)
    ensures Render(Build("(" + t + ":" + lit + ")", dictionary))
      == Some("(" + JoinTag(t, Lookup(dictionary, t)) + ":" + lit + ")")
  {
    ExplicitBubble(t, lit, n, dictionary);
  }

  /** Corrected, `(t:lit)` is written back as it was typed whatever number `lit` reads as, zero included. */
  lemma ExplicitRoundTripCorrected(t: string, lit: string, n: Num, dictionary: map<string, string>)
    requires TagText(t) && ExplicitLiteral(lit) && ParseFloat(lit) == Some(n)
    ensures Render(BuildCorrected("(" + t + ":" + lit + ")", dictionary))
      == Some("(" + JoinTag(t, Lookup(dictionary, t)) + ":" + lit + ")")
  {
    ExplicitBubbleAt(t, lit, n, '(', ')', dictionary);
  }

  /**
   * As written, `[t:lit]` is written back as `(t:lit)`: the value, scaled
   * by 0.9 under the square pair, is read back unscaled.
   */
  lemma SquareExplicitBecomesRound(t: string, lit: string, n: Num, dictionary: map<string, string>)
    requires TagText(t) && ExplicitLiteral(lit) && ParseFloat(lit) == Some(n) && Truthy(n)
    ensures Render(Build("[" + t + ":" + lit + "]", dictionary))
      == Some("(" + JoinTag(t, Lookup(dictionary, t)) + ":" + lit + ")")
    ensures W.Decode("[" + t + ":" + lit + "]").value == W.Scale(n, 0, 1)
    ensures W.Decode("(" + t + ":" + lit + ")").value == n
  {
    ExplicitBubbleAt(t, lit, n, '[', ']', dictionary);
    W.DecodeExplicitPair(t, lit, n, '[', ']');
    W.DecodeExplicit(t, lit, n);
  }

  /** `[tag:1.2]` weighs 1.08, and is written back as `(tag:1.2)`, which weighs 1.2. */
  lemma SquareExplicitExample()
    ensures Render(Build("[tag:1.2]", map[])) == Some("(tag:1.2)")
    ensures W.Decode("[tag:1.2]").value == Fin(1.08)
    ensures W.Decode("(tag:1.2)").value == Fin(1.2)
  {
    var t, lit := "tag", "1.2";
    var none: map<string, string> := map[];
    ExampleParts();
    assert JoinTag(t, Lookup(none, t)) == t;
    SquareExplicitBecomesRound(t, lit, Fin(1.2), none);
    W.DecodeSquareExplicitExample();
  }

  /** The pieces of `[tag:1.2]`: a tag text and a literal reading 1.2. */
  lemma ExampleParts()
    ensures "[" + "tag" + ":" + "1.2" + "]" == "[tag:1.2]" && "(" + "tag" + ":" + "1.2" + ")" == "(tag:1.2)"
    ensures TagText("tag") && ExplicitLiteral("1.2") && ParseFloat("1.2") == Some(Fin(1.2))
  {
    ParseDecimalExample();
  }

  /**
   * Corrected, `[t:lit]` is written back in its square pair, whatever
   * number `lit` reads as; without a dictionary entry that is the token as
   * typed, with its value 0.9 times the literal's.
   */
  lemma SquareExplicitKept(t: string, lit: string, n: Num, dictionary: map<string, string>)
    requires TagText(t) && ExplicitLiteral(lit) && ParseFloat(lit) == Some(n)
    ensures RenderCorrected(BuildCorrected("[" + t + ":" + lit + "]", dictionary))
      == Some("[" + JoinTag(t, Lookup(dictionary, t)) + ":" + lit + "]")
    ensures Lookup(dictionary, t) == "" ==>
      RenderCorrected(BuildCorrected("[" + t + ":" + lit + "]", dictionary)) == Some("[" + t + ":" + lit + "]")
  {
    var token := "[" + t + ":" + lit + "]";
    assert ['['] + t + ":" + lit + [']'] == token;
    ExplicitBubbleAt(t, lit, n, '[', ']', dictionary);
    var b := Standard(t, Lookup(dictionary, t), Some(WeightData(Some(W.Explicit(lit, n)), W.Square)));
    assert BuildCorrected(token, dictionary) == b;
    var final := JoinTag(t, Lookup(dictionary, t));
    assert RenderCorrected(b) == Some("[" + (final + ":" + lit) + "]");
    Regroup("[", final, ":", lit, "]");
  }

  /** One round pair around a bare tag weighs 1.1. */
  lemma OneRoundPair(t: string)
    requires BareTag(t)
    ensures W.Decode("(" + t + ")") == W.Weight(t, Fin(1.1), W.Round, None, 1)
  {
    assert W.Repeat('(', 1) == "(" && W.Repeat(')', 1) == ")";
    W.DecodeNested(t, '(', ')', 1);
  }

  /**
   * As written, an explicit value that reads as zero is falsy and is never
   * stored, so `(t:0)` is written back as `(t)`, which weighs 1.1 instead
   * of 0.
   */
  lemma ZeroWeightDropped(t: string, lit: string, dictionary: map<string, string>)
    requires BareTag(t) && ExplicitLiteral(lit) && ParseFloat(lit) == Some(Fin(0.0))
    ensures Render(Build("(" + t + ":" + lit + ")", dictionary)) == Some("(" + JoinTag(t, Lookup(dictionary, t)) + ")")
    ensures W.Decode("(" + t + ")").value == Fin(1.1)
  {
    ZeroBubbleAsWritten(t, lit, dictionary);
    OneRoundPair(t);
  }

  /** As written, the bubble of `(t:lit)` for a zero `lit` keeps the round syntax but no explicit value. */
  lemma ZeroBubbleAsWritten(t: string, lit: string, dictionary: map<string, string>)
    requires TagText(t) && ExplicitLiteral(lit) && ParseFloat(lit) == Some(Fin(0.0))
    ensures Build("(" + t + ":" + lit + ")", dictionary) == Standard(t, Lookup(dictionary, t), Some(WeightData(None, W.Round)))
  {
    ExplicitBubbleAt(t, lit, Fin(0.0), '(', ')', dictionary);
  }

  /** `0` is such a literal. */
  lemma ZeroLiteral()
    ensures ExplicitLiteral("0") && ParseFloat("0") == Some(Fin(0.0))
  {
    ParseZeroExample();
  }

  /** `(t@@tr@@:lit)` is a brace-free round pair, so the serializer takes its weight branch. */
  lemma AnnotatedExplicitShape(t: string, lit: string, tr: string)
    requires '{' !in t && '{' !in lit && '{' !in tr
    ensures var token := "(" + (t + "@@" + tr + "@@") + ":" + lit + ")";
      |token| >= 2 && '{' !in token && token[0] == '(' && token[|token| - 1] == ')'
  {
    var inner := t + "@@" + tr + "@@";
    var token := "(" + inner + ":" + lit + ")";
    assert token == ['('] + (inner + ":" + lit) + [')'];
  }

  /** Decoding `(t@@tr@@:lit)` keeps the annotated text and reads the explicit value `lit`. */
  lemma AnnotatedExplicitDecode(t: string, lit: string, n: Num, tr: string)
    requires TagText(t) && t != ""
    requires ExplicitLiteral(lit) && ParseFloat(lit) == Some(n)
    ensures var w := W.Decode("(" + (t + "@@" + tr + "@@") + ":" + lit + ")");
      w.text == t + "@@" + tr + "@@" && w.explicit == Some(W.Explicit(lit, n)) && w.syntax == W.Round
  {
    var inner := t + "@@" + tr + "@@";
    assert inner[0] == t[0];
    W.DecodeExplicit(inner, lit, n);
  }

  /** The bubble of `(t@@tr@@:lit)` with a truthy value shows the tag `t`, the translation `tr` and the explicit value. */
  lemma AnnotatedExplicitBubble(t: string, lit: string, n: Num, tr: string, dictionary: map<string, string>)
    requires TagText(t) && t != "" && Trimmed(t) && NoLineTerminator(t)
    requires ExplicitLiteral(lit) && ParseFloat(lit) == Some(n) && Truthy(n)
    requires tr != "" && '@' !in tr && '{' !in tr
    ensures Build("(" + (t + "@@" + tr + "@@") + ":" + lit + ")", dictionary)
      == Standard(t, tr, Some(WeightData(Some(W.Explicit(lit, n)), W.Round)))
  {
    var token := "(" + (t + "@@" + tr + "@@") + ":" + lit + ")";
    AnnotatedExplicitShape(t, lit, tr);
    WeightBranch(token, dictionary);
    AnnotatedExplicitDecode(t, lit, n, tr);
    AnnotatedWeight(token, t, tr, dictionary);
  }

  /** `(t@@tr@@:lit)` with a truthy value is written back exactly as it is. */
  lemma AnnotatedExplicitRoundTrip(t: string, lit: string, n: Num, tr: string, dictionary: map<string, string>)
    requires TagText(t) && t != "" && Trimmed(t) && NoLineTerminator(t)
    requires ExplicitLiteral(lit) && ParseFloat(lit) == Some(n) && Truthy(n)
    requires tr != "" && '@' !in tr && '{' !in tr
    ensures var token := "(" + (t + "@@" + tr + "@@") + ":" + lit + ")";
      Render(Build(token, dictionary)) == Some(token)
  {
    AnnotatedExplicitBubble(t, lit, n, tr, dictionary);
  }

  // ---------------------------------------------------------------------
  // Dynamic tokens

  /** Options without `@` are written back as they were split off. */
  lemma {:induction false} SubTagsBare(opts: seq<string>)
    requires forall k :: 0 <= k < |opts| ==> '@' !in opts[k]
    ensures SubTags(ParseOptions(opts)) == opts
    decreases |opts|
  {
    if opts != [] {
      ParseBare(opts[0]);
      SubTagsBare(opts[1..]);
    }
  }

  /** A part without `@` is written back as it was split off. */
  lemma PartRoundTrip(part: string)
    requires '@' !in part
    ensures RenderPart(PartOf(part)) == part
  {
    if Braced(part) {
      SplitOnAbsent(Substring(part, 1, |part| - 1), '|', '@');
      SubTagsBare(ChoiceOptions(part));
      ChoiceOptionsCount(part);
    } else {
      LiteralSegmentsRender(part);
    }
  }

  lemma {:induction false} PartsRoundTrip(parts: seq<string>)
    requires forall k :: 0 <= k < |parts| ==> '@' !in parts[k]
    ensures RenderParts(PartsOf(parts)) == Concat(parts)
    decreases |parts|
  {
    if parts != [] {
      PartsRoundTrip(parts[1..]);
      if parts[0] != "" {
        PartRoundTrip(parts[0]);
      }
      assert PartsOf(parts) == (if parts[0] == "" then [] else [PartOf(parts[0])]) + PartsOf(parts[1..]);
      RenderPartsAppend(if parts[0] == "" then [] else [PartOf(parts[0])], PartsOf(parts[1..]));
    }
  }

  lemma {:induction false} RenderPartsAppend(a: seq<DynPart>, b: seq<DynPart>)
    ensures RenderParts(a + b) == RenderParts(a) + RenderParts(b)
    decreases |a|
  {
    if a == [] {
      assert a + b == b;
    } else {
      assert (a + b)[1..] == a[1..] + b;
      RenderPartsAppend(a[1..], b);
    }
  }

  /** The children of a dynamic bubble built from an `@`-free base write the base back. */
  lemma DynamicBaseRoundTrip(base: string)
    requires '@' !in base
    ensures RenderParts(PartsOf(DynamicParts(base))) == base
  {
    DynamicPartsConcat(base);
    AbsentFromParts(DynamicParts(base), '@');
    PartsRoundTrip(DynamicParts(base));
  }

  /** The dynamic branch of `createBubbleElement`, on its own. */
  lemma BuildDynamic(token: string, dictionary: map<string, string>)
    requires C.Classify(ParseTag(token).text) == C.Dynamic
    ensures Build(token, dictionary) == Dynamic(PartsOf(DynamicParts(ParseTag(token).text)), ParseTag(token).translation)
  {
  }

  /** A dynamic token without `@` is written back as it was typed. */
  lemma DynamicRoundTrip(token: string, dictionary: map<string, string>)
    requires '@' !in token && C.Classify(token) == C.Dynamic
    ensures Render(Build(token, dictionary)) == Some(token)
  {
    ParseBare(token);
    BuildDynamic(token, dictionary);
    DynamicBaseRoundTrip(token);
  }

  /** `b@@t@@` with a dynamic `trim(b)` builds the dynamic bubble of `trim(b)` carrying `t`. */
  lemma BuildDynamicAnnotated(b: string, t: string, dictionary: map<string, string>)
    requires '@' !in b && NoLineTerminator(b) && t != "" && '@' !in t
    requires C.Classify(Trim(b)) == C.Dynamic
    ensures '@' !in Trim(b)
    ensures Build(b + "@@" + t + "@@", dictionary) == Dynamic(PartsOf(DynamicParts(Trim(b))), t)
  {
    ParseTagAnnotated(b, t);
    TrimByParts(b, IsJsSpace);
    BuildDynamic(b + "@@" + t + "@@", dictionary);
  }

  /** A translation attached to a whole dynamic token is not written back: `b@@t@@` comes back as `trim(b)`. */
  lemma DynamicDropsTranslation(b: string, t: string, dictionary: map<string, string>)
    requires '@' !in b && NoLineTerminator(b) && t != "" && '@' !in t
    requires C.Classify(Trim(b)) == C.Dynamic
    ensures Render(Build(b + "@@" + t + "@@", dictionary)) == Some(Trim(b))
  {
    BuildDynamicAnnotated(b, t, dictionary);
    DynamicRender(Trim(b), t);
  }

  /** A dynamic bubble is written back as its base, whatever translation it carries. */
  lemma DynamicRender(base: string, t: string)
    requires '@' !in base
    ensures Render(Dynamic(PartsOf(DynamicParts(base)), t)) == Some(base)
  {
    DynamicBaseRoundTrip(base);
  }

  // ---------------------------------------------------------------------
  // Whole prompts

  /** Bubbles that each render a non-empty text keep exactly those texts. */
  lemma {:induction false} KeptRendered(bubbles: seq<Bubble>, texts: seq<string>)
    requires |bubbles| == |texts|
    requires forall k :: 0 <= k < |texts| ==> texts[k] != "" && Render(bubbles[k]) == Some(texts[k])
    ensures Kept(bubbles) == texts
    decreases |texts|
  {
    if texts != [] {
      KeptRendered(bubbles[1..], texts[1..]);
      assert Kept(bubbles) == [texts[0]] + Kept(bubbles[1..]);
      assert texts == [texts[0]] + texts[1..];
    }
  }

  /** The filter keeps the text of one bubble exactly when it is neither `null` nor empty. */
  lemma KeptOne(b: Bubble)
    ensures Kept([b]) == if Render(b).Some? && Render(b).value != "" then [Render(b).value] else []
  {
    assert [b][1..] == [];
  }

  /** The filter works bubble by bubble and keeps the order: filtering a concatenation concatenates the results. */
  lemma {:induction false} KeptAppend(a: seq<Bubble>, b: seq<Bubble>)
    ensures Kept(a + b) == Kept(a) + Kept(b)
    decreases |a|
  {
    if a == [] {
      assert a + b == b;
    } else {
      assert (a + b)[0] == a[0];
      assert (a + b)[1..] == a[1..] + b;
      KeptAppend(a[1..], b);
    }
  }

  /** Bubbles that each write back a non-empty text serialize to those texts joined with ", ". */
  lemma SerializeFaithful(tokens: seq<string>, dictionary: map<string, string>)
    requires forall k :: 0 <= k < |tokens| ==> tokens[k] != "" && Render(Build(tokens[k], dictionary)) == Some(tokens[k])
    ensures Kept(BuildAll(tokens, dictionary)) == tokens
    ensures Serialize(BuildAll(tokens, dictionary)) == Join(tokens, ", ")
  {
    KeptRendered(BuildAll(tokens, dictionary), tokens);
  }

  // ---------------------------------------------------------------------
  // Writing back twice

  /** Building the text a token is written back as, and writing it back again, gives the same text. */
  predicate Stable(token: string, dictionary: map<string, string>)
  {
    var r := Render(Build(token, dictionary));
    r.Some? ==> Render(Build(r.value, dictionary)) == r
  }

  /** A translation that can be written into a bubble and read back: no `@`, no brace, no colon. */
  predicate CleanTranslation(tr: string)
  {
    '@' !in tr && '{' !in tr && ':' !in tr
  }

  /** A reference is stable: it is written back as typed. */
  lemma LoraStable(token: string, dictionary: map<string, string>)
    requires C.Classify(ParseTag(token).text) == C.Lora
    ensures Stable(token, dictionary)
  {
    LoraRoundTrip(token, dictionary);
  }

  /** A group is stable: it is written back as typed. */
  lemma GroupStable(token: string, dictionary: map<string, string>)
    requires C.Classify(ParseTag(token).text) == C.Group
    ensures Stable(token, dictionary)
  {
    GroupRoundTrip(token, dictionary);
  }

  /**
   * A plain `@`-free token is stable: it comes back with the dictionary's
   * translation attached, and that comes back as it is.
   */
  lemma PlainStable(token: string, dictionary: map<string, string>)
    requires token != "" && Trimmed(token) && NoLineTerminator(token) && '@' !in token
    requires C.Classify(token) == C.Plain && '@' !in Lookup(dictionary, token)
    ensures Stable(token, dictionary)
  {
    PlainRoundTrip(token, dictionary);
    var tr := Lookup(dictionary, token);
    if tr != "" {
      AnnotatedPlainRoundTrip(token, tr, dictionary);
    }
  }

  /** An annotated plain token `b@@t@@` is stable: it is written back as typed. */
  lemma AnnotatedPlainStable(b: string, t: string, dictionary: map<string, string>)
    requires b != "" && Trimmed(b) && NoLineTerminator(b) && '@' !in b
    requires t != "" && '@' !in t
    requires C.Classify(b) == C.Plain
    ensures Stable(b + "@@" + t + "@@", dictionary)
  {
    AnnotatedPlainRoundTrip(b, t, dictionary);
  }

  /** `t@@tr@@` is not wrapped in a pair, holds no colon, and holds no brace when `t` and `tr` hold none. */
  lemma AnnotatedInner(t: string, tr: string)
    requires ':' !in t && ':' !in tr
    ensures var inner := t + "@@" + tr + "@@";
      && !W.Wrapped(inner, '(', ')') && !W.Wrapped(inner, '[', ']') && ':' !in inner
      && ('{' !in t && '{' !in tr ==> '{' !in inner)
  {
    var inner := t + "@@" + tr + "@@";
    assert inner[0] == (if t == [] then '@' else t[0]) && inner[|inner| - 1] == '@';
  }

  /** The bubble of `(t@@tr@@)` or `[t@@tr@@]`: tag `t`, translation `tr`, the syntax of the pair and no explicit value. */
  lemma AnnotatedPairBubble(t: string, tr: string, open: char, close: char, dictionary: map<string, string>)
    requires (open == '(' && close == ')') || (open == '[' && close == ']')
    requires BareTag(t) && Trimmed(t) && NoLineTerminator(t)
    requires tr != "" && CleanTranslation(tr)
    ensures Build([open] + (t + "@@" + tr + "@@") + [close], dictionary)
      == Standard(t, tr, Some(WeightData(None, if open == '(' then W.Round else W.Square)))
  {
    var inner := t + "@@" + tr + "@@";
    var y := [open] + inner + [close];
    AnnotatedInner(t, tr);
    assert y[0] == open && y[|y| - 1] == close && '{' !in y;
    WeightBranch(y, dictionary);
    W.DecodePair(inner, open, close);
    AnnotatedWeight(y, t, tr, dictionary);
  }

  /** One pair around a bare tag with a translation attached, `(t@@tr@@)` or `[t@@tr@@]`, is written back as it is. */
  lemma AnnotatedPairRoundTrip(t: string, tr: string, open: char, close: char, dictionary: map<string, string>)
    requires (open == '(' && close == ')') || (open == '[' && close == ']')
    requires BareTag(t) && Trimmed(t) && NoLineTerminator(t)
    requires tr != "" && CleanTranslation(tr)
    ensures var y := [open] + (t + "@@" + tr + "@@") + [close];
      Render(Build(y, dictionary)) == Some(y)
  {
    AnnotatedPairBubble(t, tr, open, close, dictionary);
  }

  /** One pair around a bare tag and its dictionary translation is written back as it is. */
  lemma PairRoundTrip(t: string, open: char, close: char, dictionary: map<string, string>)
    requires (open == '(' && close == ')') || (open == '[' && close == ']')
    requires BareTag(t) && Trimmed(t) && NoLineTerminator(t) && CleanTranslation(Lookup(dictionary, t))
    ensures var y := [open] + JoinTag(t, Lookup(dictionary, t)) + [close];
      Render(Build(y, dictionary)) == Some(y)
  {
    var tr := Lookup(dictionary, t);
    if tr == "" {
      assert W.Repeat(open, 1) + t + W.Repeat(close, 1) == [open] + t + [close];
      NestedRoundTrip(t, open, close, 1, dictionary);
    } else {
      AnnotatedPairRoundTrip(t, tr, open, close, dictionary);
    }
  }

  /** Nested pairs around a bare tag are stable: they collapse to one pair, which is written back as it is. */
  lemma WeightStable(t: string, open: char, close: char, k: nat, dictionary: map<string, string>)
    requires (open == '(' && close == ')') || (open == '[' && close == ']')
    requires k >= 1 && BareTag(t) && Trimmed(t) && NoLineTerminator(t) && CleanTranslation(Lookup(dictionary, t))
    ensures Stable(W.Repeat(open, k) + t + W.Repeat(close, k), dictionary)
  {
    NestedRoundTrip(t, open, close, k, dictionary);
    PairRoundTrip(t, open, close, dictionary);
  }

  /**
   * `(t:lit)` and `[t:lit]` are stable: a truthy value comes back as
   * `(t:lit)` with the translation inside, a zero one as a bare pair, and
   * either is written back as it is.
   */
  lemma ExplicitStable(t: string, lit: string, n: Num, open: char, close: char, dictionary: map<string, string>)
    requires (open == '(' && close == ')') || (open == '[' && close == ']')
    requires BareTag(t) && t != "" && Trimmed(t) && NoLineTerminator(t) && CleanTranslation(Lookup(dictionary, t))
    requires ExplicitLiteral(lit) && ParseFloat(lit) == Some(n)
    ensures Stable([open] + t + ":" + lit + [close], dictionary)
  {
    ExplicitBubbleAt(t, lit, n, open, close, dictionary);
    var tr := Lookup(dictionary, t);
    if !Truthy(n) {
      PairRoundTrip(t, open, close, dictionary);
    } else if tr == "" {
      ExplicitRoundTrip(t, lit, n, dictionary);
    } else {
      AnnotatedExplicitRoundTrip(t, lit, n, tr, dictionary);
    }
  }

  /**
   * A dynamic token whose base has no `@` is stable: it is written back as
   * its base, dropping any translation attached to the whole token, and the
   * base is written back as it is.
   */
  lemma DynamicStable(token: string, dictionary: map<string, string>)
    requires C.Classify(ParseTag(token).text) == C.Dynamic && '@' !in ParseTag(token).text
    ensures Stable(token, dictionary)
  {
    var base := ParseTag(token).text;
    BuildDynamic(token, dictionary);
    DynamicRender(base, ParseTag(token).translation);
    ParseBare(base);
    DynamicRoundTrip(base, dictionary);
  }

  /** With no `{` at or after `p`, the split finds no choice: the rest is one literal part. */
  lemma {:induction false} PiecesWithoutBrace(s: string, p: nat)
    requires p <= |s| && forall k :: p <= k < |s| ==> s[k] != '{'
    ensures Pieces(s, p) == [s[p..]]
    decreases |s| - p
  {
    if p < |s| {
      assert ChoiceClose(s, p).None?;
      PiecesWithoutBrace(s, p + 1);
      assert NextChoice(s, p) == NextChoice(s, p + 1);
    }
  }

  /** `{a}@@x@@` splits into an empty literal, the choice `{a}` and the literal `@@x@@`. */
  lemma TwiceAnnotatedParts()
    ensures DynamicParts("{a}@@x@@") == ["", "{a}", "@@x@@"]
  {
    var b := "{a}@@x@@";
    assert NextBrace(b, 1) == Some(2);
    assert ChoiceClose(b, 0) == Some(2);
    assert NextChoice(b, 0) == Found(0, 2);
    PiecesWithoutBrace(b, 3);
    assert b[0..0] == "" && b[0..3] == "{a}" && b[3..] == "@@x@@";
  }

  /** Two parts after an empty one: each non-empty one gets a child. */
  lemma PartsOfTwo(c: string, lit: string)
    ensures PartsOf(["", c, lit]) == (if c == "" then [] else [PartOf(c)]) + (if lit == "" then [] else [PartOf(lit)])
  {
    var parts: seq<string> := ["", c, lit];
    assert parts[1..] == [c, lit] && parts[1..][1..] == [lit] && parts[1..][1..][1..] == [];
    var last := if lit == "" then [] else [PartOf(lit)];
    assert PartsOf([lit]) == last + PartsOf([]);
    assert PartsOf([c, lit]) == (if c == "" then [] else [PartOf(c)]) + PartsOf([lit]);
    assert PartsOf(parts) == [] + PartsOf([c, lit]);
  }

  /** Up to two children are written back one after the other. */
  lemma RenderTwo(p: DynPart, q: DynPart, c: string, lit: string)
    requires RenderPart(p) == c && RenderPart(q) == lit
    ensures RenderParts((if c == "" then [] else [p]) + (if lit == "" then [] else [q])) == c + lit
  {
    if c != "" && lit != "" {
      assert ([p] + [q])[1..] == [q];
      assert RenderParts([q]) == lit + "";
    } else if c != "" {
      assert RenderParts([p]) == c + "";
    } else if lit != "" {
      assert RenderParts([q]) == lit + "";
    }
  }

  /** A choice followed by a literal part is written back as the two texts joined. */
  lemma ChoiceLiteralRender(c: string, lit: string)
    requires '@' !in c && !Braced(lit)
    ensures RenderParts(PartsOf(["", c, lit])) == c + lit
  {
    PartsOfTwo(c, lit);
    PartRoundTrip(c);
    LiteralSegmentsRender(lit);
    RenderTwo(PartOf(c), PartOf(lit), c, lit);
  }

  /** Both `{a}@@x@@` and `{a}` are labelled dynamic. */
  lemma TwiceAnnotatedClassify()
    ensures C.Classify("{a}@@x@@") == C.Dynamic && C.Classify("{a}") == C.Dynamic
  {
    var b := "{a}@@x@@";
    var c := "{a}";
    assert b[0] == '{' && b[2] == '}' && c[0] == '{' && c[2] == '}';
    assert Trimmed(b) && Trimmed(c);
    TrimByOfTrimmed(b, IsJsSpace);
    TrimByOfTrimmed(c, IsJsSpace);
    C.HasChoiceBracesMeans(b);
    C.HasChoiceBracesMeans(c);
  }

  /**
   * Not every token is stable: `{a}@@x@@@@y@@` is a dynamic token whose
   * base `{a}@@x@@` itself ends in an annotation. It is written back as that
   * base, which is in turn written back as `{a}`.
   */
  lemma DynamicTwiceAnnotated()
    ensures Render(Build("{a}@@x@@@@y@@", map[])) == Some("{a}@@x@@")
    ensures Render(Build("{a}@@x@@", map[])) == Some("{a}")
  {
    TwiceAnnotatedOuter();
    TwiceAnnotatedInner();
  }

  lemma TwiceAnnotatedOuter()
    ensures Render(Build("{a}@@x@@@@y@@", map[])) == Some("{a}@@x@@")
  {
    assert "{a}" + "@@x@@" == "{a}@@x@@";
    assert !Braced("@@x@@") && '@' !in "{a}";
    TwiceAnnotatedTags();
    TwiceAnnotatedClassify();
    TwiceAnnotatedParts();
    ChoiceThenLiteral("{a}@@x@@@@y@@", "{a}@@x@@", "y", "{a}", "@@x@@");
  }

  /** A dynamic token whose base splits into a choice and a literal tail is written back as that base. */
  lemma ChoiceThenLiteral(token: string, b: string, y: string, c: string, lit: string)
    requires ParseTag(token) == Tag(b, y) && C.Classify(b) == C.Dynamic
    requires DynamicParts(b) == ["", c, lit] && '@' !in c && !Braced(lit) && b == c + lit
    ensures Render(Build(token, map[])) == Some(b)
  {
    var none: map<string, string> := map[];
    BuildDynamic(token, none);
    assert Build(token, none) == Dynamic(PartsOf(DynamicParts(b)), y);
    ChoiceLiteralRender(c, lit);
  }

  lemma TwiceAnnotatedInner()
    ensures Render(Build("{a}@@x@@", map[])) == Some("{a}")
  {
    var none: map<string, string> := map[];
    var b := "{a}@@x@@";
    TwiceAnnotatedTags();
    TwiceAnnotatedClassify();
    BuildDynamic(b, none);
    var parts := PartsOf(DynamicParts("{a}"));
    assert Build(b, none) == Dynamic(parts, "x");
    TwiceAnnotatedChoice();
  }

  /** The bare choice `{a}` is written back as it is. */
  lemma TwiceAnnotatedChoice()
    ensures Render(Dynamic(PartsOf(DynamicParts("{a}")), "x")) == Some("{a}")
  {
    assert '@' !in "{a}";
    DynamicRender("{a}", "x");
  }

  /** The translations `parseTag` reads from `{a}@@x@@@@y@@` and from `{a}@@x@@`. */
  lemma TwiceAnnotatedTags()
    ensures ParseTag("{a}@@x@@@@y@@") == Tag("{a}@@x@@", "y")
    ensures ParseTag("{a}@@x@@") == Tag("{a}", "x")
  {
    var b := "{a}@@x@@";
    assert b + "@@" + "y" + "@@" == "{a}@@x@@@@y@@";
    assert "{a}" + "@@" + "x" + "@@" == b;
    assert NoLineTerminator(b) by {
      assert forall k :: 0 <= k < |b| ==> b[k] in "{a}@x";
    }
    assert NoLineTerminator("{a}") && Trimmed(b) && Trimmed("{a}");
    ParseTagAnnotated(b, "y");
    ParseTagAnnotated("{a}", "x");
    TrimByOfTrimmed(b, IsJsSpace);
    TrimByOfTrimmed("{a}", IsJsSpace);
  }

  /** `y` is non-empty and is written back as itself. */
  predicate Fixed(y: string, dictionary: map<string, string>)
  {
    y != "" && Render(Build(y, dictionary)) == Some(y)
  }

  /** Every text in `ys` is fixed. */
  predicate AllFixed(ys: seq<string>, dictionary: map<string, string>)
  {
    forall k :: 0 <= k < |ys| ==> Fixed(ys[k], dictionary)
  }

  lemma AllFixedAppend(a: seq<string>, b: seq<string>, dictionary: map<string, string>)
    requires AllFixed(a, dictionary) && AllFixed(b, dictionary)
    ensures AllFixed(a + b, dictionary)
  {
    forall k | 0 <= k < |a + b|
      ensures Fixed((a + b)[k], dictionary)
    {
      if k >= |a| {
        assert (a + b)[k] == b[k - |a|];
      }
    }
  }

  lemma StableKept(token: string, dictionary: map<string, string>)
    requires Stable(token, dictionary)
    ensures AllFixed(Kept([Build(token, dictionary)]), dictionary)
  {
    var b := Build(token, dictionary);
    var r := Render(b);
    KeptOne(b);
    if r.Some? && r.value != "" {
      assert Fixed(r.value, dictionary);
      FixedOne(r.value, dictionary);
    }
  }

  lemma FixedOne(y: string, dictionary: map<string, string>)
    requires Fixed(y, dictionary)
    ensures AllFixed([y], dictionary)
  {
    forall k | 0 <= k < |[y]|
      ensures Fixed([y][k], dictionary)
    {
      assert [y][k] == y;
    }
  }

  /** Texts kept from stable tokens are each written back as themselves. */
  lemma {:induction false} KeptStable(tokens: seq<string>, dictionary: map<string, string>)
    requires forall k :: 0 <= k < |tokens| ==> Stable(tokens[k], dictionary)
    ensures AllFixed(Kept(BuildAll(tokens, dictionary)), dictionary)
    decreases |tokens|
  {
    if tokens != [] {
      var bs := BuildAll(tokens, dictionary);
      KeptStable(tokens[1..], dictionary);
      assert bs == [bs[0]] + BuildAll(tokens[1..], dictionary);
      KeptAppend([bs[0]], BuildAll(tokens[1..], dictionary));
      StableKept(tokens[0], dictionary);
      AllFixedAppend(Kept([bs[0]]), Kept(BuildAll(tokens[1..], dictionary)), dictionary);
    }
  }

  /**
   * Whole prompts: when every token is stable and the tokenizer reads the
   * serialized prompt back as the texts it was written from, a second
   * tokenize, build and serialize gives the same prompt.
   */
  lemma PromptStable(tokens: seq<string>, dictionary: map<string, string>)
    requires forall k :: 0 <= k < |tokens| ==> Stable(tokens[k], dictionary)
    requires Tokenizer.Tokens(Serialize(BuildAll(tokens, dictionary))) == Kept(BuildAll(tokens, dictionary))
    ensures var prompt := Serialize(BuildAll(tokens, dictionary));
      Serialize(BuildAll(Tokenizer.Tokens(prompt), dictionary)) == prompt
  {
    KeptStable(tokens, dictionary);
    var ys := Kept(BuildAll(tokens, dictionary));
    forall k | 0 <= k < |ys|
      ensures ys[k] != "" && Render(Build(ys[k], dictionary)) == Some(ys[k])
    {
      assert Fixed(ys[k], dictionary);
    }
    SerializeFaithful(ys, dictionary);
  }

  /** A simple tag is a plain token. */
  lemma SimpleIsPlain(t: string)
    requires Tokenizer.Simple(t)
    ensures '@' !in t && C.Classify(t) == C.Plain
  {
    assert forall k :: 0 <= k < |t| ==> t[k] !in "(){}[]<>!@";
    AnnotatedHasAt(t);
    TrimByOfTrimmed(t, IsJsSpace);
    assert C.ClassifierBase(t) == t;
  }

  /**
   * A prompt of simple tags separated by ", ", with no dictionary
   * translations for them, is written back unchanged by tokenizing,
   * building bubbles and serializing.
   */
  lemma PromptRoundTrip(ts: seq<string>, dictionary: map<string, string>)
    requires forall k :: 0 <= k < |ts| ==> Tokenizer.Simple(ts[k]) && Lookup(dictionary, ts[k]) == ""
    ensures Serialize(BuildAll(Tokenizer.Tokens(Join(ts, ", ")), dictionary)) == Join(ts, ", ")
  {
    Tokenizer.TokensOfJoin(ts);
    forall k | 0 <= k < |ts|
      ensures ts[k] != "" && Render(Build(ts[k], dictionary)) == Some(ts[k])
    {
      SimpleIsPlain(ts[k]);
      PlainRoundTrip(ts[k], dictionary);
    }
    SerializeFaithful(ts, dictionary);
  }
}
