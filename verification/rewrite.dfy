/**
 * `applyTranslation`: the translations from two merged maps are written
 * into the tokens of the prompt, each under the key of its token, its
 * dynamic part and its option.
 */
module Rewrite {
  import opened Strings
  import opened Translation
  import C = Classifier
  import W = WeightCodec
  import opened Numbers
  import opened SubParse
  import Tokenizer
  import S = Serializer

  // ---------------------------------------------------------------------
  // applyTranslation

  /**
   * The keys of the translation maps, one constructor per key format:
   * `${idx}_-1` for a plain token, `${idx}_-2` for a weight,
   * `${idx}_dyn_${part}_${opt}` for an option of a dynamic part and
   * `${idx}_txt_${part}` for a literal part.
   */
  datatype Key = PlainKey(token: nat) | WeightKey(token: nat)
               | OptionKey(token: nat, part: nat, option: nat) | TextKey(token: nat, part: nat)

  /** `{ ...preCalcMap, ...apiMap }`. */
  function Merge(pre: map<Key, string>, api: map<Key, string>): (m: map<Key, string>)
    ensures m.Keys == pre.Keys + api.Keys
    ensures forall k :: k in api ==> m[k] == api[k]
    ensures forall k :: k in pre && k !in api ==> m[k] == pre[k]
  {
    pre + api
  }

  /** `finalMap[key]`, with a missing entry as the empty (falsy) string. */
  function Get(m: map<Key, string>, k: Key): string
  {
    if k in m then m[k] else ""
  }

  /** `newTrans && newTrans !== text ? text@@newTrans@@ : original`. */
  function Annotate(text: string, newTrans: string, original: string): (r: string)
    ensures newTrans == "" || newTrans == text ==> r == original
    ensures newTrans != "" && newTrans != text ==> r == text + "@@" + newTrans + "@@"
  {
    if newTrans != "" && newTrans != text then text + "@@" + newTrans + "@@" else original
  }

  /** The options of a dynamic part, each annotated with its own key. */
  function RewriteOptions(opts: seq<string>, idx: nat, part: nat, o: nat, m: map<Key, string>): (r: seq<string>)
    ensures |r| == |opts|
  {
    if opts == [] then []
    else [Annotate(ParseTag(opts[0]).text, Get(m, OptionKey(idx, part, o)), opts[0])]
         + RewriteOptions(opts[1..], idx, part, o + 1, m)
  }

  /** One part of a dynamic token: empty stays empty, a braced part has its options rewritten, a literal part gets its own key. */
  function RewritePart(part: string, idx: nat, p: nat, m: map<Key, string>): string
  {
    if part == "" then ""
    else if Braced(part) then "{" + Join(RewriteOptions(ChoiceOptions(part), idx, p, 0, m), "|") + "}"
    else Annotate(ParseTag(part).text, Get(m, TextKey(idx, p)), part)
  }

  /** The rewritten parts from index `p` on, joined with "". */
  function RewriteParts(parts: seq<string>, idx: nat, p: nat, m: map<Key, string>): string
    decreases |parts|
  {
    if parts == [] then "" else RewritePart(parts[0], idx, p, m) + RewriteParts(parts[1..], idx, p + 1, m)
  }

  /**
   * The weight rewrite with the pair written as `open`...`close`: the
   * translation goes before the `:value` when the last colon of the inside
   * is past its first character, and at the end of the inside otherwise;
   * nothing changes when there is no translation or it equals the tag.
   */
  function WeightWith(token: string, trans: string, open: string, close: string): string
  {
    if trans == "" then token
    else
      var content := Substring(token, 1, |token| - 1);
      var colon := LastIndexOf(content, ':');
      if colon.Some? && colon.value > 0 then
        var base := ParseTag(content[..colon.value]).text;
        if trans != base then open + (base + "@@" + trans + "@@") + content[colon.value..] + close else token
      else
        var base := ParseTag(content).text;
        if trans != base then open + (base + "@@" + trans + "@@") + close else token
  }

  /** The weight branch as written: the result is always wrapped in `(` and `)`. */
  function RewriteWeight(token: string, trans: string): string
  {
    WeightWith(token, trans, "(", ")")
  }

  /** The weight branch corrected to keep the kind of pair the token had. */
  function RewriteWeightCorrected(token: string, trans: string): string
  {
    if StartsWith(token, "[") then WeightWith(token, trans, "[", "]") else WeightWith(token, trans, "(", ")")
  }

  /**
   * The new text of the token at index `idx`, by its label: references and
   * groups are kept, a plain token is kept or carries the translation of its
   * key, and a weight without a translation is kept.
   */
  function Rewrite(token: string, idx: nat, m: map<Key, string>): (r: string)
    ensures C.Classify(token) == C.Lora || C.Classify(token) == C.Group ==> r == token
    ensures C.Classify(token) == C.Plain ==>
      r == token || r == ParseTag(token).text + "@@" + Get(m, PlainKey(idx)) + "@@"
    ensures C.Classify(token) == C.Plain && Get(m, PlainKey(idx)) != "" && Get(m, PlainKey(idx)) != ParseTag(token).text ==>
      r == ParseTag(token).text + "@@" + Get(m, PlainKey(idx)) + "@@"
    ensures C.Classify(token) == C.Weight && Get(m, WeightKey(idx)) == "" ==> r == token
  {
    match C.Classify(token)
    case Plain => Annotate(ParseTag(token).text, Get(m, PlainKey(idx)), token)
    case Dynamic => RewriteParts(DynamicParts(token), idx, 0, m)
    case Weight => RewriteWeight(token, Get(m, WeightKey(idx)))
    case Lora => token
    case Group => token
  }

  /** `Rewrite` with the weight branch corrected; every other label is rewritten the same way. */
  function RewriteCorrected(token: string, idx: nat, m: map<Key, string>): (r: string)
    ensures C.Classify(token) != C.Weight ==> r == Rewrite(token, idx, m)
    ensures C.Classify(token) == C.Weight && Get(m, WeightKey(idx)) == "" ==> r == token
  {
    if C.Classify(token) == C.Weight then RewriteWeightCorrected(token, Get(m, WeightKey(idx)))
    else Rewrite(token, idx, m)
  }

  function RewriteAll(tokens: seq<string>, idx: nat, m: map<Key, string>): (r: seq<string>)
    ensures |r| == |tokens|
    decreases |tokens|
  {
    if tokens == [] then [] else [Rewrite(tokens[0], idx, m)] + RewriteAll(tokens[1..], idx + 1, m)
  }

  /** `applyTranslation`: the new textarea value; with two empty maps it is the tokens joined with ", ". */
  function ApplyTranslation(tokens: seq<string>, pre: map<Key, string>, api: map<Key, string>): (r: string)
    ensures pre == map[] && api == map[] ==> r == Join(tokens, ", ")
  {
    AllUntouched(tokens, 0);
    Join(RewriteAll(tokens, 0, Merge(pre, api)), ", ")
  }

  // ---------------------------------------------------------------------
  // Without translations nothing changes

  lemma {:induction false} OptionsUntouched(opts: seq<string>, idx: nat, part: nat, o: nat)
    ensures RewriteOptions(opts, idx, part, o, map[]) == opts
    decreases |opts|
  {
    if opts != [] {
      OptionsUntouched(opts[1..], idx, part, o + 1);
    }
  }

  lemma PartUntouched(part: string, idx: nat, p: nat)
    ensures RewritePart(part, idx, p, map[]) == part
  {
    if part != "" && Braced(part) {
      OptionsUntouched(ChoiceOptions(part), idx, p, 0);
      ChoiceOptionsCount(part);
    }
  }

  lemma {:induction false} PartsUntouched(parts: seq<string>, idx: nat, p: nat)
    ensures RewriteParts(parts, idx, p, map[]) == Concat(parts)
    decreases |parts|
  {
    if parts != [] {
      PartUntouched(parts[0], idx, p);
      PartsUntouched(parts[1..], idx, p + 1);
    }
  }

  /** The parts of a dynamic token are written back as they were when the map is empty. */
  lemma DynamicUntouched(token: string, idx: nat)
    ensures RewriteParts(DynamicParts(token), idx, 0, map[]) == token
  {
    PartsUntouched(DynamicParts(token), idx, 0);
    DynamicPartsConcat(token);
  }

  lemma PlainUntouched(token: string, idx: nat)
    requires C.Classify(token) == C.Plain
    ensures Rewrite(token, idx, map[]) == token
  {
    assert Get(map[], PlainKey(idx)) == "";
  }

  lemma WeightUntouched(token: string, idx: nat)
    requires C.Classify(token) == C.Weight
    ensures Rewrite(token, idx, map[]) == token
  {
    var none: map<Key, string> := map[];
    assert Get(none, WeightKey(idx)) == "";
  }

  /** Every token is left as it is when the maps hold no translation. */
  lemma Untouched(token: string, idx: nat)
    ensures Rewrite(token, idx, map[]) == token
  {
    match C.Classify(token)
    case Plain => PlainUntouched(token, idx);
    case Dynamic => DynamicUntouched(token, idx);
    case Weight => WeightUntouched(token, idx);
    case Lora =>
    case Group =>
  }

  lemma {:induction false} AllUntouched(tokens: seq<string>, idx: nat)
    ensures RewriteAll(tokens, idx, map[]) == tokens
    decreases |tokens|
  {
    var none: map<Key, string> := map[];
    if tokens != [] {
      Untouched(tokens[0], idx);
      AllUntouched(tokens[1..], idx + 1);
      assert RewriteAll(tokens, idx, none) == [Rewrite(tokens[0], idx, none)] + RewriteAll(tokens[1..], idx + 1, none);
      assert tokens == [tokens[0]] + tokens[1..];
    }
  }

  // ---------------------------------------------------------------------
  // Plain tokens

  /** An annotation `parseTag` reads back: the text as the tag and the new translation. */
  lemma AnnotateParses(text: string, newTrans: string, original: string)
    requires Trimmed(text) && NoLineTerminator(text) && '@' !in text && '@' !in newTrans
    ensures newTrans != "" && newTrans != text ==> ParseTag(Annotate(text, newTrans, original)) == Tag(text, newTrans)
  {
    if newTrans != "" && newTrans != text {
      ParseTagAnnotated(text, newTrans);
      TrimByOfTrimmed(text, IsJsSpace);
    }
  }

  /**
   * A plain token gets the translation of its key, replacing any it had:
   * `b` and `b@@prev@@` both become `b@@tr@@`, and the bubble of the result
   * shows the tag `b` with the translation `tr`.
   */
  lemma PlainTranslated(b: string, tr: string, idx: nat, m: map<Key, string>, dictionary: map<string, string>)
    requires b != "" && Trimmed(b) && NoLineTerminator(b) && '@' !in b && C.Classify(b) == C.Plain
    requires Get(m, PlainKey(idx)) == tr && tr != "" && tr != b && '@' !in tr
    ensures Rewrite(b, idx, m) == b + "@@" + tr + "@@"
    ensures S.Render(S.Build(Rewrite(b, idx, m), dictionary)) == Some(b + "@@" + tr + "@@")
  {
    S.ParseBare(b);
    S.AnnotatedPlainRoundTrip(b, tr, dictionary);
  }

  lemma PlainRetranslated(b: string, prev: string, tr: string, idx: nat, m: map<Key, string>)
    requires Trimmed(b) && NoLineTerminator(b) && '@' !in b && C.Classify(b) == C.Plain
    requires prev != "" && '@' !in prev && '{' !in prev && '}' !in prev
    requires Get(m, PlainKey(idx)) == tr && tr != "" && tr != b
    ensures Rewrite(b + "@@" + prev + "@@", idx, m) == b + "@@" + tr + "@@"
  {
    ParseTagAnnotated(b, prev);
    TrimByOfTrimmed(b, IsJsSpace);
    AnnotatedHasAt(b);
    C.ClassifyIgnoresTranslation(b, prev);
  }

  // ---------------------------------------------------------------------
  // Weights

  /** The inside of a one-character pair, and the pair's ends. */
  lemma PairInside(open: char, x: string, close: char)
    ensures var token := [open] + x + [close];
      Substring(token, 1, |token| - 1) == x && |token| >= 2
      && token[0] == open && token[|token| - 1] == close
      && (StartsWith(token, "[") <==> open == '[')
  {
    var token := [open] + x + [close];
    assert token[1..|token| - 1] == x;
    assert token[..1] == [open];
  }

  /** The weight rewrite when the inside has its last colon past the start, after a tag `t` that carries no translation. */
  lemma WeightWithColon(token: string, t: string, rest: string, trans: string, open: string, close: string)
    requires Substring(token, 1, |token| - 1) == t + rest
    requires t != [] && rest != [] && rest[0] == ':' && ':' !in rest[1..]
    requires ParseTag(t).text == t && trans != "" && trans != t
    ensures WeightWith(token, trans, open, close) == open + (t + "@@" + trans + "@@") + rest + close
  {
    var content := t + rest;
    assert rest == ":" + rest[1..];
    W.LastColonBefore(t, rest[1..]);
    assert content == t + ":" + rest[1..];
    assert content[..|t|] == t && content[|t|..] == rest;
  }

  /** The weight rewrite when the inside has no colon and carries no translation. */
  lemma WeightWithoutColon(token: string, x: string, trans: string, open: string, close: string)
    requires Substring(token, 1, |token| - 1) == x && ':' !in x
    requires ParseTag(x).text == x && trans != "" && trans != x
    ensures WeightWith(token, trans, open, close) == open + (x + "@@" + trans + "@@") + close
  {
    assert LastIndexOf(x, ':').None?;
  }

  /** `(t:lit)` becomes `(t@@tr@@:lit)`: the translation goes inside the pair, before the value. */
  lemma ExplicitTranslated(t: string, lit: string, tr: string)
    requires t != "" && '@' !in t && ':' !in lit && tr != "" && tr != t
    ensures RewriteWeight("(" + (t + ":" + lit) + ")", tr) == "(" + (t + "@@" + tr + "@@") + ":" + lit + ")"
  {
    var token := "(" + (t + ":" + lit) + ")";
    PairInside('(', t + ":" + lit, ')');
    S.ParseBare(t);
    assert t + ":" + lit == t + (":" + lit);
    WeightWithColon(token, t, ":" + lit, tr, "(", ")");
    AppendAssoc("(" + (t + "@@" + tr + "@@"), ":", lit);
  }

  /**
   * The rewritten `(t:lit)` with a truthy value is written back by the
   * serializer exactly as it is, so a translated explicit weight survives a
   * rebuild.
   */
  lemma ExplicitTranslatedBubble(t: string, lit: string, n: Num, tr: string, dictionary: map<string, string>)
    requires S.TagText(t) && t != "" && Trimmed(t) && NoLineTerminator(t) && tr != t
    requires S.ExplicitLiteral(lit) && ParseFloat(lit) == Some(n) && S.Truthy(n)
    requires tr != "" && '@' !in tr && '{' !in tr
    ensures RewriteWeight("(" + (t + ":" + lit) + ")", tr) == "(" + (t + "@@" + tr + "@@") + ":" + lit + ")"
    ensures var y := "(" + (t + "@@" + tr + "@@") + ":" + lit + ")";
      S.Render(S.Build(y, dictionary)) == Some(y)
  {
    ExplicitTranslated(t, lit, tr);
    S.AnnotatedExplicitRoundTrip(t, lit, n, tr, dictionary);
  }

  /** As written, `[t]` becomes `(t@@tr@@)`: the de-emphasis 0.9 turns into the emphasis 1.1. */
  lemma SquareBecomesRound(t: string, tr: string, idx: nat, m: map<Key, string>)
    requires S.BareTag(t) && tr != "" && tr != t && '@' !in tr && ':' !in tr
    requires Get(m, WeightKey(idx)) == tr
    ensures Rewrite("[" + t + "]", idx, m) == "(" + (t + "@@" + tr + "@@") + ")"
    ensures W.Decode("[" + t + "]").value == Fin(0.9)
    ensures W.Decode("(" + (t + "@@" + tr + "@@") + ")").value == Fin(1.1)
  {
    PairInside('[', t, ']');
    S.WeightLabel("[" + t + "]");
    S.ParseBare(t);
    WeightWithoutColon("[" + t + "]", t, tr, "(", ")");
    W.DecodePair(t, '[', ']');
    var inner := t + "@@" + tr + "@@";
    S.AnnotatedInner(t, tr);
    W.DecodePair(inner, '(', ')');
  }

  /** Keeping the pair: `[t]` becomes `[t@@tr@@]`, which still weighs 0.9 with square syntax. */
  lemma SquareKept(t: string, tr: string, idx: nat, m: map<Key, string>)
    requires S.BareTag(t) && tr != "" && tr != t && '@' !in tr && ':' !in tr
    requires Get(m, WeightKey(idx)) == tr
    ensures RewriteCorrected("[" + t + "]", idx, m) == "[" + (t + "@@" + tr + "@@") + "]"
    ensures W.Decode("[" + (t + "@@" + tr + "@@") + "]") == W.Weight(t + "@@" + tr + "@@", Fin(0.9), W.Square, None, 1)
  {
    PairInside('[', t, ']');
    S.WeightLabel("[" + t + "]");
    S.ParseBare(t);
    WeightWithoutColon("[" + t + "]", t, tr, "[", "]");
    var inner := t + "@@" + tr + "@@";
    S.AnnotatedInner(t, tr);
    W.DecodePair(inner, '[', ']');
  }

  // ---------------------------------------------------------------------
  // Dynamic tokens

  /** The rewritten options are free of `|` when the options and the translations are. */
  lemma {:induction false} RewrittenOptionsBarFree(opts: seq<string>, idx: nat, part: nat, o: nat, m: map<Key, string>)
    requires forall k :: 0 <= k < |opts| ==> '|' !in opts[k]
    requires forall k :: k in m ==> '|' !in m[k]
    ensures forall k :: 0 <= k < |opts| ==> '|' !in RewriteOptions(opts, idx, part, o, m)[k]
    decreases |opts|
  {
    if opts != [] {
      ParseTagTextAbsent(opts[0], '|');
      RewrittenOptionsBarFree(opts[1..], idx, part, o + 1, m);
    }
  }

  /**
   * A braced part keeps its options one for one: the options of the
   * rewritten part are the rewritten options, when no translation holds `|`.
   */
  lemma ChoiceRewritten(part: string, idx: nat, p: nat, m: map<Key, string>)
    requires Braced(part)
    requires forall k :: k in m ==> '|' !in m[k]
    ensures var r := RewritePart(part, idx, p, m);
      Braced(r) && ChoiceOptions(r) == RewriteOptions(ChoiceOptions(part), idx, p, 0, m)
  {
    var opts := RewriteOptions(ChoiceOptions(part), idx, p, 0, m);
    RewrittenOptionsBarFree(ChoiceOptions(part), idx, p, 0, m);
    var inner := Join(opts, "|");
    var r := "{" + inner + "}";
    assert r[1..|r| - 1] == inner;
    assert Substring(r, 1, |r| - 1) == inner;
    SplitJoin(opts, '|');
  }
}
