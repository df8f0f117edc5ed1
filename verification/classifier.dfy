/**
 * The token classifier `identifyToken`: five labels decided by cheap
 * structural checks on the trimmed token and on its base (the token with a
 * trailing `@@translation@@` removed).
 */
module Classifier {
  import opened Strings
  import opened Translation

  /** The labels of `identifyToken`: `plain`, `weight`, `lora`, `group`, `dynamic`. */
  datatype Kind = Plain | Weight | Lora | Group | Dynamic

  /** The dynamic test as written: `{` and `}` both occur and the first `{` precedes the last `}`. */
  predicate HasChoiceBraces(s: string)
  {
    '{' in s && '}' in s && IndexOfChar(s, '{') < LastIndexOf(s, '}').value
  }

  /** `s` starts with `open` and ends with `close` (the two tests may overlap on a one-character string). */
  predicate Enclosed(s: string, open: string, close: string)
  {
    StartsWith(s, open) && EndsWith(s, close)
  }

  /** The base the classifier tests: the trimmed token with a trailing annotation removed and re-trimmed. */
  function ClassifierBase(token: string): string
  {
    var t := Trim(token);
    match SplitTranslation(t)
    case Some((p, _)) => Trim(p)
    case None => t
  }

  function KindOfBase(base: string): Kind
  {
    if Enclosed(base, "(", ")") || Enclosed(base, "[", "]") then Weight
    else if Enclosed(base, "<", ">") then Lora
    else if Enclosed(base, "!!", "!!") then Group
    else Plain
  }

  /**
   * `identifyToken`: dynamic only when the trimmed token holds both braces
   * (`HasChoiceBracesMeans` says exactly when); otherwise the label the
   * enclosing pair of the base gives, plain when there is none.
   */
  function Classify(token: string): (r: Kind)
    ensures r == Dynamic ==> '{' in Trim(token) && '}' in Trim(token)
    ensures r == Weight ==> Enclosed(ClassifierBase(token), "(", ")") || Enclosed(ClassifierBase(token), "[", "]")
    ensures r == Lora ==> Enclosed(ClassifierBase(token), "<", ">")
    ensures r == Group ==> Enclosed(ClassifierBase(token), "!!", "!!")
    ensures r == Plain ==> var b := ClassifierBase(token);
      !Enclosed(b, "(", ")") && !Enclosed(b, "[", "]") && !Enclosed(b, "<", ">") && !Enclosed(b, "!!", "!!")
  {
    if HasChoiceBraces(Trim(token)) then Dynamic else KindOfBase(ClassifierBase(token))
  }

  /** The dynamic test holds exactly when some `{` comes before some `}`. */
  lemma HasChoiceBracesMeans(s: string)
    ensures HasChoiceBraces(s) <==> exists i, j :: 0 <= i < j < |s| && s[i] == '{' && s[j] == '}'
  {
    if exists i, j :: 0 <= i < j < |s| && s[i] == '{' && s[j] == '}' {
      var i, j :| 0 <= i < j < |s| && s[i] == '{' && s[j] == '}';
      assert '{' in s && '}' in s;
      var a := IndexOfChar(s, '{');
      var b := LastIndexOf(s, '}').value;
      assert a <= i && j <= b;
    }
  }

  /** Text without braces after a token does not change the dynamic test. */
  lemma BracesWithSuffix(v: string, y: string)
    requires '{' !in y && '}' !in y
    ensures HasChoiceBraces(v + y) <==> HasChoiceBraces(v)
  {
    assert '{' in v + y <==> '{' in v;
    assert '}' in v + y <==> '}' in v;
    if '{' in v {
      IndexOfCharAppend(v, y, '{');
    }
    LastIndexOfAppend(v, y, '}');
  }

  /** Trimming the front again changes nothing: `trim(trimStart(b)) == trim(b)`. */
  lemma TrimOfTrimStart(b: string)
    ensures Trim(TrimStartBy(b, IsJsSpace)) == Trim(b)
  {
    var u := TrimStartBy(b, IsJsSpace);
    assert TrimStartBy(u, IsJsSpace) == u;
  }

  /** The trimmed annotated token is its front-trimmed text followed by the annotation. */
  lemma TrimAnnotated(b: string, t: string)
    ensures Trim(b + "@@" + t + "@@") == TrimStartBy(b, IsJsSpace) + "@@" + t + "@@"
  {
    var x := "@@" + t + "@@";
    assert x[0] == '@' && x[|x| - 1] == '@';
    AnnotationSplit(b, t);
    TrimAppend(b, x, IsJsSpace);
    AnnotationSplit(TrimStartBy(b, IsJsSpace), t);
  }

  /** The classifier's base of an annotated token is the trimmed text before the annotation. */
  lemma BaseOfAnnotated(b: string, t: string)
    requires t != [] && '@' !in t && NoLineTerminator(b)
    ensures ClassifierBase(b + "@@" + t + "@@") == Trim(b)
  {
    var u := TrimStartBy(b, IsJsSpace);
    TrimAnnotated(b, t);
    assert NoLineTerminator(u) by {
      assert forall k :: 0 <= k < |u| ==> u[k] == b[|b| - |u| + k];
    }
    SplitTranslationComplete(u + "@@" + t + "@@", u, t);
    TrimOfTrimStart(b);
  }

  /** White space holds no brace. */
  lemma SpaceHasNoBraces(w: string)
    requires AllJsSpace(w)
    ensures '{' !in w && '}' !in w
  {
    forall k | 0 <= k < |w| ensures w[k] != '{' && w[k] != '}' {
      assert IsJsSpace(w[k]);
    }
  }

  /** A brace-free annotation does not change the dynamic test. */
  lemma BracesOfAnnotated(b: string, t: string)
    requires '{' !in t && '}' !in t
    ensures HasChoiceBraces(Trim(b + "@@" + t + "@@")) <==> HasChoiceBraces(Trim(b))
  {
    var u := TrimStartBy(b, IsJsSpace);
    TrimAnnotated(b, t);
    AnnotationSplit(u, t);
    TrimStartTail(b);
    var w := u[|Trim(b)|..];
    SpaceHasNoBraces(w);
    BracesAfterTail(Trim(b), w, t);
  }

  /** `v + w + "@@" + t + "@@"` passes the dynamic test exactly when `v` does, for brace-free `w` and `t`. */
  lemma BracesAfterTail(v: string, w: string, t: string)
    requires '{' !in w && '}' !in w && '{' !in t && '}' !in t
    ensures HasChoiceBraces((v + w) + ("@@" + t + "@@")) <==> HasChoiceBraces(v)
  {
    var x := "@@" + t + "@@";
    AnnotationHasNoBraces(t);
    assert (v + w) + x == v + (w + x);
    BracesWithSuffix(v, w + x);
  }

  lemma AnnotationHasNoBraces(t: string)
    requires '{' !in t && '}' !in t
    ensures forall w :: '{' !in w && '}' !in w ==> '{' !in w + ("@@" + t + "@@") && '}' !in w + ("@@" + t + "@@")
  {
  }

  /** A brace-free annotation does not change the label of a token whose trimmed form carries none. */
  lemma ClassifyIgnoresTranslation(b: string, t: string)
    requires t != [] && '@' !in t && '{' !in t && '}' !in t
    requires NoLineTerminator(b) && SplitTranslation(Trim(b)).None?
    ensures Classify(b + "@@" + t + "@@") == Classify(b)
  {
    BaseOfAnnotated(b, t);
    BracesOfAnnotated(b, t);
  }

  /** A trimmed token without a translation is its own base, so only the dynamic test and the shape of the token decide its label. */
  lemma ClassifyBare(token: string)
    requires Trimmed(token) && SplitTranslation(token).None?
    ensures ClassifierBase(token) == token
    ensures Classify(token) == if HasChoiceBraces(token) then Dynamic else KindOfBase(token)
  {
    TrimByOfTrimmed(token, IsJsSpace);
  }

  /** A base enclosed by `()` or `[]` is a weight. */
  lemma WeightShape(base: string)
    requires |base| >= 2
    requires (base[0] == '(' && base[|base| - 1] == ')') || (base[0] == '[' && base[|base| - 1] == ']')
    ensures KindOfBase(base) == Weight
  {
    assert base[..1] == [base[0]];
    assert base[|base| - 1..] == [base[|base| - 1]];
  }

  /** The empty token is plain. */
  lemma EmptyIsPlain()
    ensures Classify("") == Plain
  {
    AnnotatedHasAt("");
    ClassifyBare("");
  }
}
