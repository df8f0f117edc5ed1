/**
 * The translation codec: a token or sub-token may end in an annotation
 * `@@translation@@`. `ParseTag` recognises it exactly as the anchored
 * expression `^(.*)@@([^@]+)@@$` does, `JoinTag` attaches one.
 */
module Translation {
  import opened Strings

  /** A tag with its (possibly empty) translation, the result of `parseTag`. */
  datatype Tag = Tag(text: string, translation: string)

  /**
   * `s` is `p + "@@" + t + "@@"` with `t` a non-empty run without `@` and `p`
   * free of line terminators (the `.` of `(.*)` does not match them).
   */
  predicate IsAnnotated(s: string, p: string, t: string)
  {
    s == p + "@@" + t + "@@" && t != [] && '@' !in t && NoLineTerminator(p)
  }

  /** The start of the longest `@`-free run of `s` that ends at index `e`. */
  function RunStart(s: string, e: nat): (j: nat)
    requires e <= |s|
    ensures j <= e && forall k :: j <= k < e ==> s[k] != '@'
    ensures j > 0 ==> s[j - 1] == '@'
  {
    if e > 0 && s[e - 1] != '@' then RunStart(s, e - 1) else e
  }

  /** The prefix and translation of a trailing `@@t@@`, if the whole string matches. */
  function SplitTranslation(s: string): (r: Option<(string, string)>)
    ensures r.Some? ==> IsAnnotated(s, r.value.0, r.value.1)
  {
    if |s| < 5 || s[|s| - 2..] != "@@" then None
    else
      var e := |s| - 2;
      var j := RunStart(s, e);
      if j == e || j < 2 || s[j - 2] != '@' || !NoLineTerminator(s[..j - 2]) then None
      else
        assert s == s[..j - 2] + "@@" + s[j..e] + "@@";
        assert forall k :: 0 <= k < e - j ==> s[j..e][k] == s[j + k];
        Some((s[..j - 2], s[j..e]))
  }

  /** The decomposition is unique: every way of reading `s` as annotated is the one found. */
  lemma SplitTranslationComplete(s: string, p: string, t: string)
    requires IsAnnotated(s, p, t)
    ensures SplitTranslation(s) == Some((p, t))
  {
    var e := |s| - 2;
    assert s[|s| - 2..] == "@@";
    assert s[|p| + 2..e] == t;
    assert s[|p| + 1] == '@';
    var j := RunStart(s, e);
    assert forall k :: |p| + 2 <= k < e ==> s[k] == t[k - |p| - 2];
    assert j == |p| + 2;
    assert s[..j - 2] == p;
  }

  /** Regrouping of an annotated string around its annotation. */
  lemma AnnotationSplit(p: string, t: string)
    ensures p + "@@" + t + "@@" == p + ("@@" + t + "@@")
  {
  }

  /**
   * `parseTag`: the trimmed base and the translation, or the token unchanged
   * with no translation. A translation is recovered exactly when the token
   * is annotated, and it is then `@`-free with a trimmed text.
   */
  function ParseTag(token: string): (r: Tag)
    ensures r.translation != "" <==> SplitTranslation(token).Some?
    ensures r.translation == "" ==> r.text == token
    ensures r.translation != "" ==> '@' !in r.translation && Trimmed(r.text)
  {
    match SplitTranslation(token)
    case Some((p, t)) => TrimIdempotent(p); Tag(Trim(p), t)
    case None => Tag(token, "")
  }

  /** Round trip of the suffix: `parseTag(b + "@@" + t + "@@") == (trim(b), t)`. */
  lemma ParseTagAnnotated(b: string, t: string)
    requires t != [] && '@' !in t && NoLineTerminator(b)
    ensures ParseTag(b + "@@" + t + "@@") == Tag(Trim(b), t)
  {
    SplitTranslationComplete(b + "@@" + t + "@@", b, t);
  }

  /** Attaches a translation the way every caller does: `translation ? base@@translation@@ : base`. */
  function JoinTag(text: string, translation: string): string
  {
    if translation == "" then text else text + "@@" + translation + "@@"
  }

  /**
   * A tag whose text is trimmed, one line, and not itself annotated, with a
   * translation free of `@`, survives `JoinTag` followed by `ParseTag`.
   */
  lemma ParseJoinTag(text: string, translation: string)
    requires Trimmed(text) && NoLineTerminator(text) && SplitTranslation(text).None?
    requires '@' !in translation
    ensures ParseTag(JoinTag(text, translation)) == Tag(text, translation)
  {
    if translation != "" {
      ParseTagAnnotated(text, translation);
      TrimByOfTrimmed(text, IsJsSpace);
    }
  }

  /** A text that does not end with `@` is not annotated. */
  lemma EndsWithoutAt(s: string)
    requires s != [] && s[|s| - 1] != '@'
    ensures SplitTranslation(s).None?
  {
  }

  /** The text `parseTag` keeps is a slice of the token, so it holds no character the token does not. */
  lemma ParseTagTextAbsent(s: string, c: char)
    requires c !in s
    ensures c !in ParseTag(s).text
  {
    match SplitTranslation(s)
    case Some((p, t)) =>
      assert s == p + ("@@" + t + "@@");
      assert c !in p;
      TrimByParts(p, IsJsSpace);
    case None =>
  }

  /** Only a text containing `@` can be annotated. */
  lemma AnnotatedHasAt(s: string)
    ensures SplitTranslation(s).Some? ==> '@' in s
  {
    if SplitTranslation(s).Some? {
      assert s[|s| - 1] == '@';
    }
  }
}
