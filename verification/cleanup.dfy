/**
 * The prompt cleanup run before generation: groups written as `!!a/b!!`
 * are expanded back into `a, b`, then every `@@…@@` translation span is
 * deleted, so the generator sees only the tags.
 */
module PromptCleanup {
  import opened Strings
  import opened Translation
  import AddTag

  // ---------------------------------------------------------------------
  // `re.sub(r'!!(.+?)!!', …)`: `.` does not match a line feed

  /**
   * The index of the `!!` closing a group whose content runs from `j - 1`:
   * the first `!!` at or after `j`, provided no line feed comes before it.
   */
  function GroupClose(s: string, j: nat): (r: Option<nat>)
    requires 1 <= j
    ensures r.Some? ==> j <= r.value && OccursAt(s, "!!", r.value)
    decreases |s| - j
  {
    if j + 2 > |s| then None
    else if s[j - 1] == '\n' then None
    else if s[j..j + 2] == "!!" then Some(j)
    else GroupClose(s, j + 1)
  }

  /** `content.replace('/', ', ')`. */
  function GroupText(content: string): string
  {
    ReplaceChar(content, '/', ", ")
  }

  /**
   * `expand_groups`: scanning from the left, each `!!X!!` with a non-empty,
   * single-line `X` and the first closing `!!` is replaced by `X` with every
   * `/` turned into `, `; any other character is kept, so a text without
   * `!!` is left as it is.
   */
  function ExpandGroups(s: string): (r: string)
    ensures NoDouble(s, '!') ==> r == s
    decreases |s|
  {
    if s == [] then []
    else
      NoDoubleHead(s, '!');
      if StartsWith(s, "!!") && GroupClose(s, 3).Some? then
        GroupText(s[2..GroupClose(s, 3).value]) + ExpandGroups(s[GroupClose(s, 3).value + 2..])
      else [s[0]] + ExpandGroups(s[1..])
  }

  /** No two neighbouring characters of `s` are both `c`. */
  predicate NoDouble(s: string, c: char)
  {
    forall k :: 0 <= k < |s| - 1 ==> !(s[k] == c && s[k + 1] == c)
  }

  /** Without a doubled `c`, `s` does not start with `cc` and its tail has no doubled `c` either. */
  lemma NoDoubleHead(s: string, c: char)
    requires s != []
    ensures NoDouble(s, c) ==> !StartsWith(s, [c, c]) && NoDouble(s[1..], c)
  {
    if NoDouble(s, c) {
      if |s| >= 2 {
        assert s[..2] != [c, c] by { assert !(s[0] == c && s[1] == c); }
      }
      forall k | 0 <= k < |s[1..]| - 1
        ensures !(s[1..][k] == c && s[1..][k + 1] == c)
      {
        assert s[1..][k] == s[k + 1] && s[1..][k + 1] == s[k + 2];
      }
    }
  }

  /** Text before the first `!` is kept as it is. */
  lemma {:induction false} ExpandPrefix(a: string, b: string)
    requires '!' !in a
    ensures ExpandGroups(a + b) == a + ExpandGroups(b)
    decreases |a|
  {
    if a != [] {
      var s := a + b;
      assert s[0] == a[0];
      assert !StartsWith(s, "!!");
      assert s[1..] == a[1..] + b;
      assert ExpandGroups(s) == [a[0]] + ExpandGroups(a[1..] + b);
      ExpandPrefix(a[1..], b);
      assert a == [a[0]] + a[1..];
    } else {
      assert a + b == b;
    }
  }

  /** The search for the closing `!!` skips the group content and stops right after it. */
  lemma {:induction false} GroupCloseAt(s: string, j: nat, e: nat)
    requires 1 <= j <= e && e + 2 <= |s| && s[e..e + 2] == "!!"
    requires forall k :: j - 1 <= k < e ==> s[k] != '\n' && s[k] != '!'
    ensures GroupClose(s, j) == Some(e)
    decreases e - j
  {
    if j < e {
      assert s[j] != '!';
      GroupCloseAt(s, j + 1, e);
    }
  }

  /** A group `!!x!!` is replaced by its content with `/` turned into `, `. */
  lemma ExpandGroup(x: string, b: string)
    requires x != [] && '!' !in x && '\n' !in x
    ensures ExpandGroups("!!" + x + "!!" + b) == GroupText(x) + ExpandGroups(b)
  {
    var s := "!!" + x + "!!" + b;
    var e := |x| + 2;
    assert s[..2] == "!!";
    assert s[e..e + 2] == "!!";
    assert forall k :: 2 <= k < e ==> s[k] == x[k - 2];
    GroupCloseAt(s, 3, e);
    assert s[2..e] == x;
    assert s[e + 2..] == b;
  }

  /**
   * Expanding the group `addTagToPrompt` writes for a tag with commas gives
   * the tag's comma-separated parts back, joined with `, `.
   */
  lemma ExpandAddedGroup(tag: string, translation: string)
    requires ',' in tag && '/' !in tag && '!' !in tag && '\n' !in tag
    requires AddTag.TrimmedParts(SplitOn(tag, ',')) != []
    ensures ExpandGroups(AddTag.TextToAdd(tag, translation)) == Join(AddTag.TrimmedParts(SplitOn(tag, ',')), ", ")
  {
    var parts := AddTag.TrimmedParts(SplitOn(tag, ','));
    AddTag.TrimmedPartsShape(SplitOn(tag, ','));
    SplitOnAbsent(tag, ',', '/');
    SplitOnAbsent(tag, ',', '!');
    SplitOnAbsent(tag, ',', '\n');
    AddTag.KeepAbsent(SplitOn(tag, ','), '/');
    AddTag.KeepAbsent(SplitOn(tag, ','), '!');
    AddTag.KeepAbsent(SplitOn(tag, ','), '\n');
    var x := Join(parts, "/");
    JoinAbsent(parts, "/", '!');
    JoinAbsent(parts, "/", '\n');
    JoinNotEmpty(parts, "/");
    ExpandGroup(x, "");
    assert "!!" + x + "!!" + "" == AddTag.TextToAdd(tag, translation);
    assert ExpandGroups("") == "";
    ReplaceCharSplit(x, '/', ", ");
    SplitJoin(parts, '/');
  }

  // ---------------------------------------------------------------------
  // `re.sub(r'(\@{2}.*?\@{2})', '', …, flags=re.DOTALL)`

  /**
   * Deletes every `@@…@@` span: scanning from the left, an `@@` followed
   * later by another `@@` starts a span that ends with the first such `@@`,
   * line feeds included; any other character is kept. Nothing is added, and
   * a text without `@@` is left as it is.
   */
  function StripTranslations(s: string): (r: string)
    ensures |r| <= |s|
    ensures NoDouble(s, '@') ==> r == s
    decreases |s|
  {
    if s == [] then []
    else
      NoDoubleHead(s, '@');
      if StartsWith(s, "@@") && IndexFrom(s, "@@", 2).Some? then
        StripTranslations(s[IndexFrom(s, "@@", 2).value + 2..])
      else [s[0]] + StripTranslations(s[1..])
  }

  /** Text before the first `@` is kept as it is. */
  lemma {:induction false} StripPrefix(a: string, b: string)
    requires '@' !in a
    ensures StripTranslations(a + b) == a + StripTranslations(b)
    decreases |a|
  {
    if a != [] {
      var s := a + b;
      assert s[0] == a[0];
      assert !StartsWith(s, "@@");
      assert s[1..] == a[1..] + b;
      assert StripTranslations(s) == [a[0]] + StripTranslations(a[1..] + b);
      StripPrefix(a[1..], b);
      assert a == [a[0]] + a[1..];
    } else {
      assert a + b == b;
    }
  }

  /** A span `@@t@@` is deleted, an empty one `@@@@` included. */
  lemma StripSpan(t: string, b: string)
    requires '@' !in t
    ensures StripTranslations("@@" + t + "@@" + b) == StripTranslations(b)
  {
    var s := "@@" + t + "@@" + b;
    var e := |t| + 2;
    assert s[..2] == "@@";
    assert OccursAt(s, "@@", e) by { assert s[e..e + 2] == "@@"; }
    forall k | 2 <= k < e
      ensures !OccursAt(s, "@@", k)
    {
      assert s[k] == t[k - 2];
    }
    assert IndexFrom(s, "@@", 2) == Some(e);
    assert s[e + 2..] == b;
  }

  /** A written tag followed by more text: its translation is deleted, its text kept. */
  lemma StripWrittenTag(tag: Tag, b: string)
    requires '@' !in tag.text && '@' !in tag.translation
    ensures StripTranslations(JoinTag(tag.text, tag.translation) + b) == tag.text + StripTranslations(b)
  {
    if tag.translation == "" {
      StripPrefix(tag.text, b);
    } else {
      var span := "@@" + tag.translation + "@@";
      assert JoinTag(tag.text, tag.translation) + b == tag.text + (span + b);
      StripPrefix(tag.text, span + b);
      StripSpan(tag.translation, b);
    }
  }

  /** The prompt text of `tags`, each written with its translation. */
  function Written(tags: seq<Tag>): (r: seq<string>)
    ensures |r| == |tags|
    ensures forall k :: 0 <= k < |tags| ==> r[k] == JoinTag(tags[k].text, tags[k].translation)
  {
    if tags == [] then [] else [JoinTag(tags[0].text, tags[0].translation)] + Written(tags[1..])
  }

  /** The texts of `tags`. */
  function Texts(tags: seq<Tag>): (r: seq<string>)
    ensures |r| == |tags|
    ensures forall k :: 0 <= k < |tags| ==> r[k] == tags[k].text
  {
    if tags == [] then [] else [tags[0].text] + Texts(tags[1..])
  }

  /**
   * A prompt of tags written with their translations is handed to the
   * generator as the tags alone, joined as before.
   */
  lemma {:induction false} StripPrompt(tags: seq<Tag>)
    requires forall k :: 0 <= k < |tags| ==> '@' !in tags[k].text && '@' !in tags[k].translation
    ensures StripTranslations(Join(Written(tags), ", ")) == Join(Texts(tags), ", ")
    decreases |tags|
  {
    if |tags| == 1 {
      StripWrittenTag(tags[0], "");
      assert JoinTag(tags[0].text, tags[0].translation) + "" == Join(Written(tags), ", ");
      assert StripTranslations("") == "";
    } else if |tags| > 1 {
      var rest := Join(Written(tags[1..]), ", ");
      assert Written(tags)[1..] == Written(tags[1..]);
      assert Texts(tags)[1..] == Texts(tags[1..]);
      assert Join(Written(tags), ", ") == JoinTag(tags[0].text, tags[0].translation) + (", " + rest);
      StripHead(tags[0], rest);
      StripPrompt(tags[1..]);
      assert Join(Texts(tags), ", ") == tags[0].text + ", " + Join(Texts(tags[1..]), ", ");
    }
  }

  /** The first tag of a prompt keeps only its text, and the `, ` after it is kept. */
  lemma StripHead(tag: Tag, rest: string)
    requires '@' !in tag.text && '@' !in tag.translation
    ensures StripTranslations(JoinTag(tag.text, tag.translation) + (", " + rest)) == tag.text + ", " + StripTranslations(rest)
  {
    StripWrittenTag(tag, ", " + rest);
    StripPrefix(", ", rest);
    AppendAssoc(tag.text, ", ", StripTranslations(rest));
  }

  // ---------------------------------------------------------------------
  // `before_process`

  /** What `before_process` does to each prompt: groups first, then translations; a prompt with neither is kept. */
  function Cleanup(prompt: string): (r: string)
    ensures NoDouble(prompt, '!') && NoDouble(prompt, '@') ==> r == prompt
  {
    StripTranslations(ExpandGroups(prompt))
  }

  /** Expanding `!!a/b!!` followed by more text gives `a, b` followed by the expanded text. */
  lemma ExpandJoined(parts: seq<string>, b: string)
    requires |parts| >= 1 && parts[0] != []
    requires forall k :: 0 <= k < |parts| ==> '/' !in parts[k] && '!' !in parts[k] && '\n' !in parts[k]
    ensures ExpandGroups("!!" + Join(parts, "/") + "!!" + b) == Join(parts, ", ") + ExpandGroups(b)
  {
    var x := Join(parts, "/");
    JoinAbsent(parts, "/", '!');
    JoinAbsent(parts, "/", '\n');
    JoinNotEmpty(parts, "/");
    ExpandGroup(x, b);
    ReplaceCharSplit(x, '/', ", ");
    SplitJoin(parts, '/');
  }

  /**
   * A group written with a translation, `!!a/b!!@@tr@@`, reaches the
   * generator as `a, b`.
   */
  lemma CleanupTranslatedGroup(parts: seq<string>, tr: string)
    requires |parts| >= 1 && parts[0] != []
    requires forall k :: 0 <= k < |parts| ==> '/' !in parts[k] && '!' !in parts[k] && '\n' !in parts[k] && '@' !in parts[k]
    requires '!' !in tr && '@' !in tr
    ensures Cleanup("!!" + Join(parts, "/") + "!!" + ("@@" + tr + "@@")) == Join(parts, ", ")
  {
    var span := "@@" + tr + "@@";
    var y := Join(parts, ", ");
    ExpandJoined(parts, span);
    ExpandPrefix(span, "");
    assert span + "" == span;
    assert ExpandGroups("") == "";
    assert ExpandGroups(span) == span;
    assert ExpandGroups("!!" + Join(parts, "/") + "!!" + span) == y + span;
    JoinAbsent(parts, ", ", '@');
    StripPrefix(y, span);
    StripSpan(tr, "");
    assert StripTranslations("") == "";
    assert StripTranslations(span) == "";
    assert StripTranslations(y + span) == y + "" == y;
  }
}
