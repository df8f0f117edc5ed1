/**
 * `addTagToPrompt`: a tag picked from the search results is appended to the
 * prompt, with its translation, or as a group when it holds commas.
 */
module AddTag {
  import opened Strings
  import opened Translation
  import opened SubParse
  import Tokenizer

  /** Trim every piece and drop the empty ones: `.map(p => p.trim()).filter(p => p)`. */
  function TrimmedParts(pieces: seq<string>): seq<string>
  {
    Tokenizer.Keep(pieces)
  }

  /** A part as `addTagToPrompt` keeps it: not empty, and with nothing left to trim. */
  predicate CleanPart(p: string)
  {
    p != [] && Trimmed(p)
  }

  /** The parts kept are trimmed and not empty. */
  lemma {:induction false} TrimmedPartsShape(pieces: seq<string>)
    ensures forall k :: 0 <= k < |TrimmedParts(pieces)| ==> CleanPart(TrimmedParts(pieces)[k])
    decreases |pieces|
  {
    if pieces != [] {
      var tail := TrimmedParts(pieces[1..]);
      TrimmedPartsShape(pieces[1..]);
      if Trim(pieces[0]) == [] {
        assert TrimmedParts(pieces) == tail;
      } else {
        var t := Trim(pieces[0]);
        TrimIdempotent(pieces[0]);
        assert CleanPart(t);
        assert TrimmedParts(pieces) == [t] + tail;
        forall k | 1 <= k < |tail| + 1
          ensures CleanPart(([t] + tail)[k])
        {
          assert ([t] + tail)[k] == tail[k - 1];
        }
      }
    }
  }

  /**
   * The text `addTagToPrompt` appends for `tag`: a tag with commas becomes a
   * comma-free `!!...!!` group; any other tag is kept at the front, and is
   * the whole text when it has no translation or is a `<...>` reference.
   */
  function TextToAdd(tag: string, translation: string): (r: string)
    ensures ',' in tag ==> |r| >= 4 && r[..2] == "!!" && r[|r| - 2..] == "!!" && ',' !in r
    ensures ',' !in tag ==> tag <= r
    ensures ',' !in tag && (translation == "" || (StartsWith(tag, "<") && EndsWith(tag, ">"))) ==> r == tag
  {
    if ',' in tag then
      var parts := TrimmedParts(SplitOn(tag, ','));
      KeepAbsent(SplitOn(tag, ','), ',');
      JoinAbsent(parts, "/", ',');
      "!!" + Join(parts, "/") + "!!"
    else if translation != "" && !(StartsWith(tag, "<") && EndsWith(tag, ">")) then tag + "@@" + translation + "@@"
    else tag
  }

  /**
   * `addTagToPrompt` when nothing is selected: the old prompt is kept in
   * front, followed by `, ` only when it holds text, and then the appended
   * text.
   */
  function AddTagToPrompt(current: string, tag: string, translation: string): (r: string)
    ensures current <= r
    ensures |r| == |current| + (if Trim(current) != "" then 2 else 0) + |TextToAdd(tag, translation)|
    ensures r[|r| - |TextToAdd(tag, translation)|..] == TextToAdd(tag, translation)
  {
    current + (if Trim(current) != "" then ", " else "") + TextToAdd(tag, translation)
  }

  lemma {:induction false} JoinSnoc(ts: seq<string>, t: string, sep: string)
    requires ts != []
    ensures Join(ts + [t], sep) == Join(ts, sep) + sep + t
    decreases |ts|
  {
    if |ts| == 1 {
      assert ts + [t] == [ts[0], t];
    } else {
      assert (ts + [t])[1..] == ts[1..] + [t];
      JoinSnoc(ts[1..], t, sep);
    }
  }

  /** A string that starts with a visible character does not trim to nothing. */
  lemma TrimNotEmpty(s: string)
    requires s != [] && !IsJsSpace(s[0])
    ensures Trim(s) != ""
  {
    TrimStartVisible(s, IsJsSpace);
    TrimEndDropsOnly(s, IsJsSpace);
  }

  lemma JoinStartsWith(ts: seq<string>, sep: string)
    requires ts != [] && ts[0] != []
    ensures Join(ts, sep) != [] && Join(ts, sep)[0] == ts[0][0]
  {
  }

  /** A tag without commas and without translation is appended as it is, after `, ` when the prompt holds text. */
  lemma AddPlainText(current: string, t: string)
    requires ',' !in t
    ensures AddTagToPrompt(current, t, "") == if Trim(current) != "" then current + ", " + t else current + t
  {
  }

  /** A simple tag holds no comma. */
  lemma SimpleNoComma(t: string)
    requires Tokenizer.Simple(t)
    ensures ',' !in t
  {
    assert forall k :: 0 <= k < |t| ==> !Tokenizer.IsSeparator(t[k]);
  }

  /** Appending one simple tag to a list of simple tags keeps all of them simple. */
  lemma SimpleSnoc(ts: seq<string>, t: string)
    requires forall k :: 0 <= k < |ts| ==> Tokenizer.Simple(ts[k])
    requires Tokenizer.Simple(t)
    ensures forall k :: 0 <= k < |ts + [t]| ==> Tokenizer.Simple((ts + [t])[k])
  {
  }

  /** The prompt of simple tags, written out, is not blank when it has a tag. */
  lemma JoinNotBlank(ts: seq<string>)
    requires ts != [] && forall k :: 0 <= k < |ts| ==> Tokenizer.Simple(ts[k])
    ensures Trim(Join(ts, ", ")) != ""
  {
    assert Tokenizer.Simple(ts[0]);
    JoinStartsWith(ts, ", ");
    TrimNotEmpty(Join(ts, ", "));
  }

  /** Appending a comma-free tag to an empty prompt writes the tag alone. */
  lemma AddedToEmpty(t: string)
    requires ',' !in t
    ensures AddTagToPrompt(Join([], ", "), t, "") == Join([t], ", ")
  {
    assert Join([], ", ") == "" && Join([t], ", ") == t;
    AddPlainText("", t);
    assert Trim("") == "";
  }

  /** Appending a comma-free tag to a prompt of simple tags writes the prompt of one more tag. */
  lemma AddedPrompt(ts: seq<string>, t: string)
    requires forall k :: 0 <= k < |ts| ==> Tokenizer.Simple(ts[k])
    requires ',' !in t
    ensures AddTagToPrompt(Join(ts, ", "), t, "") == Join(ts + [t], ", ")
  {
    if ts == [] {
      AddedToEmpty(t);
      assert ts + [t] == [t];
    } else {
      AddPlainText(Join(ts, ", "), t);
      JoinNotBlank(ts);
      JoinSnoc(ts, t, ", ");
    }
  }

  /**
   * Adding a simple tag without translation to a prompt of simple tags
   * adds exactly one token at the end.
   */
  lemma AddSimpleTag(ts: seq<string>, t: string)
    requires forall k :: 0 <= k < |ts| ==> Tokenizer.Simple(ts[k])
    requires Tokenizer.Simple(t)
    ensures Tokenizer.Tokens(AddTagToPrompt(Join(ts, ", "), t, "")) == ts + [t]
  {
    SimpleNoComma(t);
    AddedPrompt(ts, t);
    SimpleSnoc(ts, t);
    Tokenizer.TokensOfJoin(ts + [t]);
  }

  /** A tag with a translation is appended so that `parseTag` gives both back. */
  lemma AddTranslatedTag(tag: string, tr: string)
    requires Trimmed(tag) && NoLineTerminator(tag) && ',' !in tag && '@' !in tag
    requires !(StartsWith(tag, "<") && EndsWith(tag, ">"))
    requires '@' !in tr
    ensures ParseTag(TextToAdd(tag, tr)) == Tag(tag, tr)
  {
    AnnotatedHasAt(tag);
    ParseJoinTag(tag, tr);
  }

  lemma {:induction false} KeepAbsent(pieces: seq<string>, c: char)
    requires forall k :: 0 <= k < |pieces| ==> c !in pieces[k]
    ensures forall k :: 0 <= k < |Tokenizer.Keep(pieces)| ==> c !in Tokenizer.Keep(pieces)[k]
    decreases |pieces|
  {
    if pieces != [] {
      TrimByParts(pieces[0], IsJsSpace);
      KeepAbsent(pieces[1..], c);
    }
  }

  /**
   * A tag with commas becomes a group whose options are the trimmed,
   * non-empty comma-separated parts, when the tag holds no `/`.
   */
  lemma AddCommaTag(tag: string, tr: string)
    requires ',' in tag && '/' !in tag
    ensures var parts := TrimmedParts(SplitOn(tag, ','));
      GroupOptionsAsWritten(TextToAdd(tag, tr)) == if parts == [] then [""] else parts
  {
    var parts := TrimmedParts(SplitOn(tag, ','));
    SplitOnAbsent(tag, ',', '/');
    KeepAbsent(SplitOn(tag, ','), '/');
    var inner := Join(parts, "/");
    var x := "!!" + inner + "!!";
    assert Substring(x, 2, |x| - 2) == inner by {
      assert x[2..|x| - 2] == inner;
    }
    if parts != [] {
      SplitJoin(parts, '/');
    }
  }
}
