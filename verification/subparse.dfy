/**
 * Sub-parsing of dynamic and group tokens.
 *
 * A dynamic token is split by the expression `/({[^{}]+})/g`, which keeps the
 * matched `{...}` choices between the literal parts; a choice's inside is
 * split on `|` into options. A literal part is split again by
 * `/(@{2}[^@]+@{2})/g` so that an embedded `@@translation@@` becomes a
 * translation segment. A group token `!!...!!` is split on `/`.
 */
module SubParse {
  import opened Strings
  import opened Translation

  predicate IsBrace(c: char)
  {
    c == '{' || c == '}'
  }

  /** The first brace at or after `i`, if any. */
  function NextBrace(s: string, i: nat): (r: Option<nat>)
    requires i <= |s|
    ensures r.Some? ==> i <= r.value < |s| && IsBrace(s[r.value])
    ensures forall k :: i <= k < (if r.Some? then r.value else |s|) ==> !IsBrace(s[k])
    decreases |s| - i
  {
    if i == |s| then None else if IsBrace(s[i]) then Some(i) else NextBrace(s, i + 1)
  }

  /**
   * The index of the `}` that closes a match of `{[^{}]+}` starting at `k`:
   * the first brace after `k` must be a `}`, with at least one character between.
   */
  function ChoiceClose(s: string, k: nat): (r: Option<nat>)
    requires k < |s|
    ensures r.Some? ==> k + 2 <= r.value < |s| && s[k] == '{' && s[r.value] == '}'
    ensures r.Some? ==> forall m :: k < m < r.value ==> !IsBrace(s[m])
  {
    if s[k] != '{' then None
    else
      match NextBrace(s, k + 1)
      case Some(j) => if s[j] == '}' && j >= k + 2 then Some(j) else None
      case None => None
  }

  /** Where a leftmost regular-expression match was found, if one was. */
  datatype Found = NotFound | Found(start: nat, stop: nat)

  /** The leftmost match at or after `p`: where it starts and where its `}` is. */
  function NextChoice(s: string, p: nat): (r: Found)
    requires p <= |s|
    ensures r.Found? ==> p <= r.start < |s| && ChoiceClose(s, r.start) == Some(r.stop)
    ensures forall k :: p <= k < (if r.Found? then r.start else |s|) ==> ChoiceClose(s, k).None?
    decreases |s| - p
  {
    if p == |s| then NotFound
    else
      match ChoiceClose(s, p)
      case Some(j) => Found(p, j)
      case None => NextChoice(s, p + 1)
  }

  /** `s.substring(p).split(/({[^{}]+})/g)`: literal parts with the matched choices between them. */
  function Pieces(s: string, p: nat): (r: seq<string>)
    requires p <= |s|
    decreases |s| - p
  {
    match NextChoice(s, p)
    case NotFound => [s[p..]]
    case Found(k, j) => [s[p..k], s[k..j + 1]] + Pieces(s, j + 1)
  }

  /** `token.split(/({[^{}]+})/g)`. */
  function DynamicParts(token: string): seq<string>
  {
    Pieces(token, 0)
  }

  /** A `{...}` choice: braces at both ends and none inside. */
  predicate IsChoice(x: string)
  {
    |x| >= 3 && x[0] == '{' && x[|x| - 1] == '}' && forall m :: 0 < m < |x| - 1 ==> !IsBrace(x[m])
  }

  lemma OddPlusTwo(n: nat, m: nat)
    requires n % 2 == 1 && m == n + 2
    ensures m % 2 == 1
  {
  }

  /** The split yields an odd number of parts: literals around the matches. */
  lemma {:induction false} PiecesOdd(s: string, p: nat)
    requires p <= |s|
    ensures |Pieces(s, p)| % 2 == 1
    decreases |s| - p
  {
    match NextChoice(s, p)
    case NotFound =>
      PiecesNone(s, p);
    case Found(k, j) =>
      PiecesStep(s, p, k, j);
      PiecesOdd(s, j + 1);
      OddPlusTwo(|Pieces(s, j + 1)|, |Pieces(s, p)|);
  }

  /** One step of the split: the literal before the leftmost match, the match, and the split of the rest. */
  lemma PiecesStep(s: string, p: nat, k: nat, j: nat)
    requires p <= |s| && NextChoice(s, p) == Found(k, j)
    ensures j + 1 <= |s| && Pieces(s, p) == [s[p..k], s[k..j + 1]] + Pieces(s, j + 1)
  {
  }

  lemma PiecesNone(s: string, p: nat)
    requires p <= |s| && NextChoice(s, p).NotFound?
    ensures Pieces(s, p) == [s[p..]]
  {
  }

  lemma {:induction false} PiecesConcat(s: string, p: nat)
    requires p <= |s|
    ensures Concat(Pieces(s, p)) == s[p..]
    decreases |s| - p
  {
    match NextChoice(s, p)
    case NotFound =>
      PiecesNone(s, p);
      ConcatOne(s[p..]);
    case Found(k, j) =>
      PiecesStep(s, p, k, j);
      PiecesConcat(s, j + 1);
      ConcatTwo(s[p..k], s[k..j + 1], Pieces(s, j + 1));
      SliceThree(s, p, k, j + 1);
  }

  /** The split loses nothing: the parts concatenate back to the token. */
  lemma DynamicPartsConcat(token: string)
    ensures Concat(DynamicParts(token)) == token
  {
    PiecesConcat(token, 0);
  }

  /** What `ChoiceClose` finds is a `{...}` choice. */
  lemma ChoiceAt(s: string, k: nat, j: nat)
    requires k < |s| && ChoiceClose(s, k) == Some(j)
    ensures IsChoice(s[k..j + 1])
  {
    var x := s[k..j + 1];
    assert forall m :: 0 < m < |x| - 1 ==> x[m] == s[k + m];
  }

  lemma {:induction false} PiecesShape(s: string, p: nat)
    requires p <= |s|
    ensures forall m :: 0 <= m < |Pieces(s, p)| && m % 2 == 1 ==> IsChoice(Pieces(s, p)[m])
    decreases |s| - p
  {
    match NextChoice(s, p)
    case NotFound =>
    case Found(k, j) =>
      PiecesShape(s, j + 1);
      var x := s[k..j + 1];
      ChoiceAt(s, k, j);
      var r := Pieces(s, p);
      var rest := Pieces(s, j + 1);
      assert r == [s[p..k], x] + rest;
      forall m | 0 <= m < |r| && m % 2 == 1
        ensures IsChoice(r[m])
      {
        if m > 1 {
          assert r[m] == rest[m - 2];
        }
      }
  }

  /** Every second part (the captured ones) is a `{...}` choice. */
  lemma DynamicPartsShape(token: string)
    ensures forall m :: 0 <= m < |DynamicParts(token)| && m % 2 == 1 ==> IsChoice(DynamicParts(token)[m])
  {
    PiecesShape(token, 0);
  }

  /** The test each part gets: `part.startsWith('{') && part.endsWith('}')`. */
  predicate Braced(part: string)
  {
    |part| >= 1 && part[0] == '{' && part[|part| - 1] == '}'
  }

  /** `part.substring(1, part.length - 1).split('|')`. */
  function ChoiceOptions(part: string): (opts: seq<string>)
    ensures forall k :: 0 <= k < |opts| ==> '|' !in opts[k]
  {
    SplitOn(Substring(part, 1, |part| - 1), '|')
  }

  /** A braced part has one option more than it has `|` characters, and the options rejoin to its inside. */
  lemma ChoiceOptionsCount(part: string)
    requires Braced(part) && |part| >= 2
    ensures |ChoiceOptions(part)| == Count(part, '|') + 1
    ensures "{" + Join(ChoiceOptions(part), "|") + "}" == part
  {
    var inner := part[1..|part| - 1];
    assert Substring(part, 1, |part| - 1) == inner;
    SplitOnCount(inner, '|');
    assert part == "{" + inner + "}";
    CountAppend("{", inner, '|');
    CountAppend("{" + inner, "}", '|');
    JoinSplit(inner, '|');
  }

  // ---------------------------------------------------------------------
  // Literal parts: `part.split(/(@{2}[^@]+@{2})/g)`

  /** The first `@` at or after `i`, or the end. */
  function RunEnd(s: string, i: nat): (r: nat)
    requires i <= |s|
    ensures i <= r <= |s| && (r < |s| ==> s[r] == '@')
    ensures forall k :: i <= k < r ==> s[k] != '@'
    decreases |s| - i
  {
    if i == |s| || s[i] == '@' then i else RunEnd(s, i + 1)
  }

  /** Where a match of `@{2}[^@]+@{2}` starting at `q` ends (exclusive), if one starts there. */
  function NoteEnd(s: string, q: nat): (r: Option<nat>)
    requires q <= |s|
    ensures r.Some? ==> q + 5 <= r.value <= |s| && IsNote(s[q..r.value])
  {
    if q + 1 < |s| && s[q] == '@' && s[q + 1] == '@' then
      var e := RunEnd(s, q + 2);
      if e > q + 2 && e + 1 < |s| && s[e + 1] == '@' then
        var x := s[q..e + 2];
        assert forall k :: 2 <= k < |x| - 2 ==> x[k] == s[q + k];
        Some(e + 2)
      else None
    else None
  }

  /** `@@t@@` with `t` non-empty and free of `@`: what `^@{2}([^@]+)@{2}$` matches. */
  predicate IsNote(x: string)
  {
    |x| >= 5 && x[..2] == "@@" && x[|x| - 2..] == "@@" && '@' !in x[2..|x| - 2]
  }

  /** The leftmost match at or after `p`: its start and end. */
  function NextNote(s: string, p: nat): (r: Found)
    requires p <= |s|
    ensures r.Found? ==> p <= r.start <= |s| && NoteEnd(s, r.start) == Some(r.stop)
    decreases |s| - p
  {
    if p == |s| then NotFound
    else
      match NoteEnd(s, p)
      case Some(e) => Found(p, e)
      case None => NextNote(s, p + 1)
  }

  /** `s.substring(p).split(/(@{2}[^@]+@{2})/g)`. */
  function NotePieces(s: string, p: nat): seq<string>
    requires p <= |s|
    decreases |s| - p
  {
    match NextNote(s, p)
    case NotFound => [s[p..]]
    case Found(k, e) => [s[p..k], s[k..e]] + NotePieces(s, e)
  }

  lemma NotePiecesNone(s: string, p: nat)
    requires p <= |s| && NextNote(s, p).NotFound?
    ensures NotePieces(s, p) == [s[p..]]
  {
  }

  lemma NotePiecesStep(s: string, p: nat, k: nat, e: nat)
    requires p <= |s| && NextNote(s, p) == Found(k, e)
    ensures k <= e <= |s| && NotePieces(s, p) == [s[p..k], s[k..e]] + NotePieces(s, e)
  {
  }

  lemma {:induction false} NotePiecesConcat(s: string, p: nat)
    requires p <= |s|
    ensures Concat(NotePieces(s, p)) == s[p..]
    decreases |s| - p
  {
    match NextNote(s, p)
    case NotFound =>
      NotePiecesNone(s, p);
      ConcatOne(s[p..]);
    case Found(k, e) =>
      NotePiecesStep(s, p, k, e);
      NotePiecesConcat(s, e);
      ConcatTwo(s[p..k], s[k..e], NotePieces(s, e));
      SliceThree(s, p, k, e);
  }

  /** A piece of a literal part: plain text, or the translation of an `@@...@@` span. */
  datatype Segment = Text(text: string) | Note(translation: string)

  /** The segments the bubble shows: empty pieces dropped, `@@t@@` pieces shown as translation `t`. */
  function Segments(pieces: seq<string>): seq<Segment>
  {
    if pieces == [] then []
    else
      var pt := pieces[0];
      (if pt == "" then [] else if IsNote(pt) then [Note(pt[2..|pt| - 2])] else [Text(pt)])
      + Segments(pieces[1..])
  }

  /** The text the serializer writes for the segments: text as is, a translation as `@@t@@`. */
  function RenderSegments(segs: seq<Segment>): string
  {
    if segs == [] then ""
    else
      (match segs[0] case Text(t) => t case Note(t) => "@@" + t + "@@")
      + RenderSegments(segs[1..])
  }

  /** `part.split(/(@{2}[^@]+@{2})/g)` turned into segments. */
  function LiteralSegments(part: string): seq<Segment>
  {
    Segments(NotePieces(part, 0))
  }

  lemma {:induction false} RenderSegmentsAppend(a: seq<Segment>, b: seq<Segment>)
    ensures RenderSegments(a + b) == RenderSegments(a) + RenderSegments(b)
    decreases |a|
  {
    if a == [] {
      assert a + b == b;
    } else {
      assert (a + b)[0] == a[0];
      assert (a + b)[1..] == a[1..] + b;
      RenderSegmentsAppend(a[1..], b);
    }
  }

  lemma {:induction false} RenderSegmentsOf(pieces: seq<string>)
    ensures RenderSegments(Segments(pieces)) == Concat(pieces)
    decreases |pieces|
  {
    if pieces != [] {
      var pt := pieces[0];
      var head: seq<Segment> := if pt == "" then [] else if IsNote(pt) then [Note(pt[2..|pt| - 2])] else [Text(pt)];
      RenderSegmentsOf(pieces[1..]);
      RenderSegmentsAppend(head, Segments(pieces[1..]));
      if IsNote(pt) {
        assert pt == pt[..2] + pt[2..|pt| - 2] + pt[|pt| - 2..];
      }
      assert RenderSegments(head) == pt;
    }
  }

  /** A literal part is shown as segments that render back to exactly the part. */
  lemma LiteralSegmentsRender(part: string)
    ensures RenderSegments(LiteralSegments(part)) == part
  {
    RenderSegmentsOf(NotePieces(part, 0));
    NotePiecesConcat(part, 0);
  }

  // ---------------------------------------------------------------------
  // Groups: `!!a/b/c!!`

  /** `token.substring(2, token.length - 2).split('/')` on the raw token, as the bubble builder does. */
  function GroupOptionsAsWritten(token: string): seq<string>
  {
    SplitOn(Substring(token, 2, |token| - 2), '/')
  }

  /** The options of a group, read from the token with its trailing translation removed. */
  function GroupOptions(token: string): (opts: seq<string>)
    ensures forall k :: 0 <= k < |opts| ==> '/' !in opts[k]
  {
    GroupOptionsAsWritten(ParseTag(token).text)
  }

  /** The options rejoined with `/` are the inside of the base between the `!!` markers. */
  lemma GroupOptionsJoin(token: string)
    requires |ParseTag(token).text| >= 4
    ensures var base := ParseTag(token).text;
      Join(GroupOptions(token), "/") == base[2..|base| - 2]
  {
    var base := ParseTag(token).text;
    var inside := base[2..|base| - 2];
    assert Substring(base, 2, |base| - 2) == inside;
    assert GroupOptions(token) == SplitOn(inside, '/');
    JoinSplit(inside, '/');
  }

  /** A trailing translation does not change the options. */
  lemma GroupOptionsIgnoreTranslation(b: string, t: string)
    requires t != [] && '@' !in t && NoLineTerminator(b) && Trimmed(b) && SplitTranslation(b).None?
    ensures GroupOptions(b + "@@" + t + "@@") == GroupOptions(b)
  {
    ParseTagAnnotated(b, t);
    TrimByOfTrimmed(b, IsJsSpace);
  }

  /** Two `c`-free pieces around one `c` split back into the two pieces. */
  lemma SplitOnPair(a: string, c: char, b: string)
    requires c !in a && c !in b
    ensures SplitOn(a + [c] + b, c) == [a, b]
  {
    SplitJoin([a, b], c);
    assert Join([a, b], [c]) == a + [c] + b;
  }

  /** On the raw token the translation leaks into the last option: `!!a/b!!@@x@@` gives `a` and `b!!@@x`. */
  lemma GroupOptionsAsWrittenLeak()
    ensures GroupOptionsAsWritten("!!a/b!!@@x@@") == ["a", "b!!@@x"]
  {
    var token := "!!a/b!!@@x@@";
    assert Substring(token, 2, |token| - 2) == "a" + ['/'] + "b!!@@x";
    SplitOnPair("a", '/', "b!!@@x");
  }

  lemma GroupBaseExample()
    ensures NoLineTerminator("!!a/b!!") && Trim("!!a/b!!") == "!!a/b!!"
  {
    var base := "!!a/b!!";
    assert Trimmed(base);
    TrimByOfTrimmed(base, IsJsSpace);
  }

  lemma GroupTokenExample()
    ensures "!!a/b!!" + "@@" + "x" + "@@" == "!!a/b!!@@x@@"
  {
  }

  lemma ParseGroupExample()
    ensures ParseTag("!!a/b!!@@x@@") == Tag("!!a/b!!", "x")
  {
    GroupBaseExample();
    ParseTagAnnotated("!!a/b!!", "x");
    GroupTokenExample();
  }

  /** Read from the base, the same group has the options `a` and `b`. */
  lemma GroupOptionsNoLeak()
    ensures GroupOptions("!!a/b!!@@x@@") == ["a", "b"]
  {
    ParseGroupExample();
    var base := "!!a/b!!";
    assert Substring(base, 2, |base| - 2) == "a" + ['/'] + "b";
    SplitOnPair("a", '/', "b");
  }
}
