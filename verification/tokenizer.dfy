/**
 * The tokenizer `tokenize`: one left-to-right scan over the prompt that keeps
 * four clamped nesting counters, a group flag toggled by `!!`, and the text
 * of the token being built. A `,` or a line feed ends the token only at the
 * top level; a closed `@@...@@` span is copied whole; a top-level `<` starts
 * a new token and a top-level `>` ends one.
 */
module Tokenizer {
  import opened Strings

  /** The variables of the scan: the four depth counters, `inGroup`, `currentToken` and `tokens`. */
  datatype Scan = Scan(round: nat, curly: nat, square: nat, angle: nat,
                       inGroup: bool, current: string, tokens: seq<string>)

  const Start: Scan := Scan(0, 0, 0, 0, false, "", [])

  /** `Math.max(0, d - 1)`: a closer never takes a counter below zero. */
  function Dec(d: nat): nat
  {
    if d == 0 then 0 else d - 1
  }

  /**
   * The counter updates for one character: `<`/`>` move the angle counter,
   * and the bracket pairs `()`, `{}`, `[]` move their own counter.
   */
  function Track(st: Scan, c: char): (r: Scan)
    ensures r.inGroup == st.inGroup && r.current == st.current && r.tokens == st.tokens
    ensures c != '<' && c != '>' ==> r.angle == st.angle
    ensures c != '(' && c != ')' ==> r.round == st.round
    ensures c != '{' && c != '}' ==> r.curly == st.curly
    ensures c != '[' && c != ']' ==> r.square == st.square
    ensures c == '<' || c == '(' || c == '{' || c == '[' ==> r.angle + r.round + r.curly + r.square == st.angle + st.round + st.curly + st.square + 1
    ensures c == '>' || c == ')' || c == '}' || c == ']' ==> r.angle + r.round + r.curly + r.square <= st.angle + st.round + st.curly + st.square
  {
    var s := if c == '<' then st.(angle := st.angle + 1)
             else if c == '>' then st.(angle := Dec(st.angle))
             else st;
    if c == '(' then s.(round := s.round + 1)
    else if c == ')' then s.(round := Dec(s.round))
    else if c == '{' then s.(curly := s.curly + 1)
    else if c == '}' then s.(curly := Dec(s.curly))
    else if c == '[' then s.(square := s.square + 1)
    else if c == ']' then s.(square := Dec(s.square))
    else s
  }

  predicate IsSeparator(c: char)
  {
    c == ',' || c == '\n'
  }

  /** All four counters are zero and the scan is outside a group. */
  predicate TopLevel(st: Scan)
  {
    st.round == 0 && st.curly == 0 && st.square == 0 && st.angle == 0 && !st.inGroup
  }

  /** `if (currentToken.trim()) tokens.push(currentToken.trim())`. */
  function Flush(tokens: seq<string>, current: string): seq<string>
  {
    if Trim(current) != [] then tokens + [Trim(current)] else tokens
  }

  /** `if (currentToken.trim()) { tokens.push(currentToken.trim()); currentToken = ""; }` */
  function Cut(st: Scan): Scan
  {
    if Trim(st.current) != [] then st.(tokens := st.tokens + [Trim(st.current)], current := "") else st
  }

  /** Where a closed `@@...@@` span starting at `i` ends (just past its closing marker), if it is closed. */
  function SpanEnd(text: string, i: nat): (e: Option<nat>)
    requires i < |text|
    ensures e.Some? ==> i + 4 <= e.value <= |text| && OccursAt(text, "@@", i) && OccursAt(text, "@@", e.value - 2)
  {
    if text[i] == '@' && i + 1 < |text| && text[i + 1] == '@' then
      match IndexFrom(text, "@@", i + 2)
      case Some(close) => Some(close + 2)
      case None => None
    else None
  }

  /**
   * Where an ordinary character `c` goes once the counters `d` are updated:
   * a top-level separator ends the token, a `<` opening the only angle level
   * at the top starts a new one, a `>` leaving angle and round depth at zero
   * outside a group ends one after itself, and anything else is appended.
   */
  function Place(c: char, d: Scan): Scan
  {
    if IsSeparator(c) && TopLevel(d) then
      d.(current := "", tokens := Flush(d.tokens, d.current))
    else if c == '<' && d.round == 0 && d.curly == 0 && d.square == 0 && d.angle == 1 && !d.inGroup then
      var s := Cut(d);
      s.(current := s.current + [c])
    else if c == '>' && d.angle == 0 && d.round == 0 && !d.inGroup then
      Cut(d.(current := d.current + [c]))
    else
      d.(current := d.current + [c])
  }

  /** `!!` at `i`. */
  predicate GroupMarkerAt(text: string, i: nat)
  {
    i + 1 < |text| && text[i] == '!' && text[i + 1] == '!'
  }

  /** One pass of the loop body at index `i`: the next index and the next state. */
  function Step(text: string, i: nat, st: Scan): (r: (nat, Scan))
    requires i < |text|
    ensures i < r.0 <= |text|
  {
    if GroupMarkerAt(text, i) then
      (i + 2, st.(inGroup := !st.inGroup, current := st.current + "!!"))
    else
      var d := Track(st, text[i]);
      match SpanEnd(text, i)
      case Some(e) => (e, d.(current := d.current + text[i..e]))
      case None => (i + 1, Place(text[i], d))
  }

  /** The scan from index `i` to the end, followed by the final flush. */
  function Run(text: string, i: nat, st: Scan): seq<string>
    requires i <= |text|
    decreases |text| - i
  {
    if i == |text| then Flush(st.tokens, st.current)
    else
      var r := Step(text, i, st);
      Run(text, r.0, r.1)
  }

  lemma PlaceSeparator(c: char, d: Scan)
    requires IsSeparator(c) && TopLevel(d)
    ensures Place(c, d) == d.(current := "", tokens := Flush(d.tokens, d.current))
  {
  }

  lemma PlaceOpen(c: char, d: Scan)
    requires c == '<' && d.round == 0 && d.curly == 0 && d.square == 0 && d.angle == 1 && !d.inGroup
    ensures Place(c, d) == Cut(d).(current := Cut(d).current + [c])
  {
  }

  lemma PlaceClose(c: char, d: Scan)
    requires c == '>' && d.angle == 0 && d.round == 0 && !d.inGroup
    ensures Place(c, d) == Cut(d.(current := d.current + [c]))
  {
  }

  lemma PlaceAppend(c: char, d: Scan)
    requires !(IsSeparator(c) && TopLevel(d))
    requires !(c == '<' && d.round == 0 && d.curly == 0 && d.square == 0 && d.angle == 1 && !d.inGroup)
    requires !(c == '>' && d.angle == 0 && d.round == 0 && !d.inGroup)
    ensures Place(c, d) == d.(current := d.current + [c])
  {
  }

  /** Step unfolding at an ordinary character. */
  lemma StepPlace(text: string, i: nat, st: Scan)
    requires i < |text| && !GroupMarkerAt(text, i) && SpanEnd(text, i).None?
    ensures Step(text, i, st) == (i + 1, Place(text[i], Track(st, text[i])))
  {
  }

  /** One step of the scan. */
  lemma RunStep(text: string, i: nat, st: Scan, j: nat, s: Scan)
    requires i < |text| && Step(text, i, st) == (j, s)
    ensures Run(text, i, st) == Run(text, j, s)
  {
  }

  /** `tokenize(text)` as a function: every token is non-empty and trimmed. */
  function Tokens(text: string): (r: seq<string>)
    ensures WellFormed(r)
  {
    RunWellFormed(text, 0, Start);
    Run(text, 0, Start)
  }

  /** Every token is non-empty and trimmed. */
  predicate WellFormed(tokens: seq<string>)
  {
    forall k :: 0 <= k < |tokens| ==> tokens[k] != [] && Trimmed(tokens[k])
  }

  lemma FlushWellFormed(tokens: seq<string>, current: string)
    requires WellFormed(tokens)
    ensures WellFormed(Flush(tokens, current))
  {
    TrimIdempotent(current);
  }

  lemma PlaceWellFormed(c: char, d: Scan)
    requires WellFormed(d.tokens)
    ensures WellFormed(Place(c, d).tokens)
  {
    if IsSeparator(c) && TopLevel(d) {
      FlushWellFormed(d.tokens, d.current);
    } else if c == '<' && d.round == 0 && d.curly == 0 && d.square == 0 && d.angle == 1 && !d.inGroup {
      FlushWellFormed(d.tokens, d.current);
      assert Cut(d).tokens == Flush(d.tokens, d.current);
    } else if c == '>' && d.angle == 0 && d.round == 0 && !d.inGroup {
      FlushWellFormed(d.tokens, d.current + [c]);
      assert Cut(d.(current := d.current + [c])).tokens == Flush(d.tokens, d.current + [c]);
    }
  }

  lemma StepWellFormed(text: string, i: nat, st: Scan)
    requires i < |text| && WellFormed(st.tokens)
    ensures WellFormed(Step(text, i, st).1.tokens)
  {
    if !GroupMarkerAt(text, i) && SpanEnd(text, i).None? {
      PlaceWellFormed(text[i], Track(st, text[i]));
    }
  }

  lemma {:induction false} RunWellFormed(text: string, i: nat, st: Scan)
    requires i <= |text| && WellFormed(st.tokens)
    ensures WellFormed(Run(text, i, st))
    decreases |text| - i
  {
    if i == |text| {
      FlushWellFormed(st.tokens, st.current);
    } else {
      var r := Step(text, i, st);
      StepWellFormed(text, i, st);
      RunWellFormed(text, r.0, r.1);
    }
  }

  /**
   * At a `,` or line feed the token ends exactly when the scan is at the top
   * level; otherwise the separator is kept inside the token.
   */
  lemma SeparatorStep(text: string, i: nat, st: Scan)
    requires i < |text| && IsSeparator(text[i])
    ensures Step(text, i, st) == (i + 1,
      if TopLevel(st) then st.(current := "", tokens := Flush(st.tokens, st.current))
      else st.(current := st.current + [text[i]]))
  {
  }

  /** A closed `@@...@@` span is copied whole into the current token: no counter moves and no token ends inside it. */
  lemma SpanStep(text: string, i: nat, st: Scan, e: nat)
    requires i < |text| && SpanEnd(text, i) == Some(e)
    ensures Step(text, i, st) == (e, st.(current := st.current + text[i..e]))
    ensures text[i..i + 2] == "@@" && text[e - 2..e] == "@@"
    ensures forall k :: i + 2 <= k < e - 2 ==> !OccursAt(text, "@@", k)
  {
  }

  /** An `@@` with no later `@@` is an ordinary character. */
  lemma UnclosedMarkerStep(text: string, i: nat, st: Scan)
    requires i + 1 < |text| && text[i] == '@' && text[i + 1] == '@'
    requires forall k :: i + 2 <= k ==> !OccursAt(text, "@@", k)
    ensures Step(text, i, st) == (i + 1, st.(current := st.current + "@"))
  {
    assert IndexFrom(text, "@@", i + 2).None?;
  }

  /** `!!` flips the group flag and is kept verbatim; nothing else changes. */
  lemma GroupMarkerStep(text: string, i: nat, st: Scan)
    requires i + 1 < |text| && text[i] == '!' && text[i + 1] == '!'
    ensures Step(text, i, st) == (i + 2, st.(inGroup := !st.inGroup, current := st.current + "!!"))
  {
  }

  /**
   * A `<` opening the first angle level with no other bracket open, outside a
   * group, ends the current token (when it holds more than white space) and
   * starts a new one with itself.
   */
  lemma OpenAngleStep(text: string, i: nat, st: Scan)
    requires i < |text| && text[i] == '<'
    requires st.round == 0 && st.curly == 0 && st.square == 0 && st.angle == 0 && !st.inGroup
    ensures var s := Step(text, i, st).1;
      && s.angle == 1
      && s.tokens == Flush(st.tokens, st.current)
      && s.current == (if Trim(st.current) != [] then "<" else st.current + "<")
  {
  }

  /** `>` never trims to nothing. */
  lemma TrimEndsWithVisible(s: string, c: char)
    requires !IsJsSpace(c)
    ensures Trim(s + [c]) != []
  {
    TrimAppend(s, [c], IsJsSpace);
  }

  /**
   * A `>` that leaves angle and round depth at zero outside a group always
   * ends the token right after itself, whatever the curly and square depths.
   */
  lemma CloseAngleStep(text: string, i: nat, st: Scan)
    requires i < |text| && text[i] == '>'
    requires st.angle <= 1 && st.round == 0 && !st.inGroup
    ensures var s := Step(text, i, st).1;
      && s.angle == 0
      && s.current == ""
      && s.tokens == st.tokens + [Trim(st.current + ">")]
  {
    assert !GroupMarkerAt(text, i) && SpanEnd(text, i).None?;
    StepPlace(text, i, st);
    var d := Track(st, '>');
    assert d.angle == 0 && d.round == 0 && !d.inGroup && d.current == st.current && d.tokens == st.tokens;
    PlaceClose('>', d);
    TrimEndsWithVisible(st.current, '>');
  }

  /** No character the scan treats specially except the separators: no bracket, no `!` and no `@`. */
  predicate Unmarked(s: string)
  {
    forall k :: 0 <= k < |s| ==> s[k] !in "(){}[]<>!@"
  }

  predicate NoSeparator(s: string)
  {
    forall k :: 0 <= k < |s| ==> !IsSeparator(s[k])
  }

  /** The pieces between separators, as `s.split(/,|\n/)` gives them: there is always at least one. */
  function Fields(s: string): (r: seq<string>)
    ensures |r| >= 1
  {
    if s == [] then [""]
    else
      var rest := Fields(s[1..]);
      if IsSeparator(s[0]) then [""] + rest else [[s[0]] + rest[0]] + rest[1..]
  }

  /** Trim every piece and drop those left empty. */
  function Keep(pieces: seq<string>): seq<string>
  {
    if pieces == [] then []
    else KeepOne(pieces[0]) + Keep(pieces[1..])
  }

  /** One piece, trimmed, or nothing when it is blank. */
  function KeepOne(piece: string): seq<string>
  {
    if Trim(piece) != [] then [Trim(piece)] else []
  }

  lemma {:induction false} KeepAppend(a: seq<string>, b: seq<string>)
    ensures Keep(a + b) == Keep(a) + Keep(b)
  {
    if a == [] {
      assert a + b == b;
    } else {
      assert (a + b)[0] == a[0] && (a + b)[1..] == a[1..] + b;
      KeepAppend(a[1..], b);
    }
  }

  /** A separator-free prefix joins the first piece of what follows it. */
  lemma {:induction false} FieldsPrefix(p: string, x: string)
    requires NoSeparator(p)
    ensures Fields(p + x) == [p + Fields(x)[0]] + Fields(x)[1..]
  {
    var f := Fields(x);
    if p == [] {
      assert p + x == x;
      assert p + f[0] == f[0];
      assert f == [f[0]] + f[1..];
    } else {
      assert (p + x)[0] == p[0];
      assert (p + x)[1..] == p[1..] + x;
      FieldsPrefix(p[1..], x);
      var rest := Fields(p[1..] + x);
      assert rest[0] == p[1..] + f[0];
      assert rest[1..] == f[1..];
      assert [p[0]] + (p[1..] + f[0]) == p + f[0];
    }
  }

  /** A separator after a separator-free piece closes that piece. */
  lemma FieldsAfter(p: string, c: char, rest: string)
    requires NoSeparator(p) && IsSeparator(c)
    ensures Fields(p + [c] + rest) == [p] + Fields(rest)
  {
    var x := [c] + rest;
    assert p + [c] + rest == p + x;
    assert x[0] == c && x[1..] == rest;
    assert Fields(x) == [""] + Fields(rest);
    FieldsPrefix(p, x);
    assert p + "" == p;
  }

  lemma FieldsSingle(p: string)
    requires NoSeparator(p)
    ensures Fields(p) == [p]
  {
    FieldsPrefix(p, []);
    assert p + [] == p;
  }

  lemma AppendAssoc(a: seq<string>, b: seq<string>, c: seq<string>)
    ensures (a + b) + c == a + (b + c)
  {
  }

  /** Flushing is keeping the one piece `current`. */
  lemma FlushKeep(tokens: seq<string>, current: string)
    ensures Flush(tokens, current) == tokens + Keep([current])
  {
    assert [current][1..] == [];
  }

  /** The final flush of a separator-free token keeps its one piece. */
  lemma FlushSingle(tokens: seq<string>, current: string)
    requires NoSeparator(current)
    ensures Flush(tokens, current) == tokens + Keep(Fields(current))
  {
    FieldsSingle(current);
    FlushKeep(tokens, current);
  }

  /** A separator after a separator-free token flushes exactly its one piece. */
  lemma FlushAtSeparator(tokens: seq<string>, current: string, c: char, rest: string)
    requires NoSeparator(current) && IsSeparator(c)
    ensures Flush(tokens, current) + Keep(Fields(rest)) == tokens + Keep(Fields(current + [c] + rest))
  {
    FieldsAfter(current, c, rest);
    KeepAppend([current], Fields(rest));
    FlushKeep(tokens, current);
    AppendAssoc(tokens, Keep([current]), Keep(Fields(rest)));
  }

  /** At an unmarked character the scan stays at the top level. */
  lemma StepUnmarked(text: string, i: nat, current: string, tokens: seq<string>)
    requires i < |text| && text[i] !in "(){}[]<>!@"
    ensures var st := Scan(0, 0, 0, 0, false, current, tokens);
      Step(text, i, st) == (i + 1,
        if IsSeparator(text[i]) then st.(current := "", tokens := Flush(tokens, current))
        else st.(current := current + [text[i]]))
  {
  }

  /**
   * On unmarked text the scan never leaves the top level, and what remains
   * of it is the pieces of the current token followed by the rest of the text.
   */
  lemma {:induction false} RunUnmarked(text: string, i: nat, current: string, tokens: seq<string>)
    requires i <= |text| && Unmarked(text) && NoSeparator(current)
    ensures Run(text, i, Scan(0, 0, 0, 0, false, current, tokens)) == tokens + Keep(Fields(current + text[i..]))
    decreases |text| - i
  {
    if i == |text| {
      assert current + text[i..] == current;
      FlushSingle(tokens, current);
    } else {
      var c := text[i];
      assert c !in "(){}[]<>!@";
      StepUnmarked(text, i, current, tokens);
      assert current + text[i..] == current + [c] + text[i + 1..];
      if IsSeparator(c) {
        RunUnmarked(text, i + 1, "", Flush(tokens, current));
        assert "" + text[i + 1..] == text[i + 1..];
        FlushAtSeparator(tokens, current, c, text[i + 1..]);
      } else {
        RunUnmarked(text, i + 1, current + [c], tokens);
        assert current + [c] + text[i + 1..] == (current + [c]) + text[i + 1..];
      }
    }
  }

  /**
   * Reference definition: on text with no brackets, `!` or `@`, `tokenize`
   * is splitting on `,` and line feeds, trimming, and dropping empty pieces.
   */
  lemma TokensUnmarked(text: string)
    requires Unmarked(text)
    ensures Tokens(text) == Keep(Fields(text))
  {
    RunUnmarked(text, 0, "", []);
    assert "" + text[0..] == text;
  }

  /** An unmarked token, trimmed and non-empty, with no separator: what the join/split round trip needs. */
  predicate Simple(t: string)
  {
    t != [] && Trimmed(t) && Unmarked(t) && NoSeparator(t)
  }

  lemma {:induction false} JoinUnmarked(ts: seq<string>)
    requires forall k :: 0 <= k < |ts| ==> Unmarked(ts[k])
    ensures Unmarked(Join(ts, ", "))
  {
    if |ts| > 1 {
      JoinUnmarked(ts[1..]);
    }
  }

  /** Leading `pre` of at most one space disappears when trimming `pre + t`. */
  lemma TrimAfterSpace(pre: string, t: string)
    requires pre == "" || pre == " "
    requires t != [] && Trimmed(t)
    ensures Trim(pre + t) == t
  {
    TrimAppend(pre, t, IsJsSpace);
    assert TrimStartBy(pre, IsJsSpace) == [];
  }

  /** The one piece `pre + t` keeps exactly `t`. */
  lemma KeepSpaced(pre: string, t: string)
    requires pre == "" || pre == " "
    requires Simple(t)
    ensures NoSeparator(pre + t) && Keep([pre + t]) == [t]
  {
    TrimAfterSpace(pre, t);
    KeepSingle(pre + t);
    SpacedNoSeparator(pre, t);
  }

  /** A single piece keeps its trimmed text, when that is not blank. */
  lemma KeepSingle(x: string)
    requires Trim(x) != []
    ensures Keep([x]) == [Trim(x)]
  {
    assert [x][0] == x && [x][1..] == [];
    assert Keep([x]) == KeepOne(x) + Keep([]);
  }

  lemma SpacedNoSeparator(pre: string, t: string)
    requires pre == "" || pre == " "
    requires NoSeparator(t)
    ensures NoSeparator(pre + t)
  {
    forall k | 0 <= k < |pre + t|
      ensures !IsSeparator((pre + t)[k])
    {
      if k >= |pre| {
        assert (pre + t)[k] == t[k - |pre|];
      }
    }
  }

  lemma JoinCons(pre: string, ts: seq<string>)
    requires |ts| >= 2
    ensures pre + Join(ts, ", ") == (pre + ts[0]) + [','] + (" " + Join(ts[1..], ", "))
  {
  }

  /** One more token in front of a joined tail. */
  lemma KeepFieldsCons(pre: string, t: string, rest: string, tail: seq<string>)
    requires pre == "" || pre == " "
    requires Simple(t) && Keep(Fields(" " + rest)) == tail
    ensures Keep(Fields((pre + t) + [','] + (" " + rest))) == [t] + tail
  {
    KeepSpaced(pre, t);
    FieldsAfter(pre + t, ',', " " + rest);
    KeepAppend([pre + t], Fields(" " + rest));
  }

  lemma {:induction false} KeepFieldsJoin(pre: string, ts: seq<string>)
    requires pre == "" || pre == " "
    requires |ts| >= 1 && forall k :: 0 <= k < |ts| ==> Simple(ts[k])
    ensures Keep(Fields(pre + Join(ts, ", "))) == ts
    decreases |ts|
  {
    if |ts| == 1 {
      KeepSpaced(pre, ts[0]);
      FieldsSingle(pre + ts[0]);
    } else {
      JoinCons(pre, ts);
      KeepFieldsJoin(" ", ts[1..]);
      KeepFieldsCons(pre, ts[0], Join(ts[1..], ", "), ts[1..]);
      assert ts == [ts[0]] + ts[1..];
    }
  }

  /** Round trip: simple tokens joined with `", "` tokenize back to themselves. */
  lemma TokensOfJoin(ts: seq<string>)
    requires forall k :: 0 <= k < |ts| ==> Simple(ts[k])
    ensures Tokens(Join(ts, ", ")) == ts
  {
    if ts == [] {
      assert Trim("") == [];
    } else {
      JoinUnmarked(ts);
      TokensUnmarked(Join(ts, ", "));
      KeepFieldsJoin("", ts);
      assert "" + Join(ts, ", ") == Join(ts, ", ");
    }
  }

  /** The counter updates at the top of the loop body for the character `c`. */
  method TrackAt(st: Scan, c: char) returns (d: Scan)
    ensures d == Track(st, c)
  {
    var depthRound, depthCurly, depthSquare, depthAngle := st.round, st.curly, st.square, st.angle;
    if c == '<' {
      depthAngle := depthAngle + 1;
    } else if c == '>' {
      depthAngle := if depthAngle == 0 then 0 else depthAngle - 1;
    }
    if c == '(' {
      depthRound := depthRound + 1;
    } else if c == ')' {
      depthRound := if depthRound == 0 then 0 else depthRound - 1;
    } else if c == '{' {
      depthCurly := depthCurly + 1;
    } else if c == '}' {
      depthCurly := if depthCurly == 0 then 0 else depthCurly - 1;
    } else if c == '[' {
      depthSquare := depthSquare + 1;
    } else if c == ']' {
      depthSquare := if depthSquare == 0 then 0 else depthSquare - 1;
    }
    d := Scan(depthRound, depthCurly, depthSquare, depthAngle, st.inGroup, st.current, st.tokens);
  }

  /** The rest of the loop body for an ordinary character `c`, on the updated counters `d`. */
  method PlaceAt(c: char, d: Scan) returns (out: Scan)
    ensures out == Place(c, d)
  {
    var currentToken, tokens := d.current, d.tokens;
    if (c == ',' || c == '\n') && d.round == 0 && d.curly == 0 && d.square == 0 && d.angle == 0 && !d.inGroup {
      if Trim(currentToken) != [] {
        tokens := tokens + [Trim(currentToken)];
      }
      currentToken := "";
      PlaceSeparator(c, d);
    } else if c == '<' && d.round == 0 && d.curly == 0 && d.square == 0 && d.angle == 1 && !d.inGroup {
      if Trim(currentToken) != [] {
        tokens := tokens + [Trim(currentToken)];
        currentToken := "";
      }
      currentToken := currentToken + [c];
      PlaceOpen(c, d);
    } else if c == '>' && d.angle == 0 && d.round == 0 && !d.inGroup {
      currentToken := currentToken + [c];
      if Trim(currentToken) != [] {
        tokens := tokens + [Trim(currentToken)];
        currentToken := "";
      }
      PlaceClose(c, d);
    } else {
      currentToken := currentToken + [c];
      PlaceAppend(c, d);
    }
    out := d.(current := currentToken, tokens := tokens);
  }

  /**
   * The body of the `for` loop of `tokenize` at index `i`, on the loop's
   * variables `st`: returns the index the next pass starts at (after the
   * loop's own `i++`) and the updated variables.
   */
  method ScanAt(text: string, i: nat, st: Scan) returns (next: nat, out: Scan)
    requires i < |text|
    ensures (next, out) == Step(text, i, st)
  {
    var c := text[i];
    if c == '!' && i + 1 < |text| && text[i + 1] == '!' {
      GroupMarkerStep(text, i, st);
      return i + 2, st.(inGroup := !st.inGroup, current := st.current + "!!");
    }
    var d := TrackAt(st, c);
    if c == '@' && i + 1 < |text| && text[i + 1] == '@' {
      var closeIdx := IndexFrom(text, "@@", i + 2);
      if closeIdx.Some? {
        assert SpanEnd(text, i) == Some(closeIdx.value + 2);
        SpanStep(text, i, st, closeIdx.value + 2);
        return closeIdx.value + 2, d.(current := d.current + text[i..closeIdx.value + 2]);
      }
    }
    assert SpanEnd(text, i) == None;
    out := PlaceAt(c, d);
    StepPlace(text, i, st);
    return i + 1, out;
  }

  /** `tokenize`: the scan over every index, then the final flush. */
  method Tokenize(text: string) returns (tokens: seq<string>)
    ensures tokens == Tokens(text)
  {
    var state := Start;
    var i := 0;
    while i < |text|
      invariant i <= |text| && Run(text, i, state) == Tokens(text)
      decreases |text| - i
    {
      ghost var i0, st := i, state;
      i, state := ScanAt(text, i, state);
      RunStep(text, i0, st, i, state);
    }
    tokens := state.tokens;
    if Trim(state.current) != [] {
      tokens := tokens + [Trim(state.current)];
    }
  }
}
