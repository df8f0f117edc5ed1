/**
 * String primitives shared by the prompt engine (JavaScript side) and the
 * prompt cleanup and tag index (Python side): white space as each runtime
 * defines it, trimming, searching, splitting on one character and joining.
 */
module Strings {

  datatype Option<T> = None | Some(value: T)

  /** JavaScript `WhiteSpace` and `LineTerminator` code points, the set `String.prototype.trim` removes. */
  predicate IsJsSpace(c: char)
  {
    c == '\t' || c == '\n' || c == '\U{000B}' || c == '\U{000C}' || c == '\r' || c == ' '
    || c == '\U{00A0}' || c == '\U{1680}' || ('\U{2000}' <= c <= '\U{200A}')
    || c == '\U{2028}' || c == '\U{2029}' || c == '\U{202F}' || c == '\U{205F}'
    || c == '\U{3000}' || c == '\U{FEFF}'
  }

  /** The characters `.` in a JavaScript regular expression does not match. */
  predicate IsLineTerminator(c: char)
  {
    c == '\n' || c == '\r' || c == '\U{2028}' || c == '\U{2029}'
  }

  /** The characters Python's `str.strip()` removes (`str.isspace()`). */
  predicate IsPySpace(c: char)
  {
    c == '\t' || c == '\n' || c == '\U{000B}' || c == '\U{000C}' || c == '\r'
    || ('\U{001C}' <= c <= '\U{001F}') || c == ' ' || c == '\U{0085}' || c == '\U{00A0}'
    || c == '\U{1680}' || ('\U{2000}' <= c <= '\U{200A}') || c == '\U{2028}' || c == '\U{2029}'
    || c == '\U{202F}' || c == '\U{205F}' || c == '\U{3000}'
  }

  predicate NoLineTerminator(s: string)
  {
    forall k :: 0 <= k < |s| ==> !IsLineTerminator(s[k])
  }

  /** Drops the leading characters satisfying `ws`. */
  function TrimStartBy(s: string, ws: char -> bool): (r: string)
    ensures |r| <= |s| && r == s[|s| - |r|..]
    ensures r != [] ==> !ws(r[0])
  {
    if s != [] && ws(s[0]) then TrimStartBy(s[1..], ws) else s
  }

  /** Drops the trailing characters satisfying `ws`. */
  function TrimEndBy(s: string, ws: char -> bool): (r: string)
    ensures |r| <= |s| && r == s[..|r|]
    ensures r != [] ==> !ws(r[|r| - 1])
  {
    if s != [] && ws(s[|s| - 1]) then TrimEndBy(s[..|s| - 1], ws) else s
  }

  /** Only characters satisfying `ws` are dropped at the front. */
  lemma {:induction false} TrimStartDropsOnly(s: string, ws: char -> bool)
    ensures forall k :: 0 <= k < |s| - |TrimStartBy(s, ws)| ==> ws(s[k])
  {
    if s != [] && ws(s[0]) {
      TrimStartDropsOnly(s[1..], ws);
      assert forall k :: 1 <= k < |s| ==> s[k] == s[1..][k - 1];
    }
  }

  /** Only characters satisfying `ws` are dropped at the back. */
  lemma {:induction false} TrimEndDropsOnly(s: string, ws: char -> bool)
    ensures forall k :: |TrimEndBy(s, ws)| <= k < |s| ==> ws(s[k])
  {
    if s != [] && ws(s[|s| - 1]) {
      TrimEndDropsOnly(s[..|s| - 1], ws);
    }
  }

  function TrimBy(s: string, ws: char -> bool): string
  {
    TrimEndBy(TrimStartBy(s, ws), ws)
  }

  /** Neither end of `s` satisfies `ws`. */
  predicate TrimmedBy(s: string, ws: char -> bool)
  {
    s == [] || (!ws(s[0]) && !ws(s[|s| - 1]))
  }

  /** How many leading characters `TrimBy` removes. */
  function LeadCount(s: string, ws: char -> bool): nat
  {
    |s| - |TrimStartBy(s, ws)|
  }

  /** `TrimBy(s, ws)` is the slice of `s` after its leading white space; its ends are not white space. */
  lemma TrimByParts(s: string, ws: char -> bool)
    ensures LeadCount(s, ws) + |TrimBy(s, ws)| <= |s|
    ensures TrimBy(s, ws) == s[LeadCount(s, ws)..LeadCount(s, ws) + |TrimBy(s, ws)|]
    ensures TrimmedBy(TrimBy(s, ws), ws)
  {
    var u := TrimStartBy(s, ws);
    var a := |s| - |u|;
    var r := TrimEndBy(u, ws);
    assert u == s[a..];
    assert r == u[..|r|];
    assert r == s[a..a + |r|];
  }

  /** Every character of `w` is JavaScript white space. */
  predicate AllJsSpace(w: string)
  {
    forall k :: 0 <= k < |w| ==> IsJsSpace(w[k])
  }

  /** `TrimEndBy(u, ws)` followed by the characters it dropped is `u`, and all of those satisfy `ws`. */
  lemma TrimEndTail(u: string, ws: char -> bool)
    ensures var n := |TrimEndBy(u, ws)|;
      n <= |u| && u == TrimEndBy(u, ws) + u[n..] && forall k :: 0 <= k < |u[n..]| ==> ws(u[n..][k])
  {
    var n := |TrimEndBy(u, ws)|;
    assert u == u[..n] + u[n..];
    TrimEndDropsOnly(u, ws);
    forall k | 0 <= k < |u[n..]| ensures ws(u[n..][k]) {
      assert u[n..][k] == u[n + k];
    }
  }

  /** After the leading white space is gone, only white space follows `Trim(b)`. */
  lemma TrimStartTail(b: string)
    ensures var u := TrimStartBy(b, IsJsSpace);
      |Trim(b)| <= |u| && u == Trim(b) + u[|Trim(b)|..] && AllJsSpace(u[|Trim(b)|..])
  {
    TrimEndTail(TrimStartBy(b, IsJsSpace), IsJsSpace);
  }

  /** A string that starts with a visible character keeps its front. */
  lemma TrimStartVisible(s: string, ws: char -> bool)
    requires s != [] && !ws(s[0])
    ensures TrimStartBy(s, ws) == s
  {
  }

  /** Trimming the front of `b + x`, where `x` starts with a visible character, only trims `b`. */
  lemma {:induction false} TrimStartAppend(b: string, x: string, ws: char -> bool)
    requires x != [] && !ws(x[0])
    ensures TrimStartBy(b + x, ws) == TrimStartBy(b, ws) + x
    decreases |b|
  {
    if b != [] {
      assert (b + x)[0] == b[0];
      assert (b + x)[1..] == b[1..] + x;
      TrimStartAppend(b[1..], x, ws);
    } else {
      assert b + x == x;
    }
  }

  /** When `x` starts and ends with a visible character, trimming `b + x` only trims the front of `b`. */
  lemma TrimAppend(b: string, x: string, ws: char -> bool)
    requires x != [] && !ws(x[0]) && !ws(x[|x| - 1])
    ensures TrimBy(b + x, ws) == TrimStartBy(b, ws) + x
  {
    TrimStartAppend(b, x, ws);
    var v := TrimStartBy(b, ws) + x;
    assert v[|v| - 1] == x[|x| - 1];
  }

  lemma TrimByOfTrimmed(s: string, ws: char -> bool)
    requires TrimmedBy(s, ws)
    ensures TrimBy(s, ws) == s
  {
  }

  /** JavaScript `s.trim()`. */
  function Trim(s: string): string
  {
    TrimBy(s, IsJsSpace)
  }

  /** Python `s.strip()`. */
  function Strip(s: string): string
  {
    TrimBy(s, IsPySpace)
  }

  predicate Trimmed(s: string)
  {
    TrimmedBy(s, IsJsSpace)
  }

  /** `Trim` is idempotent and yields a trimmed string. */
  lemma TrimIdempotent(s: string)
    ensures Trimmed(Trim(s)) && Trim(Trim(s)) == Trim(s)
  {
    TrimByParts(s, IsJsSpace);
    TrimByOfTrimmed(Trim(s), IsJsSpace);
  }

  predicate StartsWith(s: string, p: string)
  {
    |p| <= |s| && s[..|p|] == p
  }

  predicate EndsWith(s: string, p: string)
  {
    |p| <= |s| && s[|s| - |p|..] == p
  }

  /** `pat` occurs in `s` at index `k`. */
  predicate OccursAt(s: string, pat: string, k: int)
  {
    0 <= k && k + |pat| <= |s| && s[k..k + |pat|] == pat
  }

  /** JavaScript `s.indexOf(pat, from)` for a non-empty `pat`: the first occurrence at or after `from`. */
  function IndexFrom(s: string, pat: string, from: nat): (r: Option<nat>)
    requires pat != []
    ensures r.Some? ==> from <= r.value && OccursAt(s, pat, r.value)
    ensures r.Some? ==> forall k :: from <= k < r.value ==> !OccursAt(s, pat, k)
    ensures r.None? ==> forall k :: from <= k ==> !OccursAt(s, pat, k)
    decreases |s| - from
  {
    if from + |pat| > |s| then None
    else if s[from..from + |pat|] == pat then Some(from)
    else IndexFrom(s, pat, from + 1)
  }

  /** JavaScript `s.lastIndexOf(c)`. */
  function LastIndexOf(s: string, c: char): (r: Option<nat>)
    ensures r.Some? <==> c in s
    ensures r.Some? ==> r.value < |s| && s[r.value] == c
    ensures r.Some? ==> forall k :: r.value < k < |s| ==> s[k] != c
  {
    if s == [] then None
    else if s[|s| - 1] == c then Some(|s| - 1)
    else
      assert c in s ==> c in s[..|s| - 1] by {
        if c in s {
          var k :| 0 <= k < |s| && s[k] == c;
          assert s[..|s| - 1][k] == c;
        }
      }
      LastIndexOf(s[..|s| - 1], c)
  }

  /** The last `c` splits `s` into the text before it, `c`, and a tail without `c`. */
  lemma LastIndexOfSplit(s: string, c: char)
    requires LastIndexOf(s, c).Some?
    ensures var i := LastIndexOf(s, c).value;
      s == s[..i] + [c] + s[i + 1..] && c !in s[i + 1..]
  {
    var i := LastIndexOf(s, c).value;
    var tail := s[i + 1..];
    forall k | 0 <= k < |tail| ensures tail[k] != c {
      assert tail[k] == s[i + 1 + k];
    }
    assert s == s[..i] + [c] + tail;
  }

  /** Appending text without `c` does not move the last `c`. */
  lemma {:induction false} LastIndexOfAppend(u: string, y: string, c: char)
    requires c !in y
    ensures LastIndexOf(u + y, c) == LastIndexOf(u, c)
    decreases |y|
  {
    if y == [] {
      assert u + y == u;
    } else {
      assert (u + y)[..|u + y| - 1] == u + y[..|y| - 1];
      LastIndexOfAppend(u, y[..|y| - 1], c);
    }
  }

  /** Appending text does not move the first `c` of a string that has one. */
  lemma {:induction false} IndexOfCharAppend(u: string, y: string, c: char)
    requires c in u
    ensures c in u + y && IndexOfChar(u + y, c) == IndexOfChar(u, c)
  {
    if u[0] != c {
      assert (u + y)[1..] == u[1..] + y;
      IndexOfCharAppend(u[1..], y, c);
    }
  }

  /** Concatenates `parts`, putting `sep` between neighbours (JavaScript `join`). */
  function Join(parts: seq<string>, sep: string): string
  {
    if |parts| == 0 then ""
    else if |parts| == 1 then parts[0]
    else parts[0] + sep + Join(parts[1..], sep)
  }

  /** JavaScript `s.split(c)` for a one-character separator: there is always at least one piece. */
  function SplitOn(s: string, c: char): (parts: seq<string>)
    ensures |parts| >= 1
    ensures forall k :: 0 <= k < |parts| ==> c !in parts[k]
  {
    if c !in s then [s]
    else
      var i := IndexOfChar(s, c);
      [s[..i]] + SplitOn(s[i + 1..], c)
  }

  function IndexOfChar(s: string, c: char): (i: nat)
    requires c in s
    ensures i < |s| && s[i] == c && c !in s[..i]
  {
    if s[0] == c then 0 else 1 + IndexOfChar(s[1..], c)
  }

  /** Splitting on `c` and joining with `c` gives back the string. */
  lemma {:induction false} JoinSplit(s: string, c: char)
    ensures Join(SplitOn(s, c), [c]) == s
    decreases |s|
  {
    if c in s {
      var i := IndexOfChar(s, c);
      var rest := SplitOn(s[i + 1..], c);
      JoinSplit(s[i + 1..], c);
      var parts := [s[..i]] + rest;
      assert SplitOn(s, c) == parts;
      assert parts[1..] == rest;
      assert Join(parts, [c]) == s[..i] + [c] + Join(rest, [c]);
      assert s == s[..i] + [c] + s[i + 1..];
    }
  }

  /** Joining pieces free of `c` with `c` and splitting on `c` gives back the pieces. */
  lemma {:induction false} SplitJoin(parts: seq<string>, c: char)
    requires |parts| >= 1
    requires forall k :: 0 <= k < |parts| ==> c !in parts[k]
    ensures SplitOn(Join(parts, [c]), c) == parts
  {
    if |parts| > 1 {
      var s := Join(parts, [c]);
      var rest := Join(parts[1..], [c]);
      assert s == parts[0] + [c] + rest;
      IndexOfCharAfter(parts[0], c, rest);
      assert s[..|parts[0]|] == parts[0];
      assert s[|parts[0]| + 1..] == rest;
      SplitJoin(parts[1..], c);
    }
  }

  lemma {:induction false} IndexOfCharAfter(a: string, c: char, b: string)
    requires c !in a
    ensures c in a + [c] + b && IndexOfChar(a + [c] + b, c) == |a|
  {
    if a != [] {
      assert (a + [c] + b)[1..] == a[1..] + [c] + b;
      IndexOfCharAfter(a[1..], c, b);
    }
  }

  /** The number of occurrences of `c` in `s`. */
  function Count(s: string, c: char): nat
  {
    if s == [] then 0 else (if s[0] == c then 1 else 0) + Count(s[1..], c)
  }

  lemma {:induction false} CountAppend(a: string, b: string, c: char)
    ensures Count(a + b, c) == Count(a, c) + Count(b, c)
    decreases |a|
  {
    if a == [] {
      assert a + b == b;
    } else {
      assert (a + b)[1..] == a[1..] + b;
      CountAppend(a[1..], b, c);
    }
  }

  lemma {:induction false} CountAbsent(s: string, c: char)
    requires c !in s
    ensures Count(s, c) == 0
    decreases |s|
  {
    if s != [] {
      CountAbsent(s[1..], c);
    }
  }

  /** `s.split(c)` has one more piece than `s` has occurrences of `c`. */
  lemma {:induction false} SplitOnCount(s: string, c: char)
    ensures |SplitOn(s, c)| == Count(s, c) + 1
    decreases |s|
  {
    if c !in s {
      CountAbsent(s, c);
    } else {
      var i := IndexOfChar(s, c);
      assert s == s[..i] + ([c] + s[i + 1..]);
      CountAppend(s[..i], [c] + s[i + 1..], c);
      CountAppend([c], s[i + 1..], c);
      CountAbsent(s[..i], c);
      SplitOnCount(s[i + 1..], c);
    }
  }

  /** Concatenation of all parts: `parts.join("")`. */
  function Concat(parts: seq<string>): string
  {
    if parts == [] then "" else parts[0] + Concat(parts[1..])
  }

  lemma {:induction false} ConcatAppend(a: seq<string>, b: seq<string>)
    ensures Concat(a + b) == Concat(a) + Concat(b)
    decreases |a|
  {
    if a == [] {
      assert a + b == b;
    } else {
      assert (a + b)[0] == a[0];
      assert (a + b)[1..] == a[1..] + b;
      ConcatAppend(a[1..], b);
    }
  }

  /** A character absent from a concatenation is absent from every part of it. */
  lemma {:induction false} AbsentFromParts(parts: seq<string>, c: char)
    requires c !in Concat(parts)
    ensures forall k :: 0 <= k < |parts| ==> c !in parts[k]
    decreases |parts|
  {
    if parts != [] {
      AbsentFromParts(parts[1..], c);
      forall k | 1 <= k < |parts| ensures c !in parts[k] {
        assert parts[k] == parts[1..][k - 1];
      }
    }
  }

  /** Splitting a string free of `d` gives pieces free of `d`. */
  lemma {:induction false} SplitOnAbsent(s: string, c: char, d: char)
    requires d !in s
    ensures forall k :: 0 <= k < |SplitOn(s, c)| ==> d !in SplitOn(s, c)[k]
    decreases |s|
  {
    if c in s {
      var i := IndexOfChar(s, c);
      assert d !in s[i + 1..];
      SplitOnAbsent(s[i + 1..], c, d);
    }
  }

  /** A character found in no piece and not in the separator is not in the joined text. */
  lemma {:induction false} JoinAbsent(parts: seq<string>, sep: string, c: char)
    requires c !in sep
    requires forall k :: 0 <= k < |parts| ==> c !in parts[k]
    ensures c !in Join(parts, sep)
    decreases |parts|
  {
    if |parts| > 1 {
      JoinAbsent(parts[1..], sep, c);
    }
  }

  /** Joining non-empty pieces gives a non-empty text. */
  lemma JoinNotEmpty(parts: seq<string>, sep: string)
    requires |parts| >= 1 && parts[0] != []
    ensures Join(parts, sep) != []
  {
  }

  /** Putting two non-line-terminator characters around a one-line text keeps it on one line. */
  lemma WrapOneLine(s: string, open: char, close: char)
    requires NoLineTerminator(s) && !IsLineTerminator(open) && !IsLineTerminator(close)
    ensures NoLineTerminator([open] + s + [close])
  {
    var w := [open] + s + [close];
    forall k | 0 <= k < |w|
      ensures !IsLineTerminator(w[k])
    {
      if 0 < k < |w| - 1 {
        assert w[k] == s[k - 1];
      }
    }
  }

  /** A non-empty sequence is its front followed by its last element. */
  lemma SplitLast<T>(s: seq<T>)
    requires s != []
    ensures s == s[..|s| - 1] + [s[|s| - 1]]
  {
  }

  lemma ConcatOne(a: string)
    ensures Concat([a]) == a
  {
    assert [a][1..] == [];
  }

  /** The first two parts of a concatenation, then the rest. */
  lemma ConcatTwo(a: string, b: string, rest: seq<string>)
    ensures Concat([a, b] + rest) == a + b + Concat(rest)
  {
    var r := [a, b] + rest;
    assert r[1..][1..] == rest;
  }

  /** A suffix cut at two further points. */
  lemma SliceThree(s: string, p: nat, k: nat, j: nat)
    requires p <= k <= j <= |s|
    ensures s[p..] == s[p..k] + s[k..j] + s[j..]
  {
  }

  /** A text is its part before index `i`, the character at `i` and its part after. */
  lemma SplitAround(s: string, i: nat)
    requires i < |s|
    ensures s == s[..i] + [s[i]] + s[i + 1..]
  {
  }

  /** Regrouping a text between an opening and a closing piece. */
  lemma AppendAssoc(a: string, b: string, c: string)
    ensures a + (b + c) == a + b + c
  {
  }

  lemma Regroup(open: string, x: string, y: string, z: string, close: string)
    ensures open + (x + y + z) + close == open + x + y + z + close
  {
  }

  /** A JavaScript index argument of `substring`: clamped to `[0, n]`. */
  function Clamp(k: int, n: nat): nat
  {
    if k < 0 then 0 else if k > n then n else k
  }

  /** JavaScript `s.substring(start, end)`: both ends clamped, and swapped when `start > end`. */
  function Substring(s: string, start: int, end: int): (r: string)
    ensures |r| <= |s|
  {
    var a, b := Clamp(start, |s|), Clamp(end, |s|);
    if a <= b then s[a..b] else s[b..a]
  }

  /** Python `s.replace(c, rep)` for a one-character pattern. */
  function ReplaceChar(s: string, c: char, rep: string): (r: string)
    ensures c !in rep ==> c !in r
    ensures c !in s ==> r == s
  {
    if s == [] then []
    else (if s[0] == c then rep else [s[0]]) + ReplaceChar(s[1..], c, rep)
  }

  lemma {:induction false} ReplaceCharSplit(s: string, c: char, rep: string)
    ensures ReplaceChar(s, c, rep) == Join(SplitOn(s, c), rep)
    decreases |s|
  {
    if c in s {
      var i := IndexOfChar(s, c);
      var tail := SplitOn(s[i + 1..], c);
      ReplaceCharAround(s, i, c, rep);
      ReplaceCharSplit(s[i + 1..], c, rep);
      assert SplitOn(s, c) == [s[..i]] + tail;
      JoinCons(s[..i], tail, rep);
    } else {
      assert SplitOn(s, c) == [s];
    }
  }

  /** Replacing in a string whose first `c` is at `i`. */
  lemma ReplaceCharAround(s: string, i: nat, c: char, rep: string)
    requires i < |s| && s[i] == c && c !in s[..i]
    ensures ReplaceChar(s, c, rep) == s[..i] + rep + ReplaceChar(s[i + 1..], c, rep)
  {
    var pre, rest := s[..i], s[i + 1..];
    assert s == pre + ([c] + rest);
    ReplaceCharAppend(pre, [c] + rest, c, rep);
    ReplaceCharAppend([c], rest, c, rep);
    assert ReplaceChar([c], c, rep) == rep;
  }

  lemma JoinCons(head: string, tail: seq<string>, sep: string)
    requires |tail| >= 1
    ensures Join([head] + tail, sep) == head + sep + Join(tail, sep)
  {
    assert ([head] + tail)[1..] == tail;
  }

  lemma {:induction false} ReplaceCharAppend(a: string, b: string, c: char, rep: string)
    ensures ReplaceChar(a + b, c, rep) == ReplaceChar(a, c, rep) + ReplaceChar(b, c, rep)
    decreases |a|
  {
    if a != [] {
      var head := if a[0] == c then rep else [a[0]];
      assert (a + b)[0] == a[0] && (a + b)[1..] == a[1..] + b;
      assert ReplaceChar(a + b, c, rep) == head + ReplaceChar(a[1..] + b, c, rep);
      ReplaceCharAppend(a[1..], b, c, rep);
      assert ReplaceChar(a, c, rep) == head + ReplaceChar(a[1..], c, rep);
    } else {
      assert a + b == b;
    }
  }

  /** ASCII lower-casing (Python `str.lower()` on ASCII text). */
  function LowerChar(c: char): char
  {
    if 'A' <= c <= 'Z' then (c as int + 32) as char else c
  }

  function Lower(s: string): (r: string)
    ensures |r| == |s|
    ensures forall k :: 0 <= k < |s| ==> r[k] == LowerChar(s[k])
  {
    if s == [] then [] else [LowerChar(s[0])] + Lower(s[1..])
  }

  /** Python `needle in hay` for strings. */
  predicate IsSubstring(needle: string, hay: string)
  {
    exists k :: 0 <= k <= |hay| && OccursAt(hay, needle, k)
  }

  /** A decision procedure for `IsSubstring`. */
  function ContainsFrom(hay: string, needle: string, from: nat): (b: bool)
    ensures b <==> exists k :: from <= k && OccursAt(hay, needle, k)
    decreases |hay| - from
  {
    if from + |needle| > |hay| then false
    else if hay[from..from + |needle|] == needle then assert OccursAt(hay, needle, from); true
    else ContainsFrom(hay, needle, from + 1)
  }

  function Contains(hay: string, needle: string): (b: bool)
    ensures b <==> IsSubstring(needle, hay)
  {
    ContainsFrom(hay, needle, 0)
  }
}
