/**
 * The tag search behind the autocomplete: the loaded records whose tag,
 * aliases or extra field contain the query, compared after lower-casing
 * and turning spaces into underscores, in list order and at most `limit`
 * of them.
 */
module TagSearch {
  import opened Strings
  import opened TagLoad

  /** `s.lower().replace(" ", "_")`. */
  function Normalize(s: string): string
  {
    ReplaceChar(Lower(s), ' ', "_")
  }

  /** The record matches the normalised query in one of its three fields. */
  predicate Matches(item: TagRecord, q: string)
  {
    Contains(Normalize(item.tag), q) || Contains(Normalize(item.aliases), q) || Contains(Normalize(item.extra), q)
  }

  /** The records of `tags` that match, in order. */
  function Matching(tags: seq<TagRecord>, q: string): (r: seq<TagRecord>)
    decreases |tags|
  {
    if tags == [] then []
    else Matching(tags[..|tags| - 1], q) + (if Matches(tags[|tags| - 1], q) then [tags[|tags| - 1]] else [])
  }

  /** The first `n` elements, or all of them when there are fewer. */
  function Take(s: seq<TagRecord>, n: int): (r: seq<TagRecord>)
    ensures |r| == if n <= 0 then 0 else if |s| <= n then |s| else n
    ensures r <= s
  {
    if n <= 0 then [] else if |s| <= n then s else s[..n]
  }

  /**
   * What a search returns: nothing for an empty query, else the first
   * `limit` matches. The results are at most `limit` records of the list,
   * each matching the query; they are the first matches in list order, so no
   * match before the last result is skipped; and when fewer than `limit`
   * come back, every match came back.
   */
  function Search(tags: seq<TagRecord>, query: string, limit: int): (r: seq<TagRecord>)
    ensures query == "" ==> r == []
    ensures |r| <= (if limit < 0 then 0 else limit)
    ensures forall k :: 0 <= k < |r| ==> r[k] in tags && Matches(r[k], Normalize(query))
    ensures query != "" ==> r <= Matching(tags, Normalize(query))
    ensures query != "" && |r| < limit ==> r == Matching(tags, Normalize(query))
  {
    MatchingSound(tags, Normalize(query));
    if query == "" then [] else Take(Matching(tags, Normalize(query)), limit)
  }

  lemma MatchingSnoc(tags: seq<TagRecord>, x: TagRecord, q: string)
    ensures Matching(tags + [x], q) == Matching(tags, q) + (if Matches(x, q) then [x] else [])
  {
    assert (tags + [x])[..|tags|] == tags;
  }

  /** The matches of a list start with the matches of any of its prefixes. */
  lemma {:induction false} MatchingPrefix(tags: seq<TagRecord>, i: nat, q: string)
    requires i <= |tags|
    ensures Matching(tags[..i], q) <= Matching(tags, q)
    decreases |tags| - i
  {
    if i < |tags| {
      MatchingPrefix(tags, i + 1, q);
      TakeOneMore(tags, i);
      MatchingSnoc(tags[..i], tags[i], q);
      var a, b := Matching(tags[..i], q), Matching(tags[..i + 1], q);
      assert a <= b;
      PrefixTransitive(a, b, Matching(tags, q));
    } else {
      assert tags[..i] == tags;
    }
  }

  lemma TakeOneMore(tags: seq<TagRecord>, i: nat)
    requires i < |tags|
    ensures tags[..i + 1] == tags[..i] + [tags[i]]
  {
  }

  lemma PrefixTransitive(a: seq<TagRecord>, b: seq<TagRecord>, c: seq<TagRecord>)
    requires a <= b && b <= c
    ensures a <= c
  {
    assert c[..|a|] == b[..|a|];
  }

  /** Taking `n` from a longer list that starts with `a`, where `a` already has `n`, takes from `a`. */
  lemma TakeOfPrefix(a: seq<TagRecord>, b: seq<TagRecord>, n: int)
    requires a <= b && |a| >= n
    ensures Take(b, n) == Take(a, n)
  {
    if n > 0 {
      assert b[..n] == a[..n];
    }
  }

  /** The loop of `search_tags`: stop once `limit` results are collected, otherwise keep each matching record. */
  method SearchTags(tags: seq<TagRecord>, query: string, limit: int) returns (results: seq<TagRecord>)
    ensures results == Search(tags, query, limit)
  {
    if query == "" {
      return [];
    }
    var q := Normalize(query);
    results := [];
    var count := 0;
    var i := 0;
    while i < |tags|
      invariant 0 <= i <= |tags|
      invariant count == |results|
      invariant results == Take(Matching(tags[..i], q), limit)
    {
      if count >= limit {
        MatchingPrefix(tags, i, q);
        TakeOfPrefix(Matching(tags[..i], q), Matching(tags, q), limit);
        return;
      }
      TakeOneMore(tags, i);
      MatchingSnoc(tags[..i], tags[i], q);
      if Matches(tags[i], q) {
        results := results + [tags[i]];
        count := count + 1;
      }
      i := i + 1;
    }
    assert tags[..i] == tags;
  }

  /** Every matching record is one of `tags` and matches. */
  lemma {:induction false} MatchingSound(tags: seq<TagRecord>, q: string)
    ensures forall k :: 0 <= k < |Matching(tags, q)| ==> Matching(tags, q)[k] in tags && Matches(Matching(tags, q)[k], q)
    decreases |tags|
  {
    if tags != [] {
      var init := tags[..|tags| - 1];
      MatchingSound(init, q);
      forall y | y in init
        ensures y in tags
      {
        var k :| 0 <= k < |init| && init[k] == y;
        assert tags[k] == y;
      }
    }
  }

  /** Every record of `tags` that matches is among the matches. */
  lemma {:induction false} MatchingComplete(tags: seq<TagRecord>, q: string)
    ensures forall k :: 0 <= k < |tags| && Matches(tags[k], q) ==> tags[k] in Matching(tags, q)
    decreases |tags|
  {
    if tags != [] {
      var init, last := tags[..|tags| - 1], tags[|tags| - 1];
      MatchingComplete(init, q);
      var m := Matching(init, q);
      assert Matching(tags, q) == m + (if Matches(last, q) then [last] else []);
      forall k | 0 <= k < |tags| && Matches(tags[k], q)
        ensures tags[k] in Matching(tags, q)
      {
        if k < |init| {
          assert tags[k] == init[k];
          assert Matches(init[k], q);
          assert init[k] in m;
        } else {
          assert tags[k] == last;
        }
      }
    }
  }

  /** The normalised text has the same length, spaces as underscores and ASCII capitals in lower case. */
  lemma {:induction false} NormalizeChars(s: string)
    ensures |Normalize(s)| == |s|
    ensures forall k :: 0 <= k < |s| ==> Normalize(s)[k] == if s[k] == ' ' then '_' else LowerChar(s[k])
    decreases |s|
  {
    if s != [] {
      NormalizeChars(s[1..]);
      assert Lower(s) == [LowerChar(s[0])] + Lower(s[1..]);
      assert Normalize(s) == ReplaceChar([LowerChar(s[0])], ' ', "_") + Normalize(s[1..]) by {
        ReplaceCharAppend([LowerChar(s[0])], Lower(s[1..]), ' ', "_");
      }
      forall k | 0 <= k < |s|
        ensures Normalize(s)[k] == if s[k] == ' ' then '_' else LowerChar(s[k])
      {
        if k > 0 {
          assert s[k] == s[1..][k - 1];
        }
      }
    }
  }

  /** Normalising twice is normalising once. */
  lemma NormalizeIdempotent(s: string)
    ensures Normalize(Normalize(s)) == Normalize(s)
  {
    NormalizeChars(s);
    NormalizeChars(Normalize(s));
  }

  /** Searching with a query already normalised gives the same results: `Blue Hair` and `blue_hair` find the same tags. */
  lemma SearchNormalized(tags: seq<TagRecord>, query: string, limit: int)
    ensures Search(tags, Normalize(query), limit) == Search(tags, query, limit)
  {
    NormalizeIdempotent(query);
    NormalizeChars(query);
  }
}
