/**
 * Loading the tag lists: each CSV row becomes a tag record, every file's
 * records are collected, and the whole list is ordered by count, largest
 * first, keeping the file order among equal counts.
 */
module TagLoad {
  import opened Strings
  import opened Numbers

  /** A CSV row: its cells, in order. */
  type Row = seq<string>

  /** A record of the tag list; `color` is there only for a `tags_<color>.csv` file with a non-empty colour. */
  datatype TagRecord = TagRecord(tag: string, count: nat, aliases: string, extra: string, color: Option<string>)

  // ---------------------------------------------------------------------
  // One row

  /** Cell `k` of the row, stripped, or `""` when the row is shorter. */
  function Cell(row: Row, k: nat): string
  {
    if |row| > k then Strip(row[k]) else ""
  }

  /** `int(c)` when `c.isdigit()`, and 0 otherwise. */
  function CountOf(c: string): nat
  {
    if AllDigits(c) then DigitsValue(c, 0, |c|) else 0
  }

  /** `if color: tag_data["color"] = color`: an empty colour counts as none. */
  function ColorField(color: Option<string>): Option<string>
  {
    if color.Some? && color.value != "" then color else None
  }

  /**
   * The record of a row: none for a row without cells or with a blank first
   * cell; otherwise the stripped tag, the count from the third cell, the
   * stripped fourth and fifth cells, and the colour. A row is kept exactly
   * when its first cell holds more than white space, and its record is well
   * formed.
   */
  function RowToRecord(row: Row, color: Option<string>): (r: Option<TagRecord>)
    ensures r.Some? <==> |row| >= 1 && Strip(row[0]) != ""
    ensures r.Some? ==> WellFormed(r.value)
  {
    CellShape(row, 0);
    CellShape(row, 3);
    CellShape(row, 4);
    if |row| < 1 || Strip(row[0]) == "" then None
    else Some(TagRecord(Strip(row[0]), CountOf(Cell(row, 2)), Cell(row, 3), Cell(row, 4), ColorField(color)))
  }

  /** The fields of a record as `load_file` leaves them: stripped, the tag not empty, the colour not empty. */
  predicate WellFormed(r: TagRecord)
  {
    r.tag != "" && StrippedText(r.tag) && StrippedText(r.aliases) && StrippedText(r.extra)
    && (r.color.Some? ==> r.color.value != "")
  }

  predicate StrippedText(s: string)
  {
    TrimmedBy(s, IsPySpace)
  }

  lemma StripShape(s: string)
    ensures StrippedText(Strip(s)) && Strip(Strip(s)) == Strip(s)
  {
    TrimByParts(s, IsPySpace);
    TrimByOfTrimmed(Strip(s), IsPySpace);
  }

  /** Every cell is stripped. */
  lemma CellShape(row: Row, k: nat)
    ensures StrippedText(Cell(row, k))
  {
    if |row| > k {
      StripShape(row[k]);
    }
  }

  /** A cell that is already stripped is read as it is. */
  lemma CellOfStripped(row: Row, k: nat)
    requires |row| > k && StrippedText(row[k])
    ensures Cell(row, k) == row[k]
  {
    TrimByOfTrimmed(row[k], IsPySpace);
  }

  /** The decimal digits of `n`, as a CSV writer puts a count. */
  function Decimal(n: nat): (s: string)
    ensures AllDigits(s)
    decreases n
  {
    var d := ['0' + (n % 10) as char];
    if n < 10 then d else Decimal(n / 10) + d
  }

  /** The digits before the end keep their value when more text follows. */
  lemma {:induction false} DigitsValuePrefix(a: string, b: string, j: nat)
    requires j <= |a| && DigitsBetween(a, 0, j)
    ensures DigitsBetween(a + b, 0, j) && DigitsValue(a + b, 0, j) == DigitsValue(a, 0, j)
    decreases j
  {
    assert forall k :: 0 <= k < j ==> (a + b)[k] == a[k];
    if j > 0 {
      DigitsValuePrefix(a, b, j - 1);
    }
  }

  /** `int` reads back the number `Decimal` writes. */
  lemma {:induction false} DecimalValue(n: nat)
    ensures DigitsValue(Decimal(n), 0, |Decimal(n)|) == n
    decreases n
  {
    var d := ['0' + (n % 10) as char];
    if n >= 10 {
      var a := Decimal(n / 10);
      DecimalValue(n / 10);
      DigitsValuePrefix(a, d, |a|);
      assert Decimal(n) == a + d;
    }
  }

  /** Digits are not white space, so `strip` keeps them. */
  lemma DecimalStripped(n: nat)
    ensures Strip(Decimal(n)) == Decimal(n)
  {
    var s := Decimal(n);
    assert IsDigit(s[0]) && IsDigit(s[|s| - 1]);
    TrimByOfTrimmed(s, IsPySpace);
  }

  /** The row a well-formed record is written as: tag, an empty type cell, count, aliases, extra. */
  function RecordRow(r: TagRecord): Row
  {
    [r.tag, "", Decimal(r.count), r.aliases, r.extra]
  }

  /** Reading the row written for a well-formed record gives the record back. */
  lemma RowRoundTrip(r: TagRecord)
    requires WellFormed(r)
    ensures RowToRecord(RecordRow(r), r.color) == Some(r)
  {
    var row := RecordRow(r);
    assert row[0] == r.tag && row[2] == Decimal(r.count) && row[3] == r.aliases && row[4] == r.extra;
    TrimByOfTrimmed(r.tag, IsPySpace);
    assert Strip(row[0]) == r.tag;
    CellOfStripped(row, 3);
    CellOfStripped(row, 4);
    DecimalStripped(r.count);
    DecimalValue(r.count);
    assert CountOf(Cell(row, 2)) == r.count;
    assert ColorField(r.color) == r.color;
  }

  // ---------------------------------------------------------------------
  // One file

  /** The records of the rows, in row order. */
  function Records(rows: seq<Row>, color: Option<string>): seq<TagRecord>
    decreases |rows|
  {
    if rows == [] then []
    else
      var last := RowToRecord(rows[|rows| - 1], color);
      Records(rows[..|rows| - 1], color) + (if last.Some? then [last.value] else [])
  }

  /** Every record of a file is well formed, and there are no more records than rows. */
  lemma {:induction false} RecordsShape(rows: seq<Row>, color: Option<string>)
    ensures |Records(rows, color)| <= |rows|
    ensures forall k :: 0 <= k < |Records(rows, color)| ==> WellFormed(Records(rows, color)[k])
    decreases |rows|
  {
    if rows != [] {
      RecordsShape(rows[..|rows| - 1], color);
    }
  }

  /** The row of a well-formed record read with the colour it was loaded with. */
  lemma RecordOfRow(r: TagRecord, color: Option<string>)
    requires WellFormed(r) && r.color == ColorField(color)
    ensures RowToRecord(RecordRow(r), color) == Some(r)
  {
    RowRoundTrip(r);
    assert ColorField(r.color) == ColorField(color);
  }

  /** The rows written for `rs`, one per record. */
  function RecordRows(rs: seq<TagRecord>): (rows: seq<Row>)
    ensures |rows| == |rs|
    decreases |rs|
  {
    if rs == [] then [] else RecordRows(rs[..|rs| - 1]) + [RecordRow(rs[|rs| - 1])]
  }

  /** The rows written for well-formed records of one colour read back as those records. */
  lemma {:induction false} RecordsRoundTrip(rs: seq<TagRecord>, color: Option<string>)
    requires forall k :: 0 <= k < |rs| ==> WellFormed(rs[k]) && rs[k].color == ColorField(color)
    ensures Records(RecordRows(rs), color) == rs
    decreases |rs|
  {
    if rs != [] {
      var init, r := rs[..|rs| - 1], rs[|rs| - 1];
      var rows := RecordRows(rs);
      assert rows[..|rows| - 1] == RecordRows(init);
      assert rows[|rows| - 1] == RecordRow(r);
      RecordsRoundTrip(init, color);
      RecordOfRow(r, color);
      SplitLast(rs);
    }
  }

  /** The loop of `load_file` over the rows of one file, appending each record. */
  method LoadRows(rows: seq<Row>, color: Option<string>) returns (tags: seq<TagRecord>)
    ensures tags == Records(rows, color)
  {
    tags := [];
    var i := 0;
    while i < |rows|
      invariant 0 <= i <= |rows|
      invariant tags == Records(rows[..i], color)
    {
      assert rows[..i + 1][..i] == rows[..i];
      var record := RowToRecord(rows[i], color);
      if record.Some? {
        tags := tags + [record.value];
      }
      i := i + 1;
    }
    assert rows[..i] == rows;
  }

  // ---------------------------------------------------------------------
  // File names

  /** A name that starts with `tags_` and ends with `.csv` is at least `tags_.csv` long. */
  lemma ColorNameLength(name: string)
    requires StartsWith(name, "tags_") && EndsWith(name, ".csv")
    ensures |name| >= 9
  {
    var n := |name|;
    assert name[n - 4] == '.' by {
      assert name[n - 4..][0] == name[n - 4];
    }
    forall i | 0 <= i < 5
      ensures name[i] != '.'
    {
      assert name[i] == name[..5][i];
    }
  }

  /**
   * The colour of an extra tag file: `filename[5:-4]` for `tags_*.csv`, none
   * for any other name; a name with a colour is `tags_` + colour + `.csv`.
   */
  function ColorOf(name: string): (r: Option<string>)
    ensures r.Some? ==> name == "tags_" + r.value + ".csv"
  {
    if StartsWith(name, "tags_") && EndsWith(name, ".csv") then
      ColorNameLength(name);
      assert name == name[..5] + name[5..|name| - 4] + name[|name| - 4..];
      Some(name[5..|name| - 4])
    else None
  }

  /** The colour of `tags_<c>.csv` is `c`. */
  lemma ColorRoundTrip(c: string)
    ensures ColorOf("tags_" + c + ".csv") == Some(c)
  {
    var f := "tags_" + c + ".csv";
    assert f[..5] == "tags_" && f[|f| - 4..] == ".csv" && f[5..|f| - 4] == c;
  }

  // ---------------------------------------------------------------------
  // Ordering by count

  /** Counts never increase along `s`. */
  predicate ByCount(s: seq<TagRecord>)
  {
    forall i, j :: 0 <= i < j < |s| ==> s[i].count >= s[j].count
  }

  /** Puts `x` into the ordered `s` after every record whose count is at least its own. */
  function Insert(s: seq<TagRecord>, x: TagRecord): (r: seq<TagRecord>)
    ensures multiset(r) == multiset(s) + multiset{x}
    decreases |s|
  {
    if s == [] || s[|s| - 1].count >= x.count then s + [x]
    else
      assert s == s[..|s| - 1] + [s[|s| - 1]];
      Insert(s[..|s| - 1], x) + [s[|s| - 1]]
  }

  /**
   * `list.sort(key=count, reverse=True)`: largest count first; records with
   * equal counts keep their order (the sort is stable).
   */
  function SortByCount(s: seq<TagRecord>): (r: seq<TagRecord>)
    ensures multiset(r) == multiset(s)
    decreases |s|
  {
    if s == [] then []
    else
      assert s == s[..|s| - 1] + [s[|s| - 1]];
      Insert(SortByCount(s[..|s| - 1]), s[|s| - 1])
  }

  /** Appending a record whose count is at most every count of an ordered list keeps it ordered. */
  lemma SnocOrdered(s: seq<TagRecord>, x: TagRecord)
    requires ByCount(s)
    requires forall i :: 0 <= i < |s| ==> s[i].count >= x.count
    ensures ByCount(s + [x])
  {
    var r := s + [x];
    forall i, j | 0 <= i < j < |r|
      ensures r[i].count >= r[j].count
    {
      if j < |s| {
        assert r[i] == s[i] && r[j] == s[j];
      } else {
        assert r[i] == s[i] && r[j] == x;
      }
    }
  }

  /** Every record of `Insert(s, x)` is `x` or a record of `s`. */
  lemma InsertMembers(s: seq<TagRecord>, x: TagRecord)
    ensures forall i :: 0 <= i < |Insert(s, x)| ==> Insert(s, x)[i] in s || Insert(s, x)[i] == x
  {
    var r := Insert(s, x);
    forall i | 0 <= i < |r|
      ensures r[i] in s || r[i] == x
    {
      assert r[i] in multiset(r);
    }
  }

  lemma {:induction false} InsertOrdered(s: seq<TagRecord>, x: TagRecord)
    requires ByCount(s)
    ensures ByCount(Insert(s, x))
    decreases |s|
  {
    if s == [] || s[|s| - 1].count >= x.count {
      SnocOrdered(s, x);
    } else {
      var init, last := s[..|s| - 1], s[|s| - 1];
      InsertOrdered(init, x);
      var r := Insert(init, x);
      InsertMembers(init, x);
      forall i | 0 <= i < |r|
        ensures r[i].count >= last.count
      {
        if r[i] != x {
          var k :| 0 <= k < |init| && init[k] == r[i];
          assert s[k] == init[k];
        }
      }
      SnocOrdered(r, last);
    }
  }

  /** The sorted list is ordered by count. */
  lemma {:induction false} SortOrdered(s: seq<TagRecord>)
    ensures ByCount(SortByCount(s))
    decreases |s|
  {
    if s != [] {
      SortOrdered(s[..|s| - 1]);
      InsertOrdered(SortByCount(s[..|s| - 1]), s[|s| - 1]);
    }
  }

  /** The records of `s` whose count is `n`, in order. */
  function WithCount(s: seq<TagRecord>, n: nat): seq<TagRecord>
    decreases |s|
  {
    if s == [] then []
    else WithCount(s[..|s| - 1], n) + (if s[|s| - 1].count == n then [s[|s| - 1]] else [])
  }

  lemma WithCountSnoc(s: seq<TagRecord>, x: TagRecord, n: nat)
    ensures WithCount(s + [x], n) == WithCount(s, n) + (if x.count == n then [x] else [])
  {
    assert (s + [x])[..|s|] == s;
  }

  lemma {:induction false} InsertStable(s: seq<TagRecord>, x: TagRecord, n: nat)
    ensures WithCount(Insert(s, x), n) == WithCount(s, n) + (if x.count == n then [x] else [])
    decreases |s|
  {
    if s == [] || s[|s| - 1].count >= x.count {
      WithCountSnoc(s, x, n);
    } else {
      var init, last := s[..|s| - 1], s[|s| - 1];
      InsertStable(init, x, n);
      WithCountSnoc(Insert(init, x), last, n);
    }
  }

  /** Stability: among the records of any one count, the sorted list keeps the original order. */
  lemma {:induction false} SortStable(s: seq<TagRecord>, n: nat)
    ensures WithCount(SortByCount(s), n) == WithCount(s, n)
    decreases |s|
  {
    if s != [] {
      SortStable(s[..|s| - 1], n);
      InsertStable(SortByCount(s[..|s| - 1]), s[|s| - 1], n);
    }
  }

  // ---------------------------------------------------------------------
  // All files

  /** An extra tag file as the directory listing gives it: its name and its rows. */
  datatype TagFile = TagFile(name: string, rows: seq<Row>)

  /** The records of the extra files whose names match `tags_*.csv`, in listing order. */
  function ExtraRecords(files: seq<TagFile>): seq<TagRecord>
    decreases |files|
  {
    if files == [] then []
    else
      var f := files[|files| - 1];
      ExtraRecords(files[..|files| - 1])
      + (if ColorOf(f.name).Some? then Records(f.rows, ColorOf(f.name)) else [])
  }

  /** The scan of the directory listing: every `tags_*.csv` file is loaded with its colour. */
  method LoadExtra(files: seq<TagFile>) returns (collected: seq<TagRecord>)
    ensures collected == ExtraRecords(files)
  {
    collected := [];
    var i := 0;
    while i < |files|
      invariant 0 <= i <= |files|
      invariant collected == ExtraRecords(files[..i])
    {
      assert files[..i + 1][..i] == files[..i];
      var color := ColorOf(files[i].name);
      if color.Some? {
        var more := LoadRows(files[i].rows, color);
        collected := collected + more;
      }
      i := i + 1;
    }
    assert files[..i] == files;
  }

  /**
   * `load_tags_from_csv`: the records of `tags.csv` when it exists, then
   * those of every `tags_*.csv` in listing order, sorted by count.
   */
  method LoadTags(defaults: Option<seq<Row>>, files: seq<TagFile>) returns (tags: seq<TagRecord>)
    ensures tags == SortByCount((if defaults.Some? then Records(defaults.value, None) else []) + ExtraRecords(files))
  {
    var collected: seq<TagRecord> := [];
    if defaults.Some? {
      collected := LoadRows(defaults.value, None);
    }
    var extra := LoadExtra(files);
    tags := SortByCount(collected + extra);
  }

  /** The loaded list is ordered by count and holds every record of every file once. */
  lemma LoadedShape(defaults: Option<seq<Row>>, files: seq<TagFile>)
    ensures var all := (if defaults.Some? then Records(defaults.value, None) else []) + ExtraRecords(files);
      ByCount(SortByCount(all)) && multiset(SortByCount(all)) == multiset(all)
  {
    var all := (if defaults.Some? then Records(defaults.value, None) else []) + ExtraRecords(files);
    SortOrdered(all);
  }
}
