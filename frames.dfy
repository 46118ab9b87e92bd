/**
 * The data-frame operations the collectors apply to provider payloads:
 * column selection, renaming, camelCase to snake_case, missing-value fill,
 * integer cast and sort by the leading date column.
 */
module Frames {
  import opened Results
  import opened Sorting

  /** One provider record: a field is absent, present as null, or present with a number. */
  type Record = map<string, Option<int>>

  /** One row: the leading date column and the other columns in order (None is NaN/NULL). */
  datatype Row = Row(key: Option<int>, values: seq<Option<int>>)

  datatype Frame = Frame(columns: seq<string>, rows: seq<Row>)

  /** Every row has one value per non-key column. */
  predicate Shaped(f: Frame) {
    |f.columns| >= 1 && forall i :: 0 <= i < |f.rows| ==> |f.rows[i].values| == |f.columns| - 1
  }

  function RowKey(r: Row): Option<int> {
    r.key
  }

  /** A cell of a frame built from records: NaN where the record lacks the field. */
  function Cell(r: Record, c: string): Option<int> {
    if c in r then r[c] else None
  }

  /** A column exists in a frame built from records when at least one record has the field. */
  predicate Present(records: seq<Record>, c: string) {
    exists i :: 0 <= i < |records| && c in records[i]
  }

  /** The requested columns that no record has, in request order. */
  function Absent(records: seq<Record>, cols: seq<string>): (r: seq<string>)
    ensures forall c :: c in r <==> c in cols && !Present(records, c)
  {
    if cols == [] then []
    else (if Present(records, cols[0]) then [] else [cols[0]]) + Absent(records, cols[1..])
  }

  function RowOf(r: Record, cols: seq<string>): (row: Row)
    requires |cols| >= 1
    ensures |row.values| == |cols| - 1
  {
    Row(Cell(r, cols[0]), seq(|cols| - 1, j requires 0 <= j < |cols| - 1 => Cell(r, cols[j + 1])))
  }

  /**
   * `DataFrame(records)[cols]`: one row per record, the requested columns in
   * order; a KeyError when a requested column is in no record at all.
   */
  function Select(records: seq<Record>, cols: seq<string>): (f: Result<Frame>)
    requires |cols| >= 1
    ensures f.Success? <==> forall c :: c in cols ==> Present(records, c)
    ensures f.Success? ==> f.value.columns == cols && Shaped(f.value) && |f.value.rows| == |records|
    ensures f.Success? ==> forall i :: 0 <= i < |records| ==>
      f.value.rows[i].key == Cell(records[i], cols[0]) &&
      forall j :: 0 <= j < |cols| - 1 ==> f.value.rows[i].values[j] == Cell(records[i], cols[j + 1])
  {
    var missing := Absent(records, cols);
    if missing != [] then
      assert missing[0] in missing;
      Failure(MissingColumns(missing))
    else
      Success(Frame(cols, seq(|records|, i requires 0 <= i < |records| => RowOf(records[i], cols))))
  }

  /** `df.rename(columns={from: to})`. */
  function RenameColumn(f: Frame, from: string, to: string): (g: Frame)
    ensures g.rows == f.rows && |g.columns| == |f.columns|
    ensures forall i :: 0 <= i < |f.columns| ==> g.columns[i] == if f.columns[i] == from then to else f.columns[i]
  {
    Frame(seq(|f.columns|, i requires 0 <= i < |f.columns| => if f.columns[i] == from then to else f.columns[i]), f.rows)
  }

  /** `df.columns = names`: positional renaming. */
  function SetColumns(f: Frame, names: seq<string>): (g: Frame)
    requires |names| == |f.columns|
    ensures g.columns == names && g.rows == f.rows
  {
    Frame(names, f.rows)
  }

  // ---------------------------------------------------------------------
  // camelCase to snake_case: `str.replace(r'(?<!^)(?=[A-Z])', '_').str.lower()`

  predicate IsUpper(c: char) {
    'A' <= c <= 'Z'
  }

  function Lower(c: char): (d: char)
    ensures !IsUpper(d)
  {
    if IsUpper(c) then (c as int + 32) as char else c
  }

  function Upper(c: char): char {
    if 'a' <= c <= 'z' then (c as int - 32) as char else c
  }

  predicate NoUpper(s: string) {
    forall i :: 0 <= i < |s| ==> !IsUpper(s[i])
  }

  function CountUpper(s: string): nat {
    if s == [] then 0 else (if IsUpper(s[0]) then 1 else 0) + CountUpper(s[1..])
  }

  /** Past position 0: an underscore before every upper-case letter, everything lower-cased. */
  function SnakeTail(s: string): string {
    if s == [] then []
    else (if IsUpper(s[0]) then ['_', Lower(s[0])] else [Lower(s[0])]) + SnakeTail(s[1..])
  }

  /** The column-name transform of the stats collector. */
  function SnakeCase(s: string): string {
    if s == [] then [] else [Lower(s[0])] + SnakeTail(s[1..])
  }

  /** The reverse transform: an underscore and the letter after it become that letter upper-cased. */
  function CamelTail(t: string): string {
    if t == [] then []
    else if t[0] == '_' && |t| >= 2 then [Upper(t[1])] + CamelTail(t[2..])
    else [t[0]] + CamelTail(t[1..])
  }

  function CamelCase(t: string): string {
    if t == [] then [] else [t[0]] + CamelTail(t[1..])
  }

  lemma {:induction false} SnakeTailFacts(s: string)
    ensures NoUpper(SnakeTail(s))
    ensures |SnakeTail(s)| == |s| + CountUpper(s)
  {
    if s != [] {
      SnakeTailFacts(s[1..]);
    }
  }

  /** The result has no upper-case letter, and is one character longer per upper-case letter past position 0. */
  lemma SnakeCaseShape(s: string)
    ensures NoUpper(SnakeCase(s))
    ensures s != [] ==> |SnakeCase(s)| == |s| + CountUpper(s[1..])
  {
    if s != [] {
      SnakeTailFacts(s[1..]);
    }
  }

  lemma {:induction false} SnakeTailNoUpper(t: string)
    requires NoUpper(t)
    ensures SnakeTail(t) == t
  {
    if t != [] {
      SnakeTailNoUpper(t[1..]);
    }
  }

  /** Applying the transform twice is the same as applying it once. */
  lemma SnakeCaseIdempotent(s: string)
    ensures SnakeCase(SnakeCase(s)) == SnakeCase(s)
  {
    SnakeCaseShape(s);
    var t := SnakeCase(s);
    if t != [] {
      SnakeTailNoUpper(t[1..]);
    }
  }

  lemma {:induction false} CamelSnakeTail(s: string)
    requires '_' !in s
    ensures CamelTail(SnakeTail(s)) == s
  {
    if s != [] {
      CamelSnakeTail(s[1..]);
      if IsUpper(s[0]) {
        assert SnakeTail(s) == ['_', Lower(s[0])] + SnakeTail(s[1..]);
        assert SnakeTail(s)[2..] == SnakeTail(s[1..]);
      } else {
        assert SnakeTail(s) == [s[0]] + SnakeTail(s[1..]);
        assert SnakeTail(s)[1..] == SnakeTail(s[1..]);
      }
    }
  }

  /** A camelCase name without underscores and with a lower-case head is recovered from its snake_case form. */
  lemma CamelSnakeRoundTrip(s: string)
    requires '_' !in s
    requires s != [] ==> !IsUpper(s[0])
    ensures CamelCase(SnakeCase(s)) == s
  {
    if s != [] {
      CamelSnakeTail(s[1..]);
      assert SnakeCase(s)[1..] == SnakeTail(s[1..]);
    }
  }

  lemma SnakeCaseOfDate()
    ensures SnakeCase("date") == "date"
  {
    SnakeTailNoUpper("ate");
  }

  /** `df.columns = df.columns.str.replace(...).str.lower()`. */
  function SnakeCaseColumns(f: Frame): (g: Frame)
    ensures g.rows == f.rows && |g.columns| == |f.columns|
    ensures forall i :: 0 <= i < |g.columns| ==> g.columns[i] == SnakeCase(f.columns[i])
  {
    Frame(seq(|f.columns|, i requires 0 <= i < |f.columns| => SnakeCase(f.columns[i])), f.rows)
  }

  /**
   * After the snake_case step no column name has an upper-case letter, a
   * column already in snake_case (such as `date`) keeps its name, and a
   * camelCase name can be read back from its new name.
   */
  lemma SnakeCaseColumnsFacts(f: Frame)
    ensures var g := SnakeCaseColumns(f);
      && (forall i :: 0 <= i < |g.columns| ==> NoUpper(g.columns[i]))
      && (forall i :: 0 <= i < |g.columns| && NoUpper(f.columns[i]) ==> g.columns[i] == f.columns[i])
      && (forall i :: 0 <= i < |g.columns| && '_' !in f.columns[i] && (f.columns[i] != [] ==> !IsUpper(f.columns[i][0])) ==>
            CamelCase(g.columns[i]) == f.columns[i])
  {
    var g := SnakeCaseColumns(f);
    forall i | 0 <= i < |g.columns|
      ensures NoUpper(g.columns[i])
      ensures NoUpper(f.columns[i]) ==> g.columns[i] == f.columns[i]
      ensures '_' !in f.columns[i] && (f.columns[i] != [] ==> !IsUpper(f.columns[i][0])) ==> CamelCase(g.columns[i]) == f.columns[i]
    {
      SnakeCaseShape(f.columns[i]);
      if NoUpper(f.columns[i]) {
        SnakeCaseOfLower(f.columns[i]);
      }
      if '_' !in f.columns[i] && (f.columns[i] != [] ==> !IsUpper(f.columns[i][0])) {
        CamelSnakeRoundTrip(f.columns[i]);
      }
    }
  }

  /** A name without upper-case letters is its own snake_case form. */
  lemma SnakeCaseOfLower(s: string)
    requires NoUpper(s)
    ensures SnakeCase(s) == s
  {
    if s != [] {
      SnakeTailNoUpper(s[1..]);
    }
  }

  // ---------------------------------------------------------------------
  // fillna, astype(int), sort_values

  /** `fillna(sentinel)` on one cell: a missing value becomes the sentinel, a present one stays. */
  function Fill(v: Option<int>, sentinel: int): (w: Option<int>)
    ensures w.Some?
    ensures v.Some? ==> w == v
    ensures v.None? ==> w == Some(sentinel)
  {
    if v.None? then Some(sentinel) else v
  }

  /**
   * `fillna(sentinel)` on every non-key column: afterwards no value is
   * missing, every value that was present is kept, and every missing one is
   * the sentinel; keys, columns and shape do not change.
   */
  function FillValues(f: Frame, sentinel: int): (g: Frame)
    ensures g.columns == f.columns && |g.rows| == |f.rows|
    ensures forall i :: 0 <= i < |f.rows| ==> g.rows[i].key == f.rows[i].key && |g.rows[i].values| == |f.rows[i].values|
    ensures forall i, j :: 0 <= i < |g.rows| && 0 <= j < |g.rows[i].values| ==> g.rows[i].values[j].Some?
    ensures forall i, j :: 0 <= i < |f.rows| && 0 <= j < |f.rows[i].values| && f.rows[i].values[j].Some? ==>
      g.rows[i].values[j] == f.rows[i].values[j]
    ensures forall i, j :: 0 <= i < |f.rows| && 0 <= j < |f.rows[i].values| && f.rows[i].values[j].None? ==>
      g.rows[i].values[j] == Some(sentinel)
    ensures forall i, j :: 0 <= i < |f.rows| && 0 <= j < |f.rows[i].values| ==>
      g.rows[i].values[j] == Fill(f.rows[i].values[j], sentinel)
  {
    Frame(f.columns, seq(|f.rows|, i requires 0 <= i < |f.rows| =>
      Row(f.rows[i].key, seq(|f.rows[i].values|, j requires 0 <= j < |f.rows[i].values| => Fill(f.rows[i].values[j], sentinel)))))
  }

  /** Column j (0-based among the non-key columns) holds a missing value in some row. */
  predicate HasMissing(f: Frame, j: nat) {
    exists i :: 0 <= i < |f.rows| && j < |f.rows[i].values| && f.rows[i].values[j].None?
  }

  /** `astype(int)` on the listed non-key columns: fails on the first one that holds a missing value. */
  function CastColumns(f: Frame, js: seq<nat>): (g: Result<Frame>)
    requires Shaped(f) && forall k :: 0 <= k < |js| ==> js[k] < |f.columns| - 1
    ensures g.Success? <==> forall k :: 0 <= k < |js| ==> !HasMissing(f, js[k])
    ensures g.Success? ==> g.value == f
  {
    if js == [] then Success(f)
    else if HasMissing(f, js[0]) then Failure(NotAnInteger(f.columns[js[0] + 1]))
    else CastColumns(f, js[1..])
  }

  /** The indices of all non-key columns. */
  function AllValueColumns(f: Frame): (js: seq<nat>)
    requires |f.columns| >= 1
    ensures |js| == |f.columns| - 1
    ensures forall k :: 0 <= k < |js| ==> js[k] == k
  {
    seq(|f.columns| - 1, k requires 0 <= k < |f.columns| - 1 => k)
  }

  /** `sort_values('date')`. */
  function SortRows(f: Frame): (g: Frame)
    ensures g.columns == f.columns
    ensures SortedBy(g.rows, RowKey)
    ensures multiset(g.rows) == multiset(f.rows) && |g.rows| == |f.rows|
  {
    Frame(f.columns, SortBy(f.rows, RowKey))
  }

  lemma ShapedSorted(f: Frame)
    requires Shaped(f)
    ensures Shaped(SortRows(f))
  {
    var g := SortRows(f);
    forall i | 0 <= i < |g.rows|
      ensures |g.rows[i].values| == |g.columns| - 1
    {
      InMultiset(g.rows, f.rows, i);
    }
  }
}
