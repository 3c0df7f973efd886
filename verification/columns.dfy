/**
 * `get_column_types`: one SQL type per column of the first row, the
 * widest level any of the column's cells reaches, never below BIGINT.
 */
module Columns {
  import opened Cells
  import opened Rows
  import opened Classify

  datatype SqlType = BigInt | Float8 | DateType | TimestampType | TextType

  /** `type_hierarchy`, indexed by level. */
  const TypeHierarchy: seq<SqlType> := [BigInt, Float8, DateType, TimestampType, TextType]

  function Max(a: int, b: int): int {
    if a < b then b else a
  }

  /**
   * A way of ranking cells on the hierarchy, -1 standing for "no type".
   * The reduction below does not depend on how cells are ranked, so it is
   * stated for any ranking and used with `ValueTypeLevel`.
   */
  type Ranking = Scalar -> int

  ghost predicate InHierarchy(level: Ranking) {
    forall v :: -1 <= level(v) <= 4
  }

  /** The highest rank among the cells of `es` filed under `h`; -1 when there is none. */
  function EntriesLevel(es: seq<Entry>, h: string, level: Ranking): (r: int)
    ensures -1 <= r
    ensures InHierarchy(level) ==> r <= 4
  {
    if es == [] then -1
    else
      var last := es[|es| - 1];
      Max(EntriesLevel(es[..|es| - 1], h, level), if last.0 == h then level(last.1) else -1)
  }

  /** The level `get_column_types` settles on for column `h`: it starts at 0 and only grows. */
  function ColumnLevel(rows: seq<Row>, h: string, level: Ranking): (r: int)
    ensures 0 <= r
    ensures InHierarchy(level) ==> r <= 4
  {
    if rows == [] then 0
    else Max(ColumnLevel(rows[..|rows| - 1], h, level), EntriesLevel(rows[|rows| - 1], h, level))
  }

  /** The cells of one column, ranked by `get_value_type_level`. */
  function ValueColumnLevel(rows: seq<Row>, h: string): (r: int)
    ensures 0 <= r <= 4
  {
    ValueTypesRanked();
    ColumnLevel(rows, h, ValueTypeLevel)
  }

  lemma ValueTypesRanked()
    ensures InHierarchy(ValueTypeLevel)
  {
  }

  /**
   * `get_column_types`. No rows give no columns; otherwise the columns are
   * the first row's keys, in its order, each typed by its level over all
   * rows. Keys that only later rows carry are ignored.
   */
  method GetColumnTypes(rows: seq<Row>) returns (types: seq<(string, SqlType)>)
    ensures rows == [] ==> types == []
    ensures rows != [] ==> |types| == |rows[0]|
    ensures rows != [] ==> forall k | 0 <= k < |types| ::
      types[k] == (rows[0][k].0, TypeHierarchy[ValueColumnLevel(rows, rows[0][k].0)])
  {
    if rows == [] {
      return [];
    }
    var headers := Keys(rows[0]);
    ValueTypesRanked();
    var levels := ColumnLevels(rows, headers, ValueTypeLevel);
    types := TypeEach(headers, levels);
  }

  /** The outer loop: every tracked column starts at 0 and takes in the rows one by one. */
  method ColumnLevels(rows: seq<Row>, headers: seq<string>, level: Ranking) returns (levels: map<string, int>)
    ensures forall m | 0 <= m < |headers| ::
      headers[m] in levels && levels[headers[m]] == ColumnLevel(rows, headers[m], level)
  {
    levels := map h | h in headers :: 0;
    var i := 0;
    while i < |rows|
      invariant 0 <= i <= |rows|
      invariant forall m | 0 <= m < |headers| :: headers[m] in levels
      invariant forall h | h in levels :: levels[h] == ColumnLevel(rows[..i], h, level)
    {
      levels := AddRow(rows, i, levels, level);
      i := i + 1;
    }
    assert rows[..|rows|] == rows;
  }

  /** One round of the outer loop: the levels so far take in one more row. */
  method AddRow(rows: seq<Row>, i: nat, levels: map<string, int>, level: Ranking) returns (raised: map<string, int>)
    requires i < |rows|
    requires forall h | h in levels :: levels[h] == ColumnLevel(rows[..i], h, level)
    ensures forall h :: h in raised <==> h in levels
    ensures forall h | h in raised :: raised[h] == ColumnLevel(rows[..i + 1], h, level)
  {
    raised := RaiseLevels(levels, rows[i], level);
    forall h | h in raised
      ensures raised[h] == ColumnLevel(rows[..i + 1], h, level)
    {
      ColumnLevelStep(rows, i, h, level);
    }
  }

  /**
   * The inner loop of `get_column_types`: every cell of the row whose key is
   * a tracked column raises that column's level to its own if higher.
   */
  method RaiseLevels(levels: map<string, int>, row: seq<Entry>, level: Ranking) returns (raised: map<string, int>)
    requires forall h | h in levels :: 0 <= levels[h]
    ensures raised.Keys == levels.Keys
    ensures forall h | h in levels :: raised[h] == Max(levels[h], EntriesLevel(row, h, level))
  {
    raised := levels;
    var j := 0;
    while j < |row|
      invariant 0 <= j <= |row|
      invariant raised.Keys == levels.Keys
      invariant forall h | h in levels :: raised[h] == Max(levels[h], EntriesLevel(row[..j], h, level))
    {
      var (name, value) := row[j];
      assert row[..j + 1][..j] == row[..j];
      if name in raised {
        var rank := level(value);
        if rank > raised[name] {
          raised := raised[name := rank];
        }
      }
      j := j + 1;
    }
    assert row[..|row|] == row;
  }

  /** The closing dictionary comprehension: each tracked column with the type of its level. */
  method TypeEach(headers: seq<string>, levels: map<string, int>) returns (types: seq<(string, SqlType)>)
    requires forall m | 0 <= m < |headers| :: headers[m] in levels && 0 <= levels[headers[m]] <= 4
    ensures |types| == |headers|
    ensures forall m | 0 <= m < |headers| :: types[m] == (headers[m], TypeHierarchy[levels[headers[m]]])
  {
    types := [];
    var k := 0;
    while k < |headers|
      invariant 0 <= k <= |headers|
      invariant |types| == k
      invariant forall m | 0 <= m < k :: types[m] == (headers[m], TypeHierarchy[levels[headers[m]]])
    {
      types := types + [(headers[k], TypeHierarchy[levels[headers[k]]])];
      k := k + 1;
    }
  }

  // ---------------------------------------------------------------------
  // The level of a row

  /** In a row with distinct keys, the level of `h` is the rank of its one cell. */
  lemma {:induction false} EntriesLevelLookup(es: seq<Entry>, h: string, level: Ranking)
    requires UniqueKeys(es) && InHierarchy(level)
    ensures Lookup(es, h).None? ==> EntriesLevel(es, h, level) == -1
    ensures Lookup(es, h).Some? ==> EntriesLevel(es, h, level) == level(Lookup(es, h).value)
    decreases |es|
  {
    if es != [] {
      var init := es[..|es| - 1];
      var last := es[|es| - 1];
      assert UniqueKeys(init) by {
        assert forall i | 0 <= i < |init| :: init[i] == es[i];
      }
      EntriesLevelLookup(init, h, level);
      if last.0 == h {
        LookupEntry(es, |es| - 1);
        LastKeyFresh(es);
      } else {
        LookupPrefix(es, h);
      }
    }
  }

  /** In a row with distinct keys the last key is not among the earlier ones. */
  lemma LastKeyFresh(es: seq<Entry>)
    requires UniqueKeys(es) && es != []
    ensures es[|es| - 1].0 !in Keys(es[..|es| - 1])
  {
    var init := es[..|es| - 1];
    assert forall i | 0 <= i < |init| :: Keys(init)[i] == es[i].0 != es[|es| - 1].0;
  }

  /** Dropping an entry under another key does not change a lookup. */
  lemma LookupPrefix(es: seq<Entry>, h: string)
    requires es != [] && es[|es| - 1].0 != h
    ensures Lookup(es[..|es| - 1], h) == Lookup(es, h)
  {
    if es[0].0 != h && |es| > 1 {
      assert es[1..][..|es| - 2] == es[..|es| - 1][1..];
      LookupPrefix(es[1..], h);
    }
  }

  // ---------------------------------------------------------------------
  // The level of a column: a maximum over its rows

  /** Taking in one more row raises the level to that row's level if it is higher. */
  lemma ColumnLevelStep(rows: seq<Row>, i: nat, h: string, level: Ranking)
    requires i < |rows|
    ensures ColumnLevel(rows[..i + 1], h, level) == Max(ColumnLevel(rows[..i], h, level), EntriesLevel(rows[i], h, level))
  {
    assert rows[..i + 1][..i] == rows[..i];
  }

  /** No row of the column goes above its level. */
  lemma {:induction false} ColumnLevelBounds(rows: seq<Row>, h: string, level: Ranking)
    ensures forall i | 0 <= i < |rows| :: EntriesLevel(rows[i], h, level) <= ColumnLevel(rows, h, level)
    decreases |rows|
  {
    if rows != [] {
      var init := rows[..|rows| - 1];
      ColumnLevelBounds(init, h, level);
      forall i | 0 <= i < |rows|
        ensures EntriesLevel(rows[i], h, level) <= ColumnLevel(rows, h, level)
      {
        if i < |init| {
          assert init[i] == rows[i];
        }
      }
    }
  }

  /** The level is 0 or reached by some row. */
  lemma {:induction false} ColumnLevelAttained(rows: seq<Row>, h: string, level: Ranking)
    ensures ColumnLevel(rows, h, level) == 0
         || exists i | 0 <= i < |rows| :: EntriesLevel(rows[i], h, level) == ColumnLevel(rows, h, level)
    decreases |rows|
  {
    if rows != [] {
      var init := rows[..|rows| - 1];
      ColumnLevelAttained(init, h, level);
      var c := ColumnLevel(rows, h, level);
      if c != 0 && c != EntriesLevel(rows[|rows| - 1], h, level) {
        var i :| 0 <= i < |init| && EntriesLevel(init[i], h, level) == ColumnLevel(init, h, level);
        assert init[i] == rows[i];
      }
    }
  }

  /** The level of a column is the largest of 0 and the levels of its rows. */
  lemma ColumnLevelIsMaximum(rows: seq<Row>, h: string, level: Ranking, c: int)
    requires 0 <= c
    requires forall i | 0 <= i < |rows| :: EntriesLevel(rows[i], h, level) <= c
    requires c == 0 || exists i | 0 <= i < |rows| :: EntriesLevel(rows[i], h, level) == c
    ensures ColumnLevel(rows, h, level) == c
  {
    ColumnLevelBounds(rows, h, level);
    ColumnLevelAttained(rows, h, level);
  }

  /** The level over two batches of rows is the larger of the two levels. */
  lemma {:induction false} ColumnLevelAppend(a: seq<Row>, b: seq<Row>, h: string, level: Ranking)
    ensures ColumnLevel(a + b, h, level) == Max(ColumnLevel(a, h, level), ColumnLevel(b, h, level))
    decreases |b|
  {
    if b == [] {
      assert a + b == a;
    } else {
      var init := b[..|b| - 1];
      assert (a + b)[..|a + b| - 1] == a + init;
      assert (a + b)[|a + b| - 1] == b[|b| - 1];
      ColumnLevelAppend(a, init, h, level);
    }
  }

  /** More rows never narrow a column's type. */
  lemma ColumnLevelGrows(rows: seq<Row>, k: nat, h: string, level: Ranking)
    requires k <= |rows|
    ensures ColumnLevel(rows[..k], h, level) <= ColumnLevel(rows, h, level)
  {
    assert rows[..k] + rows[k..] == rows;
    ColumnLevelAppend(rows[..k], rows[k..], h, level);
  }

  /** Rows that all occur among other rows cannot raise a column above their level. */
  lemma SubsetLevel(a: seq<Row>, b: seq<Row>, h: string, level: Ranking)
    requires forall r | r in b :: r in a
    ensures ColumnLevel(b, h, level) <= ColumnLevel(a, h, level)
  {
    ColumnLevelBounds(a, h, level);
    ColumnLevelAttained(b, h, level);
    forall i | 0 <= i < |b|
      ensures EntriesLevel(b[i], h, level) <= ColumnLevel(a, h, level)
    {
      assert b[i] in b;
      var j :| 0 <= j < |a| && a[j] == b[i];
    }
  }

  /** The order of the rows, and repeated rows, do not matter. */
  lemma SameRowsSameLevel(a: seq<Row>, b: seq<Row>, h: string, level: Ranking)
    requires forall r | r in a :: r in b
    requires forall r | r in b :: r in a
    ensures ColumnLevel(a, h, level) == ColumnLevel(b, h, level)
  {
    SubsetLevel(a, b, h, level);
    SubsetLevel(b, a, h, level);
  }

  // ---------------------------------------------------------------------
  // With get_value_type_level as the ranking

  /** A column whose cells are all blank, or missing, is typed BIGINT. */
  lemma AllBlankIsBigInt(rows: seq<Row>, h: string)
    requires forall i | 0 <= i < |rows| :: Lookup(rows[i], h).None? || IsBlank(Lookup(rows[i], h).value)
    ensures TypeHierarchy[ValueColumnLevel(rows, h)] == BigInt
  {
    ValueTypesRanked();
    forall i | 0 <= i < |rows|
      ensures EntriesLevel(rows[i], h, ValueTypeLevel) <= 0
    {
      EntriesLevelLookup(rows[i], h, ValueTypeLevel);
      if Lookup(rows[i], h).Some? {
        ValueTypeLevelMeaning(Lookup(rows[i], h).value);
      }
    }
    ColumnLevelBounds(rows, h, ValueTypeLevel);
    ColumnLevelAttained(rows, h, ValueTypeLevel);
  }

  /** One TEXT cell makes the whole column TEXT. */
  lemma TextCellMakesText(rows: seq<Row>, i: nat, h: string)
    requires i < |rows| && Lookup(rows[i], h).Some?
    requires ValueTypeLevel(Lookup(rows[i], h).value) == 4
    ensures TypeHierarchy[ValueColumnLevel(rows, h)] == TextType
  {
    ValueTypesRanked();
    EntriesLevelLookup(rows[i], h, ValueTypeLevel);
    ColumnLevelBounds(rows, h, ValueTypeLevel);
  }
}
