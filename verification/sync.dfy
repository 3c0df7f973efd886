/**
 * The pure parts of `sync_to_db`: turning sheet and column names into SQL
 * identifiers, cleaning each row before the upsert, and the plan for one
 * sheet (its table name, its typed columns, its cleaned rows).
 */
module Sync {
  import opened Wrappers
  import opened Text
  import opened Iso
  import opened Cells
  import opened Rows
  import opened Temporal
  import opened Columns
  import Strptime

  // ---------------------------------------------------------------------
  // Identifiers

  /** `"".join(c if c.isalnum() else '_' for c in s)` */
  function Sanitize(s: string): (r: string)
    ensures |r| == |s|
    ensures forall i | 0 <= i < |s| :: r[i] == (if IsAlnum(s[i]) then s[i] else '_')
  {
    if s == [] then [] else [if IsAlnum(s[0]) then s[0] else '_'] + Sanitize(s[1..])
  }

  predicate IsIdentifierChar(c: char) {
    IsAlnum(c) || c == '_'
  }

  /** A sanitised name holds only letters, digits and underscores. */
  lemma SanitizeAlphabet(s: string)
    ensures forall i | 0 <= i < |s| :: IsIdentifierChar(Sanitize(s)[i])
  {
  }

  /** A name that is already an identifier of letters, digits and underscores is kept. */
  lemma SanitizeKeepsIdentifiers(s: string)
    requires forall i | 0 <= i < |s| :: IsIdentifierChar(s[i])
    ensures Sanitize(s) == s
  {
  }

  /** Sanitising twice is sanitising once. */
  lemma SanitizeIdempotent(s: string)
    ensures Sanitize(Sanitize(s)) == Sanitize(s)
  {
    SanitizeAlphabet(s);
    SanitizeKeepsIdentifiers(Sanitize(s));
  }

  lemma SanitizeExample()
    ensures Sanitize("Order #1") == "Order__1"
  {
  }

  // ---------------------------------------------------------------------
  // One cell

  /**
   * The body of the inner loop for one value: blank becomes None; a value
   * whose text is a date or a timestamp is replaced by the normalised text;
   * anything else is kept as it is, number or string.
   */
  function CleanValue(v: Scalar): (r: Scalar)
    ensures r.Null? <==> IsBlank(v)
    ensures !IsBlank(v) && DetectText(Render(v)).None? ==> r == v
    ensures DetectText(Render(v)).Some? ==> r.Str?
  {
    if IsBlank(v) then
      NoneIsNotTemporal();
      Null
    else
      match DetectText(Render(v))
      case None => v
      case Some(k) => Str(NormalizeText(Render(v), k))
  }

  /** Python's rendering of None is no date or time, so only a blank string is ever detected as blank. */
  lemma NoneIsNotTemporal()
    ensures DetectText(Render(Null)) == None
  {
    assert Strip("None") == "None" by { StripTrimmed("None"); }
    forall k | 0 <= k < |Strptime.DateFormats|
      ensures Strptime.Parse(Strptime.DateFormats[k], "None").None?
    {
      LetterFirstNoScan(Strptime.DateFormats[k], "None", Strptime.Defaults);
    }
    forall k | 0 <= k < |Strptime.DatetimeFormats|
      ensures Strptime.Parse(Strptime.DatetimeFormats[k], "None").None?
    {
      LetterFirstNoScan(Strptime.DatetimeFormats[k], "None", Strptime.Defaults);
    }
    DetectTextMeaning("None");
  }

  /** Every format starts with a numeric field, which a text starting with a letter fails. */
  lemma LetterFirstNoScan(fmt: Strptime.Format, s: string, acc: Strptime.Stamp)
    requires fmt != [] && Strptime.IsField(fmt[0])
    requires s != [] && !IsDigit(s[0]) && s[0] != ' '
    ensures Strptime.Scan(fmt, s, acc).None?
  {
  }

  /**
   * A detected value comes out as an ISO text: a timestamp with a time of
   * day and a 'T' separator, a date as a bare date when it was written in
   * the ISO way and as midnight of that day when a `strptime` format read it.
   */
  lemma CleanValueShape(v: Scalar)
    requires DetectText(Render(v)).Some?
    ensures var t := Strip(Render(v));
      var r := CleanValue(v).text;
      && IsIso(r) && Trimmed(r)
      && (DetectText(Render(v)) == Some(Timestamp) ==> |r| > 10 && ' ' !in r)
      && (DetectText(Render(v)) == Some(Date) && IsIso(t) ==> |r| == 10)
      && (DetectText(Render(v)) == Some(Date) && !IsIso(t) ==> |r| == 19 && ' ' !in r)
  {
    var t := Strip(Render(v));
    var k := DetectText(Render(v)).value;
    DetectTextMeaning(Render(v));
    NormalizeTextMeaning(Render(v), k);
    if !IsIso(t) {
      assert Strptime.FirstParse(FormatsFor(k), t).Some?;
    }
  }

  /**
   * A timestamp keeps its time of day. Written the ISO way it keeps every
   * character but the separator, which becomes 'T'; read by a `strptime`
   * format it becomes the ISO text of what that format read.
   */
  lemma CleanTimestampMeaning(v: Scalar)
    requires DetectText(Render(v)) == Some(Timestamp)
    ensures var t := Strip(Render(v));
      var r := CleanValue(v).text;
      && (IsIso(t) ==>
            && |r| == |t| > 10 && r[10] == 'T'
            && forall i | 0 <= i < |t| && i != 10 :: r[i] == t[i])
      && (!IsIso(t) ==>
            && Strptime.FirstParse(Strptime.DatetimeFormats, t).Some?
            && Strptime.Parse(Strptime.IsoSeconds, r)
               == Some(Strptime.FirstParse(Strptime.DatetimeFormats, t).value.1))
  {
    var t := Strip(Render(v));
    DetectTextMeaning(Render(v));
    NormalizeTextMeaning(Render(v), Timestamp);
    if IsIso(t) {
      IsoShape(t);
      TimeMarker(t);
      assert t[10] == t[10..][0];
    } else {
      assert Strptime.FirstParse(Strptime.DatetimeFormats, t).Some?;
    }
  }

  /**
   * A date written the ISO way is cut to its first ten characters; a date a
   * `strptime` format read becomes midnight of the day that format read.
   */
  lemma CleanDateMeaning(v: Scalar)
    requires DetectText(Render(v)) == Some(Date)
    ensures var t := Strip(Render(v));
      var r := CleanValue(v).text;
      && (IsIso(t) ==> r == t[..10])
      && (!IsIso(t) ==>
            && Strptime.FirstParse(Strptime.DateFormats, t).Some?
            && var st := Strptime.FirstParse(Strptime.DateFormats, t).value.1;
            && Strptime.Parse(Strptime.IsoSeconds, r) == Some(st)
            && st.hour == 0 && st.minute == 0 && st.second == 0)
  {
    var t := Strip(Render(v));
    DetectTextMeaning(Render(v));
    NormalizeTextMeaning(Render(v), Date);
    if !IsIso(t) {
      var found := Strptime.FirstParse(Strptime.DateFormats, t);
      assert found.Some?;
      DateFormatsReadNoTime(found.value.0, t);
    }
  }

  /** A cleaned value is clean: cleaning it again changes nothing. */
  lemma CleanValueIdempotent(v: Scalar)
    ensures CleanValue(CleanValue(v)) == CleanValue(v)
  {
    var r := CleanValue(v);
    if r.Str? && r != v {
      CleanValueShape(v);
      var t := r.text;
      IsoTrimmed(t);
      StripTrimmed(t);
      TimeMarker(t);
      NoBlankOrDateFixed(t);
    }
  }

  /** What a normalised text is detected as, and that normalising it again keeps it. */
  lemma NoBlankOrDateFixed(t: string)
    requires IsIso(t) && Trimmed(t)
    requires |t| == 10 || ' ' !in t
    ensures DetectText(t) == Some(if |t| > 10 then Timestamp else Date)
    ensures NormalizeText(t, if |t| > 10 then Timestamp else Date) == t
  {
    StripTrimmed(t);
    DetectTextMeaning(t);
    if |t| > 10 {
      TimestampFixedPoint(t);
    } else {
      DateFixedPoint(t);
    }
  }

  // ---------------------------------------------------------------------
  // One row

  /** The entry is kept under column `k`: its key is non-empty and sanitises to `k`. */
  predicate FilesUnder(e: Entry, k: string) {
    e.0 != [] && Sanitize(e.0) == k
  }

  /** The index of the last entry filed under `k`, whose value the cleaned row keeps. */
  function LastUnder(es: seq<Entry>, k: string): (r: Option<nat>)
    ensures r.Some? ==> r.value < |es|
  {
    if es == [] then None
    else if FilesUnder(es[|es| - 1], k) then Some(|es| - 1)
    else LastUnder(es[..|es| - 1], k)
  }

  /** None exactly when no entry is filed under `k`. */
  lemma {:induction false} LastUnderNone(es: seq<Entry>, k: string)
    ensures LastUnder(es, k).None? <==> forall j | 0 <= j < |es| :: !FilesUnder(es[j], k)
    decreases |es|
  {
    if es != [] {
      var n := |es| - 1;
      if !FilesUnder(es[n], k) {
        var init := es[..n];
        LastUnderNone(init, k);
        assert LastUnder(es, k) == LastUnder(init, k);
        assert forall j | 0 <= j < n :: init[j] == es[j];
      }
    }
  }

  /** Otherwise it names an entry filed under `k` with none filed there after it. */
  lemma {:induction false} LastUnderSome(es: seq<Entry>, k: string)
    requires LastUnder(es, k).Some?
    ensures var i := LastUnder(es, k).value;
      FilesUnder(es[i], k) && forall j | i < j < |es| :: !FilesUnder(es[j], k)
    decreases |es|
  {
    var n := |es| - 1;
    if !FilesUnder(es[n], k) {
      var init := es[..n];
      assert LastUnder(es, k) == LastUnder(init, k);
      LastUnderSome(init, k);
      var i := LastUnder(init, k).value;
      assert init[i] == es[i];
      assert forall j | i < j < n :: init[j] == es[j];
    }
  }

  /** What the cleaned row holds under `k`: the last value filed there, cleaned. */
  function CleanedUnder(es: seq<Entry>, k: string): Option<Scalar> {
    match LastUnder(es, k)
    case None => None
    case Some(i) => Some(CleanValue(es[i].1))
  }

  /**
   * The cleaned row: entries in order, empty keys skipped, each value
   * cleaned and stored under its sanitised key. Two keys that sanitise
   * alike share one column: the first fixes its place, the last its value.
   */
  function CleanRow(es: seq<Entry>): (r: seq<Entry>)
    ensures UniqueKeys(r)
  {
    if es == [] then []
    else
      var prev := CleanRow(es[..|es| - 1]);
      var last := es[|es| - 1];
      if last.0 == [] then prev
      else
        PutUnique(prev, Sanitize(last.0), CleanValue(last.1));
        Put(prev, Sanitize(last.0), CleanValue(last.1))
  }

  /** Under every column the cleaned row holds the last value filed there, cleaned. */
  lemma {:induction false} CleanRowLookup(es: seq<Entry>, k: string)
    ensures Lookup(CleanRow(es), k) == CleanedUnder(es, k)
    decreases |es|
  {
    if es != [] {
      var init := es[..|es| - 1];
      var last := es[|es| - 1];
      CleanRowLookup(init, k);
      if last.0 != [] {
        PutLookup(CleanRow(init), Sanitize(last.0), CleanValue(last.1), k);
      }
      CleanedUnderStep(es, k);
    }
  }

  /** The last entry decides what is filed under `k` if it is filed there; otherwise the rest do. */
  lemma CleanedUnderStep(es: seq<Entry>, k: string)
    requires es != []
    ensures CleanedUnder(es, k) ==
      if FilesUnder(es[|es| - 1], k) then Some(CleanValue(es[|es| - 1].1)) else CleanedUnder(es[..|es| - 1], k)
  {
    var init := es[..|es| - 1];
    if !FilesUnder(es[|es| - 1], k) {
      match LastUnder(init, k)
      case None =>
      case Some(i) => assert init[i] == es[i];
    }
  }

  /** Cleaning one more entry puts its cleaned value under its sanitised key, unless the key is empty. */
  lemma CleanRowStep(es: seq<Entry>, j: nat)
    requires j < |es|
    ensures CleanRow(es[..j + 1]) ==
      if es[j].0 == [] then CleanRow(es[..j]) else Put(CleanRow(es[..j]), Sanitize(es[j].0), CleanValue(es[j].1))
  {
    assert es[..j + 1][..j] == es[..j];
  }

  /** The keys the cleaned row would have if no two keys sanitised alike. */
  function SanitizedKeys(es: seq<Entry>): seq<string> {
    if es == [] then []
    else
      var prev := SanitizedKeys(es[..|es| - 1]);
      var last := es[|es| - 1];
      if last.0 == [] then prev else prev + [Sanitize(last.0)]
  }

  predicate Distinct(ks: seq<string>) {
    forall i, j | 0 <= i < j < |ks| :: ks[i] != ks[j]
  }

  /** Every key of a cleaned row comes from a non-empty key of the original. */
  lemma {:induction false} SanitizedKeysFrom(es: seq<Entry>, k: string)
    ensures k in SanitizedKeys(es) <==> exists j | 0 <= j < |es| :: FilesUnder(es[j], k)
    decreases |es|
  {
    if es != [] {
      var init := es[..|es| - 1];
      SanitizedKeysFrom(init, k);
      assert forall j | 0 <= j < |init| :: init[j] == es[j];
    }
  }

  /** When no two keys collide, the cleaned row's columns are the sanitised keys in order. */
  lemma {:induction false} CleanRowKeys(es: seq<Entry>)
    requires Distinct(SanitizedKeys(es))
    ensures Keys(CleanRow(es)) == SanitizedKeys(es)
    decreases |es|
  {
    if es != [] {
      var init := es[..|es| - 1];
      var last := es[|es| - 1];
      var ks := SanitizedKeys(init);
      if last.0 == [] {
        CleanRowKeys(init);
      } else {
        var k := Sanitize(last.0);
        DistinctSnoc(ks, k);
        CleanRowKeys(init);
        PutKeys(CleanRow(init), k, CleanValue(last.1));
      }
    }
  }

  /** A distinct list with one more key: the rest is distinct and lacks that key. */
  lemma DistinctSnoc(ks: seq<string>, k: string)
    requires Distinct(ks + [k])
    ensures Distinct(ks) && k !in ks
  {
    var all := ks + [k];
    assert forall i | 0 <= i < |ks| :: all[i] == ks[i];
    assert all[|ks|] == k;
  }

  /** No column of a cleaned row has an empty name. */
  lemma NoEmptyColumn(es: seq<Entry>)
    ensures Lookup(CleanRow(es), []) == None
  {
    assert forall j | 0 <= j < |es| :: !FilesUnder(es[j], []);
    LastUnderNone(es, []);
    CleanRowLookup(es, []);
  }

  /** The inner loop's body: `clean_row[sanitize(key)] = cleaned value`, skipping an empty key. */
  method AddEntry(ghost row: seq<Entry>, j: nat, acc: seq<Entry>, e: Entry) returns (r: seq<Entry>)
    requires j < |row| && e == row[j] && acc == CleanRow(row[..j])
    ensures r == CleanRow(row[..j + 1])
  {
    CleanRowStep(row, j);
    var (key, val) := e;
    if key != [] {
      r := Put(acc, Sanitize(key), CleanValue(val));
    } else {
      r := acc;
    }
  }

  /** The inner loop over one row's entries, building a fresh dictionary. */
  method CleanOneRow(row: seq<Entry>) returns (cleanRow: seq<Entry>)
    ensures cleanRow == CleanRow(row)
  {
    cleanRow := [];
    var j := 0;
    while j < |row|
      invariant 0 <= j <= |row|
      invariant cleanRow == CleanRow(row[..j])
    {
      cleanRow := AddEntry(row, j, cleanRow, row[j]);
      j := j + 1;
    }
    assert row[..|row|] == row;
  }

  /** The clean-rows loop: each row cleaned entry by entry into a fresh dictionary. */
  method CleanRows(rows: seq<Row>) returns (clean: seq<seq<Entry>>)
    ensures |clean| == |rows|
    ensures forall i | 0 <= i < |rows| :: clean[i] == CleanRow(rows[i])
  {
    clean := [];
    var i := 0;
    while i < |rows|
      invariant 0 <= i <= |rows|
      invariant |clean| == i
      invariant forall m | 0 <= m < i :: clean[m] == CleanRow(rows[m])
    {
      var cleanRow := CleanOneRow(rows[i]);
      clean := clean + [cleanRow];
      i := i + 1;
    }
  }

  // ---------------------------------------------------------------------
  // One sheet

  /** What the sync does with one sheet, short of talking to the database. */
  datatype TablePlan =
    | Skipped(table: string)
    | Planned(table: string, columns: seq<(string, SqlType)>, rows: seq<seq<Entry>>)

  /**
   * The body of the loop over sheets: the table name is sanitised; an empty
   * sheet is skipped; otherwise the table gets one column per key of the
   * first row, named by its sanitised key and typed by the column's level,
   * and receives every row cleaned.
   */
  method PlanTable(name: string, rows: seq<Row>) returns (plan: TablePlan)
    ensures plan.table == Sanitize(name)
    ensures plan.Skipped? <==> rows == []
    ensures plan.Planned? ==>
      && |plan.columns| == |rows[0]|
      && (forall k | 0 <= k < |rows[0]| ::
            plan.columns[k] == (Sanitize(rows[0][k].0), TypeHierarchy[ValueColumnLevel(rows, rows[0][k].0)]))
      && |plan.rows| == |rows|
      && (forall i | 0 <= i < |rows| :: plan.rows[i] == CleanRow(rows[i]))
  {
    var table := Sanitize(name);
    if rows == [] {
      return Skipped(table);
    }
    var types := GetColumnTypes(rows);
    var columns := seq(|types|, k requires 0 <= k < |types| => (Sanitize(types[k].0), types[k].1));
    var clean := CleanRows(rows);
    plan := Planned(table, columns, clean);
  }
}
