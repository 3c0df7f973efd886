/**
 * `datetime.strptime` for the handful of formats the engine tries, and
 * `datetime.isoformat(timespec="seconds")`.
 *
 * A format is a list of directives. Each numeric directive reads the
 * maximal run of digits at the current position and accepts it when its
 * width and value fit the directive's regular expression in CPython's
 * `_strptime`: `%Y` four digits, `%m` 1-12, `%d` 1-31 (also a blank
 * followed by one non-zero digit), `%H` 0-23, `%M` 0-59, `%S` 0-61, each
 * at most two digits wide. Every numeric directive of these formats is
 * followed by a literal, a blank or the end of the text, never by a digit,
 * so reading the maximal run agrees with the regular expression's
 * backtracking. A blank in the format matches one or more whitespace
 * characters; literals match ignoring case. The whole text must be
 * consumed, and the fields read must then form a real date-time
 * (`datetime` rejects year 0, day 31 of a 30-day month, second 60 or 61).
 */
module Strptime {
  import opened Wrappers
  import opened Text
  import Calendar

  datatype Directive =
    | Year          // %Y
    | Month         // %m
    | Day           // %d
    | Hour          // %H
    | Minute        // %M
    | Second        // %S
    | Lit(c: char)  // a literal character
    | Space         // a blank in the format

  type Format = seq<Directive>

  /** The fields of a `datetime` (no sub-second part: none of the formats reads one). */
  datatype Stamp = Stamp(year: int, month: int, day: int, hour: int, minute: int, second: int)

  /** What `strptime` assumes for a field the format does not mention. */
  const Defaults := Stamp(1900, 1, 1, 0, 0, 0)

  predicate IsField(d: Directive) {
    !d.Lit? && !d.Space?
  }

  /** The values the directive's regular expression admits. */
  predicate InRange(d: Directive, v: int) {
    match d
    case Year => 0 <= v <= 9999
    case Month => 1 <= v <= 12
    case Day => 1 <= v <= 31
    case Hour => 0 <= v <= 23
    case Minute => 0 <= v <= 59
    case Second => 0 <= v <= 61
    case _ => false
  }

  /** Reads one numeric directive at the start of `s`: how many characters, and the value. */
  function ReadField(d: Directive, s: string): (r: Option<(nat, int)>)
    requires IsField(d)
    ensures r.Some? ==> 0 < r.value.0 <= |s| && InRange(d, r.value.1)
  {
    if d == Day && s != [] && s[0] == ' ' then
      if |s| >= 2 && '1' <= s[1] <= '9' && LeadingDigits(s[1..]) == 1 then Some((2, DigitValue(s[1])))
      else None
    else
      var n := LeadingDigits(s);
      if (if d == Year then n == 4 else 1 <= n <= 2) && InRange(d, DigitsValue(s[..n])) then
        Some((n, DigitsValue(s[..n])))
      else None
  }

  function SetField(st: Stamp, d: Directive, v: int): Stamp {
    match d
    case Year => st.(year := v)
    case Month => st.(month := v)
    case Day => st.(day := v)
    case Hour => st.(hour := v)
    case Minute => st.(minute := v)
    case Second => st.(second := v)
    case _ => st
  }

  /**
   * Matches the whole of `s` against `fmt` (the compiled regular expression
   * followed by the "unconverted data remains" check), filling in `acc`.
   */
  function Scan(fmt: Format, s: string, acc: Stamp): Option<Stamp>
    decreases |fmt|
  {
    if fmt == [] then
      if s == [] then Some(acc) else None
    else
      match fmt[0]
      case Lit(c) =>
        if s != [] && Lower(s[0]) == Lower(c) then Scan(fmt[1..], s[1..], acc) else None
      case Space =>
        var n := LeadingSpaces(s);
        if n == 0 then None else Scan(fmt[1..], s[n..], acc)
      case _ =>
        match ReadField(fmt[0], s)
        case None => None
        case Some((n, v)) => Scan(fmt[1..], s[n..], SetField(acc, fmt[0], v))
  }

  /** The checks `datetime(...)` makes on its arguments. */
  predicate Valid(st: Stamp) {
    && 1 <= st.year <= 9999
    && 1 <= st.month <= 12
    && 1 <= st.day <= Calendar.DaysInMonth(st.year, st.month)
    && 0 <= st.hour <= 23
    && 0 <= st.minute <= 59
    && 0 <= st.second <= 59
  }

  /** `datetime.strptime(s, fmt)`, with None where it raises `ValueError`. */
  function Parse(fmt: Format, s: string): (r: Option<Stamp>)
    ensures r.Some? ==> Valid(r.value)
  {
    match Scan(fmt, s, Defaults)
    case Some(st) => if Valid(st) then Some(st) else None
    case None => None
  }

  /**
   * The `for fmt in ...: try: strptime(...)` loop: the index of the first
   * format that parses `s`, with the date-time it read.
   */
  function FirstParse(fmts: seq<Format>, s: string): (r: Option<(nat, Stamp)>)
    ensures r.Some? ==> r.value.0 < |fmts| && Parse(fmts[r.value.0], s) == Some(r.value.1)
    ensures r.Some? ==> forall j | 0 <= j < r.value.0 :: Parse(fmts[j], s).None?
    ensures r.None? <==> forall j | 0 <= j < |fmts| :: Parse(fmts[j], s).None?
  {
    if fmts == [] then None
    else
      match Parse(fmts[0], s)
      case Some(st) => Some((0, st))
      case None =>
        match FirstParse(fmts[1..], s)
        case Some((i, st)) => Some((i + 1, st))
        case None => None
  }

  // ---------------------------------------------------------------------
  // The formats, in the order the source tries them

  const DateYMD: Format := [Year, Lit('-'), Month, Lit('-'), Day]       // %Y-%m-%d
  const DateDMY: Format := [Day, Lit('/'), Month, Lit('/'), Year]       // %d/%m/%Y
  const DateMDY: Format := [Month, Lit('/'), Day, Lit('/'), Year]       // %m/%d/%Y
  const TimeHMS: Format := [Hour, Lit(':'), Minute, Lit(':'), Second]   // %H:%M:%S
  const TimeHM: Format := [Hour, Lit(':'), Minute]                      // %H:%M

  /** "%Y-%m-%dT%H:%M:%S", also the shape `isoformat(timespec="seconds")` writes. */
  const IsoSeconds: Format := DateYMD + [Lit('T')] + TimeHMS

  const DateFormats: seq<Format> := [DateYMD, DateDMY, DateMDY]

  const DatetimeFormats: seq<Format> := [
    DateYMD + [Space] + TimeHMS,
    IsoSeconds,
    DateYMD + [Space] + TimeHM,
    DateDMY + [Space] + TimeHMS,
    DateMDY + [Space] + TimeHMS,
    DateDMY + [Space] + TimeHM,
    DateMDY + [Space] + TimeHM
  ]

  // ---------------------------------------------------------------------
  // isoformat

  function Pad2(n: int): (r: string)
    requires 0 <= n <= 99
    ensures |r| == 2 && AllDigits(r) && DigitsValue(r) == n
  {
    var r := [DigitChar(n / 10), DigitChar(n % 10)];
    DigitsValueOfTwo(r);
    r
  }

  function Pad4(n: int): (r: string)
    requires 0 <= n <= 9999
    ensures |r| == 4 && AllDigits(r) && DigitsValue(r) == n
  {
    var hi := Pad2(n / 100);
    var lo := Pad2(n % 100);
    var r := hi + lo;
    assert r[..3] == hi + [lo[0]] && r[..3][..2] == hi;
    DigitsValueOfTwo(lo);
    assert DigitsValue(r[..3]) == DigitsValue(hi) * 10 + DigitValue(lo[0]);
    r
  }

  lemma DigitsValueOfTwo(r: string)
    requires |r| == 2 && AllDigits(r)
    ensures DigitsValue(r) == DigitValue(r[0]) * 10 + DigitValue(r[1])
  {
    assert r[..1] == [r[0]] && r[..1][..0] == [];
    assert DigitsValue(r[..1]) == DigitValue(r[0]);
  }

  /** `dt.isoformat(timespec="seconds")`: YYYY-MM-DDTHH:MM:SS, zero-padded, no zone. */
  function IsoFormat(st: Stamp): (r: string)
    requires Valid(st)
    ensures |r| == 19
  {
    Pad4(st.year) + ("-" + (Pad2(st.month) + ("-" + (Pad2(st.day) + ("T"
      + (Pad2(st.hour) + (":" + (Pad2(st.minute) + (":" + Pad2(st.second))))))))))
  }

  // ---------------------------------------------------------------------
  // Round trip of isoformat through "%Y-%m-%dT%H:%M:%S"

  lemma ScanLit(c: char, rest: Format, tail: string, acc: Stamp)
    ensures Scan([Lit(c)] + rest, [c] + tail, acc) == Scan(rest, tail, acc)
  {
    assert ([Lit(c)] + rest)[1..] == rest;
    assert ([c] + tail)[1..] == tail;
  }

  lemma ScanDigits(d: Directive, rest: Format, digits: string, tail: string, acc: Stamp)
    requires IsField(d)
    requires AllDigits(digits) && |digits| == (if d == Year then 4 else 2)
    requires InRange(d, DigitsValue(digits))
    requires tail == [] || !IsDigit(tail[0])
    ensures Scan([d] + rest, digits + tail, acc) == Scan(rest, tail, SetField(acc, d, DigitsValue(digits)))
  {
    var s := digits + tail;
    LeadingDigitsOfRun(digits, tail);
    assert s[..|digits|] == digits;
    assert s[|digits|..] == tail;
    assert ([d] + rest)[1..] == rest;
    assert ReadField(d, s) == Some((|digits|, DigitsValue(digits)));
  }

  /** A field followed by a literal, read in one go. */
  lemma ScanPair(d: Directive, c: char, rest: Format, digits: string, tail: string, acc: Stamp)
    requires IsField(d) && !IsDigit(c)
    requires AllDigits(digits) && |digits| == (if d == Year then 4 else 2)
    requires InRange(d, DigitsValue(digits))
    ensures Scan([d, Lit(c)] + rest, digits + ([c] + tail), acc)
         == Scan(rest, tail, SetField(acc, d, DigitsValue(digits)))
  {
    assert [d, Lit(c)] + rest == [d] + ([Lit(c)] + rest);
    ScanDigits(d, [Lit(c)] + rest, digits, [c] + tail, acc);
    ScanLit(c, rest, tail, SetField(acc, d, DigitsValue(digits)));
  }

  /** The time of day `isoformat` writes, read by "%H:%M:%S". */
  lemma ScanTime(st: Stamp, acc: Stamp)
    requires Valid(st)
    ensures Scan([Hour, Lit(':'), Minute, Lit(':'), Second],
                 Pad2(st.hour) + (":" + (Pad2(st.minute) + (":" + Pad2(st.second)))), acc)
         == Some(acc.(hour := st.hour, minute := st.minute, second := st.second))
  {
    var f5: Format := [Second];
    var f4: Format := [Minute, Lit(':')] + f5;
    assert [Hour, Lit(':')] + f4 == [Hour, Lit(':'), Minute, Lit(':'), Second];
    var s5 := Pad2(st.second);
    var s4 := ":" + s5;
    var a4 := acc.(hour := st.hour);
    var a5 := a4.(minute := st.minute);
    ScanPair(Hour, ':', f4, Pad2(st.hour), Pad2(st.minute) + s4, acc);
    ScanPair(Minute, ':', f5, Pad2(st.minute), s5, a4);
    assert s5 + [] == s5;
    ScanDigits(Second, [], s5, [], a5);
  }

  /** What `isoformat` writes, `strptime` with "%Y-%m-%dT%H:%M:%S" reads back unchanged. */
  lemma IsoFormatRoundTrip(st: Stamp)
    requires Valid(st)
    ensures Parse(IsoSeconds, IsoFormat(st)) == Some(st)
  {
    var f3: Format := [Hour, Lit(':'), Minute, Lit(':'), Second];
    var f2: Format := [Day, Lit('T')] + f3;
    var f1: Format := [Month, Lit('-')] + f2;
    var f0: Format := [Year, Lit('-')] + f1;
    assert f0 == IsoSeconds;
    var s3 := ":" + (Pad2(st.minute) + (":" + Pad2(st.second)));
    var s2 := "T" + (Pad2(st.hour) + s3);
    var s1 := "-" + (Pad2(st.day) + s2);
    var s0 := "-" + (Pad2(st.month) + s1);
    assert Pad4(st.year) + s0 == IsoFormat(st);
    var a1 := Defaults.(year := st.year);
    var a2 := a1.(month := st.month);
    var a3 := a2.(day := st.day);
    ScanPair(Year, '-', f1, Pad4(st.year), Pad2(st.month) + s1, Defaults);
    ScanPair(Month, '-', f2, Pad2(st.month), Pad2(st.day) + s2, a1);
    ScanPair(Day, 'T', f3, Pad2(st.day), Pad2(st.hour) + s3, a2);
    ScanTime(st, a3);
  }

  // ---------------------------------------------------------------------
  // Print then parse, for every format

  /** The value `st` holds for a numeric directive. */
  function FieldOf(st: Stamp, d: Directive): int {
    match d
    case Year => st.year
    case Month => st.month
    case Day => st.day
    case Hour => st.hour
    case Minute => st.minute
    case Second => st.second
    case _ => 0
  }

  /** What `Write` puts down for one directive: a zero-padded field, a literal, or one blank. */
  function Piece(d: Directive, st: Stamp): (r: string)
    requires Valid(st)
    ensures r != []
    ensures IsField(d) ==> AllDigits(r) && |r| == (if d == Year then 4 else 2) && DigitsValue(r) == FieldOf(st, d)
    ensures d == Space ==> r == " "
    ensures d.Lit? ==> r == [d.c]
  {
    match d
    case Year => Pad4(st.year)
    case Lit(c) => [c]
    case Space => " "
    case _ => Pad2(FieldOf(st, d))
  }

  /**
   * Writes `st` in `fmt` with every field zero-padded ("%Y" to four
   * digits), the text `strptime` inverts. It agrees with `st.strftime(fmt)`
   * for years from 1000 on; the C library's "%Y" does not pad smaller years.
   */
  function Write(fmt: Format, st: Stamp): (r: string)
    requires Valid(st)
    ensures fmt != [] ==> r == Piece(fmt[0], st) + Write(fmt[1..], st)
    decreases |fmt|
  {
    if fmt == [] then [] else Piece(fmt[0], st) + Write(fmt[1..], st)
  }

  /** `acc` with every field `fmt` mentions taken from `st`. */
  function Fill(fmt: Format, st: Stamp, acc: Stamp): Stamp
    decreases |fmt|
  {
    if fmt == [] then acc else Fill(fmt[1..], st, SetField(acc, fmt[0], FieldOf(st, fmt[0])))
  }

  /** A field's slot holds `st`'s value exactly when the format mentions the field. */
  lemma {:induction false} FillFields(fmt: Format, st: Stamp, acc: Stamp)
    ensures Fill(fmt, st, acc) == Stamp(
      if Year in fmt then st.year else acc.year,
      if Month in fmt then st.month else acc.month,
      if Day in fmt then st.day else acc.day,
      if Hour in fmt then st.hour else acc.hour,
      if Minute in fmt then st.minute else acc.minute,
      if Second in fmt then st.second else acc.second)
    decreases |fmt|
  {
    if fmt != [] {
      FillFields(fmt[1..], st, SetField(acc, fmt[0], FieldOf(st, fmt[0])));
      assert forall d :: d in fmt <==> d == fmt[0] || d in fmt[1..] by {
        assert fmt == [fmt[0]] + fmt[1..];
      }
    }
  }

  /** `b` may follow `a`: a field ends at a blank or a non-digit literal, and a blank is followed by a field. */
  predicate Link(a: Directive, b: Directive) {
    && (IsField(a) ==> b == Space || (b.Lit? && !IsDigit(b.c)))
    && (a == Space ==> IsField(b))
  }

  /** Every neighbouring pair links, so a written field ends where the next piece starts. */
  predicate Separated(fmt: Format)
    decreases |fmt|
  {
    |fmt| < 2 || (Link(fmt[0], fmt[1]) && Separated(fmt[1..]))
  }

  /** Scanning what a separated format writes fills in exactly the fields it wrote. */
  lemma {:induction false} WriteScan(fmt: Format, st: Stamp, acc: Stamp)
    requires Valid(st) && Separated(fmt)
    ensures Scan(fmt, Write(fmt, st), acc) == Some(Fill(fmt, st, acc))
    decreases |fmt|
  {
    if fmt != [] {
      var d, rest := fmt[0], fmt[1..];
      assert fmt == [d] + rest;
      assert rest != [] ==> rest[0] == fmt[1];
      WriteScan(rest, st, SetField(acc, d, FieldOf(st, d)));
      match d
      case Lit(c) => WriteScanLit(c, rest, st, acc);
      case Space => WriteScanSpace(rest, st, acc);
      case _ => WriteScanField(d, rest, st, acc);
    }
  }

  lemma WriteScanLit(c: char, rest: Format, st: Stamp, acc: Stamp)
    requires Valid(st)
    ensures Scan([Lit(c)] + rest, Write([Lit(c)] + rest, st), acc) == Scan(rest, Write(rest, st), acc)
  {
    assert ([Lit(c)] + rest)[1..] == rest;
    ScanLit(c, rest, Write(rest, st), acc);
  }

  lemma WriteScanSpace(rest: Format, st: Stamp, acc: Stamp)
    requires Valid(st) && (rest == [] || IsField(rest[0]))
    ensures Scan([Space] + rest, Write([Space] + rest, st), acc) == Scan(rest, Write(rest, st), acc)
  {
    var f := [Space] + rest;
    var tail := Write(rest, st);
    var s := " " + tail;
    assert f[1..] == rest && f[0] == Space;
    assert Write(f, st) == s;
    assert s[1..] == tail;
    assert LeadingSpaces(tail) == 0 by {
      assert tail != [] ==> IsDigit(tail[0]);
    }
    assert LeadingSpaces(s) == 1;
  }

  lemma WriteScanField(d: Directive, rest: Format, st: Stamp, acc: Stamp)
    requires Valid(st) && IsField(d)
    requires rest == [] || rest[0] == Space || (rest[0].Lit? && !IsDigit(rest[0].c))
    ensures Scan([d] + rest, Write([d] + rest, st), acc)
         == Scan(rest, Write(rest, st), SetField(acc, d, FieldOf(st, d)))
  {
    var tail := Write(rest, st);
    assert ([d] + rest)[1..] == rest;
    assert ([d] + rest)[0] == d;
    assert tail != [] ==> !IsDigit(tail[0]);
    ScanDigits(d, rest, Piece(d, st), tail, acc);
  }

  /** `strptime(Write(fmt, st), fmt)` gives back the fields the format mentions. */
  lemma ParseWritten(fmt: Format, st: Stamp)
    requires Valid(st) && Separated(fmt) && Valid(Fill(fmt, st, Defaults))
    ensures Parse(fmt, Write(fmt, st)) == Some(Fill(fmt, st, Defaults))
  {
    WriteScan(fmt, st, Defaults);
  }

  /**
   * A format that mentions the date fields reads back what it wrote; a time
   * field it does not mention reads as 0.
   */
  lemma FormatRead(fmt: Format, st: Stamp)
    requires Valid(st) && Separated(fmt)
    requires Year in fmt && Month in fmt && Day in fmt
    requires Hour in fmt || st.hour == 0
    requires Minute in fmt || st.minute == 0
    requires Second in fmt || st.second == 0
    ensures Parse(fmt, Write(fmt, st)) == Some(st)
  {
    FillFields(fmt, st, Defaults);
    ParseWritten(fmt, st);
  }

  /** The format is separated and mentions the three date fields, and no seconds. */
  predicate ReadsDate(fmt: Format) {
    Separated(fmt) && Year in fmt && Month in fmt && Day in fmt && Second !in fmt
  }

  lemma ReadsDateYMD()
    ensures ReadsDate(DateYMD) && IsField(DateYMD[|DateYMD| - 1])
  {
  }

  lemma ReadsDateDMY()
    ensures ReadsDate(DateDMY) && IsField(DateDMY[|DateDMY| - 1])
  {
  }

  lemma ReadsDateMDY()
    ensures ReadsDate(DateMDY) && IsField(DateMDY[|DateMDY| - 1])
  {
  }

  /** A date written in any date format reads back as that date, at midnight. */
  lemma DateFormatsRead(i: nat, st: Stamp)
    requires i < |DateFormats| && Valid(st)
    requires st.hour == 0 && st.minute == 0 && st.second == 0
    ensures Parse(DateFormats[i], Write(DateFormats[i], st)) == Some(st)
  {
    match i
    case 0 => ReadsDateYMD(); FormatRead(DateYMD, st);
    case 1 => ReadsDateDMY(); FormatRead(DateDMY, st);
    case 2 => ReadsDateMDY(); FormatRead(DateMDY, st);
  }

  /** The format is separated, mentions hour and minute, and starts with a field. */
  predicate ReadsTime(fmt: Format) {
    fmt != [] && IsField(fmt[0]) && Separated(fmt) && Hour in fmt && Minute in fmt
  }

  lemma ReadsTimeHMS()
    ensures ReadsTime(TimeHMS) && Second in TimeHMS
  {
  }

  lemma ReadsTimeHM()
    ensures ReadsTime(TimeHM) && Second !in TimeHM
  {
  }

  /**
   * A date format and a time format joined by a space or a non-digit
   * literal read back whatever date-time was written with them.
   */
  lemma JoinRead(a: Format, x: Directive, b: Format, st: Stamp)
    requires ReadsDate(a) && a != [] && IsField(a[|a| - 1]) && ReadsTime(b)
    requires x == Space || (x.Lit? && !IsDigit(x.c))
    requires Valid(st) && (Second !in a + [x] + b ==> st.second == 0)
    ensures Parse(a + [x] + b, Write(a + [x] + b, st)) == Some(st)
  {
    var fmt := a + [x] + b;
    SeparatedJoin(a, x, b);
    assert Year in a && Month in a && Day in a && Second !in a;
    assert Hour in b && Minute in b;
    assert x != Second;
    FormatRead(fmt, st);
  }

  /**
   * A date-time written in any date-time format reads back as that
   * date-time; a format without "%S" reads the seconds as 0.
   */
  lemma DatetimeFormatsRead(i: nat, st: Stamp)
    requires i < |DatetimeFormats| && Valid(st)
    requires Second !in DatetimeFormats[i] ==> st.second == 0
    ensures Parse(DatetimeFormats[i], Write(DatetimeFormats[i], st)) == Some(st)
  {
    var d, x, t := DatetimeFormatParts(i);
    JoinRead(d, x, t, st);
  }

  /** Each date-time format is a date format, a separating directive and a time format. */
  lemma DatetimeFormatParts(i: nat) returns (a: Format, x: Directive, b: Format)
    requires i < |DatetimeFormats|
    ensures DatetimeFormats[i] == a + [x] + b
    ensures ReadsDate(a) && a != [] && IsField(a[|a| - 1]) && ReadsTime(b)
    ensures x == Space || (x.Lit? && !IsDigit(x.c))
  {
    match i
    case 0 => a, x, b := DateYMD, Space, TimeHMS; ReadsDateYMD(); ReadsTimeHMS();
    case 1 => a, x, b := DateYMD, Lit('T'), TimeHMS; ReadsDateYMD(); ReadsTimeHMS();
    case 2 => a, x, b := DateYMD, Space, TimeHM; ReadsDateYMD(); ReadsTimeHM();
    case 3 => a, x, b := DateDMY, Space, TimeHMS; ReadsDateDMY(); ReadsTimeHMS();
    case 4 => a, x, b := DateMDY, Space, TimeHMS; ReadsDateMDY(); ReadsTimeHMS();
    case 5 => a, x, b := DateDMY, Space, TimeHM; ReadsDateDMY(); ReadsTimeHM();
    case 6 => a, x, b := DateMDY, Space, TimeHM; ReadsDateMDY(); ReadsTimeHM();
  }

  // ---------------------------------------------------------------------
  // Which date format wins

  /** Text that opens with a two-digit field is not read by "%Y-%m-%d". */
  lemma YearFirstRejects(d: Directive, rest: Format, st: Stamp)
    requires Valid(st) && IsField(d) && d != Year
    requires rest != [] && rest[0].Lit? && !IsDigit(rest[0].c)
    ensures Parse(DateYMD, Write([d] + rest, st)).None?
  {
    var s := Write([d] + rest, st);
    var head := Piece(d, st);
    var tail := Write(rest, st);
    assert ([d] + rest)[0] == d && ([d] + rest)[1..] == rest;
    assert s == head + tail;
    assert tail[0] == rest[0].c;
    LeadingDigitsOfRun(head, tail);
    assert ReadField(Year, s).None?;
  }

  /**
   * A date written day first is read day first: "%Y-%m-%d" cannot read it
   * and "%d/%m/%Y" is tried before "%m/%d/%Y", so "01/02/2024" is 1 February.
   */
  lemma DayFirst(st: Stamp)
    requires Valid(st) && st.hour == 0 && st.minute == 0 && st.second == 0
    ensures FirstParse(DateFormats, Write(DateDMY, st)) == Some((1, st))
  {
    assert DateDMY == [Day] + DateDMY[1..];
    YearFirstRejects(Day, DateDMY[1..], st);
    DateFormatsRead(1, st);
    assert DateFormats[1..] == [DateDMY, DateMDY];
  }

  /** The text "01/02/2024" reads as 1 February 2024. */
  lemma FirstOfFebruary()
    ensures FirstParse(DateFormats, "01/02/2024") == Some((1, Stamp(2024, 2, 1, 0, 0, 0)))
  {
    var st := Stamp(2024, 2, 1, 0, 0, 0);
    assert Calendar.DaysInMonth(2024, 2) == 29;
    WrittenDayFirst(st);
    DayFirst(st);
  }

  lemma WrittenDayFirst(st: Stamp)
    requires st == Stamp(2024, 2, 1, 0, 0, 0) && Valid(st)
    ensures Write(DateDMY, st) == "01/02/2024"
  {
  }

  /** Two separated formats joined by a directive that links to both stay separated. */
  lemma {:induction false} SeparatedJoin(a: Format, x: Directive, b: Format)
    requires a != [] && b != [] && Separated(a) && Separated(b)
    requires Link(a[|a| - 1], x) && Link(x, b[0])
    ensures Separated(a + [x] + b)
    decreases |a|
  {
    var f := a + [x] + b;
    if |a| == 1 {
      assert f[1..] == [x] + b && f[0] == a[0] && f[1] == x;
      assert ([x] + b)[1..] == b;
    } else {
      SeparatedJoin(a[1..], x, b);
      assert f[1..] == a[1..] + [x] + b;
    }
  }
}
