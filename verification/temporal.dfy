/**
 * `detect_date_or_timestamp` and `normalize_datetime_value`: recognising
 * a date or a timestamp in text and rewriting it in the form PostgreSQL is
 * sent.
 */
module Temporal {
  import opened Wrappers
  import opened Text
  import opened Iso
  import opened Strptime
  import opened Cells

  /** The two answers the detector gives besides None. */
  datatype Kind = Date | Timestamp

  /** `formats[detected_type]` in `normalize_datetime_value`. */
  function FormatsFor(k: Kind): seq<Format> {
    if k == Date then DateFormats else DatetimeFormats
  }

  /** Some format of the list parses `t`. */
  predicate AnyParses(fmts: seq<Format>, t: string) {
    exists i | 0 <= i < |fmts| :: Parse(fmts[i], t).Some?
  }

  /** `detect_date_or_timestamp` on a string. */
  function DetectText(value: string): (r: Option<Kind>)
    ensures r.Some? ==> Strip(value) != []
  {
    var t := Strip(value);
    if t == [] then None
    else if IsIso(t) then
      if 'T' in t || ':' in t then Some(Timestamp) else Some(Date)
    else if FirstParse(DateFormats, t).Some? then Some(Date)
    else if FirstParse(DatetimeFormats, t).Some? then Some(Timestamp)
    else None
  }

  /**
   * What detection answers. Blank text is nothing; the ISO pattern decides
   * first, a time of day making it a timestamp; then the date formats, then
   * the date-time formats; None only when all ten `strptime` attempts fail.
   */
  lemma DetectTextMeaning(value: string)
    ensures var t := Strip(value);
      var r := DetectText(value);
      && (t == [] ==> r == None)
      && (IsIso(t) ==> r == Some(if |t| > 10 then Timestamp else Date))
      && (t != [] && !IsIso(t) ==>
            && (r == Some(Date) <==> AnyParses(DateFormats, t))
            && (r == Some(Timestamp) <==> !AnyParses(DateFormats, t) && AnyParses(DatetimeFormats, t)))
      && (r == None <==>
            t == [] || (!IsIso(t) && !AnyParses(DateFormats, t) && !AnyParses(DatetimeFormats, t)))
  {
    var t := Strip(value);
    if IsIso(t) {
      TimeMarker(t);
    }
  }

  /** `detect_date_or_timestamp` on any value: only strings can be dates. */
  function Detect(v: Scalar): (r: Option<Kind>)
    ensures !v.Str? ==> r == None
    ensures v.Str? ==> r == DetectText(v.text)
  {
    match v
    case Str(s) => DetectText(s)
    case _ => None
  }

  /** `normalize_datetime_value` on a string with a detected kind. */
  function NormalizeText(value: string, kind: Kind): (r: string)
    ensures Trimmed(r)
  {
    var t := Strip(value);
    if t == [] then t
    else if IsIso(t) then
      if kind == Date then
        DatePrefix(t);
        t[..10]
      else
        BlanksToT(t);
        Replace(t, " ", "T")
    else
      match FirstParse(FormatsFor(kind), t)
      case Some((_, st)) =>
        IsoFormatIsIso(st);
        IsoTrimmed(IsoFormat(st));
        IsoFormat(st)
      case None => t
  }

  /**
   * What normalising gives. An ISO match is cut to its date (DATE) or has
   * its blank separator turned into 'T' (TIMESTAMP), keeping any fraction or
   * zone. Otherwise the first format of the kind's list that parses decides,
   * and the result is its `isoformat(timespec="seconds")`, which reads back
   * as the same date-time; when none parses the stripped text comes back.
   */
  lemma NormalizeTextMeaning(value: string, kind: Kind)
    ensures var t := Strip(value);
      var r := NormalizeText(value, kind);
      && (t == [] ==> r == [])
      && (IsIso(t) && kind == Date ==> r == t[..10] && IsIso(r) && |r| == 10)
      && (IsIso(t) && kind == Timestamp ==>
            && IsIso(r) && |r| == |t| && ' ' !in r
            && forall i | 0 <= i < |t| :: r[i] == (if t[i] == ' ' then 'T' else t[i]))
      && (t != [] && !IsIso(t) && FirstParse(FormatsFor(kind), t).Some? ==>
            && IsIso(r) && |r| == 19 && ' ' !in r
            && Parse(IsoSeconds, r) == Some(FirstParse(FormatsFor(kind), t).value.1))
      && (t != [] && !IsIso(t) && FirstParse(FormatsFor(kind), t).None? ==> r == t)
  {
    var t := Strip(value);
    if t != [] && IsIso(t) {
      if kind == Date {
        DatePrefix(t);
      } else {
        BlanksToT(t);
        ReplaceChar(t, ' ', 'T');
      }
    } else if t != [] {
      match FirstParse(FormatsFor(kind), t)
      case Some((_, st)) =>
        IsoFormatRoundTrip(st);
        IsoFormatIsIso(st);
      case None =>
    }
  }

  /**
   * `normalize_datetime_value` on any value: a falsy kind or a value that is
   * not a string comes back as it is.
   */
  function Normalize(v: Scalar, kind: Option<Kind>): (r: Scalar)
    ensures kind.None? || !v.Str? ==> r == v
    ensures kind.Some? && v.Str? ==> r == Str(NormalizeText(v.text, kind.value))
  {
    if kind.None? || !v.Str? then v else Str(NormalizeText(v.text, kind.value))
  }

  // ---------------------------------------------------------------------
  // The rendered form

  /** `isoformat` output matches the ISO pattern, with a time of day and no blank. */
  lemma IsoFormatIsIso(st: Stamp)
    requires Valid(st)
    ensures IsIso(IsoFormat(st)) && ' ' !in IsoFormat(st)
  {
    var r := IsoFormat(st);
    var y, mo, d := Pad4(st.year), Pad2(st.month), Pad2(st.day);
    var h, mi, s := Pad2(st.hour), Pad2(st.minute), Pad2(st.second);
    assert r == y + "-" + mo + "-" + d + "T" + h + ":" + mi + ":" + s;
    assert r[..10] == y + "-" + mo + "-" + d;
    var tail := r[10..];
    assert tail == "T" + h + ":" + mi + ":" + s;
    assert tail[6..] == ":" + s;
    assert tail[6..][3..] == [];
    assert forall i | 0 <= i < |r| :: r[i] != ' ';
  }

  /** A text with no blank is left alone by `replace(" ", "T")`. */
  lemma NoBlankReplace(t: string)
    requires ' ' !in t
    ensures Replace(t, " ", "T") == t
  {
    ReplaceChar(t, ' ', 'T');
  }

  // ---------------------------------------------------------------------
  // Idempotence

  /** An ISO match with no blank is already a normalised timestamp. */
  lemma TimestampFixedPoint(u: string)
    requires IsIso(u) && ' ' !in u
    ensures NormalizeText(u, Timestamp) == u
  {
    IsoTrimmed(u);
    StripTrimmed(u);
    NoBlankReplace(u);
  }

  /** A bare ISO date is already a normalised date. */
  lemma DateFixedPoint(u: string)
    requires IsIso(u) && |u| == 10
    ensures NormalizeText(u, Date) == u
  {
    IsoTrimmed(u);
    StripTrimmed(u);
    assert u[..10] == u;
  }

  /** Stripped text no format reads comes back unchanged. */
  lemma UnreadFixedPoint(u: string, kind: Kind)
    requires Trimmed(u) && u != [] && !IsIso(u) && FirstParse(FormatsFor(kind), u).None?
    ensures NormalizeText(u, kind) == u
  {
    StripTrimmed(u);
  }

  /** Normalising a timestamp twice gives what normalising it once gave. */
  lemma {:induction false} TimestampNormalizeIdempotent(value: string)
    ensures NormalizeText(NormalizeText(value, Timestamp), Timestamp) == NormalizeText(value, Timestamp)
  {
    var t := Strip(value);
    var r := NormalizeText(value, Timestamp);
    NormalizeTextMeaning(value, Timestamp);
    if t == [] {
      StripTrimmed(r);
    } else if IsIso(t) {
      TimestampFixedPoint(r);
    } else if FirstParse(DatetimeFormats, t).Some? {
      IsoFormatIsIso(FirstParse(DatetimeFormats, t).value.1);
      TimestampFixedPoint(r);
    } else {
      UnreadFixedPoint(r, Timestamp);
    }
  }

  /**
   * For a date, normalising twice agrees with normalising once exactly when
   * the text was an ISO match or no date format reads it: a date read by a
   * `strptime` format is rendered with a midnight time of day, which the
   * second pass cuts away.
   */
  lemma {:induction false} DateNormalizeIdempotentIff(value: string)
    requires Strip(value) != []
    ensures NormalizeText(NormalizeText(value, Date), Date) == NormalizeText(value, Date)
        <==> IsIso(Strip(value)) || FirstParse(DateFormats, Strip(value)).None?
  {
    var t := Strip(value);
    var r := NormalizeText(value, Date);
    NormalizeTextMeaning(value, Date);
    if IsIso(t) {
      DateFixedPoint(r);
    } else if FirstParse(DateFormats, t).Some? {
      DateCutsRendered(r);
    } else {
      UnreadFixedPoint(r, Date);
    }
  }

  /** A rendered timestamp normalised as a date loses its time of day. */
  lemma DateCutsRendered(u: string)
    requires IsIso(u) && |u| == 19
    ensures NormalizeText(u, Date) == u[..10] != u
  {
    IsoTrimmed(u);
    StripTrimmed(u);
  }

  /** A second pass settles every date: a third pass changes nothing. */
  lemma {:induction false} DateNormalizeSettles(value: string)
    ensures var r2 := NormalizeText(NormalizeText(value, Date), Date);
      NormalizeText(r2, Date) == r2
  {
    var t := Strip(value);
    var r := NormalizeText(value, Date);
    NormalizeTextMeaning(value, Date);
    if t == [] {
      StripTrimmed(r);
    } else if IsIso(t) {
      DateFixedPoint(r);
    } else if FirstParse(DateFormats, t).Some? {
      DateCutsRendered(r);
      DatePrefix(r);
      DateFixedPoint(r[..10]);
    } else {
      UnreadFixedPoint(r, Date);
    }
  }

  // ---------------------------------------------------------------------
  // Normalising and detecting again

  /**
   * Normalising with the detected kind is recognised as the same kind
   * again, except for a date read by a `strptime` format (see
   * FixedFormatDateReadsAsTimestamp).
   */
  lemma {:induction false} NormalizeKeepsKind(value: string, k: Kind)
    requires DetectText(value) == Some(k)
    requires k == Timestamp || IsIso(Strip(value))
    ensures DetectText(NormalizeText(value, k)) == Some(k)
  {
    var t := Strip(value);
    var r := NormalizeText(value, k);
    DetectTextMeaning(value);
    NormalizeTextMeaning(value, k);
    DetectTextMeaning(r);
    StripTrimmed(r);
    if !IsIso(t) {
      assert FirstParse(DatetimeFormats, t).Some?;
    }
  }

  /**
   * A date that only a `strptime` format reads ("15/01/2024") is rendered as
   * midnight of that day ("2024-01-15T00:00:00"), which detection then
   * reports as a timestamp.
   */
  lemma {:induction false} FixedFormatDateReadsAsTimestamp(value: string)
    requires DetectText(value) == Some(Date) && !IsIso(Strip(value))
    ensures var r := NormalizeText(value, Date);
      && DetectText(r) == Some(Timestamp)
      && Parse(IsoSeconds, r).Some?
      && Parse(IsoSeconds, r).value.hour == 0
      && Parse(IsoSeconds, r).value.minute == 0
      && Parse(IsoSeconds, r).value.second == 0
  {
    var t := Strip(value);
    var r := NormalizeText(value, Date);
    DetectTextMeaning(value);
    NormalizeTextMeaning(value, Date);
    DetectTextMeaning(r);
    StripTrimmed(r);
    var p := FirstParse(DateFormats, t);
    assert p.Some?;
    DateFormatsReadNoTime(p.value.0, t);
  }

  /** The date formats never set the time of day, so it stays at midnight. */
  lemma DateFormatsReadNoTime(i: nat, t: string)
    requires i < |DateFormats| && Parse(DateFormats[i], t).Some?
    ensures Parse(DateFormats[i], t).value.hour == 0
    ensures Parse(DateFormats[i], t).value.minute == 0
    ensures Parse(DateFormats[i], t).value.second == 0
  {
    ScanKeepsTime(DateFormats[i], t, Defaults);
  }

  predicate NoTimeField(fmt: Format) {
    forall i | 0 <= i < |fmt| :: fmt[i] != Hour && fmt[i] != Minute && fmt[i] != Second
  }

  lemma {:induction false} ScanKeepsTime(fmt: Format, s: string, acc: Stamp)
    requires NoTimeField(fmt)
    requires Scan(fmt, s, acc).Some?
    ensures Scan(fmt, s, acc).value.hour == acc.hour
    ensures Scan(fmt, s, acc).value.minute == acc.minute
    ensures Scan(fmt, s, acc).value.second == acc.second
    decreases |fmt|
  {
    if fmt != [] {
      assert NoTimeField(fmt[1..]) by {
        assert forall i | 0 <= i < |fmt| - 1 :: fmt[1..][i] == fmt[i + 1];
      }
      if fmt[0].Lit? {
        ScanKeepsTime(fmt[1..], s[1..], acc);
      } else if fmt[0].Space? {
        ScanKeepsTime(fmt[1..], s[LeadingSpaces(s)..], acc);
      } else {
        var f := ReadField(fmt[0], s).value;
        ScanKeepsTime(fmt[1..], s[f.0..], SetField(acc, fmt[0], f.1));
      }
    }
  }
}
