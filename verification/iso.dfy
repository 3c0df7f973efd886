/**
 * The ISO 8601 / RFC 3339 style pattern both temporal helpers try first:
 *
 *   ^\d{4}-\d{2}-\d{2}([ T]\d{2}:\d{2}(:\d{2})?(\.\d+)?(Z|[+-]\d{2}:?\d{2})?)?$
 *
 * written as a grammar. Each optional group starts with a character no
 * later part can start with, and `\d+` is followed by a non-digit or the
 * end, so committing to the first choice accepts exactly what the regular
 * expression accepts. The pattern only checks shapes: "2024-13-45" matches.
 */
module Iso {
  import opened Text

  /** `\d{4}-\d{2}-\d{2}` */
  predicate IsIsoDate(d: string) {
    && |d| == 10
    && IsDigit(d[0]) && IsDigit(d[1]) && IsDigit(d[2]) && IsDigit(d[3])
    && d[4] == '-' && IsDigit(d[5]) && IsDigit(d[6])
    && d[7] == '-' && IsDigit(d[8]) && IsDigit(d[9])
  }

  /** `(Z|[+-]\d{2}:?\d{2})?$` */
  predicate IsZone(z: string) {
    || z == []
    || z == "Z"
    || (&& (|z| == 5 || |z| == 6)
        && (z[0] == '+' || z[0] == '-')
        && IsDigit(z[1]) && IsDigit(z[2])
        && if |z| == 5 then IsDigit(z[3]) && IsDigit(z[4])
           else z[3] == ':' && IsDigit(z[4]) && IsDigit(z[5]))
  }

  /** `(\.\d+)?` followed by the zone. */
  predicate IsFractionZone(f: string) {
    if |f| >= 2 && f[0] == '.' && IsDigit(f[1]) then IsZone(f[1 + LeadingDigits(f[1..])..])
    else IsZone(f)
  }

  /** `(:\d{2})?` followed by the fraction and the zone. */
  predicate IsSecondsOn(x: string) {
    if |x| >= 3 && x[0] == ':' && IsDigit(x[1]) && IsDigit(x[2]) then IsFractionZone(x[3..])
    else IsFractionZone(x)
  }

  /** The optional time of day: `([ T]\d{2}:\d{2}...)?$` */
  predicate IsTimePart(r: string) {
    || r == []
    || (&& |r| >= 6
        && (r[0] == ' ' || r[0] == 'T')
        && IsDigit(r[1]) && IsDigit(r[2]) && r[3] == ':' && IsDigit(r[4]) && IsDigit(r[5])
        && IsSecondsOn(r[6..]))
  }

  /** The whole pattern, anchored at both ends. */
  predicate IsIso(t: string) {
    |t| >= 10 && IsIsoDate(t[..10]) && IsTimePart(t[10..])
  }

  // ---------------------------------------------------------------------
  // Which characters a match can contain

  /** Characters the pattern can match outside the date/time separator. */
  predicate IsoChar(c: char) {
    IsDigit(c) || c == '-' || c == ':' || c == '.' || c == 'Z' || c == '+'
  }

  predicate IsoChars(s: string) {
    forall i | 0 <= i < |s| :: IsoChar(s[i])
  }

  lemma ZoneChars(z: string)
    requires IsZone(z)
    ensures IsoChars(z)
  {
  }

  lemma FractionZoneChars(f: string)
    requires IsFractionZone(f)
    ensures IsoChars(f)
  {
    if |f| >= 2 && f[0] == '.' && IsDigit(f[1]) {
      var n := LeadingDigits(f[1..]);
      ZoneChars(f[1 + n..]);
      assert forall i | 1 <= i < 1 + n :: f[i] == f[1..][..n][i - 1];
      assert forall i | 1 + n <= i < |f| :: f[i] == f[1 + n..][i - 1 - n];
    } else {
      ZoneChars(f);
    }
  }

  lemma SecondsOnChars(x: string)
    requires IsSecondsOn(x)
    ensures IsoChars(x)
  {
    if |x| >= 3 && x[0] == ':' && IsDigit(x[1]) && IsDigit(x[2]) {
      FractionZoneChars(x[3..]);
      assert forall i | 3 <= i < |x| :: x[i] == x[3..][i - 3];
    } else {
      FractionZoneChars(x);
    }
  }

  /**
   * A match holds no whitespace except possibly the date/time separator
   * at index 10, and never a 'T' before it.
   */
  lemma IsoShape(t: string)
    requires IsIso(t)
    ensures forall i | 0 <= i < |t| && i != 10 :: IsoChar(t[i])
    ensures forall i | 0 <= i < 10 :: t[i] != 'T' && t[i] != ':'
  {
    assert forall i | 0 <= i < 10 :: t[i] == t[..10][i];
    var r := t[10..];
    if r != [] {
      SecondsOnChars(r[6..]);
      assert forall i | 16 <= i < |t| :: t[i] == r[6..][i - 16];
      assert forall i | 11 <= i < 16 :: t[i] == r[i - 10];
    }
  }

  /** A match contains 'T' or ':' exactly when it has a time of day. */
  lemma TimeMarker(t: string)
    requires IsIso(t)
    ensures ('T' in t || ':' in t) <==> |t| > 10
  {
    IsoShape(t);
    if |t| > 10 {
      assert t[13] == t[10..][3] == ':';
    } else {
      assert forall i | 0 <= i < |t| :: t[i] != 'T' && t[i] != ':';
    }
  }

  /** A match neither starts nor ends with whitespace. */
  lemma IsoTrimmed(t: string)
    requires IsIso(t)
    ensures Trimmed(t)
  {
    IsoShape(t);
    assert IsoChar(t[|t| - 1]) by {
      if |t| - 1 == 10 {
        assert false;
      }
    }
  }

  /** The date part of a match is itself a match. */
  lemma DatePrefix(t: string)
    requires IsIso(t)
    ensures IsIso(t[..10]) && Trimmed(t[..10])
  {
    assert t[..10][..10] == t[..10];
    assert t[..10][10..] == [];
    IsoTrimmed(t[..10]);
  }

  /** Turning every blank into 'T' keeps a match a match, of the same length. */
  lemma BlanksToT(t: string)
    requires IsIso(t)
    ensures IsIso(Replace(t, " ", "T"))
    ensures ' ' !in Replace(t, " ", "T")
    ensures Trimmed(Replace(t, " ", "T"))
  {
    ReplaceChar(t, ' ', 'T');
    var u := Replace(t, " ", "T");
    IsoShape(t);
    assert forall i | 0 <= i < |t| && i != 10 :: u[i] == t[i];
    assert u[..10] == t[..10];
    if |t| > 10 {
      assert u[10..][6..] == t[10..][6..];
      assert forall i | 1 <= i < 6 :: u[10..][i] == t[10..][i];
      assert u[10] == 'T';
    } else {
      assert u[10..] == [];
    }
    IsoTrimmed(u);
  }
}
