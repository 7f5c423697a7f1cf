/** UTC clock readings as `datetime.utcnow()` returns them, and the two
    ways the scripts render them: the compact `strftime("%Y%m%dT%H%M%SZ")`
    stamp (ISO 8601 basic format) and `isoformat()`. */
module Clock {
  import opened Text

  datatype DateTime = DateTime(year: nat, month: nat, day: nat,
                               hour: nat, minute: nat, second: nat, microsecond: nat)
  {
    /** The invariant of a Python `datetime`, restricted to four-digit years. */
    predicate Valid() {
      && 1000 <= year <= 9999
      && 1 <= month <= 12
      && 1 <= day <= DaysInMonth(year, month)
      && hour < 24 && minute < 60 && second < 60
      && microsecond < 1000000
    }
  }

  /** A reading of the UTC clock. */
  type Instant = d: DateTime | d.Valid() witness DateTime(2000, 1, 1, 0, 0, 0, 0)

  predicate IsLeapYear(y: nat) {
    y % 4 == 0 && (y % 100 != 0 || y % 400 == 0)
  }

  function DaysInMonth(year: nat, month: nat): nat {
    if month == 2 then (if IsLeapYear(year) then 29 else 28)
    else if month == 4 || month == 6 || month == 9 || month == 11 then 30
    else 31
  }

  /** `t1` lies in an earlier second than `t2` (microseconds are ignored). */
  predicate SecondBefore(t1: Instant, t2: Instant) {
    t1.year < t2.year || (t1.year == t2.year &&
    (t1.month < t2.month || (t1.month == t2.month &&
    (t1.day < t2.day || (t1.day == t2.day &&
    (t1.hour < t2.hour || (t1.hour == t2.hour &&
    (t1.minute < t2.minute || (t1.minute == t2.minute &&
    t1.second < t2.second)))))))))
  }

  predicate SameSecond(t1: Instant, t2: Instant) {
    t1.year == t2.year && t1.month == t2.month && t1.day == t2.day &&
    t1.hour == t2.hour && t1.minute == t2.minute && t1.second == t2.second
  }

  /** `t.strftime("%Y%m%dT%H%M%SZ")`: sixteen characters, digits except
      for the `T` at index 8 and the `Z` at index 15. */
  function Stamp(t: Instant): (s: string)
    ensures |s| == 16 && s[8] == 'T' && s[15] == 'Z'
    ensures forall k :: 0 <= k < 16 && k != 8 && k != 15 ==> IsDigit(s[k])
  {
    Digits(t.year, 4) + (Digits(t.month, 2) + (Digits(t.day, 2) + ("T" +
      (Digits(t.hour, 2) + (Digits(t.minute, 2) + (Digits(t.second, 2) + "Z"))))))
  }

  /** One zero-padded field in front of the rest of a stamp. */
  lemma FieldOrder(x1: nat, x2: nat, w: nat, r1: string, r2: string)
    requires x1 < Pow10(w) && x2 < Pow10(w)
    ensures Less(Digits(x1, w) + r1, Digits(x2, w) + r2) <==> x1 < x2 || (x1 == x2 && Less(r1, r2))
    ensures Digits(x1, w) + r1 == Digits(x2, w) + r2 <==> x1 == x2 && r1 == r2
  {
    DigitsOrder(x1, x2, w);
    LessAppend(Digits(x1, w), Digits(x2, w), r1, r2);
  }

  /** Because every field is fixed-width, comparing stamps as strings is
      comparing the readings chronologically, to the second. */
  lemma StampOrder(t1: Instant, t2: Instant)
    ensures Less(Stamp(t1), Stamp(t2)) <==> SecondBefore(t1, t2)
    ensures Stamp(t1) == Stamp(t2) <==> SameSecond(t1, t2)
  {
    assert Pow10(2) == 100 && Pow10(4) == 10000;
    var s1, s2 := Digits(t1.second, 2) + "Z", Digits(t2.second, 2) + "Z";
    FieldOrder(t1.second, t2.second, 2, "Z", "Z");
    LessIrreflexive("Z");
    var mi1, mi2 := Digits(t1.minute, 2) + s1, Digits(t2.minute, 2) + s2;
    FieldOrder(t1.minute, t2.minute, 2, s1, s2);
    var h1, h2 := Digits(t1.hour, 2) + mi1, Digits(t2.hour, 2) + mi2;
    FieldOrder(t1.hour, t2.hour, 2, mi1, mi2);
    LessAppend("T", "T", h1, h2);
    LessIrreflexive("T");
    var d1, d2 := Digits(t1.day, 2) + ("T" + h1), Digits(t2.day, 2) + ("T" + h2);
    FieldOrder(t1.day, t2.day, 2, "T" + h1, "T" + h2);
    var m1, m2 := Digits(t1.month, 2) + d1, Digits(t2.month, 2) + d2;
    FieldOrder(t1.month, t2.month, 2, d1, d2);
    FieldOrder(t1.year, t2.year, 4, m1, m2);
  }

  /** `t.isoformat()`: `YYYY-MM-DDTHH:MM:SS`, followed by `.ffffff` only when
      the microseconds are not zero. */
  function Isoformat(t: Instant): (s: string)
    ensures |s| == (if t.microsecond == 0 then 19 else 26)
    ensures s[4] == '-' && s[7] == '-' && s[10] == 'T' && s[13] == ':' && s[16] == ':'
    ensures t.microsecond != 0 ==> s[19] == '.'
  {
    Digits(t.year, 4) + "-" + Digits(t.month, 2) + "-" + Digits(t.day, 2) + "T" +
    Digits(t.hour, 2) + ":" + Digits(t.minute, 2) + ":" + Digits(t.second, 2) +
    (if t.microsecond == 0 then "" else "." + Digits(t.microsecond, 6))
  }
}
