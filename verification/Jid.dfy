/** Job ids: a moment written with twenty digits (saltbox_core/utilities/jid.py). */
module Jid {
  import opened Wrappers

  datatype DateTime = DateTime(
    year: nat, month: nat, day: nat, hour: nat, minute: nat, second: nat, microsecond: nat)

  datatype JobId = JobId(value: nat, moment: DateTime)

  datatype JidError = NotTwentyDigits | NotADate | OutOfBounds

  const LOWER_BOUND := 19700000000000000000
  const UPPER_BOUND := 100000000000000000000

  predicate IsLeap(year: nat) {
    year % 4 == 0 && (year % 100 != 0 || year % 400 == 0)
  }

  function DaysIn(year: nat, month: nat): nat {
    if month == 2 then (if IsLeap(year) then 29 else 28)
    else if month in {4, 6, 9, 11} then 30
    else 31
  }

  predicate IsDate(d: DateTime) {
    && 1 <= d.year <= 9999 && 1 <= d.month <= 12 && 1 <= d.day <= DaysIn(d.year, d.month)
    && d.hour < 24 && d.minute < 60 && d.second < 60 && d.microsecond < 1000000
  }

  /** The order of moments: the first field that differs decides. */
  predicate IsEarlier(a: DateTime, b: DateTime) {
    if a.year != b.year then a.year < b.year
    else if a.month != b.month then a.month < b.month
    else if a.day != b.day then a.day < b.day
    else if a.hour != b.hour then a.hour < b.hour
    else if a.minute != b.minute then a.minute < b.minute
    else if a.second != b.second then a.second < b.second
    else a.microsecond < b.microsecond
  }

  // ---------- digits ----------

  predicate IsDigit(c: char) {
    '0' <= c <= '9'
  }

  predicate AreDigits(s: string) {
    forall i :: 0 <= i < |s| ==> IsDigit(s[i])
  }

  function Pow10(n: nat): nat {
    if n == 0 then 1 else 10 * Pow10(n - 1)
  }

  function Number(s: string): nat
    requires AreDigits(s)
  {
    if s == [] then 0 else 10 * Number(s[..|s| - 1]) + (s[|s| - 1] as int - '0' as int)
  }

  /** Padded with zeros to a width, as strftime and zfill do. */
  function Decimal(n: nat, width: nat): (s: string)
    ensures |s| == width && AreDigits(s)
  {
    if width == 0 then [] else Decimal(n / 10, width - 1) + [('0' as int + n % 10) as char]
  }

  lemma {:induction false} NumberOfDecimal(n: nat, width: nat)
    requires n < Pow10(width)
    ensures Number(Decimal(n, width)) == n
  {
    if width > 0 {
      NumberOfDecimal(n / 10, width - 1);
      var s := Decimal(n, width);
      assert s[..|s| - 1] == Decimal(n / 10, width - 1);
    }
  }

  lemma {:induction false} DecimalOfNumber(s: string)
    requires AreDigits(s)
    ensures Number(s) < Pow10(|s|) && Decimal(Number(s), |s|) == s
  {
    if s != [] {
      var n := |s| - 1;
      DecimalOfNumber(s[..n]);
      assert s == s[..n] + [s[n]];
      assert Number(s) / 10 == Number(s[..n]);
    }
  }

  lemma {:induction false} NumberOfConcat(s: string, t: string)
    requires AreDigits(s) && AreDigits(t)
    ensures AreDigits(s + t) && Number(s + t) == Number(s) * Pow10(|t|) + Number(t)
  {
    if t == [] {
      assert s + t == s;
    } else {
      var n := |t| - 1;
      NumberOfConcat(s, t[..n]);
      assert (s + t)[..|s + t| - 1] == s + t[..n];
      assert Number(s) * Pow10(|t|) == 10 * (Number(s) * Pow10(n));
    }
  }

  // ---------- the format ----------

  function Format(d: DateTime): (s: string)
    ensures |s| == 20 && AreDigits(s)
  {
    Decimal(d.year, 4) + Decimal(d.month, 2) + Decimal(d.day, 2) + Decimal(d.hour, 2)
    + Decimal(d.minute, 2) + Decimal(d.second, 2) + Decimal(d.microsecond, 6)
  }

  /** The groups of the pattern. */
  function Fields(s: string): DateTime
    requires |s| == 20 && AreDigits(s)
  {
    DateTime(Number(s[..4]), Number(s[4..6]), Number(s[6..8]), Number(s[8..10]),
             Number(s[10..12]), Number(s[12..14]), Number(s[14..]))
  }

  function ValueOf(d: DateTime): nat {
    (((((d.year * 100 + d.month) * 100 + d.day) * 100 + d.hour) * 100 + d.minute) * 100 + d.second) * 1000000
      + d.microsecond
  }

  /** The constructor, for a text; the pattern lets one line break follow the digits. */
  function Parse(text: string): Result<JobId, JidError> {
    var s := if |text| == 21 && text[20] == '\n' then text[..20] else text;
    if |s| != 20 || !AreDigits(s) then Err(NotTwentyDigits)
    else if !IsDate(Fields(s)) then Err(NotADate)
    else if !(LOWER_BOUND < Number(s) < UPPER_BOUND) then Err(OutOfBounds)
    else Ok(JobId(Number(s), Fields(s)))
  }

  function FromDatetime(d: DateTime): Result<JobId, JidError> {
    Parse(Format(d))
  }

  function Show(j: JobId): string {
    Decimal(j.value, 20)
  }

  // ---------- round trips and order ----------

  lemma Powers()
    ensures Pow10(2) == 100 && Pow10(4) == 10000 && Pow10(6) == 1000000 && Pow10(20) == UPPER_BOUND
  {
    assert Pow10(8) == 100000000 by { assert Pow10(7) == 10 * Pow10(6); }
    assert Pow10(14) == 100000000000000 by { assert Pow10(11) == 1000 * Pow10(8); }
  }

  lemma Slices(y: string, mo: string, d: string, h: string, mi: string, s: string, us: string)
    requires |y| == 4 && |mo| == 2 && |d| == 2 && |h| == 2 && |mi| == 2 && |s| == 2 && |us| == 6
    ensures
      var f := y + mo + d + h + mi + s + us;
      && |f| == 20
      && f[..4] == y && f[4..6] == mo && f[6..8] == d && f[8..10] == h && f[10..12] == mi
      && f[12..14] == s && f[14..] == us
  {
  }

  lemma {:induction false} NumberOfParts(y: string, mo: string, d: string, h: string, mi: string, s: string, us: string)
    requires AreDigits(y) && AreDigits(mo) && AreDigits(d) && AreDigits(h) && AreDigits(mi) && AreDigits(s)
    requires AreDigits(us)
    requires |mo| == 2 && |d| == 2 && |h| == 2 && |mi| == 2 && |s| == 2 && |us| == 6
    ensures AreDigits(y + mo + d + h + mi + s + us)
    ensures Number(y + mo + d + h + mi + s + us) ==
      (((((Number(y) * 100 + Number(mo)) * 100 + Number(d)) * 100 + Number(h)) * 100 + Number(mi)) * 100
        + Number(s)) * 1000000
      + Number(us)
  {
    Powers();
    NumberOfConcat(y, mo);
    NumberOfConcat(y + mo, d);
    NumberOfConcat(y + mo + d, h);
    NumberOfConcat(y + mo + d + h, mi);
    NumberOfConcat(y + mo + d + h + mi, s);
    NumberOfConcat(y + mo + d + h + mi + s, us);
  }

  lemma FormatValue(d: DateTime)
    requires IsDate(d)
    ensures Number(Format(d)) == ValueOf(d) && Fields(Format(d)) == d
  {
    Powers();
    NumberOfDecimal(d.year, 4);
    NumberOfDecimal(d.month, 2);
    NumberOfDecimal(d.day, 2);
    NumberOfDecimal(d.hour, 2);
    NumberOfDecimal(d.minute, 2);
    NumberOfDecimal(d.second, 2);
    NumberOfDecimal(d.microsecond, 6);
    NumberOfParts(Decimal(d.year, 4), Decimal(d.month, 2), Decimal(d.day, 2), Decimal(d.hour, 2),
                  Decimal(d.minute, 2), Decimal(d.second, 2), Decimal(d.microsecond, 6));
    Slices(Decimal(d.year, 4), Decimal(d.month, 2), Decimal(d.day, 2), Decimal(d.hour, 2),
           Decimal(d.minute, 2), Decimal(d.second, 2), Decimal(d.microsecond, 6));
  }

  /** The text of a moment is read back as that moment, for every year from 1970 on, and refused before. */
  lemma MomentRoundTrip(d: DateTime)
    requires IsDate(d)
    ensures FromDatetime(d) == if d.year >= 1970 then Ok(JobId(ValueOf(d), d)) else Err(OutOfBounds)
  {
    FormatValue(d);
  }

  /** What is read as a job id is the text of its moment. */
  lemma TextRoundTrip(text: string)
    requires Parse(text).Ok?
    ensures
      var j := Parse(text).value;
      && IsDate(j.moment) && j.value == ValueOf(j.moment) && FromDatetime(j.moment) == Ok(j)
      && (text == Show(j) || text == Show(j) + ['\n'])
  {
    Powers();
    var s := if |text| == 21 && text[20] == '\n' then text[..20] else text;
    var j := Parse(text).value;
    DecimalOfNumber(s);
    FieldsFormat(s);
    FormatValue(j.moment);
    MomentRoundTrip(j.moment);
    assert |text| == 21 && text[20] == '\n' ==> text == s + ['\n'];
  }

  lemma Cuts(s: string)
    requires |s| == 20
    ensures s == s[..4] + s[4..6] + s[6..8] + s[8..10] + s[10..12] + s[12..14] + s[14..]
  {
  }

  lemma FieldsFormat(s: string)
    requires |s| == 20 && AreDigits(s)
    ensures Format(Fields(s)) == s
  {
    PartsFormat(s[..4], s[4..6], s[6..8], s[8..10], s[10..12], s[12..14], s[14..]);
    Cuts(s);
  }

  lemma {:induction false} PartsFormat(y: string, mo: string, d: string, h: string, mi: string, s: string, us: string)
    requires AreDigits(y) && AreDigits(mo) && AreDigits(d) && AreDigits(h) && AreDigits(mi) && AreDigits(s)
    requires AreDigits(us)
    requires |y| == 4 && |mo| == 2 && |d| == 2 && |h| == 2 && |mi| == 2 && |s| == 2 && |us| == 6
    ensures Format(DateTime(Number(y), Number(mo), Number(d), Number(h), Number(mi), Number(s), Number(us))) ==
      y + mo + d + h + mi + s + us
  {
    DecimalOfNumber(y);
    DecimalOfNumber(mo);
    DecimalOfNumber(d);
    DecimalOfNumber(h);
    DecimalOfNumber(mi);
    DecimalOfNumber(s);
    DecimalOfNumber(us);
  }

  /** Job ids are ordered as their moments are. */
  lemma OrderAgrees(a: JobId, b: JobId)
    requires IsDate(a.moment) && IsDate(b.moment) && a.value == ValueOf(a.moment) && b.value == ValueOf(b.moment)
    ensures a.value < b.value <==> IsEarlier(a.moment, b.moment)
    ensures a.value == b.value <==> a.moment == b.moment
  {
  }
}
