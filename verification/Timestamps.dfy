/** Second-precision UTC timestamps in the form of section 5.6 of RFC 3339: rendering and validation. */
module Timestamps {
  import opened Base
  import opened Calendar

  const DAY_SECONDS := 86400
  // First second of the year 10000.
  const YEAR_10000 := 253402300800

  predicate IsDigit(c: char) {
    '0' <= c <= '9'
  }

  function DigitOf(d: nat): char
    requires d < 10
  {
    '0' + d as char
  }

  function Decimal(n: nat): string {
    if n < 10 then [DigitOf(n)] else Decimal(n / 10) + [DigitOf(n % 10)]
  }

  function Zeros(k: nat): string {
    seq(k, _ => '0')
  }

  /** At least `w` digits, filled with zeros from the left. */
  function Pad(n: nat, w: nat): string {
    var digits := Decimal(n);
    if |digits| < w then Zeros(w - |digits|) + digits else digits
  }

  function Render(seconds: nat): string {
    var date := CivilFromDays(seconds / DAY_SECONDS);
    var inDay := seconds % DAY_SECONDS;
    if date.year < 0 || date.month < 0 || date.day < 0 then "" else
      Pad(date.year, 4) + "-" + Pad(date.month, 2) + "-" + Pad(date.day, 2) + "T" +
      Pad(inDay / 3600, 2) + ":" + Pad(inDay % 3600 / 60, 2) + ":" + Pad(inDay % 60, 2) + "Z"
  }

  // ---------------------------------------------------------------- validation

  function Number(s: string): Option<nat> {
    if s == "" then Some(0)
    else
      var rest := Number(s[..|s| - 1]);
      var c := s[|s| - 1];
      if rest.Some? && IsDigit(c) then Some(rest.value * 10 + (c - '0') as nat) else None
  }

  predicate NumberIn(s: string, low: nat, high: nat) {
    var n := Number(s);
    n.Some? && low <= n.value <= high
  }

  /** The accepted shape: fixed separators and numeric fields in range. */
  predicate ValidStamp(text: string) {
    && |text| == 20
    && text[4] == '-' && text[7] == '-' && text[10] == 'T' && text[13] == ':' && text[16] == ':' && text[19] == 'Z'
    && NumberIn(text[0..4], 1970, 9999) && NumberIn(text[5..7], 1, 12) && NumberIn(text[8..10], 1, 31)
    && NumberIn(text[11..13], 0, 23) && NumberIn(text[14..16], 0, 59) && NumberIn(text[17..19], 0, 59)
  }

  method Digits(text: string, low: nat, high: nat) returns (r: Option<nat>)
    requires low <= high <= |text|
    ensures r == Number(text[low..high])
  {
    var value: nat := 0;
    for i := low to high
      invariant Number(text[low..i]) == Some(value)
    {
      assert text[low..i + 1][..i - low] == text[low..i];
      if !IsDigit(text[i]) {
        NotANumber(text[low..high], i - low);
        return None;
      }
      value := value * 10 + (text[i] - '0') as nat;
    }
    r := Some(value);
  }

  lemma {:induction false} NotANumber(s: string, i: nat)
    requires i < |s| && !IsDigit(s[i])
    ensures Number(s) == None
  {
    if i < |s| - 1 {
      NotANumber(s[..|s| - 1], i);
    }
  }

  lemma {:induction false} NumberBelow(s: string)
    ensures Number(s).Some? ==> Number(s).value < Power(|s|)
  {
    if s != "" {
      NumberBelow(s[..|s| - 1]);
    }
  }

  function Power(k: nat): nat {
    if k == 0 then 1 else 10 * Power(k - 1)
  }

  method ValidUtcTimestamp(text: string) returns (ok: bool)
    ensures ok <==> ValidStamp(text)
  {
    hide Number;
    if |text| != 20 {
      return false;
    }
    if text[4] != '-' || text[7] != '-' || text[10] != 'T' || text[13] != ':' || text[16] != ':' || text[19] != 'Z' {
      return false;
    }
    var year := Digits(text, 0, 4);
    var month := Digits(text, 5, 7);
    var day := Digits(text, 8, 10);
    var hour := Digits(text, 11, 13);
    var minute := Digits(text, 14, 16);
    var second := Digits(text, 17, 19);
    if year.None? || month.None? || day.None? || hour.None? || minute.None? || second.None? {
      return false;
    }
    NumberBelow(text[0..4]);
    assert Power(4) == 10000;
    if year.value < 1970 || !(1 <= month.value <= 12) || !(1 <= day.value <= 31) {
      return false;
    }
    ok := hour.value <= 23 && minute.value <= 59 && second.value <= 59;
  }

  // ---------------------------------------------------------------- rendering

  lemma {:induction false} DecimalIs(n: nat)
    ensures Number(Decimal(n)) == Some(n) && Decimal(n) != ""
  {
    if n < 10 {
      assert [DigitOf(n)][..0] == "";
    } else {
      DecimalIs(n / 10);
      assert (Decimal(n / 10) + [DigitOf(n % 10)])[..|Decimal(n / 10)|] == Decimal(n / 10);
    }
  }

  /** A number has at most `k` digits exactly when it is below the k-th power of ten. */
  lemma {:induction false} DecimalLength(n: nat, k: nat)
    requires k > 0
    ensures |Decimal(n)| <= k <==> n < Power(k)
    decreases k
  {
    if k == 1 {
      assert Power(1) == 10;
      if n >= 10 { DecimalIs(n / 10); }
    } else {
      if n < 10 {
        PowerGrows(k);
      } else {
        DecimalLength(n / 10, k - 1);
      }
    }
  }

  lemma {:induction false} PowerGrows(k: nat)
    requires k > 0
    ensures Power(k) >= 10
  {
    if k > 1 { PowerGrows(k - 1); }
  }

  lemma {:induction false} LeadingZeros(k: nat, s: string)
    ensures Number(Zeros(k) + s) == Number(s)
    decreases k, |s|
  {
    var t := Zeros(k) + s;
    if s == "" {
      if k > 0 {
        assert t[..k - 1] == Zeros(k - 1) + "";
        LeadingZeros(k - 1, "");
      }
    } else {
      assert t[..|t| - 1] == Zeros(k) + s[..|s| - 1];
      LeadingZeros(k, s[..|s| - 1]);
    }
  }

  lemma PadIs(n: nat, w: nat)
    requires w > 0
    ensures Number(Pad(n, w)) == Some(n)
    ensures |Pad(n, w)| == w <==> n < Power(w)
    ensures |Pad(n, w)| >= w
  {
    DecimalIs(n);
    DecimalLength(n, w);
    if |Decimal(n)| < w { LeadingZeros(w - |Decimal(n)|, Decimal(n)); }
  }

  lemma Fields(y: string, mo: string, d: string, h: string, mi: string, s: string)
    requires |y| == 4 && |mo| == |d| == |h| == |mi| == |s| == 2
    ensures var t := y + "-" + mo + "-" + d + "T" + h + ":" + mi + ":" + s + "Z";
      && |t| == 20 && t[4] == '-' && t[7] == '-' && t[10] == 'T' && t[13] == ':' && t[16] == ':' && t[19] == 'Z'
      && t[0..4] == y && t[5..7] == mo && t[8..10] == d && t[11..13] == h && t[14..16] == mi && t[17..19] == s
  {
    var t := y + "-" + mo + "-" + d + "T" + h + ":" + mi + ":" + s + "Z";
    assert t[0..4] == y;
    assert t[5..7] == mo;
    assert t[8..10] == d;
    assert t[11..13] == h;
    assert t[14..16] == mi;
    assert t[17..19] == s;
  }

  /** Up to the end of the year 9999 a rendered time is accepted and every field reads back; later times
      render longer and are refused. */
  lemma RenderedIsValid(seconds: nat)
    ensures ValidStamp(Render(seconds)) <==> seconds < YEAR_10000
    ensures seconds < YEAR_10000 ==>
      var t := Render(seconds); var date := CivilFromDays(seconds / DAY_SECONDS); var inDay := seconds % DAY_SECONDS;
      && |t| == 20
      && Number(t[0..4]) == Some(date.year) && Number(t[5..7]) == Some(date.month) && Number(t[8..10]) == Some(date.day)
      && Number(t[11..13]) == Some(inDay / 3600) && Number(t[14..16]) == Some(inDay % 3600 / 60) && Number(t[17..19]) == Some(inDay % 60)
  {
    hide CivilFromDays, Number, Pad, DaysInMonth, DaysAfter;
    var days := seconds / DAY_SECONDS;
    var date := CivilFromDays(days);
    var inDay := seconds % DAY_SECONDS;
    DateBounds(days);
    var h, m, s := inDay / 3600, inDay % 3600 / 60, inDay % 60;
    assert h <= 23 && m <= 59 && s <= 59;
    assert Power(4) == 10000 && Power(2) == 100 by { Powers(); }
    PadIs(date.year, 4);
    PadIs(date.month, 2);
    PadIs(date.day, 2);
    PadIs(h, 2);
    PadIs(m, 2);
    PadIs(s, 2);
    assert date.year < 10000 <==> seconds < YEAR_10000;
    if date.year < 10000 {
      Fields(Pad(date.year, 4), Pad(date.month, 2), Pad(date.day, 2), Pad(h, 2), Pad(m, 2), Pad(s, 2));
    }
  }

  lemma Powers()
    ensures Power(4) == 10000 && Power(2) == 100
  {
  }

  lemma DateBounds(days: nat)
    ensures var d := CivilFromDays(days);
      && d.year >= 1970 && 1 <= d.month <= 12 && 1 <= d.day <= 31
      && (d.year < 10000 <==> days < YEAR_10000 / DAY_SECONDS)
  {
    hide CivilFromDays, DaysAfter, NextDay, Leap;
    LastDay();
    CivilSinceEpoch(days);
    CivilStep(days);
    if days < 2932896 { CivilOrdered(days, 2932896); }
    if days > 2932897 { CivilOrdered(2932897, days); }
  }

  lemma LastDay()
    ensures YEAR_10000 / DAY_SECONDS == 2932897
    ensures CivilFromDays(2932897) == Date(10000, 1, 1) && CivilFromDays(2932896) == Date(9999, 12, 31)
  {
    hide CivilFromDays, Assemble, YearOfEra, DayOfYear, NextDay, Leap;
    CivilAt(Place(3, 24, 3, 306), 24, 2932897);
    CivilAt(Place(3, 24, 3, 305), 24, 2932896);
    assert Assemble(9999, 306) == Date(10000, 1, 1) && Assemble(9999, 305) == Date(9999, 12, 31) by { YearEnd(); }
  }

  lemma YearEnd()
    ensures Assemble(9999, 306) == Date(10000, 1, 1) && Assemble(9999, 305) == Date(9999, 12, 31)
  {
  }

  // ---------------------------------------------------------------- what the validator lets through

  /** Digits of a fixed width are determined by their value. */
  lemma {:induction false} NumberInjective(a: string, b: string)
    requires |a| == |b| && Number(a).Some? && Number(a) == Number(b)
    ensures a == b
  {
    if a != "" {
      var k := |a| - 1;
      var x, y := Number(a[..k]), Number(b[..k]);
      var u, v := (a[k] - '0') as nat, (b[k] - '0') as nat;
      assert x.value * 10 + u == y.value * 10 + v && u < 10 && v < 10;
      NumberInjective(a[..k], b[..k]);
      assert a == a[..k] + [a[k]] && b == b[..k] + [b[k]];
    }
  }

  lemma PadReads(text: string, n: nat, w: nat)
    requires w > 0 && |text| == w && Number(text) == Some(n)
    ensures Pad(n, w) == text
  {
    hide Number, Pad;
    NumberBelow(text);
    PadIs(n, w);
    NumberInjective(Pad(n, w), text);
  }

  /** The date written in an accepted text. */
  function DateIn(text: string): Date
    requires ValidStamp(text)
  {
    Date(Number(text[0..4]).value, Number(text[5..7]).value, Number(text[8..10]).value)
  }

  function SecondsIn(text: string): nat
    requires ValidStamp(text)
  {
    Number(text[11..13]).value * 3600 + Number(text[14..16]).value * 60 + Number(text[17..19]).value
  }

  /** A text with these fields is the rendering of its own day and second. */
  lemma RendersBack(text: string, days: nat)
    requires ValidStamp(text) && CivilFromDays(days) == DateIn(text)
    ensures SecondsIn(text) < DAY_SECONDS && Render(days * DAY_SECONDS + SecondsIn(text)) == text
  {
    hide CivilFromDays, Number, Pad;
    var inDay := SecondsIn(text);
    var h, m, s := Number(text[11..13]).value, Number(text[14..16]).value, Number(text[17..19]).value;
    var seconds := days * DAY_SECONDS + inDay;
    SplitSeconds(days, h, m, s);
    PadReads(text[0..4], Number(text[0..4]).value, 4);
    PadReads(text[5..7], Number(text[5..7]).value, 2);
    PadReads(text[8..10], Number(text[8..10]).value, 2);
    PadReads(text[11..13], h, 2);
    PadReads(text[14..16], m, 2);
    PadReads(text[17..19], s, 2);
    Joins(text);
  }

  lemma SplitSeconds(days: nat, h: nat, m: nat, s: nat)
    requires h <= 23 && m <= 59 && s <= 59
    ensures var inDay := h * 3600 + m * 60 + s; var seconds := days * DAY_SECONDS + inDay;
      && inDay < DAY_SECONDS && seconds / DAY_SECONDS == days && seconds % DAY_SECONDS == inDay
      && inDay / 3600 == h && inDay % 3600 / 60 == m && inDay % 60 == s
  {
  }

  lemma Joins(text: string)
    requires |text| == 20 && text[4] == '-' && text[7] == '-' && text[10] == 'T' && text[13] == ':' && text[16] == ':' && text[19] == 'Z'
    ensures text == text[0..4] + "-" + text[5..7] + "-" + text[8..10] + "T" + text[11..13] + ":" + text[14..16] + ":" + text[17..19] + "Z"
  {
  }

  /** An accepted text, whose year is between 1970 and 9999, is a rendered time exactly when its day exists
      in its month. */
  lemma AcceptedIsRenderedWhen(text: string)
    requires ValidStamp(text)
    ensures 1970 <= DateIn(text).year <= 9999
    ensures (exists seconds: nat :: seconds < YEAR_10000 && Render(seconds) == text) <==>
      DateIn(text).day <= DaysInMonth(DateIn(text).year, DateIn(text).month)
  {
    hide CivilFromDays, Number, Pad, DaysInMonth, Render;
    var date := DateIn(text);
    if seconds: nat :| seconds < YEAR_10000 && Render(seconds) == text {
      RenderedIsValid(seconds);
      CivilStep(seconds / DAY_SECONDS);
    }
    if date.day <= DaysInMonth(date.year, date.month) {
      var days := CivilReaches(date);
      RendersBack(text, days);
      RenderedIsValid(days * DAY_SECONDS + SecondsIn(text));
    }
  }

  /** The validator checks shape, not the calendar: it accepts a day no conversion produces. */
  lemma AcceptsImpossibleDay()
    ensures ValidStamp("2023-02-31T00:00:00Z")
    ensures forall days :: CivilFromDays(days) != Date(2023, 2, 31)
  {
    hide CivilFromDays;
    var t := "2023-02-31T00:00:00Z";
    assert t == "2023" + "-" + "02" + "-" + "31" + "T" + "00" + ":" + "00" + ":" + "00" + "Z";
    Fields("2023", "02", "31", "00", "00", "00");
    Literals();
    forall days ensures CivilFromDays(days) != Date(2023, 2, 31) {
      CivilStep(days);
    }
  }

  lemma Literals()
    ensures Number("2023") == Some(2023) && Number("02") == Some(2) && Number("31") == Some(31) && Number("00") == Some(0)
  {
    assert "2023"[..3] == "202" && "202"[..2] == "20" && "20"[..1] == "2" && "2"[..0] == "";
    assert "02"[..1] == "0" && "0"[..0] == "" && "31"[..1] == "3" && "3"[..0] == "" && "00"[..1] == "0";
  }
}
