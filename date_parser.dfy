/**
 * DateParser.parseStringToLocalDateTime for the one pattern the application
 * uses, "yyyy-MM-dd HH:mm", with the java.time SMART resolver's rules, and
 * LocalDateTime.toString for minute-precision values.
 */
module DateParser {
  import opened Errors
  import opened Decimal

  const PATTERN: string := "yyyy-MM-dd HH:mm"

  predicate IsLeap(year: int) {
    year % 4 == 0 && (year % 100 != 0 || year % 400 == 0)
  }

  function DaysInMonth(year: int, month: int): (n: int)
    requires 1 <= month <= 12
    ensures 28 <= n <= 31
  {
    if month == 2 then (if IsLeap(year) then 29 else 28)
    else if month == 4 || month == 6 || month == 9 || month == 11 then 30
    else 31
  }

  datatype Fields = Fields(year: int, month: int, day: int, hour: int, minute: int)

  predicate IsDateTime(f: Fields) {
    1 <= f.year <= 9999 && 1 <= f.month <= 12 && 1 <= f.day <= DaysInMonth(f.year, f.month)
    && 0 <= f.hour <= 23 && 0 <= f.minute <= 59
  }

  /** A LocalDateTime truncated to minutes, with a four-digit year. */
  type DateTime = f: Fields | IsDateTime(f) witness Fields(1, 1, 1, 0, 0)

  function FormatError(date: string): Error {
    InvalidDateTimeFormat("'" + date + "' is an invalid format. " + PATTERN)
  }

  /** Digits where the pattern has letters, the pattern's literals elsewhere. */
  predicate Shaped(s: string) {
    |s| == 16
    && AllDigits(s[0..4]) && s[4] == '-' && AllDigits(s[5..7]) && s[7] == '-'
    && AllDigits(s[8..10]) && s[10] == ' ' && AllDigits(s[11..13]) && s[13] == ':'
    && AllDigits(s[14..16])
  }

  /** The numbers the pattern's letter groups read from a shaped text. */
  function FieldsOf(s: string): Fields
    requires Shaped(s)
  {
    Fields(Value(s[0..4]), Value(s[5..7]), Value(s[8..10]), Value(s[11..13]), Value(s[14..16]))
  }

  function Min(a: int, b: int): int { if a <= b then a else b }

  /** Midnight of the day after a valid date, when that day has a four-digit year. */
  function NextMidnight(year: int, month: int, day: int): Option<DateTime>
    requires 1 <= year <= 9999 && 1 <= month <= 12 && 1 <= day <= DaysInMonth(year, month)
  {
    if day < DaysInMonth(year, month) then Some(Fields(year, month, day + 1, 0, 0))
    else if month < 12 then Some(Fields(year, month + 1, 1, 0, 0))
    else if year < 9999 then Some(Fields(year + 1, 1, 1, 0, 0))
    else None
  }

  /**
   * The SMART resolver: year-of-era at least 1, month 1..12, day-of-month
   * 1..31 cut down to the month's length, minute 0..59, hour 0..23, and
   * 24:00 read as midnight at the end of the day.
   */
  function Resolve(f: Fields): Option<DateTime> {
    if !(1 <= f.year <= 9999 && 1 <= f.month <= 12 && 1 <= f.day <= 31 && 0 <= f.minute <= 59) then None
    else
      var day := Min(f.day, DaysInMonth(f.year, f.month));
      if 0 <= f.hour <= 23 then Some(Fields(f.year, f.month, day, f.hour, f.minute))
      else if f.hour == 24 && f.minute == 0 then NextMidnight(f.year, f.month, day)
      else None
  }

  /**
   * parseStringToLocalDateTime(date, "yyyy-MM-dd HH:mm"): the date-time the
   * text denotes, or the application's invalid-format error.
   */
  function Parse(date: string): (r: Result<DateTime>)
    ensures r.Ok? ==> Shaped(date)
    ensures r.Err? ==> r.error == FormatError(date)
  {
    if !Shaped(date) then Err(FormatError(date))
    else
      match Resolve(FieldsOf(date))
      case None => Err(FormatError(date))
      case Some(d) => Ok(d)
  }

  /**
   * Exactly the shaped texts whose fields are in range are accepted: a
   * year of at least 1, month 1..12, day 1..31, minute 0..59, and hour
   * 0..23 or 24:00 on any day but the last of year 9999.
   */
  lemma ParseAccepts(date: string)
    ensures Parse(date).Ok?
        <==> Shaped(date) && 1 <= FieldsOf(date).year && 1 <= FieldsOf(date).month <= 12
             && 1 <= FieldsOf(date).day <= 31 && FieldsOf(date).minute <= 59
             && (FieldsOf(date).hour <= 23
                 || (FieldsOf(date).hour == 24 && FieldsOf(date).minute == 0
                     && !(FieldsOf(date).year == 9999 && FieldsOf(date).month == 12
                          && FieldsOf(date).day == 31)))
  {
    if Shaped(date) {
      PaddedValue(date[0..4]);
      Pow10Widths();
      ResolveAccepts(FieldsOf(date));
    }
  }

  /** Which fields the resolver turns into a date-time. */
  lemma ResolveAccepts(f: Fields)
    requires f.hour >= 0 && f.minute >= 0
    ensures Resolve(f).Some? <==> 1 <= f.year <= 9999 && 1 <= f.month <= 12 && 1 <= f.day <= 31 && f.minute <= 59
                                  && (f.hour <= 23
                                      || (f.hour == 24 && f.minute == 0
                                          && !(f.year == 9999 && f.month == 12 && f.day == 31)))
  {
    if 1 <= f.year <= 9999 && 1 <= f.month <= 12 && 1 <= f.day <= 31 && f.minute <= 59 && f.hour == 24 && f.minute == 0 {
      var day := Min(f.day, DaysInMonth(f.year, f.month));
      assert NextMidnight(f.year, f.month, day).None? <==> f.year == 9999 && f.month == 12 && day == 31;
    }
  }

  /** The two fixed-width fields widths the printer and the parser use. */
  lemma Pow10Widths()
    ensures Pow10(2) == 100 && Pow10(4) == 10000
  {
    assert Pow10(1) == 10;
    assert Pow10(3) == 1000;
  }

  /** The date part of the printed form: yyyy-MM-dd. */
  function DatePart(d: DateTime): (s: string)
    ensures |s| == 10 && 'T' !in s
  {
    Pow10Widths();
    Padded(d.year, 4) + "-" + Padded(d.month, 2) + "-" + Padded(d.day, 2)
  }

  /** The time part of the printed form: HH:mm. */
  function TimePart(d: DateTime): (s: string)
    ensures |s| == 5 && 'T' !in s
  {
    Pow10Widths();
    Padded(d.hour, 2) + ":" + Padded(d.minute, 2)
  }

  /** d printed with the given separator between date and time. */
  function Render(d: DateTime, sep: char): (s: string)
    ensures |s| == 16
  {
    DatePart(d) + [sep] + TimePart(d)
  }

  /** LocalDateTime.toString for a minute-precision value: yyyy-MM-ddTHH:mm. */
  function Format(d: DateTime): string {
    Render(d, 'T')
  }

  /** String.replace("T", " "): every 'T' becomes a space and nothing else changes. */
  function ReplaceT(s: string): (r: string)
    ensures |r| == |s| && 'T' !in r
    ensures forall i :: 0 <= i < |s| ==> r[i] == if s[i] == 'T' then ' ' else s[i]
  {
    if s == [] then []
    else [if s[0] == 'T' then ' ' else s[0]] + ReplaceT(s[1..])
  }

  lemma {:induction false} ReplaceTFixes(s: string)
    requires 'T' !in s
    ensures ReplaceT(s) == s
  {
    if s != [] {
      assert s[0] in s;
      assert forall c :: c in s[1..] ==> c in s;
      ReplaceTFixes(s[1..]);
    }
  }

  lemma {:induction false} ReplaceTConcat(a: string, b: string)
    ensures ReplaceT(a + b) == ReplaceT(a) + ReplaceT(b)
  {
    if a != [] {
      assert (a + b)[0] == a[0];
      assert (a + b)[1..] == a[1..] + b;
      ReplaceTConcat(a[1..], b);
      var c := [if a[0] == 'T' then ' ' else a[0]];
      assert ReplaceT(a + b) == c + (ReplaceT(a[1..]) + ReplaceT(b));
      assert c + (ReplaceT(a[1..]) + ReplaceT(b)) == (c + ReplaceT(a[1..])) + ReplaceT(b);
      assert ReplaceT(a) == c + ReplaceT(a[1..]);
    } else {
      assert a + b == b;
    }
  }

  lemma RenderSlices(d: DateTime, sep: char)
    ensures Pow10(2) == 100 && Pow10(4) == 10000
    ensures var s := Render(d, sep);
      s[0..4] == Padded(d.year, 4) && s[4] == '-' && s[5..7] == Padded(d.month, 2) && s[7] == '-'
      && s[8..10] == Padded(d.day, 2) && s[10] == sep && s[11..13] == Padded(d.hour, 2)
      && s[13] == ':' && s[14..16] == Padded(d.minute, 2)
  {
    Pow10Widths();
  }

  /** The printed form with T replaced is what the printer writes with a space. */
  lemma ReplaceTRender(d: DateTime)
    ensures ReplaceT(Format(d)) == Render(d, ' ')
  {
    ReplaceTConcat(DatePart(d) + ['T'], TimePart(d));
    ReplaceTConcat(DatePart(d), ['T']);
    ReplaceTFixes(DatePart(d));
    ReplaceTFixes(TimePart(d));
  }

  /** Parsing what the printer writes with a space gives the date-time back. */
  lemma ParseRender(d: DateTime)
    ensures Parse(Render(d, ' ')) == Ok(d)
  {
    var s := Render(d, ' ');
    RenderSlices(d, ' ');
    ValuePadded(d.year, 4);
    ValuePadded(d.month, 2);
    ValuePadded(d.day, 2);
    ValuePadded(d.hour, 2);
    ValuePadded(d.minute, 2);
    assert Shaped(s);
    assert FieldsOf(s) == d;
  }

  /**
   * The repository's round trip: printing a date-time, replacing T with a
   * space and parsing the result gives the date-time back.
   */
  lemma ParseReplaceTFormat(d: DateTime)
    ensures Parse(ReplaceT(Format(d))) == Ok(d)
  {
    ReplaceTRender(d);
    ParseRender(d);
  }

  /** The printed form itself has a T where the pattern wants a space, so it never parses. */
  lemma ParseFormatFails(d: DateTime)
    ensures Parse(Format(d)) == Err(FormatError(Format(d)))
  {
    RenderSlices(d, 'T');
  }

  /**
   * The other direction: a text that parses without its day being cut down
   * and without the 24:00 rule is exactly the printed form of its value.
   */
  lemma ParseCanonical(s: string)
    requires Parse(s).Ok?
    requires FieldsOf(s).hour <= 23 && FieldsOf(s).day <= DaysInMonth(FieldsOf(s).year, FieldsOf(s).month)
    ensures Render(Parse(s).value, ' ') == s
  {
    var d := Parse(s).value;
    assert d == FieldsOf(s);
    RenderSlices(d, ' ');
    PaddedValue(s[0..4]);
    PaddedValue(s[5..7]);
    PaddedValue(s[8..10]);
    PaddedValue(s[11..13]);
    PaddedValue(s[14..16]);
    var t := Render(d, ' ');
    assert t[0..4] == s[0..4] && t[5..7] == s[5..7] && t[8..10] == s[8..10];
    assert t[11..13] == s[11..13] && t[14..16] == s[14..16];
    forall i | 0 <= i < 16
      ensures t[i] == s[i]
    {
      if i < 4 {
        assert t[i] == t[0..4][i] && s[i] == s[0..4][i];
      } else if 5 <= i < 7 {
        assert t[i] == t[5..7][i - 5] && s[i] == s[5..7][i - 5];
      } else if 8 <= i < 10 {
        assert t[i] == t[8..10][i - 8] && s[i] == s[8..10][i - 8];
      } else if 11 <= i < 13 {
        assert t[i] == t[11..13][i - 11] && s[i] == s[11..13][i - 11];
      } else if 14 <= i < 16 {
        assert t[i] == t[14..16][i - 14] && s[i] == s[14..16][i - 14];
      }
    }
  }

  /** The date part of d, given the digit strings of its fields. */
  lemma DatePartOf(d: DateTime, y: string, mo: string, da: string)
    requires |y| == 4 && AllDigits(y) && Value(y) == d.year
    requires |mo| == 2 && AllDigits(mo) && Value(mo) == d.month
    requires |da| == 2 && AllDigits(da) && Value(da) == d.day
    ensures DatePart(d) == y + "-" + mo + "-" + da
  {
    PaddedExample(d.year, 4, y);
    PaddedExample(d.month, 2, mo);
    PaddedExample(d.day, 2, da);
  }

  /** The time part of d, given the digit strings of its fields. */
  lemma TimePartOf(d: DateTime, h: string, mi: string)
    requires |h| == 2 && AllDigits(h) && Value(h) == d.hour
    requires |mi| == 2 && AllDigits(mi) && Value(mi) == d.minute
    ensures TimePart(d) == h + ":" + mi
  {
    PaddedExample(d.hour, 2, h);
    PaddedExample(d.minute, 2, mi);
  }

  /** Padding a number read from a digit string gives the string back. */
  lemma PaddedExample(n: nat, width: nat, s: string)
    requires |s| == width && AllDigits(s) && Value(s) == n
    ensures n < Pow10(width) && Padded(n, width) == s
  {
    PaddedValue(s);
  }

  /** The digit strings of the example date-times. */
  lemma ExampleDigits()
    ensures AllDigits("2025") && Value("2025") == 2025
    ensures AllDigits("2021") && Value("2021") == 2021
    ensures AllDigits("01") && Value("01") == 1
    ensures AllDigits("05") && Value("05") == 5
    ensures AllDigits("15") && Value("15") == 15
    ensures AllDigits("45") && Value("45") == 45
  {
    assert "2025"[..3] == "202" && "202"[..2] == "20" && "20"[..1] == "2";
    assert "2021"[..3] == "202";
    assert "01"[..1] == "0" && "05"[..1] == "0";
    assert "15"[..1] == "1" && "45"[..1] == "4";
  }

  /** 2025-05-05 15:45 printed in the input pattern. */
  lemma RenderExample()
    ensures Render(Fields(2025, 5, 5, 15, 45), ' ') == "2025-05-05 15:45"
  {
    ExampleDigits();
    DatePartOf(Fields(2025, 5, 5, 15, 45), "2025", "05", "05");
    TimePartOf(Fields(2025, 5, 5, 15, 45), "15", "45");
    assert "2025" + "-" + "05" + "-" + "05" == "2025-05-05";
    assert "15" + ":" + "45" == "15:45";
    assert "2025-05-05" + [' '] + "15:45" == "2025-05-05 15:45";
  }

  /** 2025-05-05 15:45 printed by toString. */
  lemma FormatExample()
    ensures Format(Fields(2025, 5, 5, 15, 45)) == "2025-05-05T15:45"
  {
    ExampleDigits();
    DatePartOf(Fields(2025, 5, 5, 15, 45), "2025", "05", "05");
    TimePartOf(Fields(2025, 5, 5, 15, 45), "15", "45");
    assert "2025" + "-" + "05" + "-" + "05" == "2025-05-05";
    assert "15" + ":" + "45" == "15:45";
    assert "2025-05-05" + ['T'] + "15:45" == "2025-05-05T15:45";
  }

  /** "2025-05-05 15:45" is read as 2025-05-05 15:45, which prints as "2025-05-05T15:45". */
  lemma ParseExample()
    ensures Parse("2025-05-05 15:45") == Ok(Fields(2025, 5, 5, 15, 45))
    ensures Format(Parse("2025-05-05 15:45").value) == "2025-05-05T15:45"
  {
    RenderExample();
    FormatExample();
    ParseRender(Fields(2025, 5, 5, 15, 45));
  }

  /** 2021-01-01 05:15 printed in the input pattern. */
  lemma RenderEarlyExample()
    ensures Render(Fields(2021, 1, 1, 5, 15), ' ') == "2021-01-01 05:15"
  {
    ExampleDigits();
    DatePartOf(Fields(2021, 1, 1, 5, 15), "2021", "01", "01");
    TimePartOf(Fields(2021, 1, 1, 5, 15), "05", "15");
    assert "2021" + "-" + "01" + "-" + "01" == "2021-01-01";
    assert "05" + ":" + "15" == "05:15";
    assert "2021-01-01" + [' '] + "05:15" == "2021-01-01 05:15";
  }

  /** 2021-01-01 05:15 printed by toString. */
  lemma FormatEarlyExample()
    ensures Format(Fields(2021, 1, 1, 5, 15)) == "2021-01-01T05:15"
  {
    ExampleDigits();
    DatePartOf(Fields(2021, 1, 1, 5, 15), "2021", "01", "01");
    TimePartOf(Fields(2021, 1, 1, 5, 15), "05", "15");
    assert "2021" + "-" + "01" + "-" + "01" == "2021-01-01";
    assert "05" + ":" + "15" == "05:15";
    assert "2021-01-01" + ['T'] + "05:15" == "2021-01-01T05:15";
  }

  /** "2021-01-01 05:15" is read as 2021-01-01 05:15, which prints as "2021-01-01T05:15". */
  lemma ParseEarlyExample()
    ensures Parse("2021-01-01 05:15") == Ok(Fields(2021, 1, 1, 5, 15))
    ensures Format(Parse("2021-01-01 05:15").value) == "2021-01-01T05:15"
  {
    RenderEarlyExample();
    FormatEarlyExample();
    ParseRender(Fields(2021, 1, 1, 5, 15));
  }

  /** A day-first text is rejected with the text and the pattern in the message. */
  lemma ParseRejectsDayFirst()
    ensures Parse("01-05-2021 01:25") == Err(FormatError("01-05-2021 01:25"))
  {
    assert "01-05-2021 01:25"[0..4][2] == '-';
  }

  /** The years of the resolver examples. */
  lemma ResolverYears()
    ensures AllDigits("2023") && Value("2023") == 2023
    ensures AllDigits("2024") && Value("2024") == 2024
  {
    assert "2023"[..3] == "202" && "2024"[..3] == "202" && "202"[..2] == "20" && "20"[..1] == "2";
  }

  /** The two-digit fields of the resolver examples. */
  lemma ResolverFields()
    ensures AllDigits("02") && Value("02") == 2
    ensures AllDigits("10") && Value("10") == 10
    ensures AllDigits("12") && Value("12") == 12
    ensures AllDigits("24") && Value("24") == 24
    ensures AllDigits("30") && Value("30") == 30
    ensures AllDigits("31") && Value("31") == 31
    ensures AllDigits("00") && Value("00") == 0
  {
    assert "02"[..1] == "0" && "00"[..1] == "0";
    assert "10"[..1] == "1" && "12"[..1] == "1";
    assert "24"[..1] == "2";
    assert "30"[..1] == "3" && "31"[..1] == "3";
  }

  /** A day past the end of the month is cut down to the month's last day. */
  lemma ParseClampsDay()
    ensures Parse("2023-02-30 10:00") == Ok(Fields(2023, 2, 28, 10, 0))
  {
    var s := "2023-02-30 10:00";
    ResolverYears();
    ResolverFields();
    assert s[0..4] == "2023" && s[5..7] == "02" && s[8..10] == "30";
    assert s[11..13] == "10" && s[14..16] == "00";
  }

  /** 24:00 is midnight at the start of the next day. */
  lemma ParseEndOfDay()
    ensures Parse("2024-12-31 24:00") == Ok(Fields(2025, 1, 1, 0, 0))
  {
    var s := "2024-12-31 24:00";
    ResolverYears();
    ResolverFields();
    assert s[0..4] == "2024" && s[5..7] == "12" && s[8..10] == "31";
    assert s[11..13] == "24" && s[14..16] == "00";
  }
}
