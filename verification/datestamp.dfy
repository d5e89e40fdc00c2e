/**
 * The three date strings the engine derives from the clock: `yyyyMMdd`,
 * `hhmmss` and their concatenation, the 14-character timestamp. The clock
 * itself is not modelled: its reading is passed in as calendar components.
 */
module DateStamp {
  import opened Text

  /** A local clock reading, as the `Date` getters return it (month counted from 1). */
  datatype DateTime = DateTime(year: int, month: nat, day: nat, hour: nat, minute: nat, second: nat)

  /** The ranges the `Date` getters produce. */
  predicate Valid(d: DateTime) {
    1 <= d.month <= 12 && 1 <= d.day <= 31 && d.hour <= 23 && d.minute <= 59 && d.second <= 59
  }

  /** A year that renders as four digits. */
  predicate FourDigitYear(d: DateTime) {
    1000 <= d.year <= 9999
  }

  /** A number below ten gets one leading `0`; others are rendered as they are. */
  function Pad(x: nat): (r: string)
    ensures AllDigits(r) && DigitsValue(r) == x
    ensures |r| >= 2
    ensures x < 100 ==> |r| == 2
  {
    if x < 10 then
      var r := "0" + NatToString(x);
      assert r[..|r| - 1] == "0";
      r
    else
      TwoDigits(x);
      NatToString(x)
  }

  lemma TwoDigits(x: nat)
    ensures 10 <= x < 100 ==> |NatToString(x)| == 2
  {
    if 10 <= x < 100 {
      NatToStringLength(x, 2);
    }
  }

  lemma YearDigits(y: int)
    ensures 1000 <= y <= 9999 ==> |IntToString(y)| == 4
  {
    if 1000 <= y <= 9999 {
      Text.FourDigitYear(y);
    }
  }

  datatype Formatted = Formatted(yyyyMMdd: string, hhmmss: string, timestamp: string)

  /** The formatted date, time and timestamp of one clock reading. */
  function GetFormattedDate(d: DateTime): (f: Formatted)
    ensures f.timestamp == f.yyyyMMdd + f.hhmmss
    ensures Valid(d) ==> |f.hhmmss| == 6 && AllDigits(f.hhmmss)
    ensures Valid(d) && FourDigitYear(d) ==>
      |f.yyyyMMdd| == 8 && AllDigits(f.yyyyMMdd) && |f.timestamp| == 14 && AllDigits(f.timestamp)
  {
    var date := IntToString(d.year) + Pad(d.month) + Pad(d.day);
    var time := Pad(d.hour) + Pad(d.minute) + Pad(d.second);
    YearDigits(d.year);
    Formatted(date, time, date + time)
  }

  /** Reads the six components back out of a 14-digit timestamp. */
  function DecodeTimestamp(ts: string): (d: DateTime)
    requires |ts| == 14 && AllDigits(ts)
    ensures d.year >= 0
  {
    DateTime(DigitsValue(ts[0..4]), DigitsValue(ts[4..6]), DigitsValue(ts[6..8]),
             DigitsValue(ts[8..10]), DigitsValue(ts[10..12]), DigitsValue(ts[12..14]))
  }

  /** Every component is zero-padded to two digits, and the year is written in full. */
  lemma FieldsPadded(d: DateTime)
    requires Valid(d) && FourDigitYear(d)
    ensures var f := GetFormattedDate(d);
      && f.yyyyMMdd[0..4] == IntToString(d.year)
      && f.yyyyMMdd[4..6] == Pad(d.month) && f.yyyyMMdd[6..8] == Pad(d.day)
      && f.hhmmss[0..2] == Pad(d.hour) && f.hhmmss[2..4] == Pad(d.minute) && f.hhmmss[4..6] == Pad(d.second)
  {
    Text.FourDigitYear(d.year);
  }

  /** Round trip: a timestamp with a four-digit year decodes to the reading it was made from. */
  lemma DecodeFormatted(d: DateTime)
    requires Valid(d) && FourDigitYear(d)
    ensures DecodeTimestamp(GetFormattedDate(d).timestamp) == d
  {
    FieldsPadded(d);
    var f := GetFormattedDate(d);
    StampSlices(f.yyyyMMdd, f.hhmmss);
  }

  /** Where the six fields sit in a date followed by a time. */
  lemma StampSlices(date: string, time: string)
    requires |date| == 8 && |time| == 6
    ensures var ts := date + time;
      && ts[0..4] == date[0..4] && ts[4..6] == date[4..6] && ts[6..8] == date[6..8]
      && ts[8..10] == time[0..2] && ts[10..12] == time[2..4] && ts[12..14] == time[4..6]
  {
  }

  /** Example: 2024-03-05 09:07:01 gives the date `20240305`, the time `090701` and the timestamp `20240305090701`. */
  lemma ExampleStamp()
    ensures GetFormattedDate(DateTime(2024, 3, 5, 9, 7, 1))
         == Formatted("20240305", "090701", "20240305090701")
  {
    var d := DateTime(2024, 3, 5, 9, 7, 1);
    ExampleYear();
    PadSmall(3);
    PadSmall(5);
    PadSmall(9);
    PadSmall(7);
    PadSmall(1);
    var f := GetFormattedDate(d);
    assert f.yyyyMMdd == "2024" + "03" + "05";
    assert f.hhmmss == "09" + "07" + "01";
  }

  lemma ExampleYear()
    ensures IntToString(2024) == "2024"
  {
    assert NatToString(2) == "2";
    assert NatToString(20) == "20";
    assert NatToString(202) == "202";
  }

  lemma PadSmall(x: nat)
    requires x < 10
    ensures Pad(x) == ['0', DigitChar(x)]
  {
  }
}
