/**
 * `getTimestamp`: the display string `elapsed/total` of the player. Both
 * durations are whole milliseconds; the total arrives as an ISO-8601 string
 * whose parsing is not part of this model. One format is chosen from the
 * total and used for both halves. The rendering of a format follows
 * Luxon's `Duration.toFormat`: the largest unit of the format takes all the
 * whole units above it, values are floored, and each field has at least two
 * digits.
 */
module Timestamp {
  import opened Text

  const SecondMillis: nat := 1000
  const HourMillis: nat := 3_600_000

  /** The two display formats: `mm:ss` and `hh:mm:ss`. */
  datatype Format = MinutesSeconds | HoursMinutesSeconds

  /** `tTime.as('hours') < 1 ? 'mm:ss' : 'hh:mm:ss'`: hours are shown once the total holds a whole hour. */
  function ChooseFormat(totalMs: nat): (f: Format)
    ensures f == HoursMinutesSeconds <==> totalMs / HourMillis >= 1
  {
    if totalMs < HourMillis then MinutesSeconds else HoursMinutesSeconds
  }

  /** The fields a format shows for a duration, most significant first. */
  function Fields(ms: nat, f: Format): (fields: seq<nat>)
    ensures |fields| >= 2
  {
    var secs := ms / SecondMillis;
    match f
    case MinutesSeconds => [secs / 60, secs % 60]
    case HoursMinutesSeconds => [secs / 3600, secs / 60 % 60, secs % 60]
  }

  predicate IsDigit(c: char) {
    '0' <= c <= '9'
  }

  function DigitChar(d: nat): (c: char)
    requires d < 10
    ensures IsDigit(c)
  {
    (('0' as int) + d) as char
  }

  function DigitValue(c: char): nat
    requires IsDigit(c)
  {
    (c as int) - ('0' as int)
  }

  /** The decimal numeral of `n`, without leading zeros. */
  function Decimal(n: nat): (s: string)
    ensures |s| >= 1 && forall i :: 0 <= i < |s| ==> IsDigit(s[i])
  {
    if n < 10 then [DigitChar(n)] else Decimal(n / 10) + [DigitChar(n % 10)]
  }

  /** A field of a format: at least two digits, padded with a leading zero. */
  function Pad2(n: nat): (s: string)
    ensures |s| >= 2 && forall i :: 0 <= i < |s| ==> IsDigit(s[i])
  {
    if n < 10 then ['0', DigitChar(n)] else Decimal(n)
  }

  function PadAll(fields: seq<nat>): (parts: seq<string>)
    ensures |parts| == |fields|
    ensures forall i :: 0 <= i < |fields| ==> parts[i] == Pad2(fields[i])
  {
    if |fields| == 0 then [] else [Pad2(fields[0])] + PadAll(fields[1..])
  }

  /** `Duration.fromMillis(ms).toFormat(f)`. */
  function Render(ms: nat, f: Format): string {
    Join(PadAll(Fields(ms, f)), ":")
  }

  /** `getTimestamp(stream, total)`: both halves in the format chosen from the total, joined by `/`. */
  function GetTimestamp(streamMs: nat, totalMs: nat): string {
    var f := ChooseFormat(totalMs);
    Render(streamMs, f) + "/" + Render(totalMs, f)
  }

  /** The value of a string of digits. */
  function ParseDecimal(s: string): nat
    requires forall i :: 0 <= i < |s| ==> IsDigit(s[i])
  {
    if |s| == 0 then 0 else ParseDecimal(s[..|s| - 1]) * 10 + DigitValue(s[|s| - 1])
  }

  /** The value of a list of base-60 fields, most significant first. */
  function Sexagesimal(fields: seq<nat>): nat {
    if |fields| == 0 then 0 else Sexagesimal(fields[..|fields| - 1]) * 60 + fields[|fields| - 1]
  }

  /** Reading a `:`-separated clock back: the number of whole seconds it shows, if every field is a numeral. */
  function ReadClock(s: string): (r: int)
  {
    var parts := Split(s, ":");
    if forall i, j :: 0 <= i < |parts| && 0 <= j < |parts[i]| ==> IsDigit(parts[i][j]) then
      Sexagesimal(seq(|parts|, i requires 0 <= i < |parts| => ParseDecimal(parts[i])))
    else -1
  }

  lemma {:induction false} ParseDecimalOfDecimal(n: nat)
    ensures ParseDecimal(Decimal(n)) == n
  {
    if n >= 10 {
      var s := Decimal(n);
      ParseDecimalOfDecimal(n / 10);
      assert s[..|s| - 1] == Decimal(n / 10);
    }
  }

  lemma ParseDecimalOfPad2(n: nat)
    ensures ParseDecimal(Pad2(n)) == n
  {
    if n < 10 {
      var s := Pad2(n);
      assert s[..1] == ['0'];
      var zero: string := ['0'];
      assert zero[..0] == [];
      assert ParseDecimal(zero) == 0;
    } else {
      ParseDecimalOfDecimal(n);
    }
  }

  /** A rendered duration splits at `:` into its padded fields. */
  lemma RenderFields(ms: nat, f: Format)
    ensures Split(Render(ms, f), ":") == PadAll(Fields(ms, f))
  {
    var parts := PadAll(Fields(ms, f));
    forall i | 0 <= i < |parts| ensures ':' !in parts[i] {
    }
    assert ":" == [':'];
    SplitJoin(parts, ':');
  }

  /** The fields of a format, read in base 60, give back the whole seconds of the duration. */
  lemma FieldsValue(ms: nat, f: Format)
    ensures Sexagesimal(Fields(ms, f)) == ms / SecondMillis
  {
    var secs := ms / SecondMillis;
    var fields := Fields(ms, f);
    if f == MinutesSeconds {
      assert fields[..1] == [secs / 60];
      assert Sexagesimal([secs / 60]) == secs / 60 by {
        assert [secs / 60][..0] == [];
      }
    } else {
      var q := secs / 60;
      var hm := [secs / 3600, secs / 60 % 60];
      assert fields[..2] == hm;
      assert hm[..1] == [secs / 3600];
      assert [secs / 3600][..0] == [];
      assert Sexagesimal([secs / 3600]) == secs / 3600;
      assert Sexagesimal(hm) == secs / 3600 * 60 + q % 60;
      assert secs == q * 60 + secs % 60;
      assert q == q / 60 * 60 + q % 60;
      assert secs / 3600 == q / 60;
      assert Sexagesimal(fields[..2]) == q;
    }
  }

  /**
   * Reading a rendered duration back gives its whole seconds, and the
   * number of fields is fixed by the format: two for `mm:ss`, three for
   * `hh:mm:ss`.
   */
  lemma RenderRoundTrip(ms: nat, f: Format)
    ensures |Split(Render(ms, f), ":")| == (if f == MinutesSeconds then 2 else 3)
    ensures ReadClock(Render(ms, f)) == ms / SecondMillis
  {
    RenderFields(ms, f);
    var fields := Fields(ms, f);
    var parts := PadAll(fields);
    var values := seq(|parts|, i requires 0 <= i < |parts| => ParseDecimal(parts[i]));
    forall i | 0 <= i < |parts| ensures values[i] == fields[i] {
      ParseDecimalOfPad2(fields[i]);
    }
    assert values == fields;
    FieldsValue(ms, f);
  }

  /** The one `/` of a timestamp separates its two halves. */
  lemma TimestampHalves(streamMs: nat, totalMs: nat)
    ensures var f := ChooseFormat(totalMs);
      Split(GetTimestamp(streamMs, totalMs), "/") == [Render(streamMs, f), Render(totalMs, f)]
  {
    var f := ChooseFormat(totalMs);
    RenderWithoutSlash(streamMs, f);
    RenderWithoutSlash(totalMs, f);
    var halves := [Render(streamMs, f), Render(totalMs, f)];
    assert Join(halves, "/") == GetTimestamp(streamMs, totalMs) by {
      assert halves[1..] == [Render(totalMs, f)];
    }
    assert "/" == ['/'];
    SplitJoin(halves, '/');
  }

  /** A rendered duration is digits and colons only. */
  lemma {:induction false} RenderWithoutSlash(ms: nat, f: Format)
    ensures '/' !in Render(ms, f)
  {
    var parts := PadAll(Fields(ms, f));
    JoinWithout(parts, ':', '/');
  }

  lemma {:induction false} JoinWithout(parts: seq<string>, c: char, d: char)
    requires |parts| >= 1 && c != d
    requires forall i, j :: 0 <= i < |parts| && 0 <= j < |parts[i]| ==> IsDigit(parts[i][j])
    requires !IsDigit(d)
    ensures d !in Join(parts, [c])
  {
    if |parts| > 1 {
      JoinWithout(parts[1..], c, d);
    }
  }

  /**
   * Both halves of a timestamp use the same format: two fields each when the
   * total is under one hour, three fields each otherwise (a total of exactly
   * one hour included), and each half reads back as its duration's whole
   * seconds.
   */
  lemma TimestampSharesFormat(streamMs: nat, totalMs: nat)
    ensures var halves := Split(GetTimestamp(streamMs, totalMs), "/");
      && |halves| == 2
      && |Split(halves[0], ":")| == |Split(halves[1], ":")| == (if totalMs < HourMillis then 2 else 3)
      && ReadClock(halves[0]) == streamMs / SecondMillis
      && ReadClock(halves[1]) == totalMs / SecondMillis
  {
    TimestampHalves(streamMs, totalMs);
    RenderRoundTrip(streamMs, ChooseFormat(totalMs));
    RenderRoundTrip(totalMs, ChooseFormat(totalMs));
  }

  /** `mm:ss` written out field by field. */
  lemma RenderMinutesSeconds(ms: nat)
    ensures var secs := ms / SecondMillis;
      Render(ms, MinutesSeconds) == Pad2(secs / 60) + ":" + Pad2(secs % 60)
  {
    var secs := ms / SecondMillis;
    var parts := PadAll(Fields(ms, MinutesSeconds));
    assert parts == [Pad2(secs / 60), Pad2(secs % 60)];
    assert parts[1..] == [Pad2(secs % 60)];
    assert Join(parts[1..], ":") == Pad2(secs % 60);
    assert Join(parts, ":") == parts[0] + ":" + Join(parts[1..], ":");
  }

  /** `hh:mm:ss` written out field by field. */
  lemma RenderHoursMinutesSeconds(ms: nat)
    ensures var secs := ms / SecondMillis;
      Render(ms, HoursMinutesSeconds) == Pad2(secs / 3600) + ":" + Pad2(secs / 60 % 60) + ":" + Pad2(secs % 60)
  {
    var secs := ms / SecondMillis;
    var parts := PadAll(Fields(ms, HoursMinutesSeconds));
    assert parts == [Pad2(secs / 3600), Pad2(secs / 60 % 60), Pad2(secs % 60)];
    assert parts[1..] == [Pad2(secs / 60 % 60), Pad2(secs % 60)];
    assert parts[1..][1..] == [Pad2(secs % 60)];
    assert Join(parts[1..][1..], ":") == Pad2(secs % 60);
    assert Join(parts[1..], ":") == Pad2(secs / 60 % 60) + ":" + Pad2(secs % 60);
    assert Join(parts, ":") == parts[0] + ":" + Join(parts[1..], ":");
  }

  lemma RenderNinetySecondsLong()
    ensures Render(90_000, HoursMinutesSeconds) == "00:01:30"
  {
    RenderHoursMinutesSeconds(90_000);
    var secs := 90_000 / SecondMillis;
    assert secs == 90 && secs / 3600 == 0 && secs / 60 % 60 == 1 && secs % 60 == 30;
    var h, m, s := Pad2(0), Pad2(1), Pad2(30);
    assert h == "00" && m == "01";
    assert s == "30" by {
      assert Decimal(30) == Decimal(3) + [DigitChar(0)];
    }
    assert h + ":" + m + ":" + s == "00:01:30";
  }

  lemma RenderOneHourLong()
    ensures Render(HourMillis, HoursMinutesSeconds) == "01:00:00"
  {
    RenderHoursMinutesSeconds(HourMillis);
    var secs := HourMillis / SecondMillis;
    assert secs == 3600 && secs / 3600 == 1 && secs / 60 % 60 == 0 && secs % 60 == 0;
    var h, z := Pad2(1), Pad2(0);
    assert h == "01" && z == "00";
    assert h + ":" + z + ":" + z == "01:00:00";
  }

  lemma RenderNinetySecondsShort()
    ensures Render(90_000, MinutesSeconds) == "01:30"
  {
    RenderMinutesSeconds(90_000);
    var secs := 90_000 / SecondMillis;
    assert secs == 90 && secs / 60 == 1 && secs % 60 == 30;
    var m, s := Pad2(1), Pad2(30);
    assert m == "01";
    assert s == "30" by {
      assert Decimal(30) == Decimal(3) + [DigitChar(0)];
    }
    assert m + ":" + s == "01:30";
  }

  lemma RenderLastSecondShort()
    ensures Render(HourMillis - 1, MinutesSeconds) == "59:59"
  {
    RenderMinutesSeconds(HourMillis - 1);
    var secs := (HourMillis - 1) / SecondMillis;
    assert secs == 3599 && secs / 60 == 59 && secs % 60 == 59;
    var m := Pad2(59);
    assert m == "59" by {
      assert Decimal(59) == Decimal(5) + [DigitChar(9)];
    }
    assert m + ":" + m == "59:59";
  }

  /** Ninety seconds into a track of exactly one hour: the total is not under an hour, so both halves show hours. */
  lemma OneHourShowsHours()
    ensures GetTimestamp(90_000, HourMillis) == "00:01:30/01:00:00"
  {
    RenderNinetySecondsLong();
    RenderOneHourLong();
  }

  /** One millisecond less and the total is under an hour: both halves show minutes and seconds. */
  lemma UnderAnHourShowsMinutes()
    ensures GetTimestamp(90_000, HourMillis - 1) == "01:30/59:59"
  {
    RenderNinetySecondsShort();
    RenderLastSecondShort();
  }
}
