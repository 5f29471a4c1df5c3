/** One row of the registrations table, before and after the derivation of
    its `Year` and `Quarter` columns (dashboard/app.py lines 42-46). */
module Records {
  import opened Options
  import Lex

  /** Under pandas 2, `pd.to_datetime` yields nanosecond timestamps, which
      only exist for years 1677 to 2262; every parsed date has a four-digit
      year. */
  type TimestampYear = y: int | 1677 <= y <= 2262 witness 1970
  type Month = m: int | 1 <= m <= 12 witness 1
  type Day = d: int | 1 <= d <= 31 witness 1

  datatype Date = Date(year: TimestampYear, month: Month, day: Day)

  /** A row as read: a missing date is NaT, and `pd.to_numeric(errors='coerce')`
      turns a non-numeric count into NaN. */
  datatype RawRow = RawRow(
    date: Option<Date>,
    category: string,
    manufacturer: string,
    registrations: Option<nat>)

  /** A row with its derived columns: `Year` is NaN and `Quarter` is the
      text "NaT" when the date is missing. */
  datatype Record = Record(
    year: Option<int>,
    quarter: string,
    category: string,
    manufacturer: string,
    registrations: Option<nat>)

  /** Calendar quarter of a month, as `to_period('Q')` assigns it. */
  function QuarterOf(month: Month): (q: int)
    ensures 1 <= q <= 4
    ensures 3 * (q - 1) < month <= 3 * q
  {
    (month - 1) / 3 + 1
  }

  function DigitChar(n: int): char
    requires 0 <= n <= 9
  {
    (48 + n) as char
  }

  function DigitValue(c: char): Option<int>
  {
    if '0' <= c <= '9' then Some(c as int - 48) else None
  }

  /** The four decimal digits of a year below 10000, most significant first. */
  function YearDigits(year: int): (d: seq<int>)
    requires 0 <= year <= 9999
    ensures |d| == 4 && forall i :: 0 <= i < 4 ==> 0 <= d[i] <= 9
    ensures year == 1000 * d[0] + 100 * d[1] + 10 * d[2] + d[3]
  {
    var tens := year / 10;
    var hundreds := tens / 10;
    assert year == 10 * tens + year % 10;
    assert tens == 10 * hundreds + tens % 10;
    assert hundreds == 10 * (hundreds / 10) + hundreds % 10;
    [hundreds / 10, hundreds % 10, tens % 10, year % 10]
  }

  /** The text of a quarterly period, `str(Period)`: four year digits, 'Q', the quarter. */
  function Label(year: int, q: int): string
    requires 0 <= year <= 9999 && 1 <= q <= 4
  {
    var d := YearDigits(year);
    [DigitChar(d[0]), DigitChar(d[1]), DigitChar(d[2]), DigitChar(d[3]), 'Q', DigitChar(q)]
  }

  /** The text pandas writes for a missing period. */
  const MissingLabel: string := "NaT"

  function QuarterLabel(date: Option<Date>): string
  {
    match date
    case None => MissingLabel
    case Some(d) => Label(d.year, QuarterOf(d.month))
  }

  /** Reads a label of the form "YYYYQn" back into its year and quarter. */
  function ParseLabel(s: string): Option<(int, int)>
  {
    if |s| == 6 && s[4] == 'Q' && '1' <= s[5] <= '4'
       && DigitValue(s[0]).Some? && DigitValue(s[1]).Some?
       && DigitValue(s[2]).Some? && DigitValue(s[3]).Some?
    then
      Some((1000 * DigitValue(s[0]).value + 100 * DigitValue(s[1]).value
            + 10 * DigitValue(s[2]).value + DigitValue(s[3]).value,
            s[5] as int - 48))
    else None
  }

  /** The label is read back as the year and quarter it was made from. */
  lemma LabelRoundTrip(year: int, q: int)
    requires 0 <= year <= 9999 && 1 <= q <= 4
    ensures ParseLabel(Label(year, q)) == Some((year, q))
  {
    var d := YearDigits(year);
  }

  /** The missing-date text is not the label of any quarter. */
  lemma MissingLabelIsNoQuarter()
    ensures ParseLabel(MissingLabel) == None
  {
  }

  /** Derivation of the `Year`, `Quarter`, `Vehicle Category` and
      `Registrations` columns from one row. */
  function Derive(raw: RawRow): (r: Record)
    ensures r.category == raw.category && r.manufacturer == raw.manufacturer
    ensures r.registrations == raw.registrations
    ensures raw.date.None? ==> r.year.None? && r.quarter == MissingLabel
    ensures raw.date.Some? ==>
      && r.year == Some(raw.date.value.year)
      && ParseLabel(r.quarter) == Some((raw.date.value.year, QuarterOf(raw.date.value.month)))
  {
    if raw.date.Some? then
      LabelRoundTrip(raw.date.value.year, QuarterOf(raw.date.value.month));
      Record(Some(raw.date.value.year), QuarterLabel(raw.date), raw.category,
             raw.manufacturer, raw.registrations)
    else
      Record(None, QuarterLabel(raw.date), raw.category, raw.manufacturer, raw.registrations)
  }

  /** The derived columns of a whole table, row for row. */
  function DeriveAll(raws: seq<RawRow>): seq<Record>
  {
    seq(|raws|, i requires 0 <= i < |raws| => Derive(raws[i]))
  }

  /** Comparing quarter labels as strings is comparing (year, quarter)
      chronologically, for every four-digit year. */
  lemma LabelOrderIsChronological(y1: int, q1: int, y2: int, q2: int)
    requires 0 <= y1 <= 9999 && 1 <= q1 <= 4
    requires 0 <= y2 <= 9999 && 1 <= q2 <= 4
    ensures Lex.Less(Label(y1, q1), Label(y2, q2)) <==> (y1 < y2 || (y1 == y2 && q1 < q2))
  {
    if y1 < y2 || (y1 == y2 && q1 < q2) {
      LabelEarlier(y1, q1, y2, q2);
    } else if y1 == y2 && q1 == q2 {
      Lex.Irreflexive(Label(y1, q1));
    } else {
      LabelEarlier(y2, q2, y1, q1);
      Lex.Asymmetric(Label(y2, q2), Label(y1, q1));
    }
  }

  lemma LabelEarlier(y1: int, q1: int, y2: int, q2: int)
    requires 0 <= y1 <= 9999 && 1 <= q1 <= 4
    requires 0 <= y2 <= 9999 && 1 <= q2 <= 4
    requires y1 < y2 || (y1 == y2 && q1 < q2)
    ensures Lex.Less(Label(y1, q1), Label(y2, q2))
  {
    var a, b := Label(y1, q1), Label(y2, q2);
    var d1, d2 := YearDigits(y1), YearDigits(y2);
    if d1[0] != d2[0] {
      Lex.LessAt(a, b, 0);
    } else if d1[1] != d2[1] {
      Lex.LessAt(a, b, 1);
    } else if d1[2] != d2[2] {
      Lex.LessAt(a, b, 2);
    } else if d1[3] != d2[3] {
      Lex.LessAt(a, b, 3);
    } else {
      Lex.LessAt(a, b, 5);
    }
  }

  /** Every dated quarter sorts before the missing-date bucket "NaT". */
  lemma LabelBeforeMissing(y: int, q: int)
    requires 0 <= y <= 9999 && 1 <= q <= 4
    ensures Lex.Less(Label(y, q), MissingLabel)
  {
    Lex.LessAt(Label(y, q), MissingLabel, 0);
  }
}
