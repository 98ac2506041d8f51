/**
 * The record model shared by every view: event and library records as the
 * application keeps them (src/App.jsx), and the calendar dates that the views
 * compare through JavaScript's `Date`.
 */
module Records {

  datatype Option<T> = None | Some(value: T)

  /** Attendance of one event, split as the form asks for it. */
  datatype Attendees = Attendees(adults: int, children: int)

  /**
   * Everything an event record holds except its id: this is the payload the
   * event form edits and hands to `addEvent` / `updateEvent`.
   * `date` is the ISO `YYYY-MM-DD` text of a date input ("" when unset).
   */
  datatype EventData = EventData(
    title: string,
    library: string,
    category: string,
    date: string,
    attendees: Attendees,
    cost: real,
    fundingSource: string,
    description: string)

  /** A stored event: the payload plus the id the store assigned. */
  datatype Event = Event(id: int, data: EventData)

  datatype Library = Library(id: int, name: string, location: string, capacity: int)

  /** A calendar day. */
  datatype Date = Date(year: int, month: int, day: int)

  /** A point in time: a UTC day and the milliseconds elapsed since its midnight. */
  datatype Instant = Instant(day: Date, millis: nat)

  // ---------------------------------------------------------------------------
  // ISO date text

  predicate IsDigit(c: char) { '0' <= c <= '9' }

  function DigitValue(c: char): (n: int)
    requires IsDigit(c)
    ensures 0 <= n <= 9
  {
    c as int - '0' as int
  }

  function DigitChar(n: int): (c: char)
    requires 0 <= n <= 9
    ensures IsDigit(c) && DigitValue(c) == n
  {
    ('0' as int + n) as char
  }

  /** The number written by two decimal digits. */
  function TwoDigits(a: char, b: char): (n: int)
    requires IsDigit(a) && IsDigit(b)
    ensures 0 <= n <= 99
  {
    DigitValue(a) * 10 + DigitValue(b)
  }

  /** The number written by four decimal digits. */
  function FourDigits(a: char, b: char, c: char, d: char): (n: int)
    requires IsDigit(a) && IsDigit(b) && IsDigit(c) && IsDigit(d)
    ensures 0 <= n <= 9999
  {
    TwoDigits(a, b) * 100 + TwoDigits(c, d)
  }

  /** A valid day in the sense the model checks: month 1..12 and day 1..31. */
  predicate ValidDate(d: Date) {
    0 <= d.year <= 9999 && 1 <= d.month <= 12 && 1 <= d.day <= 31
  }

  /**
   * What `new Date(s)` accepts of the text a date input produces: exactly
   * `YYYY-MM-DD`; anything else is an invalid date.
   */
  function ParseIsoDate(s: string): (r: Option<Date>)
    ensures r.Some? ==> ValidDate(r.value) && |s| == 10
  {
    if |s| == 10 && s[4] == '-' && s[7] == '-'
       && (forall i :: 0 <= i < 10 && i != 4 && i != 7 ==> IsDigit(s[i]))
    then
      var d := Date(FourDigits(s[0], s[1], s[2], s[3]), TwoDigits(s[5], s[6]), TwoDigits(s[8], s[9]));
      if ValidDate(d) then Some(d) else None
    else None
  }

  /** A number below 100 written with two digits, zero-padded. */
  function TwoDigitText(n: int): (s: string)
    requires 0 <= n <= 99
    ensures |s| == 2 && IsDigit(s[0]) && IsDigit(s[1])
  {
    [DigitChar(n / 10), DigitChar(n % 10)]
  }

  /** The `YYYY-MM-DD` text of a valid date. */
  function FormatIsoDate(d: Date): (s: string)
    requires ValidDate(d)
    ensures |s| == 10 && s[4] == '-' && s[7] == '-'
  {
    TwoDigitText(d.year / 100) + TwoDigitText(d.year % 100) + "-" + TwoDigitText(d.month) + "-" + TwoDigitText(d.day)
  }

  /** Splitting a number below 100 into two digits and reading them back. */
  lemma TwoDigitsOf(n: int)
    requires 0 <= n <= 99
    ensures TwoDigits(DigitChar(n / 10), DigitChar(n % 10)) == n
  {
  }

  /** Formatting a valid date and reading it back gives the same date. */
  lemma ParseFormat(d: Date)
    requires ValidDate(d)
    ensures ParseIsoDate(FormatIsoDate(d)) == Some(d)
  {
    var s := FormatIsoDate(d);
    TwoDigitsOf(d.year / 100);
    TwoDigitsOf(d.year % 100);
    TwoDigitsOf(d.month);
    TwoDigitsOf(d.day);
    assert FourDigits(s[0], s[1], s[2], s[3]) == d.year / 100 * 100 + d.year % 100;
  }

  /** Reading two digits and writing the number back gives the same two digits. */
  lemma TwoDigitTextOf(a: char, b: char)
    requires IsDigit(a) && IsDigit(b)
    ensures TwoDigitText(TwoDigits(a, b)) == [a, b]
  {
    var n := TwoDigits(a, b);
    assert n / 10 == DigitValue(a) && n % 10 == DigitValue(b);
  }

  /** Text that reads as a date is exactly that date's `YYYY-MM-DD` form. */
  lemma FormatParse(s: string)
    requires ParseIsoDate(s).Some?
    ensures FormatIsoDate(ParseIsoDate(s).value) == s
  {
    var d := ParseIsoDate(s).value;
    var hi, lo := TwoDigits(s[0], s[1]), TwoDigits(s[2], s[3]);
    assert d.year == hi * 100 + lo;
    assert d.year / 100 == hi && d.year % 100 == lo;
    TwoDigitTextOf(s[0], s[1]);
    TwoDigitTextOf(s[2], s[3]);
    TwoDigitTextOf(s[5], s[6]);
    TwoDigitTextOf(s[8], s[9]);
    assert FormatIsoDate(d) == [s[0], s[1]] + [s[2], s[3]] + "-" + [s[5], s[6]] + "-" + [s[8], s[9]];
    assert s == [s[0], s[1]] + [s[2], s[3]] + "-" + [s[5], s[6]] + "-" + [s[8], s[9]];
  }

  // ---------------------------------------------------------------------------
  // Ordering of days

  /** Chronological order of calendar days. */
  predicate DateLe(a: Date, b: Date) {
    a.year < b.year || (a.year == b.year && (a.month < b.month || (a.month == b.month && a.day <= b.day)))
  }

  /**
   * A day count that grows with the calendar: a month is given 31 slots, a
   * year 12 months. It stands in for the millisecond timestamp JavaScript
   * subtracts when it sorts by date.
   */
  function DayNumber(d: Date): int {
    d.year * 372 + (d.month - 1) * 31 + (d.day - 1)
  }

  /** On valid days, comparing day numbers is comparing dates. */
  lemma DayNumberOrder(a: Date, b: Date)
    requires ValidDate(a) && ValidDate(b)
    ensures DateLe(a, b) <==> DayNumber(a) <= DayNumber(b)
    ensures DayNumber(a) == DayNumber(b) <==> a == b
  {
    if a.year < b.year {
      assert DayNumber(a) < a.year * 372 + 372 <= b.year * 372 <= DayNumber(b);
    } else if b.year < a.year {
      assert DayNumber(b) < b.year * 372 + 372 <= a.year * 372 <= DayNumber(a);
    }
  }

  /** `new Date(a) >= new Date(b)` on two ISO texts: false when either is invalid. */
  predicate OnOrAfter(a: string, b: string) {
    ParseIsoDate(a).Some? && ParseIsoDate(b).Some? && DateLe(ParseIsoDate(b).value, ParseIsoDate(a).value)
  }

  /** `new Date(a) <= new Date(b)` on two ISO texts: false when either is invalid. */
  predicate OnOrBefore(a: string, b: string) {
    OnOrAfter(b, a)
  }

  /**
   * `new Date(date) >= now`: the date means midnight UTC of that day, so a
   * date is upcoming when it is a later day than now, or today at exactly
   * midnight.
   */
  predicate IsUpcoming(date: string, now: Instant) {
    match ParseIsoDate(date)
    case Some(d) => (DateLe(now.day, d) && d != now.day) || (d == now.day && now.millis == 0)
    case None => false
  }

  /**
   * The key by which the views sort "recent" lists (newest first): the day
   * number of the event's date, or -1 for an unreadable date, which sorts it last.
   */
  function Recency(e: Event): (r: int)
    ensures r >= -1
    ensures ParseIsoDate(e.data.date).Some? <==> r >= 0
  {
    match ParseIsoDate(e.data.date)
    case Some(d) => DayNumber(d)
    case None => -1
  }

  /** A later date has a larger recency and the same date the same one. */
  lemma RecencyOrder(a: Event, b: Event)
    requires ParseIsoDate(a.data.date).Some? && ParseIsoDate(b.data.date).Some?
    ensures Recency(a) <= Recency(b) <==> OnOrBefore(a.data.date, b.data.date)
  {
    DayNumberOrder(ParseIsoDate(a.data.date).value, ParseIsoDate(b.data.date).value);
  }
}
