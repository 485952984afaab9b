/** Date and time text as the pages print it: `formatDateTime` and
    `formatDate` of the storefront constants and the admin session list,
    and the `datetime-local` / `date` input texts of the event editor.
    Parsing a date string into local calendar fields (`new Date(x)`) is
    not modelled: the parse outcome is the input. */
module Dates {
  import opened Js

  /** getFullYear(), getMonth() + 1 and getDate() of a valid Date. */
  datatype Ymd = Ymd(year: int, month: nat, day: nat)

  /** getHours() and getMinutes() of a valid Date. */
  datatype Hm = Hm(hours: nat, minutes: nat)

  datatype Parts = Parts(date: Ymd, time: Hm)

  /** What a formatter receives: a falsy argument (never parsed), a value
      that `new Date` turns into an Invalid Date, or a valid date. */
  datatype DateInput = Falsy | Invalid | Valid(parts: Parts)

  /** Calendar ranges of the fields a valid Date reports. */
  predicate Calendar(p: Parts) {
    && 1 <= p.date.month <= 12 && 1 <= p.date.day <= 31
    && p.time.hours < 24 && p.time.minutes < 60
  }

  /** Every field of an Invalid Date is NaN, and `String(NaN)` is already
      longer than two characters, so `padStart` leaves it alone. */
  const NaNText: string := "NaN"

  /** `${year}-${month}-${day}`: the year unpadded, month and day padded
      to two digits. */
  function DateText(d: Ymd): string {
    IntToString(d.year) + "-" + Pad2(d.month) + "-" + Pad2(d.day)
  }

  /** `${hours}:${minutes}`, both padded to two digits. */
  function TimeText(t: Hm): string {
    Pad2(t.hours) + ":" + Pad2(t.minutes)
  }

  const InvalidDateText: string := NaNText + "-" + NaNText + "-" + NaNText
  const InvalidTimeText: string := NaNText + ":" + NaNText

  /** The date part of a non-falsy input. */
  function DateOf(d: DateInput): string
    requires !d.Falsy?
  {
    if d.Invalid? then InvalidDateText else DateText(d.parts.date)
  }

  /** The time part of a non-falsy input. */
  function TimeOf(d: DateInput): string
    requires !d.Falsy?
  {
    if d.Invalid? then InvalidTimeText else TimeText(d.parts.time)
  }

  /** `formatDateTime`: "-" for a falsy argument, otherwise date, a space
      and hours:minutes. */
  function FormatDateTime(d: DateInput): (s: string)
    ensures s == "-" <==> d.Falsy?
  {
    if d.Falsy? then "-" else Stamp(d, ' ')
  }

  /** The event editor's `formatDateTimeLocal`: "" for a falsy argument,
      otherwise the `datetime-local` text with a 'T' separator. */
  function FormatDateTimeLocal(d: DateInput): (s: string)
    ensures s == "" <==> d.Falsy?
  {
    if d.Falsy? then "" else Stamp(d, 'T')
  }

  /** Date, separator, time. */
  function Stamp(d: DateInput, sep: char): (s: string)
    requires !d.Falsy?
    ensures |s| >= 13
  {
    DateOf(d) + [sep] + TimeOf(d)
  }

  /** `formatDate` of the storefront: "-" for a falsy argument, otherwise
      the date part. */
  function FormatDate(d: DateInput): (s: string)
    ensures s == "-" <==> d.Falsy?
  {
    if d.Falsy? then "-" else DateOf(d)
  }

  /** The event editor's `formatDate` for `date` inputs: "" unless the
      argument is a valid date. */
  function FormatInputDate(d: DateInput): (s: string)
    ensures s == "" <==> !d.Valid?
    ensures d.Valid? ==> s == FormatDate(d)
  {
    if d.Valid? then DateText(d.parts.date) else ""
  }

  /** Whatever the argument, `formatDate` prints a prefix of what
      `formatDateTime` prints, so a list showing only the date shows the
      same day as one showing the time too. */
  lemma DateIsPrefixOfDateTime(d: DateInput)
    ensures StartsWith(FormatDateTime(d), FormatDate(d))
  {
    if !d.Falsy? {
      StartsWithJoin(DateOf(d), [' '], TimeOf(d));
    }
  }

  /** Slicing a head, one separator and a tail back apart. */
  lemma Joined(a: string, c: char, b: string)
    ensures |a + [c] + b| == |a| + 1 + |b|
    ensures (a + [c] + b)[..|a|] == a && (a + [c] + b)[|a|] == c && (a + [c] + b)[|a| + 1..] == b
    ensures forall i :: 0 <= i < |a| ==> (a + [c] + b)[i] == a[i]
    ensures forall i :: |a| < i < |a| + 1 + |b| ==> (a + [c] + b)[i] == b[i - |a| - 1]
  {
  }

  /** The two date-time texts differ only in the separator, which sits
      right after the date part. */
  lemma LocalDiffersOnlyInSeparator(d: DateInput)
    requires !d.Falsy?
    ensures |FormatDateTime(d)| == |FormatDateTimeLocal(d)| > |FormatDate(d)|
    ensures FormatDateTime(d)[|FormatDate(d)|] == ' '
    ensures FormatDateTimeLocal(d)[|FormatDate(d)|] == 'T'
    ensures forall i :: 0 <= i < |FormatDateTime(d)| && i != |FormatDate(d)| ==>
              FormatDateTime(d)[i] == FormatDateTimeLocal(d)[i]
  {
    var a, b := DateOf(d), TimeOf(d);
    assert FormatDateTime(d) == a + [' '] + b;
    assert FormatDateTimeLocal(d) == a + ['T'] + b;
    assert FormatDate(d) == a;
    Joined(a, ' ', b);
    Joined(a, 'T', b);
  }

  // -----------------------------------------------------------------------
  // Reading the texts back

  /** The year, month and day of a "Y-MM-DD" text. */
  function ReadDate(s: string): (r: Option<Ymd>) {
    if |s| < 7 then None
    else
      var n := |s| - 6;
      var y, m, d := ParseInt(s[..n]), ParseInt(s[n + 1..n + 3]), ParseInt(s[n + 4..]);
      if s[n] == '-' && s[n + 3] == '-' && y.Some? && m.Some? && d.Some? && m.value >= 0 && d.value >= 0
      then Some(Ymd(y.value, m.value, d.value))
      else None
  }

  /** The hours and minutes of an "HH:mm" text. */
  function ReadTime(s: string): (r: Option<Hm>) {
    if |s| != 5 || s[2] != ':' then None
    else
      var h, m := ParseInt(s[..2]), ParseInt(s[3..]);
      if h.Some? && m.Some? && h.value >= 0 && m.value >= 0
      then Some(Hm(h.value, m.value))
      else None
  }

  /** The fields of a date, separator, time text. */
  function ReadStamp(s: string, sep: char): (r: Option<Parts>) {
    if |s| < 13 || s[|s| - 6] != sep then None
    else
      var d, t := ReadDate(s[..|s| - 6]), ReadTime(s[|s| - 5..]);
      if d.Some? && t.Some? then Some(Parts(d.value, t.value)) else None
  }

  lemma ReadDateText(d: Ymd)
    requires d.month < 100 && d.day < 100
    ensures ReadDate(DateText(d)) == Some(d)
  {
    ParseIntOfIntToString(d.year);
    ReadFields(IntToString(d.year), Pad2(d.month), Pad2(d.day), d);
  }

  /** A "Y-MM-DD" text whose three fields parse reads back as those fields. */
  lemma ReadFields(y: string, m: string, dd: string, d: Ymd)
    requires |y| >= 1 && |m| == 2 && |dd| == 2
    requires ParseInt(y) == Some(d.year) && ParseInt(m) == Some(d.month as int) && ParseInt(dd) == Some(d.day as int)
    ensures ReadDate(y + "-" + m + "-" + dd) == Some(d)
  {
    var s := y + "-" + m + "-" + dd;
    SplitDate(y, m, dd);
    ParsesAs(s[..|s| - 6], y, d.year);
    ParsesAs(s[|s| - 5..|s| - 3], m, d.month as int);
    ParsesAs(s[|s| - 2..], dd, d.day as int);
    ReadSliced(s, d);
  }

  lemma ParsesAs(a: string, b: string, v: int)
    requires a == b && ParseInt(b) == Some(v)
    ensures ParseInt(a) == Some(v)
  {
  }

  /** ReadDate on a text whose slices at the two dashes parse. */
  lemma ReadSliced(s: string, d: Ymd)
    requires |s| >= 7 && s[|s| - 6] == '-' && s[|s| - 3] == '-'
    requires ParseInt(s[..|s| - 6]) == Some(d.year)
    requires ParseInt(s[|s| - 5..|s| - 3]) == Some(d.month as int) && ParseInt(s[|s| - 2..]) == Some(d.day as int)
    ensures ReadDate(s) == Some(d)
  {
    var n := |s| - 6;
    assert s[n + 1..n + 3] == s[|s| - 5..|s| - 3] && s[n + 4..] == s[|s| - 2..];
  }

  /** Slicing "Y-MM-DD" back into its three fields, counted from the end. */
  lemma SplitDate(y: string, m: string, dd: string)
    requires |m| == 2 && |dd| == 2
    ensures var s := y + "-" + m + "-" + dd;
      && |s| == |y| + 6 && s[..|s| - 6] == y && s[|s| - 6] == '-' && s[|s| - 5..|s| - 3] == m
      && s[|s| - 3] == '-' && s[|s| - 2..] == dd
  {
    var s := y + "-" + m + "-" + dd;
    assert s[..|s| - 6] == y;
    assert s[|s| - 5..|s| - 3] == m;
    assert s[|s| - 2..] == dd;
  }

  lemma ReadTimeText(t: Hm)
    requires t.hours < 100 && t.minutes < 100
    ensures ReadTime(TimeText(t)) == Some(t)
  {
    var s := TimeText(t);
    assert s[..2] == Pad2(t.hours);
    assert s[3..] == Pad2(t.minutes);
  }

  /** Reading back a printed valid date gives the fields it was printed
      from: the printed text determines the date and time. */
  lemma ReadJoined(a: string, sep: char, b: string)
    requires |b| == 5 && ReadDate(a).Some? && ReadTime(b).Some?
    ensures ReadStamp(a + [sep] + b, sep) == Some(Parts(ReadDate(a).value, ReadTime(b).value))
  {
    Joined(a, sep, b);
    var s := a + [sep] + b;
    assert s[..|s| - 6] == a && s[|s| - 5..] == b;
  }

  lemma ReadStampOfStamp(p: Parts, sep: char)
    requires Calendar(p)
    ensures ReadStamp(Stamp(Valid(p), sep), sep) == Some(p)
  {
    ReadDateText(p.date);
    ReadTimeText(p.time);
    ReadJoined(DateText(p.date), sep, TimeText(p.time));
  }

  lemma FormatDateTimeRoundTrip(p: Parts)
    requires Calendar(p)
    ensures ReadStamp(FormatDateTime(Valid(p)), ' ') == Some(p)
    ensures ReadDate(FormatDate(Valid(p))) == Some(p.date)
  {
    ReadStampOfStamp(p, ' ');
    ReadDateText(p.date);
  }

  lemma FormatDateTimeLocalRoundTrip(p: Parts)
    requires Calendar(p)
    ensures ReadStamp(FormatDateTimeLocal(Valid(p)), 'T') == Some(p)
    ensures ReadDate(FormatInputDate(Valid(p))) == Some(p.date)
  {
    ReadStampOfStamp(p, 'T');
    ReadDateText(p.date);
  }

  /** The text printed for an Invalid Date reads back as no date at all. */
  lemma InvalidUnreadable(sep: char)
    ensures ReadStamp(Stamp(Invalid, sep), sep) == None
    ensures ReadDate(FormatDate(Invalid)) == None
  {
    var s := Stamp(Invalid, sep);
    assert |s| == 19 && s[13] == 'a';
    if sep == 'a' {
      assert s[14..][2] == 'N';
    }
    assert FormatDate(Invalid)[5] == 'a';
  }
}
