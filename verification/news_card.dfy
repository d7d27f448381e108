/** The relative publication time on a news card: whole hours elapsed decide
    between "Just now", "{n}h ago", "Yesterday" and a short calendar date. */
module NewsCard {
  import opened Wrappers
  import opened Strings

  const MsPerHour := 1000 * 60 * 60
  const InvalidDate := "Invalid Date"

  /** `Math.floor((now - date) / 3600000)` on millisecond timestamps. */
  function DiffInHours(date: int, now: int): (h: int)
    ensures h * MsPerHour <= now - date < (h + 1) * MsPerHour
  {
    (now - date) / MsPerHour
  }

  /** The four kinds of label. */
  datatype Label = JustNow | HoursAgo(hours: int) | Yesterday | ShortDate {
    /** How far along the sequence of labels this one is. */
    function Rank(): nat {
      match this
      case JustNow => 0
      case HoursAgo(_) => 1
      case Yesterday => 2
      case ShortDate => 3
    }
  }

  /** The label for a parsed date; an unparsable date (`None`) fails every
      comparison and so ends with the calendar date. */
  function Bucket(date: Option<int>, now: int): (l: Label)
    ensures date.None? ==> l == ShortDate
    ensures date.Some? ==> var h := DiffInHours(date.value, now);
              && (l == JustNow <==> h < 1)
              && (l.HoursAgo? <==> 1 <= h < 24)
              && (l == Yesterday <==> 24 <= h < 48)
              && (l == ShortDate <==> h >= 48)
    ensures l.HoursAgo? ==> 1 <= l.hours < 24
  {
    match date
    case None => ShortDate
    case Some(d) =>
      var h := DiffInHours(d, now);
      if h < 1 then JustNow
      else if h < 24 then HoursAgo(h)
      else if h < 48 then Yesterday
      else ShortDate
  }

  /** `formatDate`: the label as text. `localeShort` renders a parsed date as
      `toLocaleDateString("en-US", { month: "short", day: "numeric" })`. */
  function FormatDate(date: Option<int>, now: int, localeShort: int -> string): (text: string)
    ensures date.None? ==> text == InvalidDate
    ensures date.Some? ==> var h := DiffInHours(date.value, now);
              && (h < 1 ==> text == "Just now")
              && (1 <= h < 24 ==> text == IntToDecimal(h) + "h ago")
              && (24 <= h < 48 ==> text == "Yesterday")
              && (h >= 48 ==> text == localeShort(date.value))
  {
    match Bucket(date, now)
    case JustNow => "Just now"
    case HoursAgo(h) => IntToDecimal(h) + "h ago"
    case Yesterday => "Yesterday"
    case ShortDate => if date.Some? then localeShort(date.value) else InvalidDate
  }

  /** A date in the future reads "Just now". */
  lemma FutureIsJustNow(date: int, now: int)
    requires now <= date
    ensures Bucket(Some(date), now) == JustNow
  {
  }

  /** The hour count grows with the clock. */
  lemma DiffGrowsWithNow(date: int, now: int, later: int)
    requires now <= later
    ensures DiffInHours(date, now) <= DiffInHours(date, later)
  {
  }

  /** For a fixed date the label only moves forward as time passes, and within
      "{n}h ago" the count does not go down. */
  lemma {:induction false} LabelsMoveForward(date: Option<int>, now: int, later: int)
    requires now <= later
    ensures Bucket(date, now).Rank() <= Bucket(date, later).Rank()
    ensures Bucket(date, now).HoursAgo? && Bucket(date, later).HoursAgo? ==>
              Bucket(date, now).hours <= Bucket(date, later).hours
  {
    if date.Some? {
      DiffGrowsWithNow(date.value, now, later);
    }
  }

  /** Different hour counts are shown as different texts. */
  lemma {:induction false} HourLabelsDistinct(date: int, now: int, date': int, now': int, localeShort: int -> string)
    requires Bucket(Some(date), now).HoursAgo? && Bucket(Some(date'), now').HoursAgo?
    requires FormatDate(Some(date), now, localeShort) == FormatDate(Some(date'), now', localeShort)
    ensures DiffInHours(date, now) == DiffInHours(date', now')
  {
    var a, b := IntToDecimal(DiffInHours(date, now)), IntToDecimal(DiffInHours(date', now'));
    assert a + "h ago" == b + "h ago";
    assert |a| == |b|;
    assert a == (a + "h ago")[..|a|];
    IntToDecimalInjective(DiffInHours(date, now), DiffInHours(date', now'));
  }

  /** The count in "{n}h ago" reads back as the elapsed hours. */
  lemma {:induction false} HoursReadBack(date: int, now: int, localeShort: int -> string)
    requires Bucket(Some(date), now).HoursAgo?
    ensures var text := FormatDate(Some(date), now, localeShort);
            |text| > 5 && ParseInt(text[..|text| - 5]) == Some(DiffInHours(date, now))
  {
    var h := DiffInHours(date, now);
    var digits := IntToDecimal(h);
    var text := FormatDate(Some(date), now, localeShort);
    assert text == digits + "h ago";
    assert text[..|text| - 5] == digits;
    IntDecimalRoundTrip(h);
  }
}
