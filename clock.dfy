/**
 * Dates and times as `datetime.now()` supplies them, and the `strftime`
 * renderings the scripts store in file names, records and logs. The clock
 * itself is not modelled: every reading of it is a parameter.
 */
module Clock {
  import opened Text

  /** A local date and time to the second. */
  datatype DateTime = DateTime(year: nat, month: nat, day: nat, hour: nat, minute: nat, second: nat) {
    predicate Valid() {
      1 <= year <= 9999 && 1 <= month <= 12 && 1 <= day <= 31
      && hour < 24 && minute < 60 && second < 60
    }
  }

  /** A date and time that `datetime` can hold. */
  type Instant = t: DateTime | t.Valid() witness DateTime(1, 1, 1, 0, 0, 0)

  /** `a` comes strictly before `b`, to the second. */
  predicate Earlier(a: DateTime, b: DateTime) {
    if a.year != b.year then a.year < b.year
    else if a.month != b.month then a.month < b.month
    else if a.day != b.day then a.day < b.day
    else if a.hour != b.hour then a.hour < b.hour
    else if a.minute != b.minute then a.minute < b.minute
    else a.second < b.second
  }

  /** `%b` in the C locale. */
  function MonthAbbrev(m: nat): (r: string)
    requires 1 <= m <= 12
    ensures |r| == 3 && IsUpper(r[0]) && IsLower(r[1]) && IsLower(r[2])
  {
    ["Jan", "Feb", "Mar", "Apr", "May", "Jun", "Jul", "Aug", "Sep", "Oct", "Nov", "Dec"][m - 1]
  }

  /** `%Y` */
  function YearField(t: DateTime): (r: string)
    requires t.Valid()
    ensures |r| == 4 && forall i :: 0 <= i < 4 ==> IsDigit(r[i])
  {
    ZeroPad(t.year, 4)
  }

  /** `%m-%b` lower-cased, e.g. "03-mar": the month directory of the working log. */
  function MonthField(t: DateTime): (r: string)
    requires t.Valid()
    ensures |r| == 6 && IsDigit(r[0]) && IsDigit(r[1]) && r[2] == '-'
    ensures forall i :: 3 <= i < 6 ==> IsLower(r[i])
    ensures r[3..] == Lower(MonthAbbrev(t.month))
  {
    var raw := ZeroPad(t.month, 2) + "-" + MonthAbbrev(t.month);
    var r := Lower(raw);
    assert r[0] == LowerChar(raw[0]) && r[1] == LowerChar(raw[1]) && r[2] == LowerChar(raw[2]);
    assert forall i :: 3 <= i < 6 ==> r[i] == LowerChar(raw[i]) && raw[i] == MonthAbbrev(t.month)[i - 3];
    r
  }

  /** `%d` */
  function DayField(t: DateTime): (r: string)
    requires t.Valid()
    ensures |r| == 2 && IsDigit(r[0]) && IsDigit(r[1])
  {
    ZeroPad(t.day, 2)
  }

  /** `%Y%m%d_%H%M%S`: eight digits, an underscore, six digits. */
  function SessionId(t: DateTime): (id: string)
    requires t.Valid()
    ensures |id| == 15 && id[8] == '_'
    ensures forall i :: 0 <= i < 15 && i != 8 ==> IsDigit(id[i])
  {
    ZeroPad(t.year, 4) + ZeroPad(t.month, 2) + ZeroPad(t.day, 2) + "_"
    + ZeroPad(t.hour, 2) + ZeroPad(t.minute, 2) + ZeroPad(t.second, 2)
  }

  /** `%Y-%m-%d` */
  function DateStamp(t: DateTime): string
    requires t.Valid()
  {
    ZeroPad(t.year, 4) + "-" + ZeroPad(t.month, 2) + "-" + ZeroPad(t.day, 2)
  }

  /** `%Y-%m-%d %H:%M` */
  function MinuteStamp(t: DateTime): string
    requires t.Valid()
  {
    DateStamp(t) + " " + ZeroPad(t.hour, 2) + ":" + ZeroPad(t.minute, 2)
  }

  /** `%Y-%m-%d %H:%M:%S` */
  function SecondStamp(t: DateTime): string
    requires t.Valid()
  {
    MinuteStamp(t) + ":" + ZeroPad(t.second, 2)
  }

  /**
   * The working-log header names the month as `month.split('-')[1].title()`;
   * for a bucket made by `MonthField` that is the `%b` abbreviation again.
   */
  lemma {:induction false} MonthHeaderName(t: DateTime)
    requires t.Valid()
    ensures |Split(MonthField(t), "-")| == 2
    ensures Title(Split(MonthField(t), "-")[1]) == MonthAbbrev(t.month)
  {
    MonthFieldSplit(t);
    TitleOfLower(MonthAbbrev(t.month));
  }

  /** The month directory name splits at its one dash into the number and the lower-cased name. */
  lemma {:induction false} MonthFieldSplit(t: DateTime)
    requires t.Valid()
    ensures Split(MonthField(t), "-") == [MonthField(t)[..2], Lower(MonthAbbrev(t.month))]
  {
    var m := MonthField(t);
    assert OccursAt(m, "-", 2);
    FindFirst(m, "-", 2);
    FindOccurs(m, "-");
    assert !OccursAt(m, "-", 0) && !OccursAt(m, "-", 1);
    assert Find(m, "-") == 2;
    var tail := m[3..];
    if Contains(tail, "-") {
      FindOccurs(tail, "-");
    }
    assert !Contains(tail, "-");
    SplitHead(m, "-");
    SplitOnePiece(tail, "-");
  }

  /** Title-casing a lower-cased capitalised three-letter word gives the word back. */
  lemma {:induction false} TitleOfLower(a: string)
    requires |a| == 3 && IsUpper(a[0]) && IsLower(a[1]) && IsLower(a[2])
    ensures Title(Lower(a)) == a
  {
    var low := Lower(a);
    CaseRoundTrip(a[0]);
    assert Title(low)[0] == UpperChar(low[0]) == a[0];
    assert Title(low)[1] == LowerChar(low[1]) == a[1];
    assert Title(low)[2] == LowerChar(low[2]) == a[2];
  }

  /** Comparing two zero-padded fields followed by more text. */
  lemma {:induction false} ZeroPadThen(n: nat, m: nat, width: nat, r1: string, r2: string)
    requires n < Pow10(width) && m < Pow10(width)
    ensures LexLess(ZeroPad(n, width) + r1, ZeroPad(m, width) + r2)
            <==> n < m || (n == m && LexLess(r1, r2))
  {
    ZeroPadOrder(n, m, width);
    LexConcat(ZeroPad(n, width), r1, ZeroPad(m, width), r2);
  }

  /**
   * Session ids sort as their save times do: comparing two ids character by
   * character is comparing the two instants. Hence sorting `Session_<id>.json`
   * names newest-first lists sessions newest-first.
   */
  lemma {:induction false} SessionIdOrder(a: DateTime, b: DateTime)
    requires a.Valid() && b.Valid()
    ensures LexLess(SessionId(a), SessionId(b)) <==> Earlier(a, b)
  {
    SessionIdParts(a);
    SessionIdParts(b);
    MonthTailOrder(a, b);
    assert Pow10(4) == 10000;
    ZeroPadThen(a.year, b.year, 4, MonthTail(a), MonthTail(b));
  }

  /** The `%H%M%S` part of a session id. */
  function ClockTail(t: DateTime): string
    requires t.Valid()
  {
    ZeroPad(t.hour, 2) + ZeroPad(t.minute, 2) + ZeroPad(t.second, 2)
  }

  /** The `%d_%H%M%S` part of a session id. */
  function DayTail(t: DateTime): string
    requires t.Valid()
  {
    ZeroPad(t.day, 2) + ("_" + ClockTail(t))
  }

  /** The `%m%d_%H%M%S` part of a session id. */
  function MonthTail(t: DateTime): string
    requires t.Valid()
  {
    ZeroPad(t.month, 2) + DayTail(t)
  }

  lemma {:induction false} SessionIdParts(t: DateTime)
    requires t.Valid()
    ensures SessionId(t) == ZeroPad(t.year, 4) + MonthTail(t)
  {
  }

  lemma {:induction false} ClockTailOrder(a: DateTime, b: DateTime)
    requires a.Valid() && b.Valid()
    ensures LexLess(ClockTail(a), ClockTail(b))
            <==> a.hour < b.hour || (a.hour == b.hour && (a.minute < b.minute
                 || (a.minute == b.minute && a.second < b.second)))
  {
    assert Pow10(2) == 100;
    var sa, sb := ZeroPad(a.second, 2), ZeroPad(b.second, 2);
    ZeroPadOrder(a.second, b.second, 2);
    ZeroPadThen(a.minute, b.minute, 2, sa, sb);
    assert ClockTail(a) == ZeroPad(a.hour, 2) + (ZeroPad(a.minute, 2) + sa);
    assert ClockTail(b) == ZeroPad(b.hour, 2) + (ZeroPad(b.minute, 2) + sb);
    ZeroPadThen(a.hour, b.hour, 2, ZeroPad(a.minute, 2) + sa, ZeroPad(b.minute, 2) + sb);
  }

  lemma {:induction false} DayTailOrder(a: DateTime, b: DateTime)
    requires a.Valid() && b.Valid()
    ensures LexLess(DayTail(a), DayTail(b))
            <==> a.day < b.day || (a.day == b.day && (a.hour < b.hour || (a.hour == b.hour
                 && (a.minute < b.minute || (a.minute == b.minute && a.second < b.second)))))
  {
    ClockTailOrder(a, b);
    LexCommonPrefix("_", ClockTail(a), ClockTail(b));
    assert Pow10(2) == 100;
    ZeroPadThen(a.day, b.day, 2, "_" + ClockTail(a), "_" + ClockTail(b));
  }

  lemma {:induction false} MonthTailOrder(a: DateTime, b: DateTime)
    requires a.Valid() && b.Valid()
    ensures LexLess(MonthTail(a), MonthTail(b))
            <==> a.month < b.month || (a.month == b.month && (a.day < b.day || (a.day == b.day
                 && (a.hour < b.hour || (a.hour == b.hour
                 && (a.minute < b.minute || (a.minute == b.minute && a.second < b.second)))))))
  {
    DayTailOrder(a, b);
    assert Pow10(2) == 100;
    ZeroPadThen(a.month, b.month, 2, DayTail(a), DayTail(b));
  }

  /** Two saves in different seconds get different session ids. */
  lemma {:induction false} SessionIdInjective(a: DateTime, b: DateTime)
    requires a.Valid() && b.Valid()
    ensures SessionId(a) == SessionId(b) <==> a == b
  {
    if SessionId(a) == SessionId(b) {
      SessionIdOrder(a, b);
      SessionIdOrder(b, a);
      LexIrreflexive(SessionId(a));
    }
  }
}
