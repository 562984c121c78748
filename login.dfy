/**
 * The pure parts of the login page: the age shown when a date of birth is
 * picked, and the checks a submission must pass before it is sent.
 */
module Login {
  import opened Wrappers

  /** A calendar date as `Date` reports it: full year, month 0..11, day of the month. */
  datatype CalendarDate = CalendarDate(year: int, month: int, day: int)

  predicate WellFormed(d: CalendarDate)
  {
    0 <= d.month <= 11 && 1 <= d.day <= 31
  }

  /** Gregorian leap years, as `Date` uses for every year. */
  predicate IsLeapYear(y: int)
  {
    (y % 4 == 0 && y % 100 != 0) || y % 400 == 0
  }

  /** Days in month `m` (0..11) of year `y`. */
  function DaysInMonth(y: int, m: int): (n: int)
    requires 0 <= m <= 11
    ensures 28 <= n <= 31
    ensures m == 1 ==> (n == 29 <==> IsLeapYear(y))
  {
    if m == 1 then (if IsLeapYear(y) then 29 else 28)
    else if m == 3 || m == 5 || m == 8 || m == 10 then 30
    else 31
  }

  /** `new Date(y, m, 0).getDate()`: the last day of the month before month `m`. */
  function LastDayOfPreviousMonth(y: int, m: int): (n: int)
    requires 0 <= m <= 11
    ensures 28 <= n <= 31
    ensures m == 0 ==> n == 31
  {
    if m == 0 then DaysInMonth(y - 1, 11) else DaysInMonth(y, m - 1)
  }

  /** The age shown: `Age: ${years} years, ${months} months, ${days} days`. */
  datatype AgeValue = AgeValue(years: int, months: int, days: int)

  /** Whether the day step borrows a month: today's day of the month is before the birth day's. */
  predicate BorrowsDay(today: CalendarDate, dob: CalendarDate)
  {
    today.day - dob.day < 0
  }

  /**
   * The age by a closed formula: the whole months between the two dates,
   * one fewer when the day borrows, split into years and months, and the
   * days left over.
   */
  function AgeParts(today: CalendarDate, dob: CalendarDate, prevMonthLastDay: int): AgeValue
  {
    var borrow := if BorrowsDay(today, dob) then 1 else 0;
    var totalMonths := (today.year - dob.year) * 12 + (today.month - dob.month) - borrow;
    AgeValue(totalMonths / 12, totalMonths % 12, today.day - dob.day + borrow * prevMonthLastDay)
  }

  /**
   * The `dob` change handler's arithmetic: the differences of year, month
   * and day, then a day borrow and a month borrow.
   */
  method Age(today: CalendarDate, dob: CalendarDate, prevMonthLastDay: int) returns (years: int, months: int, days: int)
    requires WellFormed(today) && WellFormed(dob) && 28 <= prevMonthLastDay <= 31
    ensures AgeValue(years, months, days) == AgeParts(today, dob, prevMonthLastDay)
    ensures 0 <= months <= 11
    ensures days == if BorrowsDay(today, dob) then today.day - dob.day + prevMonthLastDay else today.day - dob.day
    ensures years == today.year - dob.year
              - (if today.month - dob.month - (if BorrowsDay(today, dob) then 1 else 0) < 0 then 1 else 0)
    ensures days >= 0 <==> !BorrowsDay(today, dob) || dob.day - today.day <= prevMonthLastDay
  {
    years := today.year - dob.year;
    months := today.month - dob.month;
    days := today.day - dob.day;

    if days < 0 {
      months := months - 1;
      days := days + prevMonthLastDay;
    }
    if months < 0 {
      years := years - 1;
      months := months + 12;
    }
    AgePartsSplit(today, dob, prevMonthLastDay);
  }

  /** The closed formula agrees with the two borrow steps. */
  lemma AgePartsSplit(today: CalendarDate, dob: CalendarDate, prevMonthLastDay: int)
    requires WellFormed(today) && WellFormed(dob)
    ensures var b := if BorrowsDay(today, dob) then 1 else 0;
      var m := today.month - dob.month - b;
      var age := AgeParts(today, dob, prevMonthLastDay);
      && age.years == today.year - dob.year - (if m < 0 then 1 else 0)
      && age.months == (if m < 0 then m + 12 else m)
  {
    var b := if BorrowsDay(today, dob) then 1 else 0;
    var m := today.month - dob.month - b;
    var y := today.year - dob.year;
    var total := y * 12 + m;
    if m < 0 {
      assert total == (y - 1) * 12 + (m + 12) && 0 <= m + 12 < 12;
    } else {
      assert total == y * 12 + m && 0 <= m < 12;
    }
  }

  /**
   * The age in whole months is never more than the months between the
   * dates, and a birth day on the same day of the month borrows nothing.
   */
  lemma {:induction false} AgeMonthsBound(today: CalendarDate, dob: CalendarDate, prevMonthLastDay: int)
    requires WellFormed(today) && WellFormed(dob)
    ensures var age := AgeParts(today, dob, prevMonthLastDay);
      && age.years * 12 + age.months <= (today.year - dob.year) * 12 + (today.month - dob.month)
      && (today.day == dob.day ==>
            age.years * 12 + age.months == (today.year - dob.year) * 12 + (today.month - dob.month)
            && age.days == 0)
  {
    var b := if BorrowsDay(today, dob) then 1 else 0;
    var total := (today.year - dob.year) * 12 + (today.month - dob.month) - b;
    assert total / 12 * 12 + total % 12 == total;
  }

  /** The characters `String.prototype.trim` removes: white space and line terminators. */
  predicate IsSpace(c: char)
  {
    || ('\U{0009}' <= c <= '\U{000D}')
    || c == ' ' || c == '\U{00A0}' || c == '\U{1680}'
    || ('\U{2000}' <= c <= '\U{200A}')
    || c == '\U{2028}' || c == '\U{2029}' || c == '\U{202F}' || c == '\U{205F}' || c == '\U{3000}'
    || c == '\U{FEFF}'
  }

  /** Drops the leading white space. */
  function TrimStart(s: string): (r: string)
    ensures |r| <= |s|
    ensures r == [] || !IsSpace(r[0])
  {
    if s != [] && IsSpace(s[0]) then TrimStart(s[1..]) else s
  }

  /** Drops the trailing white space. */
  function TrimEnd(s: string): (r: string)
    ensures |r| <= |s|
    ensures r == [] || !IsSpace(r[|r| - 1])
  {
    if s != [] && IsSpace(s[|s| - 1]) then TrimEnd(s[..|s| - 1]) else s
  }

  /** What `TrimStart` removes is a prefix of white space. */
  lemma {:induction false} TrimStartSuffix(s: string)
    ensures var r := TrimStart(s);
      r == s[|s| - |r|..] && forall k :: 0 <= k < |s| - |r| ==> IsSpace(s[k])
    decreases |s|
  {
    if s != [] && IsSpace(s[0]) {
      TrimStartSuffix(s[1..]);
    }
  }

  /** What `TrimEnd` removes is a suffix of white space. */
  lemma {:induction false} TrimEndPrefix(s: string)
    ensures var r := TrimEnd(s);
      r == s[..|r|] && forall k :: |r| <= k < |s| ==> IsSpace(s[k])
    decreases |s|
  {
    if s != [] && IsSpace(s[|s| - 1]) {
      TrimEndPrefix(s[..|s| - 1]);
    }
  }

  /** `s.trim()`. */
  function Trim(s: string): (r: string)
    ensures |r| <= |s|
  {
    TrimEnd(TrimStart(s))
  }

  /**
   * The trimmed text is a contiguous part of the input with white space on
   * both sides of it, and neither starts nor ends with white space.
   */
  lemma TrimIsCore(s: string)
    ensures var r := Trim(s);
      exists a, b :: 0 <= a <= b <= |s| && r == s[a..b]
        && (forall k :: 0 <= k < a ==> IsSpace(s[k]))
        && (forall k :: b <= k < |s| ==> IsSpace(s[k]))
    ensures Trim(s) == [] || (!IsSpace(Trim(s)[0]) && !IsSpace(Trim(s)[|Trim(s)| - 1]))
  {
    var t := TrimStart(s);
    var r := TrimEnd(t);
    TrimStartSuffix(s);
    TrimEndPrefix(t);
    var a := |s| - |t|;
    var b := a + |r|;
    assert r == s[a..b];
    forall k | b <= k < |s|
      ensures IsSpace(s[k])
    {
      assert s[k] == t[k - a];
    }
    if r != [] {
      assert r[0] == t[0];
    }
  }

  /** Trimming twice is trimming once. */
  lemma TrimIdempotent(s: string)
    ensures Trim(Trim(s)) == Trim(s)
  {
    var r := Trim(s);
    TrimIsCore(s);
    if r != [] {
      assert TrimStart(r) == r;
      assert TrimEnd(r) == r;
    }
  }

  /** A white-space-only field trims to nothing. */
  lemma {:induction false} BlankTrimsEmpty(s: string)
    requires forall k :: 0 <= k < |s| ==> IsSpace(s[k])
    ensures Trim(s) == []
  {
    TrimIsCore(s);
  }

  predicate IsAsciiLetter(c: char)
  {
    ('A' <= c <= 'Z') || ('a' <= c <= 'z')
  }

  /** `/^[A-Za-z]{2,}/.test(name)`: the text starts with two ASCII letters. */
  predicate NameOk(name: string)
  {
    |name| >= 2 && IsAsciiLetter(name[0]) && IsAsciiLetter(name[1])
  }

  /** The length of the longest run of ASCII letters at the start. */
  function LeadingLetters(s: string): (n: nat)
    ensures n <= |s|
    ensures forall k :: 0 <= k < n ==> IsAsciiLetter(s[k])
    ensures n < |s| ==> !IsAsciiLetter(s[n])
  {
    if s != [] && IsAsciiLetter(s[0]) then 1 + LeadingLetters(s[1..]) else 0
  }

  /** The regular expression's reading: a greedy run of letters anchored at the start, at least two long. */
  lemma NameOkIsLetterRun(name: string)
    ensures NameOk(name) <==> LeadingLetters(name) >= 2
  {
  }

  /** Whatever follows the first two letters does not matter. */
  lemma {:induction false} NameSuffixFree(name: string, rest: string)
    requires |name| >= 2
    ensures NameOk(name[..2] + rest) <==> NameOk(name)
  {
    var t := name[..2] + rest;
    assert t[0] == name[0] && t[1] == name[1];
  }

  /** What happens on submit: the first check that fails, or acceptance. */
  datatype Verdict = MissingField | InvalidName | Accepted

  /** Some field is empty: name, date and country after trimming, gender as given (no choice counts as empty). */
  predicate Missing(name: string, dob: string, gender: Option<string>, country: string)
  {
    var g := if gender.Some? then gender.value else "";
    Trim(name) == [] || Trim(dob) == [] || g == [] || Trim(country) == []
  }

  /** The submit handler's checks, in order: all fields filled, then the name format. */
  function Submit(name: string, dob: string, gender: Option<string>, country: string): (v: Verdict)
    ensures v == MissingField <==> Missing(name, dob, gender, country)
    ensures v == InvalidName <==> !Missing(name, dob, gender, country) && LeadingLetters(Trim(name)) < 2
    ensures v == Accepted ==> |Trim(name)| >= 2 && gender.Some? && gender.value != []
  {
    NameOkIsLetterRun(Trim(name));
    if Missing(name, dob, gender, country) then MissingField
    else if !NameOk(Trim(name)) then InvalidName
    else Accepted
  }

  /**
   * An empty field is reported even when the name is also malformed: the
   * emptiness check comes first.
   */
  lemma MissingBeforeName(name: string, dob: string, gender: Option<string>, country: string)
    requires Trim(dob) == [] && !NameOk(Trim(name))
    ensures Submit(name, dob, gender, country) == MissingField
  {
  }

  /** Submitting the trimmed fields gives the same verdict: only the trimmed text is judged. */
  lemma SubmitSeesTrimmed(name: string, dob: string, gender: Option<string>, country: string)
    ensures Submit(Trim(name), Trim(dob), gender, Trim(country)) == Submit(name, dob, gender, country)
  {
    TrimIdempotent(name);
    TrimIdempotent(dob);
    TrimIdempotent(country);
  }
}
