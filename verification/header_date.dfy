/**
  The header date extractor, over the text recognised in the header region:
  the schedule date is found by an ordered fallback of four date shapes and
  repaired to DD.MM.YYYY, and the "as of" publication time by its own
  pattern; whatever is not found is taken from the current moment.
*/
module HeaderDate {
  import opened Results
  import opened Text

  /** A local calendar moment, as `datetime.now(TZ)` gives it. */
  datatype Moment = Moment(year: nat, month: nat, day: nat, hour: nat, minute: nat)

  predicate ValidMoment(m: Moment) {
    1000 <= m.year <= 9999 && 1 <= m.month <= 12 && 1 <= m.day <= 31 && m.hour < 24 && m.minute < 60
  }

  /** `strftime("%d.%m.%Y")`. */
  function FormatDate(m: Moment): string {
    Pad2(m.day) + "." + Pad2(m.month) + "." + NatToString(m.year)
  }

  /** `strftime("%d.%m.%Y %H:%M")`. */
  function FormatDateTime(m: Moment): string {
    FormatDate(m) + " " + Pad2(m.hour) + ":" + Pad2(m.minute)
  }

  predicate DigitAt(t: string, i: nat) {
    i < |t| && IsDigit(t[i])
  }

  predicate CharAt(t: string, i: nat, c: char) {
    i < |t| && t[i] == c
  }

  /** `t[i..]` starts with the literal `w`. */
  predicate WordAt(t: string, i: nat, w: string) {
    i + |w| <= |t| && t[i..i + |w|] == w
  }

  /** `\d{2}\.\d{2}` at `i`. */
  predicate DayMonthAt(t: string, i: nat) {
    DigitAt(t, i) && DigitAt(t, i + 1) && CharAt(t, i + 2, '.') && DigitAt(t, i + 3) && DigitAt(t, i + 4)
  }

  /** `\d{2}\.\d{2}\.\d{2}` at `i`. */
  predicate ShortDateAt(t: string, i: nat) {
    DayMonthAt(t, i) && CharAt(t, i + 5, '.') && DigitAt(t, i + 6) && DigitAt(t, i + 7)
  }

  /** `\d{2}\.\d{2}\.\d{4}` at `i`. */
  predicate DateAt(t: string, i: nat) {
    ShortDateAt(t, i) && DigitAt(t, i + 8) && DigitAt(t, i + 9)
  }

  /** `\d{2}` then `:` or `.` then `\d{2}` and `)` at `i`. */
  predicate ClockAt(t: string, i: nat) {
    DigitAt(t, i) && DigitAt(t, i + 1) && (CharAt(t, i + 2, ':') || CharAt(t, i + 2, '.')) &&
    DigitAt(t, i + 3) && DigitAt(t, i + 4) && CharAt(t, i + 5, ')')
  }

  /** A schedule date as stored: `DD.MM.YYYY`. */
  predicate IsDateShape(r: string) {
    |r| == 10 && DateAt(r, 0)
  }

  /** An update string as stored: `DD.MM.YYYY HH:MM`. */
  predicate IsDateTimeShape(r: string) {
    && |r| == 16 && DateAt(r, 0) && CharAt(r, 10, ' ')
    && DigitAt(r, 11) && DigitAt(r, 12) && CharAt(r, 13, ':') && DigitAt(r, 14) && DigitAt(r, 15)
  }

  /**
    The regular expressions of the extractor: the five of the program, and
    the bare full date that the intended search tries as well.
  */
  datatype Pattern =
    | OnDate          // на\s+(\d{2}\.\d{2}\.\d{4})
    | DateWithSuffix  // (\d{2}\.\d{2}\.\d{4})р\.
    | FullDate        // (\d{2}\.\d{2}\.\d{4}), intended search only
    | ShortYear       // (\d{2}\.\d{2}\.\d{2})
    | DayMonth        // (\d{2}\.\d{2})
    | AsOf            // \(станом\s+на\s+(\d{2}\.\d{2}\.\d{4})\s+(\d{2})[:.](\d{2})\)

  /**
    Where the groups of the "as of" pattern start when it matches at `i`: the
    date and the hour. Each `\s+` is followed by a non-space, so the greedy
    run of spaces is the only way to match it.
  */
  function AsOfAt(t: string, i: nat): (r: Option<(nat, nat)>)
    ensures r.Some? ==> DateAt(t, r.value.0) && ClockAt(t, r.value.1)
  {
    if !WordAt(t, i, "(станом") then None
    else
      var a := SkipSpaces(t, i + 7);
      if a == i + 7 || !WordAt(t, a, "на") then None
      else
        var d := SkipSpaces(t, a + 2);
        if d == a + 2 || !DateAt(t, d) then None
        else
          var h := SkipSpaces(t, d + 10);
          if h == d + 10 || !ClockAt(t, h) then None
          else Some((d, h))
  }

  /** Where the date group of `на\s+DD.MM.YYYY` starts when the pattern matches at `i`. */
  function OnDateAt(t: string, i: nat): (r: Option<nat>)
    ensures r.Some? ==> DateAt(t, r.value)
  {
    if !WordAt(t, i, "на") then None
    else
      var d := SkipSpaces(t, i + 2);
      if d == i + 2 || !DateAt(t, d) then None else Some(d)
  }

  /** `pattern.match(t, i)` succeeds. */
  predicate MatchesAt(t: string, i: nat, p: Pattern) {
    match p
    case OnDate => OnDateAt(t, i).Some?
    case DateWithSuffix => DateAt(t, i) && WordAt(t, i + 10, "р.")
    case FullDate => DateAt(t, i)
    case ShortYear => ShortDateAt(t, i)
    case DayMonth => DayMonthAt(t, i)
    case AsOf => AsOfAt(t, i).Some?
  }

  /** Group 1 of a match at `i`. */
  function Group(t: string, i: nat, p: Pattern): (g: string)
    requires MatchesAt(t, i, p)
  {
    match p
    case OnDate => var d := OnDateAt(t, i).value; t[d..d + 10]
    case DateWithSuffix => t[i..i + 10]
    case FullDate => t[i..i + 10]
    case ShortYear => t[i..i + 8]
    case DayMonth => t[i..i + 5]
    case AsOf => var d := AsOfAt(t, i).value.0; t[d..d + 10]
  }

  /**
    `re.search` from position `i`: the leftmost position at or after `i`
    where the pattern matches. (`== true` keeps the verifier from splitting
    the match into the pattern's cases.)
  */
  function SearchFrom(t: string, p: Pattern, i: nat): (r: Option<nat>)
    requires i <= |t|
    ensures r.Some? ==> i <= r.value <= |t| && MatchesAt(t, r.value, p) == true
    ensures r.Some? ==> forall q :: i <= q < r.value ==> !MatchesAt(t, q, p)
    ensures r.None? ==> forall q :: i <= q <= |t| ==> !MatchesAt(t, q, p)
    decreases |t| - i
  {
    if MatchesAt(t, i, p) then Some(i)
    else if i == |t| then None
    else SearchFrom(t, p, i + 1)
  }

  /** `re.search`: the leftmost position where the pattern matches. */
  function Search(t: string, p: Pattern): (r: Option<nat>)
    ensures r.Some? ==> r.value <= |t| && MatchesAt(t, r.value, p) == true && forall q :: 0 <= q < r.value ==> !MatchesAt(t, q, p)
    ensures r.None? <==> forall q :: 0 <= q <= |t| ==> !MatchesAt(t, q, p)
  {
    SearchFrom(t, p, 0)
  }

  /** Group 1 of the leftmost match of the first date pattern, in order, that matches anywhere. */
  function FindScheduleDate(t: string): (r: Option<string>)
    ensures r.None? <==> Search(t, OnDate).None? && Search(t, DateWithSuffix).None? &&
                         Search(t, ShortYear).None? && Search(t, DayMonth).None?
  {
    var m1 := Search(t, OnDate);
    if m1.Some? then Some(Group(t, m1.value, OnDate))
    else
      var m2 := Search(t, DateWithSuffix);
      if m2.Some? then Some(Group(t, m2.value, DateWithSuffix))
      else
        var m3 := Search(t, ShortYear);
        if m3.Some? then Some(Group(t, m3.value, ShortYear))
        else
          var m4 := Search(t, DayMonth);
          if m4.Some? then Some(Group(t, m4.value, DayMonth))
          else None
  }

  /** The value of two decimal digits: `int()` of the year part of `DD.MM.YY`. */
  function TwoDigits(hi: char, lo: char): (v: nat)
    requires IsDigit(hi) && IsDigit(lo)
    ensures v < 100
  {
    10 * DigitValue(hi) + DigitValue(lo)
  }

  /**
    The year repair: `DD.MM.YY` becomes `DD.MM.` and 2000 plus the two-digit
    year, `DD.MM` gets the current year, anything else is kept.
  */
  function CleanDate(found: string, now: Moment): string {
    if |found| == 8 && ShortDateAt(found, 0) then
      found[..5] + "." + NatToString(2000 + TwoDigits(found[6], found[7]))
    else if |found| == 5 && DayMonthAt(found, 0) then
      found + "." + NatToString(now.year)
    else found
  }

  /** The schedule date: the repaired match, or today's date when no shape matches. */
  function ScheduleDate(t: string, now: Moment): string {
    match FindScheduleDate(t)
    case Some(found) => CleanDate(found, now)
    case None => FormatDate(now)
  }

  /**
    The schedule-date search as intended: a bare `DD.MM.YYYY` is tried after
    the two full-date patterns and before the two-digit-year one, so that a
    four-digit year is never cut to its first two digits.
  */
  function FindIntendedDate(t: string): (r: Option<string>)
    ensures r.None? <==> FindScheduleDate(t).None?
  {
    if Search(t, OnDate).Some? || Search(t, DateWithSuffix).Some? then FindScheduleDate(t)
    else
      match Search(t, FullDate)
      case Some(i) =>
        assert MatchesAt(t, i, ShortYear);
        Some(t[i..i + 10])
      case None => FindScheduleDate(t)
  }

  /** The schedule date as intended: the repaired intended match, or today's date. */
  function IntendedScheduleDate(t: string, now: Moment): string {
    match FindIntendedDate(t)
    case Some(found) => CleanDate(found, now)
    case None => FormatDate(now)
  }

  /** The update string: `DD.MM.YYYY HH:MM` from the "as of" phrase, or the current moment when there is none. */
  function UpdateString(t: string, now: Moment): string {
    match Search(t, AsOf)
    case Some(i) =>
      var (d, h) := AsOfAt(t, i).value;
      Stamp(t, d, h)
    case None => FormatDateTime(now)
  }

  /** `f"{date} {hh}:{mm}"` from the date group at `d` and the clock groups at `h`. */
  function Stamp(t: string, d: nat, h: nat): string
    requires DateAt(t, d) && ClockAt(t, h)
  {
    t[d..d + 10] + " " + t[h..h + 2] + ":" + t[h + 3..h + 5]
  }

  /** `text.replace('\n', ' ')`. */
  function Flatten(t: string): (r: string)
    ensures |r| == |t| && '\n' !in r
    ensures forall k :: 0 <= k < |t| ==> r[k] == if t[k] == '\n' then ' ' else t[k]
  {
    seq(|t|, k requires 0 <= k < |t| => if t[k] == '\n' then ' ' else t[k])
  }

  /**
    `get_date_from_header`: the header region is the top `max(0, headerY)`
    rows of an image of the given size. An empty region gives the current
    date and time; otherwise the recognised text, with line breaks turned to
    spaces, is searched.
  */
  function DatesFromHeader(headerY: int, height: nat, width: nat, text: string, now: Moment): (r: (string, string))
    ensures (headerY <= 0 || height == 0 || width == 0) ==> r == (FormatDate(now), FormatDateTime(now))
    ensures (headerY > 0 && height > 0 && width > 0) ==> r == (ScheduleDate(Flatten(text), now), UpdateString(Flatten(text), now))
  {
    var rows := if headerY <= 0 then 0 else if headerY < height then headerY else height;
    if rows == 0 || width == 0 then (FormatDate(now), FormatDateTime(now))
    else (ScheduleDate(Flatten(text), now), UpdateString(Flatten(text), now))
  }

  /**
    `get_date_from_header` with the intended schedule-date search: the same
    update string, and the same schedule date wherever the header text holds
    no bare `DD.MM.YYYY`.
  */
  function IntendedDatesFromHeader(headerY: int, height: nat, width: nat, text: string, now: Moment): (r: (string, string))
    ensures r.1 == DatesFromHeader(headerY, height, width, text, now).1
    ensures (headerY <= 0 || height == 0 || width == 0) ==> r.0 == FormatDate(now)
    ensures (headerY > 0 && height > 0 && width > 0) ==> r.0 == IntendedScheduleDate(Flatten(text), now)
    ensures (forall q :: 0 <= q <= |Flatten(text)| ==> !DateAt(Flatten(text), q)) ==>
              r == DatesFromHeader(headerY, height, width, text, now)
  {
    var dates := DatesFromHeader(headerY, height, width, text, now);
    if headerY <= 0 || height == 0 || width == 0 then dates
    else
      IntendedAgreesWithoutFullDate(Flatten(text), now);
      (IntendedScheduleDate(Flatten(text), now), dates.1)
  }

  lemma FormatDateShape(m: Moment)
    requires ValidMoment(m)
    ensures IsDateShape(FormatDate(m))
  {
    NatToStringLength(m.year);
  }

  /** A copy of a `DD.MM.YYYY` match is date-shaped. */
  lemma DateGroupShape(t: string, d: nat)
    requires DateAt(t, d)
    ensures IsDateShape(t[d..d + 10])
  {
  }

  /** Whatever the text, the schedule date is `DD.MM.YYYY`-shaped. */
  lemma ScheduleDateIsDate(t: string, now: Moment)
    requires ValidMoment(now)
    ensures IsDateShape(ScheduleDate(t, now))
  {
    if FindScheduleDate(t).Some? {
      FoundDateIsDate(t, now);
    } else {
      FormatDateShape(now);
    }
  }

  lemma FoundDateIsDate(t: string, now: Moment)
    requires ValidMoment(now) && FindScheduleDate(t).Some?
    ensures IsDateShape(CleanDate(FindScheduleDate(t).value, now))
  {
    var found := FindScheduleDate(t).value;
    FoundShapes(t);
    if IsDateShape(found) {
      FullDateKept(found, now);
    } else if |found| == 8 {
      ShortYearCompleted(found, now);
    } else {
      DayMonthCompleted(found, now);
    }
  }

  /** What the fallback finds is a full date, a date with a two-digit year, or a day and month. */
  lemma FoundShapes(t: string)
    requires FindScheduleDate(t).Some?
    ensures var found := FindScheduleDate(t).value;
            || IsDateShape(found)
            || (|found| == 8 && ShortDateAt(found, 0))
            || (|found| == 5 && DayMonthAt(found, 0))
  {
    var m1, m2, m3, m4 := Search(t, OnDate), Search(t, DateWithSuffix), Search(t, ShortYear), Search(t, DayMonth);
    var found := FindScheduleDate(t).value;
    if m1.Some? {
      var d := OnDateAt(t, m1.value).value;
      assert found == t[d..d + 10];
      DateGroupShape(t, d);
    } else if m2.Some? {
      assert found == t[m2.value..m2.value + 10];
      DateGroupShape(t, m2.value);
    } else if m3.Some? {
      assert found == t[m3.value..m3.value + 8];
      ShortGroupShape(t, m3.value);
    } else {
      assert found == t[m4.value..m4.value + 5];
      DayMonthGroupShape(t, m4.value);
    }
  }

  lemma ShortGroupShape(t: string, i: nat)
    requires ShortDateAt(t, i)
    ensures |t[i..i + 8]| == 8 && ShortDateAt(t[i..i + 8], 0)
  {
  }

  lemma DayMonthGroupShape(t: string, i: nat)
    requires DayMonthAt(t, i)
    ensures |t[i..i + 5]| == 5 && DayMonthAt(t[i..i + 5], 0)
  {
  }

  lemma FullDateKept(found: string, now: Moment)
    requires IsDateShape(found)
    ensures CleanDate(found, now) == found
  {
  }

  lemma ShortYearCompleted(found: string, now: Moment)
    requires |found| == 8 && ShortDateAt(found, 0)
    ensures IsDateShape(CleanDate(found, now))
  {
    NatToStringLength(2000 + TwoDigits(found[6], found[7]));
  }

  lemma DayMonthCompleted(found: string, now: Moment)
    requires ValidMoment(now) && |found| == 5 && DayMonthAt(found, 0)
    ensures IsDateShape(CleanDate(found, now))
  {
    NatToStringLength(now.year);
  }

  lemma FormatDateTimeShape(m: Moment)
    requires ValidMoment(m)
    ensures IsDateTimeShape(FormatDateTime(m))
  {
    FormatDateShape(m);
    var r := FormatDateTime(m);
    assert r[..10] == FormatDate(m);
  }

  /** The update string built from the groups of an "as of" match is `DD.MM.YYYY HH:MM`-shaped. */
  lemma AsOfGroupsShape(t: string, d: nat, h: nat)
    requires DateAt(t, d) && ClockAt(t, h)
    ensures IsDateTimeShape(Stamp(t, d, h))
  {
  }

  /** Whatever the text, the update string is `DD.MM.YYYY HH:MM`-shaped. */
  lemma UpdateStringIsDateTime(t: string, now: Moment)
    requires ValidMoment(now)
    ensures IsDateTimeShape(UpdateString(t, now))
  {
    match Search(t, AsOf)
    case Some(i) =>
      var (d, h) := AsOfAt(t, i).value;
      AsOfGroupsShape(t, d, h);
    case None =>
      FormatDateTimeShape(now);
  }

  /** Without the letters `н` and `р`, neither of the two full-year patterns can match. */
  lemma NoFullYearPatterns(t: string)
    requires 'н' !in t && 'р' !in t
    ensures Search(t, OnDate).None? && Search(t, DateWithSuffix).None?
  {
    forall q | 0 <= q <= |t| ensures !MatchesAt(t, q, OnDate) && !MatchesAt(t, q, DateWithSuffix) {
      if q + 2 <= |t| {
        assert t[q..q + 2][0] == t[q];
      }
      if q + 12 <= |t| {
        assert t[q + 10..q + 12][0] == t[q + 10];
      }
    }
  }

  /**
    A bare `DD.MM.YYYY` at `d`, in a text with no `на` and no `р.` and no
    earlier `DD.MM.YY`, is caught by the two-digit-year pattern as its first
    eight characters, so the first two digits of the year are read as a year
    of this century.
  */
  lemma BareFullDateReadAsShortYear(t: string, now: Moment, d: nat)
    requires 'н' !in t && 'р' !in t && DateAt(t, d)
    requires forall q :: 0 <= q < d ==> !ShortDateAt(t, q)
    ensures ScheduleDate(t, now) == t[d..d + 5] + "." + NatToString(2000 + TwoDigits(t[d + 6], t[d + 7]))
  {
    NoFullYearPatterns(t);
    assert MatchesAt(t, d, ShortYear);
    var m := Search(t, ShortYear);
    assert m == Some(d);
    var found := t[d..d + 8];
    assert FindScheduleDate(t) == Some(found);
    assert found[..5] == t[d..d + 5];
  }

  /** The intended schedule date is `DD.MM.YYYY`-shaped whatever the text. */
  lemma IntendedDateIsDate(t: string, now: Moment)
    requires ValidMoment(now)
    ensures IsDateShape(IntendedScheduleDate(t, now))
  {
    if FindIntendedDate(t) == FindScheduleDate(t) {
      ScheduleDateIsDate(t, now);
    } else {
      var i := Search(t, FullDate).value;
      DateGroupShape(t, i);
      FullDateKept(t[i..i + 10], now);
    }
  }

  /** Where no bare full date occurs, the intended search finds what the program finds. */
  lemma IntendedAgreesWithoutFullDate(t: string, now: Moment)
    ensures (forall q :: 0 <= q <= |t| ==> !DateAt(t, q)) ==> IntendedScheduleDate(t, now) == ScheduleDate(t, now)
  {
  }

  /**
    The intended search keeps the four-digit year of the first bare
    `DD.MM.YYYY` in a text with no `на` and no `р.`.
  */
  lemma BareFullDateKept(t: string, now: Moment, d: nat)
    requires 'н' !in t && 'р' !in t && DateAt(t, d)
    requires forall q :: 0 <= q < d ==> !DateAt(t, q)
    ensures IntendedScheduleDate(t, now) == t[d..d + 10]
  {
    NoFullYearPatterns(t);
    assert MatchesAt(t, d, FullDate);
    assert Search(t, FullDate) == Some(d);
    DateGroupShape(t, d);
    FullDateKept(t[d..d + 10], now);
  }

  /** Read as intended, "05.03.2025" stays "05.03.2025". */
  lemma IntendedBareFullDateExample(now: Moment)
    ensures IntendedScheduleDate("05.03.2025", now) == "05.03.2025"
  {
    var t := "05.03.2025";
    BareFullDateText();
    BareFullDateKept(t, now, 0);
    assert t[0..10] == t;
  }

  /**
    The leftmost "as of" match decides the update string: its date, a space,
    its hour, a colon (whatever separator the text used) and its minute.
  */
  lemma UpdateStringFromLeftmost(t: string, now: Moment, i: nat, d: nat, h: nat)
    requires AsOfAt(t, i) == Some((d, h))
    requires forall q :: 0 <= q < i ==> !MatchesAt(t, q, AsOf)
    ensures UpdateString(t, now) == Stamp(t, d, h)
  {
    LeftmostSearch(t, AsOf, i);
  }

  /** A match with none before it is the one `pattern.search` returns. */
  lemma LeftmostSearch(t: string, p: Pattern, i: nat)
    requires MatchesAt(t, i, p)
    requires forall q :: 0 <= q < i ==> !MatchesAt(t, q, p)
    ensures Search(t, p) == Some(i)
  {
  }

  lemma Year2020()
    ensures NatToString(2020) == "2020"
  {
  }

  lemma Year2025()
    ensures NatToString(2025) == "2025"
  {
    assert NatToString(2) == "2";
    assert NatToString(20) == "20";
    assert NatToString(202) == "202";
  }

  lemma BareFullDateText()
    ensures var t := "05.03.2025";
            'н' !in t && 'р' !in t && DateAt(t, 0) && TwoDigits(t[6], t[7]) == 20
  {
  }

  /** "05.03.2025" becomes "05.03.2020". */
  lemma BareFullDateExample(now: Moment)
    ensures ScheduleDate("05.03.2025", now) == "05.03.2020"
  {
    var t := "05.03.2025";
    BareFullDateText();
    BareFullDateReadAsShortYear(t, now, 0);
    assert ScheduleDate(t, now) == t[0..5] + "." + NatToString(2020);
    Year2020();
    TwoDigitYearText();
  }

  lemma TwoDigitYearText()
    ensures "05.03.2025"[0..5] + "." + "2020" == "05.03.2020"
  {
  }

  lemma ShortYearText()
    ensures var t := "05.03.25";
            'н' !in t && 'р' !in t && ShortDateAt(t, 0) && TwoDigits(t[6], t[7]) == 25
  {
  }

  lemma ShortYearFound()
    ensures FindScheduleDate("05.03.25") == Some("05.03.25")
  {
    var t := "05.03.25";
    ShortYearText();
    NoFullYearPatterns(t);
    assert MatchesAt(t, 0, ShortYear);
    assert t[0..8] == t;
  }

  /** "05.03.25" becomes "05.03.2025". */
  lemma ShortYearExample(now: Moment)
    ensures ScheduleDate("05.03.25", now) == "05.03.2025"
  {
    var t := "05.03.25";
    ShortYearFound();
    ShortYearText();
    Year2025();
    assert t[..5] + "." + "2025" == "05.03.2025";
  }

  lemma DayMonthText()
    ensures var t := "05.03";
            'н' !in t && 'р' !in t && DayMonthAt(t, 0)
  {
  }

  /** "05.03" becomes "05.03.2025" when the current year is 2025. */
  lemma DayMonthExample(now: Moment)
    requires now.year == 2025
    ensures ScheduleDate("05.03", now) == "05.03.2025"
  {
    var t := "05.03";
    DayMonthText();
    NoFullYearPatterns(t);
    assert Search(t, ShortYear).None?;
    assert MatchesAt(t, 0, DayMonth);
    assert FindScheduleDate(t) == Some(t[0..5]);
    assert t[0..5] == t;
    Year2025();
  }

  /** "на 05.03.2025" keeps its four-digit year. */
  lemma OnDateExample(now: Moment)
    ensures ScheduleDate("на 05.03.2025", now) == "05.03.2025"
  {
    var t := "на 05.03.2025";
    assert t[0..2] == "на";
    assert SkipSpaces(t, 3) == 3;
    assert SkipSpaces(t, 2) == 3;
    assert OnDateAt(t, 0) == Some(3);
    assert MatchesAt(t, 0, OnDate);
    assert FindScheduleDate(t) == Some(t[3..13]);
    assert t[3..13] == "05.03.2025";
  }
}
