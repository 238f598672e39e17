/** The store's birthday calendar: `getMonthIndex`, `getNextBirthday` and
    `getUpcomingBirthdays`. The clock is a parameter: `now` is the current
    local date together with the milliseconds elapsed since its midnight, and
    a `Date` value is its day number times the milliseconds of a day plus the
    time of day, as `Date` subtraction sees it. */
module Birthdays {
  import opened Calendar
  import opened Records
  import opened Seqs
  import opened Text
  import opened Queries
  import MigrationRules

  const MONTH_NAMES: seq<string> := ["January", "February", "March", "April", "May", "June",
                                     "July", "August", "September", "October", "November", "December"]

  /** `1000 * 60 * 60 * 24`. */
  const MS_PER_DAY := 86400000

  /** `getMonthIndex(name)`: the zero-based month of an English month name,
      -1 for anything else. */
  function GetMonthIndex(name: string): (i: int)
    ensures -1 <= i < 12
    ensures i == -1 <==> name !in MONTH_NAMES
    ensures i >= 0 ==> MONTH_NAMES[i] == name
  {
    IndexOf(MONTH_NAMES, name)
  }

  function Prefix3(s: string): string
  {
    if |s| < 3 then s else s[..3]
  }

  /** No two months share a name: their first three letters already differ. */
  lemma MonthNamesDistinct()
    ensures forall i, j :: 0 <= i < j < 12 ==> MONTH_NAMES[i] != MONTH_NAMES[j]
  {
    var abbreviations := ["Jan", "Feb", "Mar", "Apr", "May", "Jun", "Jul", "Aug", "Sep", "Oct", "Nov", "Dec"];
    assert forall i :: 0 <= i < 12 ==> Prefix3(MONTH_NAMES[i]) == abbreviations[i];
    assert forall i, j :: 0 <= i < j < 12 ==>
      abbreviations[i][0] != abbreviations[j][0] || abbreviations[i][1] != abbreviations[j][1]
      || abbreviations[i][2] != abbreviations[j][2];
  }

  /** Every month name maps back to its own month. */
  lemma MonthIndexOfName(m: int)
    requires 0 <= m < 12
    ensures GetMonthIndex(MONTH_NAMES[m]) == m
  {
    MonthNamesDistinct();
    assert MONTH_NAMES[m] in MONTH_NAMES[..m + 1];
  }

  /** The moment `new Date()` is evaluated. */
  datatype Now = Now(today: Date, msOfDay: int)

  predicate ValidNow(now: Now)
  {
    ValidDate(now.today) && 0 <= now.msOfDay < MS_PER_DAY
  }

  function InstantMs(now: Now): int
  {
    DayNumberOf(now.today) * MS_PER_DAY + now.msOfDay
  }

  /** `Math.ceil(ms / MS_PER_DAY)`: the least whole number of days covering `ms`. */
  function DaysCeil(ms: int): (days: int)
    ensures (days - 1) * MS_PER_DAY < ms <= days * MS_PER_DAY
  {
    -((-ms) / MS_PER_DAY)
  }

  /** `Math.ceil((birthday - today) / (1000 * 60 * 60 * 24))` for the
      local-midnight birthday on day number `birthday`: the plain difference
      of the day numbers, whatever the time of day. */
  function DaysUntil(birthday: int, now: Now): (days: int)
    ensures ValidNow(now) ==> days == birthday - DayNumberOf(now.today)
  {
    var ms := birthday * MS_PER_DAY - InstantMs(now);
    assert ms == (birthday - DayNumberOf(now.today)) * MS_PER_DAY - now.msOfDay;
    DaysCeil(ms)
  }

  /** `new Date(9999, 11, 31)`: the far-future date returned for a person
      without a birth month or day. */
  const NO_BIRTHDAY := Date(9999, 11, 31)

  /** `person.birthMonth && person.birthDay`. */
  predicate HasBirthday(p: Person)
  {
    p.birthMonth != "" && p.birthDay != 0
  }

  /** `new Date(year, getMonthIndex(birthMonth), birthDay)`. */
  function BirthdayIn(p: Person, year: int): Date
  {
    Date(year, GetMonthIndex(p.birthMonth), p.birthDay)
  }

  /** `getNextBirthday(person)` with the comparison taken at day granularity:
      this year's birthday unless it is already past, else next year's. */
  function NextBirthday(p: Person, today: Date): (b: Date)
    ensures !HasBirthday(p) ==> b == NO_BIRTHDAY
    ensures HasBirthday(p) ==> b == BirthdayIn(p, today.year) || b == BirthdayIn(p, today.year + 1)
  {
    if !HasBirthday(p) then NO_BIRTHDAY
    else if DayNumberOf(BirthdayIn(p, today.year)) < DayNumberOf(today) then BirthdayIn(p, today.year + 1)
    else BirthdayIn(p, today.year)
  }

  /** For a known month and a day of 1..31 the next birthday is this year's
      when that is not before today, and next year's otherwise; either way it
      lies 0 to 365 days ahead. */
  lemma NextBirthdayIsNextOccurrence(p: Person, today: Date)
    requires ValidDate(today) && HasBirthday(p) && GetMonthIndex(p.birthMonth) >= 0 && 1 <= p.birthDay <= 31
    ensures var cur, next, t := BirthdayIn(p, today.year), BirthdayIn(p, today.year + 1), DayNumberOf(today);
      || (NextBirthday(p, today) == cur && 0 <= DayNumberOf(cur) - t <= 365)
      || (NextBirthday(p, today) == next && DayNumberOf(cur) < t && 0 <= DayNumberOf(next) - t <= 365)
  {
    NextAnniversary(today, GetMonthIndex(p.birthMonth), p.birthDay);
  }

  /** An unrecognised month name gives month index -1, which `Date` carries
      back into December of the previous year; the next birthday is then the
      given day of this year's December, even when that day has passed. */
  lemma UnknownMonthMeansDecember(p: Person, today: Date)
    requires ValidDate(today) && HasBirthday(p) && GetMonthIndex(p.birthMonth) == -1 && 1 <= p.birthDay <= 31
    ensures NextBirthday(p, today) == BirthdayIn(p, today.year + 1)
    ensures DayNumberOf(BirthdayIn(p, today.year + 1)) == DayNumber(today.year, 11, p.birthDay)
  {
    MonthMinusOne(today, p.birthDay);
  }

  /** `getNextBirthday(person)` as written: it compares the birthday's local
      midnight with the current instant, so once today's midnight has passed
      a birthday falling today counts as past. */
  function NextBirthdayAsWritten(p: Person, now: Now): (b: Date)
    ensures !HasBirthday(p) ==> b == NO_BIRTHDAY
    ensures HasBirthday(p) ==> b == BirthdayIn(p, now.today.year) || b == BirthdayIn(p, now.today.year + 1)
  {
    if !HasBirthday(p) then NO_BIRTHDAY
    else if DayNumberOf(BirthdayIn(p, now.today.year)) * MS_PER_DAY < InstantMs(now) then BirthdayIn(p, now.today.year + 1)
    else BirthdayIn(p, now.today.year)
  }

  /** The two definitions differ exactly for a birthday falling today, read
      after midnight. */
  lemma AsWrittenDiffersOnlyOnTheDay(p: Person, now: Now)
    requires ValidNow(now)
    ensures NextBirthdayAsWritten(p, now) != NextBirthday(p, now.today)
        <==> HasBirthday(p) && DayNumberOf(BirthdayIn(p, now.today.year)) == DayNumberOf(now.today) && now.msOfDay > 0
  {
  }

  /** A person whose birthday is today is 0 days away by the day-granular
      definition, but 365 or 366 days away as written. */
  lemma BirthdayTodayIsMissed(p: Person, now: Now)
    requires ValidNow(now) && now.msOfDay > 0
    requires HasBirthday(p) && GetMonthIndex(p.birthMonth) == now.today.month && p.birthDay == now.today.day
    ensures var cur, next := BirthdayIn(p, now.today.year), BirthdayIn(p, now.today.year + 1);
      && NextBirthday(p, now.today) == cur && DaysUntil(DayNumberOf(cur), now) == 0
      && NextBirthdayAsWritten(p, now) == next && 365 <= DaysUntil(DayNumberOf(next), now) <= 366
  {
    var y, m, d := now.today.year, now.today.month, now.today.day;
    assert BirthdayIn(p, y) == now.today;
    SameDayNextYear(y, m, d);
  }

  /** One entry of `getUpcomingBirthdays`. */
  datatype UpcomingBirthday = UpcomingBirthday(person: Person, nextBirthday: Date, daysUntil: int, age: int,
                                               families: string)

  function FamilyNameOf(e: PersonFamily): string
  {
    if e.family.Some? then e.family.value.name else ""
  }

  /** `personFamilies.map(f => f.family.name).join(', ')`, which throws when a
      relationship names a family the cache lacks. */
  function FamilyNames(entries: seq<PersonFamily>): (r: Result<string>)
    ensures r.Failure? <==> exists i :: 0 <= i < |entries| && entries[i].family.None?
    ensures r.Failure? ==> r.error == MissingFamily
    ensures entries == [] ==> r == Success("")
    ensures r.Success? && |entries| == 1 ==> r.value == entries[0].family.value.name
    ensures r.Success? ==> r.value == Join(MapSeq(entries, FamilyNameOf), ", ")
  {
    if forall i :: 0 <= i < |entries| ==> entries[i].family.Some? then
      Success(Join(MapSeq(entries, FamilyNameOf), ", "))
    else Failure(MissingFamily)
  }

  /** One more family the cache holds appends ", " and its name to the names
      of the earlier ones; one whose family is missing makes the join fail. */
  lemma FamilyNamesSnoc(entries: seq<PersonFamily>, e: PersonFamily)
    requires entries != []
    ensures e.family.None? ==> FamilyNames(entries + [e]) == Failure(MissingFamily)
    ensures FamilyNames(entries).Failure? ==> FamilyNames(entries + [e]).Failure?
    ensures FamilyNames(entries).Success? && e.family.Some? ==>
      FamilyNames(entries + [e]) == Success(FamilyNames(entries).value + ", " + e.family.value.name)
  {
    var all := entries + [e];
    assert all[|entries|] == e;
    assert forall i :: 0 <= i < |entries| ==> all[i] == entries[i];
    if FamilyNames(entries).Success? && e.family.Some? {
      MapSeqSnoc(entries, e, FamilyNameOf);
      JoinSnoc(MapSeq(entries, FamilyNameOf), FamilyNameOf(e), ", ");
    }
  }

  /** Which `getNextBirthday` the loop of `getUpcomingBirthdays` calls: the
      code as written, or the day-granular comparison it evidently intends. */
  datatype Rule = AsWritten | DayGranular

  function NextBirthdayBy(rule: Rule, p: Person, now: Now): Date
  {
    match rule
    case AsWritten => NextBirthdayAsWritten(p, now)
    case DayGranular => NextBirthday(p, now.today)
  }

  /** A birthday falling today, read after midnight: the one case the two
      rules disagree on. */
  predicate MissedToday(p: Person, now: Now)
  {
    HasBirthday(p) && DayNumberOf(BirthdayIn(p, now.today.year)) == DayNumberOf(now.today) && now.msOfDay > 0
  }

  /** The filter of the `forEach` body: active, with a birth month and day,
      and 0 to `daysAhead` days away. */
  predicate InWindow(rule: Rule, p: Person, now: Now, daysAhead: int)
  {
    p.isActive && HasBirthday(p) && 0 <= DaysUntil(DayNumberOf(NextBirthdayBy(rule, p, now)), now) <= daysAhead
  }

  /** The entry pushed for an in-window person. */
  function UpcomingEntry(rule: Rule, p: Person, families: seq<Family>, rels: seq<Relationship>, now: Now)
    : (r: Result<UpcomingBirthday>)
    ensures r.Failure? <==> FamilyNames(PersonFamilies(rels, families, p.id)).Failure?
    ensures r.Success? ==>
      && r.value.person == p && r.value.nextBirthday == NextBirthdayBy(rule, p, now)
      && r.value.daysUntil == DaysUntil(DayNumberOf(NextBirthdayBy(rule, p, now)), now)
      && r.value.age == MigrationRules.CalculateAge(p.birthYear, now.today.year)
      && r.value.families == FamilyNames(PersonFamilies(rels, families, p.id)).value
  {
    var b := NextBirthdayBy(rule, p, now);
    match FamilyNames(PersonFamilies(rels, families, p.id))
    case Failure(e) => Failure(e)
    case Success(names) =>
      Success(UpcomingBirthday(p, b, DaysUntil(DayNumberOf(b), now), MigrationRules.CalculateAge(p.birthYear, now.today.year),
                               names))
  }

  /** The array the `forEach` loop fills, before sorting, or the error it
      stops at. */
  function UpcomingEntries(rule: Rule, people: seq<Person>, families: seq<Family>, rels: seq<Relationship>, now: Now,
                           daysAhead: int): Result<seq<UpcomingBirthday>>
  {
    if people == [] then Success([])
    else
      match UpcomingEntries(rule, people[..|people| - 1], families, rels, now, daysAhead)
      case Failure(e) => Failure(e)
      case Success(acc) =>
        var p := people[|people| - 1];
        if !InWindow(rule, p, now, daysAhead) then Success(acc)
        else
          match UpcomingEntry(rule, p, families, rels, now)
          case Failure(e) => Failure(e)
          case Success(entry) => Success(acc + [entry])
  }

  /** The loop fails exactly when some in-window person has a relationship to
      a family missing from the cache; otherwise it lists one entry for every
      in-window person and nothing else. */
  lemma {:induction false} UpcomingEntriesMeaning(rule: Rule, people: seq<Person>, families: seq<Family>,
                                                  rels: seq<Relationship>, now: Now, daysAhead: int)
    ensures UpcomingEntries(rule, people, families, rels, now, daysAhead).Failure? <==>
      exists p :: p in people && InWindow(rule, p, now, daysAhead) && UpcomingEntry(rule, p, families, rels, now).Failure?
    ensures UpcomingEntries(rule, people, families, rels, now, daysAhead).Failure? ==>
      UpcomingEntries(rule, people, families, rels, now, daysAhead).error == MissingFamily
    ensures UpcomingEntries(rule, people, families, rels, now, daysAhead).Success? ==>
      var es := UpcomingEntries(rule, people, families, rels, now, daysAhead).value;
      && |es| <= |people|
      && (forall p :: p in people && InWindow(rule, p, now, daysAhead) ==>
            UpcomingEntry(rule, p, families, rels, now).Success? && UpcomingEntry(rule, p, families, rels, now).value in es)
      && (forall e :: e in es ==>
            e.person in people && InWindow(rule, e.person, now, daysAhead)
            && UpcomingEntry(rule, e.person, families, rels, now) == Success(e))
  {
    if people != [] {
      var init, p := people[..|people| - 1], people[|people| - 1];
      assert people == init + [p];
      UpcomingEntriesMeaning(rule, init, families, rels, now, daysAhead);
    }
  }

  /** The people the rule puts in the window, in input order. */
  function WindowPeople(rule: Rule, people: seq<Person>, now: Now, daysAhead: int): seq<Person>
  {
    Filter(people, q => InWindow(rule, q, now, daysAhead))
  }

  /** The loop pushes exactly one entry per in-window person, in input
      order: entry i is the entry of the i-th in-window person. */
  lemma {:induction false} UpcomingEntriesInOrder(rule: Rule, people: seq<Person>, families: seq<Family>,
                                                  rels: seq<Relationship>, now: Now, daysAhead: int)
    ensures UpcomingEntries(rule, people, families, rels, now, daysAhead).Success? ==>
      var es := UpcomingEntries(rule, people, families, rels, now, daysAhead).value;
      var ws := WindowPeople(rule, people, now, daysAhead);
      && |es| == |ws|
      && forall i :: 0 <= i < |es| ==> UpcomingEntry(rule, ws[i], families, rels, now) == Success(es[i])
  {
    if people != [] {
      var init, p := people[..|people| - 1], people[|people| - 1];
      UpcomingEntriesInOrder(rule, init, families, rels, now, daysAhead);
      WindowPeopleSnoc(rule, people, now, daysAhead);
      var r := UpcomingEntries(rule, people, families, rels, now, daysAhead);
      if r.Success? && InWindow(rule, p, now, daysAhead) {
        var acc := UpcomingEntries(rule, init, families, rels, now, daysAhead).value;
        var e := UpcomingEntry(rule, p, families, rels, now).value;
        assert r.value == acc + [e];
        EntriesInOrderStep(rule, families, rels, now, acc, WindowPeople(rule, init, now, daysAhead), p, e);
      }
    }
  }

  /** One more in-window person and its entry keep the entries paired with
      the in-window people, index by index. */
  lemma EntriesInOrderStep(rule: Rule, families: seq<Family>, rels: seq<Relationship>, now: Now,
                           acc: seq<UpcomingBirthday>, ws: seq<Person>, p: Person, e: UpcomingBirthday)
    requires |acc| == |ws|
    requires forall i :: 0 <= i < |acc| ==> UpcomingEntry(rule, ws[i], families, rels, now) == Success(acc[i])
    requires UpcomingEntry(rule, p, families, rels, now) == Success(e)
    ensures |acc + [e]| == |ws + [p]|
    ensures forall i :: 0 <= i < |acc + [e]| ==>
      UpcomingEntry(rule, (ws + [p])[i], families, rels, now) == Success((acc + [e])[i])
  {
  }

  /** One more person joins the in-window people exactly when in the window. */
  lemma WindowPeopleSnoc(rule: Rule, people: seq<Person>, now: Now, daysAhead: int)
    requires people != []
    ensures WindowPeople(rule, people, now, daysAhead) ==
      WindowPeople(rule, people[..|people| - 1], now, daysAhead)
      + (if InWindow(rule, people[|people| - 1], now, daysAhead) then [people[|people| - 1]] else [])
  {
  }

  /** Every listed entry has `0 <= daysUntil <= daysAhead`. */
  lemma UpcomingEntriesInWindow(rule: Rule, people: seq<Person>, families: seq<Family>, rels: seq<Relationship>,
                                now: Now, daysAhead: int)
    requires UpcomingEntries(rule, people, families, rels, now, daysAhead).Success?
    ensures forall e :: e in UpcomingEntries(rule, people, families, rels, now, daysAhead).value ==>
      0 <= e.daysUntil <= daysAhead && e.person.isActive
  {
    UpcomingEntriesMeaning(rule, people, families, rels, now, daysAhead);
  }

  /** With the day-granular comparison, an active person whose birthday is
      today is listed with `daysUntil == 0`. */
  lemma BirthdayTodayIsListed(people: seq<Person>, families: seq<Family>, rels: seq<Relationship>, now: Now,
                              daysAhead: int, p: Person)
    requires ValidNow(now) && 0 <= daysAhead
    requires p in people && p.isActive
    requires HasBirthday(p) && GetMonthIndex(p.birthMonth) == now.today.month && p.birthDay == now.today.day
    requires UpcomingEntries(DayGranular, people, families, rels, now, daysAhead).Success?
    ensures exists e :: e in UpcomingEntries(DayGranular, people, families, rels, now, daysAhead).value
                     && e.person == p && e.daysUntil == 0
  {
    assert DayNumberOf(BirthdayIn(p, now.today.year)) == DayNumberOf(now.today);
    UpcomingEntriesMeaning(DayGranular, people, families, rels, now, daysAhead);
    var e := UpcomingEntry(DayGranular, p, families, rels, now).value;
    assert e in UpcomingEntries(DayGranular, people, families, rels, now, daysAhead).value;
  }

  /** Away from a birthday falling today read after midnight, both rules give
      the same next birthday, and so the same window and the same entry. */
  lemma RulesAgreeOffTheDay(p: Person, families: seq<Family>, rels: seq<Relationship>, now: Now, daysAhead: int)
    requires ValidNow(now) && !MissedToday(p, now)
    ensures InWindow(AsWritten, p, now, daysAhead) == InWindow(DayGranular, p, now, daysAhead)
    ensures UpcomingEntry(AsWritten, p, families, rels, now) == UpcomingEntry(DayGranular, p, families, rels, now)
  {
    AsWrittenDiffersOnlyOnTheDay(p, now);
    assert NextBirthdayBy(AsWritten, p, now) == NextBirthdayBy(DayGranular, p, now);
  }

  /** On the day itself, after midnight, the day-granular rule puts the
      birthday 0 days away and the code as written a year away. */
  lemma RulesOnTheDay(p: Person, now: Now)
    requires ValidNow(now) && MissedToday(p, now)
    ensures DaysUntil(DayNumberOf(NextBirthdayBy(DayGranular, p, now)), now) == 0
    ensures DaysUntil(DayNumberOf(NextBirthdayBy(AsWritten, p, now)), now) >= 365
  {
    var y, m, d := now.today.year, GetMonthIndex(p.birthMonth), p.birthDay;
    var b0, b1 := DayNumberOf(BirthdayIn(p, y)), DayNumberOf(BirthdayIn(p, y + 1));
    SameDayNextYearAnyMonth(y, m, d);
    assert b1 - b0 >= 365;
    assert b0 * MS_PER_DAY < InstantMs(now);
    assert NextBirthdayBy(DayGranular, p, now) == BirthdayIn(p, y);
    assert NextBirthdayBy(AsWritten, p, now) == BirthdayIn(p, y + 1);
    assert DaysUntil(b0, now) == 0;
    assert DaysUntil(b1, now) == b1 - b0;
  }

  /** For a window shorter than a year, the code as written admits exactly the
      people the day-granular rule admits, less those whose birthday is today
      read after midnight; for everyone else the two entries agree. */
  lemma WindowAsWritten(p: Person, families: seq<Family>, rels: seq<Relationship>, now: Now, daysAhead: int)
    requires ValidNow(now) && daysAhead < 365
    ensures InWindow(AsWritten, p, now, daysAhead) <==> InWindow(DayGranular, p, now, daysAhead) && !MissedToday(p, now)
    ensures !MissedToday(p, now) ==>
      UpcomingEntry(AsWritten, p, families, rels, now) == UpcomingEntry(DayGranular, p, families, rels, now)
  {
    if MissedToday(p, now) {
      RulesOnTheDay(p, now);
    } else {
      RulesAgreeOffTheDay(p, families, rels, now, daysAhead);
    }
  }

  /** For a window shorter than a year, the list the code as written builds is
      the day-granular list of everyone but the people whose birthday is today
      read after midnight: it drops exactly those and changes nothing else,
      their failures included. */
  lemma {:induction false} UpcomingAsWrittenDropsToday(people: seq<Person>, families: seq<Family>,
                                                       rels: seq<Relationship>, now: Now, daysAhead: int)
    requires ValidNow(now) && daysAhead < 365
    ensures UpcomingEntries(AsWritten, people, families, rels, now, daysAhead)
         == UpcomingEntries(DayGranular, Filter(people, q => !MissedToday(q, now)), families, rels, now, daysAhead)
  {
    var keep := q => !MissedToday(q, now);
    if people != [] {
      var init, p := people[..|people| - 1], people[|people| - 1];
      assert people == init + [p];
      FilterSnoc(init, p, keep);
      UpcomingAsWrittenDropsToday(init, families, rels, now, daysAhead);
      WindowAsWritten(p, families, rels, now, daysAhead);
      if keep(p) {
        var kept := Filter(init, keep) + [p];
        assert kept[..|kept| - 1] == Filter(init, keep);
      }
    }
  }

  /** As written, a person whose birthday is today, read after midnight, is
      left out of any window shorter than a year. */
  lemma BirthdayTodayIsLeftOut(people: seq<Person>, families: seq<Family>, rels: seq<Relationship>, now: Now,
                               daysAhead: int, p: Person)
    requires ValidNow(now) && now.msOfDay > 0 && daysAhead < 365
    requires HasBirthday(p) && GetMonthIndex(p.birthMonth) == now.today.month && p.birthDay == now.today.day
    requires UpcomingEntries(AsWritten, people, families, rels, now, daysAhead).Success?
    ensures forall e :: e in UpcomingEntries(AsWritten, people, families, rels, now, daysAhead).value ==> e.person != p
  {
    assert BirthdayIn(p, now.today.year) == now.today;
    UpcomingEntriesMeaning(AsWritten, people, families, rels, now, daysAhead);
    WindowAsWritten(p, families, rels, now, daysAhead);
  }

  /** A failure in a prefix of the loop is a failure of the whole loop. */
  lemma FailurePersists(rule: Rule, people: seq<Person>, families: seq<Family>, rels: seq<Relationship>, now: Now,
                        daysAhead: int, i: nat)
    requires i <= |people|
    requires UpcomingEntries(rule, people[..i], families, rels, now, daysAhead).Failure?
    ensures UpcomingEntries(rule, people, families, rels, now, daysAhead).Failure?
    decreases |people| - i
  {
    if i < |people| {
      assert people[..i + 1][..i] == people[..i];
      FailurePersists(rule, people, families, rels, now, daysAhead, i + 1);
    } else {
      assert people[..i] == people;
    }
  }

  function DaysUntilOf(e: UpcomingBirthday): int
  {
    e.daysUntil
  }

  /** `getUpcomingBirthdays(daysAhead)`: the entries of the `forEach` loop,
      which calls `getNextBirthday` as written, sorted by `daysUntil`; or the
      error the loop stops at. */
  method GetUpcomingBirthdays(people: seq<Person>, families: seq<Family>, rels: seq<Relationship>, now: Now,
                              daysAhead: int := 30) returns (r: Result<seq<UpcomingBirthday>>)
    ensures r.Failure? <==> UpcomingEntries(AsWritten, people, families, rels, now, daysAhead).Failure?
    ensures r.Failure? ==> r.error == MissingFamily
    ensures r.Success? ==>
      && SortedBy(r.value, DaysUntilOf)
      && multiset(r.value) == multiset(UpcomingEntries(AsWritten, people, families, rels, now, daysAhead).value)
  {
    var acc := [];
    for i := 0 to |people|
      invariant UpcomingEntries(AsWritten, people[..i], families, rels, now, daysAhead) == Success(acc)
    {
      var p := people[i];
      assert people[..i + 1][..i] == people[..i];
      if InWindow(AsWritten, p, now, daysAhead) {
        var entry := UpcomingEntry(AsWritten, p, families, rels, now);
        if entry.Failure? {
          FailurePersists(AsWritten, people, families, rels, now, daysAhead, i + 1);
          UpcomingEntriesMeaning(AsWritten, people, families, rels, now, daysAhead);
          return Failure(entry.error);
        }
        acc := acc + [entry.value];
      }
    }
    assert people[..|people|] == people;
    var sorted := SortBy(acc, DaysUntilOf);
    r := Success(sorted);
  }
}
