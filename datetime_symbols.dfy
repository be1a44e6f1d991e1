/**
 * Looking up the display names of weekdays, months and day periods
 * (`DateTimeSymbols` for `DateSymbolsV1`). Stand-alone names fall back to format
 * names when the locale has none of the requested width.
 */
module DateTimeSymbols {
  import opened Wrappers
  import opened DateTimeFields

  /** A display name (`Cow<str>`). */
  type Symbol = string

  /** Seven weekday names, indexed by the weekday number modulo 7, so Sunday first (`[Cow<str>; 7]`). */
  type WeekdayNames = s: seq<Symbol> | |s| == 7 witness ["", "", "", "", "", "", ""]

  /** Twelve month names (`[Cow<str>; 12]`). */
  type MonthNames = s: seq<Symbol> | |s| == 12 witness ["", "", "", "", "", "", "", "", "", "", "", ""]

  /** Names in format context: every width present except `short`. */
  datatype FormatWidths<S> = FormatWidths(abbreviated: S, narrow: S, short: Option<S>, wide: S)

  /** Names in stand-alone context: any width may be missing. */
  datatype StandAloneWidths<S> = StandAloneWidths(abbreviated: Option<S>, narrow: Option<S>, short: Option<S>, wide: Option<S>)

  /** Format names, and stand-alone names when the locale has them. */
  datatype Contexts<S> = Contexts(format: FormatWidths<S>, standAlone: Option<StandAloneWidths<S>>)

  /** The names of the day periods of one width. */
  datatype DayPeriodNames = DayPeriodNames(am: Symbol, pm: Symbol, noon: Option<Symbol>, midnight: Option<Symbol>)

  /** `provider::gregory::DateSymbolsV1` */
  datatype DateSymbolsV1 = DateSymbolsV1(
    months: Contexts<MonthNames>,
    weekdays: Contexts<WeekdayNames>,
    dayPeriods: Contexts<DayPeriodNames>)

  /** `fields::Weekday` */
  datatype WeekdayField = Format | StandAlone | Local

  /** `fields::Month` */
  datatype MonthField = Format | StandAlone

  /** `fields::DayPeriod` */
  datatype DayPeriodField = AmPm | NoonMidnight

  // ---------------------------------------------------------------------------
  // Weekdays
  // ---------------------------------------------------------------------------

  /** The format weekday names of a length: `Six` takes `short` when present and `abbreviated` otherwise. */
  function FormatWeekdays(widths: FormatWidths<WeekdayNames>, length: FieldLength): WeekdayNames {
    match length
    case Wide => widths.wide
    case Narrow => widths.narrow
    case Six => widths.short.UnwrapOr(widths.abbreviated)
    case _ => widths.abbreviated
  }

  /** The stand-alone weekday names of a length, if the locale has them. */
  function StandAloneWeekdays(widths: StandAloneWidths<WeekdayNames>, length: FieldLength): Option<WeekdayNames> {
    match length
    case Wide => widths.wide
    case Narrow => widths.narrow
    case Six => if widths.short.Some? then widths.short else widths.abbreviated
    case _ => widths.abbreviated
  }

  /**
   * `get_symbol_for_weekday`: the name of weekday number `day` (taken modulo 7).
   * Stand-alone context uses stand-alone names when the locale has that width and
   * looks the day up in format context otherwise. Local weekdays are not supported.
   */
  function GetSymbolForWeekday(data: DateSymbolsV1, weekday: WeekdayField, length: FieldLength, day: nat): Symbol
    requires weekday != WeekdayField.Local
    decreases weekday.StandAlone?
  {
    match weekday
    case Format => FormatWeekdays(data.weekdays.format, length)[day % 7]
    case StandAlone =>
      if data.weekdays.standAlone.Some? then
        match StandAloneWeekdays(data.weekdays.standAlone.value, length)
        case Some(names) => names[day % 7]
        case None => GetSymbolForWeekday(data, WeekdayField.Format, length, day)
      else
        GetSymbolForWeekday(data, WeekdayField.Format, length, day)
  }

  /** The weekday names a lookup ends up reading, with the stand-alone fallback resolved. */
  function ResolvedWeekdays(data: DateSymbolsV1, weekday: WeekdayField, length: FieldLength): WeekdayNames {
    var standAlone := if data.weekdays.standAlone.Some? then StandAloneWeekdays(data.weekdays.standAlone.value, length) else None;
    if weekday == WeekdayField.StandAlone && standAlone.Some? then standAlone.value
    else FormatWeekdays(data.weekdays.format, length)
  }

  /**
   * A weekday name is entry `day % 7` of the names the lookup resolves to, so the
   * index is always in 0..6 and names repeat every seven days.
   */
  lemma WeekdayIsResolvedEntry(data: DateSymbolsV1, weekday: WeekdayField, length: FieldLength, day: nat)
    requires weekday != WeekdayField.Local
    ensures 0 <= day % 7 < 7
    ensures GetSymbolForWeekday(data, weekday, length, day) == ResolvedWeekdays(data, weekday, length)[day % 7]
    ensures GetSymbolForWeekday(data, weekday, length, day + 7) == GetSymbolForWeekday(data, weekday, length, day)
  {
    assert (day + 7) % 7 == day % 7;
  }

  /** Without stand-alone names of the requested width, a stand-alone lookup gives the format name. */
  lemma StandAloneWeekdayFallsBack(data: DateSymbolsV1, length: FieldLength, day: nat)
    requires data.weekdays.standAlone.None? || StandAloneWeekdays(data.weekdays.standAlone.value, length).None?
    ensures GetSymbolForWeekday(data, WeekdayField.StandAlone, length, day)
         == GetSymbolForWeekday(data, WeekdayField.Format, length, day)
  {
  }

  /** `Six` reads `short` names when the locale has them and the abbreviated names otherwise. */
  lemma SixWeekdayUsesShortOrAbbreviated(data: DateSymbolsV1, day: nat)
    ensures data.weekdays.format.short.Some? ==>
      GetSymbolForWeekday(data, WeekdayField.Format, Six, day) == data.weekdays.format.short.value[day % 7]
    ensures data.weekdays.format.short.None? ==>
      GetSymbolForWeekday(data, WeekdayField.Format, Six, day) == GetSymbolForWeekday(data, WeekdayField.Format, Abbreviated, day)
  {
  }

  // ---------------------------------------------------------------------------
  // Months
  // ---------------------------------------------------------------------------

  /** The format month names of a length; every length but `Wide` and `Narrow` reads the abbreviated names. */
  function FormatMonths(widths: FormatWidths<MonthNames>, length: FieldLength): MonthNames {
    match length
    case Wide => widths.wide
    case Narrow => widths.narrow
    case _ => widths.abbreviated
  }

  /** The stand-alone month names of a length, if the locale has them. */
  function StandAloneMonths(widths: StandAloneWidths<MonthNames>, length: FieldLength): Option<MonthNames> {
    match length
    case Wide => widths.wide
    case Narrow => widths.narrow
    case _ => widths.abbreviated
  }

  /**
   * `get_symbol_for_month`: the name of month number `num` (0 to 11). Stand-alone
   * context falls back to format context as for weekdays.
   */
  function GetSymbolForMonth(data: DateSymbolsV1, month: MonthField, length: FieldLength, num: nat): Symbol
    requires num < 12
    decreases month.StandAlone?
  {
    match month
    case Format => FormatMonths(data.months.format, length)[num]
    case StandAlone =>
      if data.months.standAlone.Some? then
        match StandAloneMonths(data.months.standAlone.value, length)
        case Some(names) => names[num]
        case None => GetSymbolForMonth(data, MonthField.Format, length, num)
      else
        GetSymbolForMonth(data, MonthField.Format, length, num)
  }

  /** The month names a lookup ends up reading, with the stand-alone fallback resolved. */
  function ResolvedMonths(data: DateSymbolsV1, month: MonthField, length: FieldLength): MonthNames {
    var standAlone := if data.months.standAlone.Some? then StandAloneMonths(data.months.standAlone.value, length) else None;
    if month == MonthField.StandAlone && standAlone.Some? then standAlone.value
    else FormatMonths(data.months.format, length)
  }

  /** A month name is entry `num` of the names the lookup resolves to. */
  lemma MonthIsResolvedEntry(data: DateSymbolsV1, month: MonthField, length: FieldLength, num: nat)
    requires num < 12
    ensures GetSymbolForMonth(data, month, length, num) == ResolvedMonths(data, month, length)[num]
  {
  }

  /** Without stand-alone names of the requested width, a stand-alone lookup gives the format name. */
  lemma StandAloneMonthFallsBack(data: DateSymbolsV1, length: FieldLength, num: nat)
    requires num < 12
    requires data.months.standAlone.None? || StandAloneMonths(data.months.standAlone.value, length).None?
    ensures GetSymbolForMonth(data, MonthField.StandAlone, length, num)
         == GetSymbolForMonth(data, MonthField.Format, length, num)
  {
  }

  /** Month names have three widths: every length other than `Wide` and `Narrow` reads the abbreviated names. */
  lemma MonthLengthsShareAbbreviated(data: DateSymbolsV1, month: MonthField, length: FieldLength, num: nat)
    requires num < 12
    requires length != Wide && length != Narrow
    ensures GetSymbolForMonth(data, month, length, num) == GetSymbolForMonth(data, month, Abbreviated, num)
  {
  }

  // ---------------------------------------------------------------------------
  // Day periods
  // ---------------------------------------------------------------------------

  /** The format day-period names of a length. */
  function DayPeriodWidth(widths: FormatWidths<DayPeriodNames>, length: FieldLength): DayPeriodNames {
    match length
    case Wide => widths.wide
    case Narrow => widths.narrow
    case _ => widths.abbreviated
  }

  /**
   * `get_symbol_for_day_period`: with noon/midnight names, midnight on the hour is
   * "midnight" and noon on the hour is "noon" (each falling back to am or pm when
   * the locale has no such name); otherwise hours before 12 are am and the rest pm.
   */
  function GetSymbolForDayPeriod(data: DateSymbolsV1, dayPeriod: DayPeriodField, length: FieldLength, hour: nat, isTopOfHour: bool)
    : (r: Symbol)
    ensures var names := DayPeriodWidth(data.dayPeriods.format, length);
            r in {names.am, names.pm} || Some(r) in {names.noon, names.midnight}
  {
    var names := DayPeriodWidth(data.dayPeriods.format, length);
    if dayPeriod == NoonMidnight && hour == 0 && isTopOfHour then names.midnight.UnwrapOr(names.am)
    else if dayPeriod == NoonMidnight && hour == 12 && isTopOfHour then names.noon.UnwrapOr(names.pm)
    else if hour < 12 then names.am
    else names.pm
  }

  /** With am/pm names, the period depends only on whether the hour is before noon. */
  lemma AmPmDependsOnlyOnHour(data: DateSymbolsV1, length: FieldLength, hour: nat, isTopOfHour: bool)
    ensures var names := DayPeriodWidth(data.dayPeriods.format, length);
            GetSymbolForDayPeriod(data, AmPm, length, hour, isTopOfHour) == (if hour < 12 then names.am else names.pm)
  {
  }

  /**
   * Noon/midnight names differ from am/pm only at midnight and noon exactly on the
   * hour, where the noon or midnight name is used when the locale has one.
   */
  lemma NoonMidnightOnlyOnTheHour(data: DateSymbolsV1, length: FieldLength, hour: nat, isTopOfHour: bool)
    ensures var names := DayPeriodWidth(data.dayPeriods.format, length);
            && (!(isTopOfHour && (hour == 0 || hour == 12)) ==>
                  GetSymbolForDayPeriod(data, NoonMidnight, length, hour, isTopOfHour)
                  == GetSymbolForDayPeriod(data, AmPm, length, hour, isTopOfHour))
            && (isTopOfHour && hour == 0 ==>
                  GetSymbolForDayPeriod(data, NoonMidnight, length, hour, isTopOfHour) == names.midnight.UnwrapOr(names.am))
            && (isTopOfHour && hour == 12 ==>
                  GetSymbolForDayPeriod(data, NoonMidnight, length, hour, isTopOfHour) == names.noon.UnwrapOr(names.pm))
  {
  }
}
