/**
 * Choosing the pattern a date/time formatter uses (`DateTimePatterns` for
 * `DatePatternsV1`): a length bag picks stored patterns by length, an hour-cycle
 * preference picks the stored time patterns and then rewrites their hour fields,
 * and a components bag is handed to skeleton matching.
 *
 * Parsing a stored pattern string, gluing a date and a time pattern together and
 * skeleton matching live elsewhere; they are parameters here (`PatternLibrary`).
 */
module DateTimePatterns {
  import opened Wrappers
  import opened DateTimeFields

  /** `length::Date` */
  datatype DateLength = Full | Long | Medium | Short

  /** `length::Time` */
  datatype TimeLength = Full | Long | Medium | Short

  /** Four stored pattern strings, one per length. */
  datatype LengthPatterns = LengthPatterns(full: string, long: string, medium: string, short: string)

  /** The skeleton table skeleton matching searches. */
  datatype Skeletons = Skeletons(entries: seq<(string, string)>)

  /** `datetime` of `DatePatternsV1`: the date+time glue patterns and the skeletons. */
  datatype DateTimeFormats = DateTimeFormats(lengthPatterns: LengthPatterns, skeletons: Skeletons)

  /** `provider::gregory::DatePatternsV1` */
  datatype DatePatternsV1 = DatePatternsV1(
    date: LengthPatterns,
    timeH11H12: LengthPatterns,
    timeH23H24: LengthPatterns,
    preferredHourCycle: CoarseHourCycle,
    datetime: DateTimeFormats)

  /** `length::Bag` */
  datatype LengthBag = LengthBag(date: Option<DateLength>, time: Option<TimeLength>, preferences: Option<PreferencesBag>)

  /** `components::Bag`, given by the fields it requests. */
  datatype ComponentsBag = ComponentsBag(requested: seq<Field>)

  /** `DateTimeFormatOptions` */
  datatype DateTimeFormatOptions = Length(lengthBag: LengthBag) | Components(componentsBag: ComponentsBag)

  /** `skeleton::BestSkeleton` */
  datatype BestSkeleton = AllFieldsMatch(pattern: Pattern) | MissingOrExtraFields(pattern: Pattern) | NoMatch

  /** `DateTimeFormatError`, as far as pattern selection produces it (a pattern that does not parse). */
  datatype DateTimeFormatError = PatternError(reason: string)

  /**
   * The operations pattern selection calls but does not define: `Pattern::from_bytes`,
   * `Pattern::from_bytes_combination` and `skeleton::create_best_pattern_for_fields`.
   */
  datatype PatternLibrary = PatternLibrary(
    fromBytes: string -> Result<Pattern, DateTimeFormatError>,
    fromBytesCombination: (string, Pattern, Pattern) -> Result<Pattern, DateTimeFormatError>,
    bestPatternForFields: (Skeletons, LengthPatterns, ComponentsBag) -> BestSkeleton)

  /** The stored pattern of a date length: the one of the same name. */
  function DateSlot(table: LengthPatterns, length: DateLength): (s: string)
    ensures length == DateLength.Full ==> s == table.full
    ensures length == DateLength.Long ==> s == table.long
    ensures length == DateLength.Medium ==> s == table.medium
    ensures length == DateLength.Short ==> s == table.short
  {
    match length
    case Full => table.full
    case Long => table.long
    case Medium => table.medium
    case Short => table.short
  }

  /** The stored pattern of a time length: the one of the same name. */
  function TimeSlot(table: LengthPatterns, length: TimeLength): (s: string)
    ensures length == TimeLength.Full ==> s == table.full
    ensures length == TimeLength.Long ==> s == table.long
    ensures length == TimeLength.Medium ==> s == table.medium
    ensures length == TimeLength.Short ==> s == table.short
  {
    match length
    case Full => table.full
    case Long => table.long
    case Medium => table.medium
    case Short => table.short
  }

  /** `get_pattern_for_date_length`: parse the stored date pattern of that length. */
  function GetPatternForDateLength(data: DatePatternsV1, lib: PatternLibrary, length: DateLength)
    : (r: Result<Pattern, DateTimeFormatError>)
  {
    lib.fromBytes(DateSlot(data.date, length))
  }

  /**
   * `get_pattern_for_datetime_length`: glue a date and a time pattern with the
   * stored date+time pattern of the date's length.
   */
  function GetPatternForDatetimeLength(data: DatePatternsV1, lib: PatternLibrary, length: DateLength, date: Pattern, time: Pattern)
    : (r: Result<Pattern, DateTimeFormatError>)
  {
    lib.fromBytesCombination(DateSlot(data.datetime.lengthPatterns, length), date, time)
  }

  /** Date and date+time lengths are looked up in their tables under the same name. */
  lemma DateLengthsSelectSameNamedPatterns(data: DatePatternsV1, lib: PatternLibrary, date: Pattern, time: Pattern)
    ensures GetPatternForDateLength(data, lib, DateLength.Full) == lib.fromBytes(data.date.full)
    ensures GetPatternForDateLength(data, lib, DateLength.Long) == lib.fromBytes(data.date.long)
    ensures GetPatternForDateLength(data, lib, DateLength.Medium) == lib.fromBytes(data.date.medium)
    ensures GetPatternForDateLength(data, lib, DateLength.Short) == lib.fromBytes(data.date.short)
    ensures GetPatternForDatetimeLength(data, lib, DateLength.Full, date, time)
      == lib.fromBytesCombination(data.datetime.lengthPatterns.full, date, time)
    ensures GetPatternForDatetimeLength(data, lib, DateLength.Long, date, time)
      == lib.fromBytesCombination(data.datetime.lengthPatterns.long, date, time)
    ensures GetPatternForDatetimeLength(data, lib, DateLength.Medium, date, time)
      == lib.fromBytesCombination(data.datetime.lengthPatterns.medium, date, time)
    ensures GetPatternForDatetimeLength(data, lib, DateLength.Short, date, time)
      == lib.fromBytesCombination(data.datetime.lengthPatterns.short, date, time)
  {
  }

  /**
   * `get_pattern_for_components_bag`: the pattern skeleton matching finds, whether
   * or not every requested field matched; no pattern when nothing matched. It never
   * fails.
   */
  function GetPatternForComponentsBag(data: DatePatternsV1, lib: PatternLibrary, components: ComponentsBag)
    : (r: Result<Option<Pattern>, DateTimeFormatError>)
    ensures r.Ok?
    ensures r.value.None? <==> lib.bestPatternForFields(data.datetime.skeletons, data.datetime.lengthPatterns, components).NoMatch?
    ensures r.value.Some? ==>
      r.value.value == lib.bestPatternForFields(data.datetime.skeletons, data.datetime.lengthPatterns, components).pattern
  {
    match lib.bestPatternForFields(data.datetime.skeletons, data.datetime.lengthPatterns, components)
    case AllFieldsMatch(p) => Ok(Some(p))
    case MissingOrExtraFields(p) => Ok(Some(p))
    case NoMatch => Ok(None)
  }

  /** The explicit hour cycle of a preference bag, if it names one. */
  function PreferredCycle(preferences: Option<PreferencesBag>): Option<HourCycle> {
    if preferences.Some? then preferences.value.hourCycle else None
  }

  /**
   * The stored time patterns used for a preference: an explicit H11 or H12 picks
   * the h11/h12 table and H23 or H24 the h23/h24 table; without an explicit hour
   * cycle the locale's preferred coarse cycle decides.
   */
  function TimeTable(data: DatePatternsV1, preferences: Option<PreferencesBag>): (t: LengthPatterns)
    ensures PreferredCycle(preferences) == Some(H11) ==> t == data.timeH11H12
    ensures PreferredCycle(preferences) == Some(H12) ==> t == data.timeH11H12
    ensures PreferredCycle(preferences) == Some(H23) ==> t == data.timeH23H24
    ensures PreferredCycle(preferences) == Some(H24) ==> t == data.timeH23H24
    ensures PreferredCycle(preferences).None? ==>
      t == (if data.preferredHourCycle == H11H12 then data.timeH11H12 else data.timeH23H24)
  {
    match PreferredCycle(preferences)
    case Some(hc) =>
      (match hc
       case H11 => data.timeH11H12
       case H12 => data.timeH11H12
       case H23 => data.timeH23H24
       case H24 => data.timeH23H24)
    case None =>
      (match data.preferredHourCycle
       case H11H12 => data.timeH11H12
       case H23H24 => data.timeH23H24)
  }

  /** An hour field gets the hour symbol of `hc` and keeps its length; any other item is unchanged. */
  function RewriteHour(item: PatternItem, hc: HourCycle): PatternItem {
    match item
    case FieldItem(Field(Hour(_), len)) => FieldItem(Field(Hour(HourCycleField(hc)), len))
    case _ => item
  }

  /** Every item of a pattern with its hour field rewritten for `hc`. */
  function ApplyHourCycle(items: seq<PatternItem>, hc: HourCycle): (r: seq<PatternItem>)
    ensures |r| == |items|
    ensures forall i :: 0 <= i < |items| ==> r[i] == RewriteHour(items[i], hc)
  {
    seq(|items|, i requires 0 <= i < |items| => RewriteHour(items[i], hc))
  }

  /** What `get_pattern_for_time_length` returns. */
  function TimeLengthPattern(data: DatePatternsV1, lib: PatternLibrary, length: TimeLength, preferences: Option<PreferencesBag>)
    : Result<Pattern, DateTimeFormatError>
  {
    match lib.fromBytes(TimeSlot(TimeTable(data, preferences), length))
    case Err(e) => Err(e)
    case Ok(p) =>
      match PreferredCycle(preferences)
      case None => Ok(p)
      case Some(hc) => Ok(Pattern(ApplyHourCycle(p.items, hc)))
  }

  /**
   * `get_pattern_for_time_length`: parse the stored time pattern of that length
   * from the table the hour cycle selects, then, when the preference names an hour
   * cycle, overwrite the symbol of every hour field in place.
   */
  method GetPatternForTimeLength(data: DatePatternsV1, lib: PatternLibrary, length: TimeLength, preferences: Option<PreferencesBag>)
    returns (r: Result<Pattern, DateTimeFormatError>)
    ensures r == TimeLengthPattern(data, lib, length, preferences)
  {
    var time := TimeTable(data, preferences);
    var parsed := lib.fromBytes(TimeSlot(time, length));
    if parsed.Err? {
      return Err(parsed.error);
    }
    var items := parsed.value.items;
    if PreferredCycle(preferences).Some? {
      var hc := PreferredCycle(preferences).value;
      var i := 0;
      while i < |items|
        invariant 0 <= i <= |items| == |parsed.value.items|
        invariant items[..i] == ApplyHourCycle(parsed.value.items, hc)[..i]
        invariant items[i..] == parsed.value.items[i..]
      {
        if items[i].FieldItem? && items[i].field.symbol.Hour? {
          items := items[i := FieldItem(Field(Hour(HourCycleField(hc)), items[i].field.length))];
        }
        i := i + 1;
      }
      assert items == items[..i];
      assert items == ApplyHourCycle(parsed.value.items, hc);
    } else {
      assert Pattern(items) == parsed.value;
    }
    r := Ok(Pattern(items));
  }

  /**
   * With an explicit hour cycle, the time pattern keeps every item of the stored
   * pattern: the item count, every non-hour item and every field length stay as
   * parsed, and each hour field carries the symbol of the preferred cycle.
   */
  lemma PreferenceRewritesOnlyHourSymbols(data: DatePatternsV1, lib: PatternLibrary, length: TimeLength, preferences: Option<PreferencesBag>)
    requires PreferredCycle(preferences).Some?
    requires TimeLengthPattern(data, lib, length, preferences).Ok?
    ensures var parsed := lib.fromBytes(TimeSlot(TimeTable(data, preferences), length)).value;
            var out := TimeLengthPattern(data, lib, length, preferences).value;
            && |out.items| == |parsed.items|
            && (forall i :: 0 <= i < |parsed.items| && !IsHourItem(parsed.items[i]) ==> out.items[i] == parsed.items[i])
            && (forall i :: 0 <= i < |parsed.items| && IsHourItem(parsed.items[i]) ==>
                  out.items[i] == FieldItem(Field(Hour(HourCycleField(PreferredCycle(preferences).value)), parsed.items[i].field.length)))
  {
  }

  /** `item` is a field whose symbol is an hour. */
  predicate IsHourItem(item: PatternItem) {
    item.FieldItem? && item.field.symbol.Hour?
  }

  /** After the rewrite every hour field has the hour symbol of `hc`. */
  lemma HourFieldsFollowPreference(items: seq<PatternItem>, hc: HourCycle)
    ensures forall i :: 0 <= i < |items| && IsHourItem(ApplyHourCycle(items, hc)[i]) ==>
      ApplyHourCycle(items, hc)[i].field.symbol == Hour(HourCycleField(hc))
    ensures forall i :: 0 <= i < |items| ==> IsHourItem(ApplyHourCycle(items, hc)[i]) == IsHourItem(items[i])
  {
  }

  /** Rewriting the hour fields twice for the same cycle is rewriting them once. */
  lemma ApplyHourCycleIdempotent(items: seq<PatternItem>, hc: HourCycle)
    ensures ApplyHourCycle(ApplyHourCycle(items, hc), hc) == ApplyHourCycle(items, hc)
  {
  }

  /**
   * An explicit hour cycle gives the pattern a locale preferring that cycle's
   * coarse table would give, with its hour fields rewritten for the cycle.
   */
  lemma PreferenceIsCoarseTablePlusRewrite(data: DatePatternsV1, lib: PatternLibrary, length: TimeLength, hc: HourCycle)
    ensures var preferring := data.(preferredHourCycle := Coarse(hc));
            var withPreference := TimeLengthPattern(data, lib, length, Some(PreferencesBag(Some(hc))));
            var localeDefault := TimeLengthPattern(preferring, lib, length, None);
            && withPreference.Ok? == localeDefault.Ok?
            && (withPreference.Ok? ==> withPreference.value.items == ApplyHourCycle(localeDefault.value.items, hc))
            && (withPreference.Err? ==> withPreference == localeDefault)
  {
  }

  /** A preference bag without an hour cycle behaves as no preference at all. */
  lemma BagWithoutHourCycleIsNoPreference(data: DatePatternsV1, lib: PatternLibrary, length: TimeLength)
    ensures TimeLengthPattern(data, lib, length, Some(PreferencesBag(None))) == TimeLengthPattern(data, lib, length, None)
    ensures TimeLengthPattern(data, lib, length, None) == lib.fromBytes(TimeSlot(TimeTable(data, None), length))
  {
  }

  /** `Result::map(Some)` */
  function MapSome(r: Result<Pattern, DateTimeFormatError>): Result<Option<Pattern>, DateTimeFormatError> {
    match r
    case Ok(p) => Ok(Some(p))
    case Err(e) => Err(e)
  }

  /**
   * `get_pattern_for_length_bag`: no length gives no pattern; one length gives the
   * pattern of that length; both give the time pattern, then the date pattern, then
   * their combination, and the first error stops the computation.
   */
  method GetPatternForLengthBag(data: DatePatternsV1, lib: PatternLibrary, bag: LengthBag)
    returns (r: Result<Option<Pattern>, DateTimeFormatError>)
    ensures r == LengthBagResult(data, lib, bag)
    ensures bag.date.None? && bag.time.None? ==> r == Ok(None)
    ensures bag.date.None? && bag.time.Some? ==>
      r == MapSome(TimeLengthPattern(data, lib, bag.time.value, bag.preferences))
    ensures bag.date.Some? && bag.time.None? ==>
      r == MapSome(GetPatternForDateLength(data, lib, bag.date.value))
    ensures bag.date.Some? && bag.time.Some? ==>
      var time := TimeLengthPattern(data, lib, bag.time.value, bag.preferences);
      var date := GetPatternForDateLength(data, lib, bag.date.value);
      && (time.Err? ==> r == Err(time.error))
      && (time.Ok? && date.Err? ==> r == Err(date.error))
      && (time.Ok? && date.Ok? ==>
            r == MapSome(GetPatternForDatetimeLength(data, lib, bag.date.value, date.value, time.value)))
  {
    match (bag.date, bag.time)
    case (None, None) =>
      r := Ok(None);
    case (None, Some(timeLength)) =>
      var time := GetPatternForTimeLength(data, lib, timeLength, bag.preferences);
      r := MapSome(time);
    case (Some(dateLength), None) =>
      r := MapSome(GetPatternForDateLength(data, lib, dateLength));
    case (Some(dateLength), Some(timeLength)) =>
      var time := GetPatternForTimeLength(data, lib, timeLength, bag.preferences);
      if time.Err? {
        return Err(time.error);
      }
      var date := GetPatternForDateLength(data, lib, dateLength);
      if date.Err? {
        return Err(date.error);
      }
      r := MapSome(GetPatternForDatetimeLength(data, lib, dateLength, date.value, time.value));
  }

  /** What `get_pattern_for_length_bag` returns. */
  function LengthBagResult(data: DatePatternsV1, lib: PatternLibrary, bag: LengthBag): Result<Option<Pattern>, DateTimeFormatError> {
    match (bag.date, bag.time)
    case (None, None) => Ok(None)
    case (None, Some(t)) => MapSome(TimeLengthPattern(data, lib, t, bag.preferences))
    case (Some(d), None) => MapSome(GetPatternForDateLength(data, lib, d))
    case (Some(d), Some(t)) =>
      match TimeLengthPattern(data, lib, t, bag.preferences)
      case Err(e) => Err(e)
      case Ok(time) =>
        match GetPatternForDateLength(data, lib, d)
        case Err(e) => Err(e)
        case Ok(date) => MapSome(GetPatternForDatetimeLength(data, lib, d, date, time))
  }

  /** `get_pattern_for_options`: a length bag goes to length selection, a components bag to skeleton matching. */
  method GetPatternForOptions(data: DatePatternsV1, lib: PatternLibrary, options: DateTimeFormatOptions)
    returns (r: Result<Option<Pattern>, DateTimeFormatError>)
    ensures options.Length? ==> r == LengthBagResult(data, lib, options.lengthBag)
    ensures options.Components? ==> r == GetPatternForComponentsBag(data, lib, options.componentsBag)
  {
    match options
    case Length(bag) =>
      r := GetPatternForLengthBag(data, lib, bag);
    case Components(bag) =>
      r := GetPatternForComponentsBag(data, lib, bag);
  }
}
