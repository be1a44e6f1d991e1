/**
 * The pieces of a date/time pattern that pattern selection looks at: fields,
 * their lengths, hour symbols and the hour-cycle preference.
 */
module DateTimeFields {
  import Wrappers

  /** `fields::FieldLength` */
  datatype FieldLength = One | TwoDigit | Abbreviated | Wide | Narrow | Six

  /** `fields::Hour`: the four hour symbols, one per hour cycle. */
  datatype FieldHour = FieldH11 | FieldH12 | FieldH23 | FieldH24

  /**
   * `fields::FieldSymbol`. Hour symbols are spelled out; every other symbol
   * (year, month, weekday, minute, ...) is identified by its pattern letter.
   */
  datatype FieldSymbol = Hour(hour: FieldHour) | NonHour(letter: char)

  /** `fields::Field` */
  datatype Field = Field(symbol: FieldSymbol, length: FieldLength)

  /** `pattern::PatternItem` */
  datatype PatternItem = FieldItem(field: Field) | Literal(ch: char)

  /** `pattern::Pattern`: its items in order. */
  datatype Pattern = Pattern(items: seq<PatternItem>)

  /** `preferences::HourCycle` */
  datatype HourCycle = H11 | H12 | H23 | H24

  /** `HourCycle::field`: the hour symbol of each hour cycle. */
  function HourCycleField(hc: HourCycle): FieldHour {
    match hc
    case H11 => FieldH11
    case H12 => FieldH12
    case H23 => FieldH23
    case H24 => FieldH24
  }

  /** `pattern::CoarseHourCycle`: which stored time patterns a locale prefers. */
  datatype CoarseHourCycle = H11H12 | H23H24

  /** The coarse cycle an hour cycle belongs to. */
  function Coarse(hc: HourCycle): CoarseHourCycle {
    if hc == H11 || hc == H12 then H11H12 else H23H24
  }

  /** `preferences::Bag` */
  datatype PreferencesBag = PreferencesBag(hourCycle: Wrappers.Option<HourCycle>)
}
