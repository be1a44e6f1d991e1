# ICU4X core pieces, modelled in Dafny

This project models four parts of ICU4X and proves properties of them:

- **Unaligned little-endian data (`zerovec::ule`)**: the `ULE`, `AsULE`, `EqULE`, `SliceAsULE`, `AsVarULE` and `VarULE` contracts, stated over byte sequences.
  - A fixed-width ULE type is a width and a validity predicate on chunks of that width. A `&[T::ULE]` view is the sequence of chunks the bytes split into.
  - `AsULE` is a pair of conversions to and from the wire type.
  - `EqULE` says that a type's memory layout on little-endian targets equals its wire bytes.
  - `slice_as_unaligned` is modelled with the target endianness as a parameter, so both `cfg` impls are covered.
  - `u32` over a four-byte plain wire type is the one concrete instance. It is illustrative only (`ule_u32.dfy`).
- **Date/time pattern and symbol selection (`icu_datetime::provider::helpers`)**: every `DateTimePatterns` method on `DatePatternsV1` and every `DateTimeSymbols` method on `DateSymbolsV1`.
  - The hour-cycle rewrite of `get_pattern_for_time_length` is an in-place loop over the parsed pattern's items. It is proved equal to a specification function.
- **The blob exporter (`icu_provider_blob::export::BlobExporter`)**: a class whose fields are the resource table and the bytes the sink has received. It has `new_with_sink`, `put_payload`, `close` and `Drop::drop`.
  - The table is a `LiteMap<String, Vec<u8>>`, modelled as a strictly sorted sequence of pairs with `insert` and `try_append` (`lite_map.dfy`).
  - Serialization is a function parameter that may fail.
  - The sink is fixed when the exporter is made, as in the source. It is a function saying how many leading bytes of a buffer one `write` call takes, or which error it reports.
- **The yoke derives (`yoke-derive`)**: `replace_lifetime` over a small `syn::Type` model, and the decisions of `yokeable_derive_impl` and `zcf_derive_impl`, that is, which impl each emits or which error it reports.
  - `replace_lifetime` clones the type, then overwrites parts of the clone in nested loops. It is written as a method of that shape and proved equal to a recursive specification function.

One point where the documentation and the code disagree: the doc comment of `derive(Yokeable)` (utils/yoke/derive/src/lib.rs:21-24) names the attribute `#[yoke(manually_prove_covariance)]`, but the code (line 79) looks for `prove_covariance_manually`. The model follows the code. `YokeDerive.DocumentedSpellingGivesPlainImpl` shows that the documented spelling selects the ordinary covariant impl.

## Model

| member | source | states |
|---|---|---|
| Ule.ParseByteSlice | utils/zerovec/src/ule/mod.rs:31-43 | Fails with a length error exactly when the byte count is not a multiple of the width. Otherwise it fails at the first chunk that is not a valid value. On success every element is a valid value, element i is the `width` bytes at offset `i * width`, the element count times the width is the byte count, and the elements concatenate back to the same bytes. |
| Ule.ParseAcceptsExactlyImages | utils/zerovec/src/ule/mod.rs:31-43 | Parsing succeeds if and only if the bytes are the byte image of some slice of valid values. |
| Ule.FromByteSliceUnchecked | utils/zerovec/src/ule/mod.rs:45-63 | On bytes `parse_byte_slice` accepts, it returns exactly what `parse_byte_slice` returns. |
| Ule.AsByteSlice | utils/zerovec/src/ule/mod.rs:65-73 | The byte length is the element count times the width, and parsing the bytes gives back the same slice. |
| Ule.UncheckedAfterAsByteSlice | utils/zerovec/src/ule/mod.rs:45-73 | The bytes of a slice are accepted by the parser, and the unchecked cast of them is the slice again. |
| Ule.LogicalSliceRoundTrip | utils/zerovec/src/ule/mod.rs:76-104 | For a 1:1 `AsULE` mapping, converting a slice to wire values, then to bytes, parsing, and converting back gives the original slice. Every converted value is valid. |
| Ule.WireSliceRoundTrip | utils/zerovec/src/ule/mod.rs:76-104 | For a 1:1 mapping, converting parsed wire values to `T` and back reproduces the same bytes. |
| Ule.FastPathIsElementwise | utils/zerovec/src/ule/mod.rs:107-115 | For an `EqULE` type, the little-endian memory of a slice splits into exactly the wire values of its elements. |
| Ule.SliceAsUnaligned | utils/zerovec/src/ule/mod.rs:124-155 | `Some` exactly on little-endian targets, then with the input's length and element i equal to `as_unaligned` of element i. `None` on big-endian targets. |
| VarUle.ParseByteSlice | utils/zerovec/src/ule/mod.rs:197-206 | Succeeds exactly on valid bytes, with a view over those same bytes. Otherwise it fails with an error naming the bytes. |
| VarUle.FromByteSliceUnchecked | utils/zerovec/src/ule/mod.rs:208-226 | On accepted bytes, returns exactly what `parse_byte_slice` returns. |
| VarUle.AsByteSlice | utils/zerovec/src/ule/mod.rs:228-234 | Returns the value's backing bytes: parsing them, checked or unchecked, gives the value back. |
| VarUle.LogicalValueRoundTrip | utils/zerovec/src/ule/mod.rs:157-182 | For a 1:1 `AsVarULE` mapping, a value's wire form is valid, and converting it to bytes, parsing and converting back gives the value. |
| VarUle.WireValueRoundTrip | utils/zerovec/src/ule/mod.rs:157-182 | For a 1:1 mapping, the owned value of parsed wire bytes converts back to the same bytes. |
| UleU32Example.FromLeToLe | utils/zerovec/src/ule/mod.rs:80-81 | Reading a `u32` from its four little-endian bytes gives the number back. |
| UleU32Example.ToLeFromLe | utils/zerovec/src/ule/mod.rs:80-81 | Any four bytes are the little-endian bytes of the number they encode. |
| UleU32Example.U32IsOneToOne | utils/zerovec/src/ule/mod.rs:76-84 | `u32` with four-byte little-endian wire values is a 1:1 `AsULE` mapping. |
| UleU32Example.U32IsEqUle | utils/zerovec/src/ule/mod.rs:107-115 | On little-endian targets, the memory of a `u32` equals its wire bytes. |
| UleU32Example.BigEndianLayoutDiffers | utils/zerovec/src/ule/mod.rs:146-155 | On big-endian targets, the memory of 1 is not its wire bytes, which is why the fast path is off there. |
| UleU32Example.ParseOne | utils/zerovec/src/ule/mod.rs:31-43 | `01 00 00 00` parses as one wire value, which reads as 1. |
| UleU32Example.ThreeBytesRejected | utils/zerovec/src/ule/mod.rs:31-43 | Three bytes are rejected with a length error. |
| UleU32Example.U32FastPath | utils/zerovec/src/ule/mod.rs:130-155 | For `u32`, the fast path gives each element's little-endian bytes on little-endian targets, and nothing on big-endian ones. |
| DateTimePatterns.GetPatternForOptions | components/datetime/src/provider/helpers.rs:60-65 | Length options go to length-bag selection, and components options go to skeleton matching. |
| DateTimePatterns.GetPatternForComponentsBag | components/datetime/src/provider/helpers.rs:67-86 | Never fails. Returns the matched pattern whether or not every field matched, and no pattern exactly when nothing matched. |
| DateTimePatterns.GetPatternForLengthBag | components/datetime/src/provider/helpers.rs:88-103 | No length gives no pattern, and one length gives that length's pattern. With both, the time pattern is computed first, then the date pattern, then their combination; the first error is returned. |
| DateTimePatterns.DateLengthsSelectSameNamedPatterns | components/datetime/src/provider/helpers.rs:105-130 | Each date length parses its same-named stored date pattern, and combines with its same-named stored date+time pattern. |
| DateTimePatterns.DateSlot | components/datetime/src/provider/helpers.rs:107-112 | Full, Long, Medium and Short select the same-named stored pattern. |
| DateTimePatterns.TimeSlot | components/datetime/src/provider/helpers.rs:157-162 | Full, Long, Medium and Short select the same-named stored time pattern. |
| DateTimePatterns.TimeTable | components/datetime/src/provider/helpers.rs:140-155 | An explicit H11 or H12 selects the h11/h12 patterns, and H23 or H24 selects the h23/h24 patterns. Without an explicit cycle, the locale's preferred coarse cycle decides. |
| DateTimePatterns.GetPatternForTimeLength | components/datetime/src/provider/helpers.rs:135-180 | The in-place loop over the parsed items yields exactly the specification: the selected table's pattern, with every hour field rewritten when an hour cycle is given. A parse error is passed through. |
| DateTimePatterns.ApplyHourCycle | components/datetime/src/provider/helpers.rs:164-177 | The rewrite keeps the item count. Each item becomes its hour-rewritten form. |
| DateTimePatterns.PreferenceRewritesOnlyHourSymbols | components/datetime/src/provider/helpers.rs:164-177 | With an explicit cycle, the item count, every non-hour item and every field length stay as parsed. Each hour field carries the preferred cycle's symbol. |
| DateTimePatterns.HourFieldsFollowPreference | components/datetime/src/provider/helpers.rs:170-176 | After the rewrite, exactly the items that were hour fields are hour fields, each with the preferred symbol. |
| DateTimePatterns.ApplyHourCycleIdempotent | components/datetime/src/provider/helpers.rs:170-176 | Rewriting twice for the same cycle is rewriting once. |
| DateTimePatterns.PreferenceIsCoarseTablePlusRewrite | components/datetime/src/provider/helpers.rs:142-177 | An explicit cycle gives what a locale preferring that cycle's coarse table would give, with the hour fields rewritten. Errors are the same. |
| DateTimePatterns.BagWithoutHourCycleIsNoPreference | components/datetime/src/provider/helpers.rs:142-166 | A preference bag without an hour cycle behaves as no bag, and returns the parsed pattern unchanged. |
| DateTimeSymbols.GetSymbolForWeekday | components/datetime/src/provider/helpers.rs:184-221 | The lookup itself; its contract is stated by `WeekdayIsResolvedEntry`, `StandAloneWeekdayFallsBack` and `SixWeekdayUsesShortOrAbbreviated`: entry `day % 7` of the format names, or of the stand-alone names when the locale has that width. |
| DateTimeSymbols.WeekdayIsResolvedEntry | components/datetime/src/provider/helpers.rs:184-221 | A weekday name is entry `day % 7` (always 0..6) of the names the lookup resolves to, and names repeat every seven days. |
| DateTimeSymbols.StandAloneWeekdayFallsBack | components/datetime/src/provider/helpers.rs:192-211 | Without stand-alone data, or without the requested width, a stand-alone lookup gives the format name. |
| DateTimeSymbols.SixWeekdayUsesShortOrAbbreviated | components/datetime/src/provider/helpers.rs:214-219 | `Six` reads the short names when present, and the abbreviated ones otherwise. |
| DateTimeSymbols.GetSymbolForMonth | components/datetime/src/provider/helpers.rs:223-256 | The lookup itself; its contract is stated by `MonthIsResolvedEntry`, `StandAloneMonthFallsBack` and `MonthLengthsShareAbbreviated`: entry `num` of the format names, or of the stand-alone names when the locale has that width. |
| DateTimeSymbols.MonthIsResolvedEntry | components/datetime/src/provider/helpers.rs:223-256 | A month name is entry `num` of the names the lookup resolves to. |
| DateTimeSymbols.StandAloneMonthFallsBack | components/datetime/src/provider/helpers.rs:233-248 | Without stand-alone data, or without the width, a stand-alone month lookup gives the format name. |
| DateTimeSymbols.MonthLengthsShareAbbreviated | components/datetime/src/provider/helpers.rs:250-254 | Every length other than Wide and Narrow reads the abbreviated month names. |
| DateTimeSymbols.GetSymbolForDayPeriod | components/datetime/src/provider/helpers.rs:258-278 | The result is one of the width's am, pm, noon or midnight names. |
| DateTimeSymbols.AmPmDependsOnlyOnHour | components/datetime/src/provider/helpers.rs:272-277 | With am/pm periods, hours before 12 give am and the rest give pm. |
| DateTimeSymbols.NoonMidnightOnlyOnTheHour | components/datetime/src/provider/helpers.rs:272-277 | Noon/midnight periods differ from am/pm only at hour 0 or 12 on the hour. There they give midnight (else am) or noon (else pm). |
| LiteMap.Insert | provider/blob/src/export/blob_exporter.rs:55 | Keeps the keys strictly sorted. The map gains exactly the new entry, replacing any old value under that key. |
| LiteMap.TryAppend | provider/blob/src/export/blob_exporter.rs:64-70 | Appends exactly when the key is greater than the last key, keeping the map sorted. Otherwise it leaves the map alone and hands the pair back. |
| LiteMap.EmptyIffNoPairs | provider/blob/src/export/blob_exporter.rs:31 | The map is empty exactly when it has no pairs. |
| BlobExport.BlobExporter.NewWithSink | provider/blob/src/export/blob_exporter.rs:21-26 | Starts with an empty, well-formed table, the given sink, and nothing written. |
| BlobExport.BlobExporter.PutPayload | provider/blob/src/export/blob_exporter.rs:47-57 | A serialization error is returned and the table is unchanged. Otherwise the table maps the path to the new bytes and is otherwise unchanged. |
| BlobExport.BlobExporter.SchemaOfResources | provider/blob/src/export/blob_exporter.rs:60-70 | Copying the table pair by pair with `try_append` never hits the "Same order" panic, and yields the table itself. |
| BlobExport.BlobExporter.Close | provider/blob/src/export/blob_exporter.rs:59-77 | The blob is the serialized table. A serialization or sink error is returned with the table kept. Otherwise the exporter's own sink gets the prefix it accepted in one `write`, and the table is cleared. |
| BlobExport.BlobExporter.Drop | provider/blob/src/export/blob_exporter.rs:29-35 | Panics exactly when the table is not empty. |
| BlobExport.WriteAllOutcome | provider/blob/src/export/blob_exporter.rs:74 | Delivers at most the whole buffer, and succeeds only after delivering all of it. |
| BlobExport.BlobExporter.WriteAll | provider/blob/src/export/blob_exporter.rs:74 | The write loop does exactly what `WriteAllOutcome` describes: the sink receives that many leading bytes. |
| BlobExport.BlobExporter.CloseWritingAll | provider/blob/src/export/blob_exporter.rs:59-77 | Corrected close: success means the whole blob reached the sink and the table was cleared. Any failure keeps the table. |
| BlobExport.ShortWriteLosesData | provider/blob/src/export/blob_exporter.rs:74-76 | With a sink that takes nothing, the as-written close reports success, delivers no byte of a non-empty blob, and empties the table. |
| BlobExport.ShortWriteReportedWhenWritingAll | provider/blob/src/export/blob_exporter.rs:74-76 | With the same sink, the corrected close reports the write failure and keeps the payload. |
| YokeDerive.ReplaceLifetime | utils/yoke/derive/src/lib.rs:262-304 | The rewrite as a recursive function. Its contract is stated by `ReplaceKeepsShape` (only lifetimes change; elided ones stay elided), `ReplacedLifetimes` (every reachable lifetime becomes the new one) and `ReplaceTwice` / `ReplaceIdempotent` (composition). |
| YokeDerive.CloneAndReplaceLifetime | utils/yoke/derive/src/lib.rs:262-304 | The clone-and-overwrite walk, with nested loops over path segments and arguments, yields exactly the specified rewrite. |
| YokeDerive.ReplaceTwice | utils/yoke/derive/src/lib.rs:262-304 | Rewriting with `a` and then with `b` gives the same type as rewriting with `b` alone. |
| YokeDerive.ReplaceIdempotent | utils/yoke/derive/src/lib.rs:262-304 | For a fixed lifetime, the rewrite is idempotent. |
| YokeDerive.ReplaceKeepsShape | utils/yoke/derive/src/lib.rs:279-299 | The rewritten type has the shape of the original. Kinds, mutability, array lengths, identifiers, parenthesized arguments and opaque tokens are unchanged. A lifetime is written out in exactly the places it was before, so elided ones stay elided. |
| YokeDerive.ReplacedLifetimes | utils/yoke/derive/src/lib.rs:279-299 | After the rewrite, the sequence of reachable lifetimes has the same length as before, and every entry is the new lifetime. |
| YokeDerive.ElidedReferenceStaysElided | utils/yoke/derive/src/lib.rs:279-284 | `Option<&str>` is left unchanged. |
| YokeDerive.CowBecomesStatic | utils/yoke/derive/src/lib.rs:285-300 | `Cow<'a, str>` becomes `Cow<'static, str>`. |
| YokeDerive.StaticFieldTypes | utils/yoke/derive/src/lib.rs:88-100 | Keeps the variants and the field count of each. |
| YokeDerive.FieldTypesAreStatic | utils/yoke/derive/src/lib.rs:88-100 | The field types named by the per-field impls carry only `'static`, as many times as the field had lifetimes. |
| YokeDerive.YokeableDerive | utils/yoke/derive/src/lib.rs:34-168 | Type parameters give an error. No lifetime gives the `Output = Self` impl, and more than one gives an error. One lifetime gives the per-field `transform_owned` impl exactly when an attribute's argument is `prove_covariance_manually`, and the plain covariant impl otherwise. |
| YokeDerive.ZeroCopyFromDerive | utils/yoke/derive/src/lib.rs:184-256 | Type parameters give an error. No lifetime gives the owned impl, cloning exactly when `cloning_zcf` is present. More than one lifetime gives an error. One lifetime gives the clone impl exactly with `cloning_zcf`, and the per-field impl otherwise. |
| YokeDerive.TypeParamsRejectedFirst | utils/yoke/derive/src/lib.rs:35-42 | With type parameters, both derives fail whatever the lifetimes and attributes are. |
| YokeDerive.AttributePathIgnored | utils/yoke/derive/src/lib.rs:77-84 | Only an attribute's single-identifier argument is looked at, not its path. |
| YokeDerive.DocumentedSpellingGivesPlainImpl | utils/yoke/derive/src/lib.rs:21-24 | `#[yoke(manually_prove_covariance)]` as documented does not select manual covariance; the plain impl is emitted. |

## Left out

- Pointer casts, alignment, `'static` bounds and the soundness of `unsafe` blocks, in the ULE traits and in the code the derives emit. A slice view is a sequence of byte chunks, not memory.
- Zero-width ULE types: a fixed-width wire type has width at least 1.
- The ULE implementations for `char`, plain integers, `str` and `Vec`. `u32` over a four-byte wire type that accepts every pattern is the one illustrative instance.
- `Pattern::from_bytes`, `Pattern::from_bytes_combination`, `components::Bag::to_vec_fields` and `skeleton::create_best_pattern_for_fields`. They are function parameters that may fail; their parsing and matching is not modelled.
- Display names (`Cow<str>`) are strings. `IsoWeekday` and `IsoHour` are natural numbers, and the 0-23 hour range is not enforced.
- `DateTimeSymbols.GetSymbolForWeekday`: the `Local` weekday is a precondition, because the source leaves it `unimplemented!()`.
- `DateTimeSymbols.GetSymbolForMonth`: `num < 12` is a precondition, because the source debug-asserts it and indexes a twelve-element array with it.
- `DateTimePatterns.GetPatternForDateLength` and `DateTimePatterns.GetPatternForDatetimeLength` carry no contract of their own; `DateLengthsSelectSameNamedPatterns` states what they select.
- `postcard` serialization of payloads and of the blob. It is a function parameter that may fail.
- `BlobExport.BlobExporter.Close`: the sink is a function of the buffer it is given, so a sink whose behaviour depends on earlier writes is not modelled.
- `BlobExport.BlobExporter.WriteAll`: the retry on `Interrupted` is not modelled; every error ends the write.
- `log` calls, and `path_util::resource_path_to_string`: the path is a parameter.
- `LiteMap` capacity and its binary search. Only the behaviour of `insert`, `try_append`, `is_empty` and `clear` on a sorted sequence is modelled.
- Proc-macro mechanics: `syn` parsing, spans, `compile_error!`, `quote!` and `synstructure` bindings. An emitted impl is described by its shape and the field types it names.
- The `qself` part of a path type (`<X<'a> as Trait>::Y`): `Type.Path` holds only the segments, so qualified paths cannot be written. The source walks only `path.path.segments` (utils/yoke/derive/src/lib.rs:286-299) and leaves `qself` as it is, so lifetimes inside it are never rewritten.
- Type kinds other than groups, arrays, parentheses, references and paths. They are opaque tokens that `replace_lifetime` returns unchanged, as the source does; lifetimes inside slices or tuples are therefore never rewritten.
- Data loading for plural rules (`components/plurals/src/provider/resolver.rs`) is not part of this model. Concurrency is also out of scope.

## Findings

| source | as written | input that shows it | evidently intended | confidence | as-written member | corrected member |
|---|---|---|---|---|---|---|
| provider/blob/src/export/blob_exporter.rs:74-76 | `close` gives the blob to the sink with a single `write` call and discards the returned byte count. It then clears the table and returns `Ok`. | A sink whose `write` accepts 0 bytes, or fewer than the blob's length, after one `put_payload`. | Deliver the whole blob (`write_all`), or report an error and keep the payloads. | not executed; high | BlobExport.BlobExporter.Close, BlobExport.ShortWriteLosesData | BlobExport.BlobExporter.CloseWritingAll, BlobExport.ShortWriteReportedWhenWritingAll |
