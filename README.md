# Segment destination for Altis Analytics, in Dafny

This project models the core of the Altis Analytics destination for Segment. It covers:
- the generic mapping interpreter, `Transformer` (`fetch` and `transform`);
- the two Segment transformers that build Segment `identify`, `group`, `page` and `track`
  calls from an Altis Analytics event. One is the current export transformer. The other is the
  legacy one, which uses `format_date` and `endpoint.RequestId`;
- the `format` and `prepare` steps of the export pipeline;
- how delivery results are logged;
- the two helpers that register extra group maps.

## How the model is organised

- `php.dfy` (module `Php`): the slice of PHP the code relies on.
  - Values are `Null | Bool | Int | Str | Arr`. An array is an ordered list of `(Key, Value)`
    entries, and a key is an integer or a string.
  - Fatal errors (`TypeError`, calling an undefined function) are an `Outcome`, not a
    precondition.
  - It also holds `array_merge`, `empty()`, `is_numeric` (a small scanner), integer-like
    string keys, `explode`/`implode` and integer-to-string conversion. Each comes with its own
    lemmas.
- `calendar.dfy` (module `Calendar`): `date('c', $t)` in UTC. Days-to-civil-date arithmetic is
  proved against an independent days-from-civil count.
- `callbacks.dfy` (module `Callbacks`): the callbacks a mapping path can name:
  - `ucfirst`;
  - `milliseconds_to_iso8601` and `hash_event` of the export transformer;
  - `format_date` of the legacy transformer.
  
  It also models how PHP coerces a value passed to a `string` or `int` parameter.
- `transformer.dfy` (module `Mapping`): `class Transformer`.
  - A mapping tree is a list of `key => branch` entries. A branch is empty (`Omit`), a path
    string (`Path`) or a nested tree (`Nested`).
  - `Fetch` and `Transform` are loops proved against the functions `FetchSpec` and
    `TransformSpec`, and the lemmas state what those functions mean.
  - `transformer_examples.dfy` (module `MappingExamples`) replays the repository's transformer
    test cases.
- `segment_maps.dfy` (module `SegmentMaps`): the shared `context` tree and general lemmas
  about trees whose keys are plain words, about splicing arrays under numeric keys, and about
  the call trees' leaves.
- `segment_export.dfy` (module `SegmentExport`) and `segment_legacy.dfy` (module
  `SegmentLegacy`): the call-type trees of each transformer. Each file states every entry of
  the tree and what each field of a transformed call is.
- `segment_calls.dfy` (module `SegmentCalls`): `class SegmentTransformer`.
  - Its `maps` field holds the prebuilt trees and the registered group maps. `maps` is a
    `var`, because the repository's own test replaces `maps['groups']`.
  - It covers how `identify`, the `group` calls and the main call are assembled, in that order.
- `pipeline.dfy` (module `Pipeline`):
  - `format`: drop falsy lines, transform each event;
  - `prepare`: pack the encoded calls into batches of at most 500 KB, unless a batch holds a
    single oversized chunk, as a method with two loops proved against the functional reducer;
  - the warnings `log` raises;
  - the two group-registration helpers.

The model keeps one consequence of the code. In the export transformer, `messageId` is
the path `|…::hash_event`. `fetch` looks that up as the key `""` of the event, so an event
without such a key gets no `messageId` at all (`SegmentExport.MessageIdOmitted`).

## Model

| member | source | states |
|---|---|---|
| Mapping.Transformer.constructor | inc/export/class-transformer.php:27-29 | the transformer keeps the mapping tree it is given |
| Mapping.Transformer.Fetch | inc/export/class-transformer.php:85-111 | the loop over path segments returns exactly `FetchSpec`: static literal, walk of `.`-separated segments that stops with null at the first missing one, then the callback |
| Mapping.Transformer.Transform | inc/export/class-transformer.php:39-73 | the loop over tree entries returns exactly `TransformSpec` of the given tree, or of the transformer's own when none is given; a fatal error in any entry aborts the whole transform |
| Mapping.Transformer.TransformEntry | inc/export/class-transformer.php:45-70 | one entry: an empty branch is skipped; a numeric key fetches and `array_merge`s the value (empty skipped, non-array fatal); a nested branch recurses; a path fetches; the value is stored unless null or an empty array |
| Mapping.Walk | inc/export/class-transformer.php:97-104 | a walk that succeeds past its first segment found that segment in the value |
| Mapping.FetchSpec | inc/export/class-transformer.php:85-111 | `fetch` without a callback never fails; with one, it yields null or a string |
| Mapping.FetchedField | inc/export/class-transformer.php:62-69 | a fetched value that is kept becomes the field of that path branch |
| Mapping.Step | inc/export/class-transformer.php:45-70 | one entry applied to an output with distinct keys keeps the keys distinct |
| Mapping.TransformPrefix | inc/export/class-transformer.php:45-72 | the output after any number of entries has distinct keys |
| Mapping.TransformSpec | inc/export/class-transformer.php:39-73 | a transformed tree never holds the same key twice |
| Mapping.PrefixNext | inc/export/class-transformer.php:45-70 | the output after i+1 entries is the output after i entries with entry i applied |
| Mapping.FatalPersists | inc/export/class-transformer.php:45-73 | once an entry fails, the transform as a whole fails with that same error |
| Mapping.Index | inc/export/class-transformer.php:100-103 | `isset($value[$segment])` never finds a null value |
| Mapping.WalkFindsNonNull | inc/export/class-transformer.php:99-104 | a walk that succeeds never ends on null |
| Mapping.StaticLiteral | inc/export/class-transformer.php:88-95 | `X\|static` returns the literal X whatever the object |
| Mapping.PlainPath | inc/export/class-transformer.php:97-104 | a path without `\|` returns the value reached along its `.`-segments, or null when a segment is missing |
| Mapping.PathWithCallback | inc/export/class-transformer.php:88-108 | `path\|cb` applies the callback to the value found, and returns null without calling it when the path is missing |
| Mapping.StepStoresField | inc/export/class-transformer.php:59-69 | a non-splicing entry sets its key to the branch's field value, or leaves the output unchanged when that field is absent |
| Mapping.StepField | inc/export/class-transformer.php:59-69 | the same for an entry with a word key whose branch evaluates without error |
| Mapping.NestedField | inc/export/class-transformer.php:59-60 | a nested branch yields its sub-transform, and nothing when that is empty |
| Mapping.TransformFieldAt | inc/export/class-transformer.php:45-72 | after n entries of a tree with distinct keys and no splices, each key holds the field its entry defines |
| Mapping.TransformKeys | inc/export/class-transformer.php:45-72 | after n entries, the output keys are exactly the keys whose field is present, in tree order |
| Mapping.TransformKeepsFields | inc/export/class-transformer.php:39-73 | the whole output has those keys, each holding its branch's value, and none holds null or an empty array: a fetched value is kept (`Kept`) exactly when it is neither missing, null nor an empty array |
| Mapping.WordKeyedFields | inc/export/class-transformer.php:39-73 | for a tree keyed by words (never numeric), every key of the output holds its entry's field |
| Mapping.PathField | inc/export/class-transformer.php:62-69 | a plain path branch stores the walked value when `Kept` keeps it: neither missing, null nor an empty array |
| Mapping.StepSplices | inc/export/class-transformer.php:50-57 | a numeric key with a path to an array merges that array into the output, and skips it when empty |
| Mapping.SpliceLists | inc/export/class-transformer.php:50-57 | two numeric entries that fetch lists give one list: the two lists' values in order, renumbered from 0 |
| Mapping.OneEntry | inc/export/class-transformer.php:62-69 | a one-entry tree yields the entry's value, or nothing when it is not stored |
| Mapping.TwoEntries | inc/export/class-transformer.php:45-72 | a two-entry tree with both values stored yields both, in tree order |
| MappingExamples.EmptyBranchSkipsKey | tests/TransformerTest.php:48-56 | `'age' => ''` produces an empty output |
| MappingExamples.NumericIndexMergesArray | tests/TransformerTest.php:57-71 | two numeric entries over `favorites.sports` and `favorites.books` give the list `['Table tennis', 'Time machine']` |
| MappingExamples.MergedLists | tests/TransformerTest.php:57-71 | the inner tree of that case merges the two lists with keys 0 and 1 |
| MappingExamples.NestedBranchTraversed | tests/TransformerTest.php:72-81 | `address.city` and `favorites.books.0` give `fortyseven` and `Time machine` |
| MappingExamples.BasicStringBranch | tests/TransformerTest.php:82-90 | `firstName => first_name` gives `shady` |
| MappingExamples.NotFoundReference | tests/TransformerTest.php:91-99 | a missing path fetches null and leaves no key |
| MappingExamples.EmptyNestedBranch | tests/TransformerTest.php:100-108 | `favorite.tracks` (missing first segment) leaves no key |
| MappingExamples.FirstNamePath | tests/TransformerTest.php:130-134 | fetching `first_name` gives `shady` |
| MappingExamples.CallbackExample | tests/TransformerTest.php:135-139 | `first_name\|ucfirst` gives `Shady` |
| MappingExamples.StaticExample | tests/TransformerTest.php:150-154 | `Something something\|static` gives the literal |
| MappingExamples.TracksPath | tests/TransformerTest.php:145-149 | a missing reference fetches null |
| Php.IndexOf | inc/export/class-transformer.php:100-103 | the position of a key in a PHP array is its first occurrence, or -1 when absent |
| Php.Set | inc/export/class-transformer.php:68 | `$a[$k] = $v` makes `k` hold `v`, leaves every other key alone, appends a new key at the end and keeps an existing key's position |
| Php.NormalizeKey | inc/export/class-transformer.php:68 | a string key becomes an integer key only when it is the canonical decimal text of an integer in the 64-bit range; otherwise it stays the same string |
| Php.NormalizeKeyRoundTrip | inc/export/class-transformer.php:68 | the decimal text of any 64-bit integer is stored as that integer key |
| Php.IsNumericString | inc/export/class-transformer.php:50 | every canonical integer text is numeric |
| Php.FalsyValues | inc/export/class-transformer.php:47-52 | `empty()` holds exactly for null, false, 0, `""`, `"0"` and the empty array |
| Php.GetIffKey | inc/export/class-transformer.php:100 | a lookup succeeds exactly for the keys the array has |
| Php.ArrayMergeWellFormed | inc/export/class-transformer.php:56 | `array_merge` yields distinct keys, with integer keys numbered 0, 1, … |
| Php.ArrayMergeCount | inc/export/class-transformer.php:56 | `array_merge` keeps every integer-keyed entry of both arrays and never yields more entries than both together |
| Php.ArrayMergeGetString | inc/export/class-segment-transformer.php:121-149 | in `array_merge($a, $b)`, a string key holds b's value when b has it, else a's |
| Php.MergeIntoKeepsKeys | inc/export/class-transformer.php:56 | merging keeps the destination's keys, in their order, as a prefix |
| Php.MergeIntoList | inc/export/class-transformer.php:56 | merging a list appends its values, renumbered after the destination's integer keys |
| Php.ArrayMergeLists | inc/export/class-transformer.php:56 | merging two lists gives their concatenation, renumbered from 0 |
| Php.ArrayMergeWordKeyed | inc/export/class-segment-transformer.php:121-149 | merging two trees keyed by words gives a tree keyed by words |
| Php.ArrayMergeNonEmpty | inc/export/class-transformer.php:56 | merging a non-empty array never gives an empty one |
| Php.WordKey | inc/export/class-transformer.php:50 | a word key (a letter or `_` first) is never numeric and stays a string key |
| Php.DecimalRoundTrip | inc/export/namespace.php:184 | the decimal text of a number reads back as that number, with no leading zero |
| Php.DecimalLength | inc/class-segment-transformer.php:266 | a number has at most k digits exactly when it is below 10^k |
| Php.Explode | inc/export/class-transformer.php:97 | `explode` gives at least one part, and two or more exactly when the delimiter occurs |
| Php.ExplodeJoin | inc/export/class-transformer.php:97 | `implode(d, explode(d, s)) == s`, and no part contains the delimiter |
| Php.ExplodeNoDelimiter | inc/export/class-transformer.php:97 | a string without the delimiter explodes to itself |
| Php.ExplodeAtFirst | inc/export/class-transformer.php:89 | exploding splits at the first delimiter and continues on the rest |
| Calendar.YearLength | inc/export/class-segment-transformer.php:275 | a Gregorian year has 366 days exactly when it is a leap year, else 365 |
| Calendar.DaysFromCivilCounts | inc/export/class-segment-transformer.php:275 | day numbers start at 0 on 1970-01-01 and the next valid date is one day later |
| Calendar.LeapPeriodic | inc/export/class-segment-transformer.php:275 | the leap-year rule repeats every 400 years |
| Calendar.MonthOfYear | inc/export/class-segment-transformer.php:275 | the month and day picked for a day of a March-based year are valid and number that day |
| Calendar.CivilFromDaysRoundTrip | inc/export/class-segment-transformer.php:275 | the date computed for day z is valid and counts back to z |
| Calendar.SecondsOfDay | inc/export/class-segment-transformer.php:275 | a second of the day splits into hours, minutes and seconds in range that add back up |
| Calendar.UnixTimeRoundTrip | inc/export/class-segment-transformer.php:275 | the UTC date and time of a Unix timestamp is valid and converts back to that timestamp |
| Calendar.FormatCReadBack | inc/export/class-segment-transformer.php:275 | the text `date('c')` writes is the year followed by a tail that reads back as the month, day, hour, minute and second |
| Calendar.DateC | inc/export/class-segment-transformer.php:275 | `date('c', $t)` is the text of a valid date-time whose Unix time is t |
| Callbacks.StringArgument | inc/export/class-transformer.php:107 | a value passed to a `string` parameter: strings pass unchanged; only arrays are refused |
| Callbacks.IntArgument | inc/export/class-segment-transformer.php:271 | a value passed to an `int` parameter: integers pass unchanged; null and arrays are refused |
| Callbacks.MillisToSeconds | inc/export/class-segment-transformer.php:273 | `$ms / 1000` passed on as an int is the quotient truncated toward zero |
| Callbacks.Ucfirst | inc/export/class-transformer.php:107 | `ucfirst` changes only the first character, and only when it is a lower-case letter |
| Callbacks.UcfirstIdempotent | inc/export/class-transformer.php:107 | applying `ucfirst` twice is applying it once |
| Callbacks.Apply | inc/export/class-transformer.php:106-108 | a callback returns a string; only the four callables the repository's trees use are modelled, and any other name is outside the model (it yields an undefined-function error) |
| Callbacks.MillisecondsToIso8601Instant | inc/export/class-segment-transformer.php:271-276 | `milliseconds_to_iso8601` prints the valid UTC date whose Unix time is the truncated seconds |
| Callbacks.MillisecondsToIso8601 | inc/export/class-segment-transformer.php:271-276 | the text is `date('c')` of a valid date-time whose Unix time is the truncated seconds |
| Callbacks.FormatDate | inc/class-segment-transformer.php:264-271 | `format_date` reads its argument either as seconds or as milliseconds |
| Callbacks.FormatDateDigits | inc/class-segment-transformer.php:266 | `strlen($timestamp) > 10` holds exactly for t ≥ 10^10 or t ≤ −10^9 |
| Callbacks.FormatDateUnits | inc/class-segment-transformer.php:264-271 | `format_date` reads a timestamp in [0, 10^10) as seconds and a larger one as milliseconds |
| Callbacks.HashEventApplied | inc/export/class-segment-transformer.php:285-287 | `hash_event` returns the hash of the value it is given |
| Callbacks.MillisecondsApplied | inc/export/class-segment-transformer.php:271-276 | the callable name applied to an integer gives its ISO 8601 text |
| Callbacks.FormatDateApplied | inc/class-segment-transformer.php:264-271 | the callable name applied to an integer gives `format_date` of it |
| Callbacks.UcfirstExample | tests/TransformerTest.php:135-139 | `ucfirst('shady') == 'Shady'` |
| Callbacks.DateExample2 | tests/TransformerTest.php:140-144 | 1646014407 is 2022-02-28 02:13:27 UTC |
| Callbacks.FormatExample2 | tests/TransformerTest.php:140-144 | that date prints as `2022-02-28T02:13:27+00:00` |
| Callbacks.MillisecondsExample | tests/Segment_TransformerTest.php:42 | the event timestamp 1643673911400 prints as `2022-02-01T00:05:11+00:00` |
| Callbacks.FormatDateSecondsExample | inc/class-segment-transformer.php:264-271 | `format_date(1646014407)` reads seconds: `2022-02-28T02:13:27+00:00` |
| Callbacks.FormatDateMillisecondsExample | inc/class-segment-transformer.php:264-271 | `format_date(1643673911400)` reads milliseconds: `2022-02-01T00:05:11+00:00` |
| SegmentMaps.ContextShape | inc/export/class-segment-transformer.php:50-116 | the `context` tree has distinct word keys, so no entry of it splices |
| SegmentMaps.ContextKeys | inc/export/class-segment-transformer.php:50-116 | the `context` tree has the keys active, app, campaign, device, …, userAgent in that order |
| SegmentMaps.AppField | inc/export/class-segment-transformer.php:52-56 | `context.app` is `{version}` when the version path holds a kept value, and absent otherwise (name and build are empty branches) |
| SegmentMaps.ContextAppOf | inc/export/class-segment-transformer.php:50-56 | in a transformed `context`, `app` is that value |
| SegmentMaps.BaseEntry | inc/export/class-segment-transformer.php:121-149 | a base-tree entry that the call type does not override survives the merge |
| SegmentMaps.OverrideEntry | inc/export/class-segment-transformer.php:121-149 | an overriding entry replaces the base entry under that key |
| SegmentMaps.CallEntry | inc/export/class-transformer.php:39-73 | in a transformed call, each key holds the field of its entry in the call tree |
| SegmentMaps.SplicedPairFields | inc/export/class-segment-transformer.php:137-140 | splicing `attributes` then `metrics`: a string key holds the metric when present, else the attribute |
| SegmentMaps.TwoSplices | inc/export/class-segment-transformer.php:137-140 | a tree of two numeric path entries yields the two arrays spliced in order |
| SegmentMaps.OneSplice | inc/class-segment-transformer.php:134-136 | one numeric path entry to a string-keyed array copies the array as it is |
| SegmentMaps.StringSplice | inc/class-segment-transformer.php:111-116 | splicing a string-keyed array into a string-keyed output keeps the output's keys first, in order |
| SegmentMaps.KeptPairPrefix | inc/class-segment-transformer.php:111-113 | the first two word entries of a tree yield their kept fields, in order |
| SegmentMaps.EventTypeField | inc/export/class-segment-transformer.php:136 | `event_type` stores the event's type when kept |
| SegmentMaps.TitleField | inc/export/class-segment-transformer.php:93 | `attributes.title` stores the event's title when kept |
| SegmentMaps.TypeField | inc/export/class-segment-transformer.php:43 | `type\|static` stores the call type itself |
| SegmentExport.CallTypeMap | inc/export/class-segment-transformer.php:41-161 | a tree exists exactly for identify, page, track and group |
| SegmentExport.BaseMap | inc/export/class-segment-transformer.php:42-117 | the shared tree has the keys type, anonymousId, timestamp, receivedAt, userId, messageId and context, in that order |
| SegmentExport.Overrides | inc/export/class-segment-transformer.php:119-150 | an override exists exactly for the four call types, and each has two entries |
| SegmentExport.CallOf | inc/export/class-segment-transformer.php:41-161 | a call built from a call type's tree never holds the same key twice |
| SegmentExport.CallTypeMapShape | inc/export/class-segment-transformer.php:41-161 | every call tree has distinct word keys and no splicing entry |
| SegmentExport.OverridesShape | inc/export/class-segment-transformer.php:119-150 | each call type overrides only traits, context, name, properties, event, and messageId for group |
| SegmentExport.TypeEntry | inc/export/class-segment-transformer.php:43 | every tree maps `type` to `<type>\|static` |
| SegmentExport.TimestampEntry | inc/export/class-segment-transformer.php:45 | `timestamp` is `event_timestamp\|…::milliseconds_to_iso8601` |
| SegmentExport.ReceivedAtEntry | inc/export/class-segment-transformer.php:46 | `receivedAt` is `arrival_timestamp\|…::milliseconds_to_iso8601` |
| SegmentExport.MessageIdEntry | inc/export/class-segment-transformer.php:42-149 | `messageId` is `\|…::hash_event`, emptied for group |
| SegmentExport.ContextEntry | inc/export/class-segment-transformer.php:119-149 | identify and group empty out `context` |
| SegmentExport.ContextKept | inc/export/class-segment-transformer.php:50-142 | page and track keep the full `context` tree, app version read from `endpoint.Demographic.AppVersion` |
| SegmentExport.GroupIdEntry | inc/export/class-segment-transformer.php:109 | no call tree has a top-level `groupId` |
| SegmentExport.TraitsEntry | inc/export/class-segment-transformer.php:120-124 | identify moves the context traits to the top level |
| SegmentExport.NameEntry | inc/export/class-segment-transformer.php:127-131 | page names the call by `attributes.title` |
| SegmentExport.EventEntry | inc/export/class-segment-transformer.php:134-136 | track names the event by `event_type` |
| SegmentExport.PropertiesEntry | inc/export/class-segment-transformer.php:134-141 | track properties splice `attributes` and `metrics` |
| SegmentExport.HashedField | inc/export/class-segment-transformer.php:285-287 | the messageId path hashes the event's `""` entry, and yields nothing without one |
| SegmentExport.EventTimestampField | inc/export/class-segment-transformer.php:271-276 | an integer `event_timestamp` gives its ISO 8601 text; a missing one gives no field |
| SegmentExport.ArrivalTimestampField | inc/export/class-segment-transformer.php:271-276 | the same for `arrival_timestamp` |
| SegmentExport.TrackPropertiesField | inc/export/class-segment-transformer.php:137-140 | track properties are the attributes with the metrics merged over them, absent when both are empty |
| SegmentExport.TraitsValue | inc/export/class-segment-transformer.php:110-114 | traits are endpoint attributes, then user attributes merged over them, then endpoint metrics |
| SegmentExport.TraitsFields | inc/export/class-segment-transformer.php:110-114 | a trait is the metric when present, else the user attribute, else the endpoint attribute |
| SegmentExport.CallField | inc/export/class-segment-transformer.php:41-161 | each field of a call is the field of its entry in the call's tree |
| SegmentExport.CallType | inc/export/class-segment-transformer.php:43 | every call carries its own type |
| SegmentExport.NoContext | inc/export/class-segment-transformer.php:119-149 | identify and group calls carry no `context` |
| SegmentExport.MessageId | inc/export/class-segment-transformer.php:42-149 | `messageId` is the hash of the event's `""` entry for non-group calls, and absent for group |
| SegmentExport.MessageIdOmitted | inc/export/class-segment-transformer.php:48 | an event without a `""` key gets no `messageId` |
| SegmentExport.Timestamp | inc/export/class-segment-transformer.php:45 | a call's `timestamp` is the ISO 8601 text of `event_timestamp`, absent when that is missing |
| SegmentExport.ReceivedAt | inc/export/class-segment-transformer.php:46 | a call's `receivedAt` is the ISO 8601 text of `arrival_timestamp`, absent when that is missing |
| SegmentExport.TrackEvent | inc/export/class-segment-transformer.php:136 | a track call's `event` is the event type |
| SegmentExport.TrackPropertiesMerged | inc/export/class-segment-transformer.php:137-140 | a track call's `properties` are the spliced attributes and metrics |
| SegmentExport.PageName | inc/export/class-segment-transformer.php:129 | a page call's `name` is the page title |
| SegmentExport.ContextAppVersion | inc/export/class-segment-transformer.php:55 | a page or track call's `context.app` reads `endpoint.Demographic.AppVersion` |
| SegmentExport.IdentifyTraits | inc/export/class-segment-transformer.php:110-124 | an identify call's `traits` are the merged traits, absent when empty |
| SegmentLegacy.CallTypeMap | inc/class-segment-transformer.php:43-154 | a tree exists exactly for identify, page, track and group |
| SegmentLegacy.BaseMap | inc/class-segment-transformer.php:44-119 | the shared tree has the keys type, anonymousId, messageId, timestamp, userId and context, in that order |
| SegmentLegacy.Overrides | inc/class-segment-transformer.php:121-143 | an override exists exactly for the four call types, and each has two entries |
| SegmentLegacy.CallOf | inc/class-segment-transformer.php:43-154 | a call built from a call type's tree never holds the same key twice |
| SegmentLegacy.CallTypeMapShape | inc/class-segment-transformer.php:43-154 | every call tree has distinct word keys and no splicing entry |
| SegmentLegacy.OverridesShape | inc/class-segment-transformer.php:121-143 | each call type overrides only traits, context, name, properties, event, and messageId for group |
| SegmentLegacy.TypeEntry | inc/class-segment-transformer.php:45 | every tree maps `type` to `<type>\|static` |
| SegmentLegacy.MessageIdEntry | inc/class-segment-transformer.php:44-142 | `messageId` is `endpoint.RequestId`, emptied for group |
| SegmentLegacy.TimestampEntry | inc/class-segment-transformer.php:48 | `timestamp` is `event_timestamp\|…::format_date` |
| SegmentLegacy.ContextEntry | inc/class-segment-transformer.php:121-142 | identify and group empty out `context` |
| SegmentLegacy.ContextKept | inc/class-segment-transformer.php:51-137 | page and track keep the full `context` tree, app version read from `endpoint.Demographics.AppVersion` |
| SegmentLegacy.GroupIdEntry | inc/class-segment-transformer.php:110 | no call tree has a top-level `groupId` |
| SegmentLegacy.TraitsEntry | inc/class-segment-transformer.php:121-125 | identify moves the context traits to the top level |
| SegmentLegacy.NameEntry | inc/class-segment-transformer.php:126-129 | page names the call by `attributes.title` |
| SegmentLegacy.EventEntry | inc/class-segment-transformer.php:131-133 | track names the event by `event_type` |
| SegmentLegacy.PropertiesEntry | inc/class-segment-transformer.php:131-136 | track properties splice `endpoint.Attributes` |
| SegmentLegacy.RequestIdField | inc/class-segment-transformer.php:47 | `endpoint.RequestId` stores the request id when kept |
| SegmentLegacy.EventTimestampField | inc/class-segment-transformer.php:264-271 | an integer `event_timestamp` gives `format_date` of it; a missing one gives no field |
| SegmentLegacy.TrackPropertiesField | inc/class-segment-transformer.php:134-136 | track properties are the endpoint attributes, absent when empty |
| SegmentLegacy.SessionsField | inc/class-segment-transformer.php:112 | the `sessions` trait is `endpoint.Metrics.sessions` when kept |
| SegmentLegacy.PageViewsField | inc/class-segment-transformer.php:113 | the `pageViews` trait is `endpoint.Metrics.pageViews` when kept |
| SegmentLegacy.CountersPrefix | inc/class-segment-transformer.php:111-113 | the first two trait entries yield the kept counters |
| SegmentLegacy.TraitsValue | inc/class-segment-transformer.php:111-116 | traits are the counters, then endpoint attributes merged over them, then user attributes |
| SegmentLegacy.TraitsOrder | inc/class-segment-transformer.php:111-116 | the counters keep their places at the front of the traits |
| SegmentLegacy.TraitsFields | inc/class-segment-transformer.php:111-116 | a trait is the user attribute when present, else the endpoint attribute, else the counter |
| SegmentLegacy.CallField | inc/class-segment-transformer.php:43-154 | each field of a call is the field of its entry in the call's tree |
| SegmentLegacy.CallType | inc/class-segment-transformer.php:45 | every call carries its own type |
| SegmentLegacy.NoContext | inc/class-segment-transformer.php:121-142 | identify and group calls carry no `context` |
| SegmentLegacy.MessageId | inc/class-segment-transformer.php:44-142 | `messageId` is the request id for non-group calls, absent for group |
| SegmentLegacy.Timestamp | inc/class-segment-transformer.php:48 | a call's `timestamp` is `format_date` of `event_timestamp`, absent when that is missing |
| SegmentLegacy.TrackEvent | inc/class-segment-transformer.php:133 | a track call's `event` is the event type |
| SegmentLegacy.TrackPropertiesAttributes | inc/class-segment-transformer.php:134-136 | a track call's `properties` are the endpoint attributes |
| SegmentLegacy.PageName | inc/class-segment-transformer.php:128 | a page call's `name` is the page title |
| SegmentLegacy.ContextAppVersion | inc/class-segment-transformer.php:56 | a page or track call's `context.app` reads `endpoint.Demographics.AppVersion` |
| SegmentLegacy.AppVersionMissed | inc/class-segment-transformer.php:56 | an event with an endpoint but no `Demographics` entry never gets `context.app` |
| SegmentLegacy.SingularDemographicHasVersion | tests/NamespaceTest.php:88 | an event shaped like the recorded ones, with `endpoint.Demographic.AppVersion`, has a version that the plural path misses |
| SegmentLegacy.IdentifyTraits | inc/class-segment-transformer.php:111-125 | an identify call's `traits` are the merged traits, absent when empty |
| SegmentCalls.CallTypeMap | inc/export/class-segment-transformer.php:41-161 | a tree exists exactly for the four call types, in either transformer |
| SegmentCalls.SegmentTransformer.MainEventMap | inc/export/class-segment-transformer.php:170-174 | the main map is the prebuilt tree of the main call type |
| SegmentCalls.SegmentTransformer.Identify | inc/export/class-segment-transformer.php:226-228 | `identify` transforms an array event with the identify tree, and a non-array is a type error |
| SegmentCalls.SegmentTransformer.Track | inc/export/class-segment-transformer.php:209-213 | `track` transforms an array event with the tree of its main call type, and a non-array is a type error |
| SegmentCalls.SegmentTransformer.Groups | inc/export/class-segment-transformer.php:243-262 | `groups` gives no more calls than registered maps, each with a non-empty `groupId`; a non-array is a type error |
| SegmentCalls.SegmentTransformer.constructor | inc/export/class-segment-transformer.php:24-32 | the identify, page and track trees are built once; groups are what the filter returned |
| SegmentCalls.SegmentTransformer.GroupCall | inc/export/class-segment-transformer.php:245-259 | a group call that is kept always has a non-empty `groupId` |
| SegmentCalls.SegmentTransformer.GroupsOf | inc/export/class-segment-transformer.php:243-262 | no more group calls than registered maps, each with a non-empty `groupId` |
| SegmentCalls.SegmentTransformer.Transform | inc/export/class-segment-transformer.php:186-194 | the calls exist exactly when the identify call, every group call and the main call transform without error |
| SegmentCalls.Collect | inc/export/class-segment-transformer.php:261 | `array_values(array_filter(...))` keeps only found calls, in order |
| SegmentCalls.CollectAppend | inc/export/class-segment-transformer.php:245-261 | collecting a concatenation collects each part and joins them |
| SegmentCalls.CollectFatal | inc/export/class-segment-transformer.php:245-261 | collecting fails exactly when some group fails, with the first failure's error |
| SegmentCalls.CollectAll | inc/export/class-segment-transformer.php:261 | when every result is a call, all are kept in order |
| SegmentCalls.TypeOf | inc/export/class-segment-transformer.php:43 | in either transformer a call's `type` is its call type |
| SegmentCalls.IdentifyNoContext | inc/export/class-segment-transformer.php:120-124 | identify calls carry no `context` in either transformer |
| SegmentCalls.GroupBase | inc/export/class-segment-transformer.php:144-149 | the default group tree drops `context` and `messageId` and has no `groupId` |
| SegmentCalls.GroupField | inc/export/class-segment-transformer.php:247-251 | in a group call, a key of the registered map holds that map's field; any other key holds the default tree's field |
| SegmentCalls.GroupCallFields | inc/export/class-segment-transformer.php:245-258 | a group call is kept exactly when the registered `groupId` field is non-empty, and then carries the registered fields and no `context` or `messageId` unless registered |
| SegmentCalls.GroupDropped | tests/Segment_TransformerTest.php:28-35 | a group whose `groupId` path is missing from the event (as `DeviceType.0` is in the second event) gives no call |
| SegmentCalls.GroupsAppend | inc/export/class-segment-transformer.php:245-261 | group calls of two lists of maps are those of each list, in order |
| SegmentCalls.GroupsFail | inc/export/class-segment-transformer.php:245-252 | the groups fail exactly when some group map fails; a registered map that is not an array always fails |
| SegmentCalls.MainCallType | inc/export/class-segment-transformer.php:170-213 | the main call's `type` is `page` for a `pageView` event and `track` otherwise, a missing `event_type` included (the kind `MainKind` picks) |
| SegmentCalls.CallOrder | inc/export/class-segment-transformer.php:186-194 | the calls are identify (without context), then the kept group calls, then the main call |
| Pipeline.Truthy | inc/export/namespace.php:78 | `array_values(array_filter(...))` keeps exactly the non-empty lines, in order |
| Pipeline.TruthyAppend | inc/export/namespace.php:78 | filtering distributes over concatenation |
| Pipeline.Sequence | inc/export/namespace.php:78 | mapping succeeds exactly when every event does, keeping the results in order |
| Pipeline.FormatCalls | inc/export/namespace.php:68-88 | the i-th formatted entry is the calls of the i-th non-empty event, made by the one preloaded transformer (`TransformAll`): identify first, the main call last |
| Pipeline.FormatRejectsScalar | inc/export/namespace.php:78 | a truthy line that does not decode to an array makes format fail |
| Pipeline.FormatSkipsFalsy | inc/export/namespace.php:78 | an empty line changes nothing |
| Pipeline.Format | inc/export/namespace.php:68-88 | format succeeds exactly when every truthy event transforms, and then gives one entry per truthy event |
| Pipeline.Wrap | inc/export/namespace.php:101-129 | wrapping a batch adds the template's 12 bytes around it |
| Pipeline.Chunks | inc/export/namespace.php:112-115 | the non-empty chunks, at most one per event |
| Pipeline.AddChunk | inc/export/namespace.php:107-125 | the reducer skips an empty chunk; otherwise it either appends exactly one batch holding the chunk, or keeps the number of batches with the last one within the limit |
| Pipeline.Pack | inc/export/namespace.php:107-125 | the reduction gives no more batches than events |
| Pipeline.PackNonEmpty | inc/export/namespace.php:107-125 | no batch is empty, and there is a batch exactly when some chunk is non-empty |
| Pipeline.PackGroups | inc/export/namespace.php:107-125 | each batch is its group of chunks glued with commas |
| Pipeline.GroupsShape | inc/export/namespace.php:113-122 | every group is non-empty and holds only non-empty chunks |
| Pipeline.GroupsBound | inc/export/namespace.php:118-122 | a batch holding two or more chunks never exceeds the limit |
| Pipeline.GroupsFlatten | inc/export/namespace.php:107-125 | the groups, one after the other, are exactly the non-empty chunks in order |
| Pipeline.PackJoin | inc/export/namespace.php:107-125 | the batches joined with commas are the chunks joined with commas: nothing is lost, reordered or duplicated |
| Pipeline.PackCount | inc/export/namespace.php:107-125 | no more batches than chunks, no more chunks than events |
| Pipeline.Prepare | inc/export/namespace.php:99-132 | the two loops return, for each batch of the reducer, that batch wrapped in the template |
| Pipeline.WrappedSize | inc/export/namespace.php:91-104 | a wrapped batch of two or more chunks is at most 500 KB: its content stays within the limit of 500 × 1024 minus the template's 14 bytes, 511986 |
| Pipeline.ReportOf | inc/export/namespace.php:170-188 | delivered exactly for status 200; the exception, 400 and other-status warnings with their texts |
| Pipeline.ExceptionMessageLost | inc/export/namespace.php:173 | as written (`ReportAsWritten`), the exception warning carries the literal text `()`, so it is the same for every message and differs from the intended one |
| Pipeline.Log | inc/export/namespace.php:170-188 | one entry per response, each with the batch at the same index and the report of the corrected classifier `ReportOf`; the exception text as written is `ReportAsWritten` (see Findings) |
| Pipeline.GroupFieldShape | inc/export/namespace.php:226-231 | the field map is `{groupId: field, traits: traits}`, without context or messageId |
| Pipeline.GroupFieldMap | inc/export/namespace.php:226-231 | the field map has the keys groupId and traits, in that order |
| Pipeline.GroupFieldCall | inc/export/namespace.php:226-232 | a group registered by field is kept exactly when the field's value is non-empty, and carries it as `groupId` and the traits tree as `traits` |
| Pipeline.NextIndex | inc/export/namespace.php:207 | `$groups[] =` uses an index past every integer key |
| Pipeline.Register | inc/export/namespace.php:205-209 | registering appends the map to the registered maps and keeps the rest |
| Pipeline.RegisteredFieldBreaks | inc/export/namespace.php:205-209 | with the filter as written (`RegisterAsWritten`, which returns the registered map itself in place of the list), registering a group by field makes the groups, and so every event, fail |
| Pipeline.RegisteredFieldCall | inc/export/namespace.php:205-232 | with the intended filter, the earlier groups are kept and one more call appears exactly when the field's value is non-empty |

## Left out

- `send` (inc/export/namespace.php:141-160) makes HTTP requests. `log` takes its responses as an
  input list, each either an exception message or a status and a body.
- The setup, hooks and bootstrap code (`setup`, `process`, `plugin.php`) is not part of
  this model. `apply_filters` is the identity. `do_action` and `trigger_error` are modelled
  only as the warning text they would raise.
- `json_decode` and `json_encode`: format takes the decoded lines, and prepare takes each call
  already encoded as a string. Lengths count characters as bytes, as `strlen` does.
- `hash_event`'s `md5(json_encode(...))` is the parameter `hash`, which is not computed.
- Floats are not modelled. `$t / 1000` passed to `date` is truncated toward zero, which is
  exact for any realistic timestamp. `date('c')` is computed in UTC only.
- A mapping branch that is neither a string nor an array (an integer or `true`, say) cannot
  be written in the `Branch` datatype. The repository's trees never contain one.
- Callbacks.IntArgument: numeric strings with a fraction or exponent, which PHP's weak mode
  also accepts for an `int` parameter, are refused in the model. So are leading-numeric strings
  such as `"12abc"`, which PHP 8's coercive mode accepts with a warning.
- Callbacks.Apply: only the four callables the repository's trees use (`ucfirst`,
  `milliseconds_to_iso8601`, `hash_event`, `format_date`) are modelled. Any other callable, such
  as `TransformerTest::dateFromEpoch` (tests/TransformerTest.php:140-144) or `strtolower`, is
  outside the model, which reports it as an undefined function.
- Mapping.TransformKeepsFields: stated only for trees without splicing entries. Splicing
  entries are covered separately by Mapping.StepSplices and Mapping.SpliceLists.
- SegmentExport.TraitsValue: stated for events whose three trait arrays are absent or keyed by
  strings, as decoded JSON objects are. A list there is renumbered by `array_merge`, which
  Php.MergeIntoList covers on its own.
- SegmentLegacy.TraitsValue: the same restriction, for the legacy trait arrays.
- SegmentLegacy.TrackPropertiesAttributes: the same restriction, for `endpoint.Attributes`.
- PHP 8 semantics are assumed throughout. `array_merge` of a non-array is a `TypeError`
  (Mapping.Step, SegmentCalls.SegmentTransformer.GroupCall, and so Pipeline.RegisteredFieldBreaks),
  and `is_numeric` follows PHP 8 (Php.IsNumericString). Under PHP 7, `array_merge` warns and
  returns null; in `groups()` that null map would send `transform($source, null)` back into
  `groups()` (inc/export/class-segment-transformer.php:186-193) without end. That behaviour is not
  modelled.
- Pipeline.NextIndex: the index PHP picks for `$a[] =` is modelled. Its failure when the
  largest key is `PHP_INT_MAX` is not.
- The `altis.analytics.segment.mapping` and `.formatted_data` filters are the identity, so
  any custom mapping a site installs is not modelled.

## Findings

| source | as written | input that shows it | evidently intended | confidence | as-written member | corrected member |
|---|---|---|---|---|---|---|
| inc/class-segment-transformer.php:56 | the app version is read from `endpoint.Demographics.AppVersion` (plural) | an event with `endpoint.Demographic.AppVersion = "1.0"`, the shape every recorded event has, gets no `context.app` | read `endpoint.Demographic.AppVersion`, as every other Demographic path in the same tree does and as the export transformer does at inc/export/class-segment-transformer.php:55 | medium; not executed | SegmentLegacy.AppVersionMissed | SegmentExport.ContextAppVersion |
| inc/export/namespace.php:173 | `"...: $response->getMessage()"` interpolates the property `getMessage` followed by a literal `()` | any exception, whatever its message | interpolate the result of the method call `getMessage()` | high; not executed | Pipeline.ExceptionMessageLost | Pipeline.ReportOf |
| inc/export/namespace.php:205-209 | the filter returns `$groups[] = $map`, which is the map itself, not the list with the map appended | `register_segment_group_field('endpoint.Attributes.AudienceId')`, then any event | append the map and return the list | high; not executed | Pipeline.RegisteredFieldBreaks | Pipeline.RegisteredFieldCall |
