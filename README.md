# DataBuilder core, modelled in Dafny

DataBuilder generates synthetic records from an input text. The input is scanned in one of two ways:
a regular expression, where each match is one record, or `$[name]` tokens, which are replaced in place.
Each configured field is a *descriptor*: a named, stateful value generator. The records come out as
CSV, as a JSON array of objects, or as the input text with its tokens replaced. The model covers:

- **descriptors** (`Production`, `Descriptors`):
  - the kinds ID, boolean, integer, enumerated values, static value, file content, empty string and email;
  - what each one's `getNextValue` produces under either null policy (`AS_NULL`, `EMPTY`);
  - the state it keeps: an incrementing counter, and the current match and per-record seed;
  - how it draws its random numbers. Boolean, integer and enumerated values draw from their own
    private `Random`: the `nextInt` draws of `Entropy`. Email draws through the cohesion coordinator's
    shared seed. The base `getNextRandom` of `DataItemDescriptor` seeds a `Random` with the per-record
    seed plus the class name's hash code. `Descriptors.Descriptor.GetNextRandom` models every base's
    version, but only email calls it, on the cohesive base, so the per-record seed affects no modelled value;
  - each kind's `obtainConfiguration`, with the prompt answers as inputs.
- **one descriptor class**: the source's hierarchy is flattened into `Descriptors.Descriptor`.
  `SettingsConfig` declares its list as `AbstractEntityTypeDescriptor`s (`SettingsConfig.java` 13), while
  `promptSettingsConfig` and the serializers use `DataItemDescriptor`s (`DataBuilder.java` 200, 268, 301).
  Static, empty and email descriptors have only the one-argument `setIterationState(matcher)`
  (`AbstractEntityTypeDescriptor.java` 39-42). The model gives every kind the two-argument
  `SetIterationState`. None of those three kinds reads the stored seed, so this changes no produced value.
  The descriptor's immutable `name` field stands for `getName()`, and callers read it directly.
- **the cohesion coordinator** (`Cohesion`): the process-wide set of cohesive kinds seen and the shared
  seed they observe. It reseeds when a kind repeats, so one record's names and email agree, and the
  next record gets a fresh seed.
- **the enumerated-values configuration** (`Configuration`): cumulative percentage thresholds kept in a
  `LinkedHashMap`, the reset when the total goes past 100, and the stop at exactly 100.
- **the settings** (`Settings`): the class `SettingsConfig`, with its ordered descriptors, its optional
  replacement tokens, its optional regex and its lookup by name.
- **tokens** (`Tokens`): `$[(.*?)]` scanning as the `find()` loop sees it (leftmost, non-greedy, no line
  terminator inside the brackets); the token names in first-occurrence order, as the `LinkedHashSet`
  keeps them; and literal substitution.
- **the serializers** (`Serialization`): `serializeCsv`, `serializeJson` and `serializeDirect`. Each is an
  imperative method over the descriptor objects and the coordinator object, proved against a pure
  function of the old states: `RowUpTo`, `TableUpTo` and `DirectOver`.
- **the prompting around them** (`Setup`): the configuration `promptSettingsConfig` builds (token based
  exactly when the input has a token), which fields it creates, which content types it offers, and the
  serialisation that `process` chooses from that configuration.

Java's `int` and `long` are the subset types `Int32` and `Int64`. Overflow is written out with `Wrap32`
and `Wrap64`, for the incrementing ID, the integer range's width and the salted seed. Everything random
(`nextInt`, `nextLong`, `UUID`, the name tables) and every prompt answer is a parameter of the model:
`Entropy` holds the draws of one production, and `Env` holds the seeded draw and the name generators.
Regex matches are inputs too, as sequences of optional capture groups.

Two behaviours of the code worth knowing:
- the integer configuration accepts `minValue == maxValue`, and a range whose width overflows an int.
  `random.nextInt` then throws, so `Producible` excludes both ranges (`Production.AcceptedRangeProducible`).
  In the same way, the file-content configuration accepts any group index, and `matcher.group` throws
  for one outside the match's groups; `Producible` excludes that too (see "## Left out").
- the coordinator reseeds whenever a kind repeats; only a test calls `reset`, and the program never calls it between records.

## Model

| member | source | states |
|---|---|---|
| Cohesion.SeedCoordinator.constructor | DataBuilder/src/main/java/com/unhuman/dataBuilder/descriptor/AbstractCohesiveDataDescriptor.java:15-16 | The coordinator starts with no kinds seen and with its initial seed. |
| Cohesion.SeedCoordinator.Reset | DataBuilder/src/main/java/com/unhuman/dataBuilder/descriptor/AbstractCohesiveDataDescriptor.java:32-33 | The set of kinds seen is emptied and the shared seed is kept. |
| Cohesion.SeedCoordinator.GetNextRandom | DataBuilder/src/main/java/com/unhuman/dataBuilder/descriptor/AbstractCohesiveDataDescriptor.java:36-46 | A kind not yet seen is added and keeps the seed. A kind already seen starts a new window with a fresh seed, holding only that kind. The result is the seeded draw from the new seed, in `[0, max)`. |
| Cohesion.OneRecordSharesSeed | DataBuilder/src/main/java/com/unhuman/dataBuilder/descriptor/AbstractCohesiveDataDescriptor.java:36-46 | Distinct kinds, none seen yet, all observe the current seed. The window grows by exactly those kinds and the seed does not change. |
| Cohesion.AfterResetAnyOrderSharesSeed | DataBuilder/src/test/java/com/unhuman/dataBuilder/descriptor/AbstractCohesiveDataDescriptorTest.java:38-54 | After a reset, distinct kinds in any order all observe the one seed. |
| Cohesion.RepeatedKindReseeds | DataBuilder/src/test/java/com/unhuman/dataBuilder/descriptor/AbstractCohesiveDataDescriptorTest.java:56-67 | The second call of the same kind observes the fresh seed, and the window is reset to that kind alone. |
| Cohesion.NextRecordSharesFreshSeed | DataBuilder/src/main/java/com/unhuman/dataBuilder/descriptor/AbstractCohesiveDataDescriptor.java:36-46 | If a record's first kind was seen, the whole record observes that record's first fresh seed. |
| Cohesion.RecordsAreCohesive | DataBuilder/src/main/java/com/unhuman/dataBuilder/descriptor/AbstractCohesiveDataDescriptor.java:36-46 | Repeating one record of distinct kinds: every kind in record n observes one seed, which is record n's first fresh seed (for a first record that starts from an empty window, the seed already held). |
| Configuration.StartingIdAnswer | DataBuilder/src/main/java/com/unhuman/dataBuilder/descriptor/IdDescriptor.java:41-43 | A blank answer means the default starting ID 1. |
| Configuration.FirstStartingId | DataBuilder/src/main/java/com/unhuman/dataBuilder/descriptor/IdDescriptor.java:39-48 | The ID prompt loop settles on the first answer that parses as an int. Every earlier answer fails to parse. |
| Configuration.PercentageAnswer | DataBuilder/src/main/java/com/unhuman/dataBuilder/input/PromptHelper.java:62-71 | An accepted percentage is in `(0, 100]`. A blank answer gives the default, through `promptIntegerValue`'s default text. |
| Configuration.FirstPercentage | DataBuilder/src/main/java/com/unhuman/dataBuilder/input/PromptHelper.java:62-71 | The percentage prompt loop settles on the first accepted answer. Every earlier answer is refused. |
| Configuration.FirstOrderedRange | DataBuilder/src/main/java/com/unhuman/dataBuilder/descriptor/IntegerDescriptor.java:30-37 | The range prompt loop settles on the first pair with `min <= max`. Every earlier pair is rejected. |
| Configuration.PutOverwritesInPlace | DataBuilder/src/main/java/com/unhuman/dataBuilder/descriptor/EnumValuesDescriptor.java:40 | `put` of a label already present replaces its threshold at the label's position. |
| Configuration.PutAppendsNew | DataBuilder/src/main/java/com/unhuman/dataBuilder/descriptor/EnumValuesDescriptor.java:40 | `put` of a new label appends it at the end of the insertion order. |
| Configuration.PutLabels | DataBuilder/src/main/java/com/unhuman/dataBuilder/descriptor/EnumValuesDescriptor.java:40 | The labels after `put` are the old labels plus the one put. |
| Configuration.PutDistinct | DataBuilder/src/main/java/com/unhuman/dataBuilder/descriptor/EnumValuesDescriptor.java:40 | `put` keeps the labels free of repeats. |
| Configuration.PutElements | DataBuilder/src/main/java/com/unhuman/dataBuilder/descriptor/EnumValuesDescriptor.java:40 | Every entry after `put` was there before or is the new one. |
| Configuration.Accumulate | DataBuilder/src/main/java/com/unhuman/dataBuilder/descriptor/EnumValuesDescriptor.java:21-41 | The entry loop stops when the total is exactly 100, at a blank item, or when the answers run out. Every item it consumed is non-blank. |
| Configuration.StepWellFormed | DataBuilder/src/main/java/com/unhuman/dataBuilder/descriptor/EnumValuesDescriptor.java:28-40 | One answer keeps every threshold in `(0, total]` with the total at most 100: a bad percentage is skipped, an overflow clears the map, and otherwise the new total is put. |
| Configuration.AccumulateWellFormed | DataBuilder/src/main/java/com/unhuman/dataBuilder/descriptor/EnumValuesDescriptor.java:20-42 | The whole entry loop keeps that invariant. |
| Configuration.FullTotalNeverFallsThrough | DataBuilder/src/main/java/com/unhuman/dataBuilder/descriptor/EnumValuesDescriptor.java:45-52 | When the configured total reaches 100, every draw below 100 selects a bucket: there is no fall-through to the null policy. |
| Configuration.StepLabels | DataBuilder/src/main/java/com/unhuman/dataBuilder/descriptor/EnumValuesDescriptor.java:28-40 | One answer adds no label other than its own item. |
| Configuration.StepOrdered | DataBuilder/src/main/java/com/unhuman/dataBuilder/descriptor/EnumValuesDescriptor.java:32-40 | One answer keeps the thresholds increasing in insertion order, as long as each label is new. |
| Configuration.AccumulateOrdered | DataBuilder/src/main/java/com/unhuman/dataBuilder/descriptor/EnumValuesDescriptor.java:20-42 | The whole loop keeps the thresholds in increasing order when the items are distinct. |
| Configuration.DistinctItemsIncrease | DataBuilder/src/main/java/com/unhuman/dataBuilder/descriptor/EnumValuesDescriptor.java:20-42 | With distinct items, the configured buckets are cumulative and strictly increasing. |
| Descriptors.ChooseEnumValue | DataBuilder/src/main/java/com/unhuman/dataBuilder/descriptor/EnumValuesDescriptor.java:47-52 | The key-set loop returns the quoted label of the first bucket whose threshold exceeds the draw, or the null-policy value when no bucket does. |
| Descriptors.Descriptor.constructor | DataBuilder/src/main/java/com/unhuman/dataBuilder/descriptor/IdDescriptor.java:15-24 | A new descriptor has the given name and kind, no match, no seed and a counter of 0. |
| Descriptors.Descriptor.SetIterationState | DataBuilder/src/main/java/com/unhuman/dataBuilder/descriptor/DataItemDescriptor.java:36-40 | It stores the match and the seed, changes nothing else, and returns the descriptor itself. |
| Descriptors.Descriptor.GetNextRandom | DataBuilder/src/main/java/com/unhuman/dataBuilder/descriptor/DataItemDescriptor.java:21-26 | The draw is in `[0, max)`. An entity-based descriptor uses its own `Random`. A data item uses a `Random` seeded with the per-record seed plus its class name's hash code, or its own `Random` when it has no seed. A cohesive descriptor steps the coordinator and draws from the shared seed. Only cohesive descriptors change the coordinator. |
| Descriptors.Descriptor.GetNextValue | DataBuilder/src/main/java/com/unhuman/dataBuilder/descriptor/DataItemDescriptor.java:34 | The value, the descriptor's new state and the coordinator's new state are exactly those of `Produce`. |
| Descriptors.Descriptor.ObtainIdConfiguration | DataBuilder/src/main/java/com/unhuman/dataBuilder/descriptor/IdDescriptor.java:31-52 | GUID changes only the ID type. Incrementing sets the counter and the starting ID to the first answer that parses, and stores whether the ID is a string. |
| Descriptors.Descriptor.ObtainBooleanConfiguration | DataBuilder/src/main/java/com/unhuman/dataBuilder/descriptor/BooleanDescriptor.java:25-27 | The percentage of true becomes the first answer the percentage prompt accepts, always in `(0, 100]`, and a blank first answer gives the default 50. Nothing else changes. |
| Descriptors.Descriptor.ObtainIntegerConfiguration | DataBuilder/src/main/java/com/unhuman/dataBuilder/descriptor/IntegerDescriptor.java:29-38 | The range becomes the first ordered pair that was answered, and `min <= max` holds afterwards. |
| Descriptors.Descriptor.ObtainEnumConfiguration | DataBuilder/src/main/java/com/unhuman/dataBuilder/descriptor/EnumValuesDescriptor.java:20-42 | The buckets become the entry loop's result. The running total restarts at 0, while the map keeps the entries it already had. |
| Descriptors.Descriptor.ObtainStaticConfiguration | DataBuilder/src/main/java/com/unhuman/dataBuilder/descriptor/StaticValueDescriptor.java:23-28 | It stores the value, and the is-string answer with its default "Y". |
| Descriptors.Descriptor.ObtainFileContentConfiguration | DataBuilder/src/main/java/com/unhuman/dataBuilder/descriptor/FileContentDescriptor.java:25-30 | It stores the group index and the is-string answer. |
| Descriptors.Descriptor.ObtainEmailConfiguration | DataBuilder/src/main/java/com/unhuman/dataBuilder/descriptor/EmailDescriptor.java:20-22 | It stores the domain, or "mailinator.com" for a blank answer. |
| Descriptors.Descriptor.ObtainEmptyConfiguration | DataBuilder/src/main/java/com/unhuman/dataBuilder/descriptor/EmptyDescriptor.java:14-16 | Nothing changes. |
| JavaText.AdvancedIsWrap | DataBuilder/src/main/java/com/unhuman/dataBuilder/descriptor/IdDescriptor.java:57-58 | After k post-increments, an int counter holds `x + k` wrapped to 32 bits. |
| JavaText.ParseRendered | DataBuilder/src/main/java/com/unhuman/dataBuilder/descriptor/IdDescriptor.java:42-43 | `Integer.parseInt` of the decimal rendering of any int gives that int back. |
| JavaText.JoinSnoc | DataBuilder/src/main/java/com/unhuman/dataBuilder/DataBuilder.java:291-292 | Joining one more part appends the separator and the part. No separator is added to an empty join. |
| Production.IncrementingTextParses | DataBuilder/src/main/java/com/unhuman/dataBuilder/descriptor/IdDescriptor.java:56-59 | An incrementing ID renders as the counter's decimal text, quoted in string mode, and that text parses back to the counter. |
| Production.BooleanText | DataBuilder/src/main/java/com/unhuman/dataBuilder/descriptor/BooleanDescriptor.java:31-34 | The value is exactly "true" or "false", and it is "true" exactly when the draw is below the percentage of true. |
| Production.PercentTrueIsItsWeight | DataBuilder/src/main/java/com/unhuman/dataBuilder/descriptor/BooleanDescriptor.java:32-33 | Of the 100 possible draws, exactly `percentTrue` give "true". |
| Production.AcceptedRangeProducible | DataBuilder/src/main/java/com/unhuman/dataBuilder/descriptor/IntegerDescriptor.java:33-42 | Of the ranges configuration accepts, the ones that can produce are exactly those with `min < max` whose width fits an int. |
| Production.IntegerValue | DataBuilder/src/main/java/com/unhuman/dataBuilder/descriptor/IntegerDescriptor.java:42 | The value is `min + draw`, and it lies in `[min, max)`. |
| Production.SelectFrom | DataBuilder/src/main/java/com/unhuman/dataBuilder/descriptor/EnumValuesDescriptor.java:47-51 | It selects the first bucket whose threshold exceeds the draw; every earlier threshold is at most the draw. It selects none only when no threshold exceeds the draw. |
| Production.BucketInterval | DataBuilder/src/main/java/com/unhuman/dataBuilder/descriptor/EnumValuesDescriptor.java:47-51 | With increasing thresholds, bucket i is selected exactly when the draw lies in `[previous threshold, its threshold)`. |
| Production.BucketWeight | DataBuilder/src/main/java/com/unhuman/dataBuilder/descriptor/EnumValuesDescriptor.java:46-50 | Of the 100 possible draws, each bucket is selected by exactly its threshold minus the previous one. |
| Production.Produce | DataBuilder/src/main/java/com/unhuman/dataBuilder/descriptor/DataItemDescriptor.java:34 | Producing never changes a descriptor's configuration, match or seed. A null value arises only under `AS_NULL`, for an enum fall-through or a missing group. Only an email changes the coordinator: it steps it with its kind, then renders from the new seed. Only an incrementing ID changes its counter. |
| Production.IncrementingIds | DataBuilder/src/main/java/com/unhuman/dataBuilder/descriptor/IdDescriptor.java:56-59 | The k-th value of a series of an incrementing ID is the counter advanced k times. |
| Production.IncrementingIdsAdvance | DataBuilder/src/main/java/com/unhuman/dataBuilder/descriptor/IdDescriptor.java:56-59 | After n productions, the counter has advanced n times. |
| Production.NthIncrementingId | DataBuilder/src/main/java/com/unhuman/dataBuilder/descriptor/IdDescriptor.java:56-59 | The n-th incrementing ID is the starting counter plus n-1, with 32-bit wrap-around. |
| Production.NthIncrementingIdFits | DataBuilder/src/main/java/com/unhuman/dataBuilder/descriptor/IdDescriptor.java:56-59 | Without overflow, the n-th incrementing ID is exactly the starting counter plus n-1. |
| Production.ConsecutiveEmailsReseed | DataBuilder/src/main/java/com/unhuman/dataBuilder/descriptor/EmailDescriptor.java:25-33 | Two emails in a row: the second observes the second fresh seed, and the coordinator's window holds only the email kind. |
| Production.EmailAgreesWithNames | DataBuilder/src/main/java/com/unhuman/dataBuilder/descriptor/EmailDescriptor.java:27-32 | In one record of distinct cohesive kinds, the email starts with the first letter of the first name drawn from that same seed, then the last name drawn from it, "@" and the domain. |
| Sequences.FirstIndex | DataBuilder/src/main/java/com/unhuman/dataBuilder/SettingsConfig.java:51 | The first position holding x: no earlier position holds it. It is none exactly when x is absent. |
| Sequences.DedupProperties | DataBuilder/src/main/java/com/unhuman/dataBuilder/DataBuilder.java:145-148 | A `LinkedHashSet` built by successive `add`s has the same members as the input, no repeats, and the order of first occurrence. |
| Settings.SettingsConfig.constructor | DataBuilder/src/main/java/com/unhuman/dataBuilder/SettingsConfig.java:15-19 | A new configuration has no tokens, no regex and no settings. |
| Settings.SettingsConfig.SetReplacementTokens | DataBuilder/src/main/java/com/unhuman/dataBuilder/SettingsConfig.java:25-27 | It replaces the tokens and only them. |
| Settings.SettingsConfig.SetRegex | DataBuilder/src/main/java/com/unhuman/dataBuilder/SettingsConfig.java:38-40 | It replaces the regex and only it. |
| Settings.SettingsConfig.SetSettings | DataBuilder/src/main/java/com/unhuman/dataBuilder/SettingsConfig.java:54-56 | It replaces the settings and only them. |
| Settings.SettingsConfig.AddSetting | DataBuilder/src/main/java/com/unhuman/dataBuilder/SettingsConfig.java:46-48 | It appends the descriptor at the end of the settings, and changes nothing else. |
| Settings.SettingsConfig.GetSetting | DataBuilder/src/main/java/com/unhuman/dataBuilder/SettingsConfig.java:50-52 | The result is the first setting with that name. It is none, where `get()` throws, exactly when no setting has the name. |
| Setup.Remove | DataBuilder/src/main/java/com/unhuman/dataBuilder/DataBuilder.java:144 | `List.remove` leaves a list without x unchanged, and otherwise makes it one element shorter. |
| Setup.RemoveDropsFirst | DataBuilder/src/main/java/com/unhuman/dataBuilder/DataBuilder.java:144 | On a list holding x, `List.remove` drops exactly the first occurrence of x and keeps the other elements in order. |
| Setup.RemoveOffer | DataBuilder/src/main/java/com/unhuman/dataBuilder/DataBuilder.java:204 | Removing from a list without repeats takes x off the offer, keeps every other type, and keeps the list free of repeats. |
| Setup.AddField | DataBuilder/src/main/java/com/unhuman/dataBuilder/DataBuilder.java:202-205 | Adding a new name with an offered type keeps the names distinct and keeps at most one ID. Choosing ID takes it off the offer, and changes no other type. |
| Setup.PromptType | DataBuilder/src/main/java/com/unhuman/dataBuilder/DataBuilder.java:194-198 | It returns the first answer that is on offer, skipping the answers before it that are not, or nothing when the answers run out. |
| Setup.OfferedTypes | DataBuilder/src/main/java/com/unhuman/dataBuilder/DataBuilder.java:132-144 | Every content type is on offer, except FILE_CONTENT when the input has tokens, and without repeats. |
| Setup.PlanFields | DataBuilder/src/main/java/com/unhuman/dataBuilder/DataBuilder.java:168-243 | The field names are distinct, with at most one ID field. In token mode the fields follow the token names in order, none is FILE_CONTENT, and stopping early means the type answers ran out. In regex mode every name is non-blank and was one of the names asked. |
| Setup.PlanSettings | DataBuilder/src/main/java/com/unhuman/dataBuilder/DataBuilder.java:129-243 | The new configuration is token based exactly when the input has a token. It then holds the input's deduplicated token names and no regex; otherwise it holds the accepted regex. The field names are distinct with at most one ID, and in token mode they name tokens of the input and are never FILE_CONTENT. |
| Setup.ChooseSerialization | DataBuilder/src/main/java/com/unhuman/dataBuilder/DataBuilder.java:71-85 | `isTokenBased()` gives token replacement. Otherwise ".csv" gives CSV and ".json" gives JSON. |
| Setup.ExtensionsExclusive | DataBuilder/src/main/java/com/unhuman/dataBuilder/DataBuilder.java:77-80 | No name ends in both ".csv" and ".json", so the order of the two comparisons does not matter. |
| Setup.ProcessChoice | DataBuilder/src/main/java/com/unhuman/dataBuilder/DataBuilder.java:68-85 | After `promptSettingsConfig`, an input with a token is serialised by token replacement, whatever the output name. An input without one goes to CSV for ".csv" and to JSON for ".json". |
| Setup.PromptDecidesOnlyOtherNames | DataBuilder/src/main/java/com/unhuman/dataBuilder/DataBuilder.java:81-84 | The prompted answer matters only for a configuration that is not token based and a name with neither extension. |
| Tokens.CloseFrom | DataBuilder/src/main/java/com/unhuman/dataBuilder/DataBuilder.java:46 | The closing `]` it finds is at or after the starting position. |
| Tokens.CloseFromFirst | DataBuilder/src/main/java/com/unhuman/dataBuilder/DataBuilder.java:46 | The lazy `.*?` stops at the first `]`: nothing before it is a `]` or a line terminator. |
| Tokens.CloseFromNone | DataBuilder/src/main/java/com/unhuman/dataBuilder/DataBuilder.java:46 | When no close is found, every later `]` has a line terminator before it. |
| Tokens.TokenAt | DataBuilder/src/main/java/com/unhuman/dataBuilder/DataBuilder.java:46 | A token found at i starts at i and is well formed: `$[`, a name without `]` or line terminators, then `]`. |
| Tokens.TokenAtNone | DataBuilder/src/main/java/com/unhuman/dataBuilder/DataBuilder.java:46 | When none is found at i, no token starts at i. |
| Tokens.FindToken | DataBuilder/src/main/java/com/unhuman/dataBuilder/DataBuilder.java:317 | `find()` returns a well-formed token at or after the search position. |
| Tokens.FindTokenLeftmost | DataBuilder/src/main/java/com/unhuman/dataBuilder/DataBuilder.java:317 | `find()` returns the leftmost token: no token starts earlier. It finds none only when no token starts at or after the position. |
| Tokens.ChainedOrdered | DataBuilder/src/main/java/com/unhuman/dataBuilder/DataBuilder.java:317-321 | Successive `find()` results do not overlap and come in increasing order. |
| Tokens.TokensFromValid | DataBuilder/src/main/java/com/unhuman/dataBuilder/DataBuilder.java:317-321 | The tokens of the `find()` loop are well formed and chained. |
| Tokens.TokenNameShape | DataBuilder/src/main/java/com/unhuman/dataBuilder/DataBuilder.java:318 | `group(1)` is the text between `$[` and `]`, and it contains no `]` and no line terminator. |
| Tokens.SubstituteOwnText | DataBuilder/src/main/java/com/unhuman/dataBuilder/DataBuilder.java:316-322 | Putting each token's own text back reproduces the input exactly. |
| Tokens.CollectFromAddsNames | DataBuilder/src/main/java/com/unhuman/dataBuilder/DataBuilder.java:145-148 | The do-while collection adds the names of all remaining tokens, in order, to the set. |
| Tokens.CollectFromDedups | DataBuilder/src/main/java/com/unhuman/dataBuilder/DataBuilder.java:142-148 | The first `find()` fails exactly when the input has no tokens, and the collected set is the token names without repeats, in first-occurrence order. |
| Tokens.CollectTokenNames | DataBuilder/src/main/java/com/unhuman/dataBuilder/DataBuilder.java:140-149 | None for an input without tokens, and otherwise the deduplicated token names. |
| Serialization.RowUpTo | DataBuilder/src/main/java/com/unhuman/dataBuilder/DataBuilder.java:268-270 | The descriptor loop over one match: n values, the kinds kept, and the descriptors not yet reached untouched. |
| Serialization.TableUpTo | DataBuilder/src/main/java/com/unhuman/dataBuilder/DataBuilder.java:295-303 | The match loop: one row per match, every row as wide as the settings, and the kinds kept. |
| Serialization.CsvIsLines | DataBuilder/src/main/java/com/unhuman/dataBuilder/DataBuilder.java:291-303 | The CSV text is the header joined with ",", then one line per row, all joined with "\n". With no rows it is the header alone. |
| Serialization.RenderedPresent | DataBuilder/src/main/java/com/unhuman/dataBuilder/DataBuilder.java:300-303 | A present value is written into the CSV line as it is. |
| Serialization.RowUpToEntry | DataBuilder/src/main/java/com/unhuman/dataBuilder/DataBuilder.java:268-270 | Cell i of a row is what descriptor i produces, after `setIterationState` with this match and seed, from the coordinator as the earlier cells left it. |
| Serialization.EmptyPolicyNoNulls | DataBuilder/src/main/java/com/unhuman/dataBuilder/DataBuilder.java:300-302 | Under `EMPTY`, every CSV cell is present. |
| Serialization.RowKeepsCounter | DataBuilder/src/main/java/com/unhuman/dataBuilder/descriptor/IdDescriptor.java:56-59 | In a row, an incrementing ID's cell is its counter before the row, and the counter advances by one. |
| Serialization.IdColumnCounts | DataBuilder/src/main/java/com/unhuman/dataBuilder/DataBuilder.java:295-303 | Row r of the ID column is the starting counter advanced r times. After n rows the counter has advanced n times. |
| Serialization.KeptExactly | DataBuilder/src/main/java/com/unhuman/dataBuilder/DataBuilder.java:271 | The fields written are, in order, exactly those whose value is present, or all of them when nulls are serialised. |
| Serialization.EmittedAreKept | DataBuilder/src/main/java/com/unhuman/dataBuilder/DataBuilder.java:271-277 | The j-th field written is `"name":value` for the j-th kept descriptor. |
| Serialization.JsonObjectsAt | DataBuilder/src/main/java/com/unhuman/dataBuilder/DataBuilder.java:260-280 | The k-th object written renders the k-th row. |
| Serialization.JsonObjectShape | DataBuilder/src/main/java/com/unhuman/dataBuilder/DataBuilder.java:264-280 | Each object starts with "\n{" and ends with "}". |
| Serialization.JsonFrame | DataBuilder/src/main/java/com/unhuman/dataBuilder/DataBuilder.java:253-282 | The JSON text starts with "[" and ends with "\n]". With no matches it is "[\n]". |
| Serialization.JsonOpenSnoc | DataBuilder/src/main/java/com/unhuman/dataBuilder/DataBuilder.java:260-264 | Each object after the first is preceded by ",". |
| Serialization.Replace | DataBuilder/src/main/java/com/unhuman/dataBuilder/DataBuilder.java:319 | Replacing a token fails with a missing setting exactly when no setting has the token's name. |
| Serialization.DirectSubstitutes | DataBuilder/src/main/java/com/unhuman/dataBuilder/DataBuilder.java:316-322 | On success, the output is the input with each token replaced by its produced value, in order, with the text between tokens and the tail kept. |
| Serialization.DirectNeedsEveryName | DataBuilder/src/main/java/com/unhuman/dataBuilder/DataBuilder.java:319 | A remaining token whose name has no setting makes the run fail. |
| Serialization.DirectTextNeedsEveryName | DataBuilder/src/main/java/com/unhuman/dataBuilder/DataBuilder.java:319 | Token replacement fails on any input that names a token with no setting. |
| Serialization.DirectWithoutTokens | DataBuilder/src/main/java/com/unhuman/dataBuilder/DataBuilder.java:316-323 | An input without tokens is returned as it is, and no state changes. |
| Serialization.ProduceCell | DataBuilder/src/main/java/com/unhuman/dataBuilder/DataBuilder.java:269-270 | `setIterationState` then `getNextValue` gives `Produce` of the descriptor with the match and seed stored, against the coordinator. |
| Serialization.ProduceNext | DataBuilder/src/main/java/com/unhuman/dataBuilder/DataBuilder.java:268-270 | One step of the descriptor loop extends the row by the next descriptor's value, in agreement with `RowUpTo`. |
| Serialization.ProduceRow | DataBuilder/src/main/java/com/unhuman/dataBuilder/DataBuilder.java:268-279 | The row's values, the descriptors' new states and the coordinator are those of `RowUpTo` over all the settings. |
| Serialization.ProduceMatch | DataBuilder/src/main/java/com/unhuman/dataBuilder/DataBuilder.java:295-303 | One match adds one full-width row, in agreement with `TableUpTo`. |
| Serialization.SerializeCsv | DataBuilder/src/main/java/com/unhuman/dataBuilder/DataBuilder.java:286-306 | The output is the CSV text of the `TableUpTo` rows under `EMPTY`. The descriptors and the coordinator end in the table's final states. |
| Serialization.AppendField | DataBuilder/src/main/java/com/unhuman/dataBuilder/DataBuilder.java:271-277 | One descriptor adds its field, after a "," unless it is the first written, exactly when it is kept. |
| Serialization.JsonFields | DataBuilder/src/main/java/com/unhuman/dataBuilder/DataBuilder.java:267-279 | The fields of an object are the kept fields joined with ",". |
| Serialization.WriteObject | DataBuilder/src/main/java/com/unhuman/dataBuilder/DataBuilder.java:260-280 | Writing one row extends the open array by ",", when it is not the first object, and by that row's object. |
| Serialization.SerializeJson | DataBuilder/src/main/java/com/unhuman/dataBuilder/DataBuilder.java:248-284 | The output is the JSON text of the `TableUpTo` rows under `AS_NULL`, with or without null fields. The descriptors and the coordinator end in the table's final states. |
| Serialization.ProduceAt | DataBuilder/src/main/java/com/unhuman/dataBuilder/DataBuilder.java:319 | `getNextValue(AS_NULL)` on the looked-up descriptor updates only that descriptor's state and the coordinator. |
| Serialization.ReplaceToken | DataBuilder/src/main/java/com/unhuman/dataBuilder/DataBuilder.java:319 | Looking up and producing one token's value agrees with `Replace`, including its errors. |
| Serialization.ReplaceNextToken | DataBuilder/src/main/java/com/unhuman/dataBuilder/DataBuilder.java:317-320 | One step of the `find()` loop agrees with `DirectOver`. An error there is the whole run's error. |
| Serialization.SerializeDirect | DataBuilder/src/main/java/com/unhuman/dataBuilder/DataBuilder.java:308-324 | The output is `DirectText`: the substituted text, or the error of the first token that fails. On success, the descriptors and the coordinator end in its final states. |

## Left out

- The FirstName, LastName and Text descriptors: their sources are not part of this model. The name generators `Env.firstName` and `Env.lastName` are parameters.
- Console prompting (`PromptHelper`) is not modelled: every answer is an input. PromptType skips answers that are not on offer instead of re-prompting for a number out of range.
- The regex engine and the regex prompt loop (`DataBuilder.java` 151-165): matches are inputs, as sequences of capture groups.
- `java.util.Random`, `nextLong` and `UUID`: their draws are inputs (`Entropy`, `Env.seeded`), constrained only by the bounds Java promises.
- The `$` and `\` handling of `appendReplacement`: values are substituted literally. A null value is the `NullReplacement` error, where Java throws.
- JSON and CSV escaping: none is done, as in the source.
- The Unicode details of `Integer.parseInt` (non-ASCII digits) and of `String.hashCode` (UTF-16 units): strings are sequences of `char`.
- The serializers require distinct descriptor objects in the settings. The source does not require this, but it never builds a configuration that shares one.
- Running out of prompt answers ends a prompt loop instead of blocking.
- The seed that `serializeDirect` draws but never uses (`DataBuilder.java` 313-314).
- Jackson persistence of the configuration, and `getInheritanceObjectMapper`.
- A null ID type, domain or static value: the model starts from non-null values.
- `process()`: its file I/O, its exit codes, and its dispatch switch (86-101). The serialize-nulls answer (93) is a parameter of `SerializeJson`.
- Serialization.SerializeDirect: the descriptor states after a failed token replacement are not specified.
- A null regex for CSV or JSON, where `Pattern.compile` throws: the serializers take the matches as given.
- Serialization.SerializeCsv: requires every descriptor to be producible on every match (`ProducibleEvery`). Two cases where Java throws are excluded rather than modelled as errors. One is a file-content group index outside the match's groups, which `promptIntegerValue` accepts (`FileContentDescriptor.java` 26 and 35). The other is an integer range that cannot produce.
- Serialization.SerializeJson: the same precondition (`ProducibleEvery`) excludes the same two cases.
- Serialization.SerializeJson: the model produces a whole row and then writes its fields. The output is the same, but the interleaving of production and writing is not modelled.
- Serialization.SerializeDirect: the loop runs over the precomputed `find()` results rather than calling the matcher step by step.
- Setup.PlanFields: it does not run `obtainConfiguration` or create the descriptors. In regex mode its contract does not state that every name asked before the blank one becomes a field.
- `main`, `CommandParams`, `SimplePortListener` and `TestDateManager`.
- The probabilistic `assertNotEquals` checks in the cohesion tests: their outcome depends on actual random draws.
