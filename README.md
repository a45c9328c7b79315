# Goverage coverage cache, modelled in Dafny

This project models `CoverageCache`, the core of the Goverage IntelliJ plugin.
The cache reads the Go coverage profile `coverage.out` of a project and indexes it per source file.
It then answers two queries about a file:

- the percentage of the file's statements that ran, rounded to two decimals;
- the raw list of the file's coverage blocks (`CoverageEntry`).

The cache re-parses the profile only when the file on disk is strictly newer than the one it holds.

Modules:

- `Wrappers`: `Option`, for Kotlin's nullable values.
- `KotlinStrings`: the Kotlin string functions the cache relies on. These are `startsWith`, `removePrefix`, `substringBefore`/`substringAfter`, `split` on one character, `trim`, `toIntOrNull`, and `Int.toString` as the inverse of `toIntOrNull`. Each is proved against an independent characterisation: split/join round trips, trimming as cutting white space only, and parsing as the inverse of printing.
- `CoverageProfile`: the `CoverageEntry` record and the parsing of one profile line (`ParseLine`). It also defines `TotalsOf` and `EntriesOf`, the per-file maps that the parsing loop builds one line at a time. Those maps are proved against reference definitions: a filter over the lines, and sums of statements.
- `GoModule`: `readModuleName` over the lines of `go.mod`, and construction of the lookup key.
- `Goverage`: the class `CoverageCache`, with the three fields of the Kotlin `CoverageCache`: `lastModified`, `coverageMap` and `detailedMap`.
  - `ParseCoverageFile` is a `for` loop over the lines. Its invariants tie the running maps to `TotalsOf` and `EntriesOf`.
  - The two query methods state when they refresh the cache, what the new state is, and what they answer.
  - The percentage is a whole number of hundredths.

The file system is an input, the `Project` datatype:

- the project's base path, if any;
- the lines of `go.mod`, if it exists;
- the modification time and the lines of `coverage.out`, if it exists.

The two calls to `lastModified()` (lines 30 and 32, and 51 and 53) read a single timestamp.

## Model

| member | source | states |
|---|---|---|
| KotlinStrings.StartsWithCharwise | src/main/kotlin/com/github/pixel365/goverage/CoverageCache.kt:64 | `startsWith` holds exactly when the prefix fits and agrees with the string at every position |
| KotlinStrings.RemovePrefix | src/main/kotlin/com/github/pixel365/goverage/CoverageCache.kt:20 | if `s` starts with `prefix`, then `prefix + r == s`; otherwise `r == s` |
| KotlinStrings.IndexOf | src/main/kotlin/com/github/pixel365/goverage/CoverageCache.kt:82-83 | -1 exactly when the character is absent; otherwise the position of its first occurrence |
| KotlinStrings.SubstringBefore | src/main/kotlin/com/github/pixel365/goverage/CoverageCache.kt:82 | the result holds no delimiter; it is the whole string when the delimiter is absent; otherwise the result followed by the delimiter is a prefix of the string |
| KotlinStrings.SubstringAfter | src/main/kotlin/com/github/pixel365/goverage/CoverageCache.kt:83 | the whole string when the delimiter is absent; strictly shorter otherwise |
| KotlinStrings.SubstringsRebuild | src/main/kotlin/com/github/pixel365/goverage/CoverageCache.kt:82-83 | the text before the first delimiter, the delimiter and the text after it give the string back |
| KotlinStrings.SubstringsOfConcat | src/main/kotlin/com/github/pixel365/goverage/CoverageCache.kt:82-83 | `a + c + b`, where `a` has no `c`, gives back `a` before and `b` after |
| KotlinStrings.Split | src/main/kotlin/com/github/pixel365/goverage/CoverageCache.kt:78 | a split always has at least one part; the empty string gives `[""]` |
| KotlinStrings.SplitSeparated | src/main/kotlin/com/github/pixel365/goverage/CoverageCache.kt:78 | no part of a split contains the delimiter |
| KotlinStrings.JoinSplit | src/main/kotlin/com/github/pixel365/goverage/CoverageCache.kt:78 | joining the parts with the delimiter gives the string back |
| KotlinStrings.SplitAfterFirst | src/main/kotlin/com/github/pixel365/goverage/CoverageCache.kt:83 | a delimiter-free head followed by the delimiter comes off as the first part |
| KotlinStrings.SplitJoin | src/main/kotlin/com/github/pixel365/goverage/CoverageCache.kt:78 | splitting the join of delimiter-free parts gives the parts back |
| KotlinStrings.SplitUnique | src/main/kotlin/com/github/pixel365/goverage/CoverageCache.kt:78 | `split` is the only decomposition into delimiter-free parts |
| KotlinStrings.TrimStart | src/main/kotlin/com/github/pixel365/goverage/CoverageCache.kt:66 | no longer than the input and does not start with white space |
| KotlinStrings.TrimEnd | src/main/kotlin/com/github/pixel365/goverage/CoverageCache.kt:66 | a prefix of the input that does not end with white space |
| KotlinStrings.Trim | src/main/kotlin/com/github/pixel365/goverage/CoverageCache.kt:66 | `trim()` neither starts nor ends with white space |
| KotlinStrings.TrimStartCutsPadding | src/main/kotlin/com/github/pixel365/goverage/CoverageCache.kt:66 | the input is some white space followed by the result |
| KotlinStrings.TrimEndCutsPadding | src/main/kotlin/com/github/pixel365/goverage/CoverageCache.kt:66 | the input is the result followed by some white space |
| KotlinStrings.TrimStrips | src/main/kotlin/com/github/pixel365/goverage/CoverageCache.kt:66 | `trim()` removes white space at both ends and nothing else |
| KotlinStrings.TrimPadded | src/main/kotlin/com/github/pixel365/goverage/CoverageCache.kt:66 | a word with no white space at its ends comes back exactly from any white space padding |
| KotlinStrings.ToIntOrNull | src/main/kotlin/com/github/pixel365/goverage/CoverageCache.kt:86-89 | a value only within 32-bit `Int` range, and only for a non-empty string other than a bare sign, all of whose characters are digits except an optional leading `+` or `-` |
| KotlinStrings.ToIntOrNullOfIntToString | src/main/kotlin/com/github/pixel365/goverage/CoverageCache.kt:86-89 | `toIntOrNull` reads back every `Int` that `toString` writes, negatives included |
| KotlinStrings.ToIntOrNullOfPlus | src/main/kotlin/com/github/pixel365/goverage/CoverageCache.kt:86-89 | a leading `+` is accepted |
| KotlinStrings.ToIntOrNullRejectsOutOfRange | src/main/kotlin/com/github/pixel365/goverage/CoverageCache.kt:86-89 | every number outside `Int` range is rejected, written with `-`, without a sign or with `+` |
| KotlinStrings.ToIntOrNullOfZeroPadded | src/main/kotlin/com/github/pixel365/goverage/CoverageCache.kt:86-89 | digits with any count of leading zeros read as their value (`"007"` is 7), and are rejected when that value is outside `Int` range (`"02147483648"`) |
| KotlinStrings.ToIntOrNullOfPlusZeroPadded | src/main/kotlin/com/github/pixel365/goverage/CoverageCache.kt:86-89 | the same after a `+` (`"+007"` is 7) |
| KotlinStrings.ToIntOrNullOfMinusZeroPadded | src/main/kotlin/com/github/pixel365/goverage/CoverageCache.kt:86-89 | the same after a `-` (`"-007"` is -7; `"-02147483648"` is `Int.MIN_VALUE`) |
| KotlinStrings.ToIntOrNullOfDigits | src/main/kotlin/com/github/pixel365/goverage/CoverageCache.kt:86-89 | a non-empty digit string, bare or after `+` or `-`, reads as its decimal value, signed, exactly when that fits in `Int` |
| GoModule.FirstWithPrefix | src/main/kotlin/com/github/pixel365/goverage/CoverageCache.kt:64 | `firstOrNull`: null exactly when no line has the prefix; otherwise the first line that has it |
| GoModule.ReadModuleName | src/main/kotlin/com/github/pixel365/goverage/CoverageCache.kt:60-68 | null without `go.mod`; null exactly when no line starts with `module `; a name never starts or ends with white space |
| GoModule.ModuleNameOfDeclaration | src/main/kotlin/com/github/pixel365/goverage/CoverageCache.kt:63-67 | the first `module ` line wins, and the padding around the name is dropped |
| GoModule.RelativePath | src/main/kotlin/com/github/pixel365/goverage/CoverageCache.kt:20 | drops the base only when it is a prefix, then at most one leading `/`: `base/` + result is the path when it starts with `base/`, and a path that starts with neither the base nor `/` is kept |
| GoModule.RelativePathOtherCases | src/main/kotlin/com/github/pixel365/goverage/CoverageCache.kt:20 | the other two cases: `base` + result is the path when it starts with the base but not `base/`; `/` + result is the path when it starts with `/` but not the base |
| GoModule.RelativePathUnderBase | src/main/kotlin/com/github/pixel365/goverage/CoverageCache.kt:20 | `base + "/" + path` loses the base and exactly one `/` |
| GoModule.RelativePathOfRelative | src/main/kotlin/com/github/pixel365/goverage/CoverageCache.kt:20 | a path that starts with neither the base nor `/` is kept as it is |
| GoModule.CoverageKey | src/main/kotlin/com/github/pixel365/goverage/CoverageCache.kt:35 | the key is `moduleName/` followed by exactly the relative path |
| GoModule.CoverageKeyInjective | src/main/kotlin/com/github/pixel365/goverage/CoverageCache.kt:56 | within one module, different relative paths give different keys |
| CoverageProfile.ParseLine | src/main/kotlin/com/github/pixel365/goverage/CoverageCache.kt:76-89 | `mode:` lines and lines of fewer than three fields give no block; every accepted number is a 32-bit `Int` |
| CoverageProfile.ParseLineAccepted | src/main/kotlin/com/github/pixel365/goverage/CoverageCache.kt:76-89 | an accepted line is no header, has at least three fields, a range of exactly two positions, and its block's file and four numbers are what `substringBefore` and `toIntOrNull` read from those tokens; a line failing any of these is skipped |
| CoverageProfile.HeaderSkipped | src/main/kotlin/com/github/pixel365/goverage/CoverageCache.kt:76 | every `mode: ...` header is skipped |
| CoverageProfile.EmptyLineSkipped | src/main/kotlin/com/github/pixel365/goverage/CoverageCache.kt:78-79 | the empty line splits into `[""]` and is skipped |
| CoverageProfile.TwoFieldLineSkipped | src/main/kotlin/com/github/pixel365/goverage/CoverageCache.kt:78-79 | a line of two space-separated fields is skipped |
| CoverageProfile.RangeSkipped | src/main/kotlin/com/github/pixel365/goverage/CoverageCache.kt:83-84 | any line whose range does not split on `,` into exactly two positions is skipped |
| CoverageProfile.NumberRejected | src/main/kotlin/com/github/pixel365/goverage/CoverageCache.kt:86-89 | a line of three or more fields is skipped when any of its four number tokens fails `toIntOrNull` |
| CoverageProfile.RangeWithoutCommaSkipped | src/main/kotlin/com/github/pixel365/goverage/CoverageCache.kt:83-84 | a location `file:position` with no comma is skipped |
| CoverageProfile.LocationWithoutColon | src/main/kotlin/com/github/pixel365/goverage/CoverageCache.kt:82-83 | with no `:`, the whole location is both the file and the range |
| CoverageProfile.ParseLineOfPieces | src/main/kotlin/com/github/pixel365/goverage/CoverageCache.kt:78-89 | a line of three or more fields whose first three fields, range and numbers are all accepted gives exactly their block; further fields are ignored |
| CoverageProfile.ParsePosition | src/main/kotlin/com/github/pixel365/goverage/CoverageCache.kt:86-87 | the line number before `.` reads back, and the column is dropped |
| CoverageProfile.ParseAssembledLine | src/main/kotlin/com/github/pixel365/goverage/CoverageCache.kt:78-89 | a line assembled from fields whose numbers read back is accepted as that block |
| CoverageProfile.ParseFormattedLine | src/main/kotlin/com/github/pixel365/goverage/CoverageCache.kt:76-89 | every well-formed block line is accepted and gives back the block it was written from |
| CoverageProfile.FoldStep | src/main/kotlin/com/github/pixel365/goverage/CoverageCache.kt:75-99 | one more line of the loop: a skipped line leaves the totals and the lists as they were; an accepted block adds its statements to its file's pair and appends itself to its file's list |
| CoverageProfile.OneBlockFolds | src/main/kotlin/com/github/pixel365/goverage/CoverageCache.kt:91-98 | one accepted line between two skipped ones gives one pair and one single-entry list |
| CoverageProfile.SingleBlockProfile | src/main/kotlin/com/github/pixel365/goverage/CoverageCache.kt:74-99 | a header, a block line and a short line give exactly that block's pair and list |
| CoverageProfile.EntriesOfIsFilter | src/main/kotlin/com/github/pixel365/goverage/CoverageCache.kt:96-98 | a file's list is exactly the entries of its accepted lines, in file order; a file has a list exactly when one of its lines was accepted |
| CoverageProfile.TotalsAgreeWithEntries | src/main/kotlin/com/github/pixel365/goverage/CoverageCache.kt:91-98 | both maps have the same files; a file's total is the sum of its entries' statements, and covered is that sum over the entries with `count > 0` |
| CoverageProfile.CoveredWithinTotal | src/main/kotlin/com/github/pixel365/goverage/CoverageCache.kt:91-94 | with no negative statement counts, `0 <= covered <= total` |
| Goverage.Percent | src/main/kotlin/com/github/pixel365/goverage/CoverageCache.kt:38-40 | null exactly when `total <= 0`; otherwise within half a hundredth of `covered * 100 / total`, with halves rounded up |
| Goverage.PercentUnique | src/main/kotlin/com/github/pixel365/goverage/CoverageCache.kt:39 | the rounding contract determines the result |
| Goverage.PercentWithinBounds | src/main/kotlin/com/github/pixel365/goverage/CoverageCache.kt:38-40 | a valid pair scores between 0.00 and 100.00 |
| Goverage.RoundingExamples | src/main/kotlin/com/github/pixel365/goverage/CoverageCache.kt:39 | 1/3 is 33.33, 2/3 is 66.67, 5/5 is 100.00, 1/20000 is 0.01, and 0/0 is null |
| Goverage.PercentAllOrNothing | src/main/kotlin/com/github/pixel365/goverage/CoverageCache.kt:38-40 | all statements covered is 100.00; none covered is 0.00 |
| Goverage.CoverageCache.constructor | src/main/kotlin/com/github/pixel365/goverage/CoverageCache.kt:13-16 | the initial state is timestamp 0 and empty maps, which are consistent |
| Goverage.CoverageCache.ParseCoverageFile | src/main/kotlin/com/github/pixel365/goverage/CoverageCache.kt:70-104 | returns the totals of the whole profile and sets `detailedMap` to its entry lists |
| Goverage.CoverageCache.GetCoverageForFile | src/main/kotlin/com/github/pixel365/goverage/CoverageCache.kt:18-41 | refreshes exactly when the profile is strictly newer, after which all three fields describe it; otherwise nothing changes; consistency is kept; the answer is null without base path, module or profile, and otherwise the percentage of the key |
| Goverage.CoverageCache.GetCoverageEntriesForFile | src/main/kotlin/com/github/pixel365/goverage/CoverageCache.kt:43-58 | refreshes under the same rule but sets only `lastModified` and `detailedMap`, so `coverageMap` keeps its old value; the answer is the key's list, or null |
| Goverage.CoverageCache.GetCoverageEntriesForFileKeepingTotals | src/main/kotlin/com/github/pixel365/goverage/CoverageCache.kt:43-58 | as above, but a refresh also stores the totals, so consistency is kept |
| Goverage.QueryTwice | src/main/kotlin/com/github/pixel365/goverage/CoverageCache.kt:30-33 | two queries on an unchanged project agree, and the cache ends in the state one query leaves: the profile on disk after a refresh, the old state otherwise |
| Goverage.TimestampGatesRefresh | src/main/kotlin/com/github/pixel365/goverage/CoverageCache.kt:30-33 | new lines with the same timestamp are ignored; a newer timestamp brings them in |
| Goverage.DeclaredModule | src/main/kotlin/com/github/pixel365/goverage/CoverageCache.kt:60-67 | a one-line `go.mod` declaring a module names it |
| Goverage.SingleBlockProjectRead | src/main/kotlin/com/github/pixel365/goverage/CoverageCache.kt:19-35 | base path, module and profile are found; `base/path` maps to the key `module/path`; the profile holds one block for that key |
| Goverage.EndToEnd | src/main/kotlin/com/github/pixel365/goverage/CoverageCache.kt:18-41 | a fresh cache reports 100.00 for a file whose only block ran and 0.00 for one whose only block did not |
| Goverage.StaleTotalsAfterEntriesQuery | src/main/kotlin/com/github/pixel365/goverage/CoverageCache.kt:51-54 | after an entries query on a fresh cache, the percentage query answers null for a file that has coverage |
| Goverage.FreshTotalsAfterCorrectedEntriesQuery | src/main/kotlin/com/github/pixel365/goverage/CoverageCache.kt:30-33 | with the corrected entries query, the percentage query that follows answers the file's real percentage |

## Left out

- File I/O (`File.exists`, `lastModified()`, `useLines`) and IntelliJ's `Project.basePath` are inputs of type `Project`: a file is either there with its lines or absent. The model does not model a read that fails. In the code, `useLines` on an existing but unreadable `go.mod` (line 63) or `coverage.out` (line 74) throws out of the query instead of returning null. An exception from `parseCoverageFile` leaves all three fields unchanged, because it is raised before `detailedMap`, `coverageMap` and `lastModified` are assigned.
- Goverage.Percent: works in exact rational arithmetic on integer hundredths and rounds halves up, instead of computing `Double` products and calling `Math.round`. The two differ where the exact value of 10000·covered/total is a half but the `Double` product lands just below it. For example, with 201 of 20000 statements covered, Kotlin computes 100.49999999999999, which rounds to 100, so it returns 1.0. The model returns 1.01.
- Goverage.CoverageCache.ParseCoverageFile: the running sums are exact integers. They do not wrap at 32 bits as Kotlin's `Int` additions on lines 93-94 would. Each parsed number is still limited to the `Int` range, as `toIntOrNull` limits it.
- KotlinStrings.Trim: white space is only space, tab, CR and LF. It is not Kotlin's full Unicode `isWhitespace` set.
- KotlinStrings.ToIntOrNull: accepts only ASCII digits. Kotlin also accepts other Unicode decimal digits.
- `CoverageCache` is a process-wide singleton `object` with no locking. The model has one sequential owner and does not model concurrent queries.
- Range queries with a line-range filter do not exist in this code: `getCoverageEntriesForFile` returns the whole list. The model has none.
- The profile's numbers are signed. Like the code, the model accepts any `Int`, including negatives and a leading `+`. It does not require non-negative numbers, nor `endLine >= startLine`.
- The inlay-hint provider (`GoverageInlayHintsProvider.kt`) is editor UI glue that calls `getCoverageForFile` and formats the result. It is not part of this model.
- The build script (`build.gradle.kts`) is not part of this model.

## Findings

| source | as written | input that shows it | evidently intended | confidence | as-written member | corrected member |
|---|---|---|---|---|---|---|
| src/main/kotlin/com/github/pixel365/goverage/CoverageCache.kt:51-54 | a refresh through `getCoverageEntriesForFile` throws away the totals that `parseCoverageFile` returns but still advances `lastModified` | a fresh cache and a project whose profile holds one block of a file: ask for the file's entries, then for its percentage. The second query sees no newer file and answers null from the empty `coverageMap` | a refresh stores the totals too (`coverageMap = parseCoverageFile(...)`, as on line 31), so that both maps always describe the same profile | high; not executed | Goverage.StaleTotalsAfterEntriesQuery | Goverage.FreshTotalsAfterCorrectedEntriesQuery |
