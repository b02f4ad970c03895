# Reshape: the rename-planning engine and the custom-pattern store

Reshape renames batches of photos and other files by filling a template such
as `{year}-{month}-{day}_{filename}` with each file's metadata. This project
models the two services that hold its logic and proves what they promise.

- **FileService** (`reshape-cli/FileService.cs`) is the rename-planning engine:
  - `ScanFolder` lists, filters and sorts the files;
  - `SanitizeForFilename` cleans a name;
  - `ApplyPattern` expands a template for one file;
  - `GeneratePreview` names every scanned file, numbers them with a running counter and flags conflicts;
  - `ExecuteRename` moves the eligible files;
  - `GetPatternTemplates` lists the built-in templates.
- **ConfigurationService** (`reshape-cli/ConfigurationService.cs`) keeps the user's custom patterns in `patterns.json`, behind a cached list.

The Dafny modules are:

| module | file | contents |
|---|---|---|
| `Models` | `models.dfy` | The records of `reshape-cli/Models.cs` and `CustomPattern` of `src/reshape-cli/Models.cs`, plus `Option`, `Result` and the exceptions the core throws. |
| `Strings` | `strings.dfy` | The .NET string operations the core relies on: `OrdinalIgnoreCase` comparison, `ToLowerInvariant`, `string.Replace`, `char.IsWhiteSpace`/`Trim`, `int.Parse`, `ToString("D<n>")` and ordinal order. |
| `FileService` | `file_service.dfy` | The operations of `FileService.cs`. Loops are methods proved against specification functions. |
| `PatternTheory` | `pattern_theory.dfy` | What `ApplyPattern` and the counter step mean on a template built from text and `{name}` placeholders. |
| `PreviewTheory` | `preview_theory.dfy` | What the scan, the preview and the rename plan guarantee across files: membership, counter numbering and distinct new names. |
| `ConfigurationService` | `configuration_service.dfy` | The pattern store: a `PatternStore` class whose fields are the cache and the content of `patterns.json`. |

## How the environment is represented

- **The file system** is a `Disk` value. It holds:
  - each existing folder with the recursive listing `Directory.GetFiles` returns, each file already turned into the properties `System.IO.FileInfo` gives;
  - the set of (folder, name) pairs for which `File.Exists` is true.
- **`File.Move`** is a function parameter that gives `Moved` or `MoveFailed(message)` for each (source, destination). `ExecuteRename` also returns the list of moves it issued.
- **Metadata** is an input: the sequence of (key, value) entries that `ExtractMetadata` returns, in dictionary enumeration order. The metadata loop of `ApplyPattern` depends on that order.
- **`Path.GetInvalidFileNameChars()`** is a parameter `invalid`. `UnixInvalidFileNameChars` holds the Unix set.
- **`patterns.json`** is the `file` field of `PatternStore`. It is missing, unreadable, or holds a deserialised list, which may be a JSON `null`.
- **Exceptions** that end an operation become `Err` results:
  - `DirectoryNotFound` for a missing folder;
  - `Overflow` for `int.Parse` of a width above `int.MaxValue`;
  - `ArgumentNull` when `Path.Combine` gets a null directory;
  - `InvalidOperation` for a duplicate custom pattern.

## Behaviour of the code worth noting

The model keeps each of these as the code has it.

- **The counter** advances only when `Regex.Match` finds a `{counter:N}` token in the file's expanded name (`reshape-cli/FileService.cs:152-160`). It does not advance once per processed file. `CounterBefore` counts exactly the files that use it.
- **Duplicate names.** When two files produce the same new name, only the second and later producers are flagged (`reshape-cli/FileService.cs:166-169`). `ConflictAt` states this. `PreviewTheory.EligibleNamesDistinct` proves that the rename still acts on at most one of them.
- **The conflict probe** looks for the new name in the scanned root folder (`reshape-cli/FileService.cs:167`). The move targets the file's own directory (`reshape-cli/FileService.cs:182-183`), so the two differ for files in subfolders. The model keeps both paths as written.
- **Metadata values are searched again.** Each `Replace` of the metadata loop works on the text the earlier ones produced (`reshape-cli/FileService.cs:118-121`). A value that spells `{key}` for a later key is therefore filled too. `PatternTheory.ValueRescanned` exhibits this: under the pattern `{filename}`, a file named `{year}` gets the year.
- **Every copy of the counter token is filled.** The token found first is replaced everywhere it occurs, with one counter value (`reshape-cli/FileService.cs:154-158`). Other placeholders stay verbatim in the name.

## Model

| member | source | states |
|---|---|---|
| FileService.ToFileInfo | reshape-cli/FileService.cs:26-39 | The record copies the file's name, full path, size, creation and modification times and metadata. It is selected. Its relative path is the file's relative folder, with "." turned into "". Its extension is the file's extension lower-cased, so it is lower case and equal to it ignoring case. |
| FileService.SortByFullPath | reshape-cli/FileService.cs:41 | `OrderBy(f => f.FullPath)`: the result is sorted by full path in ordinal order and is a permutation of its input. |
| FileService.InsertByFullPath | reshape-cli/FileService.cs:41 | Inserting one record into a sorted sequence keeps it sorted and adds exactly that record. |
| FileService.ScanFolder | reshape-cli/FileService.cs:15-45 | Fails with DirectoryNotFound("Folder not found: " + path) exactly when the folder does not exist. Otherwise the result is sorted by full path and is a permutation of the listed files that pass the extension filter. |
| PreviewTheory.ScanFolderMembers | reshape-cli/FileService.cs:22-42 | On an existing folder, a record is in the scan exactly when some listed file passes the filter (no filter, an empty filter, or an extension equal to an entry ignoring case) and maps to that record. There is one record per such file. |
| PreviewTheory.SelectMembers | reshape-cli/FileService.cs:22-40 | The Where/Select stages keep exactly the listed files that pass the filter. |
| Strings.OrdinalTotal | reshape-cli/FileService.cs:41 | Ordinal string order is total. |
| Strings.OrdinalTransitive | reshape-cli/FileService.cs:41 | Ordinal string order is transitive. |
| Strings.ToLowerInvariant | reshape-cli/FileService.cs:33 | The result has the input's length, and each character is lower-cased. |
| FileService.RemoveInvalidChars | reshape-cli/FileService.cs:135-136 | The filtered name holds no invalid character, is no longer than its input, and equals its input when that holds none. |
| FileService.RemoveInvalidCharsOne | reshape-cli/FileService.cs:135-136 | One character is dropped when it is invalid and kept otherwise. |
| FileService.RemoveInvalidCharsAppend | reshape-cli/FileService.cs:135-136 | The filter works character by character: on a concatenation it keeps what it keeps of each part, in order. With the one-character case this pins down which characters are kept. |
| FileService.SanitizeForFilename | reshape-cli/FileService.cs:133-138 | The result is the filtered name with its leading and trailing white space trimmed. It holds no invalid character, has no white space at either end, and is no longer than the input. |
| PatternTheory.RemoveInvalidCharsDrops | reshape-cli/FileService.cs:135-136 | An invalid character between valid text is dropped and nothing else changes. |
| PatternTheory.SanitizeDropsInvalid | tests/Reshape.Cli.Tests/Services/FileServiceTests.cs:153-164 | An invalid character between valid text is dropped and the rest is trimmed, so "test/filename" becomes "testfilename". |
| Strings.Trim | reshape-cli/FileService.cs:137 | `string.Trim()` drops exactly the leading white space and then the trailing white space. The result has no white space at either end. |
| PatternTheory.SanitizeIdempotent | reshape-cli/FileService.cs:133-138 | Sanitising twice gives what sanitising once gives. |
| PatternTheory.SanitizeFixedPoint | reshape-cli/FileService.cs:133-138 | A name of valid characters with no white space at its ends is kept unchanged. |
| PatternTheory.SubstitutionFillsPlaceholders | reshape-cli/FileService.cs:118-121 | For a template made of text and `{name}` placeholders, the metadata loop replaces each placeholder whose name is a key, ignoring case, with the first such key's value. It leaves every other placeholder as it is. |
| Strings.Replace | reshape-cli/FileService.cs:120 | `string.Replace` leaves a string shorter than the searched value unchanged. When the new value is as long as the old one, it keeps the length. |
| Strings.ReplaceWithoutOccurrence | reshape-cli/FileService.cs:120 | A string in which the searched value starts nowhere comes back unchanged. |
| Strings.ReplaceNoBrace | reshape-cli/FileService.cs:120 | A `{key}` placeholder occurs nowhere in text without `{`, so Replace leaves that text unchanged. |
| PatternTheory.ReplaceSkipsUnmatched | reshape-cli/FileService.cs:158 | Replace works left to right: it copies a prefix in which no occurrence starts, then goes on with the rest. |
| PatternTheory.ReplaceRendered | reshape-cli/FileService.cs:120 | One case-insensitive `Replace` of `{key}` fills exactly the placeholders named key, ignoring case, and nothing else. |
| PatternTheory.PlaceholderMatch | reshape-cli/FileService.cs:120 | `{key}` matches a spelled placeholder `{name}` ignoring case exactly when key and name are equal ignoring case. |
| PatternTheory.Lookup | reshape-cli/FileService.cs:118-121 | The lookup finds nothing exactly when no key equals the name ignoring case. |
| PatternTheory.LookupIsValue | reshape-cli/FileService.cs:118-121 | A value found for a placeholder is the value of one of the metadata entries. |
| PatternTheory.FillCompose | reshape-cli/FileService.cs:118-121 | Filling with the first entry and then with the rest equals filling with all entries. |
| FileService.MatchCounterPlaceholder | reshape-cli/FileService.cs:124 | A match of `\{counter(?::(\d+))?\}` at the start of the text is `{counter}`, or `{counter:` followed by a non-empty run of digits and `}`. |
| FileService.CanonicalizeCounters | reshape-cli/FileService.cs:124-128 | The only exception the counter rewrite can raise is an `int.Parse` overflow. |
| PatternTheory.CanonicalizeSkipsPrefix | reshape-cli/FileService.cs:124-128 | `Regex.Replace` copies text in which no match starts and rewrites the rest as it would on its own. An error in the rest is the error of the whole. |
| PatternTheory.PlainTextNoPlaceholder | reshape-cli/FileService.cs:124 | No match of the counter pattern starts inside text without `{`. |
| PatternTheory.CanonicalizeBareCounter | reshape-cli/FileService.cs:124-128 | Where no placeholder match starts in the text before it, `{counter}` becomes `{counter:3}` in place. The text before it is kept, even when it holds other placeholders. The text after it is rewritten as it would be on its own, and its overflow is the call's. With no `{` after it, nothing else changes. |
| PatternTheory.CanonicalizeRepeatedBare | reshape-cli/FileService.cs:124-128 | In `{counter}…{counter}`, each copy becomes `{counter:3}` in its own place. |
| PatternTheory.CanonicalizeCounterWidth | reshape-cli/FileService.cs:124-128 | Where no placeholder match starts in the text before it, `{counter:N}` stays in place as `{counter:P}`, where P is `int.Parse(N).ToString()`. The call fails with an overflow when N exceeds `int.MaxValue`. The text before it is kept, and the text after it is rewritten on its own. No counter value is inserted. |
| PatternTheory.WidthTokenSurvivesUnix | reshape-cli/FileService.cs:130-136 | With the Unix invalid characters, the sanitiser keeps a `{counter:N}` token intact, so the counter step can still find it. |
| PatternTheory.CanonicalizeNoBrace | reshape-cli/FileService.cs:124-128 | Text without `{` passes the counter rewrite unchanged. |
| FileService.ExpandPattern | reshape-cli/FileService.cs:114-131 | The expanded name holds no invalid character and has no white space at either end. The only failure is an overflow. |
| FileService.ApplyPattern | reshape-cli/FileService.cs:114-131 | The loop over the metadata computes ExpandPattern. Its result is clean, as stated there. |
| FileService.SubstituteMetadata | reshape-cli/FileService.cs:118-121 | The metadata loop leaves text without `{` unchanged, whatever the metadata, because every key is searched as `{key}`. |
| PatternTheory.ExpandPlainText | reshape-cli/FileService.cs:114-131 | A template of valid characters, without `{` and without white space at its ends, expands to itself for any metadata. |
| PatternTheory.ValueRescanned | reshape-cli/FileService.cs:118-121 | A value inserted for one key is searched by the later keys: `{k1}` with k1 ↦ `{k2}` and then k2 ↦ v becomes v. |
| Strings.ParseInt32 | reshape-cli/FileService.cs:126 | `int.Parse` on digits succeeds exactly when the value is at most `int.MaxValue`, and then returns that value. Otherwise it overflows. |
| Strings.NatToStringRoundTrip | reshape-cli/FileService.cs:127 | The decimal spelling of a number reads back as that number. |
| Strings.PadLeft | reshape-cli/FileService.cs:158 | `ToString("D<n>")` gives digits only, and its length is the larger of n and the number of digits. |
| Strings.PadLeftRoundTrip | reshape-cli/FileService.cs:158 | The zero-padded spelling still denotes the counter value. |
| FileService.FirstCounterToken | reshape-cli/FileService.cs:154 | A match of `\{counter:(\d+)\}` is `{counter:` followed by a non-empty run of digits and `}`. |
| FileService.FirstCounterTokenLeftmost | reshape-cli/FileService.cs:154 | `Regex.Match` finds nothing exactly when no token starts anywhere in the name. When it finds one, that token starts at some position, no token starts earlier, and its digits are the group returned. |
| FileService.FirstCounterTokenContains | reshape-cli/FileService.cs:152-155 | When the regex finds a token, the name contains `{counter:`, so the outer `Contains` guard never hides a match. |
| FileService.ApplyCounter | reshape-cli/FileService.cs:154-158 | The counter step fails exactly when a `{counter:N}` token is found whose N exceeds `int.MaxValue`, and then with an overflow. |
| FileService.MaterializeCounter | reshape-cli/FileService.cs:152-160 | The counter block computes ApplyCounter. When it succeeds, it advances the counter exactly when a `{counter:N}` token is found. |
| FileService.ApplyCounterFailsAlike | reshape-cli/FileService.cs:157 | Whether the counter step overflows does not depend on the counter's value. |
| PatternTheory.CounterFills | reshape-cli/FileService.cs:154-158 | When no token starts before a `{counter:N}` token, that token is the one found. It and every later copy of it are replaced by the counter zero-padded to N digits, in place. The text before it is kept, and so are other placeholders. |
| PatternTheory.CounterFillsEvery | reshape-cli/FileService.cs:154-158 | Both copies of a repeated `{counter:N}` token get the same zero-padded number. |
| PatternTheory.NoTokenInPlainText | reshape-cli/FileService.cs:154 | No counter token starts inside text without `{`. |
| PatternTheory.CounterAbsent | reshape-cli/FileService.cs:152-160 | A name without `{` has no counter token and is left unchanged. |
| FileService.ExpandAll | reshape-cli/FileService.cs:147-149 | There is one expansion per scanned file, and each failure is an overflow. |
| FileService.ExpandAllAt | reshape-cli/FileService.cs:149 | The expansion for file j is ApplyPattern of the template with file j's metadata. |
| FileService.PreviewFile | reshape-cli/FileService.cs:149-170 | One turn of the loop: the counter step, the extension, the conflict test against the seen names and the disk, then the set and list updates. It equals one step of the preview fold. |
| FileService.GeneratePreview | reshape-cli/FileService.cs:140-174 | The loop returns PreviewOfFolder: the scan's exception, or the fold of the loop body over the scanned files. |
| FileService.PreviewOfFolderMeaning | reshape-cli/FileService.cs:140-174 | GeneratePreview fails with DirectoryNotFound when the scan does. Otherwise it fails exactly when some file's expansion or counter width overflows. Any other result has one item per scanned file, in scan order, copying the file's name, path, relative path and selection. Each item's new name is the expansion with the running counter plus the file's extension. Each item's conflict flag is set exactly as ConflictAt says. |
| FileService.PreviewMeaning | reshape-cli/FileService.cs:147-171 | The fold over the scanned files meets the closed-form description of the preview above. |
| FileService.PreviewUpToMeaning | reshape-cli/FileService.cs:147-171 | After the first i files the loop has failed exactly when one of them fails. Otherwise its items, its set of folded names and its counter are those of the closed form. |
| FileService.PreviewStepKeeps | reshape-cli/FileService.cs:149-170 | One loop turn keeps the loop invariant: items so far, the HashSet of names seen, and the counter value. |
| FileService.PreviewErrorSticks | reshape-cli/FileService.cs:147-171 | Once a file throws, the whole call has thrown. |
| FileService.SeenIffEarlierMatch | reshape-cli/FileService.cs:166 | A name is in the case-insensitive HashSet exactly when an earlier item produced an equal name ignoring case. |
| Strings.EqualsIgnoreCaseIffFolded | reshape-cli/FileService.cs:144 | Two names are equal under OrdinalIgnoreCase exactly when their folded forms are equal, so the HashSet can be keyed by the fold. |
| FileService.AppendKeepsConflictsMarked | reshape-cli/FileService.cs:166-170 | Adding an item whose flag is computed as in the code keeps every flag equal to ConflictAt. |
| FileService.PrefixKeepsConflicts | reshape-cli/FileService.cs:166-169 | A later item never changes an earlier item's conflict flag. |
| PreviewTheory.CounterGrows | reshape-cli/FileService.cs:145-159 | The counter never decreases, and it increases after every file that uses it. |
| PreviewTheory.CounterCountsUsers | reshape-cli/FileService.cs:145-159 | The counter starts at 1 and is at most one more than the number of files before. When every file uses it, file i gets i + 1, so K such files get 1..K. When no file uses it, it stays 1. |
| PreviewTheory.NumberedName | reshape-cli/FileService.cs:152-164 | When the first token in a file's expanded name is `{counter:N}`, the file uses the counter and does not fail. Its new name replaces that token, and every later copy of it, with the running counter zero-padded to N digits, followed by its extension. |
| PreviewTheory.DistinctNumbers | reshape-cli/FileService.cs:152-159 | Two files that use the counter get different numbers, whatever their widths. |
| FileService.Eligible | reshape-cli/FileService.cs:180 | The `Where` keeps no more items than it is given, and every item it keeps is selected, conflict-free and renamed to a different name. |
| FileService.EligibleAppend | reshape-cli/FileService.cs:180 | The Where filter of ExecuteRename distributes over concatenation and keeps order. |
| PreviewTheory.EligibleMembers | reshape-cli/FileService.cs:180 | An item is acted on exactly when it is selected, conflict-free and renamed to a different name. |
| PreviewTheory.EligibleNamesDistinct | reshape-cli/FileService.cs:166-180 | With the flags as GeneratePreview sets them, no two items acted on have new names equal ignoring case. |
| PreviewTheory.PreviewRenamesDistinct | reshape-cli/FileService.cs:140-180 | The same holds for any preview GeneratePreview returns. |
| FileService.GetDirectoryName | reshape-cli/FileService.cs:182 | `Path.GetDirectoryName` on Unix returns null exactly when the path is no longer than its root. Otherwise it returns a proper prefix of the path, at least as long as the root. |
| FileService.GetDirectoryNameEnds | reshape-cli/FileService.cs:182 | The directory returned is cut at a separator, or is the root. It ends in a separator only when it is the root, and after it come only separators and then the last name, so the cut is at the last run of separators. |
| FileService.Combine | reshape-cli/FileService.cs:183 | `Path.Combine` on Unix returns the second path when it is absolute. Otherwise the result starts with the first path. The result always ends with the second path, and is at most one separator longer than both together. When both are non-empty and the second is relative, a separator stands just before it. |
| FileService.ReportedAppend | reshape-cli/FileService.cs:185-196 | Reporting one more item extends the results and, outside a dry run, the issued moves by that item's entry. |
| FileService.EligibleThrough | reshape-cli/FileService.cs:180 | The items acted on so far are the start of the whole filtered sequence. |
| FileService.RenameItem | reshape-cli/FileService.cs:182-195 | One eligible item: no result exactly when its path has no directory, where `Path.Combine` throws. Otherwise the new path is the directory combined with the new name, and the result reports success on a dry run or a move that succeeds, and otherwise the move's message. |
| FileService.ExecuteRename | reshape-cli/FileService.cs:176-200 | The call ends with ArgumentNull exactly when an eligible item's path has no directory. Otherwise there is one result per eligible item, in order. Each result's new path is the item's directory combined with the new name. A dry run issues no move and reports success. A failed move is reported with its message, and the loop goes on. The moves issued are exactly those of the eligible items handled, in order. |
| FileService.GetPatternTemplates | reshape-cli/FileService.cs:202-210 | There are six templates, each with a non-empty pattern and description. |
| ConfigurationService.Decode | reshape-cli/ConfigurationService.cs:39-57 | A missing file, an unreadable file or a JSON null yields the empty list. Otherwise the deserialised list is returned. |
| ConfigurationService.Without | reshape-cli/ConfigurationService.cs:97 | `RemoveAll` leaves no entry matching ignoring case. It removes something exactly when some entry matched. |
| ConfigurationService.WithoutMembers | reshape-cli/ConfigurationService.cs:97 | An entry is in the result of `RemoveAll` exactly when it was in the list and does not match. |
| ConfigurationService.WithoutOne | reshape-cli/ConfigurationService.cs:97 | On one entry, `RemoveAll` drops it when it matches and keeps it otherwise. |
| ConfigurationService.WithoutAppend | reshape-cli/ConfigurationService.cs:97 | `RemoveAll` works entry by entry: on a concatenation it leaves what it leaves of each part, in order. With WithoutOne this fixes the result, order and repeats included. |
| ConfigurationService.WithoutCount | reshape-cli/ConfigurationService.cs:97 | Each entry that does not match is kept as many times as it occurs; a matching one is kept zero times. |
| ConfigurationService.WithoutNoMatch | reshape-cli/ConfigurationService.cs:96-105 | Removing a pattern that matches nothing leaves the list unchanged. |
| ConfigurationService.AddKeepsNoDuplicates | reshape-cli/ConfigurationService.cs:82-87 | Appending a pattern that matches no entry keeps the list free of case-insensitive duplicates. |
| ConfigurationService.WithoutKeepsNoDuplicates | reshape-cli/ConfigurationService.cs:97 | Removing entries keeps the list free of case-insensitive duplicates. |
| ConfigurationService.ToRenamePatterns | reshape-cli/ConfigurationService.cs:114-116 | The Select copies each custom pattern's pattern and description, in order. |
| ConfigurationService.GetDefaultPatterns | reshape-cli/ConfigurationService.cs:124-132 | There are exactly six built-in patterns, with non-empty fields, and they are the same list as FileService's templates. |
| ConfigurationService.PatternStore.constructor | reshape-cli/ConfigurationService.cs:16 | The cache starts as null, so the store is consistent: a cached list, when there is one, is what the file holds. Every operation keeps this. |
| ConfigurationService.PatternStore.LoadCustomPatterns | reshape-cli/ConfigurationService.cs:32-58 | Returns the cached list when there is one. Otherwise it returns the decoded file content and caches it. The file is never changed. |
| ConfigurationService.PatternStore.SaveCustomPatterns | reshape-cli/ConfigurationService.cs:63-72 | The file holds the list, and the cache is that list. |
| ConfigurationService.PatternStore.AddCustomPattern | reshape-cli/ConfigurationService.cs:77-89 | On a case-insensitive duplicate it throws InvalidOperation("Pattern '…' already exists"), and the loaded list is unchanged and unsaved. Otherwise it appends the pattern at the end, saves, and caches. Freedom from duplicates is preserved. |
| ConfigurationService.PatternStore.RemoveCustomPattern | reshape-cli/ConfigurationService.cs:94-106 | Answers true exactly when some entry matched. In that case it removes every match, keeps the rest in order and saves. Otherwise nothing is saved. Afterwards no entry matches, so a second call answers false and changes nothing. Freedom from duplicates is preserved. |
| ConfigurationService.PatternStore.GetAllPatterns | reshape-cli/ConfigurationService.cs:111-119 | The defaults followed by the custom patterns in stored order, so the length is 6 + the number of custom patterns. |
| ConfigurationService.PatternStore.ClearCache | reshape-cli/ConfigurationService.cs:137-140 | The cache is null, so the next load reads the file again. On a consistent store the patterns a load returns do not change. |

## Left out

- `ExtractMetadata` (EXIF reading, `DateTime` formatting) is not part of this model. Each file's metadata is an input.
- Real file-system and JSON I/O are parameters or state:
  - `Directory.Exists`, `Directory.GetFiles`, `Path.GetFullPath`, `Path.GetRelativePath` and `File.Exists` are inputs via `Disk`;
  - `File.Move` is a function parameter;
  - `JsonSerializer` and `File.ReadAllText`/`WriteAllText` are the `file` field.
- `SaveCustomPatterns`, `AddCustomPattern`, `RemoveCustomPattern`: a failure to write `patterns.json` is not modelled. The write always succeeds.
- `EnsureConfigDirectoryExists` creates a directory only. The store does not model directories.
- `PatternStore.AddCustomPattern`, `PatternStore.RemoveCustomPattern`: the C# code mutates the cached `List<CustomPattern>` in place, shared with earlier callers of `LoadCustomPatterns`. The model replaces the list by value, so aliasing through a list a caller still holds is not captured.
- `Strings.EqualsIgnoreCase`: `OrdinalIgnoreCase` and `ToLowerInvariant` are modelled on ASCII letters only. Unicode case mapping is left out.
- `FileService.MatchCounterPlaceholder`: `\d` is modelled as the ASCII digits, so the Unicode digits `\d` also matches are left out. The `FormatException` `int.Parse` would then raise is left out for the same reason.
- `Strings.PadLeft`: `ToString("D<n>")` throws a `FormatException` when n exceeds 999,999,999. The model pads to any width.
- `PreviewTheory.CounterCountsUsers`: the counter is an unbounded integer. The 32-bit wrap after 2,147,483,647 files that use it is not modelled.
- `FileService.SortByFullPath`: `OrderBy` on strings uses the current culture's comparer. The model sorts by ordinal order, and since the sort is a permutation into sorted order, ties keep no particular order.
- `FileService.GetDirectoryName`, `FileService.Combine`: paths follow the Unix rules, with `/` as the only separator. Separator normalisation and Windows roots are not modelled.
- `FileService.GeneratePreview`: the loop body is factored into the method `PreviewFile` and the expansions are a ghost sequence, so that the loop can be stated as a fold. Mutation of a `List` and a `HashSet` in place is modelled by reassigning sequence and set values.
- Vacation mode, `SanitizeForPath`, and the `ExecuteRename(items, baseFolderPath, dryRun)` and `GeneratePreview(..., vacationMode)` overloads have no implementation in these files and are not part of this model.
- Command handlers, the HTTP API, the UI and the updater only call into the core, and are not part of this model.
- `PatternStore.AddCustomPattern`, `PatternStore.RemoveCustomPattern`: a `null` entry in `patterns.json`, or an entry whose `Pattern` is `null`, makes `p.Pattern.Equals` throw a `NullReferenceException` (`reshape-cli/ConfigurationService.cs:82`, `:97`). The model's `CustomPattern` always has a pattern string, so that exception is not modelled.
- `PatternTheory.SubstitutionFillsPlaceholders`: it is stated for metadata whose values hold no `{`. When a value does hold one, a later key's `Replace` searches the inserted text as well. `PatternTheory.ValueRescanned` shows that case, but no general statement is made about it.
- `Strings.OrdinalLessOrEqual`: ordinal order is modelled as the order of code points. .NET compares UTF-16 code units, which differ for characters outside the Basic Multilingual Plane.
- `FileService.ExecuteRename`: `File.Move` is a pure function of source and destination. A move's outcome does not depend on the moves issued earlier.
- Concurrency (a file changing between the conflict probe and the move) is not modelled. A move that fails for any reason is an ordinary per-item failure.
