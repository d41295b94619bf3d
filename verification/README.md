# envcfg in Dafny

A model of the binding engine of `envcfg`, a Go package that fills the fields
of a configuration struct from a `.env` file and then from the process
environment. The model follows `envcfg.go`:

- **line grammar** (`readSource`). Each line is trimmed with Go's
  `strings.TrimSpace`. Blank lines and `#` comments are skipped. A line is
  split at its first `=`, and the key and the value are each trimmed. A later
  line for the same key wins. A line with no `=` aborts the read with its
  trimmed text.
- **field collection** (`parseStruct`). Reflection is replaced by a schema
  tree. Unexported fields are skipped. Exported struct-typed fields are
  descended into, and their own tag is ignored. Leaves with an empty `env`
  tag are skipped. Each remaining leaf becomes a descriptor: the field's
  path (declaration indices), its tag and its kind.
- **coercion** (`setValue`). This covers the parts of Go's `strconv` that it
  calls:
  - `ParseBool` accepts exactly twelve spellings.
  - `ParseInt(s, 10, 64)` and `ParseUint(s, 10, 64)` check decimal syntax
    and 64-bit range, and report errors in scan order: digits that
    already overflow give a range error even when a non-digit follows
    (`Strconv.ParseUintScanOrder`, `Strconv.ParseIntScanOrder`).
  - A narrow integer field then stores the 64-bit result truncated to its
    width.
  - A string field takes the text verbatim.
  - Every other kind is unsupported.
- **binding** (`loadFromSource`). The whole mapping is built first. Then the
  descriptors are walked in order: those whose key is present are written,
  and the walk stops at the first conversion error.
- **layering** (`LoadFile`). The target is validated. Then the file pass
  runs, where a missing file counts as empty and any other file failure ends
  the call. Then the environment pass runs through the same grammar.

Modules:

| module | file | models |
|---|---|---|
| `Outcomes` | outcomes.dfy | `Option`, `Result` and the error values |
| `Text` | text.dfy | `strings.TrimSpace`, `strings.SplitN(s, "=", 2)` |
| `LineGrammar` | grammar.dfy | `readSource` and the two line iterators |
| `Schema` | schema.dfy | field shapes and `parseStruct` |
| `Strconv` | strconv.dfy | `ParseBool`, `ParseInt`, `ParseUint` and their formatting inverses |
| `Coercion` | coerce.dfy | `setValue` |
| `Binding` | binding.dfy | `loadFromSource` |
| `Loader` | loader.dfy | `LoadFile` |
| `Scenarios` | scenarios.dfy | the configurations of `envcfg_test.go` |

The struct a pointer refers to is modelled as a store: a map from field paths
to values. `LoadFile` returns the final store together with the error, if
any. Each pass leaves behind exactly what the Go code would have written
before returning.

Where the documented behaviour and the code differ, the model follows the
code:

- Signed and unsigned integers are range-checked against 64 bits, not
  against the field's width. A narrow field then silently keeps the low bits
  (`Coercion.WrapsInt8Above`, `Coercion.WrapsInt8Below`, `Coercion.WrapsUint8`).
- `uintptr` falls outside the `Uint..Uint64` kind range, so it is
  unsupported.
- The environment goes through the same trimming, comment and `=` rules as
  the file. An environment entry is trimmed. One whose trimmed text starts
  with `#` is ignored. One without `=` fails the environment pass.

## Model

| member | source | states |
|---|---|---|
| Text.TrimSpace | envcfg.go:152-164 | `strings.TrimSpace`, applied to each line and to each side of its '='. It is a plain definition; Text.TrimSpaceStrips, Text.TrimSpaceUnique, Text.TrimSpaceKeeps and Text.TrimSpaceIgnoresPadding state what it guarantees |
| Text.TrimSpaceStrips | envcfg.go:152 | trimming removes only a white-space prefix and suffix, and leaves no white space at either end |
| Text.TrimSpaceUnique | envcfg.go:152 | the trimmed string is the only string the input strips to, in both directions |
| Text.TrimSpaceIgnoresPadding | envcfg.go:152 | white space added around any string does not change its trimmed form |
| Text.TrimLeftSpec | envcfg.go:152 | dropping leading white space leaves a suffix of the input whose removed prefix is all white space and whose first character is not |
| Text.TrimSpacePadded | envcfg.go:152 | a string with no white space at its ends, padded with white space on both sides, trims back to itself |
| Text.TrimSpaceIdempotent | envcfg.go:152 | trimming twice equals trimming once |
| Text.TrimSpaceKeeps | envcfg.go:152 | a non-space character occurs in the trimmed string exactly when it occurs in the original |
| Text.IndexOfSpec | envcfg.go:159 | the search finds the first occurrence of the separator, and finds none exactly when it is absent |
| Text.Cut | envcfg.go:159-161 | `strings.SplitN(line, "=", 2)`, with None for the one-token case. It is a plain definition; Text.CutSpec and Text.CutJoin state what it guarantees |
| Text.CutSpec | envcfg.go:159-161 | the split fails exactly when '=' is absent; otherwise the parts rejoin around '=' to the input, and the left part has no '=' |
| Text.CutJoin | envcfg.go:159 | splitting `k + "=" + v` at the first '=' gives back `k` and `v` whenever `k` has no '=' (so `v` may hold '=') |
| LineGrammar.ParseLine | envcfg.go:152-165 | one iteration of the `readSource` loop: trim, skip blank and comment lines, split at the first '=' and trim both sides. It is a plain definition; LineGrammar.ParseLineCases, LineGrammar.EntryRoundTrip and LineGrammar.PaddedEntry state what it guarantees |
| LineGrammar.ParseLineCases | envcfg.go:152-165 | a line is skipped exactly when its trimmed form is blank or starts with '#'; it is malformed exactly when it is not skipped and has no '='; a malformed line carries its trimmed text; an entry's key has no '=' and both sides are trimmed |
| LineGrammar.EntryRoundTrip | envcfg.go:159-165 | a line `k=v` whose key has no '=' and is not a comment reads as the entry (trim k, trim v), whatever `v` contains |
| LineGrammar.PaddedEntry | envcfg.go:152-165 | a key and a value without surrounding white space, each padded with any white space on either side of the '=', read back as exactly that key and value |
| LineGrammar.TrimAroundSeparator | envcfg.go:152 | trimming a line `k=v` trims only the left of `k` and the right of `v` |
| LineGrammar.ReadSource | envcfg.go:148-171 | `readSource`. It is a plain definition; LineGrammar.ReadLines, LineGrammar.ReadSourceFails, LineGrammar.ReadSourceLastWins, LineGrammar.ReadSourceAppend and LineGrammar.SkippedLinesIrrelevant state what it guarantees |
| LineGrammar.ReadLines | envcfg.go:148-171 | the loop that draws lines from either iterator computes the same result as the reference definition, and returns at the first malformed line |
| LineGrammar.AccumulateErrorSticks | envcfg.go:160-161 | once a read has failed, further lines do not change the error |
| LineGrammar.AccumulateFails | envcfg.go:159-162 | over classified lines: the read fails exactly when one is malformed, with the first malformed line's text |
| LineGrammar.ReadSourceFails | envcfg.go:159-162 | a read fails exactly when some line is malformed, and the error names the trimmed text of the first such line |
| LineGrammar.AccumulateKeys | envcfg.go:164-167 | over classified lines: a key is in the mapping exactly when some entry has that key |
| LineGrammar.AccumulateLastWins | envcfg.go:164-167 | over classified lines: every key is mapped to the value of its last entry, with no later entry for that key |
| LineGrammar.ReadSourceLastWins | envcfg.go:164-167 | after a successful read, a key is in the mapping exactly when some line defines it, and its value is that of the last line defining it |
| LineGrammar.SignificantKeeps | envcfg.go:154-157 | the filter that drops blank and comment lines keeps every other line exactly as often as it occurs, and nothing else |
| LineGrammar.SignificantAppend | envcfg.go:154-157 | the filter keeps the surviving lines in their order: filtering `a + b` is filtering `a`, then `b` |
| LineGrammar.SkippedLinesIrrelevant | envcfg.go:154-157 | removing blank and comment lines leaves the result of a read, mapping or error, unchanged |
| LineGrammar.AccumulateAppend | envcfg.go:148-171 | over classified lines: reading `a + b` combines the two reads |
| LineGrammar.ReadSourceAppend | envcfg.go:148-171 | reading `a + b` fails with a's error if a fails, else with b's; otherwise it yields a's mapping overridden by b's |
| Schema.Collect | envcfg.go:195-221 | the field walk of `parseStruct` at any nesting depth. It is a plain definition; Schema.CollectMember, Schema.CollectPrefix, Schema.CollectOrdered, Schema.CollectFlat and Schema.CollectAppend state what it guarantees |
| Schema.ParseStruct | envcfg.go:191-222 | `parseStruct` on the target struct. It is a plain definition; Schema.ParseStructMembers and Schema.ParseStructOrdered state what it guarantees |
| Schema.CollectMember | envcfg.go:191-222 | a descriptor is collected at any nesting depth exactly when its path resolves within that struct |
| Schema.ParseStructMembers | envcfg.go:191-222 | a descriptor is produced exactly when its path leads through exported fields and nested structs to an exported leaf with a non-empty tag, keyed by that tag, with that leaf's kind |
| Schema.CollectPrefix | envcfg.go:195-221 | every descriptor of a struct lies under that struct's path, within its field range |
| Schema.CollectOrdered | envcfg.go:195-221 | descriptors come out in declaration order at any nesting depth |
| Schema.ParseStructOrdered | envcfg.go:195-221 | descriptors come out in declaration order of their paths, so no two share a path |
| Schema.CollectFlat | envcfg.go:195-218 | a struct of exported, tagged, non-struct fields yields one descriptor per field, in order, keyed by its tag |
| Schema.CollectBindingsAnywhere | envcfg.go:204-206 | the keys and kinds a struct contributes do not depend on where it is nested |
| Schema.CollectAppend | envcfg.go:195-219 | collecting two field lists in a row is collecting each in turn, with indices continuing |
| Schema.SplitAtStruct | envcfg.go:204-206 | a struct's descriptors are those before a nested struct, then the nested struct's, then those after |
| Schema.SplitInlined | envcfg.go:195-219 | collecting a struct whose fields are three consecutive lists splits into three collections |
| Schema.FlattenNested | envcfg.go:204-206 | replacing an exported struct-typed field by its own fields leaves the key/kind bindings unchanged: nested leaves bind exactly like top-level ones |
| Strconv.ParseBool | envcfg.go:116 | `strconv.ParseBool`. It is a plain definition; Strconv.ParseBoolSpec states what it guarantees |
| Strconv.ParseBoolSpec | envcfg.go:115-120 | a bool field accepts exactly the twelve strconv spellings and is true exactly for the six true ones; other text is a ParseBool syntax error; the formatted form reads back |
| Strconv.ParseBoolIsNotCaseInsensitive | envcfg.go:116 | three examples of text outside the twelve spellings, two of them mixed case, that are all rejected: "tRUE", "FaLsE" and "yes" |
| Strconv.ScanDigitsSpec | envcfg.go:128 | the digit loop succeeds exactly on digit strings of value below 2^64 and yields their value; an all-digit string that is too large overflows |
| Strconv.ParseUint | envcfg.go:128 | `strconv.ParseUint(value, 10, 64)`. It is a plain definition; Strconv.ParseUintSpec and Strconv.ParseFormatUint state what it guarantees |
| Strconv.ParseInt | envcfg.go:122 | `strconv.ParseInt(value, 10, 64)`. It is a plain definition; Strconv.ParseIntSpec and Strconv.ParseFormatInt state what it guarantees |
| Strconv.ParseUintSpec | envcfg.go:127-132 | ParseUint accepts exactly non-empty digit strings up to 2^64 - 1 and yields their value; too large is a range error; every error names ParseUint and the input |
| Strconv.ParseIntSpec | envcfg.go:121-126 | ParseInt accepts exactly an optional sign and at least one digit whose signed value fits in int64, and yields that value; out of range is a range error; every error names ParseInt and the input |
| Strconv.ParseUintScanOrder | envcfg.go:128 | errors come in scan order: leading digits that already exceed 2^64 - 1 give a range error whatever follows, and a non-digit reached while the value still fits gives a syntax error whatever follows |
| Strconv.ParseIntScanOrder | envcfg.go:122 | the same scan order over the text after the sign, with errors naming ParseInt and the whole input |
| Strconv.FormatUintDigits | envcfg.go:128 | formatting yields a non-empty digit string denoting the number |
| Strconv.ParseFormatUint | envcfg.go:128 | every uint64 round-trips through formatting and ParseUint |
| Strconv.ParseFormatInt | envcfg.go:122 | every int64 round-trips through formatting and ParseInt |
| Coercion.WrapInt | envcfg.go:126 | the two's-complement truncation `reflect.Value.SetInt` applies when an int64 is stored into a signed field of width w. It is a plain definition; Coercion.WrapIntSpec states what it guarantees |
| Coercion.WrapUint | envcfg.go:132 | the truncation to the low w bits `reflect.Value.SetUint` applies when a uint64 is stored into an unsigned field. It is a plain definition; Coercion.WrapUintSpec states what it guarantees |
| Coercion.WrapIntSpec | envcfg.go:126 | storing into a signed field of width w yields a value in range, congruent to the input modulo 2^w, and unchanged when already in range |
| Coercion.WrapUintSpec | envcfg.go:132 | the same for unsigned fields |
| Coercion.SetValue | envcfg.go:111-146 | `setValue`: the value a field of the given kind receives from a text, or the error. It is a plain definition; Coercion.SetValueCases, Coercion.SetValueErrors, Coercion.SetValueHolds, Coercion.SetValueWide and Coercion.SetValueRender state what it guarantees |
| Coercion.SetValueHolds | envcfg.go:111-146 | a successful conversion yields a value the field's kind can hold |
| Coercion.SetValueCases | envcfg.go:111-146 | per kind, which texts convert and to what: bool by the twelve spellings, integers by decimal syntax and 64-bit range then truncation, float as the float parser says, string verbatim, other kinds never |
| Coercion.SetValueErrors | envcfg.go:111-146 | a conversion fails only with a strconv error naming its parser and the text, or as unsupported exactly for unsupported kinds |
| Coercion.SetValueWide | envcfg.go:121-132 | int/int64 and uint/uint64 fields receive the parsed value unchanged |
| Coercion.SetValueRender | envcfg.go:111-146 | every value a non-float field can hold converts back from its formatted text |
| Coercion.WrapsInt8Above | envcfg.go:121-126 | "300" sets an int8 field to 44 |
| Coercion.WrapsInt8Below | envcfg.go:121-126 | "-129" sets an int8 field to 127 |
| Coercion.WrapsUint8 | envcfg.go:127-132 | "256" sets a uint8 field to 0 |
| Binding.Bind | envcfg.go:179-188 | the descriptor walk of `loadFromSource`. It is a plain definition; Binding.BindFrame, Binding.BindSucceeds, Binding.BindApplies, Binding.BindFails and Binding.BindFailureUntouched state what it guarantees |
| Binding.LoadFromSource | envcfg.go:173-189 | `loadFromSource`: read the source, then walk the descriptors. It is a plain definition; Binding.MalformedSourceChangesNothing, Binding.UnmentionedKeysChangeNothing and Loader.LoadFromSourceNotInvalid state what it guarantees |
| Binding.BindFrame | envcfg.go:179-186 | a field no descriptor designates is never written |
| Binding.BindSucceeds | envcfg.go:179-188 | the descriptor walk succeeds exactly when every descriptor whose key is present converts its text |
| Binding.BindApplies | envcfg.go:179-186 | after a successful walk, each descriptor with a present key holds the value converted from that key's text (descriptors sharing a key all do), and the others keep their values |
| Binding.BindSharedKey | envcfg.go:179-186 | two descriptors sharing a key and kind both receive the same value |
| Binding.BindFails | envcfg.go:181-184 | the walk fails exactly when some descriptor is the first not to convert; it reports that error, having written exactly what the earlier descriptors write |
| Binding.BindFailureUntouched | envcfg.go:181-184 | when the walk fails at a descriptor, that descriptor and all later ones are left untouched |
| Binding.AbsentKeyKeepsValue | envcfg.go:180 | a field whose key is absent keeps its value, whether or not the walk succeeds |
| Binding.NothingPresent | envcfg.go:180 | with no key present the walk changes nothing and succeeds |
| Binding.MalformedSourceChangesNothing | envcfg.go:174-177 | a source with a malformed line changes no field, even when other lines are well formed, and reports a malformed-line error |
| Binding.UnmentionedKeysChangeNothing | envcfg.go:173-189 | a source that defines none of the descriptors' keys changes nothing |
| Loader.LoadFromFile | envcfg.go:99-109 | the file pass: `loadFromFile` together with `LoadFile`'s rule at envcfg.go:239-244 that an error is dropped when the file does not exist. `Missing` leaves the store unchanged with no failure, whereas Go's `loadFromFile` itself returns the open error that `LoadFile` then drops. `Unreadable(m)` leaves the store unchanged and fails with `FileError(m)`. `Contents(lines)` is `LoadFromSource` over the lines. It is a plain definition; Loader.MissingFileIsEmpty, Loader.UnreadableFileStops, Loader.FileFailureIgnoresEnv and Loader.MalformedFileChangesNothing state what it guarantees |
| Loader.LoadFile | envcfg.go:226-253 | `LoadFile`: validate the target, run the file pass, then the environment pass. It is a plain definition; Loader.InvalidTargetRejected, Loader.MissingFileIsEmpty, Loader.UnreadableFileStops, Loader.FileFailureIgnoresEnv, Loader.MalformedFileChangesNothing, Loader.LoadFilePrecedence and Loader.LoadFileConverts state what it guarantees |
| Loader.InvalidTargetRejected | envcfg.go:229-232 | the call fails with the invalid-target error and an unchanged store exactly when the target is not a non-nil pointer to a struct |
| Loader.LoadFromSourceNotInvalid | envcfg.go:173-189 | a pass over a source never reports an invalid target |
| Loader.MissingFileIsEmpty | envcfg.go:237-244 | a missing file behaves exactly like an empty one |
| Loader.UnreadableFileStops | envcfg.go:238-243 | a file that exists but cannot be opened ends the call with that error and an unchanged store |
| Loader.FileFailureIgnoresEnv | envcfg.go:238-243 | when the file pass fails, the environment makes no difference and the call fails |
| Loader.MalformedFileChangesNothing | envcfg.go:238-243 | a malformed line in the file fails the call and leaves every field as it was |
| Loader.LoadFilePrecedence | envcfg.go:234-252 | after a successful call, both sources read; every key a descriptor reads from either source held text that converts; each bound field holds the value converted from its environment text if the environment defines its key, else from its file text if the file does, else its prior value; no other field is written |
| Loader.LoadFileConverts | envcfg.go:181-184 | after a successful call, no descriptor's key is present in the file or the environment with text that fails to convert, since either pass stops at the first such text |
| Scenarios.CfgDescriptors | envcfg_test.go:11-17 | the test struct yields its five tags in declaration order |
| Scenarios.FileTextReads | envcfg_test.go:32-37 | the test file reads to four entries; the padded one is trimmed and the commented-out float is skipped |
| Scenarios.EnvTextReads | envcfg_test.go:21-27 | the test environment reads to its five entries |
| Scenarios.FieldVisibility | envcfg_test.go:57-77 | only the exported field with a non-empty tag is loaded |
| Scenarios.OverrideFromEnv | envcfg_test.go:79-96 | with no file, every field takes its environment value |
| Scenarios.OverrideFromFile | envcfg_test.go:98-118 | the file's values replace the zero values, and the float stays zero |
| Scenarios.OverrideAll | envcfg_test.go:120-143 | with both sources defining every key, the environment wins |
| Scenarios.NestedStruct | envcfg_test.go:145-170 | a nested struct's tagged field is loaded at its nested path |

## Left out

- `Load` (envcfg.go:257-265): it only joins the working directory with `.env`
  and calls `LoadFile`. Getting the working directory is an OS call.
- `os.Open`, `os.Stat`, `file.Close` and `os.Environ` are OS calls. The file
  is an input datatype: missing, unreadable with a message, or the lines it
  yields. The environment is its sequence of `KEY=value` entries.
- Both the open and the stat are read from the file system, and the model
  assumes they agree. A file removed between the two is not modelled: Go
  would then swallow the file pass's error after partial writes.
- `bufio.Scanner` mechanics are not modelled. The file is the sequence of
  lines the scanner hands out. Its 64 KiB token limit and read errors stop
  the scan silently, because `Scanner.Err` is never checked, so such a file
  looks like its readable prefix.
- `reflect` itself is not modelled. Kinds, `PkgPath`, `Tag.Get` and settable
  values become the schema tree and a store keyed by field path.
- `strconv.ParseFloat` and `SetFloat`'s rounding to float32 are floating
  point. The float parser is a caller-supplied function, and float values are
  reals.
- Strings are sequences of Unicode code points. Invalid UTF-8 and byte-level
  behaviour are not modelled. White space is that of Go's `unicode.IsSpace`.
- `int` and `uint` fields are taken to be 64 bits wide.
- Error values keep the parts the code decides on: which error, and the text
  it carries. The exact message wording of `fmt.Errorf` is not modelled.
- `Coercion.SetValueErrors`, `Loader.InvalidTargetRejected`,
  `Loader.LoadFromSourceNotInvalid`: they assume the float parser fails only with a `ParseFloat` syntax or range
  error, as `strconv.ParseFloat` does.
- `Coercion.SetValueRender`: float fields are excluded, because float
  formatting and parsing are not modelled.
- `Scenarios.OverrideFromEnv`, `Scenarios.OverrideAll`,
  `Scenarios.FieldVisibility`, `Scenarios.NestedStruct`: the environment is
  the five entries the tests set and nothing else, and where a test calls
  `Load` the working directory's `.env` is taken to be missing. The first two
  also assume the float parser reads "16.5" as 16.5.
- `Scenarios.OverrideFromFile`: the environment is empty, as the earlier
  tests leave it by clearing it on exit; the test itself never sets it.
- The test helpers that write temporary files and change the real
  environment (envcfg_test.go:19-55) are not modelled.
