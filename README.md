# rextractor extraction pass, modelled in Dafny

`rextractor` reads a text file line by line. For every configured field it tries
that field's regular expressions in order. The first pattern that finds a match
supplies capture group 1 as the field's value. One `;`-separated row per line goes
to the primary output. Every line with a blank value is also copied to a second
"not found" output.

This project models the part of `App.call` that does the work: building the
table from field name to compiled patterns, writing the header row, choosing
each field's value, and assembling the two output texts. It has three modules:

- `Wrappers` (`wrappers.dfy`): `Option` and `Result`.
- `Text` (`text.dfy`) covers the string operations:
  - `JString` is a Java `String` that may be `null`;
  - `Render` is what `StringBuilder.append` writes for such a string;
  - `IsBlank` is `StringUtils.isBlank`, with `Character.isWhitespace` written out;
  - `Join` joins with the `;` separator, and `Split` is a reference reader of a joined line.
- `App` (`app.dfy`) holds the pass itself. Each loop of the source is a method
  proved equal to a specification function:
  - `BuildExtractors` equals `Compile`;
  - `HeaderLine` equals `Join`;
  - `ExtractField` equals `FieldValue`;
  - `BuildRow` equals `RowValues` through `JoinedRow`;
  - `ExtractLines` equals `Process`;
  - `Call` equals `Run`.

  Lemmas state the behaviour of those functions.

The regular-expression engine is a parameter, `Engine(compile, find)`:

- `compile(s)` is `None` when `Pattern.compile(s)` throws. Otherwise it is the
  pattern's number of capturing groups.
- `find(p, line)` is `None` when `find()` is false. Otherwise it is what
  `group(1)` returns, which may be `Null`.

The two exceptions the pass can raise are modelled as `Err` results, and both
abort the run before anything is written:

- `InvalidPattern`: a pattern does not compile.
- `NoGroupOne`: `group(1)` is called on a pattern that has no groups.

`HashMap` key-set order is the parameter `headers`. `Call` and `Run` require it
to list every configured key exactly once. They also require the configuration's
field names to be distinct (`DistinctKeys`), as the fields of a parsed JSON object are. The same sequence orders the header
and every row.

Two behaviours of the code are kept as the code has them:

- Column order is the `HashMap`'s key-set order (`App.java:38`, `57`), not the
  order of keys in the configuration file.
- A group 1 that took no part in the match makes `matcher.group(1)` return
  `null` (`App.java:80`). The row then shows the text `null`, but `isBlank(null)`
  is true, so the line is also written to the not-found output (`NullCapture`).

## Model

| member | source | states |
|---|---|---|
| `App.CompileAll` | src/main/java/fr/fasar/regex/extractor/App.java:42-52 | a field's compiled list has one pattern per configured string, in array order, with that string as its source; it fails exactly when some string does not compile, and then reports the first such string |
| `App.Compile` | src/main/java/fr/fasar/regex/extractor/App.java:38-54 | a built table has exactly the configured field names as keys |
| `App.CompileSucceeds` | src/main/java/fr/fasar/regex/extractor/App.java:38-54 | the table is built if and only if every field's patterns all compile |
| `App.CompileKeepsPatterns` | src/main/java/fr/fasar/regex/extractor/App.java:41-52 | each configured field maps to the compiled form of its own pattern strings, one per string, in array order |
| `App.CompileFirstError` | src/main/java/fr/fasar/regex/extractor/App.java:40-51 | a failed build reports the error of the first field, in file order, that holds a rejected pattern |
| `App.BuildExtractors` | src/main/java/fr/fasar/regex/extractor/App.java:38-54 | the while/for loops that fill the map produce exactly `Compile`'s table or its error |
| `App.HeaderLine` | src/main/java/fr/fasar/regex/extractor/App.java:56-66 | the header is the field names joined by `;` with no leading separator, then a newline |
| `Text.SplitJoin` | src/main/java/fr/fasar/regex/extractor/App.java:60-66 | splitting a `;`-join of separator-free names at `;` gives back the names, in order and without loss |
| `App.HeaderReadsBack` | src/main/java/fr/fasar/regex/extractor/App.java:56-66 | when there is at least one field and no name contains `;`, the header line read back at `;` names every configured field exactly once, with no duplicate and nothing else |
| `App.HeaderCount` | src/main/java/fr/fasar/regex/extractor/App.java:56-57 | the header names each distinct configured field exactly once |
| `App.FirstMatchWins` | src/main/java/fr/fasar/regex/extractor/App.java:76-83 | a field's value is group 1 of the first pattern in list order that finds a match; if that pattern has no group 1, the run fails |
| `App.NoMatchIsEmpty` | src/main/java/fr/fasar/regex/extractor/App.java:76-84 | when no pattern of a field finds a match, its value is the empty string |
| `App.LaterPatternsIgnored` | src/main/java/fr/fasar/regex/extractor/App.java:77-82 | patterns after the first match are never consulted: appending patterns does not change the value |
| `App.ExtractField` | src/main/java/fr/fasar/regex/extractor/App.java:76-83 | the pattern loop with its early `break` computes exactly `FieldValue` |
| `App.RowValuesSpec` | src/main/java/fr/fasar/regex/extractor/App.java:71-83 | value i of a row is the value of field `headers[i]`; a row fails exactly when some field fails, and then reports the first failing field |
| `App.BuildRow` | src/main/java/fr/fasar/regex/extractor/App.java:71-88 | the per-field loop builds the values joined by `;` in `headers` order, and its `isFullyExtracted` flag is true exactly when no value is blank |
| `App.LineOutputSpec` | src/main/java/fr/fasar/regex/extractor/App.java:70-93 | a line's row is its field values joined by `;` and newline-terminated; the line goes to the not-found text unchanged, with a newline, if and only if some value is blank (null, empty or whitespace only), and adds nothing otherwise |
| `App.NullCapture` | src/main/java/fr/fasar/regex/extractor/App.java:80-90 | a `null` group 1 is written as `null` in the row, and its line is still reported as not found |
| `App.RowReadsBack` | src/main/java/fr/fasar/regex/extractor/App.java:71-93 | when no value contains `;`, the row ends in a newline and reads back as exactly one piece per field, equal to the rendered values in header order |
| `App.ExtractLines` | src/main/java/fr/fasar/regex/extractor/App.java:69-94 | the loop over lines produces exactly `Process`'s rows and not-found text, or its first error |
| `App.ProcessAppend` | src/main/java/fr/fasar/regex/extractor/App.java:69-94 | no carry-over between lines: the output for `a + b` is the output for `a` followed by the output for `b`, and the first error wins |
| `App.ProcessOne` | src/main/java/fr/fasar/regex/extractor/App.java:69-94 | a single line yields exactly its own row and its own not-found entry |
| `App.Call` | src/main/java/fr/fasar/regex/extractor/App.java:38-94 | the whole pass (build, header, lines) returns exactly `Run`: the header row followed by the rows, plus the not-found text, or the first error |
| `App.RunAppendsLine` | src/main/java/fr/fasar/regex/extractor/App.java:69-94 | at run level, appending an input line appends exactly its row to the primary text and its entry to the not-found text, in input order |
| `App.NoLines` | src/main/java/fr/fasar/regex/extractor/App.java:56-69 | with no input lines the primary text is the header row alone and the not-found text is empty |
| `App.NoFields` | src/main/java/fr/fasar/regex/extractor/App.java:56-94 | with no fields the primary text is one newline plus one newline per input line, and the not-found text is empty |

## Left out

- Configuration loading (`getConfiguration`, `getResource`, `App.java:102-128`): file-existence checks and class-loader lookups. The configuration arrives as a sequence of (field name, pattern strings) entries.
- JSON handling of `extract`: a value that is not an array (the `ArrayNode` cast) and `asText` on non-text elements are not modelled, because each entry's value is already typed as a sequence of strings. `src/main/java/fr/fasar/regex/json/Mapper.java`, a configured Jackson `ObjectMapper`, is not part of this model.
- Repeated keys in the `extract` object: the JSON parser merges them before the pass runs, keeping the last value at the first key's position. That merge is not modelled; the configuration is taken as the already-merged entries, with distinct names.
- Regular-expression semantics: `Pattern.compile` and `Matcher.find` belong to the Java library. They are the `Engine` parameter; only the group count and the group-1 result are observed.
- `HashMap` iteration order: it is the `headers` parameter, any duplicate-free listing of the keys.
- Charset lookup, `FileUtils.readLines`, `FileUtils.write` and the picocli command line (`App.java:36`, `68`, `96-97`, `130-134`) are I/O. The input lines are a parameter and the two output texts are returned.
- The Java `StringBuilder`s are string values. `ExtractLines` builds the rows without the header and `Call` puts the header in front, which gives the same text as appending everything to one builder.
