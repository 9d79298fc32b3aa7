# Cassandra compaction-log parser, modelled in Dafny

This project models the core of a parser for Cassandra debug logs. The parser
reads the lines announcing that a compaction task started (`Compacting (...)
[...]`) and finished (`Compacted (...) ... sstables to [...]`). It
correlates them by task identifier into one `CompactionTask` record per task.

The model covers these parts of the parser:

- **SSTable paths.** `parse_sstable_path` splits an SSTable path into a
  keyspace and a table. `parse_sstable_name` splits it into an SSTable name
  and an optional level. This includes the regular expression
  `^(.*?)(?::level=(\d+))?$` applied to the last path component
  (`SSTablePath`).
- **Events.** Building the start and end events from the groups the two line
  patterns capture (`Events`). This covers splitting the bracketed SSTable
  lists on `", "`, the keyspace/table consistency pass over the inputs, and
  the SSTable name → level dictionaries. It also covers `int()`/`float()` on
  the numeric groups and every error that ends the run.
- **The record** (`CompactionTasks`). The class defaults for the unit
  fields, and the never-written `children` list.
- **Correlation** (`Correlator`). The `compactions` dictionary is updated
  line by line. It is modelled as a fold, and as the loop method
  `ProcessLines` with invariants, and the two are proved equal.

Supporting modules:

- `Strings` models Python's `str.split`, `str.join`, `in` on strings, and
  decimal digits.
- `Dicts` models a dictionary built from a sequence, where a later entry
  overwrites an earlier one.
- `Wrappers` and `Errors` give the `Option`/`Result` types and the
  exceptions the core raises.

Every exception in the core ends the whole run: no `try` catches it except
the `FileNotFoundError` around opening a file. So a run yields either the
final dictionary or the first error, in line order.

The model reproduces what the code does. That includes these points, where
the code's behaviour is probably not what was meant:

- **Grouping commas.** Thousands separators are not stripped. `int()` on a
  `[\d,]+` group containing `,` raises (`Events.ParseIntRejectsGrouping`).
- **Partition throughput.** The partition-throughput group is optional in
  the pattern, but `int(None)` raises when it is absent. An end line
  without it therefore ends the run (`Events.BuildEnd`). The TODO at
  tools/parse_compactions.py:149 notes that this case is still to be
  handled.
- **End before start.** An end line for a task not yet started builds a
  record that is never stored. The end fields are lost, and the outcome
  depends on line order (`Correlator.ApplyEnd`, `Correlator.PairOrder`).
- **Malformed paths.** A path with fewer than three components is fatal to
  the run, not just to its line (`Correlator.RejectedStartLine`,
  `Events.BuildEnd`, `Correlator.RunFailure`).
- **Empty segments.** An empty keyspace or table is accepted. For example,
  a table directory starting with `-` gives the table `""`.
- **Dead emptiness checks.** The "empty after split" check in
  `parse_sstable_name` can never fire, because `str.split` always returns
  at least one piece (`Strings.Split`). The same holds for the empty
  `table_parts` check in `parse_sstable_path`. So `parse_sstable_name`
  raises only through `int()` on its level digits. Under the model's
  reading of `int()` that never happens (see `SSTablePath.ParseSSTableName`
  under "Left out").

One further rule is an explicit choice of the code at
tools/parse_compactions.py:39, and the model keeps it. When the first group
of the name regex is empty, as for the component `:level=2`, the name is the
whole component, suffix included (`SSTablePath.NameWithLevel`).

## Model

| member | source | states |
|---|---|---|
| Strings.Split | tools/parse_compactions.py:32-34 | `str.split` with a non-empty separator never returns an empty list, so the `not parts` checks at :22 and :33 cannot fire |
| Strings.SplitJoin | tools/parse_compactions.py:14 | Joining the pieces of `s.split(sep)` with `sep` gives back `s`, so the split loses nothing |
| Strings.FirstPiece | tools/parse_compactions.py:21-25 | `s.split(sep)[0]` is the prefix of `s` before the first `sep`: it does not contain `sep`, and it is all of `s` or is followed by `sep` |
| Strings.FirstPieceBefore | tools/parse_compactions.py:39 | For a separator whose first character does not recur in it, `(base + sep + rest).split(sep)[0]` is `base` whenever `base` does not contain `sep` |
| Strings.SplitLength | tools/parse_compactions.py:14-16 | Splitting on one character gives one more piece than there are occurrences, so `len(parts) < 3` means fewer than two `/` |
| Strings.SplitAppend | tools/parse_compactions.py:14 | Splitting `a + c + b` on `c` is the split of `a` followed by the split of `b` |
| Strings.ContainsAt | tools/parse_compactions.py:42 | `"-Data" in s` holds exactly when `-Data` occurs in `s` at some position |
| Strings.NatToDigits | tools/parse_compactions.py:40 | Every natural number has a non-empty all-digit spelling whose decimal value is that number |
| SSTablePath.ParseSSTablePath | tools/parse_compactions.py:8-25 | A path fails with `InvalidPath(path)` exactly when it has fewer than two `/`; on success the keyspace and table hold no `/`, and the table holds no `-` |
| SSTablePath.TableNameSpec | tools/parse_compactions.py:21-25 | The table is the part of the table directory before its first `-`, or all of it when there is no `-` |
| SSTablePath.TableNameUnique | tools/parse_compactions.py:21-25 | Any `-`-free prefix that is the whole directory name or is followed by `-` is the table name, so the table is unambiguous |
| SSTablePath.PathComponents | tools/parse_compactions.py:14-25 | For any path made of leading directories, then a keyspace, a table directory and a file (none with `/`), decomposition yields that keyspace and the directory's table |
| SSTablePath.DecomposedPathShape | tools/parse_compactions.py:14-25 | Conversely, every path that decomposes has exactly that shape, with the reported keyspace and the table of its directory component |
| SSTablePath.TrailingDigitsStart | tools/parse_compactions.py:36 | Finds where the trailing run of digits begins: everything after that point is digits and the character before it is not a digit |
| SSTablePath.MatchNameLevel | tools/parse_compactions.py:36 | The regex fails exactly when the component still contains a newline once one final newline is set aside; when it matches with a level, the text is `prefix:level=digits`; when it matches without one, no `:level=<digits>` suffix exists at any position |
| SSTablePath.MatchWithLevel | tools/parse_compactions.py:36-38 | For any newline-free prefix, `prefix:level=digits` matches with first group `prefix` and second group `digits` |
| SSTablePath.ParseSSTableName | tools/parse_compactions.py:27-45 | The name is always a prefix of the last `/` component and holds no `/`. A level is reported exactly when the regex matches with a level group, and it is the value of those digits |
| SSTablePath.NameFromLastComponent | tools/parse_compactions.py:32-36 | The name and level depend only on the last `/` component |
| SSTablePath.NameWithLevel | tools/parse_compactions.py:36-40 | A component `prefix:level=digits` yields that level, and as name `prefix` cut at its first `-Data`, or the whole component when `prefix` is empty |
| SSTablePath.NameWithoutLevel | tools/parse_compactions.py:36-45 | A component with no `:level=<digits>` suffix yields no level, and as name the text before its first `-Data` |
| SSTablePath.DataFileName | tools/parse_compactions.py:36-40 | `base-Data<rest>:level=<digits>` is recorded as `base` at the level the digits spell, for every `base` without `-Data` |
| SSTablePath.NameRoundTrip | tools/parse_compactions.py:36-40 | Writing level `n` after an SSTable file and reading it back gives `base` and `n` |
| SSTablePath.NameRoundTripNoLevel | tools/parse_compactions.py:36-43 | `base-Data<rest>` whose last character is not a digit is recorded as `base` with no level |
| SSTablePath.ExampleWithLevel | tools/parse_compactions.py:27-45 | `na-1-big-Data.db:level=2` is SSTable `na-1-big` at level 2 |
| SSTablePath.ExampleWithoutLevel | tools/parse_compactions.py:27-45 | `na-1-big-Data.db` is SSTable `na-1-big` with no level |
| SSTablePath.ExampleNonDigitLevel | tools/parse_compactions.py:36-43 | A non-digit level `:level=x` is no level: the name is `na-1-big` and the level is absent |
| Dicts.DictByKeys | tools/parse_compactions.py:112 | The keys of `dict(...)` over a sequence are exactly the keys of its elements |
| Dicts.DictByLastWins | tools/parse_compactions.py:112 | An element with no later element of the same key decides that key's value |
| Events.ParseInt | tools/parse_compactions.py:141 | `int()` succeeds exactly on non-empty all-digit text and otherwise raises for that text; the field name in the model's `InvalidInteger(field, text)` is the model's addition, since Python's `ValueError` names only the text |
| Events.ParseIntRoundTrip | tools/parse_compactions.py:141 | `int()` reads back the decimal spelling of every natural number |
| Events.ParseIntRejectsGrouping | tools/parse_compactions.py:147 | Any count containing a `,` grouping separator raises instead of being stripped |
| Events.ParseFloat | tools/parse_compactions.py:137 | On success the recorded value is the captured text; on failure the error carries the text; the field name in the model's `InvalidFloat(field, text)` is the model's addition, since Python's `ValueError` names only the text |
| Events.ParseFloatAcceptsDecimal | tools/parse_compactions.py:137 | Digits, a decimal point and more digits convert, with the text as the recorded value, whenever a digit precedes the point |
| Events.ParseFloatRejectsTwoPoints | tools/parse_compactions.py:139 | A `[\d.]+` group with two decimal points raises |
| Events.NameLevelMapKeys | tools/parse_compactions.py:112 | The input dictionary has exactly one key per distinct SSTable name among the listed paths |
| Events.LastPathWins | tools/parse_compactions.py:112 | Of several paths naming one SSTable, the last decides its level |
| Events.CheckLocations | tools/parse_compactions.py:106-109 | Every later input is decomposed and the first malformed one raises; otherwise the mixed flag is set exactly when some input lies outside the first input's keyspace and table |
| Events.LocateInputs | tools/parse_compactions.py:102-109 | Inputs fail exactly when one has fewer than two `/`, with the first such path's error; otherwise this yields the first input's location and whether any later input differs from it |
| Events.BuildStart | tools/parse_compactions.py:92-112 | A start line succeeds exactly when every input path has at least three components. It then carries the timestamp, the id, the first input's keyspace and table, and the name→level map of all inputs; failure reports the first malformed input |
| Events.FirstGroupError | tools/parse_compactions.py:137-153 | Converting the numeric groups in order stops at the first that raises: no error exactly when every group converts, otherwise the error of the first failing group |
| Events.GroupsConvert | tools/parse_compactions.py:137-153 | Every numeric group converts exactly when all the numbers convert and the partition throughput was captured |
| Events.BuildEnd | tools/parse_compactions.py:133-186 | An end line succeeds exactly when every numeric group converts, the partition throughput is present, there is one output, and that output has at least three components. Otherwise the error is, in this order: that of the first group, in the order :137-153 reads them, that does not convert (a missing partition throughput counts as the group after the row throughput); `MultipleOutputs` for several outputs; `InvalidPath` of the single output. On success the event carries the task id and every one of the 19 end fields: the timestamp, the output name mapped to the level from its path, each unit as captured, each float group as its text, and each integer group as the value of its digits |
| Events.ParseLine | tools/parse_compactions.py:92-164 | A line neither pattern matched yields no event and never raises. A start line raises exactly when building its start event raises, with that error, and otherwise yields that event; the same holds for an end line and its end event |
| Events.SingleOutput | tools/parse_compactions.py:158-164 | A list that splits into one piece is the path itself, and its dictionary maps that SSTable's name to its level |
| Events.OutputLevelIgnored | tools/parse_compactions.py:136 | The captured output level has no effect on the end event |
| CompactionTasks.FreshTask | tools/compactiontask.py:27-62 | A new task carries only its id, reads the class defaults "ms", "second" and "second" for the unit fields, and has no children |
| CompactionTasks.AssignedUnitsShadowDefaults | tools/compactiontask.py:27-43 | Once an end line has assigned the three unit fields, reading them gives the assigned values, not the class defaults |
| Correlator.ApplyStart | tools/parse_compactions.py:114-126 | A start event adds its id if absent and overwrites the start fields; the end fields of an existing record and every other record are unchanged |
| Correlator.ApplyEnd | tools/parse_compactions.py:166-207 | An end event overwrites the end fields of an existing record and keeps its start fields; for an unknown id the dictionary is unchanged |
| Correlator.Apply | tools/parse_compactions.py:114-207 | Only a start event adds a record, namely its own id; an ignored line changes nothing; an event leaves every other task's record unchanged |
| Correlator.RunFrom | tools/parse_compactions.py:87-207 | Processing lines never removes a record: a successful run keeps every id it began with |
| Correlator.Run | tools/parse_compactions.py:84-207 | A successful run from the empty dictionary holds a record for exactly the ids of the start lines |
| Correlator.ApplyPreservesValid | tools/parse_compactions.py:114-207 | Every record stays filed under its own id, with empty `children` and start fields present |
| Correlator.RunFailure | tools/parse_compactions.py:87-160 | A run fails exactly when some line's event raises, and then with the error of the first such line |
| Correlator.RunPreservesValid | tools/parse_compactions.py:84-207 | A run never removes a record and keeps every record well shaped |
| Correlator.RunKeys | tools/parse_compactions.py:114-207 | A successful run holds records for exactly the started ids plus those it began with; end lines never add one |
| Correlator.RunConcat | tools/parse_compactions.py:87-90 | Processing two log files one after the other is running the second from the dictionary the first produced, or the first's error |
| Correlator.StartThenEnd | tools/parse_compactions.py:114-186 | A start then an end for one task leave the record with both groups of fields |
| Correlator.EndThenStart | tools/parse_compactions.py:166-207 | An end then a start for an unseen task leave a record with start fields only: the end is lost |
| Correlator.StartTwice | tools/parse_compactions.py:114-119 | A second start replaces the start fields and keeps the end fields and the key set |
| Correlator.PairOrder | tools/parse_compactions.py:114-207 | In a run of their own, a start line then an end line give the complete record; in the reverse order they give a start-only record |
| Correlator.RejectedEndLine | tools/parse_compactions.py:149-160 | An end line with several outputs or without partition throughput ends the run with an error wherever it appears |
| Correlator.RejectedStartLine | tools/parse_compactions.py:98-109 | A start line with an input path of fewer than three components ends the run with an error wherever it appears |
| Correlator.ProcessLines | tools/parse_compactions.py:84-207 | The in-place loop computes the same result as the fold. On success its keys are exactly the started ids, and every record is filed under its id with start fields and no children |

## Left out

- The two line patterns (tools/parse_compactions.py:54-81) are left out.
  Each line arrives already classified, as a `LogLine` holding the strings
  the groups captured. A line that both patterns would match is a
  `StartLine`, mirroring the `continue` at :128.
- Argument parsing, opening and reading files, and the `FileNotFoundError`
  handler are I/O and are left out. The lines of all files form one
  sequence (`Correlator.RunConcat`).
- The mixed keyspace/table warning `print` is left out. It is kept only as
  the `mixedLocation` flag of a start event.
- Events.ParseFloat: floating-point values are not modelled. The recorded
  value is the accepted text. The accepted set is: digits and dots only, at
  least one digit, at most one dot. `\d` and `float()` also accept non-ASCII
  Unicode decimal digits, which the model does not.
- Events.ParseInt: `\d` and `int()` accept every Unicode decimal digit, but
  the model accepts ASCII `0`-`9` only. The model also does not have the
  interpreter's limit on the length of an integer string. Recent CPython
  releases make `int()` raise on more than 4300 digits by default, and
  older ones have no limit. The model converts any all-digit text.
- SSTablePath.MatchNameLevel: `\d` in the name regex matches ASCII digits
  only in the model.
- SSTablePath.ParseSSTableName: a level longer than the interpreter's
  integer-string limit would make `int()` at :40 raise. The model returns
  its value instead.
- The distinction between `ValueError` and `TypeError` is dropped. Each
  failure is one `Error` constructor, since either kind ends the run the
  same way.
- The `children` list is shared at class level in the source. The model
  gives each record its own empty list, because nothing ever appends to it.
- Python dictionaries keep insertion order, and a repeated key keeps its
  first position. Dafny maps have no order, so the order of `compactions`,
  `input_sstables` and `output_sstables` is not modelled. Nothing in the
  parser iterates over these dictionaries.
- Fields declared only by annotation are absent from an instance until
  assigned. This is modelled by the optional start and end field groups,
  since each event assigns its whole group.
