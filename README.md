# UPS watcher: the status-to-metrics pipeline, in Dafny

The UPS watcher polls `apcaccess status`. It turns the text dump into a
key/value map and normalises the watched fields into numbers. It then
forwards the numeric ones to a metrics sink. This project models the three
steps of that pipeline as methods of a class `UpsWatcher`, each proved
against a specification function. It also proves the properties the
pipeline promises about those functions:

- **Snapshot parser** (`apcaccess_output_to_dict`).
  - The text is split on every newline. Each line is split on every colon.
  - A line is kept only when that gives exactly two parts, so it holds exactly one colon.
  - Both halves are stripped of whitespace, and a later line for the same key overwrites an earlier one.
  - The parser never fails.
- **Value normaliser** (`process_values`).
  - Only watched keys are kept, and the `N/A` sentinel is dropped.
  - Percent and voltage fields keep the number before the first space.
  - A duration field must split on `' '` into exactly two parts, so its value holds exactly one space; `5  Minutes`, with two spaces, is dropped. The number is scaled to seconds by the unit word.
  - Every other watched field is passed through as text.
  - A numeric token that `float` rejects raises, and that makes the whole call fail.
- **Emission filter** (`send_to_datadog`): only numeric values reach the sink, one call per value.

Files:

- `strings.dfy` (module `Strings`). Python's `str.split(sep)`, `str.strip()` and `str.isspace`, with their laws. Stripping takes a blank set: `StrBlanks` is the whole `isspace` set, used by `str.strip()`; `FloatBlanks` is the set `float` skips around a token, which leaves out the separators U+001C..U+001F. The laws are:
  - split/join round trips;
  - the piece count;
  - the first piece;
  - strip as removal of the two whitespace runs;
  - strip's idempotence.
- `numbers.dfy` (module `Numbers`). Python's `float(token)` on decimal text:
  - surrounding blanks (the `isspace` characters other than U+001C..U+001F, which make `float` raise), a sign, digits with an optional point, and an optional exponent;
  - the token is read as an exact real, and `None` means `float` raises.
- `watcher.dfy` (module `Watcher`).
  - The specification functions: `ParseLine`, `Entries`, `StatusMap`, `Convert`, `Normalized`, `Raises`, `Emits` and `Metrics`.
  - The class `UpsWatcher`, whose methods are proved against them.
- `properties.dfy` (module `WatcherProperties`). The pipeline's properties as lemmas over the specification functions.

Two behaviours of the code shape the model:

- **Colons.** A reading that split a line on its first colon would keep timestamp values such as `DATE`, `STARTTIME` and `END APC`. `main.py:103` splits on every colon, so those lines are dropped. `DateLineDropped`, `StartTimeLineDropped` and `EndApcLineDropped` show this for the sample dump's own lines.
- **Failed numbers.** There is no per-field recovery: the `ValueError` from `float` escapes `process_values` and ends the whole call. `ProcessValues` returns `Err` for it, and `PollOnce` passes that error on.

## Model

| member | source | states |
|---|---|---|
| Strings.Split | main.py:101-103 | Python's `s.split(sep)`, used on newlines and colons here and on spaces at main.py:75 and 79: cut at every separator, always at least one piece; its laws are the `Split*` rows below |
| Strings.SplitCount | main.py:103 | `s.split(sep)` has one more piece than `s` has separators, so a line gives exactly two parts iff it holds one colon |
| Strings.SplitPiecesFree | main.py:103 | no piece of a split holds the separator |
| Strings.JoinSplit | main.py:101 | joining the pieces of `s.split(sep)` with `sep` gives `s` back: splitting loses no text |
| Strings.SplitJoin | main.py:101 | splitting the join of separator-free pieces gives the pieces back |
| Strings.SplitNoSeparator | main.py:101 | a text without the separator is a single piece (a one-line dump is one line) |
| Strings.SplitAfterPrefix | main.py:101 | a separator-free prefix followed by the separator becomes the first piece and the rest splits on its own |
| Strings.SplitTwo | main.py:79-80 | `a + sep + b` with separator-free `a`, `b` splits into exactly `[a, b]` |
| Strings.SplitFirst | main.py:75 | `s.split(sep)[0]` is a prefix of `s` that reaches the first separator or the end |
| Strings.FirstPieceUnique | main.py:75 | the first piece is the unique separator-free prefix ending at a separator or at the end |
| Strings.Strip | main.py:107 | with the default `StrBlanks`, Python's `str.strip()`, removing the `str.isspace` characters from both ends; with `FloatBlanks`, the blanks `float` skips at main.py:75; its laws, stated for either set, are the `Strip*` rows below |
| Strings.TrimLeftSpec | main.py:107 | `lstrip` removes exactly the leading whitespace run and leaves a non-space first character |
| Strings.TrimRightSpec | main.py:107 | `rstrip` removes exactly the trailing whitespace run and leaves a non-space last character |
| Strings.StripSpec | main.py:107 | `strip` yields the infix of `s` between its leading and trailing whitespace runs, with non-space ends |
| Strings.StripUnique | main.py:107 | any infix framed by whitespace runs with non-space ends is the stripped form |
| Strings.StripNoPadding | main.py:107 | a text without whitespace at either end strips to itself |
| Strings.StripIdempotent | main.py:107 | stripping twice equals stripping once |
| Strings.StripPadded | main.py:107 | whitespace added around a text does not change its stripped form |
| Strings.StrippedKeeps | main.py:107 | a character outside the blank set survives stripping, at its own place in the result |
| Numbers.ParseFloat | main.py:75-90 | `float(token)` on decimal text, as an exact real, after stripping only the blanks `float` skips; `None` where `float` raises |
| Numbers.ParseNatRoundTrip | main.py:75 | `float(str(n)) == n` for every natural number `n` |
| Numbers.DigitsParse | main.py:75 | a non-empty run of digits reads as its decimal value |
| Numbers.ParseFixedPoint | main.py:75 | `W.F` reads as `W + F / 10^len(F)` (for example `157.2` as `157 + 2/10`) |
| Numbers.ParseFloatPadded | main.py:75 | blanks that `float` skips, placed around a token, do not change what it reads |
| Numbers.ParseFloatAlphabet | main.py:75 | a token `float` accepts holds, once stripped, only digits, `.`, signs and `e`/`E`; so a unit word such as `Percent` makes it raise |
| Numbers.ParseFloatBlank | main.py:75 | an empty token, or one made only of `isspace` characters, makes `float` raise |
| Numbers.ParseFloatSeparator | main.py:75 | a token holding any of U+001C..U+001F makes `float` raise, wherever the character sits, even at either end where `str.strip()` would remove it |
| Watcher.ParseLine | main.py:102-107 | one line of the dump: the stripped key and value when `line.split(':')` gives two parts, nothing otherwise |
| Watcher.Entries | main.py:100-108 | the map built from the lines in order, a later line overwriting an earlier key |
| Watcher.StatusMap | main.py:99-110 | `apcaccess_output_to_dict`: `Entries` of the dump split on newlines |
| Watcher.Multiplier | main.py:83-90 | seconds per duration unit word, never less than one |
| Watcher.Convert | main.py:72-92 | the decision table for one watched field; only a number or duration field can raise, and a text result is the raw value of a field of neither kind |
| Watcher.Raises | main.py:75-90 | some watched value makes `float` raise, so `process_values` raises |
| Watcher.Normalized | main.py:66-96 | every output key is an input key on the watch list, and its input value is not `N/A` |
| Watcher.Metrics | main.py:59-61 | a name is selected iff its normalised value is numeric |
| Watcher.UpsWatcher.constructor | main.py:44-45 | the watch list is the configured one and never changes afterwards |
| Watcher.UpsWatcher.OutputToDict | main.py:99-110 | the loop over the lines builds exactly `StatusMap(output)`, for every text (no precondition, never fails) |
| Watcher.UpsWatcher.ProcessValues | main.py:66-96 | it raises iff some watched value makes `float` raise, reporting that value's token; otherwise it returns exactly `Normalized(values, watchlist)` |
| Watcher.UpsWatcher.SendToDatadog | main.py:58-61 | the sink receives each numeric entry once, with its number, and no text entry |
| Watcher.UpsWatcher.PollOnce | main.py:48-54 | one poll cycle fails iff the parsed dump raises in normalisation, with the token of a watched value that raises; otherwise it emits exactly the numeric part of the normalised dump |
| WatcherProperties.ParseLineOneColon | main.py:101-105 | a line is accepted iff it holds exactly one colon |
| WatcherProperties.ParseLineHalves | main.py:103-107 | `key:value` without further colons stores `(strip(key), strip(value))` |
| WatcherProperties.ParseLineColonInValue | main.py:103-105 | a value holding a colon makes its whole line drop out |
| WatcherProperties.ParseLineTwoColons | main.py:103-105 | a line with colons at two positions is dropped |
| WatcherProperties.DateLineDropped | main.py:13 | the sample `DATE` line is dropped (its timestamp holds colons) |
| WatcherProperties.StartTimeLineDropped | main.py:20 | the sample `STARTTIME` line is dropped |
| WatcherProperties.EndApcLineDropped | main.py:39 | the sample `END APC` footer line is dropped |
| WatcherProperties.ParseLineStripped | main.py:107 | an accepted line's key and value are stripped and colon-free |
| WatcherProperties.EntriesLastWins | main.py:108 | a stored value comes from the last accepted line for its key; later lines never define that key |
| WatcherProperties.EntriesHasDefined | main.py:101-108 | a key that some accepted line defines is in the map |
| WatcherProperties.EntriesKeys | main.py:101-108 | a key is in the map iff some accepted line defines it |
| WatcherProperties.EntriesStripped | main.py:107-108 | every stored key and value is stripped and colon-free |
| WatcherProperties.RenderTwice | main.py:101-108 | two lines `KEY : A` and `KEY : B` leave `KEY` mapped to `B` alone |
| WatcherProperties.SampleDuplicateKey | main.py:108 | the dump `A : 1` then `A : 2` parses to `{A: 2}` |
| WatcherProperties.RenderLine | main.py:103-107 | the line `KEY : VALUE` is accepted and gives back `KEY` and `VALUE` |
| WatcherProperties.RenderRoundTrip | main.py:99-110 | a one-line dump `KEY : VALUE` parses to the map holding only that entry |
| WatcherProperties.PlainNumberReading | main.py:74-77 | a percent or voltage field reads the word before the first space as a number, or raises with that word |
| WatcherProperties.DurationReading | main.py:78-90 | a duration `<number> <unit>` becomes the number times the unit's seconds, or raises with the number word |
| WatcherProperties.DurationMalformed | main.py:79-81 | a duration without exactly one space is dropped, not raised |
| WatcherProperties.UnitSeconds | main.py:83-90 | Days is 86400 seconds, Hours 3600, Minutes 60, any other word 1 |
| WatcherProperties.PassThroughVerbatim | main.py:91-92 | any other watched field keeps its raw text |
| WatcherProperties.NotApplicableDropped | main.py:72-73 | an `N/A` value never reaches the output, whatever the key |
| WatcherProperties.UnwatchedDropped | main.py:69-70 | an unwatched key never reaches the output, whatever its value |
| WatcherProperties.UnwatchedSame | main.py:69-70 | removing an unwatched key changes neither the result nor whether the call raises |
| WatcherProperties.ReadNinetyNine | main.py:23 | `float("99.0")` is 99 |
| WatcherProperties.SampleCharge | main.py:23 | `99.0 Percent` in a percent or voltage field reads as 99 |
| WatcherProperties.ReadRunTime | main.py:24 | `float("157.2")` is 157.2 |
| WatcherProperties.SampleTimeLeft | main.py:24 | `157.2 Minutes` in any duration field is 9432 seconds |
| WatcherProperties.SampleSeparatorCharge | main.py:75 | `5\x1c Percent` in a percent or voltage field raises with the token `5\x1c`: the separator stays in the token and `float` rejects it |
| WatcherProperties.SampleWatched | main.py:22-24 | the sample's status, charge, run time and an `N/A` field normalise to text, 99, 9432 and nothing, without raising |
| WatcherProperties.NormalizedInsert | main.py:66-96 | adding an unseen field to the dump adds its outcome to the result when it is watched and kept, and otherwise leaves the result alone |
| WatcherProperties.RaisesInsert | main.py:75-90 | adding an unseen field makes the call raise iff the field, being watched, raises, or the call raised already |
| WatcherProperties.SampleMetrics | main.py:21-33 | with `STATUS`, `BCHARGE`, `TIMELEFT`, an `N/A` field and `MODEL` all watched, the call does not raise, normalises to `{STATUS: "ONLINE", BCHARGE: 99, TIMELEFT: 9432, MODEL: "Smart-UPS_1500"}`, and emits exactly `{BCHARGE: 99.0, TIMELEFT: 9432.0}`, for any field names of those kinds |
| WatcherProperties.ZeroDuration | main.py:78-90 | a duration whose number is a run of zero digits is 0 seconds, whatever the unit word |
| WatcherProperties.SampleZeroDuration | main.py:27 | `0 Seconds` in any duration field is 0 seconds |
| WatcherProperties.SampleBareDuration | main.py:79-81 | a duration with no unit word (`30`) is dropped |
| WatcherProperties.DistinctNames | main.py:59 | distinct entry names means one name per emitted entry |
| WatcherProperties.EmitsMetrics | main.py:59-61 | what the sink receives is exactly the numeric part of the normalised map: same names, same count, same numbers |

## Left out

- Running `apcaccess status`, UTF-8 decoding of its output, the endless polling loop and the 30-second sleep (main.py:48-56): process I/O and timing. `PollOnce` takes the dump text as a parameter and models one cycle.
- `datadog.initialize`, `datadog.statsd.histogram` and the `print` calls (main.py:46, 63-64): foreign library calls and console output. The sink is modelled as the sequence of (name, number) pairs handed to it.
- Loading the configuration with `yaml` and `dacite` (main.py:113-118). `config_context.py` is not part of this model: it holds plain data classes. The watch list is a constructor argument.
- IEEE 754 binary floating point. Numbers are exact reals, so `157.2 Minutes` is exactly 9432 seconds (`SampleTimeLeft`), and rounding is not modelled.
- Numbers.ParseFloat: the `inf`, `nan` and `infinity` spellings, underscores between digits, and non-ASCII digits are treated as tokens `float` rejects. Python accepts them.
- Parsing the whole sample dump at main.py:11-40 as one text. The worked examples start from single lines (`DateLineDropped`, `SampleDuplicateKey`) or from the parsed map of five of its fields (`SampleMetrics`).
- Python's dict insertion order: maps stand for dicts. The order in which the sink receives the numeric entries is not pinned down.
- Watcher.UpsWatcher.ProcessValues: when several watched values make `float` raise, which one raises first depends on dict order. The contract only says the reported token belongs to one of them.
- Watcher.UpsWatcher.SendToDatadog: the `type(...) in (int, float)` test becomes "the value is `Num`". `process_values` produces only floats and strings, so no `int` value reaches it.
