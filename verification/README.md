# meteograph series extraction, modelled in Dafny

meteograph fetches a met.no location forecast as XML and charts it. Its
`main.py` walks the parsed forecast in document order: every
`<temperature>` and every `<precipitation>` element gets the time window of
its interval marker, which is its grandparent element (`data.parent.parent`)
and carries `from` and `to` in `FORMAT = "%Y-%m-%dT%XZ"`. Each walk appends
one plotly trace to the caller's `trace_data` list: a scatter of (start,
temperature) and a bar chart of (start, precipitation). A helper that is not
called yet, `partition_into_days`, splits a run of timestamps into days at
midnight.

The model has four modules:

- `Wrappers` (wrappers.dfy): `Option` and `Result`. They stand for Python's
  `None` and its raised exceptions.
- `Timestamp` (timestamp.dfy): `DateTime` and `Parse`, a strict fixed-format
  version of `datetime.strptime(text, FORMAT)`. It comes with its inverse
  `Format`. `IsoString` is `str(datetime)`, and `IsMidnight` is the
  day-opening test.
- `Extraction` (extraction.dfy): the readings, the traces, and the
  `TraceData` class holding the `trace_data` list. `GetTemperatures` and
  `GetPrecipitation` are the two loops. Each is proved against a
  specification function (`TemperatureTrace`, `PrecipitationTrace`), and
  lemmas give the properties of those functions.
- `Days` (days.dfy): `PartitionIntoDays`, a loop proved against the
  specification function `DayGroups` (the loop's step applied to each
  timestamp in turn). Lemmas show that these groups form a day partition,
  and that this partition is unique.

Modelling decisions:

- The parsed document enters as the sequence `SOUP.find_all(...)` returns.
  Each `Reading` has its own attributes and, if it exists, the attribute map
  of its grandparent. The global `SOUP` becomes a parameter.
- The raised exceptions become the returned `Error`:
  - `MissingIntervalMarker`: no grandparent (a `TypeError` on `None[...]`).
  - `MissingAttribute(name)`: a `KeyError`.
  - `MalformedTimestamp(text)`: the `ValueError` of `strptime`.
- The checks run in the source's evaluation order: `from`, then `to` for
  precipitation, then `value`. The first failing reading decides the error.
  `trace_data` is never touched on failure.
- A `Trace` keeps only its kind, its name and its two axes.

Precipitation samples are not filtered. A chart might be expected to drop
"0.0" amounts, but `get_precipitation` (main.py:104-111) keeps every sample.
The model follows the code, and `PrecipitationKeepsZero` shows a "0.0"
sample kept. Likewise no series is sorted (main.py:125 is a TODO); they stay
in document order.

## Model

| member | source | states |
|---|---|---|
| `Timestamp.Parse` | main.py:26 | a text accepted under FORMAT denotes a date and time that exists (month 1-12, day within the month, leap years, clock within 23:59:59) |
| `Timestamp.ParseExact` | main.py:26 | `Parse(s)` is `Some(t)` if and only if `t` is valid and `s` is exactly `Format(t)`: the strict parser accepts exactly the canonical texts and returns the time they denote |
| `Timestamp.ParseFormat` | main.py:26 | every valid date-time, written in FORMAT, parses back to itself |
| `Timestamp.FormatParse` | main.py:26 | every accepted text is the FORMAT rendering of what it parses to (no second spelling of a time is accepted) |
| `Timestamp.DigitsValueOfDigits` | main.py:26 | reading a zero-padded `%Y`/`%m`/... field back gives the number written, when it fits the width |
| `Timestamp.DigitsOfDigitsValue` | main.py:26 | rewriting the number a digit field denotes, in the same width, gives the field back |
| `Timestamp.ParseExamples` | main.py:68 | "2023-01-01T00:00:00Z" and "2023-01-01T01:00:00Z" parse to 1 January 2023 at 00:00 and 01:00 |
| `Timestamp.ParseRejects` | main.py:68 | "not-a-date" and the non-existent "2023-02-29T00:00:00Z" are refused |
| `Timestamp.MidnightIsStringTest` | main.py:150 | the source's test `str(time)[11:] == "00:00:00"` holds exactly when hour, minute and second are all 0 |
| `Extraction.TraceData.constructor` | main.py:175 | the `trace_data` list starts empty |
| `Extraction.TraverseOk` | main.py:67-69 | a loop over the readings succeeds if and only if every step succeeds; its result then has one entry per reading, the i-th being the i-th step's result |
| `Extraction.TraverseErr` | main.py:104-111 | a failing loop fails with the error of the first reading whose step fails, every earlier step having succeeded |
| `Extraction.TraverseSnoc` | main.py:67-69 | after steps that all succeeded, one more successful step appends its result at the end of the loop's results |
| `Extraction.TraverseFails` | main.py:67-69 | after steps that all succeeded, a failing step fails the whole loop with its own error, whatever follows |
| `Extraction.TraverseStops` | main.py:67-69 | once the steps up to some reading have failed, the whole loop fails with that same error |
| `Extraction.TemperatureTraceSpec` | main.py:64-69 | the temperature trace exists if and only if every reading has a grandparent with a FORMAT `from` and has a `value`; then it is a scatter whose x and y have one entry per reading, in document order, x[i] the parsed `from` and y[i] the `value` text unchanged |
| `Extraction.TemperatureTraceErr` | main.py:67-69 | a failing temperature extraction reports the error of the first reading that lacks a grandparent, a `from`, a parsable `from` or a `value` |
| `Extraction.PrecipitationListSpec` | main.py:104-111 | `prec_list` exists if and only if every reading has a parsable `from` and `to` and a `value`; then `prec_list[i]` is (from, to, value) of the i-th reading, in document order |
| `Extraction.PrecipitationListErr` | main.py:104-111 | a failing precipitation extraction reports the error of the first reading that fails; a bad `to` fails it too |
| `Extraction.PrecipitationTraceSpec` | main.py:127-129 | the bar exists exactly when `prec_list` does; its x and y are the first and third projections of `prec_list`, of equal length, one per reading, with no sample dropped |
| `Extraction.ScatterTraceSnoc` | main.py:67-69 | one more (start, value) sample puts its start at the end of x and its value at the end of y |
| `Extraction.TemperatureScenario` | main.py:64-85 | one reading "5.2" under the interval from 2023-01-01T00:00:00Z gives the scatter [(2023-01-01 00:00:00, "5.2")] |
| `Extraction.PrecipitationKeepsZero` | main.py:104-129 | precipitation readings "0.0" at 00:00 and "1.5" at 01:00 give a bar with both, the zero included |
| `Extraction.MalformedScenario` | main.py:68 | a `from` of "not-a-date" makes the extraction fail with that text, and no series is returned |
| `Extraction.EmptyScenario` | main.py:64-69 | no readings give empty series and no error |
| `Extraction.GetTemperatures` | main.py:56-87 | on success exactly one trace, the temperature trace, is appended at the end of `trace_data`, earlier entries untouched; on failure the error is returned and `trace_data` is unchanged |
| `Extraction.GetPrecipitation` | main.py:90-137 | on success exactly one trace, the bar of `prec_list`, is appended at the end of `trace_data`; on failure (bad `from`, bad `to`, missing `value` or marker) `trace_data` is unchanged |
| `Days.PartitionIntoDays` | main.py:140-156 | the groups are `DayGroups(result[0])`; flattened they give `result[0]` back; every group after the first is non-empty and opens with a midnight; no midnight sits anywhere but at the head of a group; the first group is empty only for empty input, which gives `[[]]`; there are 1 + (midnights at positions from 1 on) groups |
| `Days.DayGroupsPartition` | main.py:145-154 | the groups the loop builds, starting from `[[]]`, partition the timestamps into days, with one more group than midnights after the first timestamp |
| `Days.ExtendPartition` | main.py:149-154 | one step of the loop (open a new day at a midnight when the current day is non-empty, then append) turns a partition of a run into a partition of the run one longer |
| `Days.StripExtend` | main.py:149-154 | every partition of a non-empty run is that step applied to a partition of the run without its last timestamp |
| `Days.PartitionUnique` | main.py:145-154 | two partitions of the same run are equal, so the contract of `PartitionIntoDays` determines its result |
| `Days.EmptyPartition` | main.py:145 | the only partition of no timestamps is `[[]]` |

## Left out

- Fetching the forecast with `requests.get` and the debug dump to `soup.html`
  (main.py:34-44): network and file I/O.
- BeautifulSoup parsing, `find_all` and parent navigation (main.py:47-53,
  main.py:64, main.py:95). This is a foreign library. The model starts from
  the sequence of readings that `find_all` returns, in document order.
- Plotly styling, the layout, `go.Figure` and `py.offline.plot`
  (main.py:79-85, main.py:127-136, main.py:159-182): rendering. A trace keeps
  only its kind, name, x and y. `plot_with_plotly` itself is not modelled
  beyond its empty `data` list.
- The `PRINT_DEBUG`, `SOUP_DEBUG` and `DRAW_PLOT` flags and their printing
  (main.py:29-31, main.py:61-77, main.py:101-102) only produce output. The
  second `strptime` of `to` at main.py:74 runs only when printing is on, and
  that flag is off, so `GetTemperatures` does not check `to`.
- Timestamp.Parse: stricter than `datetime.strptime`, because the model reads
  only the canonical fixed-format spelling. Texts that `strptime` accepts and
  `Parse` refuses:
  - unpadded fields, such as "2023-1-1T0:0:0Z";
  - a space-padded day, such as "2023-01- 1T00:00:00Z" (the `%d` pattern
    has a `" [1-9]"` branch);
  - a lower-case `t` or `z`, since the format is matched case-insensitively;
  - decimal digits outside ASCII, which `\d` matches and `int()` reads.
  In addition, `%X` depends on the locale; the model uses its C-locale form
  `%H:%M:%S`.
- The location and URL constants (main.py:19-24): configuration only.
- Microseconds and time zones of `datetime`: FORMAT never yields them, so
  `DateTime` has neither. `str(datetime)` is modelled for whole seconds only.
- Days.PartitionIntoDays: `result` must hold at least one sequence, because
  the source indexes `result[0]` and raises `IndexError` otherwise. Only
  `result[0]` is partitioned; the other elements of `result` are unused, as
  in the source.
