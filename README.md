# Worklog report to CalDAV calendar: a Dafny model

`exporter.py` downloads a worklog report (one row per logged unit of time against an
issue) and mirrors it into a CalDAV calendar. This project models the logic between the
download and the network:

- **Report** (`report.dfy`): `parse_csv`. The header row is searched for the five
  required column names (`Start Time`, `Time Spent (s)`, `Worklog Description`,
  `Issue Key`, `Issue Summary`). Each later row then becomes a record that maps each of
  those names to the row's cell under that column. The loops that fill the column index
  and each record are modelled as `while` loops in methods. The input is the report as
  already-split rows.
- **Text** (`text.dfy`): the two string operations the projection uses.
  `splitlines()[0]` is modelled as the text up to its first character from Python's
  set of line-break characters. `int(...)` is modelled for decimal literals.
- **Events** (`events.dfy`): what is saved for one record.
  - The start time is parsed by a parameter that stands in for `strptime`.
  - The end is the start plus the seconds spent.
  - The summary is the first line of the worklog description. It gets an
    `"<key>: "` prefix unless the issue is one of the bucket issues `ALDE-2` and `ALDE-3`.
  - The description is `"<key>: <title>\n\n<worklog description>"`.
  - The steps fail in the source's order: empty description, then start time, then time spent.
- **Sync** (`sync.dfy`): `push_to_caldav`, as the list of operations it issues rather
  than the operations themselves.
  - It picks the first calendar with the requested name.
  - It issues one `Delete` for every event the window search returns.
  - It then issues one `Save` per record, in record order.
  - A record that cannot be projected stops the run. The operations issued before it
    stay in the list, because the source performs them as it goes.

Timestamps are integers (seconds). The calendars the principal owns are an input, and the
window search is a function parameter.

Like the code, the model wipes the window unconditionally on every run. There is no
worklog-id column, no correlation marker in descriptions, no update of an existing event
and no mode that keeps existing events.

## Model

| member | source | states |
|---|---|---|
| `Report.IndexOf` | exporter.py:56 | the position returned holds the name, and no earlier position does (a list's `index`: first occurrence wins) |
| `Report.IndexColumns` | exporter.py:53-56 | succeeds exactly when every required column is named in the header. On success the index maps each required name to its first position. Otherwise the error names the first required column, in lookup order, that is missing |
| `Report.ProjectRow` | exporter.py:61-63 | a record comes back exactly when the row has a cell at every required column's position. It then has exactly the five required keys, and each value is the row's cell at that column's position |
| `Report.ParseCsv` | exporter.py:49-66 | no rows gives `EmptyReport`. A header that lacks a required column gives `MissingColumn` for the first one missing. Success happens exactly when every data row covers every required column, and then there is one record per data row, in row order, each the projection of its row through the header. When the header has every required column, any failure is `ShortRow` naming the first data row that is too short |
| `Report.IndexOfAppend` | exporter.py:56 | appending names to the header does not move the first occurrence of a name already in it |
| `Report.ExtraColumnsIgnored` | exporter.py:55-63 | appending extra columns after the header's columns, and cells after a full row, gives the same record |
| `Text.LineEnd` | exporter.py:107 | the first line break of the text is at the returned position (or there is none); no break comes before it |
| `Text.FirstLine` | exporter.py:107 | absent exactly for the empty text. Otherwise it is a prefix of the text with no line break, followed by a line break or by the end of the text |
| `Text.FirstLineUnique` | exporter.py:107 | any single-line prefix that ends at a line break or at the end of the text is the first line |
| `Text.FirstLineOfConcat` | exporter.py:107 | a line followed by a line break and anything else has that line as its first line |
| `Text.ParseInt` | exporter.py:109 | succeeds exactly on an optional sign followed by one or more digits; a negative result comes only from a leading `-` |
| `Text.DigitsValueLeadingZero` | exporter.py:109 | a leading zero does not change the value of a run of digits, so `"007"` reads as 7 |
| `Text.ParseIntShowNat` | exporter.py:109 | writing a number in decimal (bare, with `-`, with `+`) and reading it back gives the number with that sign |
| `Events.EndTime` | exporter.py:108-110 | the event lasts exactly the seconds spent; a non-negative duration never ends before it starts |
| `Events.Description` | exporter.py:118 | is exactly `"<key>: "`, then the whole title, then `"\n\n"`, then the whole worklog description (every line kept), and nothing else |
| `Events.Project` | exporter.py:106-118 | an empty worklog description fails first, then an unparsable start time, then a time spent that is not an integer. Success happens exactly when none of these occurs. The event then starts at the parsed start, lasts the parsed seconds, and has the summary and description built from the record's key, title and description |
| `Events.Summary` | exporter.py:111-113 | the summary equals the short description exactly when the key is a bucket issue. For any other key it is `"<key>: "` followed by the short description |
| `Events.SummarySingleLine` | exporter.py:107-113 | for a key without line breaks, the summary of a non-empty worklog description is a single line |
| `Events.DescriptionFirstLine` | exporter.py:118 | when key and title are single lines, the first line of the description is `"<key>: <title>"` |
| `Sync.SelectCalendar` | exporter.py:95 | the index of the first calendar whose name equals the requested name; absent exactly when no calendar has that name |
| `Sync.DeleteAll` | exporter.py:104-105 | one `Delete` per event found, in the order found |
| `Sync.SaveAll` | exporter.py:106-119 | the saves are for the leading records, in order, each with that record's projection. There are no saves past the first record that fails, and that failure is reported with its position. No failure means one save per record |
| `Sync.PushToCalDav` | exporter.py:87-119 | with no calendar of that name, nothing is issued and the run fails. Otherwise every event found in the window is deleted, in order, before any save. After the deletes comes one save per record, in record order, into the chosen calendar. The run completes exactly when every record was saved. If it stops, it stops at the first record that cannot be projected, with that record's error |

## Left out

- Fetching the report (`get_worklogs`, exporter.py:33-47): reading the filter file, JSON, and the HTTP request are I/O.
- CSV tokenising (`csv.reader` over `io.StringIO`, exporter.py:50) is a library call; the model starts from the rows it yields.
- `strptime` with `START_TIME_FORMAT` (exporter.py:108) is library date parsing. It is the parameter `parseStart`, which returns seconds or nothing. Datetime range limits (an end past year 9999 raises in Python) are not modelled, since timestamps are unbounded integers.
- `Text.ParseInt`: covers an optional sign and ASCII digits only. Python's `int` also accepts surrounding whitespace, underscores between digits and non-ASCII decimal digits, so the model rejects some texts the source accepts.
- `Events.Project`: requires a record with all five keys, the shape `ParseCsv` produces. For a dictionary lacking a key the source raises `KeyError`, but its only caller passes output of `parse_csv`.
- The CalDAV client (connection, `principal()`, `calendars()`, `search`, `delete`, `save_event`, exporter.py:88-119) is network I/O. The calendars are an input, the search is a parameter, and delete and save are entries in the returned action list. Network errors during those calls are not modelled.
- `to_ical` (exporter.py:69-84) builds icalendar objects and is never called by `main`.
- `main`'s window computation (exporter.py:123-126) reads the system clock and uses the platform-specific `strftime("%s")`; the window bounds are parameters.
- Command-line option parsing (exporter.py:134-147).
