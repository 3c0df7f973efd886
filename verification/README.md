# Sheet sync and SQL agent: a Dafny model

This project models the pure core of a small system with two halves.

The first half copies spreadsheet tabs into PostgreSQL. It infers one SQL
type per column from loosely typed cells, and it rewrites the cells before
they are inserted.

- `detect_date_or_timestamp` decides whether a text is a date, a
  timestamp, or neither. It tries an ISO 8601 pattern first, then three
  `strptime` date formats, then seven date-time formats.
- `normalize_datetime_value` rewrites a detected value into ISO form.
- `get_value_type_level` ranks one cell: -1 blank, 0 BIGINT, 1 FLOAT8,
  2 DATE, 3 TIMESTAMP, 4 TEXT. Numbers are tried before dates.
- `get_column_types` types each column of the first row by the highest
  level its cells reach, starting from BIGINT.
- `sync_to_db` sanitises table and column names and cleans every row
  before the upsert.

The second half is a question-answering agent built as a LangGraph state
machine. It has these nodes:

- a classifier;
- query generation;
- query execution;
- summarising, conversation and error nodes.

The model covers the agent's two routing functions, the retry counter, the
cleaning of the generated SQL text, and the graph's edges.

Modules, in dependency order:

- `Wrappers`: `Option`.
- `Text`: the `str` operations used. These are `isspace`/`strip`, ASCII
  `isalnum`, digit runs, `in` and `replace`.
- `Calendar`: days per month.
- `Strptime`: `datetime.strptime` for the ten formats, a zero-padded
  writer that `strptime` inverts, and `isoformat(timespec="seconds")`.
- `Iso`: the ISO regular expression, written as a grammar.
- `Cells`: JSON scalars and `str()`.
- `Temporal`: detection and normalisation.
- `Classify`: `get_value_type_level`.
- `Rows`: a dict row with insertion order.
- `Columns`: `get_column_types`.
- `Sync`: identifiers, row cleaning, and the plan for one sheet.
- `Agent`: the graph.

Three behaviours of the code worth noting:

- **Fixed-format dates.** A date read by a `strptime` format (say
  "15/01/2024") is written as `dt.isoformat(timespec="seconds")`, which is
  "2024-01-15T00:00:00". It is not the bare date "2024-01-15".
  - The code therefore makes such a value look like a timestamp on the
    next detection (`Temporal.FixedFormatDateReadsAsTimestamp`).
  - Normalising such a date twice cuts it to "2024-01-15". So idempotence
    holds for dates only when the text was an ISO match or unreadable
    (`Temporal.DateNormalizeIdempotentIff`), and a third pass changes
    nothing (`Temporal.DateNormalizeSettles`).
  - For timestamps it always holds.
- **The row-cleaning skip.** The row cleaner skips entries whose key is
  empty (`if not key`). It does not skip entries whose value is empty.
  Blank values are stored as None.
- **All-blank columns.** A column whose cells are all blank or missing is
  typed BIGINT, because levels start at 0 (`Columns.AllBlankIsBigInt`).

## Model

| member | source | states |
|---|---|---|
| Text.Strip | script.py:24-26 | `strip()` leaves text that neither starts nor ends with whitespace, and leaves nothing exactly when the text was all whitespace |
| Text.StripMeaning | script.py:24-26 | `strip()` removes whitespace from the two ends only: the result is a contiguous slice of the text, and everything before and after that slice is whitespace |
| Text.StripIdempotent | script.py:24-26 | stripping a stripped text changes nothing |
| Strptime.FirstParse | script.py:41-46 | the try-each-format loop returns the first format that parses, along with what that format reads; every earlier format fails; None only when all formats fail |
| Strptime.FormatRead | script.py:43 | for a format whose fields are separated by literals or blanks, `strptime` reads back what the zero-padded writer `Write` wrote with the same format (this is also `strftime`'s text for years from 1000 on); a time field the format leaves out reads as 0 |
| Strptime.DateFormatsRead | script.py:40-43 | a date written in any of "%Y-%m-%d", "%d/%m/%Y" and "%m/%d/%Y" reads back through that format as the same date at midnight |
| Strptime.DatetimeFormatsRead | script.py:49-60 | a date-time written in any of the seven date-time formats reads back through that format as the same date-time; the formats without "%S" read the seconds as 0 |
| Strptime.DayFirst | script.py:40-45 | a date written day first is detected by "%d/%m/%Y", the second format: "%Y-%m-%d" cannot read it, and it is read with its day and month as written, even where "%m/%d/%Y" could also read it |
| Strptime.FirstOfFebruary | script.py:40-45 | the text "01/02/2024" is read as 1 February 2024, by the day-first format |
| Strptime.IsoFormatRoundTrip | script.py:105 | what `isoformat(timespec="seconds")` writes, "%Y-%m-%dT%H:%M:%S" reads back as the same date-time |
| Iso.TimeMarker | script.py:33-37 | an ISO match contains 'T' or ':' exactly when it carries a time of day |
| Temporal.DetectTextMeaning | script.py:19-65 | the detector's decision in every case. Blank text gives None. An ISO match is a timestamp when it carries a time and a date otherwise. Otherwise the text is a date exactly when a date format parses it, and a timestamp exactly when none does but a date-time format does. None exactly when all of these fail |
| Temporal.Detect | script.py:21-22 | a value that is not a string is never a date or a timestamp |
| Temporal.NormalizeTextMeaning | script.py:73-109 | the normaliser's result per branch. Blank gives blank. An ISO date is cut to its 10-character date. An ISO timestamp has each blank turned into 'T', with everything else kept. A text read by a format becomes a 19-character ISO text that reads back as the parsed date-time. An unreadable text comes back stripped |
| Temporal.Normalize | script.py:70-71 | a missing kind, or a value that is not a string, comes back unchanged |
| Temporal.TimestampNormalizeIdempotent | script.py:81-105 | normalising a timestamp twice gives the same result as normalising it once |
| Temporal.DateNormalizeIdempotentIff | script.py:82-105 | for a date, normalising twice equals normalising once exactly when the text was an ISO match or no date format reads it |
| Temporal.DateNormalizeSettles | script.py:82-105 | for a date, the result of two normalisations is left unchanged by a third |
| Temporal.NormalizeKeepsKind | script.py:219-221 | the normalised form of a detected timestamp, or of an ISO date, is detected as the same kind again |
| Temporal.FixedFormatDateReadsAsTimestamp | script.py:102-105 | a date read only by a `strptime` format is rendered at midnight, and detection then calls that rendering a timestamp |
| Classify.ValueTypeLevelMeaning | script.py:112-137 | the six levels partition the cells. -1 is blank, 0 an integral decimal, 1 any other decimal. 2, 3 and 4 are a non-number that is detected as a date, detected as a timestamp, or detected as neither |
| Classify.IntegerTextIsBigInt | script.py:118-120 | every optionally signed run of digits is level 0 |
| Classify.FractionTextIsFloat | script.py:124-126 | a decimal with a non-zero digit after the point is level 1 |
| Classify.NumberIsNotTemporal | script.py:117-131 | a text that parses as a number is never detected as a date or a timestamp, so checking numbers first hides nothing |
| Columns.GetColumnTypes | script.py:140-156 | no rows give no columns. Otherwise there is one column per key of the first row, in its order, typed by the column's level over all rows |
| Columns.RaiseLevels | script.py:149-154 | the inner loop keeps the set of tracked columns. It raises each tracked column to the maximum of its level and this row's level, and ignores keys that are not tracked |
| Columns.EntriesLevelLookup | script.py:149-154 | within a row, a column's level is -1 when the row lacks the key, and otherwise the rank of the one cell under it |
| Columns.ColumnLevelIsMaximum | script.py:146-154 | a column's level is the largest of 0 and the levels of its rows |
| Columns.ColumnLevelAppend | script.py:148-154 | the level over two batches of rows is the larger of the two batches' levels |
| Columns.ColumnLevelGrows | script.py:148-154 | adding rows never lowers a column's level |
| Columns.SameRowsSameLevel | script.py:148-154 | the level depends only on which rows occur, not on their order or repetition |
| Columns.AllBlankIsBigInt | script.py:146 | a column whose cells are all blank or missing is typed BIGINT |
| Columns.TextCellMakesText | script.py:152-154 | a single TEXT cell makes the column TEXT |
| Rows.PutKeys | script.py:216 | assigning to a dict key that is present keeps the key order; assigning to a new key appends it |
| Rows.PutLookup | script.py:216 | after `d[k] = v`, `d[k]` is `v` and every other key reads as before |
| Rows.PutUnique | script.py:216 | assignment keeps a dict's keys distinct |
| Sync.Sanitize | script.py:182 | the name keeps its length. Each ASCII letter or digit is kept in place, and every other character becomes '_' |
| Sync.SanitizeIdempotent | script.py:194 | sanitising a sanitised name changes nothing |
| Sync.SanitizeExample | script.py:214 | "Order #1" becomes "Order__1" |
| Sync.CleanValue | script.py:215-222 | the result is None exactly when the value is blank. An undetected value is kept unchanged, number or string alike. A detected value becomes a string |
| Sync.CleanValueShape | script.py:218-221 | a detected value is cleaned to an ISO text. A timestamp has a time of day and no blank. An ISO date stays 10 characters. A format-read date becomes 19 characters with no blank |
| Sync.CleanTimestampMeaning | script.py:218-221 | a timestamp keeps its time of day. Written the ISO way, it keeps every character except the separator, which becomes 'T'. Read by a format, it becomes the ISO text of the date-time that format read |
| Sync.CleanDateMeaning | script.py:218-221 | an ISO date is cut to its first 10 characters. A date read by a format becomes the ISO text of midnight of the day that format read |
| Sync.CleanValueIdempotent | script.py:215-222 | cleaning a cleaned value changes nothing |
| Sync.CleanRowLookup | script.py:210-222 | under each column, the cleaned row holds the cleaned value of the last entry whose non-empty key sanitises to that column, or nothing if there is none |
| Sync.LastUnderNone | script.py:211-214 | no entry is chosen for a column exactly when no entry has a non-empty key that sanitises to that column |
| Sync.LastUnderSome | script.py:211-222 | the chosen entry has a non-empty key that sanitises to the column, and no later entry has one, so a later write under a column replaces an earlier one |
| Sync.CleanRowKeys | script.py:211-216 | when no two keys sanitise alike, the cleaned row's columns are the sanitised non-empty keys, in order |
| Sync.NoEmptyColumn | script.py:212-213 | the cleaned row never has a column with an empty name |
| Sync.CleanRows | script.py:207-223 | the loop produces one cleaned row per input row |
| Sync.PlanTable | script.py:181-223 | the table name is sanitised. An empty sheet is skipped. Otherwise the columns are the first row's keys, sanitised and typed, and every row is cleaned |
| Agent.DecideIntentPath | agent.py:263-268 | the router goes to query generation exactly when the intent is "DatabaseQuery", and to conversation otherwise |
| Agent.DecideResultStatus | agent.py:271-275 | a result without "Error:" goes to summarising. A failed result goes to the error node when retries exceed 7, and back to generation otherwise |
| Agent.ClassifyIntentNode | agent.py:82-88 | the intent is "DatabaseQuery" exactly when the model's first tool call is that tool; only the intent changes |
| Agent.StripFences | agent.py:187 | the cleaned query contains no "```" and has no leading or trailing whitespace |
| Agent.StripFencesIdempotent | agent.py:187 | cleaning a cleaned query changes nothing |
| Agent.FencedAnswer | agent.py:187 | an answer the model wraps in a "```sql" fence, on lines of its own, comes out as the bare query |
| Agent.GenerateQueryNode | agent.py:187-190 | every generation stores the cleaned query and adds exactly one to the retry counter; nothing else changes |
| Agent.ExecuteQueryNode | agent.py:196-199 | the node stores what the database returned, and nothing else changes |
| Agent.Step | agent.py:287-305 | the edges: the final nodes lead to END, generation leads to execution, the classifier leads to generation or conversation, and execution leads to generation, summarising or the error node |
| Agent.AtMostEightGenerations | agent.py:271-302 | whatever the model and the database answer, one question leads to at most eight generated queries |
| Agent.FreshRunEnds | agent.py:287-305 | whatever the model and the database answer, a question reaches END within 18 steps |
| Agent.GivesUpAfterEightFailures | agent.py:271-304 | when the question is a database query and every query fails, the run is: the classifier, eight generate-then-execute rounds, the error node, then END. The counter ends at 8 |
| Agent.FirstSuccessSummarizes | agent.py:287-305 | when the first generated query succeeds, the run is: classify, generate, execute, summarise, whatever the database would answer to other queries |
| Agent.ConversationPath | agent.py:263-303 | any other intent goes straight from the classifier to conversation, and no query is generated |

## Left out

- Network and database I/O, the Apps Script fetch, the DDL and the upsert,
  and the per-table exception handling are outside the model. `PlanTable`
  stops at what would be sent.
- main.py is not part of this model.
- Python's `float()` is modelled as a signed decimal literal
  (`[+-]?(d+(.d*)?|.d+)` after stripping), on unbounded numbers. It leaves
  out exponents, "inf"/"nan", underscores and Unicode digits. It also
  leaves out the OverflowError that `int(float("inf"))` would raise.
- Classify.ValueTypeLevel: decides BIGINT on the exact decimal value, not on
  the binary double `float()` rounds it to. So it differs from the code in
  two ways:
  - A decimal whose fraction is lost in rounding is FLOAT8 here but BIGINT
    in the code. Examples are "1.00000000000000001" and
    "123456789012345678.5".
  - A number of magnitude about 1.8e308 or more is rounded to inf by
    `float()`. In the code `int(inf)` then raises OverflowError, which the
    `except (ValueError, TypeError)` does not catch, so the whole column
    typing fails. Here the cell is BIGINT, or FLOAT8 when it has a
    non-zero fraction.
- `\d` and `str.isalnum()` are ASCII only here; Python also accepts other
  Unicode digits and letters. Whitespace follows Python's full
  `str.isspace()` set.
- `datetime.strptime` is modelled only for the ten formats the code uses.
  Sub-second fields, time zones and the locale are not modelled.
- Cells that are numbers or booleans are carried by the text `str()` gives
  for them. Their values are not modelled.
- Agent.Step: the classifier, the query writer, the summariser, the
  conversation node and the error node call a language model.
  - Only what the routing reads is modelled: the tool the classifier
    calls, the text the model writes for the query, and what the database
    returns.
  - The answers those nodes write and the chat history are left out.
- Agent.DecideIntentPath: requires the intent to be set. The source would
  raise KeyError without one, but in the graph the classifier always sets
  it first.
- Agent.AgentState: state keys that the graph reads only after a node has
  written them are given defaults instead of raising KeyError.
- Agent.Env: the database answer is a fixed function of the query text,
  so one query always gets the same answer. A real database can answer
  the same query differently from one attempt to the next.
- Agent.Run: a run is bounded by a step count instead of LangGraph's
  recursion limit. `FreshRunEnds` shows that 18 steps always suffice.
