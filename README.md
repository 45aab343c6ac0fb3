# WWTP dashboard core, modelled in Dafny

This project models the logic of a wastewater-treatment-plant dashboard,
a Next.js application. The dashboard shows sensor readings of two tanks,
T-500 and T-700, and keeps a list of maintenance tasks. Its core is the
small amount of sequential logic inside the UI and SQL glue:

- **The SQL Server adapter.** It rewrites `?` placeholders as `@p0, @p1, …`,
  expands an array argument into one name per element, and infers a column
  type for each bound value (`MsQuery`, with the dialect switch and
  identifier quoting in `Dialects`).
- **The task list.**
  - Client side: the archive rule, the three-level sort, the pending count,
    the create and update payloads and the button guards (`TaskCard`).
  - Server side: the create validation and its defaults, the stored due date
    and PIC, and the list order (`TasksRoute`).
  - The spreadsheet import (`TasksImport`) and the notification feed
    (`TasksUpcoming`).
- **The exports.**
  - Parameter validation, the range bounds, the query as a predicate plus an
    ordering, and the sheet built row by row (`TasksExport`, `SensorExport`).
  - The spreadsheet is a `Worksheet` class whose rows are appended in place
    (`Sheet`).
- **The chart series endpoint.** The table whitelist, the bucket width that
  keeps a chart near 300 points, the epoch-aligned bucket keys of both SQL
  dialects, the `AVG` column list, and agreement between placeholders and
  bound values (`ChartpageRoute`).
- **The display helpers.**
  - The card severity and its hue (`Card`).
  - The 24-hour change pill (`MiniBar`).
  - The range-select chart page (`ChartPage`).
  - The export form (`FileUp`, with `LocalTime` for the local date text).
  - The dashboard line charts (`DashboardChart`).

Shared modules: `Wrappers` (Option, and a Response that is either `Ok` or a
`Fail` with an HTTP status), `Strings` (split, join, trim, case mapping,
decimal text, padding, code-unit order of text) and `Sorting` (a stable
insertion sort over a total preorder). The sort is JavaScript's stable
`Array.prototype.sort`. For a SQL `ORDER BY`, which returns rows with equal
keys in an unspecified order, it is one admissible result; what the model
claims of a query (the rows it returns, each as often as in the table, and
the order of unequal keys) holds for every such order.

Some things become parameters of the model:

- the clock;
- `new Date(x)` parsing, `toISOString` and the local calendar fields of an
  instant;
- `Number` of a string, `toFixed`;
- the database's `CURDATE()`.

Instants are integers (milliseconds since 1970). A SQL `DATETIME` is held
as its `YYYY-MM-DD HH:MM:SS` text, so `BETWEEN` and `ORDER BY` on it are
code-unit comparisons of text. A date compared with a `DATETIME` stands for
its midnight, as MySQL converts it.

Where the code departs from what its comments and names suggest, the
model follows the code:

- The import does not drop rows with a blank title, and it reports
  `inserted` as the number of records received.
- The task-list sort orders two tasks with equal non-null due dates as
  equal, so the stable sort keeps their list order. The `id` tie-break
  applies only when both due dates are null (`CompareTie`, `VisibleTasksStable`).
- The comment of the temperature rule gives an ideal band of 20–35 degrees,
  full severity below 10 and above 45; the code uses 20–30 and 10/40, and
  `Card.TemperatureRule` follows the code.
- The task export declares a `pic_maintenance` column but never fills it.
- The notification window is called "3 days" in a comment, but the code
  adds 7 days.
- `Number(null)` is 0. A normalised chart value that is null therefore
  passes the `isFiniteNum` test (see Findings). For the same reason
  `toNum(null)` is 0, not null.
- SQL Server's integer division truncates toward zero. Over the same count
  of seconds since 1970 its bucket key therefore equals the floor key from
  1970 on and is one width higher before 1970 (`TruncKeySpec`). This compares
  the two dialects for a MySQL session in UTC; see "## Left out" for what
  MySQL actually does before 1970 and in other time zones.
- A request can span up to 301 buckets, not 300 (`BucketsPerRequest`).

## Model

| member | source | states |
|---|---|---|
| MsQuery.PrepareMsQuery | lib/db.ts:60-82 | The loop's text and named parameters are exactly the specification's: chunk 0, then for each `?` the names of the values it pushed and the next chunk; the values pushed in order and numbered from p0 |
| MsQuery.NoPlaceholders | lib/db.ts:63-65 | A query without `?` comes back unchanged with no named parameters |
| MsQuery.FlatArgsIsFlatten | lib/db.ts:66-79 | The pushed values are the arguments of the `?`s, in order, flattened one level |
| MsQuery.ExtraArgsIgnored | lib/db.ts:66-67 | Arguments past the k-th `?` do not change the values pushed for the first k |
| MsQuery.ExtraArgsIgnoredByPrepare | lib/db.ts:66-67 | With an argument for every `?`, appending more arguments changes neither the text nor the parameters |
| MsQuery.RewriteStep | lib/db.ts:66-80 | Each iteration extends the text by one replacement and one chunk, and the values by that argument's contribution; a scalar is replaced by `@pN`, N being the number of values pushed before it |
| MsQuery.FlatArgsLength | lib/db.ts:68-79 | The number of named parameters is one per scalar argument plus k per array of length k |
| MsQuery.ScalarArgs | lib/db.ts:75-78 | With scalar arguments only, the values bound are exactly the first count(`?`) arguments |
| MsQuery.NamedSnoc | lib/db.ts:76-77 | Pushing a value names it "p" + the number of parameters already pushed |
| MsQuery.NamesDistinct | lib/db.ts:70 | No two named parameters share a name |
| MsQuery.PlaceholderSplits | lib/db.ts:69-74 | The replacement of a `?` splits on "," back into one `@p<n>` name per pushed value |
| MsQuery.EmptyArrayPlaceholder | lib/db.ts:69-74 | An empty array leaves an empty replacement |
| MsQuery.NoPlaceholderLeft | lib/db.ts:63-80 | No `?` is left in the rewritten text |
| MsQuery.InferMsTypeSpec | lib/db.ts:85-103 | null/undefined give NVarChar, integers Int, other numbers Float, booleans Bit, Dates DateTime2, Buffers VarBinary(MAX), everything else NVarChar(MAX), each case an if-and-only-if; binding `value ?? null` keeps the type |
| Dialects.FromEnv | app/api/chartpage/route.ts:14-16 | SQL Server is selected exactly when `DB_TYPE` is the text "mssql"; unset means MySQL |
| Dialects.QuotingSpec | app/api/chartpage/route.ts:19-24 | A column reads back from between `[` `]` (SQL Server) or backticks (MySQL); a table additionally gets `dbo.` on SQL Server and nothing on MySQL |
| Dialects.QuotingInjective | app/api/chartpage/route.ts:19-24 | Different names are quoted differently |
| Dialects.QuotingKeeps | app/api/export/route.ts:11-13 | Quoting adds no character besides the quotes and the schema, so a name without `?` stays without `?` |
| TaskCard.ParseDateSpec | component/maintain/taskcard.tsx:149-154 | null and "" give null; a 10-character date is parsed with `T00:00:00` appended; anything else with its first space replaced by `T` |
| TaskCard.ArchiveRule | component/maintain/taskcard.tsx:160-165 | Only a done task is archived; one with a null or unparsable due date never is; otherwise exactly when now is later than due + 30 days |
| TaskCard.ArchiveBoundary | component/maintain/taskcard.tsx:155-164 | A done task due 31 days ago is hidden, one due 30 or 29 days ago is shown |
| TaskCard.CompareFlip | component/maintain/taskcard.tsx:177-186 | The comparator changes sign when its arguments swap |
| TaskCard.CompareTrans | component/maintain/taskcard.tsx:177-186 | The comparator is transitive |
| TaskCard.CompareTie | component/maintain/taskcard.tsx:177-186 | The comparator gives 0 exactly when the two tasks share a rank and either have equal parsed due times or are both undated with equal ids; equal due dates are not broken by id |
| TaskCard.TaskLePreorder | component/maintain/taskcard.tsx:177-186 | The comparator is a total preorder, so the sort's result is well defined |
| TaskCard.Unarchived | component/maintain/taskcard.tsx:176 | The filter keeps exactly the tasks that are not archived, each as often as the input holds it, in input order |
| TaskCard.VisibleTasksSpec | component/maintain/taskcard.tsx:174-187 | The visible list is a permutation of the unarchived tasks: each non-archived task appears as often as in the input and no archived one appears; it is sorted by the comparator |
| TaskCard.VisibleTasksStable | component/maintain/taskcard.tsx:174-187 | Tasks the comparator ties keep their input order in the visible list (the sort is stable) |
| TaskCard.SortedOrder | component/maintain/taskcard.tsx:166-186 | In a sorted list status rank never falls (in_progress, todo, done, blocked); within a rank dated tasks precede undated ones, dated ones ascend by due time and undated ones by id |
| TaskCard.PendingCountSpec | component/maintain/taskcard.tsx:189 | The pending count is at most the list length, equals it exactly when no task is done, and is 0 exactly when all are done |
| TaskCard.PendingCountAppend | component/maintain/taskcard.tsx:189 | The count of a concatenation is the sum of the counts |
| TaskCard.CreatePayloadSpec | component/maintain/taskcard.tsx:90 | The title and status are sent as typed; empty description and due date become null; a PIC is sent exactly for a done task with a non-empty PIC |
| TaskCard.UpdatePayloadSpec | component/maintain/taskcard.tsx:104-110 | A due date or PIC is sent exactly when it has a non-whitespace character, and then unchanged |
| TaskCard.ButtonsGuardPayloads | component/maintain/taskcard.tsx:271 | An enabled Create sends a non-empty title and a due date; a Save enabled for a done task (guard at line 407) always sends a PIC |
| TasksRoute.TitleRequired | app/api/tasks/route.ts:24-26 | A missing, empty or non-string title is a 400 "title is required"; an accepted row carries the title string |
| TasksRoute.Defaults | app/api/tasks/route.ts:21 | A body with only a title is stored with status "todo" and null description, due date and PIC |
| TasksRoute.DueDateRule | app/api/tasks/route.ts:29-34 | A truthy due date that does not parse is a 400 "invalid due_date"; a falsy one stores null; a parsable one its `DueSql` text |
| TasksRoute.DueSqlShape | app/api/tasks/route.ts:33 | For an ISO instant the stored text is `YYYY-MM-DD HH:MM:SS`, keeping the first 19 characters with the `T` turned into a space, and the list view's `parseDate` normalisation turns it back into those 19 ISO characters |
| TasksRoute.PicRule | app/api/tasks/route.ts:37 | A PIC is stored exactly for status "done" and a string with a non-whitespace character, and then has no whitespace at either end and is its own trim |
| TasksRoute.PicStored | app/api/tasks/route.ts:37 | A stored PIC is the submitted string with only its leading and trailing whitespace removed: it is the part of the input right after the leading whitespace, with only whitespace after it |
| TasksRoute.GetLePreorder | app/api/tasks/route.ts:10 | `ORDER BY due_date IS NULL, due_date ASC, id DESC` is a total preorder |
| TasksRoute.ListPermutation | app/api/tasks/route.ts:10 | The list is a permutation of the table, of any length: every row as often as the table holds it |
| TasksRoute.ListOrderSpec | app/api/tasks/route.ts:10 | Between any two positions of the list: undated rows come last, dated rows ascend by due date, and rows with equal (or no) due dates by descending id |
| TasksImport.FmtDateSpec | app/api/tasks/import/route.ts:6-9 | An unparsable date gives null; otherwise the date is the first 10 characters (`YYYY-MM-DD`) of the ISO text |
| TasksImport.ValuesSpec | app/api/tasks/import/route.ts:14-32 | One inserted row per record, in order, blank titles included, with the cells of the four named headers; `inserted` is the number of records |
| TasksImport.ColumnsExclude | app/api/tasks/import/route.ts:25-28 | The import writes four columns and neither status nor pic_lapangan |
| TasksUpcoming.LimitDateSpec | app/api/tasks/upcoming/route.ts:21-24 | The limit is the `YYYY-MM-DD` prefix of the ISO text seven days from now |
| TasksUpcoming.SelectedBeforeLimit | app/api/tasks/upcoming/route.ts:31-36 | When today is not after the limit, a task is selected exactly when it has a due date, is not done and is due no later than the limit's midnight |
| TasksUpcoming.DueLePreorder | app/api/tasks/upcoming/route.ts:37 | `ORDER BY due_date ASC` is a total preorder |
| TasksUpcoming.Filter | app/api/tasks/upcoming/route.ts:31-36 | The WHERE clause keeps exactly the selected rows, each as often as the table holds it |
| TasksUpcoming.QuerySpec | app/api/tasks/upcoming/route.ts:27-40 | The result is a permutation of the selected rows: each selected row appears as often as in the table, no other row appears |
| TasksUpcoming.QueryOrder | app/api/tasks/upcoming/route.ts:37 | Every result has a due date, in ascending order |
| TasksUpcoming.NotificationsSpec | app/api/tasks/upcoming/route.ts:27-49 | Notification i is that of result row i, and the result holds each selected row as often as the table does and nothing else; a notification is in the feed exactly when it carries some selected row's due date, title, status and pic_maintenance; the dates ascend along the feed |
| TasksUpcoming.NotificationsOpen | app/api/tasks/upcoming/route.ts:27-49 | No notification is for a done task, and each is dated no later than the limit's midnight |
| TasksExport.IsYMDFields | app/api/tasks/export/route.ts:14-16 | The pattern holds exactly for three dash-separated fields of 4, 2 and 2 digits and nothing more |
| TasksExport.Bounds | app/api/tasks/export/route.ts:25-31 | Accepted exactly when both dates are present and `YYYY-MM-DD`; then the bounds are start + " 00:00:00" and end + " 23:59:59"; otherwise the 400 "Invalid parameters. Use ?start=YYYY-MM-DD&end=YYYY-MM-DD" |
| TasksExport.ClockBounds | app/api/tasks/export/route.ts:29-31 | Every valid clock time lies between " 00:00:00" and " 23:59:59" |
| TasksExport.SelectedByDate | app/api/tasks/export/route.ts:29-39 | A row with a valid DATETIME is selected exactly when its date lies from start to end inclusive |
| TasksExport.DueBeforeTotal | app/api/tasks/export/route.ts:41 | `due_date ASC` with NULL first orders any two different dates one way only |
| TasksExport.DueBeforeTransitive | app/api/tasks/export/route.ts:41 | That order is transitive |
| TasksExport.ExportLePreorder | app/api/tasks/export/route.ts:40-42 | Status rank, then due date, then id is a total preorder |
| TasksExport.Filter | app/api/tasks/export/route.ts:38-39 | The WHERE clause keeps exactly the rows with a due date within the bounds, each as often as the table holds it |
| TasksExport.QuerySpec | app/api/tasks/export/route.ts:34-45 | For any table, the query returns exactly the selected rows, each as often as the table holds it |
| TasksExport.QueryOrder | app/api/tasks/export/route.ts:40-42 | Between any two positions of the result, rows are ordered by status rank (other, todo, in_progress, blocked, done), then due date, then id |
| TasksExport.FmtIsDate | app/api/tasks/export/route.ts:61-70 | A falsy value is ""; a DATETIME text gives its first 10 characters; a Date with a four-digit year gives a `YYYY-MM-DD` text |
| TasksExport.StatusCell | app/api/tasks/export/route.ts:78 | The status cell has the status's length, no `_`, a space for every `_` and the other characters unchanged; a null status is "" |
| TasksExport.TaskColumnKeysDistinct | app/api/tasks/export/route.ts:51-59 | The seven column keys are distinct |
| TasksExport.RowRecordCells | app/api/tasks/export/route.ts:73-80 | A result row fills id, title, description, due date, status and PIC Lapangan, and leaves PIC Maintenance empty |
| TasksExport.ExportSheetRows | app/api/tasks/export/route.ts:34-85 | From table to sheet: sheet row i carries query row i's id, title, description, formatted due date, status and PIC Lapangan; the single "no data" row appears exactly when no table row is selected |
| TasksExport.TaskSheetRowsSpec | app/api/tasks/export/route.ts:72-85 | One sheet row per result in order with those cells; for no results exactly one row whose title is "No data found for selected range." |
| TasksExport.BuildTaskSheet | app/api/tasks/export/route.ts:48-85 | The loop leaves a fresh sheet "Tasks" with the seven columns and exactly those rows |
| TasksExport.FileNameSpec | app/api/tasks/export/route.ts:88 | For valid dates the name is 36 characters long and both dates read back from their fixed positions |
| Sheet.KeysGet | app/api/export/route.ts:52-56 | With no repeated key, reading a record by each key that `Object.keys` lists gives back that key's value; any other key reads as undefined |
| Sheet.PlaceAligned | app/api/export/route.ts:52-56 | When the columns are a record's own keys, each cell is that record's value, in order |
| Sheet.OwnColumns | app/api/export/route.ts:52-56 | Columns made from a record's own keys line up: header cell i names key i, and the placed record's cell i holds that key's value |
| Sheet.ShownSpec | app/api/export/route.ts:49-57 | A sheet shows one row more than it holds exactly when it has columns; that first row has one cell per column, and the held rows follow unchanged |
| Sheet.Worksheet.constructor | app/api/export/route.ts:47 | A new worksheet has its name and no columns or rows |
| Sheet.Worksheet.SetColumns | app/api/export/route.ts:52-55 | Assigning the columns replaces them and leaves the rows |
| Sheet.Worksheet.AddRecord | app/api/export/route.ts:56 | Adding a record appends its placed cells after the existing rows |
| Sheet.Worksheet.AddValues | app/api/export/route.ts:50 | Adding an array appends it as it is |
| SensorExport.Params | app/api/export/route.ts:27-33 | A missing or empty table, start or end, or a table other than t700/t500 after lower-casing, is the 400 "Invalid parameters"; otherwise the lower-cased table and the two texts |
| SensorExport.AcceptedTables | app/api/export/route.ts:27-31 | The accepted names are exactly t700, T700, t500 and T500 |
| SensorExport.SqlPlaceholders | app/api/export/route.ts:35-44 | The statement has exactly two `?`, matching the two bound values |
| SensorExport.MsSqlParameters | app/api/export/route.ts:40-44 | On SQL Server start and end are sent as @p0 and @p1 |
| SensorExport.TimestampLePreorder | app/api/export/route.ts:41 | `ORDER BY timestamp ASC` is a total preorder |
| SensorExport.Filter | app/api/export/route.ts:40 | The WHERE clause keeps exactly the rows whose timestamp is within the range, each as often as the table holds it |
| SensorExport.Query | app/api/export/route.ts:35-44 | One result row per selected row |
| SensorExport.QuerySpec | app/api/export/route.ts:35-44 | The result holds each row in range as often as the table holds it, in timestamp order, with its columns followed by formatted_timestamp |
| SensorExport.SheetNames | app/api/export/route.ts:47 | The sheets are named "T500 Export" and "T700 Export" |
| SensorExport.SensorSheetSpec | app/api/export/route.ts:49-57 | No rows show exactly the single "No data found for selected range." row with no header; otherwise the first row's keys are the header and every row follows in order with its own values |
| SensorExport.BuildSensorSheet | app/api/export/route.ts:46-57 | The branch and the loop leave a fresh sheet with those columns and rows |
| SensorExport.FileName | app/api/export/route.ts:63 | The name is the table, a space, the start, " s.d ", the end and ".xlsx": each part reads back from its position |
| ChartpageRoute.ChartTables | app/api/chartpage/route.ts:29-35 | The accepted tables are t500 and t700 with either case of the `t` |
| ChartpageRoute.HandleSpec | app/api/chartpage/route.ts:29-40 | An unknown table is the 400 "invalid table" before the dates are looked at; a missing or empty start or end the other 400; an accepted request is for t500 or t700 with that table's metrics |
| ChartpageRoute.AsWrittenAgrees | app/api/chartpage/route.ts:33 | Except for the two inherited names, the handler as written and the corrected one agree |
| ChartpageRoute.InheritedKeyAccepted | app/api/chartpage/route.ts:33-40 | `table=constructor` is a 500 as written and a 400 as intended |
| ChartpageRoute.Ceil | app/api/chartpage/route.ts:47 | `Math.ceil(x)` is the integer n with x <= n < x + 1 |
| ChartpageRoute.BucketSecSpec | app/api/chartpage/route.ts:45-47 | The span is at least 1 s and covers the request; the width is a whole number of seconds, at least 1, 300 widths cover the span, and no smaller whole width does |
| ChartpageRoute.FloorKeySpec | app/api/chartpage/route.ts:72 | The floor key (MySQL's, for a UTC session from 1970 on) is the multiple of the width with key <= ts < key + width |
| ChartpageRoute.TruncKeySpec | app/api/chartpage/route.ts:60 | Over the same seconds count, SQL Server's truncating key equals the floor key from 1970 on and is one width higher before 1970 off a multiple |
| ChartpageRoute.SpanFits | app/api/chartpage/route.ts:45-47 | Two whole-second timestamps of one request are at most 300 widths apart |
| ChartpageRoute.KeysWithin | app/api/chartpage/route.ts:72 | Timestamps at most 300 widths apart get keys in order, at most 300 widths apart |
| ChartpageRoute.BucketsPerRequest | app/api/chartpage/route.ts:45-72 | All keys of one request lie within 300 widths of the first, so a chart has at most 301 buckets |
| ChartpageRoute.AvgColsSpec | app/api/chartpage/route.ts:50 | The column list splits on "," into the terms, the first as is, each later one after a space |
| ChartpageRoute.SqlPlaceholders | app/api/chartpage/route.ts:55-80 | The statement splits at its `?`s into its fixed pieces: 6 placeholders on SQL Server, 4 on MySQL |
| ChartpageRoute.ParamListSpec | app/api/chartpage/route.ts:67-79 | The list has 6 or 4 values: the two dates in the range places (bound as DateTime2), the width everywhere else (bound as Int when whole) |
| ChartpageRoute.QueryParams | app/api/chartpage/route.ts:40-80 | With both dates valid there is exactly one bound value per placeholder, and the width is whole |
| ChartpageRoute.MsSqlNamed | app/api/chartpage/route.ts:58-67 | On SQL Server the adapter sends @p0..@p5 as width, width, start, end, width, width |
| Card.ClampSpec | component/dashboard/card.tsx:9 | The clamp lies in the interval, keeps values inside it, pins values outside to the nearer end, and is monotone |
| Card.SeverityRange | component/dashboard/card.tsx:12-52 | Every title and reading gives a severity in 0..1 |
| Card.CodRule | component/dashboard/card.tsx:15-18 | COD is v/100 on 0..100, 0 below, 1 above, and non-decreasing |
| Card.TssRule | component/dashboard/card.tsx:19-22 | TSS is v/50 on 0..50, 0 below, 1 above, and non-decreasing |
| Card.TemperatureRule | component/dashboard/card.tsx:25-34 | Temperature is 0 on 20..30, 1 at or below 10 and at or above 40, and worsens away from the band |
| Card.PhRule | component/dashboard/card.tsx:35-44 | pH is 0 on 7..8, 1 at or below 6 and at or above 9, and worsens away from the band |
| Card.FallbackRule | component/dashboard/card.tsx:46-50 | Any other title gets the COD rule |
| Card.SuhuAsWritten | component/dashboard/card.tsx:46-50 | The card titled "Suhu" shows 25 degrees as 0.25, where the temperature rule gives 0 |
| Card.SeverityIntended | component/dashboard/card.tsx:25-34 | With "Suhu" read as the temperature it follows the temperature rule, other titles are unchanged, and the severity stays in 0..1 |
| Card.HueSpec | component/dashboard/card.tsx:55-56 | The hue of a severity in 0..1 lies in 0..120, is 120 at 0 and 0 at 1, and strictly decreases |
| Card.CardHue | component/dashboard/card.tsx:55-64 | The hue of a card as written lies in 0..120, is 120 exactly when its severity is 0 and 0 exactly when it is 1; a pH card on 7..8 and a Temperature card on 20..30 are green |
| Card.IntendedCardHue | component/dashboard/card.tsx:25-34 | With the corrected rule the hue stays in 0..120, is unchanged for every title but "Suhu", and a "Suhu" card on 20..30 degrees is green |
| Card.SuhuHue | component/dashboard/card.tsx:46-64 | At 25 degrees the "Suhu" card is drawn at hue 90 as written and at 120 (green) as intended |
| MiniBar.PctChangeSpec | component/minibar.tsx:16-19 | The change is null exactly when a reading is missing or the past one is 0; otherwise past + past·pct/100 = now |
| MiniBar.PctChangeSign | component/minibar.tsx:18 | Over a positive past reading the change is non-negative exactly when now >= past, and 0 when they are equal |
| MiniBar.ChangeTextSpec | component/minibar.tsx:37 | No change shows "—"; otherwise "▲" exactly for a non-negative change, "▼" otherwise, with the magnitude |
| MiniBar.FmtSpec | component/minibar.tsx:12-19 | A reading shows a dash exactly when it is missing, and then its change is a dash too; two readings show alike exactly when both are missing or both round to the same number |
| ChartPage.MetricsMatchRoute | component/chart/chartpage.tsx:27-30 | The page's series for each tank are exactly the columns the series endpoint averages |
| ChartPage.PresetMinutesSpec | component/chart/chartpage.tsx:80-85 | The seven presets give 30, 60, 360, 720, 1440, 4320 and 10080 minutes; anything else 60 |
| ChartPage.RangeSpanSpec | component/chart/chartpage.tsx:72-88 | A preset ends now and starts its minutes earlier; a custom range is taken exactly as picked |
| ChartPage.FormatLocalDatetimeSpec | component/chart/chartpage.tsx:13-16 | For a four-digit year the text is `YYYY-MM-DDTHH:MM` and each field reads back |
| ChartPage.SeriesTimeSpec | component/chart/chartpage.tsx:92-94 | The request time is `YYYY-MM-DD HH:MM:SS`, each field reads back, and it is a DATETIME literal |
| ChartPage.YUnitSpec | component/chart/chartpage.tsx:129-130 | The axis shows the unit all series share, else none; t500 gets "mg/L", t700 none |
| ChartPage.SeriesDataSpec | component/chart/chartpage.tsx:132-145 | One point per row, in order; all series share the rows' time axis; a point is null exactly when its row lacks the column, so a series for a column no row has is all null |
| ChartPage.SeriesDataAppend | component/chart/chartpage.tsx:145 | The series of two batches of rows is the first batch's series followed by the second's |
| Strings.Pad2Spec | component/chart/chartpage.tsx:14 | `pad(n)` for 0..99 is two digits, starts with "0" exactly when n < 10, and reads back as n |
| LocalTime.FormatYMDSpec | app/FileUp/page.tsx:39-44 | For a four-digit year `formatLocalDate` is `YYYY-MM-DD` and reads back as the year, the 1-based month and the day |
| LocalTime.FormatYMDInjective | app/FileUp/page.tsx:39-44 | Different dates give different texts |
| FileUp.Hours | app/FileUp/page.tsx:35 | 24 hour choices |
| FileUp.Minutes | app/FileUp/page.tsx:36 | 60 minute choices |
| FileUp.ChoicesSpec | app/FileUp/page.tsx:35-36 | Each choice is two digits reading back as its position; hours and minutes agree and no two choices are alike |
| FileUp.TimeRoundTrip | app/FileUp/page.tsx:46-50 | Splitting "HH:MM" gives its parts; choosing an hour or a minute replaces just that part, and re-choosing a part keeps the time |
| FileUp.OrderedSpec | app/FileUp/page.tsx:97-98 | The range starts no later than it ends, holds both picked dates, and is the same whichever was picked first |
| FileUp.HandleExportSpec | app/FileUp/page.tsx:92-106 | A missing date or tank yields no request; otherwise the request is for "t" + the tank, from the earlier date's start time ":00" to the later date's end time ":59", whatever the picking order |
| FileUp.SensorRequestAccepted | app/FileUp/page.tsx:100-103 | For the two tank choices the request passes the sensor export's validation |
| FileUp.TaskRequestAccepted | app/FileUp/page.tsx:109-122 | A missing date yields no request; the dates are ordered whatever the picking order and pass the task export's validation |
| DashboardChart.ToNumSpec | component/dashboard/chart.tsx:179-182 | `toNum` is null exactly when `Number(x)` is not finite, else that number; undefined gives null, null gives 0 |
| DashboardChart.NormSpec | component/dashboard/chart.tsx:60-67 | The point keeps its tank and timestamp; pH comes from `pH` unless absent or null, then from `ph`; the temperature likewise from `temperature`, then `temp` |
| DashboardChart.Load | component/dashboard/chart.tsx:56-69 | One point per row of the two responses |
| DashboardChart.BySource | component/dashboard/chart.tsx:76-79 | A tank's list holds exactly the points of that tank |
| DashboardChart.BySourceAppend | component/dashboard/chart.tsx:76-79 | The filter keeps the input order across a concatenation |
| DashboardChart.BySourcePartition | component/dashboard/chart.tsx:76-79 | The two lists together hold every point exactly as often as the input |
| DashboardChart.LoadBySource | component/dashboard/chart.tsx:56-79 | Each chart gets exactly its own response's rows, normalised, in order |
| DashboardChart.MaxTimeSpec | component/dashboard/chart.tsx:84-87 | The fold is non-negative, at least every finite time, and either 0 or one of the times |
| DashboardChart.LatestDateSpec | component/dashboard/chart.tsx:81-89 | No rows give null; a result is positive, is some row's time, and no finite time exceeds it; null exactly when no finite time is positive |
| DashboardChart.ChartWidthSpec | component/dashboard/chart.tsx:96 | The width is at least 320 and 60 per point: 320 up to 5 points, 60 per point from 6 on |
| DashboardChart.LabelsRoundTrip | component/dashboard/chart.tsx:21-43 | Each series label gives back its key, and `labelFor` (lines 188-196) maps the key back to the label; other labels give no key |
| DashboardChart.TooltipUnitSpec | component/dashboard/chart.tsx:141-143 | mg/L for COD and TSS, none for pH, °C for Suhu, none for any other name |
| DashboardChart.EveryLineDrawn | component/dashboard/chart.tsx:147-148 | As written a metric's line is drawn exactly when the chart has any row |
| DashboardChart.PhLineWithoutPh | component/dashboard/chart.tsx:184-186 | A T-500 row has no pH, and as written it still draws a pH line |
| DashboardChart.LineDrawnSpec | component/dashboard/chart.tsx:148 | Corrected: a line is drawn exactly when some row has a value for it, so a metric no row has gets none; the T-500 row of PhLineWithoutPh draws COD but no pH or Suhu line |

## Left out

- Network and database I/O: connection pools, `db.query`/`db.exec` dispatch, the `pool` import of the task routes (it does not exist in lib/db.ts), HTTP requests and responses, and the 500 answers of the `catch` blocks. The database is a table of rows; WHERE is a predicate and ORDER BY a total preorder.
- The SQL engines themselves. `DATEADD`, `FROM_UNIXTIME`, `FIELD` and `CURDATE` are modelled only through their stated effect on the selection, the bucket key or the order. The GROUP BY averaging is left out.
- JavaScript `Date`. Parsing, `toISOString`, local-time getters, `toLocaleDateString`, `date-fns` `format` and daylight saving are parameters of the model. `addDays` is a shift by whole days.
- Spreadsheet libraries. ExcelJS `writeBuffer`, column widths, and the browser-side `XLSX.read`/`sheet_to_json` are left out. A sheet is its name, columns and rows.
- Floating point. Readings are reals. `NaN`, infinities, `toFixed` rounding and the text of the hue are left out or taken as parameters, and so is `Number(x)` of a string.
- URL encoding of the export query strings, and `window.open`.
- SensorExport.InRange: the range bounds are compared with the `DATETIME` text as text. The database converts them to `DATETIME` first, so the selection is exact only for bounds written `YYYY-MM-DD HH:MM:SS`, which is what the export form sends; a bound such as `2024-1-5 00:00:00` is not modelled.
- DashboardChart.ToNumber: `Number` of a JSON array or object is taken as not finite. JavaScript gives 0 for `[]` and the element for a one-element array; chart rows never hold arrays.
- Strings.ToLower, Strings.ToUpper: only ASCII letters are mapped.
- ChartpageRoute.BucketSec: an invalid date makes the width NaN in JavaScript; the model has no width then.
- ChartpageRoute.FloorKey: the MySQL bucket key is modelled for a session in UTC over seconds since 1970. In another session time zone `UNIX_TIMESTAMP` and `FROM_UNIXTIME` shift by the zone offset while SQL Server's `DATEDIFF(second, '1970-01-01', …)` counts wall-clock seconds, so the two dialects' keys can differ; and MySQL's `UNIX_TIMESTAMP` gives 0 for a time before 1970, which the model does not reproduce.
- ChartpageRoute.TruncKey: SQL Server's `DATEDIFF(second, …)` returns a 32-bit int and overflows after 2038-01-19; the model's seconds count is unbounded.
- The preset keys of chartpage.tsx come only from its Select options, so inherited keys of the preset map cannot occur and are not modelled.
- Client polling, shared state and markup: DataProvider, useLatest, the notification component, the navbar, the sidebar, the layouts and the pages.
- The other endpoints: last_data, chartdata and _debug.
- The MQTT collectors (mqtt_t500.py, mqtt_t700.py). They do Modbus/MQTT I/O in an endless loop.
- Chart rendering options, colours and legend styling.

## Findings

| source | as written | input that shows it | evidently intended | confidence | as-written member | corrected member |
|---|---|---|---|---|---|---|
| app/api/chartpage/route.ts:33 | `table in TABLES` also accepts property names inherited from `Object.prototype` | `?table=constructor&start=a&end=b` passes the whitelist. `TABLES[table].map` then fails and the answer is 500 "server error" | An own-key test, answering 400 "invalid table" | not executed | ChartpageRoute.InheritedKeyAccepted | ChartpageRoute.HandleSpec |
| component/dashboard/card.tsx:25 | The two-sided rule is keyed on the title "Temperature", but the dashboard's card is titled "Suhu" (app/page.tsx:34). That card falls to the linear 0..100 fallback | A "Suhu" card at 25 degrees gets severity 0.25, not the ideal band's 0 | The temperature rule for the "Suhu" card | not executed | Card.SuhuAsWritten | Card.SeverityIntended |
| component/dashboard/chart.tsx:184-186 | `isFiniteNum` of a normalised null value is true, since `Number(null)` is 0. So every series line is drawn whenever the chart has rows | A T-500 chart (rows without pH or temperature) draws pH and Suhu lines | Draw a line only when some row has a number for it | not executed | DashboardChart.PhLineWithoutPh | DashboardChart.LineDrawnSpec |
