# JustPingIt in Dafny

JustPingIt pings one host at a fixed rate, stores every result in a SQLite
table and shows the results in a small Qt application. This project models
the logic of that program and proves properties of the model:

- the result record (`Ping`) and its second-granularity timestamp;
- the log store (`DatabaseLogger`): schema creation, insertion with an
  AUTOINCREMENT id, the filtered and sorted query, and deletion by ids;
- the probe (`Pinger.ping_host`): the platform's ping command and the
  classification of its output;
- the polling loop (`Pinger.run` and `Pinger.stop`) as a sequential loop
  over a finite sequence of ticks;
- the path selection (`AppPaths`) in development and bundled mode, with
  the directories `get_db_path` creates;
- the session controls of the main window (`MainUI`) and the log viewer's
  load, export and delete logic (`LogViewer`).

Files:

- `Util.dfy`: `Option`, substring search and the byte-wise text order SQLite
  uses to compare TEXT values.
- `PingRecord.dfy`: dates, the `%Y-%m-%d %H:%M:%S` format and its parser,
  and `Ping`.
- `DatabaseLogging.dfy`: rows, SQL `LIKE`, the query, and the class
  `DatabaseLogger`.
- `Pinging.dfy`: the probe and the class `Pinger`. Module `ProbeSamples`
  holds one concrete ping output.
- `Paths.dfy`: `os.path.join` for POSIX paths and `AppPaths`.
- `Text.dfy`: `str.strip()`.
- `View.dfy`: the classes `LogViewer` and `MainUI`.

Whatever the program takes from outside is an input of the model:

- the outcome of the ping process, the platform name, and the clock;
- `sys._MEIPASS`, the resolved script directory and the app-data location;
- the stored settings and the user's answer to the confirmation dialog;
- whether a storage operation faults.

A storage fault is a boolean input. A faulted operation leaves the table as
it was: its transaction rolls back, and the program prints the error and
swallows it. `CREATE TABLE IF NOT EXISTS` leaves an existing table as it
is, faulted or not. Only when the table was missing does a faulted
`_create_table` leave the file without one (`hasTable` is false). Every later
operation on such a file then faults: inserts and deletes change nothing,
and queries return `[]`.

## Model

| member | source | states |
|---|---|---|
| PingRecord.NewPing | src/JustPingIt/model/ping.py:29-31 | A new ping keeps the given result and IP address unchanged, and its timestamp is 19 characters. |
| PingRecord.FormatWellFormed | src/JustPingIt/model/ping.py:30 | A formatted timestamp has 19 characters. `-` is at positions 4 and 7, a space at 10, `:` at 13 and 16, and digits are everywhere else. |
| PingRecord.ParseFormat | src/JustPingIt/model/ping.py:30 | Parsing a formatted valid date-time with the same format gives back its year, month, day, hour, minute and second. |
| PingRecord.FormatParse | src/JustPingIt/model/ping.py:30 | A text that parses is exactly the formatting of the value it parses to, so format and parse are mutual inverses. |
| PingRecord.ParseTimestamp | src/JustPingIt/model/ping.py:30 | A text that parses has the `YYYY-MM-DD HH:MM:SS` layout, and the value it parses to is a valid date-time. |
| PingRecord.PadValue | src/JustPingIt/model/ping.py:30 | A zero-padded field reads back as the number it encodes. |
| PingRecord.ValuePad | src/JustPingIt/model/ping.py:30 | Every digit string is the zero-padding of its value at its own width. |
| PingRecord.PadOrder | src/JustPingIt/model/ping.py:30 | Zero-padded fields of one width compare as text exactly as their numbers compare. |
| PingRecord.DateTextOrder | src/JustPingIt/model/ping.py:30 | For valid dates, the text order of `%Y-%m-%d` equals calendar order. |
| PingRecord.DateTextInjective | src/JustPingIt/model/ping.py:30 | Different valid dates give different date texts. |
| PingRecord.FormatOrder | src/JustPingIt/model/ping.py:30 | For valid date-times, the text order of two timestamps equals their chronological order. Comparisons and ORDER BY in the store rely on this. |
| PingRecord.NewPingTimestamp | src/JustPingIt/model/ping.py:30 | A new ping's timestamp is well formed and parses back to the clock reading it was made from. |
| PingRecord.NewPingOrder | src/JustPingIt/model/ping.py:30 | Two pings' timestamps compare as text exactly as their clock readings compare in time. |
| PingRecord.WeekBefore | src/JustPingIt/view/view.py:195 | `addDays(-7)` gives an earlier date with its month in range. The result is a valid date unless the input lies in the first week of year 1. |
| PingRecord.WeekBeforeIsSevenDays | src/JustPingIt/view/view.py:195 | For a valid date, `addDays(-7)` is exactly seven days earlier, counting days across month and year boundaries and leap years. |
| DatabaseLogging.DatabaseLogger.constructor | src/JustPingIt/model/database_logger.py:23-31 | Opening keeps the rows and counter already in the file. Afterwards the table exists unless it was missing and its creation faulted. |
| DatabaseLogging.DatabaseLogger.CreateTable | src/JustPingIt/model/database_logger.py:59-72 | CREATE TABLE IF NOT EXISTS never changes existing rows or the counter. It creates a missing table unless it faults. |
| DatabaseLogging.NewRow | src/JustPingIt/model/database_logger.py:89-92 | The inserted row holds the ping's result, timestamp and IP address, and its id is larger than the last id assigned. |
| DatabaseLogging.AppendValid | src/JustPingIt/model/database_logger.py:64 | The new row's id is larger than every id in the table, and appending it keeps ids unique, increasing and within the counter. |
| DatabaseLogging.DatabaseLogger.Log | src/JustPingIt/model/database_logger.py:86-95 | Without a fault, exactly one row is appended and the counter advances by one. With a fault, or with no table, the table and counter are unchanged and nothing reaches the caller. |
| DatabaseLogging.LikeAnything | src/JustPingIt/model/database_logger.py:123-124 | The pattern `%` matches every text. |
| DatabaseLogging.LikePrefix | src/JustPingIt/model/database_logger.py:123-124 | `p%` with a wildcard-free `p` matches exactly the texts whose case-folded prefix equals `p` case-folded. |
| DatabaseLogging.LikeLeadingPercent | src/JustPingIt/model/database_logger.py:123-124 | `%q` matches a text exactly when `q` matches one of its suffixes. |
| DatabaseLogging.LikeContains | src/JustPingIt/model/database_logger.py:122-124 | For a wildcard-free filter, `%f%` matches exactly the addresses that contain `f`, ignoring ASCII case. |
| DatabaseLogging.LikeContainsLiteral | src/JustPingIt/model/database_logger.py:122-124 | For a wildcard-free filter, and for a filter and address that ASCII case folding leaves unchanged (digits and dots), `%f%` matches exactly when the address contains the filter. |
| DatabaseLogging.MatchesMeaning | src/JustPingIt/model/database_logger.py:119-133 | The filters combine with AND. An empty or absent filter imposes nothing, a result filter is an exact match, and the date bounds are compared as text, both inclusive. |
| DatabaseLogging.BoundsAreTimestamps | src/JustPingIt/model/database_logger.py:128-133 | The two date bounds are the timestamps of 00:00:00 and 23:59:59 of their day. |
| DatabaseLogging.DateBoundsAreDays | src/JustPingIt/model/database_logger.py:128-133 | A timestamp is at or after the lower bound exactly when its day is on or after the from-date. It is at or before the upper bound exactly when its day is on or before the to-date. |
| DatabaseLogging.Select | src/JustPingIt/model/database_logger.py:119-138 | The WHERE clause keeps each matching row with its multiplicity and drops every other row. |
| DatabaseLogging.InsertSorted | src/JustPingIt/model/database_logger.py:135 | Inserting into a newest-first sequence keeps it newest-first and adds exactly that row. |
| DatabaseLogging.SortDesc | src/JustPingIt/model/database_logger.py:135 | ORDER BY timestamp DESC returns a permutation of its input with non-increasing timestamps. |
| DatabaseLogging.SortedIsNewestFirst | src/JustPingIt/model/database_logger.py:135 | In a sorted result, an earlier row is never older in time than a later one. |
| DatabaseLogging.Query | src/JustPingIt/model/database_logger.py:119-138 | The query result is newest first. It holds each matching row as often as the table does, and no other row. |
| DatabaseLogging.DatabaseLogger.FetchLogs | src/JustPingIt/model/database_logger.py:117-144 | The result is `[]` on a fault or with no table. Otherwise it is sorted newest first and is a permutation of exactly the matching rows. |
| DatabaseLogging.Deleted | src/JustPingIt/model/database_logger.py:159 | Exactly the rows whose id is listed disappear, and the result is no longer than the table. |
| DatabaseLogging.DeletedKeepsValid | src/JustPingIt/model/database_logger.py:159 | Deleting keeps ids unique and increasing, under the same counter. |
| DatabaseLogging.DeletedStep | src/JustPingIt/model/database_logger.py:159 | Deleting one more id after a list gives the same table as deleting the longer list. This is the `executemany` loop. |
| DatabaseLogging.DeletedAppend | src/JustPingIt/model/database_logger.py:159 | Deletion acts row by row: the other rows keep their order. |
| DatabaseLogging.DeletedAbsent | src/JustPingIt/model/database_logger.py:159 | Ids that no row has, and in particular an empty list, change nothing. |
| DatabaseLogging.DatabaseLogger.DeleteLogsByIds | src/JustPingIt/model/database_logger.py:156-161 | Without a fault, the table becomes the deletion of the listed ids and the counter stays. With a fault nothing changes. |
| Pinging.PingCommand | src/JustPingIt/model/pinger.py:141-156 | The command is `ping -n 1 ip` on a platform whose name starts with "win", and `ping -c 1 ip` on every other platform. |
| Pinging.Classify | src/JustPingIt/model/pinger.py:158-174 | The result is always "Success" or "Failure". |
| Pinging.PingHost | src/JustPingIt/model/pinger.py:122-174 | "Success" only when the platform's command completed. |
| Pinging.FailureIndicatorWins | src/JustPingIt/model/pinger.py:158-163 | Output containing "unreachable", "100% packet loss" or "timed out" is a failure, even when a reply indicator is also present. |
| Pinging.ReplyIsSuccess | src/JustPingIt/model/pinger.py:164-165 | Output containing "Reply from" or "bytes from" and no failure indicator is a success. |
| Pinging.SuccessMeansReply | src/JustPingIt/model/pinger.py:158-167 | A success comes only from completed output that has a reply indicator and no failure indicator. |
| Pinging.AmbiguousIsFailure | src/JustPingIt/model/pinger.py:166-167 | Output with neither kind of indicator is a failure. |
| Pinging.CapitalUnreachableFallsThrough | src/JustPingIt/model/pinger.py:158-167 | Matching is case-sensitive. "Destination Host Unreachable" has no failure indicator and no reply indicator, and it fails through the fallback branch. |
| Pinging.FaultIsFailure | src/JustPingIt/model/pinger.py:168-174 | A non-zero exit, a timeout or any other exception gives "Failure", never an error. |
| Pinging.TickPing | src/JustPingIt/model/pinger.py:99-100 | Each tick's ping carries the pinger's IP and the classification of that tick's probe. |
| Pinging.TicksRun | src/JustPingIt/model/pinger.py:98 | The loop runs until the first tick during which a stop was requested, inclusive, or to the end of the ticks. At least one tick runs if there is any. |
| Pinging.TracePerPing | src/JustPingIt/model/pinger.py:101-102 | Each ping is logged and then emitted, with the log call first. |
| Pinging.StopDuringFirstTick | src/JustPingIt/model/pinger.py:98-102 | A stop during a tick still gives exactly one log call and one emission, for the pinger's IP, with the log first. |
| Pinging.Pinger.constructor | src/JustPingIt/model/pinger.py:66-72 | The IP, frequency and logger are stored. The running flag is set and the thread has not started. |
| Pinging.Pinger.Stop | src/JustPingIt/model/pinger.py:117-120 | `stop` clears the running flag and changes nothing else. |
| Pinging.Pinger.Start | src/JustPingIt/view/view.py:545 | Starting the thread changes nothing but the thread state. |
| Pinging.Pinger.Wait | src/JustPingIt/view/view.py:542 | Waiting after `stop` returns with the thread finished, or still not started. |
| Pinging.NumberedRows | src/JustPingIt/model/database_logger.py:64 | Consecutive inserts append rows that hold exactly the inserted pings, in order. Their ids are one more than the counter, then two more, and so on. The table stays valid under the advanced counter. |
| Pinging.Pinger.RunOnce | src/JustPingIt/model/pinger.py:99-102 | One pass probes, logs and emits. When the table exists and the insert does not fault, exactly one row holding the ping is appended under the next id, and the counter advances by one. Otherwise rows and counter stay. A stop during the pass clears the flag without cutting the pass short. |
| Pinging.Pinger.Run | src/JustPingIt/model/pinger.py:98-106 | The number of passes is that of `TicksRun`, or zero when already stopped. The effects are one log and one emission per pass, in order. The table gains exactly the rows of the pings whose insert did not fault, in order, under consecutive ids above the old counter. The counter advances by their number. The flag stays set only if no stop came. |
| Paths.JoinTwoCases | src/JustPingIt/model/path.py:88 | Joining a relative component onto a non-empty directory that does not end in `/` inserts exactly one `/`. After an empty directory, or one ending in `/`, the two are simply concatenated. The result starts with the directory and ends with the component. An absolute component replaces the directory. |
| Paths.Join | src/JustPingIt/model/path.py:84-86 | A join of several components ends with the last component. |
| Paths.JoinPlain | src/JustPingIt/model/path.py:84-86 | Relative components joined onto a plain directory are separated by exactly one `/` each. |
| Paths.BasePath | src/JustPingIt/model/path.py:66-71 | The base path is `_MEIPASS` when it exists. Otherwise it is the resolved script root. |
| Paths.NewAppPaths | src/JustPingIt/model/path.py:50-53 | Dev mode holds exactly when `_MEIPASS` is absent. The filenames are "JPI.ico" and "ping_log.db". |
| Paths.IconPathLayout | src/JustPingIt/model/path.py:83-88 | The icon is `base/data/img/JPI.ico` in dev mode and `base/JPI.ico` when bundled. |
| Paths.IconPathIsJoin | src/JustPingIt/model/path.py:83-88 | The icon path is `join(base, "data", "img", icon)` in dev mode and `join(base, icon)` when bundled. |
| Paths.IconPathNamesIcon | src/JustPingIt/model/path.py:83-88 | Whatever the base, the icon path ends with the icon's filename. |
| Paths.DbPathIsJoin | src/JustPingIt/model/path.py:107-116 | In dev mode the database path is `join(base, "data", "db", db)`. When bundled, the second directory created is `join(appdata, "data")`, and the path is the join of that folder and the filename. |
| Paths.DbPathShape | src/JustPingIt/model/path.py:107-116 | In both modes the path ends with the database filename. The app-data location is looked up exactly when bundled, and two directories are created then and none in dev mode. |
| Paths.DevDbPath | src/JustPingIt/model/path.py:107-108 | In dev mode the database is `base/data/db/ping_log.db`. No directory is created, the app-data location is not read, and the result does not depend on it. |
| Paths.BundledDbPath | src/JustPingIt/model/path.py:110-116 | When bundled, app-data and then its `data` folder are created, both with `exist_ok`. The database lies directly in the `data` folder, which lies inside app-data. |
| Paths.BundledDbPathPlain | src/JustPingIt/model/path.py:110-116 | For a plain app-data folder, the database is `appdata/data/ping_log.db`, after `makedirs(appdata)` and `makedirs(appdata/data)`. |
| Text.SkipSpaces | src/JustPingIt/view/view.py:256 | The leading-whitespace scan stops at the first character that is not whitespace. |
| Text.TrimSpaces | src/JustPingIt/view/view.py:256 | The trailing-whitespace scan stops after the last character that is not whitespace. |
| Text.StripSpan | src/JustPingIt/view/view.py:256 | Strip keeps a span with only whitespace outside it and no whitespace at either end of it. |
| Text.Strip | src/JustPingIt/view/view.py:533 | The stripped text is empty exactly when the input is all whitespace. Otherwise it starts and ends with a character that is not whitespace. |
| Text.StripIdempotent | src/JustPingIt/view/view.py:493-494 | Stripping twice equals stripping once. The IP is saved stripped (view.py:509) and loaded back into the input at the next start, where `start_pinging` strips it again (view.py:533). So the restored IP reaches the pinger unchanged. |
| View.Ids | src/JustPingIt/view/view.py:328 | The ids to delete are the shown rows' ids, position by position. |
| View.CellsDropOnlyId | src/JustPingIt/view/view.py:265 | A shown row has three cells. With its id put back they give the row again, so two rows show the same cells exactly when they hold the same ping. |
| View.ExportedLines | src/JustPingIt/view/view.py:290-300 | Nothing is written when no rows are shown or no file is chosen. Otherwise the header comes first, then one line of cells per shown row, in order. |
| View.ExportRoundTrip | src/JustPingIt/view/view.py:298-300 | The exported lines together with the shown ids give back the shown rows. |
| View.ResultFilter | src/JustPingIt/view/view.py:257-258 | "All" becomes the empty filter, and any other choice is passed unchanged. |
| View.ResultChoiceMeaning | src/JustPingIt/view/view.py:257-261 | "All" imposes no condition on the result. "Success" and "Failure" keep exactly the rows with that result. |
| View.IdsIdentify | src/JustPingIt/model/database_logger.py:64 | In a valid table, two rows with the same id are the same row. |
| View.QueryMembers | src/JustPingIt/view/view.py:261 | The rows a load shows are exactly the table's rows that match its filters. |
| View.DeleteShownRows | src/JustPingIt/view/view.py:328-329 | Deleting the shown rows' ids removes exactly the shown rows and keeps every other row. |
| View.ReloadAfterDeleteIsEmpty | src/JustPingIt/view/view.py:328-330 | After the shown rows are deleted, reloading with the same filters shows nothing. |
| View.LogViewer.constructor | src/JustPingIt/view/view.py:186-199 | The viewer starts hidden, with an empty IP filter and "All". The from-date is `WeekBefore(today)`, seven days before the to-date `today`. The table is empty. |
| View.LogViewer.LoadLogs | src/JustPingIt/view/view.py:256-268 | The fetch gets the stripped IP, "All" mapped to "", and both dates. The table gets a new row count and one cell per column per fetched row, without the id. |
| View.LogViewer.NewTable | src/JustPingIt/view/view.py:263-268 | The nested loops leave a fresh table with as many rows as fetched, each holding that row's cells. |
| View.LogViewer.FillRow | src/JustPingIt/view/view.py:265-268 | The inner loop puts cell `c` of the row in column `c` of table row `i`, and leaves every other table row as it was. |
| View.LogViewer.RefreshIfVisible | src/JustPingIt/view/view.py:584-585 | A visible viewer reloads with its own filters. A hidden one is left entirely unchanged. The filters and visibility stay in both cases. |
| View.LogViewer.ExportLogs | src/JustPingIt/view/view.py:290-300 | The file's lines are exactly `ExportedLines` of the shown rows and the chosen file. |
| View.LogViewer.DeleteLogs | src/JustPingIt/view/view.py:319-330 | With no rows shown, or no confirmation, nothing changes. Otherwise the store deletes exactly the shown rows' ids and the viewer reloads with its filters. |
| View.LogViewer.Show | src/JustPingIt/view/view.py:595 | `show` makes the viewer visible and keeps its rows, table and filters. |
| View.LogViewer.Close | src/JustPingIt/view/view.py:628 | `close` hides the viewer and keeps its rows, table and filters. |
| View.SpinBoxValue | src/JustPingIt/view/view.py:448 | The frequency input holds a value from 1 to 99. It keeps any value in that range and clamps any other. |
| View.ResultColor | src/JustPingIt/view/view.py:581 | The label is green exactly when the result is "Success", and red otherwise. |
| View.ResultMessage | src/JustPingIt/view/view.py:583 | The label text is the result, then exactly " at ", then the timestamp, and nothing else. |
| View.ResultMessageTimestamp | src/JustPingIt/view/view.py:583 | The last 19 characters of a fresh ping's label parse back to the clock reading the ping was made from. |
| View.MainUI.constructor | src/JustPingIt/view/view.py:390-401 | The logger is opened on `get_db_path()` and shared with the viewer. Its rows and counter are those already in the file, and its table exists unless it was missing and creating it faulted. The viewer starts hidden, with the default filters from `WeekBefore(today)` to `today` and an empty table. There is no pinger and the controls are idle. The inputs hold the stored settings or their defaults ("" and 1, clamped to the spin box). |
| View.MainUI.OpenLogger | src/JustPingIt/view/view.py:392 | The logger's file is the path `get_db_path` gives. It holds the rows and counter already stored, and its table exists unless it was missing and creating it faulted. |
| View.MainUI.StartPinging | src/JustPingIt/view/view.py:533-549 | An IP that strips to nothing only sets the orange message: no pinger is made and nothing is saved. Otherwise the settings are saved and any previous pinger is stopped and waited for. One new started pinger for the stripped IP replaces it, and only stop is enabled. |
| View.MainUI.StopPinging | src/JustPingIt/view/view.py:560-567 | Any pinger is stopped, waited for and dropped, and the inputs and start are enabled again. This also holds when there is no pinger. |
| View.MainUI.DisplayResult | src/JustPingIt/view/view.py:581-585 | The label shows "<result> at <timestamp>" in green or red. An open viewer reloads with its filters, which stay as they were. A hidden viewer is unchanged, and nothing else changes. |
| View.MainUI.ShowLogViewer | src/JustPingIt/view/view.py:594-595 | The viewer is reloaded with its own filters, which stay as they were, and then shown. |
| View.MainUI.Cleanup | src/JustPingIt/view/view.py:625-629 | Any pinger is stopped and waited for but kept in the field. Then the viewer closes, keeping its rows and filters, and the main window's close is requested. |

## Left out

- SQLite's connections, journal and concurrency are left out. Each operation is atomic, and a fault is a boolean input that rolls the operation back. The printed error messages are not modelled, nor is the one `ping_host` prints for an unexpected exception (pinger.py:173), which tests/test_pinger.py:75 checks.
- `DatabaseLogging.DatabaseLogger.Log`: the NOT NULL constraint is not checked on the fields. An insert that the constraint would reject is the `fault` case.
- `DatabaseLogging.SortDesc`: rows with equal timestamps come out in insertion order. SQLite does not promise any tie order, and the contracts state none.
- `PingRecord.FormatTimestamp` pads the year to four digits. The platform's `strftime("%Y")` may not pad years below 1000. Text order equals time order only for the modelled years 1 to 9999.
- `PingRecord.ParseTimestamp` accepts exactly the 19-character layout. Python's `strptime` also accepts unpadded fields; that leniency is not modelled.
- `datetime.now()` is an input to `NewPing`.
- `View.LogViewer.constructor` reads the clock once: `today` stands for both `QDate.currentDate()` calls (view.py:195 and 199), so a midnight between them is not modelled. `WeekBefore` is defined on the dates `date` holds; for the first week of year 1 it gives a date before year 1, where `QDate` would count back into 1 BC.
- `subprocess.check_output`: running the process, the 3-second timeout, `STARTUPINFO` and `CREATE_NO_WINDOW` are left out. The process's outcome is an input. A decode error is one of the `Unexpected` outcomes.
- `Pinging.ReplyIsSuccess` is proved for any reply text. The concrete Unix sample output from the tests is not checked character by character.
- `QThread`, `QMutex`, `QWaitCondition`, the signal and slot connection, and the timed wait between passes (`frequency`) are left out. `Pinging.Pinger.Run` runs passes one after the other over a finite sequence of ticks. A stop from another thread is a flag on the tick during which it arrives.
- `Pinging.Pinger.Wait` is the join after `stop`, not a model of thread scheduling.
- `Paths.JoinTwo` follows `posixpath.join`. Windows drive letters and backslashes (`ntpath`) are not modelled.
- `os.path.abspath(__file__)` is not computed: the resolved script root is an input.
- `QStandardPaths` is not computed: the app-data location is an input.
- `os.makedirs` is recorded as a call rather than performed. Its `OSError` cases are not modelled.
- `QSettings` persistence is not modelled: the stored values are constructor inputs and the saved values are fields. A stored frequency that is not a number is not modelled.
- `AboutDialog`, the markdown rendering, widget layout, the window icon and `show_about_dialog` are left out.
- `QMessageBox` is left out: the delete confirmation is a boolean input.
- `QFileDialog` is left out: the chosen file name is an input, and the empty name models a cancel.
- The `csv` writer's quoting and the export's file-write error are not modelled. `export_logs` is modelled as the lines it writes.
- `closeEvent` (hide and show a tray message instead of closing) is not modelled. `cleanup` only records that `close` was called.
- tests/test_view.py:149 calls `close_event`, which view.py does not define.
- `View.LogViewer.constructor` starts with no shown rows. view.py never sets `current_logs` before the first `load_logs`, so a delete or export before any load would raise `AttributeError`. In the application the viewer is shown only through `show_log_viewer`, which loads first.
- The application wiring in main.py (tray menu, `aboutToQuit`, `app.exec`) and the package re-exports are not part of this model.
