/** The logic behind the two windows: the main window's session controls
    (`MainUI`) and the log viewer (`LogViewer`). Widgets are reduced to the
    values the logic reads and writes: input texts, enabled flags, the
    result label's text and style, and the log table's cells. */
module View {
  import opened Util
  import opened PingRecord
  import opened DatabaseLogging
  import opened Pinging
  import opened Paths
  import opened Text

  // ---------------------------------------------------------------------
  // The log viewer's rows

  /** `row[1:]` of a fetched row: every column but the id, in order. */
  function Cells(r: Row): seq<string> {
    [r.result, r.timestamp, r.ipAddress]
  }

  /** The export file's first line. */
  const ExportHeader: seq<string> := ["Result", "Timestamp", "IP Address"]

  /** `[row[0] for row in current_logs]`. */
  function Ids(rows: seq<Row>): (ids: seq<int>)
    ensures |ids| == |rows|
    ensures forall i | 0 <= i < |rows| :: ids[i] == rows[i].id
  {
    seq(|rows|, i requires 0 <= i < |rows| => rows[i].id)
  }

  /** The projection drops the id and nothing else: with the id it gives
      the row back, and two rows show the same cells exactly when they hold
      the same ping. */
  lemma CellsDropOnlyId(r: Row, s: Row)
    ensures |Cells(r)| == |ExportHeader|
    ensures Row(r.id, Cells(r)[0], Cells(r)[1], Cells(r)[2]) == r
    ensures Cells(r) == Cells(s) <==> RowPing(r) == RowPing(s)
  {
    if Cells(r) == Cells(s) {
      assert Cells(r)[0] == Cells(s)[0] && Cells(r)[1] == Cells(s)[1] && Cells(r)[2] == Cells(s)[2];
    }
  }

  /** The lines `export_logs` writes for the shown rows and the chosen
      file name: nothing when no rows are shown or the dialog is
      cancelled, else the header and one line of cells per row. */
  function ExportedLines(rows: seq<Row>, filePath: string): (lines: Option<seq<seq<string>>>)
    ensures lines.Some? <==> rows != [] && filePath != ""
    ensures lines.Some? ==>
      |lines.value| == |rows| + 1 && lines.value[0] == ExportHeader
      && forall i | 0 <= i < |rows| :: lines.value[i + 1] == Cells(rows[i])
  {
    if rows == [] || filePath == "" then None
    else Some([ExportHeader] + seq(|rows|, i requires 0 <= i < |rows| => Cells(rows[i])))
  }

  /** The exported lines and the shown ids together give back the shown
      rows: the file lacks only the id column. */
  lemma ExportRoundTrip(rows: seq<Row>, filePath: string)
    requires rows != [] && filePath != ""
    ensures var lines := ExportedLines(rows, filePath).value;
      forall i | 0 <= i < |rows| ::
        Row(Ids(rows)[i], lines[i + 1][0], lines[i + 1][1], lines[i + 1][2]) == rows[i]
  {
    var lines := ExportedLines(rows, filePath).value;
    forall i | 0 <= i < |rows|
      ensures Row(Ids(rows)[i], lines[i + 1][0], lines[i + 1][1], lines[i + 1][2]) == rows[i]
    {
      CellsDropOnlyId(rows[i], rows[i]);
    }
  }

  /** The result combo box's choice as `fetch_logs` receives it. */
  function ResultFilter(choice: string): (r: string)
    ensures r == "" <==> choice == "All" || choice == ""
    ensures choice != "All" ==> r == choice
  {
    if choice == "All" then "" else choice
  }

  /** "All" imposes no condition on the result; any other choice keeps
      exactly the rows with that result. */
  lemma ResultChoiceMeaning(ip: string, choice: string, fromDate: Option<Date>, toDate: Option<Date>, x: Row)
    requires choice == "All" || choice == "Success" || choice == "Failure"
    ensures Matches(Filters(ip, ResultFilter(choice), fromDate, toDate), x) <==>
      Matches(Filters(ip, "", fromDate, toDate), x) && (choice == "All" || x.result == choice)
  {
  }

  /** Rows of a valid table are told apart by their ids. */
  lemma IdsIdentify(rows: seq<Row>, lastId: nat, x: Row, y: Row)
    requires RowsValid(rows, lastId) && x in rows && y in rows && x.id == y.id
    ensures x == y
  {
    var i :| 0 <= i < |rows| && rows[i] == x;
    var j :| 0 <= j < |rows| && rows[j] == y;
    if i < j {
      assert rows[i].id < rows[j].id;
    } else if j < i {
      assert rows[j].id < rows[i].id;
    }
  }

  /** The rows a query shows are the table's rows that match its filters. */
  lemma QueryMembers(rows: seq<Row>, f: Filters, x: Row)
    ensures x in Query(rows, f) <==> x in rows && Matches(f, x)
  {
    assert x in Query(rows, f) <==> x in multiset(Query(rows, f));
    assert x in Select(rows, f) <==> x in multiset(Select(rows, f));
  }

  /** Deleting the ids of the rows a query shows removes exactly those
      rows. */
  lemma DeleteShownRows(rows: seq<Row>, lastId: nat, f: Filters, x: Row)
    requires RowsValid(rows, lastId)
    ensures x in Deleted(rows, Ids(Query(rows, f))) <==> x in rows && x !in Query(rows, f)
  {
    var shown := Query(rows, f);
    var ids := Ids(shown);
    if x in rows && x.id in ids {
      var k :| 0 <= k < |ids| && ids[k] == x.id;
      QueryMembers(rows, f, shown[k]);
      IdsIdentify(rows, lastId, x, shown[k]);
    }
    if x in shown {
      assert x.id == ids[IndexOf(shown, x)];
    }
  }

  /** After the shown rows are deleted, the same query shows nothing. */
  lemma ReloadAfterDeleteIsEmpty(rows: seq<Row>, lastId: nat, f: Filters)
    requires RowsValid(rows, lastId)
    ensures Query(Deleted(rows, Ids(Query(rows, f))), f) == []
  {
    var again := Query(Deleted(rows, Ids(Query(rows, f))), f);
    forall x ensures multiset(again)[x] == 0 {
      NotShownAgain(rows, lastId, f, x);
    }
    assert multiset(again) == multiset{};
    assert |again| == |multiset(again)| == 0;
  }

  lemma NotShownAgain(rows: seq<Row>, lastId: nat, f: Filters, x: Row)
    requires RowsValid(rows, lastId)
    ensures x !in Query(Deleted(rows, Ids(Query(rows, f))), f)
  {
    var left := Deleted(rows, Ids(Query(rows, f)));
    DeleteShownRows(rows, lastId, f, x);
    QueryMembers(left, f, x);
    QueryMembers(rows, f, x);
  }

  /** An index where `x` occurs in `s`. */
  function IndexOf(s: seq<Row>, x: Row): (k: nat)
    requires x in s
    ensures k < |s| && s[k] == x
  {
    if s[0] == x then 0 else 1 + IndexOf(s[1..], x)
  }

  // ---------------------------------------------------------------------
  // LogViewer

  /** `t` holds one row per row of `rows`, its cells under the header's
      three columns. */
  predicate Tabulates(t: array2<string>, rows: seq<Row>)
    reads t
  {
    t.Length0 == |rows| && t.Length1 == |ExportHeader|
    && forall i, j | 0 <= i < t.Length0 && 0 <= j < t.Length1 :: t[i, j] == Cells(rows[i])[j]
  }

  class LogViewer {
    const logger: DatabaseLogger
    /** The IP filter's text, the result combo box's choice and the two
        date pickers. */
    var filterIp: string
    var filterResult: string
    var filterFrom: Date
    var filterTo: Date
    /** The rows last fetched, as `fetch_logs` returned them. */
    var currentLogs: seq<Row>
    /** The table widget's cells, three columns per row. */
    var table: array2<string>
    var visible: bool

    /** The table shows the current rows without their ids. */
    predicate Shows()
      reads this, table
    {
      Tabulates(table, currentLogs)
    }

    /** `LogViewer(logger)`: empty IP filter, "All" results, the range from
        a week before `today` (the clock's date) to `today`, an empty table. */
    constructor (logger: DatabaseLogger, today: Date)
      requires ValidDate(today)
      ensures this.logger == logger
      ensures filterIp == "" && filterResult == "All" && filterFrom == WeekBefore(today) && filterTo == today
      ensures currentLogs == [] && !visible && fresh(table) && Shows()
    {
      this.logger := logger;
      filterIp := "";
      filterResult := "All";
      filterFrom := WeekBefore(today);
      filterTo := today;
      currentLogs := [];
      table := new string[0, 3];
      visible := false;
    }

    /** `load_logs`: fetch with the stripped IP, "All" as no result filter
        and both dates, then fill a table of that many rows cell by cell. */
    method LoadLogs(fault: bool)
      modifies this
      ensures currentLogs == logger.FetchLogs(Strip(filterIp), ResultFilter(filterResult),
                                             Some(filterFrom), Some(filterTo), fault)
      ensures fresh(table) && Shows()
      ensures filterIp == old(filterIp) && filterResult == old(filterResult)
      ensures filterFrom == old(filterFrom) && filterTo == old(filterTo) && visible == old(visible)
    {
      var ip := Strip(filterIp);
      var result := ResultFilter(filterResult);
      currentLogs := logger.FetchLogs(ip, result, Some(filterFrom), Some(filterTo), fault);
      table := NewTable(currentLogs);
    }

    /** `if self.log_viewer.isVisible(): self.log_viewer.load_logs()`. */
    method RefreshIfVisible(fault: bool)
      modifies this
      ensures old(visible) ==>
        currentLogs == logger.FetchLogs(Strip(filterIp), ResultFilter(filterResult),
                                        Some(filterFrom), Some(filterTo), fault)
        && fresh(table) && Shows()
      ensures !old(visible) ==> unchanged(this)
      ensures filterIp == old(filterIp) && filterResult == old(filterResult)
      ensures filterFrom == old(filterFrom) && filterTo == old(filterTo) && visible == old(visible)
    {
      if visible {
        LoadLogs(fault);
      }
    }

    /** The table `load_logs` fills: as many rows as fetched, each filled
        cell by cell. */
    static method NewTable(rows: seq<Row>) returns (t: array2<string>)
      ensures fresh(t) && Tabulates(t, rows)
    {
      t := new string[|rows|, 3];
      for i := 0 to |rows|
        invariant forall r, c | 0 <= r < i && 0 <= c < 3 :: t[r, c] == Cells(rows[r])[c]
      {
        FillRow(t, i, Cells(rows[i]));
      }
    }

    /** The inner loop of `load_logs`: one cell per column of row `i`. */
    static method FillRow(t: array2<string>, i: nat, cells: seq<string>)
      requires i < t.Length0 && t.Length1 == |cells|
      modifies t
      ensures forall c | 0 <= c < |cells| :: t[i, c] == cells[c]
      ensures forall r, c | 0 <= r < t.Length0 && r != i && 0 <= c < t.Length1 :: t[r, c] == old(t[r, c])
    {
      for j := 0 to |cells|
        invariant forall c | 0 <= c < j :: t[i, c] == cells[c]
        invariant forall r, c | 0 <= r < t.Length0 && r != i && 0 <= c < t.Length1 :: t[r, c] == old(t[r, c])
      {
        t[i, j] := cells[j];
      }
    }

    /** `export_logs`: the header, then the cells of each shown row in
        turn; nothing when no rows are shown or no file was chosen. */
    method ExportLogs(filePath: string) returns (written: Option<seq<seq<string>>>)
      ensures written == ExportedLines(currentLogs, filePath)
    {
      if currentLogs == [] || filePath == "" {
        return None;
      }
      var lines := [ExportHeader];
      for i := 0 to |currentLogs|
        invariant |lines| == i + 1 && lines[0] == ExportHeader
        invariant forall k | 0 <= k < i :: lines[k + 1] == Cells(currentLogs[k])
      {
        lines := lines + [Cells(currentLogs[i])];
      }
      assert lines == ExportedLines(currentLogs, filePath).value;
      written := Some(lines);
    }

    /** `delete_logs`: with rows shown and the deletion `confirmed`, delete
        the ids of exactly the shown rows, then reload. */
    method DeleteLogs(confirmed: bool, deleteFault: bool, readFault: bool)
      requires logger.Valid()
      modifies this, logger
      ensures logger.Valid() && logger.hasTable == old(logger.hasTable) && logger.lastId == old(logger.lastId)
      ensures old(currentLogs) == [] || !confirmed ==> unchanged(this) && unchanged(logger)
      ensures old(currentLogs) != [] && confirmed ==>
        logger.rows == (if old(logger.hasTable) && !deleteFault
                        then Deleted(old(logger.rows), Ids(old(currentLogs))) else old(logger.rows))
        && currentLogs == logger.FetchLogs(Strip(filterIp), ResultFilter(filterResult),
                                           Some(filterFrom), Some(filterTo), readFault)
        && fresh(table) && Shows()
      ensures filterIp == old(filterIp) && filterResult == old(filterResult)
      ensures filterFrom == old(filterFrom) && filterTo == old(filterTo) && visible == old(visible)
    {
      if currentLogs == [] || !confirmed {
        return;
      }
      var ids := Ids(currentLogs);
      logger.DeleteLogsByIds(ids, deleteFault);
      LoadLogs(readFault);
    }

    /** `show`. */
    method Show()
      modifies this
      ensures visible
      ensures currentLogs == old(currentLogs) && table == old(table)
      ensures filterIp == old(filterIp) && filterResult == old(filterResult)
      ensures filterFrom == old(filterFrom) && filterTo == old(filterTo)
    {
      visible := true;
    }

    /** `close`. */
    method Close()
      modifies this
      ensures !visible
      ensures currentLogs == old(currentLogs) && table == old(table)
      ensures filterIp == old(filterIp) && filterResult == old(filterResult)
      ensures filterFrom == old(filterFrom) && filterTo == old(filterTo)
    {
      visible := false;
    }
  }

  // ---------------------------------------------------------------------
  // MainUI

  /** The enabled flags of the IP input, the frequency input and the start
      and stop buttons. */
  datatype Controls = Controls(ipInput: bool, freqInput: bool, startButton: bool, stopButton: bool)

  const Idle := Controls(true, true, true, false)
  const Active := Controls(false, false, false, true)

  const MissingIpMessage := "Please enter an IP address."

  /** What `QSpinBox.setValue` keeps of `v` with the range the frequency
      input has (minimum 1, Qt's default maximum 99). */
  function SpinBoxValue(v: int): (r: int)
    ensures 1 <= r <= 99
    ensures 1 <= v <= 99 ==> r == v
    ensures v < 1 ==> r == 1
    ensures v > 99 ==> r == 99
  {
    if v < 1 then 1 else if v > 99 then 99 else v
  }

  /** The thread state `wait` leaves after `stop`. */
  function Joined(t: ThreadState): ThreadState {
    if t == NotStarted then NotStarted else Finished
  }

  /** The colour of the result label: green for a success, red for any
      other result. */
  function ResultColor(result: string): (color: string)
    ensures color == "green" || color == "red"
    ensures color == "green" <==> result == "Success"
  {
    if result == "Success" then "green" else "red"
  }

  /** `f"{ping.result} at {ping.timestamp}"`: the result leads and the
      timestamp closes the text. */
  function ResultMessage(p: Ping): (text: string)
    ensures |text| == |p.result| + 4 + |p.timestamp|
    ensures text[..|p.result|] == p.result
    ensures text[|p.result|..|p.result| + 4] == " at "
    ensures text[|text| - |p.timestamp|..] == p.timestamp
  {
    var text := p.result + " at " + p.timestamp;
    assert text[|p.result|..|p.result| + 4] == " at ";
    assert text[|text| - |p.timestamp|..] == p.timestamp;
    text
  }

  /** The label shown for a fresh ping ends with its timestamp, which reads
      back as the clock value it was taken at. */
  lemma ResultMessageTimestamp(result: string, ip: string, now: DateTime)
    requires ValidDateTime(now)
    ensures var text := ResultMessage(NewPing(result, ip, now));
      |text| >= 19 && ParseTimestamp(text[|text| - 19..]) == Some(now)
  {
    NewPingTimestamp(result, ip, now);
  }

  /** What opening the database file gives: the stored table if there was
      one, else a new empty table unless creating it faulted. */
  predicate OpenedFrom(db: DatabaseLogger, onDisk: Option<StoredTable>, schemaFault: bool)
    reads db
  {
    db.hasTable == (onDisk.Some? || !schemaFault)
    && db.rows == (if onDisk.Some? then onDisk.value.rows else [])
    && db.lastId == (if onDisk.Some? then onDisk.value.lastId else 0)
  }

  class MainUI {
    const logger: DatabaseLogger
    const logViewer: LogViewer
    var pinger: Pinger?
    var controls: Controls
    /** The IP input's text and the frequency spin box's value. */
    var ipText: string
    var frequency: int
    /** The "ip" and "frequency" entries of the application's settings. */
    var savedIp: Option<string>
    var savedFrequency: Option<int>
    /** The result label's text and style sheet. */
    var resultText: string
    var resultStyle: string
    /** Whether `close` has been called on the main window. */
    var closeRequested: bool

    /** The controls tell whether a session runs: inputs and start enabled
        with no pinger, only stop enabled with one. */
    predicate SessionShown()
      reads this
    {
      controls == if pinger == null then Idle else Active
    }

    /** `MainUI(tray_icon, app_paths)`: opens the logger on the path the
        paths object gives, builds the log viewer on it, and loads the
        settings into the inputs. */
    constructor (paths: AppPaths, appData: string, onDisk: Option<StoredTable>, schemaFault: bool,
                 storedIp: Option<string>, storedFrequency: Option<int>, today: Date)
      requires onDisk.Some? ==> RowsValid(onDisk.value.rows, onDisk.value.lastId)
      requires ValidDate(today)
      ensures fresh(logger) && logger.Valid() && logger.dbPath == DbPath(paths, appData).path
      ensures OpenedFrom(logger, onDisk, schemaFault)
      ensures fresh(logViewer) && logViewer.logger == logger && !logViewer.visible
      ensures logViewer.filterIp == "" && logViewer.filterResult == "All"
      ensures logViewer.filterFrom == WeekBefore(today) && logViewer.filterTo == today
      ensures logViewer.currentLogs == [] && logViewer.Shows()
      ensures pinger == null && controls == Idle && SessionShown()
      ensures ipText == (if storedIp.Some? then storedIp.value else "")
      ensures frequency == SpinBoxValue(if storedFrequency.Some? then storedFrequency.value else 1)
      ensures savedIp == storedIp && savedFrequency == storedFrequency
      ensures resultText == " " && resultStyle == "" && !closeRequested
    {
      var db := OpenLogger(paths, appData, onDisk, schemaFault);
      logger := db;
      logViewer := new LogViewer(db, today);
      pinger := null;
      controls := Idle;
      ipText := if storedIp.Some? then storedIp.value else "";
      frequency := SpinBoxValue(if storedFrequency.Some? then storedFrequency.value else 1);
      savedIp := storedIp;
      savedFrequency := storedFrequency;
      resultText := " ";
      resultStyle := "";
      closeRequested := false;
    }

    /** `DatabaseLogger(self.paths.get_db_path())`. */
    static method OpenLogger(paths: AppPaths, appData: string, onDisk: Option<StoredTable>, schemaFault: bool)
      returns (db: DatabaseLogger)
      requires onDisk.Some? ==> RowsValid(onDisk.value.rows, onDisk.value.lastId)
      ensures fresh(db) && db.Valid() && db.dbPath == DbPath(paths, appData).path
      ensures OpenedFrom(db, onDisk, schemaFault)
    {
      db := new DatabaseLogger(DbPath(paths, appData).path, onDisk, schemaFault);
    }

    /** `start_pinging`. An IP that strips to nothing only sets the warning.
        Otherwise the settings are saved, a running pinger is stopped and
        waited for, and a new pinger for the stripped IP is started, with
        only the stop button left enabled. */
    method StartPinging()
      modifies this, pinger
      ensures ipText == old(ipText) && frequency == old(frequency) && closeRequested == old(closeRequested)
      ensures Strip(ipText) == [] ==>
        resultText == MissingIpMessage && resultStyle == "color: orange;"
        && pinger == old(pinger) && controls == old(controls)
        && savedIp == old(savedIp) && savedFrequency == old(savedFrequency)
        && (old(pinger) != null ==> unchanged(old(pinger)))
      ensures Strip(ipText) != [] ==>
        savedIp == Some(Strip(ipText)) && savedFrequency == Some(frequency)
        && pinger != null && fresh(pinger)
        && pinger.ipAddress == Strip(ipText) && pinger.frequency == frequency && pinger.logger == logger
        && pinger.isRunning && pinger.thread == Started && pinger.effects == []
        && controls == Active && SessionShown()
        && resultText == old(resultText) && resultStyle == old(resultStyle)
        && (old(pinger) != null ==>
              !old(pinger).isRunning && old(pinger).thread == Joined(old(pinger.thread))
              && old(pinger).effects == old(pinger.effects))
    {
      var ip := Strip(ipText);
      if ip == [] {
        resultText := MissingIpMessage;
        resultStyle := "color: orange;";
        return;
      }
      savedIp := Some(ip);
      savedFrequency := Some(frequency);
      if pinger != null {
        pinger.Stop();
        pinger.Wait();
      }
      var p := new Pinger(ip, frequency, logger);
      p.Start();
      pinger := p;
      controls := Active;
    }

    /** `stop_pinging`: stops and waits for the pinger if there is one, drops
        it, and re-enables the inputs and start. */
    method StopPinging()
      modifies this, pinger
      ensures pinger == null && controls == Idle && SessionShown()
      ensures old(pinger) != null ==>
        !old(pinger).isRunning && old(pinger).thread == Joined(old(pinger.thread))
        && old(pinger).effects == old(pinger.effects)
      ensures ipText == old(ipText) && frequency == old(frequency)
      ensures savedIp == old(savedIp) && savedFrequency == old(savedFrequency)
      ensures resultText == old(resultText) && resultStyle == old(resultStyle)
      ensures closeRequested == old(closeRequested)
    {
      if pinger != null {
        pinger.Stop();
        pinger.Wait();
        pinger := null;
      }
      controls := Idle;
    }

    /** `display_result`: the label shows the ping, green or red, and an
        open log viewer reloads. */
    method DisplayResult(ping: Ping, readFault: bool)
      modifies this, logViewer
      ensures resultStyle == "color: " + ResultColor(ping.result) + ";"
      ensures resultText == ResultMessage(ping)
      ensures old(logViewer.visible) ==>
        logViewer.currentLogs == logViewer.logger.FetchLogs(
          Strip(logViewer.filterIp), ResultFilter(logViewer.filterResult),
          Some(logViewer.filterFrom), Some(logViewer.filterTo), readFault)
        && fresh(logViewer.table) && logViewer.Shows()
      ensures !old(logViewer.visible) ==> unchanged(logViewer)
      ensures logViewer.filterIp == old(logViewer.filterIp) && logViewer.filterResult == old(logViewer.filterResult)
      ensures logViewer.filterFrom == old(logViewer.filterFrom) && logViewer.filterTo == old(logViewer.filterTo)
      ensures logViewer.visible == old(logViewer.visible)
      ensures pinger == old(pinger) && controls == old(controls)
      ensures ipText == old(ipText) && frequency == old(frequency)
      ensures savedIp == old(savedIp) && savedFrequency == old(savedFrequency)
      ensures closeRequested == old(closeRequested)
    {
      var color := ResultColor(ping.result);
      resultStyle := "color: " + color + ";";
      resultText := ResultMessage(ping);
      logViewer.RefreshIfVisible(readFault);
    }

    /** `show_log_viewer`: reload the viewer, then show it. */
    method ShowLogViewer(readFault: bool)
      modifies logViewer
      ensures logViewer.visible
      ensures logViewer.currentLogs == logViewer.logger.FetchLogs(
          Strip(logViewer.filterIp), ResultFilter(logViewer.filterResult),
          Some(logViewer.filterFrom), Some(logViewer.filterTo), readFault)
      ensures fresh(logViewer.table) && logViewer.Shows()
      ensures logViewer.filterIp == old(logViewer.filterIp) && logViewer.filterResult == old(logViewer.filterResult)
      ensures logViewer.filterFrom == old(logViewer.filterFrom) && logViewer.filterTo == old(logViewer.filterTo)
    {
      logViewer.LoadLogs(readFault);
      logViewer.Show();
    }

    /** `cleanup`: stops and waits for the pinger if there is one (the field
        keeps it), closes the log viewer, then closes the main window. */
    method Cleanup()
      modifies this, pinger, logViewer
      ensures pinger == old(pinger)
      ensures pinger != null ==>
        !pinger.isRunning && pinger.thread == Joined(old(pinger.thread))
        && pinger.effects == old(pinger.effects)
      ensures !logViewer.visible
      ensures logViewer.currentLogs == old(logViewer.currentLogs) && logViewer.table == old(logViewer.table)
      ensures logViewer.filterIp == old(logViewer.filterIp) && logViewer.filterResult == old(logViewer.filterResult)
      ensures logViewer.filterFrom == old(logViewer.filterFrom) && logViewer.filterTo == old(logViewer.filterTo)
      ensures closeRequested
      ensures controls == old(controls) && ipText == old(ipText) && frequency == old(frequency)
      ensures savedIp == old(savedIp) && savedFrequency == old(savedFrequency)
      ensures resultText == old(resultText) && resultStyle == old(resultStyle)
    {
      if pinger != null {
        pinger.Stop();
        pinger.Wait();
      }
      logViewer.Close();
      closeRequested := true;
    }
  }
}
