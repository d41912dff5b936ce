/** The log store: the `ping_logs` table of `DatabaseLogger`, held as a
    sequence of rows in insertion (rowid) order plus the AUTOINCREMENT
    counter. Every storage fault is an input flag; a faulted write leaves
    the table as it was and a faulted read returns no rows. */
module DatabaseLogging {
  import opened Util
  import opened PingRecord

  /** One row `(id, result, timestamp, ip_address)`. */
  datatype Row = Row(id: int, result: string, timestamp: string, ipAddress: string)

  /** The `Ping` a row stores, that is the row without its id. */
  function RowPing(r: Row): Ping {
    Ping(r.result, r.timestamp, r.ipAddress)
  }

  function Pings(rows: seq<Row>): seq<Ping> {
    seq(|rows|, i requires 0 <= i < |rows| => RowPing(rows[i]))
  }

  // ---------------------------------------------------------------------
  // SQL LIKE

  /** SQLite's default LIKE folds ASCII letters only. */
  function FoldCase(c: char): char {
    if 'A' <= c <= 'Z' then (c as int + 32) as char else c
  }

  function FoldText(s: string): string {
    seq(|s|, i requires 0 <= i < |s| => FoldCase(s[i]))
  }

  /** `s LIKE p`: `%` matches any run of characters, `_` any one character,
      and any other character matches itself up to ASCII case. */
  predicate Like(p: string, s: string)
    decreases |p| + |s|
  {
    if p == [] then s == []
    else if p[0] == '%' then Like(p[1..], s) || (s != [] && Like(p, s[1..]))
    else s != [] && (p[0] == '_' || FoldCase(p[0]) == FoldCase(s[0])) && Like(p[1..], s[1..])
  }

  /** A filter text in which LIKE sees no wildcard. */
  predicate NoWildcards(p: string) {
    forall i | 0 <= i < |p| :: p[i] != '%' && p[i] != '_'
  }

  /** Text that ASCII case folding leaves alone (digits, dots, colons, ...). */
  predicate CaseInvariant(s: string) {
    forall i | 0 <= i < |s| :: FoldCase(s[i]) == s[i]
  }

  lemma {:induction false} LikeAnything(s: string)
    ensures Like("%", s)
    decreases |s|
  {
    assert "%"[1..] == "";
    if s != [] { LikeAnything(s[1..]); }
  }

  /** `p%` with a wildcard-free `p` matches exactly the texts that start
      with `p`, up to case. */
  lemma {:induction false} LikePrefix(p: string, s: string)
    requires NoWildcards(p)
    ensures Like(p + "%", s) <==> |p| <= |s| && FoldText(s[..|p|]) == FoldText(p)
    decreases |p|
  {
    if p == [] {
      assert p + "%" == "%" && s[..0] == [];
      LikeAnything(s);
    } else {
      var q := p + "%";
      assert q[0] == p[0] && q[1..] == p[1..] + "%";
      assert NoWildcards(p[1..]) by {
        forall i | 0 <= i < |p[1..]| ensures p[1..][i] != '%' && p[1..][i] != '_' { assert p[1..][i] == p[i + 1]; }
      }
      if s != [] {
        LikePrefix(p[1..], s[1..]);
        if |p| <= |s| {
          var a, b := FoldText(s[..|p|]), FoldText(p);
          assert a[0] == FoldCase(s[0]) && b[0] == FoldCase(p[0]);
          assert a[1..] == FoldText(s[1..][..|p| - 1]);
          assert b[1..] == FoldText(p[1..]);
          assert a == [a[0]] + a[1..] && b == [b[0]] + b[1..];
        }
      }
    }
  }

  /** A leading `%` lets the rest of the pattern match any suffix. */
  lemma {:induction false} LikeLeadingPercent(q: string, s: string)
    ensures Like("%" + q, s) <==> exists k | 0 <= k <= |s| :: Like(q, s[k..])
    decreases |s|
  {
    var p := "%" + q;
    assert p[0] == '%' && p[1..] == q;
    assert s[0..] == s;
    if s != [] {
      LikeLeadingPercent(q, s[1..]);
      if exists k | 0 <= k <= |s[1..]| :: Like(q, s[1..][k..]) {
        var k :| 0 <= k <= |s[1..]| && Like(q, s[1..][k..]);
        assert s[1..][k..] == s[k + 1..];
      }
      if exists k | 0 <= k <= |s| :: Like(q, s[k..]) {
        var k :| 0 <= k <= |s| && Like(q, s[k..]);
        if k > 0 { assert s[k..] == s[1..][k - 1..]; }
      }
    }
  }

  /** The IP filter `ip_address LIKE '%f%'` with a wildcard-free `f` keeps
      exactly the addresses that contain `f` once both are case-folded. */
  lemma LikeContains(f: string, s: string)
    requires NoWildcards(f)
    ensures Like("%" + f + "%", s) <==> Contains(FoldText(s), FoldText(f))
  {
    assert "%" + f + "%" == "%" + (f + "%");
    LikeLeadingPercent(f + "%", s);
    var fs, ff := FoldText(s), FoldText(f);
    if Like("%" + f + "%", s) {
      var k :| 0 <= k <= |s| && Like(f + "%", s[k..]);
      LikePrefix(f, s[k..]);
      assert fs[k..k + |f|] == FoldText(s[k..][..|f|]);
      assert OccursAt(fs, ff, k);
    }
    if Contains(fs, ff) {
      var k :| 0 <= k <= |fs| - |ff| && OccursAt(fs, ff, k);
      LikePrefix(f, s[k..]);
      assert fs[k..k + |f|] == FoldText(s[k..][..|f|]);
    }
  }

  /** For addresses and filters without letters, as IPv4 literals are, the
      IP filter is plain substring containment. */
  lemma LikeContainsLiteral(f: string, s: string)
    requires NoWildcards(f) && CaseInvariant(f) && CaseInvariant(s)
    ensures Like("%" + f + "%", s) <==> Contains(s, f)
  {
    LikeContains(f, s);
    assert FoldText(f) == f;
    assert FoldText(s) == s;
  }

  // ---------------------------------------------------------------------
  // The query of fetch_logs

  datatype Filters = Filters(ip: string, result: string, fromDate: Option<Date>, toDate: Option<Date>)

  /** `from_date.strftime("%Y-%m-%d 00:00:00")`. */
  function LowerBound(d: Date): string {
    DateText(d) + " 00:00:00"
  }

  /** `to_date.strftime("%Y-%m-%d 23:59:59")`. */
  function UpperBound(d: Date): string {
    DateText(d) + " 23:59:59"
  }

  /** The WHERE clause `fetch_logs` assembles: one conjunct per filter that
      is present (a non-empty text, a date that is given). */
  predicate Matches(f: Filters, r: Row) {
    (f.ip != "" ==> Like("%" + f.ip + "%", r.ipAddress))
    && (f.result != "" ==> r.result == f.result)
    && (f.fromDate.Some? ==> LexLe(LowerBound(f.fromDate.value), r.timestamp))
    && (f.toDate.Some? ==> LexLe(r.timestamp, UpperBound(f.toDate.value)))
  }

  /** The rows the WHERE clause keeps, in table order. */
  function Select(rows: seq<Row>, f: Filters): (r: seq<Row>)
    ensures forall x :: x in r <==> x in rows && Matches(f, x)
    ensures forall x :: multiset(r)[x] == if Matches(f, x) then multiset(rows)[x] else 0
  {
    if rows == [] then []
    else
      assert rows == [rows[0]] + rows[1..];
      (if Matches(f, rows[0]) then [rows[0]] else []) + Select(rows[1..], f)
  }

  /** Non-increasing timestamps, as `ORDER BY timestamp DESC` leaves them. */
  predicate SortedDesc(s: seq<Row>) {
    forall i, j | 0 <= i < j < |s| :: LexLe(s[j].timestamp, s[i].timestamp)
  }

  /** Places `x` in front of the first row that is not newer than it. */
  function Insert(x: Row, s: seq<Row>): seq<Row> {
    if s == [] || !LexLt(x.timestamp, s[0].timestamp) then [x] + s
    else [s[0]] + Insert(x, s[1..])
  }

  lemma {:induction false} InsertSorted(x: Row, s: seq<Row>)
    requires SortedDesc(s)
    ensures SortedDesc(Insert(x, s))
    ensures multiset(Insert(x, s)) == multiset(s) + multiset{x}
    decreases |s|
  {
    if s == [] {
    } else if !LexLt(x.timestamp, s[0].timestamp) {
      var r := [x] + s;
      forall i, j | 0 <= i < j < |r| ensures LexLe(r[j].timestamp, r[i].timestamp) {
        if i == 0 {
          if j == 1 { } else { LexLeTransitive(s[j - 1].timestamp, s[0].timestamp, x.timestamp); }
        }
      }
    } else {
      var t := s[1..];
      assert SortedDesc(t);
      InsertSorted(x, t);
      var u := Insert(x, t);
      var r := [s[0]] + u;
      assert s == [s[0]] + t;
      LexLeTotal(x.timestamp, s[0].timestamp);
      forall j | 0 <= j < |u| ensures LexLe(u[j].timestamp, s[0].timestamp) {
        assert u[j] in multiset(u);
        if u[j] != x {
          assert u[j] in multiset(t);
          var k :| 0 <= k < |t| && t[k] == u[j];
          assert t[k] == s[k + 1];
        }
      }
      forall i, j | 0 <= i < j < |r| ensures LexLe(r[j].timestamp, r[i].timestamp) {
        if i == 0 { assert r[j] == u[j - 1]; }
      }
    }
  }

  /** Insertion sort on timestamps, newest first. */
  function SortDesc(s: seq<Row>): (r: seq<Row>)
    ensures SortedDesc(r) && multiset(r) == multiset(s)
  {
    if s == [] then []
    else
      var t := SortDesc(s[1..]);
      InsertSorted(s[0], t);
      assert s == [s[0]] + s[1..];
      Insert(s[0], t)
  }

  /** `SELECT ... WHERE <filters> ORDER BY timestamp DESC`. */
  function Query(rows: seq<Row>, f: Filters): (r: seq<Row>)
    ensures SortedDesc(r)
    ensures forall x :: multiset(r)[x] == if Matches(f, x) then multiset(rows)[x] else 0
  {
    SortDesc(Select(rows, f))
  }

  /** The filters one by one, for a wildcard-free IP filter: case-folded
      substring on the address, exact text on the result, and the two day
      bounds as text, both inclusive; absent filters impose nothing. */
  lemma MatchesMeaning(f: Filters, r: Row)
    requires NoWildcards(f.ip)
    ensures Matches(f, r) <==>
      (f.ip == "" || Contains(FoldText(r.ipAddress), FoldText(f.ip)))
      && (f.result == "" || r.result == f.result)
      && (f.fromDate == None || LexLe(DateText(f.fromDate.value) + " 00:00:00", r.timestamp))
      && (f.toDate == None || LexLe(r.timestamp, DateText(f.toDate.value) + " 23:59:59"))
  {
    LikeContains(f.ip, r.ipAddress);
  }

  lemma BoundsAreTimestamps(d: Date)
    ensures LowerBound(d) == FormatTimestamp(DateTime(d, 0, 0, 0))
    ensures UpperBound(d) == FormatTimestamp(DateTime(d, 23, 59, 59))
  {
    Pad2(0);
    Pad2(23);
    Pad2(59);
    assert TimeText(0, 0, 0) == "00:00:00";
    assert TimeText(23, 59, 59) == "23:59:59";
    assert " 00:00:00" == " " + TimeText(0, 0, 0);
    assert " 23:59:59" == " " + TimeText(23, 59, 59);
  }

  lemma Pad2(n: nat)
    requires n < 100
    ensures Pad(n, 2) == [DigitChar(n / 10), DigitChar(n % 10)]
  {
    assert Pad(n / 10, 1) == Pad(n / 100, 0) + [DigitChar(n / 10 % 10)];
  }

  /** For a row stamped by `Ping` (a formatted clock reading), the date
      filters keep it exactly when its calendar day lies between the two
      dates, both days included. */
  lemma DateBoundsAreDays(d: Date, t: DateTime)
    requires ValidDate(d) && ValidDateTime(t)
    ensures LexLe(LowerBound(d), FormatTimestamp(t)) <==> DateLe(d, t.date)
    ensures LexLe(FormatTimestamp(t), UpperBound(d)) <==> DateLe(t.date, d)
  {
    BoundsAreTimestamps(d);
    FormatOrder(DateTime(d, 0, 0, 0), t);
    FormatOrder(t, DateTime(d, 23, 59, 59));
  }

  /** Newest first: in a sorted result whose timestamps were all written by
      `Ping`, an earlier row is never older than a later one. */
  lemma SortedIsNewestFirst(s: seq<Row>, i: int, j: int, a: DateTime, b: DateTime)
    requires SortedDesc(s) && 0 <= i < j < |s|
    requires ValidDateTime(a) && ValidDateTime(b)
    requires s[i].timestamp == FormatTimestamp(a) && s[j].timestamp == FormatTimestamp(b)
    ensures ChronoLe(b, a)
  {
    FormatOrder(b, a);
  }

  // ---------------------------------------------------------------------
  // Table invariant, insertion and deletion

  /** Ids are at least 1, never above the AUTOINCREMENT counter, and
      strictly increase in table order (so they are unique). */
  predicate RowsValid(rows: seq<Row>, lastId: nat) {
    (forall i | 0 <= i < |rows| :: 1 <= rows[i].id <= lastId)
    && (forall i, j | 0 <= i < j < |rows| :: rows[i].id < rows[j].id)
  }

  /** The row an INSERT adds: the next id after every id ever assigned. */
  function NewRow(lastId: nat, p: Ping): (r: Row)
    ensures RowPing(r) == p && r.id > lastId
  {
    Row(lastId + 1, p.result, p.timestamp, p.ipAddress)
  }

  /** Appending the new row keeps the table invariant, and its id is fresh:
      larger than every id in the table. */
  lemma AppendValid(rows: seq<Row>, lastId: nat, p: Ping)
    requires RowsValid(rows, lastId)
    ensures RowsValid(rows + [NewRow(lastId, p)], lastId + 1)
    ensures forall x | x in rows :: x.id < NewRow(lastId, p).id
  {
  }

  /** The table after `DELETE FROM ping_logs WHERE id = ?` for each of `ids`. */
  function Deleted(rows: seq<Row>, ids: seq<int>): (r: seq<Row>)
    ensures forall x :: x in r <==> x in rows && x.id !in ids
    ensures |r| <= |rows|
  {
    if rows == [] then []
    else (if rows[0].id in ids then [] else [rows[0]]) + Deleted(rows[1..], ids)
  }

  /** Deleting keeps the table invariant: the remaining ids stay unique,
      increasing and within the counter. */
  lemma {:induction false} DeletedKeepsValid(rows: seq<Row>, ids: seq<int>, lastId: nat)
    requires RowsValid(rows, lastId)
    ensures RowsValid(Deleted(rows, ids), lastId)
    decreases |rows|
  {
    if rows != [] {
      DeletedKeepsValid(rows[1..], ids, lastId);
      var t := Deleted(rows[1..], ids);
      forall j | 0 <= j < |t| ensures rows[0].id < t[j].id {
        assert t[j] in rows[1..];
      }
    }
  }

  /** One more id deletes one more id's rows. */
  lemma {:induction false} DeletedStep(rows: seq<Row>, ids: seq<int>, id: int)
    ensures Deleted(Deleted(rows, ids), [id]) == Deleted(rows, ids + [id])
    decreases |rows|
  {
    if rows != [] {
      DeletedStep(rows[1..], ids, id);
      var head := if rows[0].id in ids then [] else [rows[0]];
      assert Deleted(rows, ids) == head + Deleted(rows[1..], ids);
      DeletedAppend(head, Deleted(rows[1..], ids), [id]);
    }
  }

  lemma {:induction false} DeletedAppend(a: seq<Row>, b: seq<Row>, ids: seq<int>)
    ensures Deleted(a + b, ids) == Deleted(a, ids) + Deleted(b, ids)
    decreases |a|
  {
    if a == [] {
      assert a + b == b;
    } else {
      assert (a + b)[0] == a[0] && (a + b)[1..] == a[1..] + b;
      DeletedAppend(a[1..], b, ids);
    }
  }

  /** Ids that no row carries, and the empty list, delete nothing. */
  lemma {:induction false} DeletedAbsent(rows: seq<Row>, ids: seq<int>)
    requires forall x | x in rows :: x.id !in ids
    ensures Deleted(rows, ids) == rows
    decreases |rows|
  {
    if rows != [] {
      DeletedAbsent(rows[1..], ids);
      assert rows == [rows[0]] + rows[1..];
    }
  }

  /** The contents of the database file when the logger opens it. */
  datatype StoredTable = StoredTable(rows: seq<Row>, lastId: nat)

  class DatabaseLogger {
    const dbPath: string
    /** Whether the `ping_logs` table exists in the file. */
    var hasTable: bool
    var rows: seq<Row>
    /** The AUTOINCREMENT counter: the largest id ever assigned. */
    var lastId: nat

    ghost predicate Valid()
      reads this
    {
      RowsValid(rows, lastId) && (!hasTable ==> rows == [] && lastId == 0)
    }

    /** `DatabaseLogger(db_path)`: opens the file, which holds a table or
        not, and runs the schema creation. */
    constructor (dbPath: string, onDisk: Option<StoredTable>, fault: bool)
      requires onDisk.Some? ==> RowsValid(onDisk.value.rows, onDisk.value.lastId)
      ensures Valid() && this.dbPath == dbPath
      ensures hasTable == (onDisk.Some? || !fault)
      ensures rows == (if onDisk.Some? then onDisk.value.rows else [])
      ensures lastId == (if onDisk.Some? then onDisk.value.lastId else 0)
    {
      this.dbPath := dbPath;
      hasTable := onDisk.Some?;
      rows := if onDisk.Some? then onDisk.value.rows else [];
      lastId := if onDisk.Some? then onDisk.value.lastId else 0;
      new;
      CreateTable(fault);
    }

    /** `_create_table`: CREATE TABLE IF NOT EXISTS. It creates the table
        when it is missing and never touches existing rows. */
    method CreateTable(fault: bool)
      requires Valid()
      modifies this
      ensures Valid()
      ensures hasTable == (old(hasTable) || !fault)
      ensures rows == old(rows) && lastId == old(lastId)
    {
      if !fault {
        hasTable := true;
      }
    }

    /** `log`: one INSERT. Without a fault the table gains exactly one row,
        at the end, with the ping's fields and a fresh id; with a fault
        (a missing table, a storage error, a NOT NULL violation) the table
        and the counter are unchanged and nothing reaches the caller. */
    method Log(ping: Ping, fault: bool)
      requires Valid()
      modifies this
      ensures Valid() && hasTable == old(hasTable)
      ensures if old(hasTable) && !fault
        then rows == old(rows) + [NewRow(old(lastId), ping)] && lastId == old(lastId) + 1
        else rows == old(rows) && lastId == old(lastId)
    {
      if hasTable && !fault {
        AppendValid(rows, lastId, ping);
        rows := rows + [NewRow(lastId, ping)];
        lastId := lastId + 1;
      }
    }

    /** `fetch_logs`: the rows the filters keep, newest first; no rows when
        the read faults. */
    function FetchLogs(ipFilter: string, resultFilter: string, fromDate: Option<Date>, toDate: Option<Date>,
                       fault: bool): (r: seq<Row>)
      reads this
      ensures fault || !hasTable ==> r == []
      ensures !fault && hasTable ==>
        SortedDesc(r)
        && forall x :: multiset(r)[x] ==
             if Matches(Filters(ipFilter, resultFilter, fromDate, toDate), x) then multiset(rows)[x] else 0
    {
      if fault || !hasTable then [] else Query(rows, Filters(ipFilter, resultFilter, fromDate, toDate))
    }

    /** `delete_logs_by_ids`: one DELETE per id, all in one transaction.
        Without a fault exactly the rows whose id is listed are gone and
        the others stay in order; with a fault nothing changes. */
    method DeleteLogsByIds(ids: seq<int>, fault: bool)
      requires Valid()
      modifies this
      ensures Valid() && hasTable == old(hasTable) && lastId == old(lastId)
      ensures rows == if old(hasTable) && !fault then Deleted(old(rows), ids) else old(rows)
    {
      if !hasTable || fault {
        return;
      }
      // The statements of the transaction, applied to a working copy that
      // is committed at the end.
      var kept := rows;
      var i := 0;
      assert ids[..0] == [];
      DeletedAbsent(rows, []);
      while i < |ids|
        invariant 0 <= i <= |ids|
        invariant kept == Deleted(rows, ids[..i])
        invariant unchanged(this)
      {
        DeletedStep(rows, ids[..i], ids[i]);
        assert ids[..i + 1] == ids[..i] + [ids[i]];
        kept := Deleted(kept, [ids[i]]);
        i := i + 1;
      }
      assert ids[..i] == ids;
      DeletedKeepsValid(rows, ids, lastId);
      rows := kept;
    }
  }
}
