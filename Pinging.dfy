/** The output the unit tests give for an unreachable destination, and the
    characters it lacks. */
module ProbeSamples {
  const UnreachableOutput: string := "Destination Host Unreachable"

  lemma UnreachableOutputLacksFailureChars()
    ensures 'u' !in UnreachableOutput && '%' !in UnreachableOutput && 'm' !in UnreachableOutput
  {
    var s := "Destination Host Unreachable";
    assert 'u' !in s;
    assert '%' !in s;
    assert 'm' !in s;
  }

  lemma UnreachableOutputLacksReplyChars()
    ensures 'R' !in UnreachableOutput && 'y' !in UnreachableOutput
  {
    var s := "Destination Host Unreachable";
    assert 'R' !in s;
    assert 'y' !in s;
  }
}

/** The probe (`Pinger.ping_host`) and the polling loop (`Pinger.run` and
    `Pinger.stop`). The ping process is not run: its outcome is an input, as
    is everything else a tick observes (the clock, a storage fault, and
    whether `stop` was called while the tick was under way). */
module Pinging {
  import opened Util
  import opened PingRecord
  import opened DatabaseLogging
  import opened ProbeSamples

  // ---------------------------------------------------------------------
  // The probe

  /** `sys.platform.startswith("win")`. */
  predicate IsWindows(platform: string) {
    StartsWith(platform, "win")
  }

  /** The argument list handed to `subprocess.check_output`: one echo
      request, with the count flag of the platform's `ping`. */
  function PingCommand(platform: string, ipAddress: string): (cmd: seq<string>)
    ensures |cmd| == 4 && cmd[0] == "ping" && cmd[2] == "1" && cmd[3] == ipAddress
    ensures cmd[1] == "-n" <==> IsWindows(platform)
    ensures cmd[1] == "-c" <==> !IsWindows(platform)
  {
    if IsWindows(platform) then ["ping", "-n", "1", ipAddress] else ["ping", "-c", "1", ipAddress]
  }

  /** How one run of the ping process ended. */
  datatype ProbeOutcome =
    | Completed(output: string)   // exit status 0; the decoded output
    | NonZeroExit                 // subprocess.CalledProcessError
    | TimedOut                    // subprocess.TimeoutExpired
    | Unexpected(message: string) // any other exception (launch, decoding)

  predicate HasFailureIndicator(output: string) {
    Contains(output, "unreachable") || Contains(output, "100% packet loss") || Contains(output, "timed out")
  }

  predicate HasReplyIndicator(output: string) {
    Contains(output, "Reply from") || Contains(output, "bytes from")
  }

  /** The classification `ping_host` returns for an outcome: it always
      returns one of the two texts and never raises. */
  function Classify(outcome: ProbeOutcome): (r: string)
    ensures r == "Success" || r == "Failure"
  {
    match outcome
    case Completed(output) =>
      if HasFailureIndicator(output) then "Failure"
      else if HasReplyIndicator(output) then "Success"
      else "Failure"
    case NonZeroExit => "Failure"
    case TimedOut => "Failure"
    case Unexpected(_) => "Failure"
  }

  /** `ping_host(ip_address)`: runs the platform's command through `exec`
      and classifies what it observed. */
  function PingHost(platform: string, ipAddress: string, exec: seq<string> -> ProbeOutcome): (r: string)
    ensures r == "Success" ==> exec(PingCommand(platform, ipAddress)).Completed?
  {
    Classify(exec(PingCommand(platform, ipAddress)))
  }

  /** A failure indicator anywhere in the output wins, even next to a
      reply indicator. */
  lemma FailureIndicatorWins(before: string, indicator: string, after: string)
    requires indicator == "unreachable" || indicator == "100% packet loss" || indicator == "timed out"
    ensures Classify(Completed(before + indicator + after)) == "Failure"
  {
    ContainsInfix(before, indicator, after);
  }

  /** With no failure indicator, a reply indicator means "Success". */
  lemma ReplyIsSuccess(before: string, indicator: string, after: string)
    requires indicator == "Reply from" || indicator == "bytes from"
    requires !HasFailureIndicator(before + indicator + after)
    ensures Classify(Completed(before + indicator + after)) == "Success"
  {
    ContainsInfix(before, indicator, after);
  }

  /** "Success" is returned only for completed output that has a reply
      indicator and no failure indicator. */
  lemma SuccessMeansReply(outcome: ProbeOutcome)
    requires Classify(outcome) == "Success"
    ensures outcome.Completed?
    ensures HasReplyIndicator(outcome.output) && !HasFailureIndicator(outcome.output)
  {
  }

  /** Every fault of the process run is a "Failure". */
  lemma FaultIsFailure(outcome: ProbeOutcome)
    requires !outcome.Completed?
    ensures Classify(outcome) == "Failure"
  {
  }

  /** Output with neither kind of indicator falls through to "Failure". */
  lemma AmbiguousIsFailure(output: string)
    requires !HasFailureIndicator(output) && !HasReplyIndicator(output)
    ensures Classify(Completed(output)) == "Failure"
  {
  }

  /** A text lacking one of the characters of `sub` does not contain it. */
  lemma MissingCharNotContained(s: string, sub: string, c: char)
    requires c in sub && c !in s
    ensures !Contains(s, sub)
  {
    var k :| 0 <= k < |sub| && sub[k] == c;
    forall i | 0 <= i <= |s| - |sub|
      ensures !OccursAt(s, sub, i)
    {
      assert s[i..i + |sub|][k] == s[i + k];
    }
  }

  /** Matching is case-sensitive: "Destination Host Unreachable" has no
      lower-case "unreachable" and no reply indicator, so it is a "Failure"
      only through the final fallback. */
  lemma CapitalUnreachableFallsThrough()
    ensures !HasFailureIndicator(UnreachableOutput)
    ensures !HasReplyIndicator(UnreachableOutput)
    ensures Classify(Completed(UnreachableOutput)) == "Failure"
  {
    var s := UnreachableOutput;
    UnreachableOutputLacksFailureChars();
    UnreachableOutputLacksReplyChars();
    MissingCharNotContained(s, "unreachable", 'u');
    MissingCharNotContained(s, "100% packet loss", '%');
    MissingCharNotContained(s, "timed out", 'm');
    MissingCharNotContained(s, "Reply from", 'R');
    MissingCharNotContained(s, "bytes from", 'y');
  }

  // ---------------------------------------------------------------------
  // The polling loop

  /** What the loop does that others can observe, in order. */
  datatype Effect = Logged(ping: Ping) | Emitted(ping: Ping)

  /** What one tick observes: the probe's outcome, the clock when the
      `Ping` is built, whether its INSERT faults, and whether `stop` is
      called while the tick runs. */
  datatype Tick = Tick(outcome: ProbeOutcome, now: DateTime, logFault: bool, stopRequested: bool)

  predicate ValidTicks(ticks: seq<Tick>) {
    forall i | 0 <= i < |ticks| :: ValidDateTime(ticks[i].now)
  }

  /** The `Ping` a tick builds for the loop's address. */
  function TickPing(ipAddress: string, t: Tick): (p: Ping)
    requires ValidDateTime(t.now)
    ensures p.ipAddress == ipAddress && p.result == Classify(t.outcome)
  {
    NewPing(Classify(t.outcome), ipAddress, t.now)
  }

  /** The pings built by a sequence of ticks, one per tick. */
  function TickPings(ipAddress: string, ticks: seq<Tick>): (ps: seq<Ping>)
    requires ValidTicks(ticks)
    ensures |ps| == |ticks|
    ensures forall i | 0 <= i < |ticks| :: ps[i] == TickPing(ipAddress, ticks[i])
  {
    seq(|ticks|, i requires 0 <= i < |ticks| => TickPing(ipAddress, ticks[i]))
  }

  /** How many ticks a running loop executes: all of them up to and
      including the first one during which `stop` is called. */
  function TicksRun(ticks: seq<Tick>): (n: nat)
    ensures n <= |ticks|
    ensures forall i | 0 <= i < n - 1 :: !ticks[i].stopRequested
    ensures n < |ticks| ==> n > 0 && ticks[n - 1].stopRequested
    ensures ticks != [] ==> n > 0
  {
    if ticks == [] then 0
    else if ticks[0].stopRequested then 1
    else 1 + TicksRun(ticks[1..])
  }

  /** The effects of handling `pings` in turn: each is logged and then
      emitted. */
  function Trace(pings: seq<Ping>): seq<Effect>
  {
    if pings == [] then [] else [Logged(pings[0]), Emitted(pings[0])] + Trace(pings[1..])
  }

  /** The pings whose INSERT does not fault, in order. */
  function Stored(pings: seq<Ping>, ticks: seq<Tick>): seq<Ping>
    requires |pings| == |ticks|
  {
    if pings == [] then []
    else (if ticks[0].logFault then [] else [pings[0]]) + Stored(pings[1..], ticks[1..])
  }

  lemma {:induction false} TraceAppend(pings: seq<Ping>, p: Ping)
    ensures Trace(pings + [p]) == Trace(pings) + [Logged(p), Emitted(p)]
    decreases |pings|
  {
    if pings == [] {
      assert [p][1..] == [];
    } else {
      assert (pings + [p])[1..] == pings[1..] + [p];
      TraceAppend(pings[1..], p);
    }
  }

  lemma {:induction false} StoredAppend(pings: seq<Ping>, ticks: seq<Tick>, p: Ping, t: Tick)
    requires |pings| == |ticks|
    ensures Stored(pings + [p], ticks + [t]) == Stored(pings, ticks) + (if t.logFault then [] else [p])
    decreases |pings|
  {
    if pings == [] {
      assert [p][1..] == [] && [t][1..] == [];
    } else {
      assert (pings + [p])[1..] == pings[1..] + [p];
      assert (ticks + [t])[1..] == ticks[1..] + [t];
      StoredAppend(pings[1..], ticks[1..], p, t);
    }
  }

  /** Ping `k` contributes exactly two effects, its log call and then its
      emission. */
  lemma {:induction false} TracePerPing(pings: seq<Ping>, k: int)
    requires 0 <= k < |pings|
    ensures |Trace(pings)| == 2 * |pings|
    ensures Trace(pings)[2 * k] == Logged(pings[k])
    ensures Trace(pings)[2 * k + 1] == Emitted(pings[k])
    decreases |pings|
  {
    if |pings| > 1 {
      TracePerPing(pings[1..], if k > 0 then k - 1 else 0);
    } else {
      assert pings[1..] == [];
    }
  }

  /** One more tick adds its ping to the pings of the ticks so far. */
  lemma TickPingsSnoc(ipAddress: string, ticks: seq<Tick>, n: int)
    requires ValidTicks(ticks) && 0 <= n < |ticks|
    ensures ValidTicks(ticks[..n]) && ValidTicks(ticks[..n + 1])
    ensures ticks[..n + 1] == ticks[..n] + [ticks[n]]
    ensures TickPings(ipAddress, ticks[..n + 1]) == TickPings(ipAddress, ticks[..n]) + [TickPing(ipAddress, ticks[n])]
  {
    assert ticks[..n + 1] == ticks[..n] + [ticks[n]];
  }

  /** A running loop has one tick fewer to go after tick `n`, unless that
      tick asked it to stop. */
  lemma TicksRunStep(ticks: seq<Tick>, n: int)
    requires 0 <= n < |ticks|
    ensures TicksRun(ticks[n..]) == 1 + if ticks[n].stopRequested then 0 else TicksRun(ticks[n + 1..])
  {
    assert ticks[n..][1..] == ticks[n + 1..];
  }

  lemma NoStopStep(ticks: seq<Tick>, n: int)
    requires 0 <= n < |ticks| && !ticks[n].stopRequested
    requires forall i | 0 <= i < n :: !ticks[i].stopRequested
    ensures forall i | 0 <= i < n + 1 :: !ticks[i].stopRequested
  {
  }

  lemma AppendAssoc<T>(a: seq<T>, b: seq<T>, c: seq<T>)
    ensures a + b + c == a + (b + c)
  {
  }

  /** The rows that INSERTs of `pings`, in turn, append to a table whose
      AUTOINCREMENT counter stands at `lastId`. */
  function Numbered(lastId: nat, pings: seq<Ping>): seq<Row> {
    seq(|pings|, i requires 0 <= i < |pings| => NewRow(lastId + i, pings[i]))
  }

  lemma NumberedOne(lastId: nat, p: Ping)
    ensures Numbered(lastId, [p]) == [NewRow(lastId, p)]
  {
  }

  lemma NumberedAppend(lastId: nat, a: seq<Ping>, b: seq<Ping>)
    ensures Numbered(lastId, a + b) == Numbered(lastId, a) + Numbered(lastId + |a|, b)
  {
  }

  /** Rows appended after rows appended: one run of consecutive ids. */
  lemma StoreStep(base: seq<Row>, mid: seq<Row>, after: seq<Row>, start: nat, next: nat, a: seq<Ping>, b: seq<Ping>)
    requires mid == base + Numbered(start, a) && next == start + |a|
    requires after == mid + Numbered(next, b)
    ensures after == base + Numbered(start, a + b)
  {
    NumberedAppend(start, a, b);
  }

  /** What the loop has done after its first `n` ticks, on values: the
      effects of those ticks appended to `effects0`, and the rows of the
      stored ones appended to `rows0` under consecutive ids from `last0`. */
  ghost predicate Progress(ipAddress: string, ticks: seq<Tick>, n: int, hasTable: bool,
                           effects0: seq<Effect>, effects: seq<Effect>,
                           rows0: seq<Row>, last0: nat, rows: seq<Row>, last: nat)
    requires ValidTicks(ticks) && 0 <= n <= |ticks|
  {
    var ps := TickPings(ipAddress, ticks[..n]);
    var stored := if hasTable then Stored(ps, ticks[..n]) else [];
    effects == effects0 + Trace(ps)
    && rows == rows0 + Numbered(last0, stored) && last == last0 + |stored|
  }

  /** One more tick, logged and emitted, extends the progress by one. */
  lemma ProgressStep(ipAddress: string, ticks: seq<Tick>, n: int, hasTable: bool,
                     effects0: seq<Effect>, effects: seq<Effect>, effects': seq<Effect>,
                     rows0: seq<Row>, last0: nat, rows: seq<Row>, last: nat,
                     rows': seq<Row>, last': nat, ping: Ping)
    requires ValidTicks(ticks) && 0 <= n < |ticks|
    requires Progress(ipAddress, ticks, n, hasTable, effects0, effects, rows0, last0, rows, last)
    requires ping == TickPing(ipAddress, ticks[n])
    requires effects' == effects + [Logged(ping), Emitted(ping)]
    requires var one := if hasTable && !ticks[n].logFault then [ping] else [];
      rows' == rows + Numbered(last, one) && last' == last + |one|
    ensures Progress(ipAddress, ticks, n + 1, hasTable, effects0, effects', rows0, last0, rows', last')
  {
    TickPingsSnoc(ipAddress, ticks, n);
    var ps := TickPings(ipAddress, ticks[..n]);
    TraceAppend(ps, ping);
    StoredAppend(ps, ticks[..n], ping, ticks[n]);
    var stored := if hasTable then Stored(ps, ticks[..n]) else [];
    var one := if hasTable && !ticks[n].logFault then [ping] else [];
    AppendAssoc(effects0, Trace(ps), [Logged(ping), Emitted(ping)]);
    StoreStep(rows0, rows, rows', last0, last, stored, one);
  }

  /** Where `run`'s loop stands after `n` ticks, on values: `running0` is
      the flag on entry and `running` the flag now. A running loop has
      seen no stop and has `TicksRun` ticks left in all; a stopped one
      stopped at its last tick. */
  ghost predicate LoopAt(ipAddress: string, ticks: seq<Tick>, n: int, running0: bool, running: bool,
                         hasTable: bool, effects0: seq<Effect>, effects: seq<Effect>,
                         rows0: seq<Row>, last0: nat, rows: seq<Row>, last: nat)
    requires ValidTicks(ticks)
  {
    0 <= n <= |ticks|
    && (!running0 ==> n == 0 && !running)
    && (running0 ==> TicksRun(ticks) == n + if running then TicksRun(ticks[n..]) else 0)
    && (running ==> forall i | 0 <= i < n :: !ticks[i].stopRequested)
    && (running0 && !running ==> n > 0 && ticks[n - 1].stopRequested)
    && Progress(ipAddress, ticks, n, hasTable, effects0, effects, rows0, last0, rows, last)
  }

  lemma LoopStart(ipAddress: string, ticks: seq<Tick>, running0: bool, hasTable: bool,
                  effects0: seq<Effect>, rows0: seq<Row>, last0: nat)
    requires ValidTicks(ticks)
    ensures LoopAt(ipAddress, ticks, 0, running0, running0, hasTable, effects0, effects0, rows0, last0, rows0, last0)
  {
    assert ticks[0..] == ticks;
    assert ticks[..0] == [];
    assert Numbered(last0, []) == [];
  }

  /** A tick of a running loop, as `RunOnce` performs it, moves it on by one. */
  lemma LoopStep(ipAddress: string, ticks: seq<Tick>, n: int, running0: bool, running': bool,
                 hasTable: bool, effects0: seq<Effect>, effects: seq<Effect>, effects': seq<Effect>,
                 rows0: seq<Row>, last0: nat, rows: seq<Row>, last: nat,
                 rows': seq<Row>, last': nat, ping: Ping)
    requires ValidTicks(ticks)
    requires LoopAt(ipAddress, ticks, n, running0, true, hasTable, effects0, effects, rows0, last0, rows, last)
    requires n < |ticks| && running' == !ticks[n].stopRequested
    requires ping == TickPing(ipAddress, ticks[n])
    requires effects' == effects + [Logged(ping), Emitted(ping)]
    requires var one := if hasTable && !ticks[n].logFault then [ping] else [];
      rows' == rows + Numbered(last, one) && last' == last + |one|
    ensures LoopAt(ipAddress, ticks, n + 1, running0, running', hasTable, effects0, effects', rows0, last0, rows', last')
  {
    TicksRunStep(ticks, n);
    ProgressStep(ipAddress, ticks, n, hasTable, effects0, effects, effects', rows0, last0, rows, last, rows', last', ping);
    if running' {
      NoStopStep(ticks, n);
    }
  }

  /** When the loop exits, it has run `TicksRun` ticks if it was running,
      none otherwise, and is still running only if no tick asked it to
      stop. */
  lemma LoopExit(ipAddress: string, ticks: seq<Tick>, n: int, running0: bool, running: bool,
                 hasTable: bool, effects0: seq<Effect>, effects: seq<Effect>,
                 rows0: seq<Row>, last0: nat, rows: seq<Row>, last: nat)
    requires ValidTicks(ticks)
    requires LoopAt(ipAddress, ticks, n, running0, running, hasTable, effects0, effects, rows0, last0, rows, last)
    requires !(running && n < |ticks|)
    ensures n == if running0 then TicksRun(ticks) else 0
    ensures running <==> running0 && forall i | 0 <= i < |ticks| :: !ticks[i].stopRequested
    ensures var ps := TickPings(ipAddress, ticks[..n]);
      var stored := if hasTable then Stored(ps, ticks[..n]) else [];
      effects == effects0 + Trace(ps)
      && rows == rows0 + Numbered(last0, stored) && last == last0 + |stored|
  {
    if running {
      assert ticks[n..] == [];
    }
  }

  /** The appended rows hold exactly the stored pings, in order, under
      consecutive ids just above the old counter; so they are fresh and keep
      the table's ids unique and increasing. */
  lemma NumberedRows(rows: seq<Row>, lastId: nat, pings: seq<Ping>)
    requires RowsValid(rows, lastId)
    ensures Pings(Numbered(lastId, pings)) == pings
    ensures forall i | 0 <= i < |pings| :: Numbered(lastId, pings)[i].id == lastId + i + 1
    ensures RowsValid(rows + Numbered(lastId, pings), lastId + |pings|)
  {
    var added := Numbered(lastId, pings);
    var all := rows + added;
    forall i, j | 0 <= i < j < |all| ensures all[i].id < all[j].id {
      if j < |rows| {
        assert all[i] == rows[i] && all[j] == rows[j];
      } else if i < |rows| {
        assert all[i].id <= lastId < all[j].id;
      }
    }
  }

  /** A stop requested during the first tick still completes that tick: one
      log call, then one emission, for the pinger's address. */
  lemma StopDuringFirstTick(ipAddress: string, ticks: seq<Tick>)
    requires ValidTicks(ticks) && ticks != [] && ticks[0].stopRequested
    ensures TicksRun(ticks) == 1
    ensures var p := TickPing(ipAddress, ticks[0]);
      Trace(TickPings(ipAddress, ticks[..1])) == [Logged(p), Emitted(p)]
      && p.ipAddress == ipAddress && p.result == Classify(ticks[0].outcome)
  {
    FirstTickTrace(ipAddress, ticks);
  }

  lemma FirstTickTrace(ipAddress: string, ticks: seq<Tick>)
    requires ValidTicks(ticks) && ticks != []
    ensures var p := TickPing(ipAddress, ticks[0]);
      Trace(TickPings(ipAddress, ticks[..1])) == [Logged(p), Emitted(p)]
  {
    TickPingsSnoc(ipAddress, ticks, 0);
    TraceAppend(TickPings(ipAddress, ticks[..0]), TickPing(ipAddress, ticks[0]));
    assert ticks[..0] == [];
  }

  /** Whether the QThread behind the pinger has been started or has ended. */
  datatype ThreadState = NotStarted | Started | Finished

  class Pinger {
    const ipAddress: string
    const frequency: int
    const logger: DatabaseLogger
    var isRunning: bool
    var thread: ThreadState
    /** The log calls and emissions made so far. */
    var effects: seq<Effect>

    /** `Pinger(ip_address, frequency, logger)`: running flag set, thread
        not yet started. */
    constructor (ipAddress: string, frequency: int, logger: DatabaseLogger)
      ensures this.ipAddress == ipAddress && this.frequency == frequency && this.logger == logger
      ensures isRunning && thread == NotStarted && effects == []
    {
      this.ipAddress := ipAddress;
      this.frequency := frequency;
      this.logger := logger;
      isRunning := true;
      thread := NotStarted;
      effects := [];
    }

    /** `stop`: clears the running flag and nothing else. */
    method Stop()
      modifies this
      ensures !isRunning
      ensures thread == old(thread) && effects == old(effects)
    {
      isRunning := false;
    }

    /** `QThread.start`: the thread begins executing `run`. */
    method Start()
      modifies this
      ensures thread == Started
      ensures isRunning == old(isRunning) && effects == old(effects)
    {
      thread := Started;
    }

    /** `QThread.wait` after `stop`: returns once `run` has exited. */
    method Wait()
      requires !isRunning
      modifies this
      ensures thread == if old(thread) == NotStarted then NotStarted else Finished
      ensures isRunning == old(isRunning) && effects == old(effects)
    {
      if thread != NotStarted {
        thread := Finished;
      }
    }

    /** One pass of the body of `run`: probe, build the `Ping`, log it,
        emit it. A `stop` during the pass clears the flag but does not cut
        the pass short. */
    method RunOnce(t: Tick) returns (ping: Ping)
      requires ValidDateTime(t.now) && logger.Valid()
      modifies this, logger
      ensures ping == TickPing(ipAddress, t)
      ensures effects == old(effects) + [Logged(ping), Emitted(ping)]
      ensures isRunning == (old(isRunning) && !t.stopRequested)
      ensures thread == old(thread)
      ensures logger.Valid() && logger.hasTable == old(logger.hasTable)
      ensures var stored := if old(logger.hasTable) && !t.logFault then [ping] else [];
        logger.rows == old(logger.rows) + Numbered(old(logger.lastId), stored)
        && logger.lastId == old(logger.lastId) + |stored|
    {
      if t.stopRequested {
        Stop();
      }
      ping := TickPing(ipAddress, t);
      NumberedOne(logger.lastId, ping);
      logger.Log(ping, t.logFault);
      effects := effects + [Logged(ping)];
      effects := effects + [Emitted(ping)];
    }

    /** `run`, observed over the ticks the environment supplies: the flag is
        tested only at the head of the loop, so the ticks executed are those
        up to and including the first one during which `stop` was called.
        Each logs its `Ping` (a faulted INSERT stores nothing) and then
        emits it. */
    method Run(ticks: seq<Tick>) returns (n: nat)
      requires ValidTicks(ticks) && logger.Valid()
      modifies this, logger
      ensures n == if old(isRunning) then TicksRun(ticks) else 0
      ensures effects == old(effects) + Trace(TickPings(ipAddress, ticks[..n]))
      ensures isRunning <==> old(isRunning) && forall i | 0 <= i < |ticks| :: !ticks[i].stopRequested
      ensures thread == old(thread)
      ensures logger.Valid() && logger.hasTable == old(logger.hasTable)
      ensures var stored := if old(logger.hasTable) then Stored(TickPings(ipAddress, ticks[..n]), ticks[..n]) else [];
        logger.rows == old(logger.rows) + Numbered(old(logger.lastId), stored)
        && logger.lastId == old(logger.lastId) + |stored|
    {
      n := 0;
      ghost var running0, hasTable, effects0, rows0, last0 := isRunning, logger.hasTable, effects, logger.rows, logger.lastId;
      LoopStart(ipAddress, ticks, running0, hasTable, effects0, rows0, last0);
      while isRunning && n < |ticks|
        invariant thread == old(thread)
        invariant logger.Valid() && logger.hasTable == hasTable
        invariant LoopAt(ipAddress, ticks, n, running0, isRunning, hasTable, effects0, effects, rows0, last0, logger.rows, logger.lastId)
      {
        TickPingsSnoc(ipAddress, ticks, n);
        ghost var effectsBefore, rowsBefore, lastBefore := effects, logger.rows, logger.lastId;
        var ping := RunOnce(ticks[n]);
        LoopStep(ipAddress, ticks, n, running0, isRunning, hasTable, effects0, effectsBefore, effects,
                 rows0, last0, rowsBefore, lastBefore, logger.rows, logger.lastId, ping);
        n := n + 1;
      }
      LoopExit(ipAddress, ticks, n, running0, isRunning, hasTable, effects0, effects, rows0, last0, logger.rows, logger.lastId);
    }
  }
}
