/** `PerformanceLogger`: an append-only list of query log entries, mirrored
    to a JSON log file after every append, and the statistics over it. The
    log file is an abstract value; the clock's timestamp and the outcome of
    a write are supplied by the caller. */
module PerformanceLog {
  import opened Results
  import opened Paths

  /** The log file's name under the log directory when no path is given. */
  const LOG_FILE_NAME: string := "performance_log.json"

  /** One entry of the log. `success` is `None` for an entry read from a file
      that lacks the key. */
  datatype LogEntry = LogEntry(timestamp: string, query: string, latencySeconds: real,
                               numDocsRetrieved: int, success: Option<bool>)

  /** What `_load_existing_logs` finds at the log path. */
  datatype LogFile = Absent | Unparseable | Present(entries: seq<LogEntry>)

  /** The dictionary `get_statistics` returns: three keys for an empty log,
      six otherwise. */
  datatype Statistics =
    | EmptyLog(totalQueries: nat, averageLatency: real, successRate: real)
    | Summary(totalQueries: nat, successfulQueries: nat, averageLatency: real,
              minLatency: real, maxLatency: real, successRate: real)

  // ---------------------------------------------------------------------------
  // Rounding

  /** `round(latency, 3)` on exact reals: to the nearest multiple of 0.001,
      with ties going to the even multiple. */
  function Round3(x: real): real {
    var n := (x * 1000.0).Floor;
    var frac := x * 1000.0 - n as real;
    var m := if frac > 0.5 || (frac == 0.5 && n % 2 == 1) then n + 1 else n;
    m as real / 1000.0
  }

  /** The rounded latency is a whole number of milliseconds at most half a
      millisecond away from the latency, and rounding it again changes
      nothing. */
  lemma Round3Spec(x: real)
    ensures var r := Round3(x);
      x - 0.0005 <= r <= x + 0.0005
      && (r * 1000.0).Floor as real == r * 1000.0
      && Round3(r) == r
  {
    var n := (x * 1000.0).Floor;
    var frac := x * 1000.0 - n as real;
    var m := if frac > 0.5 || (frac == 0.5 && n % 2 == 1) then n + 1 else n;
    var r := m as real / 1000.0;
    assert r * 1000.0 == m as real;
    assert (r * 1000.0).Floor == m;
  }

  // ---------------------------------------------------------------------------
  // Aggregates

  /** `log.get('success', True)`: an entry without the key counts as a success. */
  predicate Succeeded(e: LogEntry) {
    e.success != Some(false)
  }

  /** `[log for log in self.logs if log.get('success', True)]` */
  function Successful(logs: seq<LogEntry>): seq<LogEntry> {
    if logs == [] then []
    else
      var e := logs[|logs| - 1];
      Successful(logs[..|logs| - 1]) + (if Succeeded(e) then [e] else [])
  }

  /** The successful entries are exactly the log's entries that succeeded,
      in log order, so there are at most as many as entries. */
  lemma {:induction false} SuccessfulSpec(logs: seq<LogEntry>)
    ensures |Successful(logs)| <= |logs|
    ensures forall e :: e in Successful(logs) <==> e in logs && Succeeded(e)
  {
    if logs != [] {
      var init := logs[..|logs| - 1];
      SuccessfulSpec(init);
      assert logs == init + [logs[|logs| - 1]];
    }
  }

  /** The filter works entry by entry: a single entry is kept exactly when it
      succeeded, and the entries of a concatenation are kept from each part
      in turn, so every successful entry is kept, repeats included, in log
      order. */
  lemma {:induction false} SuccessfulAppend(a: seq<LogEntry>, b: seq<LogEntry>)
    ensures |b| == 1 ==> Successful(b) == (if Succeeded(b[0]) then b else [])
    ensures Successful(a + b) == Successful(a) + Successful(b)
    decreases |b|
  {
    if |b| == 1 {
      assert b[..0] == [];
    }
    if b == [] {
      assert a + b == a;
    } else {
      var init, last := b[..|b| - 1], b[|b| - 1];
      assert (a + b)[..|a + b| - 1] == a + init && (a + b)[|a + b| - 1] == last;
      var x, y, z := Successful(a), Successful(init), if Succeeded(last) then [last] else [];
      assert Successful(a + b) == Successful(a + init) + z;
      assert Successful(b) == y + z;
      SuccessfulAppend(a, init);
      assert (x + y) + z == x + (y + z);
    }
  }

  function Latencies(es: seq<LogEntry>): (xs: seq<real>)
    ensures |xs| == |es|
    ensures forall i :: 0 <= i < |es| ==> xs[i] == es[i].latencySeconds
  {
    seq(|es|, i requires 0 <= i < |es| => es[i].latencySeconds)
  }

  function Sum(xs: seq<real>): real {
    if xs == [] then 0.0 else Sum(xs[..|xs| - 1]) + xs[|xs| - 1]
  }

  function Min(xs: seq<real>): real
    requires xs != []
  {
    if |xs| == 1 then xs[0]
    else
      var m := Min(xs[..|xs| - 1]);
      if xs[|xs| - 1] < m then xs[|xs| - 1] else m
  }

  function Max(xs: seq<real>): real
    requires xs != []
  {
    if |xs| == 1 then xs[0]
    else
      var m := Max(xs[..|xs| - 1]);
      if xs[|xs| - 1] > m then xs[|xs| - 1] else m
  }

  /** `min` and `max` pick elements of the list that bound every element. */
  lemma {:induction false} Extremes(xs: seq<real>)
    requires xs != []
    ensures Min(xs) in xs && Max(xs) in xs
    ensures forall x :: x in xs ==> Min(xs) <= x <= Max(xs)
  {
    if |xs| > 1 {
      var init := xs[..|xs| - 1];
      Extremes(init);
      assert xs == init + [xs[|xs| - 1]];
    }
  }

  lemma UnscaleMono(a: real, b: real, c: real)
    requires a * c <= b * c && 0.0 < c
    ensures a <= b
  {
    assert (b - a) * c >= 0.0;
  }

  /** A list of `n` values none below `lo` sums to at least `n * lo`. */
  lemma {:induction false} SumAtLeast(xs: seq<real>, lo: real)
    requires forall i :: 0 <= i < |xs| ==> lo <= xs[i]
    ensures lo * |xs| as real <= Sum(xs)
  {
    if xs != [] {
      var init := xs[..|xs| - 1];
      SumAtLeast(init, lo);
      assert Sum(xs) == Sum(init) + xs[|xs| - 1];
      assert lo * |xs| as real == lo * |init| as real + lo;
    }
  }

  /** A list of `n` values none above `hi` sums to at most `n * hi`. */
  lemma {:induction false} SumAtMost(xs: seq<real>, hi: real)
    requires forall i :: 0 <= i < |xs| ==> xs[i] <= hi
    ensures Sum(xs) <= hi * |xs| as real
  {
    if xs != [] {
      var init := xs[..|xs| - 1];
      SumAtMost(init, hi);
      assert Sum(xs) == Sum(init) + xs[|xs| - 1];
      assert hi * |xs| as real == hi * |init| as real + hi;
    }
  }

  /** Every element lies between the given least and greatest element. */
  lemma ExtremesAt(xs: seq<real>, lo: real, hi: real)
    requires xs != [] && lo == Min(xs) && hi == Max(xs)
    ensures forall i :: 0 <= i < |xs| ==> lo <= xs[i] <= hi
  {
    forall i | 0 <= i < |xs|
      ensures lo <= xs[i] <= hi
    {
      Extremes(xs);
      assert xs[i] in xs;
    }
  }

  /** A sum between `n * lo` and `n * hi` has its mean between `lo` and `hi`. */
  lemma MeanBound(lo: real, hi: real, sum: real, n: real)
    requires 0.0 < n && lo * n <= sum <= hi * n
    ensures lo <= sum / n <= hi
  {
    var mean := sum / n;
    assert mean * n == sum;
    UnscaleMono(lo, mean, n);
    UnscaleMono(mean, hi, n);
  }

  /** The mean of a non-empty list lies between its least and greatest element. */
  lemma MeanBetween(xs: seq<real>)
    requires xs != []
    ensures Min(xs) <= Sum(xs) / |xs| as real <= Max(xs)
  {
    var lo, hi := Min(xs), Max(xs);
    ExtremesAt(xs, lo, hi);
    SumAtLeast(xs, lo);
    SumAtMost(xs, hi);
    MeanBound(lo, hi, Sum(xs), |xs| as real);
  }

  /** `sum(xs) / len(xs) if xs else 0` */
  function Mean(xs: seq<real>): real {
    if xs == [] then 0.0 else Sum(xs) / |xs| as real
  }

  /** `min(xs) if xs else 0` */
  function Least(xs: seq<real>): real {
    if xs == [] then 0.0 else Min(xs)
  }

  /** `max(xs) if xs else 0` */
  function Greatest(xs: seq<real>): real {
    if xs == [] then 0.0 else Max(xs)
  }

  /** `n / t * 100` */
  function Rate(n: nat, t: nat): real
    requires t > 0
  {
    n as real / t as real * 100.0
  }

  /** `get_statistics` over a list of entries: the short result exactly for
      an empty log; otherwise at most as many successes as queries, and a
      success rate in [0, 100]. */
  function Stats(logs: seq<LogEntry>): (s: Statistics)
    ensures s.totalQueries == |logs|
    ensures s.EmptyLog? <==> logs == []
    ensures s.Summary? ==> s.successfulQueries <= s.totalQueries && 0.0 <= s.successRate <= 100.0
  {
    if logs == [] then EmptyLog(0, 0.0, 0.0)
    else
      var successful := Successful(logs);
      var latencies := Latencies(successful);
      SuccessfulSpec(logs);
      Percentage(|successful|, |logs|);
      Summary(|logs|, |successful|, Mean(latencies), Least(latencies), Greatest(latencies),
              Rate(|successful|, |logs|))
  }

  /** `rate` is the percentage that `n` items make of `t`, in [0, 100]. */
  predicate IsPercentage(rate: real, n: nat, t: nat) {
    rate * (t as real) == (n as real) * 100.0 && 0.0 <= rate <= 100.0
  }

  /** `n / t * 100` for `n` of `t` items is their percentage. */
  lemma Percentage(n: nat, t: nat)
    requires n <= t && 0 < t
    ensures IsPercentage(Rate(n, t), n, t)
  {
    var q := n as real / t as real;
    assert q * t as real == n as real;
    UnscaleMono(q, 1.0, t as real);
  }

  /** Over a non-empty list of successful entries, the least and greatest
      latency are latencies of some entry, bound every entry's latency, and
      enclose the mean. */
  lemma LatencySpec(logs: seq<LogEntry>)
    requires Successful(logs) != []
    ensures var ls := Latencies(Successful(logs));
      Min(ls) <= Sum(ls) / |ls| as real <= Max(ls)
      && (exists e :: e in logs && Succeeded(e) && e.latencySeconds == Min(ls))
      && (exists e :: e in logs && Succeeded(e) && e.latencySeconds == Max(ls))
      && (forall e :: e in logs && Succeeded(e) ==> Min(ls) <= e.latencySeconds <= Max(ls))
  {
    var successful := Successful(logs);
    SuccessfulSpec(logs);
    var ls := Latencies(successful);
    Extremes(ls);
    MeanBetween(ls);
    var i :| 0 <= i < |ls| && ls[i] == Min(ls);
    assert successful[i] in successful;
    var j :| 0 <= j < |ls| && ls[j] == Max(ls);
    assert successful[j] in successful;
    forall e | e in logs && Succeeded(e)
      ensures Min(ls) <= e.latencySeconds <= Max(ls)
    {
      var k :| 0 <= k < |successful| && successful[k] == e;
      assert ls[k] in ls;
    }
  }

  /** The statistics count every entry, and the empty log, and only the
      empty log, has the three zero keys alone. */
  lemma StatsShape(logs: seq<LogEntry>)
    ensures var s := Stats(logs);
      s.totalQueries == |logs|
      && (s.EmptyLog? <==> logs == [])
      && (s.EmptyLog? ==> s.averageLatency == 0.0 && s.successRate == 0.0)
  {
  }

  /** Successful queries are at most all queries, and the success rate is
      their percentage, in [0, 100]. */
  lemma StatsRate(logs: seq<LogEntry>)
    requires logs != []
    ensures Stats(logs).successfulQueries == |Successful(logs)| <= |logs|
    ensures IsPercentage(Stats(logs).successRate, |Successful(logs)|, |logs|)
  {
    var n, t := |Successful(logs)|, |logs|;
    assert n <= t by {
      SuccessfulSpec(logs);
    }
    Percentage(n, t);
    assert Stats(logs).successRate == Rate(n, t);
  }

  /** The latency figures are the mean, least and greatest latency of the
      successful entries, with min <= mean <= max, and all 0 when no entry
      succeeded. */
  lemma StatsLatencies(logs: seq<LogEntry>)
    requires logs != []
    ensures var s := Stats(logs);
      (s.successfulQueries == 0 ==>
         s.averageLatency == 0.0 && s.minLatency == 0.0 && s.maxLatency == 0.0)
      && (s.successfulQueries > 0 ==>
            s.minLatency <= s.averageLatency <= s.maxLatency
            && (exists e :: e in logs && Succeeded(e) && e.latencySeconds == s.minLatency)
            && (exists e :: e in logs && Succeeded(e) && e.latencySeconds == s.maxLatency)
            && (forall e :: e in logs && Succeeded(e) ==>
                  s.minLatency <= e.latencySeconds <= s.maxLatency))
  {
    var successful := Successful(logs);
    var ls := Latencies(successful);
    if successful != [] {
      LatencySpec(logs);
    }
  }

  // ---------------------------------------------------------------------------
  // Loading and appending

  /** The log list after `_load_existing_logs`: a missing file leaves it as
      it was, an unreadable one empties it, a readable one replaces it. */
  function Loaded(file: LogFile, current: seq<LogEntry>): (l: seq<LogEntry>)
    ensures file.Absent? ==> l == current
    ensures file.Unparseable? ==> l == []
    ensures file.Present? ==> l == file.entries
  {
    match file
    case Absent => current
    case Unparseable => []
    case Present(entries) => entries
  }

  /** How writing the log file goes once its directory exists: the whole
      list is written; creating the directory or `open(..., 'w')` raises,
      leaving the file alone; or the write raises after `open` has emptied
      the file, leaving it cut short. */
  datatype Write = Written | FailsBeforeOpen(error: string) | FailsWhileWriting(error: string)

  /** The exception `_save_logs` raises, if any: `os.makedirs('')` for a log
      path without a directory part, otherwise whatever the write raises. */
  function SaveError(logFile: string, write: Write): (o: Option<string>)
    ensures o.None? <==> HasDirectory(logFile) && write.Written?
    ensures !HasDirectory(logFile) ==> o == Some(NO_SUCH_DIRECTORY)
    ensures HasDirectory(logFile) && !write.Written? ==> o == Some(write.error)
  {
    if !HasDirectory(logFile) then Some(NO_SUCH_DIRECTORY)
    else match write
      case Written => None
      case FailsBeforeOpen(e) => Some(e)
      case FailsWhileWriting(e) => Some(e)
  }

  /** The log file after `_save_logs` of `logs` over `file`: the list when it
      was written, the file as it was when nothing was opened, and a file cut
      short (which `json.load` rejects) when the write failed after `open`. */
  function SavedFile(logFile: string, write: Write, file: LogFile, logs: seq<LogEntry>): (f: LogFile)
    ensures SaveError(logFile, write).None? ==> f == Present(logs)
    ensures f != file ==> HasDirectory(logFile) && !write.FailsBeforeOpen?
    ensures HasDirectory(logFile) && write.FailsWhileWriting? ==> f == Unparseable
  {
    if !HasDirectory(logFile) then file
    else match write
      case Written => Present(logs)
      case FailsBeforeOpen(_) => file
      case FailsWhileWriting(_) => Unparseable
  }

  /** The entry `log_query` appends. */
  function NewEntry(timestamp: string, query: string, latency: real, numDocs: int,
                    success: bool): (e: LogEntry)
    ensures e.query == query && e.numDocsRetrieved == numDocs && e.success == Some(success)
    ensures e.timestamp == timestamp
    ensures e.latencySeconds - 0.0005 <= latency <= e.latencySeconds + 0.0005
  {
    Round3Spec(latency);
    LogEntry(timestamp, query, Round3(latency), numDocs, Some(success))
  }

  class PerformanceLogger {
    const logFile: string
    var logs: seq<LogEntry>
    /** What the log file at `logFile` holds. */
    var file: LogFile

    /** `PerformanceLogger(log_file)`: without a path, the log lives under
        the log directory `logDir`. */
    constructor (logFile: Option<string>, logDir: string, file: LogFile)
      ensures this.logFile == (if logFile.Some? then logFile.value else PathJoin(logDir, LOG_FILE_NAME))
      ensures this.file == file
      ensures logs == Loaded(file, [])
    {
      this.logFile := if logFile.Some? then logFile.value else PathJoin(logDir, LOG_FILE_NAME);
      this.file := file;
      logs := [];
      new;
      LoadExistingLogs();
    }

    /** `_load_existing_logs` */
    method LoadExistingLogs()
      modifies this`logs
      ensures logs == Loaded(file, old(logs))
    {
      match file {
        case Absent =>
        case Unparseable => logs := [];
        case Present(entries) => logs := entries;
      }
    }

    /** `log_query`: appends one entry, leaving the earlier ones as they
        were, then rewrites the file with the whole list. A failed save
        raises after the append, so the list keeps the new entry while the
        file keeps its old contents, or is left cut short when the failure
        came after `open` had emptied it. */
    method LogQuery(query: string, latency: real, numDocs: int, success: bool,
                    timestamp: string, write: Write)
      returns (r: Result<()>)
      modifies this`logs, this`file
      ensures logs == old(logs) + [NewEntry(timestamp, query, latency, numDocs, success)]
      ensures SaveError(logFile, write).None? ==> r == Ok(()) && file == Present(logs)
      ensures SaveError(logFile, write).Some? ==> r == Err(SaveError(logFile, write).value)
      ensures file == SavedFile(logFile, write, old(file), logs)
    {
      logs := logs + [NewEntry(timestamp, query, latency, numDocs, success)];
      if !HasDirectory(logFile) {
        return Err(NO_SUCH_DIRECTORY);
      }
      match write {
        case Written =>
          file := Present(logs);
          r := Ok(());
        case FailsBeforeOpen(e) =>
          r := Err(e);
        case FailsWhileWriting(e) =>
          file := Unparseable;
          r := Err(e);
      }
    }

    /** `get_statistics` over the entries held now. */
    function GetStatistics(): (s: Statistics)
      reads this
      ensures s.totalQueries == |logs|
      ensures s.EmptyLog? <==> logs == []
      ensures s.Summary? ==> s.successfulQueries <= s.totalQueries && 0.0 <= s.successRate <= 100.0
      ensures s.Summary? && s.successfulQueries > 0 ==>
        s.minLatency <= s.averageLatency <= s.maxLatency
    {
      StatsShape(logs);
      if logs != [] then StatsRate(logs); StatsLatencies(logs); Stats(logs) else Stats(logs)
    }
  }

  /** What a logger started after a save finds: every entry when the save
      succeeded; after a failed save, the entries of the file as it was when
      nothing was opened, and none at all when the write had already emptied
      the file. */
  lemma ReloadAfterSave(logFile: string, write: Write, file: LogFile, logs: seq<LogEntry>)
    ensures SaveError(logFile, write).None? ==> Loaded(SavedFile(logFile, write, file, logs), []) == logs
    ensures HasDirectory(logFile) && write.FailsWhileWriting? ==>
      Loaded(SavedFile(logFile, write, file, logs), []) == []
    ensures SaveError(logFile, write).Some? && !write.FailsWhileWriting? ==>
      Loaded(SavedFile(logFile, write, file, logs), []) == Loaded(file, [])
  {
  }
}
