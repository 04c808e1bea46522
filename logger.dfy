/**
 * The in-memory log: every call appends one entry, the buffer keeps only the
 * most recent 1000 entries, and the last 100 are copied to the browser store.
 *
 * The timestamp (an ISO string from the clock) is a parameter; the optional
 * data arrives already serialised, None standing for `null`. Whether the copy
 * to the browser store fails is the parameter `persistFails`.
 */
module Logging {
  import opened Wrappers

  datatype LogLevel = Info | Warn | Error | Debug

  function LevelName(level: LogLevel): string {
    match level
    case Info => "INFO"
    case Warn => "WARN"
    case Error => "ERROR"
    case Debug => "DEBUG"
  }

  datatype LogEntry = LogEntry(timestamp: string, level: string, message: string, data: Option<string>)

  const MaxLogs: nat := 1000
  const PersistedLogCount: nat := 100

  /** `s.slice(-n)` for n > 0: the last n elements, or all of them when there are fewer. */
  function KeepLast<T>(s: seq<T>, n: nat): (r: seq<T>)
    ensures |r| == if |s| <= n then |s| else n
    ensures r == s[|s| - |r|..]
  {
    if |s| <= n then s else s[|s| - n..]
  }

  /**
   * Trimming after every append gives the same buffer as appending everything
   * and trimming once: the buffer is always the most recent entries, in order.
   */
  lemma KeepLastAbsorbs<T>(s: seq<T>, t: seq<T>, n: nat)
    ensures KeepLast(KeepLast(s, n) + t, n) == KeepLast(s + t, n)
  {
    var k := KeepLast(s, n);
    assert s + t == s[..|s| - |k|] + (k + t);
    if |k + t| <= n {
      if |s| > n {
        assert |k| == n;
      }
    } else {
      assert (s + t)[|s + t| - n..] == (k + t)[|k + t| - n..];
    }
  }

  class Logger {
    var logs: seq<LogEntry>
    /** The copy kept under the browser store's 'affordmed_logs' key. */
    var persisted: Option<seq<LogEntry>>
    const maxLogs: nat

    ghost predicate Valid()
      reads this
    {
      maxLogs == MaxLogs && |logs| <= maxLogs
    }

    /** An empty log; whatever an earlier page load persisted stays where it is. */
    constructor (previouslyPersisted: Option<seq<LogEntry>>)
      ensures Valid() && logs == [] && persisted == previouslyPersisted
    {
      logs := [];
      maxLogs := MaxLogs;
      persisted := previouslyPersisted;
    }

    /**
     * log: the new entry becomes the newest one; when the buffer exceeds 1000
     * entries only the most recent 1000 are kept. The last 100 are then
     * persisted; a failed write is ignored.
     */
    method Log(level: string, message: string, data: Option<string>, timestamp: string, persistFails: bool)
      requires Valid()
      modifies this
      ensures Valid()
      ensures logs == KeepLast(old(logs) + [LogEntry(timestamp, level, message, data)], MaxLogs)
      ensures logs != [] && logs[|logs| - 1] == LogEntry(timestamp, level, message, data)
      ensures persisted == if persistFails then old(persisted) else Some(KeepLast(logs, PersistedLogCount))
    {
      var entry := LogEntry(timestamp, level, message, data);
      logs := logs + [entry];
      if |logs| > maxLogs {
        logs := logs[|logs| - maxLogs..];
      }
      if !persistFails {
        persisted := Some(KeepLast(logs, PersistedLogCount));
      }
    }

    method LogInfo(message: string, data: Option<string>, timestamp: string, persistFails: bool)
      requires Valid()
      modifies this
      ensures Valid()
      ensures logs == KeepLast(old(logs) + [LogEntry(timestamp, "INFO", message, data)], MaxLogs)
      ensures persisted == if persistFails then old(persisted) else Some(KeepLast(logs, PersistedLogCount))
    {
      Log(LevelName(Info), message, data, timestamp, persistFails);
    }

    method LogWarn(message: string, data: Option<string>, timestamp: string, persistFails: bool)
      requires Valid()
      modifies this
      ensures Valid()
      ensures logs == KeepLast(old(logs) + [LogEntry(timestamp, "WARN", message, data)], MaxLogs)
      ensures persisted == if persistFails then old(persisted) else Some(KeepLast(logs, PersistedLogCount))
    {
      Log(LevelName(Warn), message, data, timestamp, persistFails);
    }

    method LogError(message: string, data: Option<string>, timestamp: string, persistFails: bool)
      requires Valid()
      modifies this
      ensures Valid()
      ensures logs == KeepLast(old(logs) + [LogEntry(timestamp, "ERROR", message, data)], MaxLogs)
      ensures persisted == if persistFails then old(persisted) else Some(KeepLast(logs, PersistedLogCount))
    {
      Log(LevelName(Error), message, data, timestamp, persistFails);
    }

    method LogDebug(message: string, data: Option<string>, timestamp: string, persistFails: bool)
      requires Valid()
      modifies this
      ensures Valid()
      ensures logs == KeepLast(old(logs) + [LogEntry(timestamp, "DEBUG", message, data)], MaxLogs)
      ensures persisted == if persistFails then old(persisted) else Some(KeepLast(logs, PersistedLogCount))
    {
      Log(LevelName(Debug), message, data, timestamp, persistFails);
    }

    /** getLogs. */
    function GetLogs(): seq<LogEntry>
      reads this
    {
      logs
    }

    /** clearLogs: the buffer is empty and the persisted copy removed. */
    method ClearLogs()
      requires Valid()
      modifies this
      ensures Valid() && logs == [] && persisted == None
    {
      logs := [];
      persisted := None;
    }
  }
}
