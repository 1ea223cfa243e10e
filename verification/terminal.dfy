/** The log buffer of the `Terminal` component in components/Terminal.tsx:
    every new log is appended after the last 50 kept entries, the clear
    button empties it, and mounting logs two system lines. Log ids,
    timestamps, scrolling and markup are not modelled. */
module Terminal {
  import opened Lines

  datatype Service = Claude | Morph | Freestyle | System

  datatype Level = Info | Success | Warning | Error

  datatype LogEntry = LogEntry(service: Service, level: Level, message: string)

  /** How many earlier entries survive an append (`prev.slice(-50)`). */
  const Kept: nat := 50

  /** The longest a buffer gets: the kept entries plus the new one. */
  const Capacity: nat := Kept + 1

  const InitializedMessage: string := "Resume-to-Hire platform initialized"
  const SponsorsMessage: string := "Sponsors: Claude AI, Morph Apply, Freestyle Deploy"

  /** `setLogs(prev => [...prev.slice(-50), newLog])`. */
  function AddLog(prev: seq<LogEntry>, entry: LogEntry): (next: seq<LogEntry>)
    ensures |next| == Min(|prev|, Kept) + 1 && |next| <= Capacity
    ensures next[|next| - 1] == entry
    ensures next[..|next| - 1] == prev[|prev| - (|next| - 1)..]
    ensures |prev| <= Kept ==> next == prev + [entry]
  {
    TakeLast(prev, Kept) + [entry]
  }

  /** `clearLogs`. */
  function ClearLogs(prev: seq<LogEntry>): (next: seq<LogEntry>)
    ensures |next| == 0
  {
    []
  }

  /** Several appends, in order. */
  function AddLogs(buffer: seq<LogEntry>, entries: seq<LogEntry>): seq<LogEntry>
    decreases |entries|
  {
    if |entries| == 0 then buffer
    else AddLogs(AddLog(buffer, entries[0]), entries[1..])
  }

  /** The two entries the mount effect logs, in order. */
  function MountLogs(): seq<LogEntry> {
    [LogEntry(System, Info, InitializedMessage), LogEntry(System, Info, SponsorsMessage)]
  }

  /** One append keeps the last 51 entries of the buffer extended by the
      new one. */
  lemma AddLogIsWindow(prev: seq<LogEntry>, entry: LogEntry)
    ensures AddLog(prev, entry) == TakeLast(prev + [entry], Capacity)
  {
    var all := prev + [entry];
    assert all[|all| - Min(|all|, Capacity)..] == prev[|prev| - Min(|prev|, Kept)..] + [entry];
  }

  /** Whatever the buffer held before, after at least one append it is the
      last 51 entries of its old contents followed by everything appended:
      the buffer is a sliding window over the log history. */
  lemma {:induction false} AddLogsIsWindow(buffer: seq<LogEntry>, entries: seq<LogEntry>)
    requires |entries| > 0
    ensures AddLogs(buffer, entries) == TakeLast(buffer + entries, Capacity)
    decreases |entries|
  {
    var first := buffer + [entries[0]];
    var rest := entries[1..];
    var next := AddLog(buffer, entries[0]);
    assert next == TakeLast(first, Capacity) by {
      AddLogIsWindow(buffer, entries[0]);
    }
    assert first + rest == buffer + entries;
    if |rest| > 0 {
      assert AddLogs(next, rest) == TakeLast(next + rest, Capacity) by {
        AddLogsIsWindow(next, rest);
      }
      assert TakeLast(next + rest, Capacity) == TakeLast(first + rest, Capacity) by {
        TakeLastOfTakeLast(first, rest, Capacity);
      }
    }
  }

  /** Taking a window first does not change a later window of the same
      size once more entries follow. */
  lemma TakeLastOfTakeLast(xs: seq<LogEntry>, ys: seq<LogEntry>, n: nat)
    requires n > 0
    ensures TakeLast(TakeLast(xs, n) + ys, n) == TakeLast(xs + ys, n)
  {
    var t := TakeLast(xs, n);
    var d := |xs| - |t|;
    assert t + ys == (xs + ys)[d..] by {
      SuffixAppend(xs, ys, d);
    }
    TakeLastOfSuffix(xs + ys, d, n);
  }

  /** Dropping a prefix commutes with appending. */
  lemma SuffixAppend(xs: seq<LogEntry>, ys: seq<LogEntry>, d: nat)
    requires d <= |xs|
    ensures xs[d..] + ys == (xs + ys)[d..]
  {
    forall j | 0 <= j < |xs| - d + |ys|
      ensures (xs[d..] + ys)[j] == (xs + ys)[d..][j]
    {
      if j < |xs| - d {
        assert (xs[d..] + ys)[j] == xs[d + j];
      }
    }
  }

  /** A window no wider than what is left after dropping a prefix does not
      see the dropped prefix. */
  lemma TakeLastOfSuffix(xs: seq<LogEntry>, d: nat, n: nat)
    requires d <= |xs| && (d == 0 || |xs| - d >= n)
    ensures TakeLast(xs[d..], n) == TakeLast(xs, n)
  {
    if d > 0 {
      var s := xs[d..];
      assert s[|s| - n..] == xs[|xs| - n..];
    }
  }

  /** From an empty buffer, a history is kept whole while it has at most 51
      entries; beyond that the oldest are dropped. */
  lemma HistoryFromEmpty(entries: seq<LogEntry>)
    ensures |entries| <= Capacity ==> AddLogs([], entries) == entries
    ensures |entries| > Capacity ==> AddLogs([], entries) == entries[|entries| - Capacity..]
  {
    if |entries| > 0 {
      var w := TakeLast(entries, Capacity);
      assert AddLogs([], entries) == w by {
        AddLogsIsWindow([], entries);
        assert [] + entries == entries;
      }
      if |entries| <= Capacity {
        assert w == entries;
      } else {
        assert w == entries[|entries| - Capacity..];
      }
    }
  }

  /** After a clear, the buffer holds only what was logged since, as if it
      had started empty: nothing from before the clear survives. */
  lemma ClearForgetsHistory(prev: seq<LogEntry>, entries: seq<LogEntry>)
    ensures |entries| <= Capacity ==> AddLogs(ClearLogs(prev), entries) == entries
    ensures |entries| > Capacity ==> AddLogs(ClearLogs(prev), entries) == entries[|entries| - Capacity..]
  {
    HistoryFromEmpty(entries);
  }

  /** Mounting on an empty buffer leaves exactly the two system lines, the
      initialisation line first. */
  lemma MountFromEmpty()
    ensures AddLogs([], MountLogs()) == MountLogs()
    ensures AddLogs([], MountLogs())[0].message == InitializedMessage
  {
    HistoryFromEmpty(MountLogs());
  }
}
