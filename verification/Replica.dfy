// One server's replicated log and the files it applies the log to (server_replication.go), as values:
// what each operation computes, crash recovery, and incremental updates.
module Replica {
  import opened Words

  datatype LogEntry = LogEntry(index: int, op: string, filename: string, content: string, version: int)

  type Files = map<string, string>

  /** A line of the log file: a JSON object, or text that does not parse (a write cut short by a crash). */
  datatype Line = Entry(entry: LogEntry) | Garbage

  datatype State = State(log: seq<LogEntry>, disk: seq<Line>, commitIndex: nat, lastApplied: nat, files: Files)

  const WRITE := "WRITE"

  // ---------- applying entries ----------

  function Apply(files: Files, e: LogEntry): Files
  {
    if e.op == WRITE then files[e.filename := e.content] else files
  }

  function Replay(files: Files, log: seq<LogEntry>): Files
  {
    if log == [] then files else Apply(Replay(files, log[..|log| - 1]), log[|log| - 1])
  }

  /**
   * applyCommitted: everything up to commitIndex is applied, in order. The flag is false when the Go code would
   * panic, because commitIndex points past the end of the log; then the whole log has been applied.
   */
  function ApplyCommitted(s: State): (State, bool)
  {
    if s.lastApplied >= s.commitIndex then (s, true)
    else if s.commitIndex <= |s.log| then
      (s.(files := Replay(s.files, s.log[s.lastApplied..s.commitIndex]), lastApplied := s.commitIndex), true)
    else
      var n := if s.lastApplied <= |s.log| then |s.log| else s.lastApplied;
      (s.(files := Replay(s.files, if s.lastApplied <= |s.log| then s.log[s.lastApplied..] else []), lastApplied := n + 1), false)
  }

  function Lines(entries: seq<LogEntry>): (lines: seq<Line>)
    ensures |lines| == |entries|
  {
    seq(|entries|, i requires 0 <= i < |entries| => Entry(entries[i]))
  }

  lemma LinesConcat(a: seq<LogEntry>, b: seq<LogEntry>)
    ensures Lines(a + b) == Lines(a) + Lines(b)
  {}

  /** The primary appends its own new entry, in memory and, if the write succeeds, on disk. */
  function AppendLocal(s: State, e: LogEntry, persisted: bool): State
  {
    s.(log := s.log + [e], disk := if persisted then s.disk + Lines([e]) else s.disk)
  }

  /** The primary commits up to an index and applies. */
  function CommitLocal(s: State, index: nat): (State, bool)
  {
    ApplyCommitted(s.(commitIndex := index))
  }

  // ---------- a backup receives entries ----------

  /** The entries that AppendEntries takes: an index already covered is skipped, anything else is appended as it comes. */
  function AppendAll(log: seq<LogEntry>, entries: seq<LogEntry>): seq<LogEntry>
  {
    if entries == [] then log
    else
      var before := AppendAll(log, entries[..|entries| - 1]);
      var e := entries[|entries| - 1];
      if e.index <= |before| then before else before + [e]
  }

  lemma {:induction false} AppendAllExtends(log: seq<LogEntry>, entries: seq<LogEntry>)
    ensures log <= AppendAll(log, entries)
  {
    if entries != [] {
      AppendAllExtends(log, entries[..|entries| - 1]);
    }
  }

  lemma AppendOne(log: seq<LogEntry>, e: LogEntry)
    ensures AppendAll(log, [e]) == if e.index <= |log| then log else log + [e]
  {
    assert [e][..0] == [];
  }

  lemma {:induction false} AppendAllConcat(log: seq<LogEntry>, a: seq<LogEntry>, b: seq<LogEntry>)
    ensures AppendAll(log, a + b) == AppendAll(AppendAll(log, a), b)
    decreases b
  {
    if b == [] {
      assert a + b == a;
    } else {
      assert (a + b)[..|a + b| - 1] == a + b[..|b| - 1];
      AppendAllConcat(log, a, b[..|b| - 1]);
    }
  }

  /** A stretch of an indexed log that starts no later than the received part ends brings the receiver up to its end. */
  lemma {:induction false} StretchIsTaken(full: seq<LogEntry>, n: nat, a: nat, b: nat)
    requires Indexed(full) && n <= |full| && a <= b <= |full| && a <= n
    ensures AppendAll(full[..n], full[a..b]) == full[..if b <= n then n else b]
    decreases b
  {
    if a < b {
      assert full[a..b] == full[a..b - 1] + [full[b - 1]];
      StretchIsTaken(full, n, a, b - 1);
      AppendAllConcat(full[..n], full[a..b - 1], [full[b - 1]]);
      AppendOne(full[..if b - 1 <= n then n else b - 1], full[b - 1]);
    } else {
      assert full[a..b] == [];
    }
  }

  /** AppendEntries. The reply is always "success"; the flag is false when applying panics. */
  function AppendEntries(s: State, entries: seq<LogEntry>, leaderCommit: int): (State, bool)
  {
    var log := AppendAll(s.log, entries);
    AppendAllExtends(s.log, entries);
    ApplyCommitted(State(log, s.disk + Lines(log[|s.log|..]),
                         if leaderCommit > s.commitIndex then leaderCommit else s.commitIndex,
                         s.lastApplied, s.files))
  }

  /** The wire carries an index as an int32. */
  function OnWire(e: LogEntry): LogEntry
  {
    e.(index := Wrap32(e.index))
  }

  // ---------- well-formed logs ----------

  ghost predicate Indexed(log: seq<LogEntry>)
  {
    forall i :: 0 <= i < |log| ==> log[i].index == i + 1
  }

  ghost predicate InOrder(s: State)
  {
    s.lastApplied <= s.commitIndex <= |s.log|
  }

  // ---------- replay ----------

  lemma {:induction false} ReplayConcat(files: Files, a: seq<LogEntry>, b: seq<LogEntry>)
    ensures Replay(files, a + b) == Replay(Replay(files, a), b)
  {
    if b == [] {
      assert a + b == a;
    } else {
      assert (a + b)[..|a + b| - 1] == a + b[..|b| - 1];
      ReplayConcat(files, a, b[..|b| - 1]);
    }
  }

  /** A server that panics has applied everything it has, and counts one more entry as applied. */
  lemma PanicAppliesRest(s: State)
    requires s.lastApplied <= |s.log| < s.commitIndex
    ensures var (s', ok) := ApplyCommitted(s);
            !ok && s' == s.(files := Replay(s.files, s.log[s.lastApplied..]), lastApplied := |s.log| + 1)
  {}

  predicate Writes(e: LogEntry, name: string)
  {
    e.op == WRITE && e.filename == name
  }

  /** After a replay a file holds the content of the last entry that writes it. */
  lemma {:induction false} LastWriteWins(files: Files, log: seq<LogEntry>, k: nat, name: string)
    requires k < |log| && Writes(log[k], name) && forall j :: k < j < |log| ==> !Writes(log[j], name)
    ensures name in Replay(files, log) && Replay(files, log)[name] == log[k].content
    decreases log
  {
    if k < |log| - 1 {
      assert !Writes(log[|log| - 1], name);
      LastWriteWins(files, log[..|log| - 1], k, name);
    }
  }

  /** And a file that no entry writes stays as it was. */
  lemma {:induction false} UnwrittenStays(files: Files, log: seq<LogEntry>, name: string)
    requires forall j :: 0 <= j < |log| ==> !Writes(log[j], name)
    ensures name in Replay(files, log) <==> name in files
    ensures name in files ==> Replay(files, log)[name] == files[name]
    decreases log
  {
    if log != [] {
      assert !Writes(log[|log| - 1], name);
      UnwrittenStays(files, log[..|log| - 1], name);
    }
  }

  lemma ReplayStep(files: Files, log: seq<LogEntry>, a: nat, b: nat)
    requires a <= b < |log|
    ensures Replay(files, log[a..b + 1]) == Apply(Replay(files, log[a..b]), log[b])
  {
    assert log[a..b + 1][..b - a] == log[a..b];
  }

  /** A replay overrides the files it starts from by the last write to each name. */
  lemma {:induction false} ReplayOverrides(files: Files, log: seq<LogEntry>)
    ensures Replay(files, log) == files + Replay(map[], log)
  {
    if log != [] {
      ReplayOverrides(files, log[..|log| - 1]);
    }
  }

  function Written(log: seq<LogEntry>): set<string>
  {
    Replay(map[], log).Keys
  }

  lemma {:induction false} WrittenNames(log: seq<LogEntry>)
    ensures forall i :: 0 <= i < |log| && log[i].op == WRITE ==> log[i].filename in Written(log)
  {
    if log != [] {
      WrittenNames(log[..|log| - 1]);
    }
  }

  lemma WrittenByPrefix(log: seq<LogEntry>, j: nat)
    requires j <= |log|
    ensures Written(log[..j]) <= Written(log)
  {
    assert log == log[..j] + log[j..];
    ReplayConcat(map[], log[..j], log[j..]);
    ReplayOverrides(Replay(map[], log[..j]), log[j..]);
  }

  /** Two file systems that differ at most on names the log writes. */
  ghost predicate AgreeElsewhere(f: Files, g: Files, log: seq<LogEntry>)
  {
    f - Written(log) == g - Written(log)
  }

  lemma ReplayForgets(f: Files, g: Files, log: seq<LogEntry>)
    requires AgreeElsewhere(f, g, log)
    ensures Replay(f, log) == Replay(g, log)
  {
    var w := Replay(map[], log);
    ReplayOverrides(f, log);
    ReplayOverrides(g, log);
    assert f + w == (f - w.Keys) + w;
    assert g + w == (g - w.Keys) + w;
  }

  // ---------- crash recovery ----------

  function Parsed(disk: seq<Line>): seq<LogEntry>
  {
    if disk == [] then []
    else
      var last := disk[|disk| - 1];
      Parsed(disk[..|disk| - 1]) + if last.Entry? then [last.entry] else []
  }

  lemma {:induction false} ParsedLines(entries: seq<LogEntry>)
    ensures Parsed(Lines(entries)) == entries
  {
    if entries != [] {
      var init := entries[..|entries| - 1];
      ParsedLines(init);
      assert Lines(entries)[..|entries| - 1] == Lines(init);
    }
  }

  lemma {:induction false} ParsedConcat(a: seq<Line>, b: seq<Line>)
    ensures Parsed(a + b) == Parsed(a) + Parsed(b)
  {
    if b == [] {
      assert a + b == a;
    } else {
      assert (a + b)[..|a + b| - 1] == a + b[..|b| - 1];
      ParsedConcat(a, b[..|b| - 1]);
    }
  }

  lemma {:induction false} ParsedGarbage(garbage: seq<Line>)
    requires forall i :: 0 <= i < |garbage| ==> garbage[i].Garbage?
    ensures Parsed(garbage) == []
  {
    if garbage != [] {
      ParsedGarbage(garbage[..|garbage| - 1]);
    }
  }

  /** recoverFromLog: unparseable lines are skipped, every other entry is appended and applied, committed or not. */
  function Recover(s: State): State
  {
    s.(log := s.log + Parsed(s.disk), files := Replay(s.files, Parsed(s.disk)))
  }

  /** at lists the lines of a log file that parse, in order, and entries is what they hold. */
  ghost predicate Picks(disk: seq<Line>, entries: seq<LogEntry>, at: seq<nat>)
  {
    && |at| == |entries|
    && (forall i, j :: 0 <= i < j < |at| ==> at[i] < at[j])
    && (forall i :: 0 <= i < |at| ==> at[i] < |disk| && disk[at[i]] == Entry(entries[i]))
    && (forall k :: 0 <= k < |disk| && disk[k].Entry? ==> k in at)
  }

  lemma PicksGarbage(disk: seq<Line>, entries: seq<LogEntry>, at: seq<nat>)
    requires Picks(disk, entries, at)
    ensures Picks(disk + [Garbage], entries, at)
  {
    forall k | 0 <= k < |disk + [Garbage]| && (disk + [Garbage])[k].Entry?
      ensures k in at
    {
      assert disk[k].Entry?;
    }
  }

  lemma PicksEntry(disk: seq<Line>, entries: seq<LogEntry>, at: seq<nat>, e: LogEntry)
    requires Picks(disk, entries, at)
    ensures Picks(disk + [Entry(e)], entries + [e], at + [|disk|])
  {
    var disk', entries', at' := disk + [Entry(e)], entries + [e], at + [|disk|];
    forall i, j | 0 <= i < j < |at'|
      ensures at'[i] < at'[j]
    {
      assert at[i] < |disk|;
    }
    forall k | 0 <= k < |disk'| && disk'[k].Entry?
      ensures k in at'
    {
      if k < |disk| {
        assert disk[k].Entry?;
        assert k in at;
      } else {
        assert at'[|at|] == k;
      }
    }
  }

  lemma PicksNothing()
    ensures Picks([], Parsed([]), [])
  {}

  /** What is recovered from a log file are the lines that parse, all of them, in the order of the file. */
  lemma {:induction false} ParsedPicksEntries(disk: seq<Line>) returns (at: seq<nat>)
    ensures Picks(disk, Parsed(disk), at)
    decreases |disk|
  {
    hide Parsed, Picks;
    if disk == [] {
      at := [];
      PicksNothing();
    } else {
      var n := |disk| - 1;
      var init, line := disk[..n], disk[n];
      at := ParsedPicksEntries(init);
      ParsedStep(disk);
      assert disk == init + [line];
      if line.Entry? {
        PicksEntry(init, Parsed(init), at, line.entry);
        at := at + [n];
      } else {
        PicksGarbage(init, Parsed(init), at);
      }
    }
  }

  lemma ParsedStep(disk: seq<Line>)
    requires disk != []
    ensures var (n, before) := (|disk| - 1, Parsed(disk[..|disk| - 1]));
            Parsed(disk) == (if disk[n].Entry? then before + [disk[n].entry] else before)
  {}

  /** So a line that does not parse, wherever it stands, makes no difference to the log and the files recovered. */
  lemma GarbageIsSkipped(a: seq<Line>, b: seq<Line>, s: State, t: State)
    requires s.disk == a + [Garbage] + b && t == s.(disk := a + b)
    ensures Recover(s) == Recover(t).(disk := s.disk)
  {
    ParsedGarbage([Garbage]);
    ParsedConcat(a, [Garbage]);
    ParsedConcat(a + [Garbage], b);
    ParsedConcat(a, b);
    assert Parsed(a) + [] == Parsed(a);
    hide Parsed, Replay;
  }

  /** A crash in the middle of a write of the log file: the entries before it are recovered, and nothing else. */
  lemma TornLineIsSkipped(log: seq<LogEntry>, files: Files)
    ensures Recover(State([], Lines(log) + [Garbage], 0, 0, files)) ==
      State(log, Lines(log) + [Garbage], 0, 0, Replay(files, log))
  {
    ParsedLines(log);
    ParsedGarbage([Garbage]);
    ParsedConcat(Lines(log), [Garbage]);
    hide Parsed, Replay, Lines;
    assert log + [] == log && [] + log == log;
  }

  /**
   * The files left by a crash while a server applies the log to them: some entries are done, and the
   * write of the next one may have left anything at all in its file.
   */
  ghost predicate CrashedWhileApplying(before: Files, log: seq<LogEntry>, after: Files)
  {
    exists j: nat :: j <= |log| && LeftAt(before, log, j, after)
  }

  ghost predicate LeftAt(before: Files, log: seq<LogEntry>, j: nat, after: Files)
    requires j <= |log|
  {
    var done := Replay(before, log[..j]);
    || after == done
    || (j < |log| && log[j].op == WRITE && log[j].filename in after && after == done[log[j].filename := after[log[j].filename]])
  }

  lemma CrashTouchesOnlyWritten(before: Files, log: seq<LogEntry>, after: Files)
    requires CrashedWhileApplying(before, log, after)
    ensures AgreeElsewhere(before, after, log)
  {
    var j: nat :| j <= |log| && LeftAt(before, log, j, after);
    var w, done := Written(log), Replay(before, log[..j]);
    ReplayOverrides(before, log[..j]);
    WrittenByPrefix(log, j);
    WrittenNames(log);
    assert done - w == before - w;
    assert after - w == done - w;
  }

  /** A server that crashes while applying, restarts, crashes again while recovering, and so on. */
  ghost predicate Crashes(history: seq<Files>, log: seq<LogEntry>)
  {
    forall i :: 0 < i < |history| ==> CrashedWhileApplying(history[i - 1], log, history[i])
  }

  lemma {:induction false} CrashesTouchOnlyWritten(history: seq<Files>, log: seq<LogEntry>)
    requires |history| > 0 && Crashes(history, log)
    ensures AgreeElsewhere(history[0], history[|history| - 1], log)
  {
    if |history| > 1 {
      var n := |history| - 1;
      CrashesTouchOnlyWritten(history[..n], log);
      CrashTouchesOnlyWritten(history[n - 1], log, history[n]);
    }
  }

  /**
   * Recovery is idempotent: after any number of crashes at any points, torn writes included, replaying the
   * durable log gives what one uninterrupted replay gives, and recovering once more changes nothing.
   */
  lemma RecoveryIsIdempotent(s: State, history: seq<Files>)
    requires s.log == [] && |history| > 0 && s.files == history[|history| - 1]
    requires Crashes(history, Parsed(s.disk))
    ensures Recover(s).files == Replay(history[0], Parsed(s.disk)) && Recover(s).log == Parsed(s.disk)
    ensures Recover(Recover(s).(log := [])) == Recover(s)
  {
    var log := Parsed(s.disk);
    CrashesTouchOnlyWritten(history, log);
    ReplayForgets(history[0], s.files, log);
    ReplayOverrides(s.files, log);
    var w := Replay(map[], log);
    assert s.files - w.Keys == (s.files + w) - w.Keys;
    ReplayForgets(s.files, Recover(s).files, log);
  }

  /** A local append keeps the log file equal to the log exactly when the write succeeds. */
  lemma AppendIsDurableIffPersisted(s: State, e: LogEntry, persisted: bool)
    requires s.disk == Lines(s.log)
    ensures var s' := AppendLocal(s, e, persisted); s'.disk == Lines(s'.log) <==> persisted
  {
    assert Lines(s.log + [e]) == Lines(s.log) + Lines([e]);
    assert |Lines(s.log)| == |s.log|;
  }

  // ---------- incremental updates ----------

  /** ApplyUpdate on a list of entries: skip what is covered, append the next one, stop with an error at a gap. */
  function ApplyUpdate(log: seq<LogEntry>, entries: seq<LogEntry>): (seq<LogEntry>, bool)
    decreases |entries|
  {
    if entries == [] then (log, true)
    else if entries[0].index <= |log| then ApplyUpdate(log, entries[1..])
    else if entries[0].index != |log| + 1 then (log, false)
    else ApplyUpdate(log + [entries[0]], entries[1..])
  }

  /** It only extends the log, keeps it indexed, and takes nothing but entries of the list. */
  lemma {:induction false} UpdateExtends(log: seq<LogEntry>, entries: seq<LogEntry>)
    ensures log <= ApplyUpdate(log, entries).0
    ensures Indexed(log) ==> Indexed(ApplyUpdate(log, entries).0)
    ensures forall i :: |log| <= i < |ApplyUpdate(log, entries).0| ==> ApplyUpdate(log, entries).0[i] in entries
    decreases |entries|
  {
    if entries != [] {
      if entries[0].index <= |log| {
        UpdateExtends(log, entries[1..]);
      } else if entries[0].index == |log| + 1 {
        UpdateExtends(log + [entries[0]], entries[1..]);
        var result := ApplyUpdate(log, entries).0;
        assert result[|log|] == (log + [entries[0]])[|log|];
      }
    }
  }

  /** Of several entries with one index it takes the first of the list. */
  lemma {:induction false} UpdateTakesFirst(log: seq<LogEntry>, entries: seq<LogEntry>, i: nat) returns (j: nat)
    requires Indexed(log) && |log| <= i < |ApplyUpdate(log, entries).0|
    ensures j < |entries| && entries[j] == ApplyUpdate(log, entries).0[i]
    ensures forall k :: 0 <= k < j ==> entries[k].index != i + 1
    decreases |entries|
  {
    if entries[0].index <= |log| {
      j := UpdateTakesFirst(log, entries[1..], i);
      j := j + 1;
    } else if i == |log| {
      UpdateExtends(log + [entries[0]], entries[1..]);
      j := 0;
      assert ApplyUpdate(log, entries).0[|log|] == (log + [entries[0]])[|log|];
    } else {
      j := UpdateTakesFirst(log + [entries[0]], entries[1..], i);
      j := j + 1;
    }
  }

  /** It succeeds exactly when it covers every index of the list, and otherwise stops at the first entry that leaves a gap. */
  lemma {:induction false} UpdateStopsAtFirstGap(log: seq<LogEntry>, entries: seq<LogEntry>) returns (k: nat)
    ensures var (result, ok) := ApplyUpdate(log, entries);
            && k <= |entries| && (forall i :: 0 <= i < k ==> entries[i].index <= |result|)
            && (ok ==> k == |entries|)
            && (!ok ==> k < |entries| && entries[k].index > |result| + 1 && ApplyUpdate(log, entries[..k]) == (result, true))
    decreases |entries|
  {
    k := 0;
    if entries != [] {
      var e := entries[0];
      if e.index <= |log| {
        k := UpdateStopsAtFirstGap(log, entries[1..]);
        UpdateExtends(log, entries[1..]);
        k := k + 1;
        assert k <= |entries| && entries[..k][0] == e && entries[..k][1..] == entries[1..][..k - 1];
      } else if e.index == |log| + 1 {
        k := UpdateStopsAtFirstGap(log + [e], entries[1..]);
        UpdateExtends(log + [e], entries[1..]);
        k := k + 1;
        assert k <= |entries| && entries[..k][0] == e && entries[..k][1..] == entries[1..][..k - 1];
      }
    }
  }

  lemma {:induction false} CoveredEntriesAreSkipped(log: seq<LogEntry>, entries: seq<LogEntry>, k: nat)
    requires k <= |entries| && forall i :: 0 <= i < k ==> entries[i].index <= |log|
    ensures ApplyUpdate(log, entries) == ApplyUpdate(log, entries[k..])
    decreases k
  {
    if k > 0 {
      CoveredEntriesAreSkipped(log, entries[1..], k - 1);
      assert entries[1..][k - 1..] == entries[k..];
    }
  }

  /** Applying the same list again changes nothing and reports the same. */
  lemma UpdateAgainIsNoOp(log: seq<LogEntry>, entries: seq<LogEntry>)
    ensures var (result, ok) := ApplyUpdate(log, entries); ApplyUpdate(result, entries) == (result, ok)
  {
    var (result, ok) := ApplyUpdate(log, entries);
    var k := UpdateStopsAtFirstGap(log, entries);
    CoveredEntriesAreSkipped(result, entries, k);
  }
}
