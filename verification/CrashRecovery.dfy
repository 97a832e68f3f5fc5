// A server of the cluster crashes and restarts from its log file (server_replication.go:233-250, server_basics.go:876-882):
// what its log and its files are then.
module CrashRecovery {
  import opened Basics
  import opened Words
  import opened Replica
  import opened Cluster
  import opened Availability
  import opened AllRuns
  import opened GapCommits

  /** What a restarted server recovers: a fresh state with the old log file, over whatever the crashes left in the files. */
  function Restarted(node: State, files: Files): State
  {
    Recover(State([], node.disk, 0, 0, files))
  }

  // ---------- what every run without panics keeps, gaps or not ----------

  /** A call with any entries that does not panic keeps the files a replay of the applied log, and the log file equal to the log. */
  lemma CallReplays(node: State, base: Files, entries: seq<LogEntry>, commit: int)
    requires Replayed(node, base) && node.disk == Lines(node.log) && AppendEntries(node, entries, commit).1
    ensures var node' := AppendEntries(node, entries, commit).0;
            Replayed(node', base) && node'.disk == Lines(node'.log) && node'.lastApplied == node'.commitIndex >= commit
  {
    var log := AppendAll(node.log, entries);
    AppendAllExtends(node.log, entries);
    PanicsIffCommitPastLog(node, entries, commit);
    assert log[..node.lastApplied] == node.log[..node.lastApplied];
    assert log == node.log + log[|node.log|..];
    LinesConcat(node.log, log[|node.log|..]);
    var mid := State(log, node.disk + Lines(log[|node.log|..]),
                     if commit > node.commitIndex then commit else node.commitIndex, node.lastApplied, node.files);
    ApplyKeepsReplayed(mid, base);
  }

  ghost predicate ServerOk(c: Cluster, base: Files, s: Id)
    requires WellFormed(c) && s in c.servers
  {
    && Replayed(c.nodes[s], base)
    && (s != c.primary ==> c.nodes[s].disk == Lines(c.nodes[s].log))
  }

  lemma StepKeepsServerOk(c: Cluster, base: Files, s: Id, step: Step)
    requires WellFormed(c) && Enabled(c, step) && !PanicsAt(c, step) && s in c.servers && ServerOk(c, base, s)
    ensures ServerOk(Next(c, step), base, s)
  {
    var node := c.nodes[s];
    hide ToPeers;
    if step.Deliver? && step.m.to == s {
      CallReplays(node, base, [step.m.entry], step.m.commit);
    } else if step.Submit? && s == c.primary {
      AppendKeepsReplayed(node, base, LogEntry(|node.log| + 1, step.op, step.filename, step.content, step.version), step.persisted);
    } else if step.Commit? && s == c.primary {
      ApplyKeepsReplayed(node.(commitIndex := |node.log|), base);
    }
  }

  lemma {:induction false} RunKeepsServerOk(c: Cluster, base: Files, s: Id, steps: seq<Step>)
    requires WellFormed(c) && Run(c, steps) && Calm(c, steps) && s in c.servers && ServerOk(c, base, s)
    ensures ServerOk(End(c, steps), base, s)
    decreases steps
  {
    if steps != [] {
      hide Next, Enabled, PanicsAt, ServerOk;
      StepKeepsServerOk(c, base, s, steps[0]);
      RunKeepsServerOk(Next(c, steps[0]), base, s, steps[1..]);
    }
  }

  /**
   * In every run without panics, gaps or not: on every server the files are the start files with log[..lastApplied]
   * replayed, so a crash may leave them at any moment; and a backup's log file holds its log.
   */
  lemma EveryMomentIsACrashPoint(c: Cluster, base: map<Id, Files>, steps: seq<Step>, s: Id)
    requires Initial(c, base) && Run(c, steps) && Calm(c, steps) && s in c.servers
    ensures var node := End(c, steps).nodes[s];
            && node.lastApplied <= |node.log| && node.files == Replay(base[s], node.log[..node.lastApplied])
            && CrashedWhileApplying(base[s], node.log, node.files)
            && (s != c.primary ==> Parsed(node.disk) == node.log)
  {
    assert Lines([]) == [];
    RunKeepsServerOk(c, base[s], s, steps);
    var node := End(c, steps).nodes[s];
    assert LeftAt(base[s], node.log, node.lastApplied, node.files);
    ParsedLines(node.log);
  }

  /**
   * A backup that crashes after such a run, at any point of applying, and again any number of times while it recovers,
   * ends up with its whole log and with the files of one uninterrupted replay of it.
   */
  lemma BackupRecovers(c: Cluster, base: map<Id, Files>, steps: seq<Step>, s: Id, history: seq<Files>)
    requires Initial(c, base) && Run(c, steps) && Calm(c, steps) && s in c.servers && s != c.primary
    requires |history| > 0 && history[0] == base[s] && Crashes(history, End(c, steps).nodes[s].log)
    ensures var node := End(c, steps).nodes[s];
            var r := Restarted(node, history[|history| - 1]);
            r.log == node.log && r.files == Replay(base[s], node.log)
  {
    EveryMomentIsACrashPoint(c, base, steps, s);
    var node := End(c, steps).nodes[s];
    RecoveryIsIdempotent(State([], node.disk, 0, 0, history[|history| - 1]), history);
  }

  // ---------- a crash in the middle of a write of the log file ----------

  /**
   * What a crash leaves after the last complete line: nothing, a part of an entry that does not parse, or the whole entry
   * without its newline.
   */
  datatype Tail = Clean | Partial | Whole(entry: LogEntry)

  /** What recoverFromLog reads. */
  function Readable(disk: seq<Line>, tail: Tail): seq<Line>
  {
    match tail
    case Clean => disk
    case Partial => disk + [Garbage]
    case Whole(entry) => disk + [Entry(entry)]
  }

  function RecoveredLog(log: seq<LogEntry>, tail: Tail): seq<LogEntry>
  {
    if tail.Whole? then log + [tail.entry] else log
  }

  lemma ReadableParses(log: seq<LogEntry>, tail: Tail)
    ensures Parsed(Readable(Lines(log), tail)) == RecoveredLog(log, tail)
  {
    ParsedLines(log);
    ParsedGarbage([Garbage]);
    ParsedConcat(Lines(log), [Garbage]);
    if tail.Whole? {
      assert Readable(Lines(log), tail)[..|log|] == Lines(log);
    }
  }

  /**
   * A backup that crashes while it writes an entry to its log file recovers the entries before, and that entry exactly when all of
   * it but the newline was written; and its files are one replay of them, whatever crashes during recovery did.
   */
  lemma BackupRecoversFromTornAppend(c: Cluster, base: map<Id, Files>, steps: seq<Step>, s: Id, tail: Tail, history: seq<Files>)
    requires Initial(c, base) && Run(c, steps) && Calm(c, steps) && s in c.servers && s != c.primary
    requires |history| > 0 && history[0] == base[s] && Crashes(history, RecoveredLog(End(c, steps).nodes[s].log, tail))
    ensures var node := End(c, steps).nodes[s];
            var r := Restarted(node.(disk := Readable(node.disk, tail)), history[|history| - 1]);
            r.log == RecoveredLog(node.log, tail) && r.files == Replay(base[s], RecoveredLog(node.log, tail))
  {
    var node := End(c, steps).nodes[s];
    assert node.disk == Lines(node.log) by {
      assert Lines([]) == [];
      RunKeepsServerOk(c, base[s], s, steps);
    }
    ReadableParses(node.log, tail);
    RecoveryIsIdempotent(State([], Readable(node.disk, tail), 0, 0, history[|history| - 1]), history);
  }

  /** The complete lines after the next append, which goes on where the torn one stopped: two entries on a line do not parse. */
  function AppendedAfter(disk: seq<Line>, tail: Tail, e: LogEntry): seq<Line>
  {
    if tail.Clean? then disk + [Entry(e)] else disk + [Garbage]
  }

  /** So the next entry after a torn write is durable exactly when the write left nothing. */
  lemma NextAppendIsDurableIff(disk: seq<Line>, tail: Tail, e: LogEntry)
    ensures Parsed(AppendedAfter(disk, tail, e)) == Parsed(Readable(disk, tail)) + [e] <==> tail.Clean?
    ensures !tail.Clean? ==> Parsed(AppendedAfter(disk, tail, e)) == Parsed(disk)
  {
    assert forall line :: (disk + [line])[..|disk|] == disk;
    assert |Parsed(disk + [Garbage])| == |Parsed(disk)|;
  }

  // ---------- the primary's log file ----------

  function PrimaryDisk(c: Cluster): seq<Line>
    requires WellFormed(c)
  {
    c.nodes[c.primary].disk
  }

  lemma NoFailedUnfolds(steps: seq<Step>)
    requires steps != []
    ensures NoFailedWrites(steps) == (NotFailed(steps[0]) && NoFailedWrites(steps[1..]))
  {
    assert steps == [steps[0]] + steps[1..];
  }

  /** What a server has committed is at the beginning of what it would recover. */
  ghost predicate CommittedIsDurable(node: State)
  {
    node.commitIndex <= |node.log| && node.log[..node.commitIndex] <= Parsed(node.disk)
  }

  lemma {:induction false} FirstFailure(steps: seq<Step>) returns (i: nat)
    requires !NoFailedWrites(steps)
    ensures i < |steps| && !NotFailed(steps[i]) && NoFailedWrites(steps[..i])
  {
    if !NotFailed(steps[0]) {
      i := 0;
    } else {
      assert !NoFailedWrites(steps[1..]) by {
        var k :| 0 <= k < |steps| && !NotFailed(steps[k]);
        assert steps[1..][k - 1] == steps[k];
      }
      i := FirstFailure(steps[1..]);
      i := i + 1;
      assert steps[..i] == [steps[0]] + steps[1..][..i - 1];
    }
  }

  /** As long as no write fails the log file is the log. */
  lemma {:induction false} DiskIsLog(c: Cluster, steps: seq<Step>)
    requires WellFormed(c) && Run(c, steps) && NoFailedWrites(steps)
    requires PrimaryOk(c.nodes[c.primary]) && PrimaryDisk(c) == Lines(PrimaryLog(c))
    ensures PrimaryOk(End(c, steps).nodes[c.primary]) && PrimaryDisk(End(c, steps)) == Lines(PrimaryLog(End(c, steps)))
    decreases steps
  {
    if steps != [] {
      hide Next, Enabled, PrimaryOk;
      PrimaryStep(c, steps[0]);
      LinesConcat(PrimaryLog(c), NewEntries(c.nodes[c.primary], steps[0]));
      NoFailedUnfolds(steps);
      DiskIsLog(Next(c, steps[0]), steps[1..]);
    }
  }

  /** The log file lacks entry k + 1, and what follows it in the file comes later in the log. */
  ghost predicate DiskLacks(p: State, k: nat)
  {
    && PrimaryOk(p) && k < |p.log| && k <= |p.disk| && p.disk[..k] == Lines(p.log[..k])
    && forall j :: k <= j < |p.disk| ==> p.disk[j].Entry? && p.disk[j].entry.index > k + 1
  }

  lemma StepKeepsDiskLacks(c: Cluster, k: nat, step: Step)
    requires WellFormed(c) && Enabled(c, step) && DiskLacks(c.nodes[c.primary], k)
    ensures DiskLacks(Next(c, step).nodes[c.primary], k)
  {
    var p, p' := c.nodes[c.primary], Next(c, step).nodes[c.primary];
    PrimaryStep(c, step);
    hide Next, Enabled, PrimaryOk;
    assert p'.log[..k] == p.log[..k] && p'.disk[..k] == p.disk[..k];
  }

  lemma {:induction false} RunKeepsDiskLacks(c: Cluster, k: nat, steps: seq<Step>)
    requires WellFormed(c) && Run(c, steps) && DiskLacks(c.nodes[c.primary], k)
    ensures DiskLacks(End(c, steps).nodes[c.primary], k)
    decreases steps
  {
    if steps != [] {
      hide Next, Enabled, DiskLacks;
      StepKeepsDiskLacks(c, k, steps[0]);
      RunKeepsDiskLacks(Next(c, steps[0]), k, steps[1..]);
    }
  }

  lemma {:induction false} ParsedIndexes(disk: seq<Line>, k: int)
    requires forall j :: 0 <= j < |disk| ==> disk[j].Entry? && disk[j].entry.index > k
    ensures forall j :: 0 <= j < |Parsed(disk)| ==> Parsed(disk)[j].index > k
  {
    if disk != [] {
      ParsedIndexes(disk[..|disk| - 1], k);
    }
  }

  /** What is recovered from such a file parts from the log at the missing entry. */
  lemma ParsedDiffers(p: State, k: nat)
    requires DiskLacks(p, k)
    ensures k < |p.log| && p.log[..k] <= Parsed(p.disk)
    ensures k < |Parsed(p.disk)| ==> Parsed(p.disk)[k] != p.log[k]
  {
    ParsedLines(p.log[..k]);
    assert p.disk == p.disk[..k] + p.disk[k..];
    ParsedConcat(p.disk[..k], p.disk[k..]);
    ParsedIndexes(p.disk[k..], k + 1);
    var parsed := Parsed(p.disk);
    assert parsed == p.log[..k] + Parsed(p.disk[k..]);
    assert k < |parsed| ==> parsed[k] == Parsed(p.disk[k..])[0];
    assert p.log[k].index == k + 1;
  }

  /** Then exactly the commits below the missing entry are durable. */
  lemma DurableBelowMissing(p: State, k: nat)
    requires DiskLacks(p, k)
    ensures CommittedIsDurable(p) <==> p.commitIndex <= k
  {
    ParsedDiffers(p, k);
    if p.commitIndex <= k {
      assert p.log[..p.commitIndex] == p.log[..k][..p.commitIndex];
    } else {
      assert p.log[..p.commitIndex][k] == p.log[k];
    }
  }

  lemma DurableWithoutFailure(p: State)
    requires PrimaryOk(p) && p.disk == Lines(p.log)
    ensures CommittedIsDurable(p)
  {
    ParsedLines(p.log);
  }

  /** A write fails, for the first time. */
  lemma FailureStartsDiskLacks(c: Cluster, failed: Step)
    requires WellFormed(c) && Enabled(c, failed) && !NotFailed(failed)
    requires PrimaryOk(c.nodes[c.primary]) && PrimaryDisk(c) == Lines(PrimaryLog(c))
    ensures DiskLacks(Next(c, failed).nodes[c.primary], |PrimaryLog(c)|)
    ensures Next(c, failed).nodes[c.primary].commitIndex <= |PrimaryLog(c)|
  {
    var p' := Next(c, failed).nodes[c.primary];
    PrimaryStep(c, failed);
    hide Next, Enabled;
    assert p'.log[..|PrimaryLog(c)|] == PrimaryLog(c);
    assert p'.disk[..|PrimaryLog(c)|] == p'.disk;
  }

  /** From the first failure on. */
  lemma AfterFirstFailure(c: Cluster, before: seq<Step>, failed: Step, after: seq<Step>) returns (k: nat)
    requires WellFormed(c) && Run(c, before + ([failed] + after)) && NoFailedWrites(before) && !NotFailed(failed)
    requires PrimaryOk(c.nodes[c.primary]) && PrimaryDisk(c) == Lines(PrimaryLog(c))
    ensures var p := End(c, before + ([failed] + after)).nodes[c.primary];
            DiskLacks(p, k) && (p.commitIndex > k <==> Commit in after)
  {
    RunSplit(c, before, [failed] + after);
    var m := End(c, before);
    assert ([failed] + after)[0] == failed && ([failed] + after)[1..] == after;
    DiskIsLog(c, before);
    FailureStartsDiskLacks(m, failed);
    var f := Next(m, failed);
    k := |PrimaryLog(m)|;
    hide Next, Enabled;
    RunKeepsDiskLacks(f, k, after);
    CommitPasses(f, k, after);
  }

  /** With the first failure at i, a commit comes after some failure exactly when one comes after this one. */
  lemma CommitAfterFirst(steps: seq<Step>, i: nat)
    requires i < |steps| && !NotFailed(steps[i]) && NoFailedWrites(steps[..i])
    ensures CommitAfterFailure(steps) <==> Commit in steps[i + 1..]
  {
    forall a | 0 <= a < i
      ensures NotFailed(steps[a])
    {
      assert steps[..i][a] == steps[a];
    }
    if CommitAfterFailure(steps) {
      var a, b :| 0 <= a < b < |steps| && !NotFailed(steps[a]) && steps[b] == Commit;
      assert steps[i + 1..][b - i - 1] == Commit;
    }
    if Commit in steps[i + 1..] {
      var b :| 0 <= b < |steps[i + 1..]| && steps[i + 1..][b] == Commit;
      assert steps[i + 1 + b] == Commit;
    }
  }

  /** In any run the primary's log file is the log, or lacks an entry; and then what is committed past it came after a failure. */
  lemma LogFileAfter(c: Cluster, base: map<Id, Files>, steps: seq<Step>) returns (k: nat)
    requires Initial(c, base) && Run(c, steps)
    ensures var p := End(c, steps).nodes[c.primary];
            if NoFailedWrites(steps) then PrimaryOk(p) && p.disk == Lines(p.log) && !CommitAfterFailure(steps)
            else DiskLacks(p, k) && (p.commitIndex > k <==> CommitAfterFailure(steps))
  {
    hide Next, Enabled, Run, End, CommitAfterFailure, DiskLacks, PrimaryOk;
    assert PrimaryOk(c.nodes[c.primary]) && PrimaryDisk(c) == Lines(PrimaryLog(c)) by {
      InitialIsOk(c, base);
    }
    if NoFailedWrites(steps) {
      DiskIsLog(c, steps);
      NoFailureNoCommitAfter(steps);
      k := 0;
    } else {
      var i := FirstFailure(steps);
      CommitAfterFirst(steps, i);
      assert steps == steps[..i] + ([steps[i]] + steps[i + 1..]);
      k := AfterFirstFailure(c, steps[..i], steps[i], steps[i + 1..]);
    }
  }

  lemma InitialIsOk(c: Cluster, base: map<Id, Files>)
    requires Initial(c, base)
    ensures WellFormed(c) && PrimaryOk(c.nodes[c.primary]) && PrimaryDisk(c) == Lines(PrimaryLog(c))
  {
    assert Lines([]) == [];
  }

  lemma NoFailureNoCommitAfter(steps: seq<Step>)
    requires NoFailedWrites(steps)
    ensures !CommitAfterFailure(steps)
  {}

  /**
   * In every run, gaps and panics included, and for any number of servers: what the primary has committed can be recovered from
   * its log file exactly when nothing was committed after a failed log write.
   */
  lemma CommittedIsDurableIff(c: Cluster, base: map<Id, Files>, steps: seq<Step>)
    requires Initial(c, base) && Run(c, steps)
    ensures CommittedIsDurable(End(c, steps).nodes[c.primary]) <==> !CommitAfterFailure(steps)
  {
    var k := LogFileAfter(c, base, steps);
    hide CommitAfterFailure, CommittedIsDurable, DiskLacks, Run, End;
    if NoFailedWrites(steps) {
      DurableWithoutFailure(End(c, steps).nodes[c.primary]);
    } else {
      DurableBelowMissing(End(c, steps).nodes[c.primary], k);
    }
  }

  /** In every run: the primary's log file gives back its log exactly when every log write succeeded. */
  lemma PrimaryLogIsDurableIff(c: Cluster, base: map<Id, Files>, steps: seq<Step>)
    requires Initial(c, base) && Run(c, steps)
    ensures Parsed(PrimaryDisk(End(c, steps))) == PrimaryLog(End(c, steps)) <==> NoFailedWrites(steps)
  {
    var k := LogFileAfter(c, base, steps);
    var p := End(c, steps).nodes[c.primary];
    if NoFailedWrites(steps) {
      ParsedLines(p.log);
    } else {
      ParsedDiffers(p, k);
    }
  }

  /** Then it recovers from crashes as a backup does. */
  lemma PrimaryRecovers(c: Cluster, base: map<Id, Files>, steps: seq<Step>, history: seq<Files>)
    requires Initial(c, base) && Run(c, steps) && NoFailedWrites(steps)
    requires |history| > 0 && history[0] == base[c.primary] && Crashes(history, PrimaryLog(End(c, steps)))
    ensures var node := End(c, steps).nodes[c.primary];
            var r := Restarted(node, history[|history| - 1]);
            r.log == node.log && r.files == Replay(base[c.primary], node.log)
  {
    PrimaryLogIsDurableIff(c, base, steps);
    var node := End(c, steps).nodes[c.primary];
    RecoveryIsIdempotent(State([], node.disk, 0, 0, history[|history| - 1]), history);
  }

  /** Whatever the number of servers, such a commit can happen, with no call lost, late or refused. */
  lemma CommittedCanBeLost(c: Cluster, base: map<Id, Files>) returns (steps: seq<Step>, e: Cluster)
    requires Initial(c, base)
    ensures Goes(c, steps, e) && c.primary in e.nodes && !CommittedIsDurable(e.nodes[c.primary])
  {
    var lost, kept := Submit(WRITE, "", "", 0, false), Submit(WRITE, "", "", 0, true);
    steps, e := CommitAcrossGap(c, base, [lost], kept);
    CommittedIsDurableIff(c, base, steps);
  }

  /** A single server does so even in a gap-free run: it commits its second entry, and with it the first, which it could not write. */
  lemma SingleServerLosesWrite(c: Cluster, base: map<Id, Files>) returns (steps: seq<Step>)
    requires Initial(c, base) && |c.servers| == 1
    ensures RegularRun(c, steps) && !CommittedIsDurable(After(c, steps).nodes[c.primary])
  {
    var lost, kept := Submit(WRITE, "", "", 0, false), Submit(WRITE, "", "", 0, true);
    var c1 := Next(c, lost);
    var c2 := Next(c1, kept);
    assert |{c.primary}| == 1;
    OneStep(c, lost);
    OneStep(c1, kept);
    OneStep(c2, Commit);
    hide Next, RegularRun, After, Enabled, Regular;
    LeadsConcat(c, [lost], c1, [kept], c2);
    LeadsConcat(c, [lost] + [kept], c2, [Commit], Next(c2, Commit));
    steps := [lost] + [kept] + [Commit];
    RegularIsRun(c, steps);
    assert !NotFailed(steps[0]) && steps[2] == Commit;
    CommittedIsDurableIff(c, base, steps);
  }
}
