// Runs of the cluster without the no-gap hypothesis: any enabled step may be taken (server_replication.go:405-456,
// server_basics.go:869-935), and what a commit after a failed log write of the primary does to the backups.
module AllRuns {
  import opened Basics
  import opened Words
  import opened Replica
  import opened Cluster
  import opened Availability

  predicate Run(c: Cluster, steps: seq<Step>)
    requires WellFormed(c)
    decreases steps
  {
    steps == [] || (Enabled(c, steps[0]) && Run(Next(c, steps[0]), steps[1..]))
  }

  function End(c: Cluster, steps: seq<Step>): (e: Cluster)
    requires WellFormed(c) && Run(c, steps)
    ensures WellFormed(e) && e.servers == c.servers && e.primary == c.primary
    decreases steps
  {
    if steps == [] then c else End(Next(c, steps[0]), steps[1..])
  }

  /** A regular run is a run. */
  lemma {:induction false} RegularIsRun(c: Cluster, steps: seq<Step>)
    requires WellFormed(c) && RegularRun(c, steps)
    ensures Run(c, steps) && End(c, steps) == After(c, steps)
    decreases steps
  {
    if steps != [] {
      RegularIsRun(Next(c, steps[0]), steps[1..]);
    }
  }

  lemma {:induction false} RunSplit(c: Cluster, a: seq<Step>, b: seq<Step>)
    requires WellFormed(c) && Run(c, a + b)
    ensures Run(c, a) && Run(End(c, a), b) && End(c, a + b) == End(End(c, a), b)
    decreases a
  {
    if a == [] {
      assert a + b == b;
    } else {
      hide Next, Enabled;
      assert (a + b)[1..] == a[1..] + b;
      RunSplit(Next(c, a[0]), a[1..], b);
    }
  }

  /** Some write of the log file fails, and later something is committed. */
  ghost predicate CommitAfterFailure(steps: seq<Step>)
  {
    exists i, j :: 0 <= i < j < |steps| && !NotFailed(steps[i]) && steps[j] == Commit
  }

  // ---------- the primary ----------

  ghost predicate PrimaryOk(p: State)
  {
    InOrder(p) && Indexed(p.log)
  }

  /** What a step appends to the primary's log. */
  function NewEntries(p: State, step: Step): seq<LogEntry>
  {
    match step
    case Submit(op, filename, content, version, _) => [LogEntry(|p.log| + 1, op, filename, content, version)]
    case _ => []
  }

  /** Only the primary's own steps change it. */
  lemma PrimaryStep(c: Cluster, step: Step)
    requires WellFormed(c) && Enabled(c, step) && PrimaryOk(c.nodes[c.primary])
    ensures var (p, p') := (c.nodes[c.primary], Next(c, step).nodes[c.primary]);
            && PrimaryOk(p')
            && p'.log == p.log + NewEntries(p, step)
            && p'.disk == p.disk + (if NotFailed(step) then Lines(NewEntries(p, step)) else [])
            && p'.commitIndex == (if step.Commit? then |p.log| else p.commitIndex)
  {
    hide ToPeers, AppendEntries;
    assert Lines([]) == [];
  }

  // ---------- a failed write and the backups ----------

  /** The backups whose log is not the sequence of entries 1, 2, 3, ... */
  ghost function Broken(c: Cluster): set<Id>
  {
    set s | s in Peers(c) && s in c.nodes && !Indexed(c.nodes[s].log)
  }

  /** Nothing in the system has an index beyond the primary's log. */
  ghost predicate NetBounded(c: Cluster)
    requires WellFormed(c)
  {
    forall m :: m in c.net ==>
      match m
      case AppendMsg(_, e, _) => 1 <= e.index <= |PrimaryLog(c)|
      case AckMsg(_, index) => index <= |PrimaryLog(c)|
  }

  ghost predicate LogBounded(c: Cluster, s: Id)
    requires WellFormed(c) && s in c.servers
  {
    forall i :: 0 <= i < |c.nodes[s].log| ==> c.nodes[s].log[i].index <= |PrimaryLog(c)|
  }

  ghost predicate Bounded(c: Cluster)
    requires WellFormed(c)
  {
    && PrimaryOk(c.nodes[c.primary]) && |PrimaryLog(c)| < HALF32
    && NetBounded(c) && forall s :: s in Peers(c) ==> LogBounded(c, s)
  }

  lemma InitialBounded(c: Cluster, base: map<Id, Files>)
    requires Initial(c, base)
    ensures WellFormed(c) && Bounded(c)
  {}

  lemma DeliverToPeer(c: Cluster, m: Message)
    requires WellFormed(c) && Enabled(c, Deliver(m))
    ensures var (c', log) := (Next(c, Deliver(m)), c.nodes[m.to].log);
            && c'.nodes[m.to].log == (if m.entry.index <= |log| then log else log + [m.entry])
            && c'.nodes[c.primary] == c.nodes[c.primary] && c'.phase == c.phase
            && (forall s :: s in c.servers && s != m.to ==> c'.nodes[s] == c.nodes[s])
            && c.net <= c'.net <= c.net + {AckMsg(m.to, m.entry.index)}
  {
    AppendOne(c.nodes[m.to].log, m.entry);
    hide AppendAll;
  }

  lemma SentIndex(c: Cluster, step: Step)
    requires WellFormed(c) && Enabled(c, step) && PrimaryOk(c.nodes[c.primary]) && |PrimaryLog(Next(c, step))| < HALF32
    requires !step.Deliver?
    ensures forall m :: m in Next(c, step).net && m !in c.net ==>
      m.AppendMsg? && m.entry.index == |PrimaryLog(Next(c, step))| > 0 && (step.Commit? || (step.Submit? && step.persisted))
  {
    PrimaryStep(c, step);
    hide ApplyCommitted;
  }

  lemma OthersKeepPeers(c: Cluster, step: Step)
    requires WellFormed(c) && Enabled(c, step) && !step.Deliver?
    ensures forall s :: s in Peers(c) ==> Next(c, step).nodes[s] == c.nodes[s]
    ensures c.net <= Next(c, step).net
  {
    hide ToPeers, CommitLocal, AppendLocal;
  }

  lemma StepKeepsBounded(c: Cluster, step: Step)
    requires WellFormed(c) && Enabled(c, step) && Bounded(c) && |PrimaryLog(Next(c, step))| < HALF32
    ensures Bounded(Next(c, step))
  {
    var c' := Next(c, step);
    PrimaryStep(c, step);
    if step.Deliver? {
      DeliverToPeer(c, step.m);
    } else {
      OthersKeepPeers(c, step);
      SentIndex(c, step);
    }
    hide Next, Enabled;
    forall s | s in Peers(c')
      ensures LogBounded(c', s)
    {
      assert LogBounded(c, s);
    }
  }

  /** A backup without the entry k + 1, which was never sent, has at most k entries or is broken. */
  ghost predicate Lacks(c: Cluster, k: nat, s: Id)
    requires WellFormed(c) && s in c.servers
  {
    Indexed(c.nodes[s].log) ==> |c.nodes[s].log| <= k
  }

  ghost predicate NetLacks(c: Cluster, k: nat)
  {
    forall m :: m in c.net ==>
      match m
      case AppendMsg(_, e, _) => e.index != k + 1
      case AckMsg(from, index) => from in Peers(c) && index > k ==> from in Broken(c)
  }

  /** After the write of entry k + 1 failed: whoever acknowledges a later entry is broken, and so is a quorum after a commit. */
  ghost predicate Missing(c: Cluster, k: nat)
    requires WellFormed(c)
  {
    && |PrimaryLog(c)| > k && NetLacks(c, k)
    && (forall s :: s in Peers(c) ==> Lacks(c, k, s))
    && (c.phase.Collecting? ==>
          |PrimaryLog(c)| > k + 1 && c.phase.acks <= c.servers && c.phase.acks - {c.primary} <= Broken(c))
    && (c.nodes[c.primary].commitIndex > k ==> |Broken(c)| + 1 >= Majority(c))
  }

  lemma BrokenStays(c: Cluster, step: Step)
    requires WellFormed(c) && Enabled(c, step)
    ensures Broken(c) <= Broken(Next(c, step)) && |Broken(c)| <= |Broken(Next(c, step))|
  {
    if step.Deliver? {
      DeliverToPeer(c, step.m);
    } else {
      OthersKeepPeers(c, step);
    }
    var c' := Next(c, step);
    hide Next, Enabled;
    forall s | s in Broken(c)
      ensures s in Broken(c')
    {
      assert c.nodes[s].log <= c'.nodes[s].log;
    }
    SubsetSize(Broken(c), Broken(c'));
  }

  /** The entry after a missing one breaks the log that takes it. */
  lemma EntryBreaks(log: seq<LogEntry>, e: LogEntry, k: nat)
    requires Indexed(log) ==> |log| <= k
    requires e.index != k + 1
    ensures var log' := if e.index <= |log| then log else log + [e];
            && (Indexed(log') ==> |log'| <= k)
            && (e.index > k ==> !Indexed(log'))
  {
    var log' := if e.index <= |log| then log else log + [e];
    if Indexed(log') {
      assert Indexed(log) by {
        assert forall i :: 0 <= i < |log| ==> log'[i] == log[i];
      }
      if log' != log {
        assert log'[|log|] == e;
      }
    }
  }

  lemma DeliverBreaks(c: Cluster, k: nat, m: Message)
    requires WellFormed(c) && Enabled(c, Deliver(m)) && Lacks(c, k, m.to) && m.entry.index != k + 1
    ensures Lacks(Next(c, Deliver(m)), k, m.to)
    ensures m.entry.index > k ==> m.to in Broken(Next(c, Deliver(m)))
  {
    DeliverToPeer(c, m);
    EntryBreaks(c.nodes[m.to].log, m.entry, k);
    hide Indexed, Next;
  }

  lemma DeliverKeepsMissing(c: Cluster, k: nat, m: Message)
    requires WellFormed(c) && Enabled(c, Deliver(m)) && Missing(c, k)
    ensures Missing(Next(c, Deliver(m)), k)
  {
    var c' := Next(c, Deliver(m));
    assert Lacks(c, k, m.to);
    DeliverBreaks(c, k, m);
    DeliverToPeer(c, m);
    BrokenStays(c, Deliver(m));
    assert Peers(c') == Peers(c) && Majority(c') == Majority(c);
    hide Next, Enabled, Indexed, Broken;
    forall s | s in Peers(c')
      ensures Lacks(c', k, s)
    {
      assert Lacks(c, k, s);
    }
  }

  lemma CountKeepsMissing(c: Cluster, k: nat, m: Message)
    requires WellFormed(c) && Enabled(c, Count(m)) && Missing(c, k) && |PrimaryLog(c)| < HALF32
    ensures Missing(Next(c, Count(m)), k)
  {
    assert Peers(Next(c, Count(m))) == Peers(c) && Broken(Next(c, Count(m))) == Broken(c);
    assert m.from == c.primary || m.from in Broken(c);
  }

  lemma CommitKeepsMissing(c: Cluster, k: nat)
    requires WellFormed(c) && Enabled(c, Commit) && Missing(c, k) && PrimaryOk(c.nodes[c.primary]) && |PrimaryLog(c)| < HALF32
    ensures Missing(Next(c, Commit), k)
  {
    var c' := Next(c, Commit);
    PrimaryStep(c, Commit);
    OthersKeepPeers(c, Commit);
    SentIndex(c, Commit);
    BrokenStays(c, Commit);
    AckersAreBroken(c);
    hide Next, Indexed, PrimaryOk;
    forall s | s in Peers(c')
      ensures Lacks(c', k, s)
    {
      assert Lacks(c, k, s);
    }
  }

  lemma AckersAreBroken(c: Cluster)
    requires WellFormed(c) && c.phase.Collecting? && |c.phase.acks| >= Majority(c) && c.phase.acks - {c.primary} <= Broken(c)
    ensures |Broken(c)| + 1 >= Majority(c)
  {
    SubsetSize(c.phase.acks - {c.primary}, Broken(c));
    SubsetSize(c.phase.acks, (c.phase.acks - {c.primary}) + {c.primary});
  }

  lemma SubmitKeepsMissing(c: Cluster, k: nat, step: Step)
    requires WellFormed(c) && Enabled(c, step) && step.Submit? && Missing(c, k)
    requires PrimaryOk(c.nodes[c.primary]) && |PrimaryLog(Next(c, step))| < HALF32
    ensures Missing(Next(c, step), k)
  {
    var c' := Next(c, step);
    PrimaryStep(c, step);
    OthersKeepPeers(c, step);
    SentIndex(c, step);
    BrokenStays(c, step);
    assert c'.phase.Collecting? ==> c'.phase.acks == {c.primary};
    hide Next, Indexed, PrimaryOk, Enabled;
    forall s | s in Peers(c')
      ensures Lacks(c', k, s)
    {
      assert Lacks(c, k, s);
    }
  }

  lemma StepKeepsMissing(c: Cluster, k: nat, step: Step)
    requires WellFormed(c) && Enabled(c, step) && Missing(c, k) && Bounded(c) && |PrimaryLog(Next(c, step))| < HALF32
    ensures Missing(Next(c, step), k)
  {
    hide Missing;
    match step
    case Submit(_, _, _, _, _) => SubmitKeepsMissing(c, k, step);
    case Deliver(m) => DeliverKeepsMissing(c, k, m);
    case Count(m) => CountKeepsMissing(c, k, m);
    case Commit => CommitKeepsMissing(c, k);
    case GiveUp => GiveUpKeepsMissing(c, k);
  }

  lemma GiveUpKeepsMissing(c: Cluster, k: nat)
    requires WellFormed(c) && Enabled(c, GiveUp) && Missing(c, k)
    ensures Missing(Next(c, GiveUp), k)
  {
    assert Peers(Next(c, GiveUp)) == Peers(c) && Broken(Next(c, GiveUp)) == Broken(c);
    assert forall s :: s in Peers(c) ==> Lacks(c, k, s) ==> Lacks(Next(c, GiveUp), k, s);
  }

  /** The write of an entry fails: no call carries it, and nothing reaches as far. */
  lemma FailureStartsMissing(c: Cluster, failed: Step)
    requires WellFormed(c) && Enabled(c, failed) && failed.Submit? && !failed.persisted && Bounded(c)
    ensures Missing(Next(c, failed), |PrimaryLog(c)|)
  {
    var c' := Next(c, failed);
    PrimaryStep(c, failed);
    OthersKeepPeers(c, failed);
    assert c'.net == c.net && c'.phase == Idle;
    hide Next;
    forall s | s in Peers(c')
      ensures Lacks(c', |PrimaryLog(c)|, s)
    {
      assert LogBounded(c, s);
      var log := c.nodes[s].log;
      if Indexed(log) && log != [] {
        assert log[|log| - 1].index == |log|;
      }
    }
  }

  lemma {:induction false} LogGrows(c: Cluster, steps: seq<Step>)
    requires WellFormed(c) && Run(c, steps) && PrimaryOk(c.nodes[c.primary])
    ensures PrimaryOk(End(c, steps).nodes[c.primary]) && PrimaryLog(c) <= PrimaryLog(End(c, steps))
    decreases steps
  {
    if steps != [] {
      hide Next, Enabled, PrimaryOk;
      PrimaryStep(c, steps[0]);
      LogGrows(Next(c, steps[0]), steps[1..]);
    }
  }

  lemma {:induction false} RunKeepsBounded(c: Cluster, steps: seq<Step>)
    requires WellFormed(c) && Run(c, steps) && Bounded(c) && |PrimaryLog(End(c, steps))| < HALF32
    ensures Bounded(End(c, steps))
    decreases steps
  {
    if steps != [] {
      PrimaryStep(c, steps[0]);
      hide Next, Enabled, NetBounded, LogBounded, PrimaryOk;
      LogGrows(Next(c, steps[0]), steps[1..]);
      StepKeepsBounded(c, steps[0]);
      RunKeepsBounded(Next(c, steps[0]), steps[1..]);
    }
  }

  lemma {:induction false} RunKeepsMissing(c: Cluster, k: nat, steps: seq<Step>)
    requires WellFormed(c) && Run(c, steps) && Bounded(c) && Missing(c, k) && |PrimaryLog(End(c, steps))| < HALF32
    ensures Missing(End(c, steps), k)
    decreases steps
  {
    if steps != [] {
      PrimaryStep(c, steps[0]);
      hide Next, Enabled, NetBounded, LogBounded, PrimaryOk, Missing;
      LogGrows(Next(c, steps[0]), steps[1..]);
      StepKeepsBounded(c, steps[0]);
      StepKeepsMissing(c, k, steps[0]);
      RunKeepsMissing(Next(c, steps[0]), k, steps[1..]);
    }
  }

  lemma {:induction false} RunKeepsBroken(c: Cluster, steps: seq<Step>)
    requires WellFormed(c) && Run(c, steps)
    ensures Broken(c) <= Broken(End(c, steps))
    decreases steps
  {
    if steps != [] {
      hide Next, Enabled, Broken;
      BrokenStays(c, steps[0]);
      RunKeepsBroken(Next(c, steps[0]), steps[1..]);
    }
  }

  /** The commit index passes an index that the log has passed exactly when something is committed from then on. */
  lemma {:induction false} CommitPasses(c: Cluster, k: nat, steps: seq<Step>)
    requires WellFormed(c) && Run(c, steps) && PrimaryOk(c.nodes[c.primary]) && |PrimaryLog(c)| > k
    ensures End(c, steps).nodes[c.primary].commitIndex > k <==> c.nodes[c.primary].commitIndex > k || Commit in steps
    decreases steps
  {
    if steps != [] {
      hide Next, Enabled, PrimaryOk;
      PrimaryStep(c, steps[0]);
      CommitPasses(Next(c, steps[0]), k, steps[1..]);
      assert steps == [steps[0]] + steps[1..];
    }
  }

  /** A broken log is not a prefix of the primary's. */
  lemma BrokenIsNoPrefix(c: Cluster, s: Id)
    requires WellFormed(c) && PrimaryOk(c.nodes[c.primary]) && s in Broken(c)
    ensures !(c.nodes[s].log <= PrimaryLog(c))
  {}

  /**
   * In every run, with or without gaps: once something is committed after a failed log write, so many backups are broken that
   * with the primary they make a majority. (A log of 2^31 entries or more is beyond the int32 index.)
   */
  lemma CommitAfterFailureBreaksBackups(c: Cluster, base: map<Id, Files>, steps: seq<Step>)
    requires Initial(c, base) && Run(c, steps) && CommitAfterFailure(steps) && |PrimaryLog(End(c, steps))| < HALF32
    ensures |Broken(End(c, steps))| + 1 >= Majority(c)
    ensures forall s :: s in Broken(End(c, steps)) ==>
      s in End(c, steps).nodes && !(End(c, steps).nodes[s].log <= PrimaryLog(End(c, steps)))
  {
    hide Run, End, Next, Enabled, Bounded, Broken, NotFailed;
    var i, j :| 0 <= i < j < |steps| && !NotFailed(steps[i]) && steps[j] == Commit;
    InitialBounded(c, base);
    assert steps == steps[..i] + ([steps[i]] + steps[i + 1..]);
    assert steps[i + 1..][j - i - 1] == Commit;
    FailureBreaksBackups(c, steps[..i], steps[i], steps[i + 1..]);
  }

  lemma FailureBreaksBackups(c: Cluster, before: seq<Step>, failed: Step, after: seq<Step>)
    requires WellFormed(c) && Bounded(c) && Run(c, before + ([failed] + after))
    requires !NotFailed(failed) && Commit in after && |PrimaryLog(End(c, before + ([failed] + after)))| < HALF32
    ensures var e := End(c, before + ([failed] + after));
            && |Broken(e)| + 1 >= Majority(c)
            && forall s :: s in Broken(e) ==> s in e.nodes && !(e.nodes[s].log <= PrimaryLog(e))
  {
    RunSplit(c, before, [failed] + after);
    var m := End(c, before);
    assert ([failed] + after)[0] == failed && ([failed] + after)[1..] == after;
    var f := Next(m, failed);
    var e := End(f, after);
    LogGrows(c, before);
    PrimaryStep(m, failed);
    LogGrows(f, after);
    RunKeepsBounded(c, before);
    FailureStartsMissing(m, failed);
    StepKeepsBounded(m, failed);
    hide Next, Enabled, Run, End, Bounded, PrimaryOk;
    CommitPasses(f, |PrimaryLog(m)|, after);
    RunKeepsMissing(f, |PrimaryLog(m)|, after);
    forall s | s in Broken(e)
      ensures s in e.nodes && !(e.nodes[s].log <= PrimaryLog(e))
    {
      BrokenIsNoPrefix(e, s);
    }
  }

  // ---------- runs in which nobody panics ----------

  /** The step is a delivery at which the backup panics. */
  predicate PanicsAt(c: Cluster, step: Step)
    requires WellFormed(c) && Enabled(c, step)
  {
    step.Deliver? && Panics(c, step.m)
  }

  predicate Calm(c: Cluster, steps: seq<Step>)
    requires WellFormed(c) && Run(c, steps)
    decreases steps
  {
    steps == [] || (!PanicsAt(c, steps[0]) && Calm(Next(c, steps[0]), steps[1..]))
  }

  /** A regular run is such a run. */
  lemma {:induction false} RegularIsCalm(c: Cluster, base: map<Id, Files>, steps: seq<Step>)
    requires Inv(c, base) && RegularRun(c, steps)
    ensures Run(c, steps) && Calm(c, steps) && End(c, steps) == After(c, steps)
    decreases steps
  {
    if steps != [] {
      StepKeepsInv(c, base, steps[0]);
      if steps[0].Deliver? {
        DeliverAdvances(c, base, steps[0].m);
      }
      hide Inv, Next, Enabled, Regular;
      RegularIsCalm(Next(c, steps[0]), base, steps[1..]);
    }
  }

  /** A run without panics that leads from one cluster state to another. */
  ghost predicate Goes(c: Cluster, steps: seq<Step>, e: Cluster)
  {
    WellFormed(c) && Run(c, steps) && Calm(c, steps) && End(c, steps) == e
  }

  lemma GoesOne(c: Cluster, step: Step)
    requires WellFormed(c) && Enabled(c, step) && !PanicsAt(c, step)
    ensures Goes(c, [step], Next(c, step))
  {
    assert [step][1..] == [];
  }

  lemma {:induction false} GoesConcat(c: Cluster, a: seq<Step>, m: Cluster, b: seq<Step>, e: Cluster)
    requires Goes(c, a, m) && Goes(m, b, e)
    ensures Goes(c, a + b, e)
    decreases a
  {
    if a == [] {
      assert a + b == b;
    } else {
      hide Next, Enabled, PanicsAt;
      GoesConcat(Next(c, a[0]), a[1..], m, b, e);
      assert (a + b)[0] == a[0] && (a + b)[1..] == a[1..] + b;
    }
  }
}
