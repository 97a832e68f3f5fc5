// A run that commits after failed log writes of the primary, with no call lost, late or refused, and what follows
// from it: files that differ, and panics (server_basics.go:869-935, server_replication.go:405-456).
module GapCommits {
  import opened Basics
  import opened Words
  import opened Replica
  import opened Cluster
  import opened Availability
  import opened AllRuns

  // ---------- a commit after failed writes, with no loss and no reordering ----------

  /** A backup that has received nothing but one entry, once. */
  function HasOnly(node: State, e: LogEntry): State
  {
    node.(log := [e], disk := node.disk + Lines([e]))
  }

  /** It takes the entry although all before it are missing, and acknowledges it. */
  lemma TakesAnyEntry(node: State, e: LogEntry)
    requires node.log == [] && node.commitIndex == 0 && node.lastApplied == 0 && e.index > 0
    ensures AppendEntries(node, [e], 0) == (HasOnly(node, e), true)
  {
    AppendOne([], e);
    assert [e][0..] == [e];
  }

  /** The last entry is on its way to every backup that has nothing yet, and the primary waits for it. */
  ghost predicate OneCallOut(c: Cluster, e: LogEntry, todo: set<Id>)
  {
    && WellFormed(c) && c.phase.Collecting? && todo <= Peers(c)
    && 0 < |PrimaryLog(c)| == e.index < HALF32 && PrimaryLog(c)[e.index - 1] == e
    && forall s :: s in todo ==>
         && AppendMsg(s, e, 0) in c.net
         && c.nodes[s].log == [] && c.nodes[s].commitIndex == 0 && c.nodes[s].lastApplied == 0
  }

  lemma DeliverAndCount(c: Cluster, e: LogEntry, todo: set<Id>, s: Id) returns (steps: seq<Step>, c': Cluster)
    requires OneCallOut(c, e, todo) && s in todo
    ensures Goes(c, steps, c') && OneCallOut(c', e, todo - {s}) && Quiet(c, c', {s})
    ensures c'.nodes[s] == HasOnly(c.nodes[s], e) && c'.phase == Collecting(c.phase.acks + {s})
    ensures Commit !in steps && NoFailedWrites(steps)
  {
    var deliver, count := Deliver(AppendMsg(s, e, 0)), Count(AckMsg(s, e.index));
    TakesAnyEntry(c.nodes[s], e);
    hide AppendEntries, HasOnly;
    var m := Next(c, deliver);
    c' := Next(m, count);
    GoesOne(c, deliver);
    GoesOne(m, count);
    hide Goes;
    GoesConcat(c, [deliver], m, [count], c');
    steps := [deliver] + [count];
  }

  lemma {:induction false} DeliverAndCountAll(c: Cluster, e: LogEntry, todo: set<Id>) returns (steps: seq<Step>, c': Cluster)
    requires OneCallOut(c, e, todo)
    ensures Goes(c, steps, c') && OneCallOut(c', e, {}) && Quiet(c, c', todo)
    ensures (forall s :: s in todo ==> c'.nodes[s] == HasOnly(c.nodes[s], e)) && c'.phase == Collecting(c.phase.acks + todo)
    ensures Commit !in steps && NoFailedWrites(steps)
    decreases todo
  {
    if todo == {} {
      steps, c' := [], c;
      assert c.phase.acks + {} == c.phase.acks;
    } else {
      hide Goes, HasOnly, Next, Enabled;
      var s :| s in todo;
      var first, m := DeliverAndCount(c, e, todo, s);
      var rest;
      rest, c' := DeliverAndCountAll(m, e, todo - {s});
      GoesConcat(c, first, m, rest, c');
      QuietConcat(c, m, c', {s}, todo - {s});
      assert {s} + (todo - {s}) == todo && c.phase.acks + {s} + (todo - {s}) == c.phase.acks + todo;
      steps := first + rest;
    }
  }

  /** The entries of a list of submissions to an empty log. */
  function EntriesOf(submits: seq<Step>): (entries: seq<LogEntry>)
    requires forall i :: 0 <= i < |submits| ==> submits[i].Submit?
    ensures |entries| == |submits|
  {
    if submits == [] then []
    else
      var last := submits[|submits| - 1];
      EntriesOf(submits[..|submits| - 1]) + [LogEntry(|submits|, last.op, last.filename, last.content, last.version)]
  }

  predicate FailedSubmits(steps: seq<Step>)
  {
    forall i :: 0 <= i < |steps| ==> steps[i].Submit? && !steps[i].persisted
  }

  /** Nothing has been sent yet, and the primary has only its log in memory. */
  ghost predicate NothingSent(c: Cluster, base: map<Id, Files>, log: seq<LogEntry>)
  {
    && WellFormed(c) && base.Keys == c.servers && c.phase == Idle && c.net == {}
    && c.nodes[c.primary] == State(log, [], 0, 0, base[c.primary])
    && forall s :: s in Peers(c) ==> c.nodes[s] == State([], [], 0, 0, base[s])
  }

  lemma {:induction false} FailAll(c: Cluster, base: map<Id, Files>, lost: seq<Step>) returns (e: Cluster)
    requires Initial(c, base) && FailedSubmits(lost)
    ensures Goes(c, lost, e) && NothingSent(e, base, EntriesOf(lost)) && e.servers == c.servers && e.primary == c.primary
    decreases lost
  {
    if lost == [] {
      e := c;
    } else {
      var init, last := lost[..|lost| - 1], lost[|lost| - 1];
      var m := FailAll(c, base, init);
      e := Next(m, last);
      GoesOne(m, last);
      hide Goes;
      GoesConcat(c, init, m, [last], e);
      assert lost == init + [last];
    }
  }

  /** One submission goes out to everybody. */
  lemma SubmitToAll(c: Cluster, base: map<Id, Files>, log: seq<LogEntry>, kept: Step)
    requires NothingSent(c, base, log) && kept.Submit? && kept.persisted && |log| + 1 < HALF32
    ensures var (m, e) := (Next(c, kept), LogEntry(|log| + 1, kept.op, kept.filename, kept.content, kept.version));
            && Goes(c, [kept], m) && OneCallOut(m, e, Peers(c)) && Quiet(c, m, {c.primary})
            && m.phase == Collecting({c.primary})
            && m.nodes[c.primary] == State(log + [e], Lines([e]), 0, 0, base[c.primary])
  {
    var e := LogEntry(|log| + 1, kept.op, kept.filename, kept.content, kept.version);
    GoesOne(c, kept);
    hide Goes;
    assert OnWire(e) == e && Wrap32(0) == 0;
    forall s | s in Peers(c)
      ensures AppendMsg(s, e, 0) in Next(c, kept).net
    {
      assert AppendMsg(s, OnWire(e), Wrap32(0)) in ToPeers(c, e, 0);
    }
    assert [] + Lines([e]) == Lines([e]);
  }

  /** The primary commits what everybody has acknowledged. */
  lemma CommitAfterAll(c: Cluster, e: LogEntry, base: Files)
    requires OneCallOut(c, e, {}) && |c.phase.acks| >= Majority(c)
    requires c.nodes[c.primary] == State(c.nodes[c.primary].log, Lines([e]), 0, 0, base)
    ensures Enabled(c, Commit) && Goes(c, [Commit], Next(c, Commit)) && Quiet(c, Next(c, Commit), {c.primary})
    ensures var (log, p) := (PrimaryLog(c), Next(c, Commit).nodes[c.primary]);
            p == State(log, Lines([e]), |log|, |log|, Replay(base, log))
    ensures forall s :: s in Peers(c) ==> AppendMsg(s, e, e.index) in Next(c, Commit).net
  {
    GoesOne(c, Commit);
    hide Goes;
    var log := PrimaryLog(c);
    assert log[0..|log|] == log;
    assert OnWire(e) == e && Wrap32(|log|) == |log|;
    forall s | s in Peers(c)
      ensures AppendMsg(s, e, e.index) in Next(c, Commit).net
    {
      assert AppendMsg(s, OnWire(e), Wrap32(|log|)) in ToPeers(c, log[|log| - 1], |log|);
    }
  }

  /** What holds when some writes failed and then one entry was written, taken by every backup, and committed. */
  ghost predicate CommittedAcrossGap(c: Cluster, base: map<Id, Files>, log: seq<LogEntry>)
  {
    && WellFormed(c) && base.Keys == c.servers && log != [] && c.phase == Idle
    && var (n, e) := (|log|, log[|log| - 1]);
       && c.nodes[c.primary] == State(log, Lines([e]), n, n, Replay(base[c.primary], log))
       && forall s :: s in Peers(c) ==>
            c.nodes[s] == HasOnly(State([], [], 0, 0, base[s]), e) && AppendMsg(s, e, n) in c.net
  }

  /** The state in which everybody has acknowledged the entry, committed. */
  lemma CommitTaken(c: Cluster, base: map<Id, Files>, log: seq<LogEntry>)
    requires log != [] && OneCallOut(c, log[|log| - 1], {}) && c.phase.acks == c.servers && base.Keys == c.servers
    requires c.nodes[c.primary] == State(log, Lines([log[|log| - 1]]), 0, 0, base[c.primary])
    requires forall s :: s in Peers(c) ==> c.nodes[s] == HasOnly(State([], [], 0, 0, base[s]), log[|log| - 1])
    ensures Enabled(c, Commit) && Goes(c, [Commit], Next(c, Commit)) && CommittedAcrossGap(Next(c, Commit), base, log)
  {
    hide HasOnly, Goes;
    PeersAndPrimary(c);
    CommitAfterAll(c, log[|log| - 1], base[c.primary]);
    SamePeers(c, Next(c, Commit), {c.primary});
  }

  /** The entry reaches everybody. */
  lemma TakeEverywhere(c: Cluster, base: map<Id, Files>, log: seq<LogEntry>, kept: Step) returns (steps: seq<Step>, e: Cluster)
    requires NothingSent(c, base, log) && kept.Submit? && kept.persisted && |log| + 1 < HALF32
    ensures var entry := LogEntry(|log| + 1, kept.op, kept.filename, kept.content, kept.version);
            && Goes(c, steps, e) && OneCallOut(e, entry, {}) && e.phase == Collecting(c.servers)
            && e.servers == c.servers && e.primary == c.primary
            && e.nodes[c.primary] == State(log + [entry], Lines([entry]), 0, 0, base[c.primary])
            && forall s :: s in Peers(c) ==> e.nodes[s] == HasOnly(State([], [], 0, 0, base[s]), entry)
  {
    SubmitToAll(c, base, log, kept);
    var m := Next(c, kept);
    SamePeers(c, m, {c.primary});
    hide Goes, HasOnly, Next;
    var entry := LogEntry(|log| + 1, kept.op, kept.filename, kept.content, kept.version);
    steps, e := DeliverAndCountAll(m, entry, Peers(c));
    GoesConcat(c, [kept], m, steps, e);
    assert {c.primary} + Peers(c) == c.servers;
    steps := [kept] + steps;
  }

  /** Such a run needs no loss, no reordering and no panic: every backup takes the call it gets. */
  lemma CommitAcrossGap(c: Cluster, base: map<Id, Files>, lost: seq<Step>, kept: Step) returns (steps: seq<Step>, e: Cluster)
    requires Initial(c, base) && FailedSubmits(lost) && kept.Submit? && kept.persisted && |lost| + 1 < HALF32
    ensures Goes(c, steps, e) && CommittedAcrossGap(e, base, EntriesOf(lost + [kept]))
    ensures e.servers == c.servers && e.primary == c.primary
    ensures lost != [] ==> CommitAfterFailure(steps)
  {
    assert (lost + [kept])[..|lost|] == lost;
    var c1 := FailAll(c, base, lost);
    var middle, c2 := TakeEverywhere(c1, base, EntriesOf(lost), kept);
    hide Initial, Goes, Next, HasOnly, NothingSent, CommittedAcrossGap;
    CommitTaken(c2, base, EntriesOf(lost + [kept]));
    e := Next(c2, Commit);
    GoesConcat(c, lost, c1, middle, c2);
    GoesConcat(c, lost + middle, c2, [Commit], e);
    steps := lost + middle + [Commit];
    if lost != [] {
      assert !NotFailed(steps[0]) && steps[|steps| - 1] == Commit;
    }
  }

  // ---------- files that differ ----------

  /** The commit arrives at a backup that has only the second entry: it appends the entry again, and applies it twice. */
  lemma SecondEntryTwice(node: State, e: LogEntry)
    requires node.log == [e] && node.commitIndex == 0 && node.lastApplied == 0 && e.index == 2 && e.op == WRITE
    ensures AppendEntries(node, [e], 2) ==
      (State([e, e], node.disk + Lines([e]), 2, 2, node.files[e.filename := e.content]), true)
  {
    AppendOne([e], e);
    assert [e] + [e] == [e, e] && [e, e][1..] == [e] && [e, e][0..2] == [e, e];
    ReplayTwo(node.files, e, e);
    assert node.files[e.filename := e.content][e.filename := e.content] == node.files[e.filename := e.content];
  }

  /**
   * With two servers or more: the write of an entry for f fails, the next entry, for g, is committed, and a backup
   * that has applied as far as the primary does not have f. No call was lost, late, or refused.
   */
  lemma FilesDiverge(c: Cluster, base: map<Id, Files>, s: Id, f: string, g: string, x: string, y: string)
    returns (steps: seq<Step>, e: Cluster)
    requires Initial(c, base) && s in Peers(c) && f != g && f !in base[s]
    ensures Goes(c, steps, e) && CommitAfterFailure(steps) && s in e.nodes && c.primary in e.nodes
    ensures e.nodes[s].lastApplied == e.nodes[c.primary].lastApplied == 2
    ensures f in e.nodes[c.primary].files && f !in e.nodes[s].files
  {
    var lost, kept := Submit(WRITE, f, x, 0, false), Submit(WRITE, g, y, 0, true);
    var first, m := CommitAcrossGap(c, base, [lost], kept);
    TwoEntries(lost, kept);
    var e1, e2 := LogEntry(1, WRITE, f, x, 0), LogEntry(2, WRITE, g, y, 0);
    hide Goes, EntriesOf, Initial;
    var node := m.nodes[s];
    assert node == HasOnly(State([], [], 0, 0, base[s]), e2);
    var deliver := Deliver(AppendMsg(s, e2, 2));
    SecondEntryTwice(node, e2);
    ReplayTwo(base[c.primary], e1, e2);
    hide AppendEntries, Replay;
    e := Next(m, deliver);
    GoesOne(m, deliver);
    GoesConcat(c, first, m, [deliver], e);
    steps := first + [deliver];
    CommitStaysAfter(first, deliver);
  }

  lemma TwoEntries(a: Step, b: Step)
    requires a.Submit? && b.Submit?
    ensures EntriesOf([a] + [b]) ==
      [LogEntry(1, a.op, a.filename, a.content, a.version), LogEntry(2, b.op, b.filename, b.content, b.version)]
  {
    assert ([a] + [b])[..1] == [a] && [a][..0] == [];
  }

  lemma ReplayTwo(files: Files, a: LogEntry, b: LogEntry)
    requires a.op == WRITE && b.op == WRITE
    ensures Replay(files, [a, b]) == files[a.filename := a.content][b.filename := b.content]
  {
    assert [a, b][..1] == [a] && [a][..0] == [];
    assert Replay(files, [a]) == Apply(files, a);
  }

  lemma CommitStaysAfter(steps: seq<Step>, step: Step)
    requires CommitAfterFailure(steps)
    ensures CommitAfterFailure(steps + [step])
  {
    var i, j :| 0 <= i < j < |steps| && !NotFailed(steps[i]) && steps[j] == Commit;
    assert (steps + [step])[i] == steps[i] && (steps + [step])[j] == steps[j];
  }

  // ---------- panics ----------

  /** After some run without panics, a call can arrive that makes a backup panic. */
  ghost predicate PanicReachable(c: Cluster)
    requires WellFormed(c)
  {
    exists steps, m :: Run(c, steps) && Calm(c, steps) && Enabled(End(c, steps), Deliver(m)) && Panics(End(c, steps), m)
  }

  /** The commit of the third entry arrives at a backup that has only that entry. */
  lemma ThirdEntryPanics(node: State, e: LogEntry)
    requires node.log == [e] && node.commitIndex == 0 && node.lastApplied == 0 && e.index == 3
    ensures !AppendEntries(node, [e], 3).1
  {
    AppendOne([e], e);
    PanicsIffCommitPastLog(node, [e], 3);
  }

  lemma PanicAcrossGap(c: Cluster, base: map<Id, Files>, s: Id) returns (steps: seq<Step>, m: Message)
    requires Initial(c, base) && s in Peers(c)
    ensures Run(c, steps) && Calm(c, steps) && Enabled(End(c, steps), Deliver(m)) && Panics(End(c, steps), m)
  {
    var lost, kept := Submit(WRITE, "", "", 0, false), Submit(WRITE, "", "", 0, true);
    var e;
    steps, e := CommitAcrossGap(c, base, [lost, lost], kept);
    var entry := EntriesOf([lost, lost] + [kept])[2];
    assert entry.index == 3;
    assert e.nodes[s] == HasOnly(State([], [], 0, 0, base[s]), entry);
    m := AppendMsg(s, entry, 3);
    ThirdEntryPanics(e.nodes[s], entry);
  }

  /** A backup can be made to panic exactly when there is a backup. */
  lemma PanicReachableIff(c: Cluster, base: map<Id, Files>)
    requires Initial(c, base)
    ensures PanicReachable(c) <==> |c.servers| >= 2
  {
    PeersAndPrimary(c);
    if |c.servers| >= 2 {
      var s :| s in Peers(c);
      var steps, m := PanicAcrossGap(c, base, s);
    }
    if PanicReachable(c) {
      var steps, m :| Run(c, steps) && Calm(c, steps) && Enabled(End(c, steps), Deliver(m)) && Panics(End(c, steps), m);
      DeliveryNeedsBackup(End(c, steps), m);
    }
  }
}
