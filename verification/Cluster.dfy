// The replicated log of a whole cluster under one primary (server_replication.go:405-495, server_basics.go:869-935):
// a step system whose messages may be delayed, duplicated, reordered and lost.
module Cluster {
  import opened Basics
  import opened Words
  import opened Replica
  import S = Server

  type Id = string

  /** An AppendEntries call on its way to a backup, and a successful reply on its way to the Close that made the call. */
  datatype Message = AppendMsg(to: Id, entry: LogEntry, commit: int) | AckMsg(from: Id, index: int)

  /** A primary runs one Close at a time: it waits for acknowledgements of its last entry, or does nothing. */
  datatype Phase = Idle | Collecting(acks: set<Id>)

  datatype Cluster = Cluster(servers: set<Id>, primary: Id, nodes: map<Id, State>, net: set<Message>, phase: Phase)

  datatype Step =
    | Submit(op: string, filename: string, content: string, version: int, persisted: bool)
    | Deliver(m: Message)
    | Count(m: Message)
    | Commit
    | GiveUp

  function Majority(c: Cluster): nat
  {
    |c.servers| / 2 + 1
  }

  predicate WellFormed(c: Cluster)
  {
    c.primary in c.servers && c.nodes.Keys == c.servers
  }

  function PrimaryLog(c: Cluster): seq<LogEntry>
    requires WellFormed(c)
  {
    c.nodes[c.primary].log
  }

  /** A message stays in net, so that it can be delivered again, later, out of order, or never. */
  predicate Enabled(c: Cluster, step: Step)
    requires WellFormed(c)
  {
    match step
    case Submit(_, _, _, _, _) => c.phase == Idle
    case Deliver(m) => m in c.net && m.AppendMsg? && m.to in c.servers && m.to != c.primary
    case Count(m) => m in c.net && m.AckMsg? && c.phase.Collecting? && m.from in c.servers && m.index == Wrap32(|PrimaryLog(c)|)
    case Commit => c.phase.Collecting? && |c.phase.acks| >= Majority(c) && |PrimaryLog(c)| > 0
    case GiveUp => c.phase.Collecting? && |c.phase.acks| < Majority(c)
  }

  /** One call to every other server. */
  function ToPeers(c: Cluster, e: LogEntry, commit: int): set<Message>
  {
    set s | s in c.servers && s != c.primary :: AppendMsg(s, OnWire(e), Wrap32(commit))
  }

  function Next(c: Cluster, step: Step): Cluster
    requires WellFormed(c) && Enabled(c, step)
    ensures WellFormed(Next(c, step))
  {
    var p := c.nodes[c.primary];
    match step
    case Submit(op, filename, content, version, persisted) =>
      var e := LogEntry(|p.log| + 1, op, filename, content, version);
      var nodes := c.nodes[c.primary := AppendLocal(p, e, persisted)];
      if persisted then c.(nodes := nodes, net := c.net + ToPeers(c, e, p.commitIndex), phase := Collecting({c.primary}))
      else c.(nodes := nodes)
    case Deliver(m) =>
      var (node, ok) := AppendEntries(c.nodes[m.to], [m.entry], m.commit);
      c.(nodes := c.nodes[m.to := node], net := if ok then c.net + {AckMsg(m.to, m.entry.index)} else c.net)
    case Count(m) =>
      c.(phase := Collecting(c.phase.acks + {m.from}))
    case Commit =>
      c.(nodes := c.nodes[c.primary := CommitLocal(p, |p.log|).0],
         net := c.net + ToPeers(c, p.log[|p.log| - 1], |p.log|), phase := Idle)
    case GiveUp =>
      c.(phase := Idle)
  }

  /**
   * The two hypotheses on runs beside "one Close at a time": no backup is delivered an entry more than one past the end of
   * its log (AppendEntries does not check), and the log stays short enough for an int32 index (the wire truncates).
   */
  predicate Regular(c: Cluster, step: Step)
    requires WellFormed(c) && Enabled(c, step)
  {
    match step
    case Submit(_, _, _, _, _) => |PrimaryLog(c)| + 1 < HALF32
    case Deliver(m) => m.entry.index <= |c.nodes[m.to].log| + 1
    case _ => true
  }

  predicate RegularRun(c: Cluster, steps: seq<Step>)
    requires WellFormed(c)
    decreases steps
  {
    steps == [] || (Enabled(c, steps[0]) && Regular(c, steps[0]) && RegularRun(Next(c, steps[0]), steps[1..]))
  }

  function After(c: Cluster, steps: seq<Step>): (e: Cluster)
    requires WellFormed(c) && RegularRun(c, steps)
    ensures WellFormed(e) && e.servers == c.servers && e.primary == c.primary
    decreases steps
  {
    if steps == [] then c else After(Next(c, steps[0]), steps[1..])
  }

  /** Empty logs, and any files to start from. */
  predicate Initial(c: Cluster, base: map<Id, Files>)
  {
    && WellFormed(c) && c.net == {} && c.phase == Idle && base.Keys == c.servers
    && forall s :: s in c.servers ==> c.nodes[s] == State([], [], 0, 0, base[s])
  }

  // ---------- the invariant ----------

  /** The files are the start files with the applied part of the log replayed in order. */
  ghost predicate Replayed(node: State, base: Files)
  {
    InOrder(node) && node.files == Replay(base, node.log[..node.lastApplied])
  }

  ghost predicate NodeOk(c: Cluster, base: Files, s: Id)
    requires WellFormed(c) && s in c.servers
  {
    var node := c.nodes[s];
    && node.log <= PrimaryLog(c)
    && Replayed(node, base)
    && node.commitIndex <= c.nodes[c.primary].commitIndex
    && (s != c.primary ==> node.disk == Lines(node.log))
  }

  ghost predicate MessageOk(c: Cluster, m: Message)
    requires WellFormed(c)
  {
    match m
    case AppendMsg(_, e, commit) =>
      && 1 <= e.index <= |PrimaryLog(c)| && e == PrimaryLog(c)[e.index - 1]
      && commit <= e.index && commit <= c.nodes[c.primary].commitIndex
    case AckMsg(from, index) =>
      from in c.servers ==> index <= |c.nodes[from].log|
  }

  /** The servers whose logs reach an index. */
  function Reaching(c: Cluster, index: nat): set<Id>
    requires WellFormed(c)
  {
    set s | s in c.servers && |c.nodes[s].log| >= index
  }

  ghost predicate NodesOk(c: Cluster, base: map<Id, Files>)
    requires WellFormed(c) && base.Keys == c.servers
  {
    forall s :: s in c.servers ==> NodeOk(c, base[s], s)
  }

  ghost predicate NetOk(c: Cluster)
    requires WellFormed(c)
  {
    forall m :: m in c.net ==> MessageOk(c, m)
  }

  /** Whoever was counted holds the entry, and so does a majority for everything committed. */
  ghost predicate QuorumsOk(c: Cluster)
    requires WellFormed(c)
  {
    && (c.phase.Collecting? ==> c.phase.acks <= Reaching(c, |PrimaryLog(c)|))
    && (c.nodes[c.primary].commitIndex > 0 ==> |Reaching(c, c.nodes[c.primary].commitIndex)| >= Majority(c))
  }

  ghost predicate Inv(c: Cluster, base: map<Id, Files>)
  {
    && WellFormed(c) && base.Keys == c.servers
    && Indexed(PrimaryLog(c)) && |PrimaryLog(c)| < HALF32
    && NodesOk(c, base) && NetOk(c) && QuorumsOk(c)
  }

  // ---------- one server ----------

  /** Applying never runs past the log, and applies exactly up to the commit index. */
  lemma ApplyKeepsReplayed(s: State, base: Files)
    requires InOrder(s) && s.files == Replay(base, s.log[..s.lastApplied])
    ensures var (s', ok) := ApplyCommitted(s);
            ok && Replayed(s', base) && s'.lastApplied == s'.commitIndex == s.commitIndex && s'.log == s.log && s'.disk == s.disk
  {
    assert s.log[..s.commitIndex] == s.log[..s.lastApplied] + s.log[s.lastApplied..s.commitIndex];
    ReplayConcat(base, s.log[..s.lastApplied], s.log[s.lastApplied..s.commitIndex]);
    if s.lastApplied == s.commitIndex {
      assert s.log[s.lastApplied..s.commitIndex] == [];
    }
  }

  /** A backup that is delivered an entry of the primary's log without a gap keeps a prefix of that log, and does not panic. */
  lemma AppendKeepsNode(node: State, base: Files, plog: seq<LogEntry>, e: LogEntry, commit: int)
    requires node.log <= plog && Replayed(node, base) && node.disk == Lines(node.log)
    requires 1 <= e.index <= |plog| && e == plog[e.index - 1] && commit <= e.index && e.index <= |node.log| + 1
    ensures var (node', ok) := AppendEntries(node, [e], commit);
            && ok && node.log <= node'.log <= plog && e.index <= |node'.log|
            && Replayed(node', base) && node'.disk == Lines(node'.log)
            && node'.commitIndex == if commit > node.commitIndex then commit else node.commitIndex
  {
    AppendOne(node.log, e);
    var log := AppendAll(node.log, [e]);
    assert log[..node.lastApplied] == node.log[..node.lastApplied];
    assert log == node.log + log[|node.log|..];
    LinesConcat(node.log, log[|node.log|..]);
    var mid := State(log, node.disk + Lines(log[|node.log|..]),
                     if commit > node.commitIndex then commit else node.commitIndex, node.lastApplied, node.files);
    ApplyKeepsReplayed(mid, base);
  }

  // ---------- steps keep the invariant ----------

  /** Logs only grow, and the primary's commit index only rises. */
  ghost predicate Advances(c: Cluster, c': Cluster)
    requires WellFormed(c) && WellFormed(c')
  {
    && c'.servers == c.servers && c'.primary == c.primary
    && (forall s :: s in c.servers ==> c.nodes[s].log <= c'.nodes[s].log)
    && c.nodes[c.primary].commitIndex <= c'.nodes[c.primary].commitIndex
  }

  lemma NodeStaysOk(c: Cluster, c': Cluster, base: Files, s: Id)
    requires WellFormed(c) && WellFormed(c') && Advances(c, c') && s in c.servers
    requires NodeOk(c, base, s) && c'.nodes[s] == c.nodes[s]
    ensures NodeOk(c', base, s)
  {
    assert PrimaryLog(c) <= PrimaryLog(c');
  }

  lemma MessageStaysOk(c: Cluster, c': Cluster, m: Message)
    requires WellFormed(c) && WellFormed(c') && Advances(c, c') && MessageOk(c, m)
    ensures MessageOk(c', m)
  {
    assert PrimaryLog(c) <= PrimaryLog(c');
  }

  lemma ReachingGrows(c: Cluster, c': Cluster, index: nat)
    requires WellFormed(c) && WellFormed(c') && Advances(c, c')
    ensures Reaching(c, index) <= Reaching(c', index) && |Reaching(c, index)| <= |Reaching(c', index)|
  {
    forall s | s in Reaching(c, index)
      ensures s in Reaching(c', index)
    {
      assert c.nodes[s].log <= c'.nodes[s].log;
    }
    SubsetSize(Reaching(c, index), Reaching(c', index));
  }

  /** What remains to be shown of a step that changes one node and sends some messages. */
  lemma OneNodeStep(c: Cluster, base: map<Id, Files>, c': Cluster, t: Id)
    requires Inv(c, base) && WellFormed(c') && Advances(c, c') && t in c.servers
    requires forall s :: s in c.servers && s != t ==> c'.nodes[s] == c.nodes[s]
    requires NodeOk(c', base[t], t)
    requires forall m :: m in c'.net && m !in c.net ==> MessageOk(c', m)
    ensures NodesOk(c', base) && NetOk(c')
  {
    hide NodeOk, MessageOk;
    forall s | s in c.servers
      ensures NodeOk(c', base[s], s)
    {
      if s != t {
        NodeStaysOk(c, c', base[s], s);
      }
    }
    forall m | m in c'.net
      ensures MessageOk(c', m)
    {
      if m in c.net {
        MessageStaysOk(c, c', m);
      }
    }
  }

  lemma SubmitAdvances(c: Cluster, base: map<Id, Files>, step: Step)
    requires Inv(c, base) && Enabled(c, step) && Regular(c, step) && step.Submit?
    ensures Advances(c, Next(c, step)) && NodeOk(Next(c, step), base[c.primary], c.primary)
    ensures Indexed(PrimaryLog(Next(c, step))) && |PrimaryLog(Next(c, step))| == |PrimaryLog(c)| + 1
    ensures Next(c, step).nodes[c.primary].commitIndex == c.nodes[c.primary].commitIndex
  {
    hide MessageOk, NetOk, QuorumsOk, ToPeers, Replayed;
    var p := c.nodes[c.primary];
    assert NodeOk(c, base[c.primary], c.primary);
    AppendKeepsReplayed(p, base[c.primary], LogEntry(|p.log| + 1, step.op, step.filename, step.content, step.version), step.persisted);
  }

  lemma AppendKeepsReplayed(s: State, base: Files, e: LogEntry, persisted: bool)
    requires Replayed(s, base)
    ensures Replayed(AppendLocal(s, e, persisted), base)
  {
    assert (s.log + [e])[..s.lastApplied] == s.log[..s.lastApplied];
  }

  lemma SubmitSends(c: Cluster, base: map<Id, Files>, step: Step)
    requires Inv(c, base) && Enabled(c, step) && Regular(c, step) && step.Submit?
    ensures forall m :: m in Next(c, step).net && m !in c.net ==> MessageOk(Next(c, step), m)
  {
    hide NetOk, QuorumsOk, Replayed;
    assert NodeOk(c, base[c.primary], c.primary);
    assert InOrder(c.nodes[c.primary]) by {
      InOrderOf(c, base, c.primary);
    }
  }

  lemma InOrderOf(c: Cluster, base: map<Id, Files>, s: Id)
    requires Inv(c, base) && s in c.servers
    ensures InOrder(c.nodes[s])
  {
    assert NodeOk(c, base[s], s);
  }

  lemma SubmitKeepsInv(c: Cluster, base: map<Id, Files>, step: Step)
    requires Inv(c, base) && Enabled(c, step) && Regular(c, step) && step.Submit?
    ensures Inv(Next(c, step), base)
  {
    var c' := Next(c, step);
    SubmitAdvances(c, base, step);
    SubmitSends(c, base, step);
    hide NodeOk, MessageOk, ToPeers, OnWire, NetOk;
    OneNodeStep(c, base, c', c.primary);
    ReachingGrows(c, c', c.nodes[c.primary].commitIndex);
  }

  lemma DeliverAdvances(c: Cluster, base: map<Id, Files>, m: Message)
    requires Inv(c, base) && Enabled(c, Deliver(m)) && Regular(c, Deliver(m))
    ensures var c' := Next(c, Deliver(m));
            && Advances(c, c') && NodeOk(c', base[m.to], m.to) && MessageOk(c', AckMsg(m.to, m.entry.index))
            && AppendEntries(c.nodes[m.to], [m.entry], m.commit).1
            && c'.nodes[c.primary] == c.nodes[c.primary]
  {
    hide AppendEntries, Replayed;
    assert MessageOk(c, m) && NodeOk(c, base[m.to], m.to);
    AppendKeepsNode(c.nodes[m.to], base[m.to], PrimaryLog(c), m.entry, m.commit);
  }

  lemma DeliverKeepsInv(c: Cluster, base: map<Id, Files>, m: Message)
    requires Inv(c, base) && Enabled(c, Deliver(m)) && Regular(c, Deliver(m))
    ensures Inv(Next(c, Deliver(m)), base)
  {
    var c' := Next(c, Deliver(m));
    DeliverAdvances(c, base, m);
    hide NodeOk, MessageOk, AppendEntries, NetOk;
    OneNodeStep(c, base, c', m.to);
    hide Advances, QuorumsOk;
    QuorumsStay(c, c');
  }

  lemma QuorumsStay(c: Cluster, c': Cluster)
    requires WellFormed(c) && WellFormed(c') && Advances(c, c') && QuorumsOk(c)
    requires c'.phase == c.phase && c'.nodes[c.primary] == c.nodes[c.primary]
    ensures QuorumsOk(c')
  {
    ReachingGrows(c, c', c.nodes[c.primary].commitIndex);
    ReachingGrows(c, c', |PrimaryLog(c)|);
  }

  lemma CommitAdvances(c: Cluster, base: map<Id, Files>)
    requires Inv(c, base) && Enabled(c, Commit)
    ensures var c' := Next(c, Commit);
            && Advances(c, c') && NodeOk(c', base[c.primary], c.primary) && PrimaryLog(c') == PrimaryLog(c)
            && c'.nodes[c.primary].commitIndex == |PrimaryLog(c)|
  {
    hide ApplyCommitted, NetOk, QuorumsOk, ToPeers;
    assert NodeOk(c, base[c.primary], c.primary);
    ApplyKeepsReplayed(c.nodes[c.primary].(commitIndex := |PrimaryLog(c)|), base[c.primary]);
  }

  lemma CommitSends(c: Cluster, base: map<Id, Files>)
    requires Inv(c, base) && Enabled(c, Commit)
    ensures forall m :: m in Next(c, Commit).net && m !in c.net ==> MessageOk(Next(c, Commit), m)
  {
    CommitAdvances(c, base);
    hide ApplyCommitted, NetOk, QuorumsOk, NodesOk, NodeOk, CommitLocal;
  }

  /** The acknowledgements that allow a commit show that a majority holds the last entry. */
  lemma AcksAreMajority(c: Cluster, base: map<Id, Files>)
    requires Inv(c, base) && Enabled(c, Commit)
    ensures |Reaching(c, |PrimaryLog(c)|)| >= Majority(c)
  {
    SubsetSize(c.phase.acks, Reaching(c, |PrimaryLog(c)|));
  }

  lemma CommitKeepsInv(c: Cluster, base: map<Id, Files>)
    requires Inv(c, base) && Enabled(c, Commit)
    ensures Inv(Next(c, Commit), base)
  {
    hide NodeOk, MessageOk, ApplyCommitted, NetOk, ToPeers, CommitLocal;
    var c' := Next(c, Commit);
    CommitAdvances(c, base);
    CommitSends(c, base);
    AcksAreMajority(c, base);
    CommitKeepsRest(c, base, c');
  }

  /** The rest of the invariant, once the primary's commit index is the length of its log and a majority reaches it. */
  lemma CommitKeepsRest(c: Cluster, base: map<Id, Files>, c': Cluster)
    requires Inv(c, base) && WellFormed(c') && Advances(c, c') && PrimaryLog(c') == PrimaryLog(c)
    requires forall s :: s in c.servers && s != c.primary ==> c'.nodes[s] == c.nodes[s]
    requires NodeOk(c', base[c.primary], c.primary) && c'.nodes[c.primary].commitIndex == |PrimaryLog(c)|
    requires forall m :: m in c'.net && m !in c.net ==> MessageOk(c', m)
    requires c'.phase == Idle && |Reaching(c, |PrimaryLog(c)|)| >= Majority(c)
    ensures Inv(c', base)
  {
    OneNodeStep(c, base, c', c.primary);
    hide NodeOk, MessageOk, NetOk, NodesOk;
    ReachingGrows(c, c', |PrimaryLog(c)|);
  }

  lemma PhaseStepKeepsInv(c: Cluster, base: map<Id, Files>, step: Step)
    requires Inv(c, base) && Enabled(c, step) && (step.Count? || step.GiveUp?)
    ensures Inv(Next(c, step), base)
  {
    var c' := Next(c, step);
    forall s | s in c.servers
      ensures NodeOk(c', base[s], s)
    {
      assert NodeOk(c, base[s], s);
    }
    forall m | m in c.net
      ensures MessageOk(c', m)
    {
      assert MessageOk(c, m);
    }
    assert forall i: nat :: Reaching(c', i) == Reaching(c, i);
    if step.Count? {
      assert MessageOk(c, step.m);
    }
  }

  lemma StepKeepsInv(c: Cluster, base: map<Id, Files>, step: Step)
    requires Inv(c, base) && Enabled(c, step) && Regular(c, step)
    ensures Inv(Next(c, step), base) && Advances(c, Next(c, step))
  {
    hide Inv;
    match step
    case Submit(_, _, _, _, _) =>
      SubmitAdvances(c, base, step);
      SubmitKeepsInv(c, base, step);
    case Deliver(m) =>
      DeliverAdvances(c, base, m);
      DeliverKeepsInv(c, base, m);
    case Commit =>
      CommitAdvances(c, base);
      CommitKeepsInv(c, base);
    case Count(_) =>
      PhaseStepKeepsInv(c, base, step);
    case GiveUp =>
      PhaseStepKeepsInv(c, base, step);
  }

  lemma InitialInv(c: Cluster, base: map<Id, Files>)
    requires Initial(c, base)
    ensures Inv(c, base)
  {
    assert Lines([]) == [];
  }

  lemma {:induction false} RunKeepsInv(c: Cluster, base: map<Id, Files>, steps: seq<Step>)
    requires Inv(c, base) && RegularRun(c, steps)
    ensures Inv(After(c, steps), base)
    decreases steps
  {
    if steps != [] {
      StepKeepsInv(c, base, steps[0]);
      RunKeepsInv(Next(c, steps[0]), base, steps[1..]);
    }
  }

  // ---------- theorems about runs ----------

  /**
   * In every regular run, every server's log is a prefix of the primary's, entry i carries index i + 1, and
   * lastApplied <= commitIndex <= length of the log.
   */
  lemma LogsArePrefixes(c: Cluster, base: map<Id, Files>, steps: seq<Step>, s: Id)
    requires Initial(c, base) && RegularRun(c, steps) && s in c.servers
    ensures var e := After(c, steps);
            e.nodes[s].log <= PrimaryLog(e) && Indexed(e.nodes[s].log) && InOrder(e.nodes[s])
  {
    InitialInv(c, base);
    RunKeepsInv(c, base, steps);
    assert NodeOk(After(c, steps), base[s], s);
  }

  /** And a backup's log file holds its log. */
  lemma BackupLogsAreDurable(c: Cluster, base: map<Id, Files>, steps: seq<Step>, s: Id)
    requires Initial(c, base) && RegularRun(c, steps) && s in c.servers && s != c.primary
    ensures Parsed(After(c, steps).nodes[s].disk) == After(c, steps).nodes[s].log
  {
    InitialInv(c, base);
    RunKeepsInv(c, base, steps);
    assert NodeOk(After(c, steps), base[s], s);
    ParsedLines(After(c, steps).nodes[s].log);
  }

  /** No delivery in a regular run makes a backup index past its log. */
  lemma DeliveriesDoNotPanic(c: Cluster, base: map<Id, Files>, steps: seq<Step>, m: Message)
    requires Initial(c, base) && RegularRun(c, steps)
    requires Enabled(After(c, steps), Deliver(m)) && Regular(After(c, steps), Deliver(m))
    ensures AppendEntries(After(c, steps).nodes[m.to], [m.entry], m.commit).1
  {
    InitialInv(c, base);
    RunKeepsInv(c, base, steps);
    DeliverAdvances(After(c, steps), base, m);
  }

  lemma {:induction false} RunAdvances(c: Cluster, base: map<Id, Files>, steps: seq<Step>)
    requires Inv(c, base) && RegularRun(c, steps)
    ensures Advances(c, After(c, steps))
    decreases steps
  {
    if steps != [] {
      hide Inv, Next;
      StepKeepsInv(c, base, steps[0]);
      RunAdvances(Next(c, steps[0]), base, steps[1..]);
    }
  }

  /** The servers that hold a given entry at its index. */
  function HoldersOf(c: Cluster, e: LogEntry): set<Id>
    requires WellFormed(c)
  {
    set s | s in c.servers && 1 <= e.index <= |c.nodes[s].log| && c.nodes[s].log[e.index - 1] == e
  }

  /**
   * Durability: an entry whose Close counts a majority is at its index in the logs of a majority of the
   * configured servers, then and after any further steps.
   */
  lemma CommittedStaysOnMajority(c: Cluster, base: map<Id, Files>, before: seq<Step>, after: seq<Step>)
    requires Initial(c, base) && RegularRun(c, before) && RegularRun(After(c, before), [Commit] + after)
    ensures var m := After(c, before);
            var e := PrimaryLog(m)[|PrimaryLog(m)| - 1];
            |HoldersOf(After(m, [Commit] + after), e)| >= Majority(c)
  {
    var m := After(c, before);
    var k := |PrimaryLog(m)|;
    assert ([Commit] + after)[0] == Commit;
    InitialInv(c, base);
    RunKeepsInv(c, base, before);
    AcksAreMajority(m, base);
    hide Inv, Next, Enabled, Regular, HoldersOf, Reaching;
    RunKeepsInv(m, base, [Commit] + after);
    RunAdvances(m, base, [Commit] + after);
    var end := After(m, [Commit] + after);
    ReachingGrows(m, end, k);
    ReachingHold(end, base, PrimaryLog(m));
  }

  /** Whoever reaches the end of an earlier primary log holds its last entry. */
  lemma ReachingHold(c: Cluster, base: map<Id, Files>, log: seq<LogEntry>)
    requires Inv(c, base) && log != [] && log <= PrimaryLog(c)
    ensures |Reaching(c, |log|)| <= |HoldersOf(c, log[|log| - 1])|
  {
    forall s | s in Reaching(c, |log|)
      ensures s in HoldersOf(c, log[|log| - 1])
    {
      assert NodeOk(c, base[s], s);
    }
    SubsetSize(Reaching(c, |log|), HoldersOf(c, log[|log| - 1]));
  }

  lemma QuorumsIntersect(servers: set<Id>, x: set<Id>, y: set<Id>) returns (s: Id)
    requires x <= servers && y <= servers && |x| >= |servers| / 2 + 1 && |y| >= |servers| / 2 + 1
    ensures s in x && s in y
  {
    SubsetSize(x + y, servers);
    assert |x + y| == |x| + |y| - |x * y|;
    s :| s in x * y;
  }

  /** Every majority of the servers contains one that holds all committed entries. */
  lemma MajorityKnowsCommitted(c: Cluster, base: map<Id, Files>, steps: seq<Step>, quorum: set<Id>) returns (s: Id)
    requires Initial(c, base) && RegularRun(c, steps)
    requires quorum <= c.servers && |quorum| >= Majority(c)
    ensures var e := After(c, steps);
            s in quorum && e.nodes[e.primary].commitIndex <= |PrimaryLog(e)| &&
            PrimaryLog(e)[..e.nodes[e.primary].commitIndex] <= e.nodes[s].log
  {
    InitialInv(c, base);
    RunKeepsInv(c, base, steps);
    var e := After(c, steps);
    var n := e.nodes[e.primary].commitIndex;
    assert NodeOk(e, base[e.primary], e.primary);
    if n == 0 {
      s :| s in quorum;
    } else {
      s := QuorumsIntersect(e.servers, Reaching(e, n), quorum);
    }
    assert NodeOk(e, base[s], s);
  }

  /** Applied state refines replay: on every server the files are the start files with log[..lastApplied] replayed. */
  lemma FilesAreReplayedLog(c: Cluster, base: map<Id, Files>, steps: seq<Step>, s: Id)
    requires Initial(c, base) && RegularRun(c, steps) && s in c.servers
    ensures var node := After(c, steps).nodes[s];
            node.lastApplied <= |node.log| && node.files == Replay(base[s], node.log[..node.lastApplied])
  {
    InitialInv(c, base);
    RunKeepsInv(c, base, steps);
    assert NodeOk(After(c, steps), base[s], s);
  }

  /** Two servers that started from the same files and have applied equally far hold the same files. */
  lemma EquallyAppliedServersAgree(c: Cluster, base: map<Id, Files>, steps: seq<Step>, s: Id, t: Id)
    requires Initial(c, base) && RegularRun(c, steps) && s in c.servers && t in c.servers && base[s] == base[t]
    requires After(c, steps).nodes[s].lastApplied == After(c, steps).nodes[t].lastApplied
    ensures After(c, steps).nodes[s].files == After(c, steps).nodes[t].files
  {
    FilesAreReplayedLog(c, base, steps, s);
    FilesAreReplayedLog(c, base, steps, t);
    LogsArePrefixes(c, base, steps, s);
    LogsArePrefixes(c, base, steps, t);
    var e := After(c, steps);
    var n := e.nodes[s].lastApplied;
    assert e.nodes[s].log[..n] == PrimaryLog(e)[..n] == e.nodes[t].log[..n];
  }

  /**
   * Close on the primary takes the steps of this system, whatever was delivered in between: its append is Submit, it gets its
   * majority exactly when as many acknowledgements arrive in time as enable Commit here, and then it commits as Commit does.
   */
  lemma CloseTakesTheseSteps(c: Cluster, step: Step, later: Cluster, env: S.Env)
    requires WellFormed(c) && step.Submit? && Enabled(c, step) && step.persisted == env.persisted
    requires WellFormed(later) && later.primary == c.primary && later.servers == c.servers
    requires later.nodes[c.primary] == Next(c, step).nodes[c.primary]
    requires env.persisted ==> later.phase.Collecting? && c.primary in later.phase.acks
    requires env.persisted ==> S.Acks(env.events) == |later.phase.acks - {c.primary}|
    ensures var e := LogEntry(|PrimaryLog(c)| + 1, step.op, step.filename, step.content, step.version);
            var (node, failure) := S.AppendAndCommit(c.nodes[c.primary], e, |c.servers|, env);
            && (failure.None? <==> env.persisted && Enabled(later, Commit))
            && (failure == Some(S.NoMajority) <==> env.persisted && Enabled(later, GiveUp))
            && node == if failure.None? then Next(later, Commit).nodes[c.primary] else later.nodes[c.primary]
  {
    hide ApplyCommitted, ToPeers;
    if env.persisted {
      assert |later.phase.acks| == 1 + |later.phase.acks - {c.primary}| by {
        assert later.phase.acks == (later.phase.acks - {c.primary}) + {c.primary};
      }
    }
  }

  // ---------- where the hypotheses are needed ----------

  /** A delivery leaves the backup a prefix of the primary's log exactly when it is not more than one past the backup's log. */
  lemma PrefixIffNoGap(c: Cluster, base: map<Id, Files>, m: Message)
    requires Inv(c, base) && Enabled(c, Deliver(m))
    ensures Next(c, Deliver(m)).nodes[m.to].log <= PrimaryLog(c) <==> m.entry.index <= |c.nodes[m.to].log| + 1
  {
    assert MessageOk(c, m) && NodeOk(c, base[m.to], m.to);
    var node := c.nodes[m.to];
    AppendOne(node.log, m.entry);
    var log := AppendAll(node.log, [m.entry]);
    assert Next(c, Deliver(m)).nodes[m.to].log == log;
    if m.entry.index > |node.log| + 1 {
      assert log[|node.log|].index != PrimaryLog(c)[|node.log|].index;
    }
  }

  /**
   * The primary keeps an entry in its log even when writing the log file fails, but never sends it: no backup
   * can get past that index without a gap.
   */
  ghost predicate Blocked(c: Cluster, k: nat)
    requires WellFormed(c)
  {
    && 0 < k <= |PrimaryLog(c)|
    && (forall s :: s in c.servers && s != c.primary ==> |c.nodes[s].log| < k)
    && (forall m :: m in c.net && m.AppendMsg? ==> m.entry.index != k)
    && (forall m :: m in c.net && m.AckMsg? && m.from in c.servers ==> m.index < k)
    && (c.phase.Collecting? ==> c.phase.acks <= {c.primary})
  }

  lemma BlockedStep(c: Cluster, k: nat, step: Step)
    requires WellFormed(c) && Enabled(c, step) && Regular(c, step) && |c.servers| >= 2
    requires Blocked(c, k) && |PrimaryLog(c)| < HALF32
    ensures step != Commit && Blocked(Next(c, step), k) && |PrimaryLog(Next(c, step))| < HALF32
    ensures Next(c, step).nodes[c.primary].commitIndex == c.nodes[c.primary].commitIndex
  {
    if c.phase.Collecting? {
      SubsetSize(c.phase.acks, {c.primary});
    }
    if step.Deliver? {
      AppendOne(c.nodes[step.m.to].log, step.m.entry);
    }
  }

  lemma {:induction false} BlockedRun(c: Cluster, k: nat, steps: seq<Step>)
    requires WellFormed(c) && RegularRun(c, steps) && |c.servers| >= 2
    requires Blocked(c, k) && |PrimaryLog(c)| < HALF32
    ensures After(c, steps).nodes[c.primary].commitIndex == c.nodes[c.primary].commitIndex
    decreases steps
  {
    if steps != [] {
      hide Blocked;
      BlockedStep(c, k, steps[0]);
      BlockedRun(Next(c, steps[0]), k, steps[1..]);
    }
  }

  /** With two servers or more, one failed log write at the primary ends all commits: after it no regular run commits anything. */
  lemma FailedLogWriteEndsCommits(c: Cluster, base: map<Id, Files>, before: seq<Step>, failed: Step, after: seq<Step>)
    requires Initial(c, base) && RegularRun(c, before) && |c.servers| >= 2
    requires failed.Submit? && !failed.persisted && RegularRun(After(c, before), [failed] + after)
    ensures var m := After(c, before);
            After(m, [failed] + after).nodes[c.primary].commitIndex == m.nodes[c.primary].commitIndex
  {
    InitialInv(c, base);
    RunKeepsInv(c, base, before);
    var m := After(c, before);
    assert ([failed] + after)[0] == failed && ([failed] + after)[1..] == after;
    FailedWriteBlocks(m, base, failed);
    BlockedRun(Next(m, failed), |PrimaryLog(m)| + 1, after);
  }

  lemma FailedWriteBlocks(c: Cluster, base: map<Id, Files>, failed: Step)
    requires Inv(c, base) && failed.Submit? && !failed.persisted && Enabled(c, failed) && Regular(c, failed)
    ensures Blocked(Next(c, failed), |PrimaryLog(c)| + 1)
    ensures Next(c, failed).nodes[c.primary].commitIndex == c.nodes[c.primary].commitIndex
  {
    forall s | s in c.servers
      ensures |c.nodes[s].log| <= |PrimaryLog(c)|
    {
      assert NodeOk(c, base[s], s);
    }
    forall m | m in c.net
      ensures if m.AppendMsg? then m.entry.index <= |PrimaryLog(c)| else m.from in c.servers ==> m.index <= |PrimaryLog(c)|
    {
      assert MessageOk(c, m);
    }
  }

  /** AppendEntries panics exactly when the commit index that it ends with lies past the log that it ends with. */
  lemma PanicsIffCommitPastLog(s: State, entries: seq<LogEntry>, commit: int)
    requires InOrder(s)
    ensures var n := |AppendAll(s.log, entries)|;
            !AppendEntries(s, entries, commit).1 <==> commit > n
  {
    AppendAllExtends(s.log, entries);
  }

  /** An index of 2^31 or more arrives truncated: the backup skips the entry, and still reports success. */
  lemma TruncatedIndexIsSkipped(s: State, e: LogEntry, commit: int)
    requires HALF32 <= e.index <= FULL32 && InOrder(s) && commit <= s.commitIndex
    ensures AppendEntries(s, [OnWire(e)], commit).0.log == s.log && AppendEntries(s, [OnWire(e)], commit).1
  {
    AppendOne(s.log, OnWire(e));
  }
}
