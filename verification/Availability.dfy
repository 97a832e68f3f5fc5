// What regular runs of the cluster can reach: further commits, the first gap, and a panic by one gap
// (server_basics.go:876-927, server_replication.go:405-456).
module Availability {
  import opened Basics
  import opened Words
  import opened Replica
  import opened Cluster

  // ---------- runs in pieces ----------

  /** A regular run that leads from one cluster state to another. */
  ghost predicate Leads(c: Cluster, steps: seq<Step>, e: Cluster)
  {
    WellFormed(c) && RegularRun(c, steps) && After(c, steps) == e
  }

  lemma LeadsNowhere(c: Cluster)
    requires WellFormed(c)
    ensures Leads(c, [], c)
  {}

  lemma LeadsFromNext(c: Cluster, step: Step, steps: seq<Step>, e: Cluster)
    requires WellFormed(c) && Enabled(c, step) && Regular(c, step) && Leads(Next(c, step), steps, e)
    ensures Leads(c, [step] + steps, e)
  {
    assert ([step] + steps)[1..] == steps;
  }

  lemma OneStep(c: Cluster, step: Step)
    requires WellFormed(c) && Enabled(c, step) && Regular(c, step)
    ensures Leads(c, [step], Next(c, step))
  {
    LeadsNowhere(Next(c, step));
    LeadsFromNext(c, step, [], Next(c, step));
    assert [step] + [] == [step];
  }

  lemma {:induction false} LeadsConcat(c: Cluster, a: seq<Step>, m: Cluster, b: seq<Step>, e: Cluster)
    requires Leads(c, a, m) && Leads(m, b, e)
    ensures Leads(c, a + b, e)
    decreases a
  {
    if a == [] {
      assert a + b == b;
    } else {
      hide Next, Enabled, Regular;
      LeadsConcat(Next(c, a[0]), a[1..], m, b, e);
      LeadsFromNext(c, a[0], a[1..] + b, e);
      assert [a[0]] + (a[1..] + b) == a + b;
    }
  }

  lemma {:induction false} LeadsSplit(c: Cluster, a: seq<Step>, b: seq<Step>)
    requires WellFormed(c) && RegularRun(c, a + b)
    ensures RegularRun(c, a) && RegularRun(After(c, a), b) && After(c, a + b) == After(After(c, a), b)
    decreases a
  {
    if a == [] {
      assert a + b == b;
    } else {
      hide Next, Enabled, Regular;
      assert (a + b)[1..] == a[1..] + b;
      LeadsSplit(Next(c, a[0]), a[1..], b);
    }
  }

  // ---------- every entry has been sent ----------

  function Peers(c: Cluster): set<Id>
  {
    c.servers - {c.primary}
  }

  /** Some call with entry i is on its way to s. */
  ghost predicate Called(c: Cluster, s: Id, i: int)
    requires WellFormed(c) && 0 <= i < |PrimaryLog(c)|
  {
    exists commit: int :: AppendMsg(s, PrimaryLog(c)[i], commit) in c.net
  }

  ghost predicate AllCalled(c: Cluster)
    requires WellFormed(c)
  {
    forall s, i :: s in Peers(c) && 0 <= i < |PrimaryLog(c)| ==> Called(c, s, i)
  }

  /** A Close that waits counts its own server, and waits for an entry that is not committed. */
  ghost predicate PhaseOk(c: Cluster)
    requires WellFormed(c)
  {
    c.phase.Collecting? ==> c.primary in c.phase.acks && c.nodes[c.primary].commitIndex < |PrimaryLog(c)|
  }

  lemma CallsStay(c: Cluster, c': Cluster, s: Id, i: int)
    requires WellFormed(c) && WellFormed(c') && Advances(c, c') && c.net <= c'.net
    requires 0 <= i < |PrimaryLog(c)| && Called(c, s, i)
    ensures i < |PrimaryLog(c')| && Called(c', s, i)
  {
    assert PrimaryLog(c) <= PrimaryLog(c');
    var commit: int :| AppendMsg(s, PrimaryLog(c)[i], commit) in c.net;
    assert AppendMsg(s, PrimaryLog(c')[i], commit) in c'.net;
  }

  predicate NotFailed(step: Step)
  {
    step.Submit? ==> step.persisted
  }

  lemma StepKeepsCalled(c: Cluster, base: map<Id, Files>, step: Step)
    requires Inv(c, base) && Enabled(c, step) && Regular(c, step) && AllCalled(c)
    requires NotFailed(step) || Peers(c) == {}
    ensures AllCalled(Next(c, step))
  {
    var c' := Next(c, step);
    StepKeepsInv(c, base, step);
    StepGrowsNet(c, base, step);
    forall s, i | s in Peers(c') && 0 <= i < |PrimaryLog(c')|
      ensures Called(c', s, i)
    {
      if i < |PrimaryLog(c)| {
        assert Called(c, s, i);
        CallsStay(c, c', s, i);
      } else {
        LastIsCalled(c, base, step, s);
      }
    }
  }

  lemma StepGrowsNet(c: Cluster, base: map<Id, Files>, step: Step)
    requires Inv(c, base) && Enabled(c, step) && Regular(c, step)
    ensures c.net <= Next(c, step).net
    ensures |PrimaryLog(Next(c, step))| == |PrimaryLog(c)| + if step.Submit? then 1 else 0
  {
    hide NodesOk, NetOk, QuorumsOk, ToPeers;
    if step.Commit? {
      CommitAdvances(c, base);
    }
  }

  lemma LastIsCalled(c: Cluster, base: map<Id, Files>, step: Step, s: Id)
    requires Inv(c, base) && Enabled(c, step) && Regular(c, step) && step.Submit? && step.persisted && s in Peers(c)
    ensures |PrimaryLog(Next(c, step))| == |PrimaryLog(c)| + 1 && Called(Next(c, step), s, |PrimaryLog(c)|)
  {
    var p := c.nodes[c.primary];
    var e := LogEntry(|p.log| + 1, step.op, step.filename, step.content, step.version);
    assert OnWire(e) == e;
    assert AppendMsg(s, e, Wrap32(p.commitIndex)) in ToPeers(c, e, p.commitIndex);
    assert PrimaryLog(Next(c, step))[|p.log|] == e;
  }

  lemma StepKeepsPhaseOk(c: Cluster, base: map<Id, Files>, step: Step)
    requires Inv(c, base) && Enabled(c, step) && Regular(c, step) && PhaseOk(c)
    ensures PhaseOk(Next(c, step))
  {
    hide NetOk, QuorumsOk, ToPeers, ApplyCommitted, AppendEntries;
    InOrderOf(c, base, c.primary);
  }

  predicate NoFailedWrites(steps: seq<Step>)
  {
    forall i :: 0 <= i < |steps| ==> NotFailed(steps[i])
  }

  lemma {:induction false} RunKeepsCalled(c: Cluster, base: map<Id, Files>, steps: seq<Step>)
    requires Inv(c, base) && RegularRun(c, steps) && PhaseOk(c)
    ensures PhaseOk(After(c, steps))
    ensures AllCalled(c) && (NoFailedWrites(steps) || Peers(c) == {}) ==> AllCalled(After(c, steps))
    decreases steps
  {
    if steps != [] {
      hide Inv, Next, Enabled, Regular, AllCalled, PhaseOk;
      StepKeepsInv(c, base, steps[0]);
      StepKeepsPhaseOk(c, base, steps[0]);
      if AllCalled(c) && (NoFailedWrites(steps) || Peers(c) == {}) {
        StepKeepsCalled(c, base, steps[0]);
      }
      RunKeepsCalled(Next(c, steps[0]), base, steps[1..]);
    }
  }

  // ---------- collecting acknowledgements ----------

  /** Nothing is lost, and only some servers change. */
  ghost predicate Quiet(c: Cluster, e: Cluster, touched: set<Id>)
  {
    && WellFormed(c) && WellFormed(e)
    && e.servers == c.servers && e.primary == c.primary && c.net <= e.net
    && forall t :: t in c.servers && t !in touched ==> e.nodes[t] == c.nodes[t]
  }

  lemma QuietConcat(c: Cluster, m: Cluster, e: Cluster, x: set<Id>, y: set<Id>)
    requires Quiet(c, m, x) && Quiet(m, e, y)
    ensures Quiet(c, e, x + y) && Peers(m) == Peers(c)
  {}

  lemma SamePeers(c: Cluster, m: Cluster, x: set<Id>)
    requires Quiet(c, m, x)
    ensures Peers(m) == Peers(c) && (c.primary in c.servers - x ==> PrimaryLog(m) == PrimaryLog(c))
  {}

  /** A Close waits, and whatever is in the log is on its way to everybody. */
  ghost predicate Waiting(c: Cluster, base: map<Id, Files>)
  {
    WellFormed(c) && Inv(c, base) && AllCalled(c) && PhaseOk(c) && c.phase.Collecting?
  }

  /** An entry that leaves no gap at s can be delivered to it, and is acknowledged. */
  lemma DeliverEntry(c: Cluster, base: map<Id, Files>, s: Id, k: nat) returns (m: Message)
    requires Waiting(c, base) && s in Peers(c) && k < |PrimaryLog(c)| && k <= |c.nodes[s].log|
    ensures Enabled(c, Deliver(m)) && Regular(c, Deliver(m))
    ensures var c' := Next(c, Deliver(m));
            && Waiting(c', base) && Quiet(c, c', {s}) && c'.phase == c.phase
            && |c'.nodes[s].log| > k && AckMsg(s, k + 1) in c'.net
  {
    assert Called(c, s, k);
    var commit: int :| AppendMsg(s, PrimaryLog(c)[k], commit) in c.net;
    m := AppendMsg(s, PrimaryLog(c)[k], commit);
    assert PrimaryLog(c)[k].index == k + 1;
    DeliverAdvances(c, base, m);
    hide AppendEntries, NodesOk, NetOk, QuorumsOk, AllCalled;
    StepKeepsInv(c, base, Deliver(m));
    StepKeepsCalled(c, base, Deliver(m));
    StepKeepsPhaseOk(c, base, Deliver(m));
    assert MessageOk(Next(c, Deliver(m)), AckMsg(s, k + 1));
  }

  /** So a backup can be brought up to date, and its acknowledgement of the last entry be sent. */
  lemma {:induction false} CatchUp(c: Cluster, base: map<Id, Files>, s: Id) returns (steps: seq<Step>, e: Cluster)
    requires Waiting(c, base) && s in Peers(c)
    ensures Leads(c, steps, e) && Waiting(e, base) && Quiet(c, e, {s}) && e.phase == c.phase
    ensures AckMsg(s, |PrimaryLog(c)|) in e.net
    decreases |PrimaryLog(c)| - |c.nodes[s].log|
  {
    hide Inv, AllCalled, Next, Enabled, Regular;
    var n := |PrimaryLog(c)|;
    var k := if |c.nodes[s].log| < n then |c.nodes[s].log| else n - 1;
    var m := DeliverEntry(c, base, s, k);
    var c' := Next(c, Deliver(m));
    if k == n - 1 {
      steps, e := [Deliver(m)], c';
      OneStep(c, Deliver(m));
    } else {
      steps, e := CatchUp(c', base, s);
      LeadsFromNext(c, Deliver(m), steps, e);
      steps := [Deliver(m)] + steps;
      QuietConcat(c, c', e, {s}, {s});
      assert {s} + {s} == {s};
    }
  }

  /** And the acknowledgement be counted. */
  lemma CollectFrom(c: Cluster, base: map<Id, Files>, s: Id) returns (steps: seq<Step>, e: Cluster)
    requires Waiting(c, base) && s in Peers(c)
    ensures Leads(c, steps, e) && Waiting(e, base) && Quiet(c, e, {s}) && e.phase == Collecting(c.phase.acks + {s})
  {
    hide AllCalled;
    var caughtUp, m := CatchUp(c, base, s);
    var count := Count(AckMsg(s, |PrimaryLog(c)|));
    hide NodesOk, NetOk, QuorumsOk;
    e := Next(m, count);
    StepKeepsInv(m, base, count);
    StepKeepsCalled(m, base, count);
    StepKeepsPhaseOk(m, base, count);
    OneStep(m, count);
    LeadsConcat(c, caughtUp, m, [count], e);
    steps := caughtUp + [count];
  }

  lemma CollectFromNobody(c: Cluster, base: map<Id, Files>)
    requires Waiting(c, base)
    ensures Leads(c, [], c) && Quiet(c, c, {})
  {}

  lemma {:induction false} CollectFromAll(c: Cluster, base: map<Id, Files>, todo: set<Id>) returns (steps: seq<Step>, e: Cluster)
    requires Waiting(c, base) && c.phase.Collecting? && todo <= Peers(c)
    ensures Leads(c, steps, e) && Waiting(e, base) && Quiet(c, e, todo) && e.phase == Collecting(c.phase.acks + todo)
    decreases todo
  {
    hide Waiting, Leads, Quiet, Peers;
    if todo == {} {
      steps, e := [], c;
      CollectFromNobody(c, base);
      assert c.phase.acks + {} == c.phase.acks;
    } else {
      var s :| s in todo;
      var first, m := CollectFrom(c, base, s);
      SamePeers(c, m, {s});
      var rest;
      rest, e := CollectFromAll(m, base, todo - {s});
      LeadsConcat(c, first, m, rest, e);
      QuietConcat(c, m, e, {s}, todo - {s});
      assert {s} + (todo - {s}) == todo && c.phase.acks + {s} + (todo - {s}) == c.phase.acks + todo;
      steps := first + rest;
    }
  }

  /** What holds when the waiting entry of c has been committed. */
  ghost predicate CommittedAll(c: Cluster, base: map<Id, Files>, e: Cluster, touched: set<Id>)
  {
    && Quiet(c, e, touched) && Inv(e, base) && AllCalled(e) && e.phase == Idle
    && PrimaryLog(e) == PrimaryLog(c) && PrimaryLog(c) != []
    && e.nodes[e.primary].commitIndex == |PrimaryLog(c)| > c.nodes[c.primary].commitIndex
    && forall s :: s in Peers(c) ==> AppendMsg(s, PrimaryLog(c)[|PrimaryLog(c)| - 1], |PrimaryLog(c)|) in e.net
  }

  lemma CommitNow(c: Cluster, base: map<Id, Files>)
    requires Waiting(c, base) && |c.phase.acks| >= Majority(c)
    ensures Enabled(c, Commit) && CommittedAll(c, base, Next(c, Commit), {c.primary}) && Leads(c, [Commit], Next(c, Commit))
  {
    hide AllCalled, NodesOk, NetOk, QuorumsOk;
    CommitAdvances(c, base);
    StepKeepsInv(c, base, Commit);
    StepKeepsCalled(c, base, Commit);
    StepGrowsNet(c, base, Commit);
    CommitIsSent(c, base);
    OneStep(c, Commit);
  }

  lemma CommittedFrom(c: Cluster, base: map<Id, Files>, m: Cluster, e: Cluster, x: set<Id>, y: set<Id>)
    requires Quiet(c, m, x) && c.primary !in x && CommittedAll(m, base, e, y)
    requires WellFormed(c) && c.primary in c.servers
    ensures CommittedAll(c, base, e, x + y)
  {
    hide Inv, AllCalled;
    SamePeers(c, m, x);
    QuietConcat(c, m, e, x, y);
    assert m.nodes[c.primary] == c.nodes[c.primary];
  }

  /** With acknowledgements from enough servers the waiting entry is committed, and its commit is sent to all. */
  lemma CommitWith(c: Cluster, base: map<Id, Files>, todo: set<Id>) returns (steps: seq<Step>, e: Cluster)
    requires Waiting(c, base) && todo <= Peers(c) && |todo| + 1 >= Majority(c)
    ensures Leads(c, steps, e) && CommittedAll(c, base, e, todo + {c.primary})
  {
    hide Inv, AllCalled, CommittedAll, Next, RegularRun, After;
    var collect, m := CollectFromAll(c, base, todo);
    SubsetSize(todo + {c.primary}, m.phase.acks);
    CommitNow(m, base);
    e := Next(m, Commit);
    CommittedFrom(c, base, m, e, todo, {c.primary});
    LeadsConcat(c, collect, m, [Commit], e);
    steps := collect + [Commit];
  }

  lemma CommitIsSent(c: Cluster, base: map<Id, Files>)
    requires Inv(c, base) && Enabled(c, Commit)
    ensures forall s :: s in Peers(c) ==>
      AppendMsg(s, PrimaryLog(c)[|PrimaryLog(c)| - 1], |PrimaryLog(c)|) in Next(c, Commit).net
  {
    hide NodesOk, NetOk, QuorumsOk, ApplyCommitted;
    var n := |PrimaryLog(c)|;
    var e := PrimaryLog(c)[n - 1];
    assert OnWire(e) == e;
    forall s | s in Peers(c)
      ensures AppendMsg(s, e, n) in Next(c, Commit).net
    {
      assert AppendMsg(s, OnWire(e), Wrap32(n)) in ToPeers(c, e, n);
    }
  }

  // ---------- when commits stay possible ----------

  /** Some regular run from here raises the commit index; runs with gaps do not count. */
  ghost predicate CommitPossible(c: Cluster)
    requires WellFormed(c)
  {
    exists steps :: RegularRun(c, steps) && After(c, steps).nodes[c.primary].commitIndex > c.nodes[c.primary].commitIndex
  }

  lemma SubmitWaits(c: Cluster, base: map<Id, Files>, step: Step)
    requires Inv(c, base) && AllCalled(c) && step.Submit? && step.persisted && Enabled(c, step) && Regular(c, step)
    ensures Waiting(Next(c, step), base) && Quiet(c, Next(c, step), {c.primary}) && Leads(c, [step], Next(c, step))
    ensures |PrimaryLog(Next(c, step))| == |PrimaryLog(c)| + 1
    ensures Next(c, step).nodes[c.primary].commitIndex == c.nodes[c.primary].commitIndex
    ensures Next(c, step).phase == Collecting({c.primary})
  {
    hide AllCalled, NodesOk, NetOk, QuorumsOk, ToPeers;
    StepKeepsInv(c, base, step);
    StepKeepsCalled(c, base, step);
    assert PhaseOk(Next(c, step)) by {
      InOrderOf(c, base, c.primary);
    }
    OneStep(c, step);
  }

  lemma PeersAndPrimary(c: Cluster)
    requires WellFormed(c)
    ensures |Peers(c)| + 1 == |c.servers| && |Peers(c)| + 1 >= Majority(c)
  {
    assert c.servers == Peers(c) + {c.primary};
  }

  /** What holds when one more entry has been submitted and committed. */
  ghost predicate OneMore(c: Cluster, base: map<Id, Files>, e: Cluster, touched: set<Id>)
  {
    && Quiet(c, e, touched) && Inv(e, base) && AllCalled(e) && e.phase == Idle
    && |PrimaryLog(e)| == |PrimaryLog(c)| + 1
    && e.nodes[e.primary].commitIndex == |PrimaryLog(e)| > c.nodes[c.primary].commitIndex
    && forall s :: s in Peers(c) ==> AppendMsg(s, PrimaryLog(e)[|PrimaryLog(c)|], |PrimaryLog(e)|) in e.net
  }

  lemma OneMoreFrom(c: Cluster, base: map<Id, Files>, m: Cluster, e: Cluster, x: set<Id>)
    requires WellFormed(c) && Quiet(c, m, {c.primary}) && |PrimaryLog(m)| == |PrimaryLog(c)| + 1
    requires m.nodes[c.primary].commitIndex == c.nodes[c.primary].commitIndex
    requires CommittedAll(m, base, e, x + {c.primary})
    ensures OneMore(c, base, e, x + {c.primary})
  {
    hide Inv, AllCalled;
    SamePeers(c, m, {c.primary});
    QuietConcat(c, m, e, {c.primary}, x + {c.primary});
    assert {c.primary} + (x + {c.primary}) == x + {c.primary};
  }

  /** An idle primary can commit one more entry with the help of any backups that make a majority with it. */
  lemma SubmitAndCommit(c: Cluster, base: map<Id, Files>, submit: Step, todo: set<Id>) returns (steps: seq<Step>, e: Cluster)
    requires Inv(c, base) && AllCalled(c) && submit.Submit? && submit.persisted && Enabled(c, submit) && Regular(c, submit)
    requires todo <= Peers(c) && |todo| + 1 >= Majority(c)
    ensures Leads(c, steps, e) && OneMore(c, base, e, todo + {c.primary})
  {
    SubmitWaits(c, base, submit);
    hide Inv, AllCalled, CommittedAll, Next, Leads, OneMore, Enabled, Regular;
    var m := Next(c, submit);
    SamePeers(c, m, {c.primary});
    steps, e := CommitWith(m, base, todo);
    OneMoreFrom(c, base, m, e, todo);
    LeadsConcat(c, [submit], m, steps, e);
    steps := [submit] + steps;
  }

  lemma RaisesCommit(c: Cluster, steps: seq<Step>, e: Cluster)
    requires Leads(c, steps, e) && c.primary in e.nodes && e.nodes[c.primary].commitIndex > c.nodes[c.primary].commitIndex
    ensures CommitPossible(c)
  {}

  lemma CommitIsPossible(c: Cluster, base: map<Id, Files>)
    requires WellFormed(c) && Inv(c, base) && AllCalled(c) && PhaseOk(c) && |PrimaryLog(c)| + 1 < HALF32
    ensures CommitPossible(c)
  {
    hide Inv, AllCalled, PhaseOk, Leads, Next, CommitPossible;
    PeersAndPrimary(c);
    var steps, e;
    if c.phase.Collecting? {
      steps, e := CommitWith(c, base, Peers(c));
    } else {
      steps, e := SubmitAndCommit(c, base, Submit(WRITE, "", "", 0, true), Peers(c));
    }
    RaisesCommit(c, steps, e);
  }

  lemma InitialIsReady(c: Cluster, base: map<Id, Files>, steps: seq<Step>)
    requires Initial(c, base) && RegularRun(c, steps)
    ensures Inv(After(c, steps), base) && PhaseOk(After(c, steps))
    ensures NoFailedWrites(steps) || Peers(c) == {} ==> AllCalled(After(c, steps))
  {
    InitialInv(c, base);
    RunKeepsInv(c, base, steps);
    RunKeepsCalled(c, base, steps);
  }

  /** After a failed log write no continuation of the run commits anything, if there are two servers or more. */
  lemma FailedWriteEndsIt(c: Cluster, base: map<Id, Files>, steps: seq<Step>, i: nat, more: seq<Step>)
    requires WellFormed(c) && Initial(c, base) && RegularRun(c, steps) && |c.servers| >= 2
    requires i < |steps| && !NotFailed(steps[i]) && RegularRun(After(c, steps), more)
    ensures After(After(c, steps), more).nodes[c.primary].commitIndex == After(c, steps).nodes[c.primary].commitIndex
  {
    hide Next, Enabled, Regular, Inv, Initial;
    var before, after := steps[..i], steps[i + 1..];
    assert steps == before + ([steps[i]] + after);
    LeadsSplit(c, before, [steps[i]] + after);
    var m := After(c, before);
    FailedLogWriteEndsCommits(c, base, before, steps[i], after);
    LeadsConcat(m, [steps[i]] + after, After(c, steps), more, After(After(c, steps), more));
    assert [steps[i]] + after + more == [steps[i]] + (after + more);
    FailedLogWriteEndsCommits(c, base, before, steps[i], after + more);
  }

  /**
   * After any regular run, some regular continuation commits something more exactly when there is only one server or no log
   * write of the primary has failed. (The log must have room for one more entry. What runs with gaps do: see AllRuns.)
   */
  lemma CommitPossibleIff(c: Cluster, base: map<Id, Files>, steps: seq<Step>)
    requires Initial(c, base) && RegularRun(c, steps) && |PrimaryLog(After(c, steps))| + 1 < HALF32
    ensures CommitPossible(After(c, steps)) <==> |c.servers| == 1 || NoFailedWrites(steps)
  {
    PeersAndPrimary(c);
    if |c.servers| == 1 || NoFailedWrites(steps) {
      InitialIsReady(c, base, steps);
      CommitIsPossible(After(c, steps), base);
    } else {
      var i :| 0 <= i < |steps| && !NotFailed(steps[i]);
      forall more | RegularRun(After(c, steps), more)
        ensures After(After(c, steps), more).nodes[c.primary].commitIndex == After(c, steps).nodes[c.primary].commitIndex
      {
        FailedWriteEndsIt(c, base, steps, i, more);
      }
    }
  }

  // ---------- gaps and panics can be reached ----------

  /** After some regular run, a call can arrive that leaves a gap in a backup's log. */
  ghost predicate GapReachable(c: Cluster)
    requires WellFormed(c)
  {
    exists steps, m :: RegularRun(c, steps) && Enabled(After(c, steps), Deliver(m)) && !Regular(After(c, steps), Deliver(m))
  }

  lemma GiveUpWaiting(c: Cluster, base: map<Id, Files>)
    requires Waiting(c, base) && |c.phase.acks| < Majority(c)
    ensures var e := Next(c, GiveUp);
            Leads(c, [GiveUp], e) && Inv(e, base) && AllCalled(e) && e.phase == Idle && Quiet(c, e, {})
  {
    hide AllCalled, NodesOk, NetOk, QuorumsOk;
    StepKeepsInv(c, base, GiveUp);
    StepKeepsCalled(c, base, GiveUp);
    OneStep(c, GiveUp);
  }

  lemma DeliveryNeedsBackup(c: Cluster, m: Message)
    requires WellFormed(c) && Enabled(c, Deliver(m))
    ensures |c.servers| >= 2
  {
    PeersAndPrimary(c);
    assert m.to in Peers(c);
  }

  /** A gap can be reached exactly when there is a backup. */
  lemma GapReachableIff(c: Cluster, base: map<Id, Files>)
    requires Initial(c, base)
    ensures GapReachable(c) <==> |c.servers| >= 2
  {
    PeersAndPrimary(c);
    if |c.servers| >= 2 {
      var s :| s in Peers(c);
      var steps, m := GapAt(c, base, s);
    }
    if GapReachable(c) {
      var steps, m :| RegularRun(c, steps) && Enabled(After(c, steps), Deliver(m)) && !Regular(After(c, steps), Deliver(m));
      DeliveryNeedsBackup(After(c, steps), m);
    }
  }

  /** With two servers or more a Close can miss its majority. */
  lemma SubmitInVain(c: Cluster, base: map<Id, Files>, submit: Step) returns (steps: seq<Step>, e: Cluster)
    requires Inv(c, base) && AllCalled(c) && submit.Submit? && submit.persisted && Enabled(c, submit) && Regular(c, submit)
    requires |c.servers| >= 2
    ensures Leads(c, steps, e) && Inv(e, base) && AllCalled(e) && e.phase == Idle && Quiet(c, e, {c.primary})
    ensures |PrimaryLog(e)| == |PrimaryLog(c)| + 1
  {
    hide Inv, AllCalled, Next, Leads, Regular, PhaseOk;
    SubmitWaits(c, base, submit);
    var m := Next(c, submit);
    SamePeers(c, m, {c.primary});
    GiveUpWaiting(m, base);
    e := Next(m, GiveUp);
    LeadsConcat(c, [submit], m, [GiveUp], e);
    QuietConcat(c, m, e, {c.primary}, {});
    assert {c.primary} + {} == {c.primary};
    SamePeers(m, e, {});
    steps := [submit] + [GiveUp];
  }

  /** The first Close misses its majority, and the second one's call overtakes the first one's. */
  lemma GapAt(c: Cluster, base: map<Id, Files>, s: Id) returns (steps: seq<Step>, m: Message)
    requires Initial(c, base) && s in Peers(c) && |c.servers| >= 2
    ensures RegularRun(c, steps) && Enabled(After(c, steps), Deliver(m)) && !Regular(After(c, steps), Deliver(m))
  {
    var submit := Submit(WRITE, "", "", 0, true);
    InitialIsReady(c, base, []);
    var log := c.nodes[s].log;
    assert log == [] && |PrimaryLog(c)| == 0;
    hide Initial, Inv, AllCalled, Next, Leads;
    var first, c1 := SubmitInVain(c, base, submit);
    var second, c2 := SubmitInVain(c1, base, submit);
    LeadsConcat(c, first, c1, second, c2);
    steps := first + second;
    m := SecondCall(c2, base, s);
    assert RegularRun(c, steps) && After(c, steps) == c2 by {
      LeadsMeans(c, steps, c2);
    }
  }

  lemma LeadsMeans(c: Cluster, steps: seq<Step>, e: Cluster)
    requires Leads(c, steps, e)
    ensures WellFormed(c) && RegularRun(c, steps) && After(c, steps) == e
  {}

  lemma SecondCall(c: Cluster, base: map<Id, Files>, s: Id) returns (m: Message)
    requires WellFormed(c) && Inv(c, base) && AllCalled(c) && s in Peers(c) && |PrimaryLog(c)| == 2
    ensures Enabled(c, Deliver(m)) && m.entry.index == 2 && m.to == s
  {
    assert Called(c, s, 1);
    var commit: int :| AppendMsg(s, PrimaryLog(c)[1], commit) in c.net;
    m := AppendMsg(s, PrimaryLog(c)[1], commit);
  }

  /** After some regular run, one call that leaves a gap makes a backup panic. */
  ghost predicate PanicByOneGap(c: Cluster)
    requires WellFormed(c)
  {
    exists steps, m :: RegularRun(c, steps) && Enabled(After(c, steps), Deliver(m)) && Panics(After(c, steps), m)
  }

  predicate Panics(c: Cluster, m: Message)
    requires WellFormed(c) && Enabled(c, Deliver(m))
  {
    !AppendEntries(c.nodes[m.to], [m.entry], m.commit).1
  }

  /** With two servers both hold everything committed, so no call can panic. */
  lemma PanicNeedsThree(c: Cluster, base: map<Id, Files>, m: Message)
    requires Inv(c, base) && Enabled(c, Deliver(m)) && Panics(c, m)
    ensures |c.servers| >= 3
  {
    var s := m.to;
    var n := c.nodes[c.primary].commitIndex;
    DeliveryNeedsBackup(c, m);
    assert MessageOk(c, m) && NodeOk(c, base[s], s);
    AppendAllExtends(c.nodes[s].log, [m.entry]);
    PanicsIffCommitPastLog(c.nodes[s], [m.entry], m.commit);
    if |c.servers| == 2 && n > 0 {
      SubsetSize(Reaching(c, n), c.servers);
      SubsetOfSameSize(Reaching(c, n), c.servers);
    }
  }

  /** Two entries are committed without s. */
  lemma TwoWithout(c: Cluster, base: map<Id, Files>, s: Id) returns (steps: seq<Step>, e: Cluster)
    requires WellFormed(c) && Inv(c, base) && AllCalled(c) && c.phase == Idle
    requires s in Peers(c) && |c.servers| >= 3 && |PrimaryLog(c)| == 0
    ensures Leads(c, steps, e) && Quiet(c, e, c.servers - {s}) && Inv(e, base)
    ensures |PrimaryLog(e)| == 2 && AppendMsg(s, PrimaryLog(e)[1], 2) in e.net
  {
    var submit := Submit(WRITE, "", "", 0, true);
    var others := Peers(c) - {s};
    PeersAndPrimary(c);
    assert Peers(c) == others + {s} && others + {c.primary} == c.servers - {s};
    hide Inv, AllCalled, Next, Leads, Peers, Quiet;
    var first, c1 := SubmitAndCommit(c, base, submit, others);
    SamePeers(c, c1, others + {c.primary});
    SameServers(c, c1, others + {c.primary});
    var second, c2 := SubmitAndCommit(c1, base, submit, others);
    LeadsConcat(c, first, c1, second, c2);
    QuietConcat(c, c1, c2, c.servers - {s}, c.servers - {s});
    assert c.servers - {s} + (c.servers - {s}) == c.servers - {s};
    steps, e := first + second, c2;
  }

  lemma SameServers(c: Cluster, m: Cluster, x: set<Id>)
    requires Quiet(c, m, x)
    ensures m.servers == c.servers && m.primary == c.primary
  {}

  /** The first call that s gets is then the commit of the second entry. */
  lemma PanicAt(c: Cluster, base: map<Id, Files>, s: Id) returns (steps: seq<Step>, m: Message)
    requires Initial(c, base) && s in Peers(c) && |c.servers| >= 3
    ensures RegularRun(c, steps) && Enabled(After(c, steps), Deliver(m)) && Panics(After(c, steps), m)
  {
    InitialIsReady(c, base, []);
    assert c.nodes[s].log == [] && |PrimaryLog(c)| == 0;
    hide Initial, Inv, AllCalled, Next, Leads, RegularRun, After;
    var e;
    steps, e := TwoWithout(c, base, s);
    LeadsMeans(c, steps, e);
    m := AppendMsg(s, PrimaryLog(e)[1], 2);
    CommitPastLogPanics(e, base, m);
  }

  lemma CommitPastLogPanics(c: Cluster, base: map<Id, Files>, m: Message)
    requires Inv(c, base) && Enabled(c, Deliver(m)) && c.nodes[m.to].log == [] && m.commit == 2
    ensures Panics(c, m)
  {
    assert NodeOk(c, base[m.to], m.to);
    AppendOne([], m.entry);
    PanicsIffCommitPastLog(c.nodes[m.to], [m.entry], 2);
  }

  /** One gap can make a backup panic exactly when there are three servers or more. */
  lemma PanicByOneGapIff(c: Cluster, base: map<Id, Files>)
    requires Initial(c, base)
    ensures PanicByOneGap(c) <==> |c.servers| >= 3
  {
    PeersAndPrimary(c);
    if |c.servers| >= 3 {
      var s :| s in Peers(c);
      var steps, m := PanicAt(c, base, s);
    }
    if PanicByOneGap(c) {
      var steps, m :| RegularRun(c, steps) && Enabled(After(c, steps), Deliver(m)) && Panics(After(c, steps), m);
      InitialIsReady(c, base, steps);
      PanicNeedsThree(After(c, steps), base, m);
    }
  }
}
