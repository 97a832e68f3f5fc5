// From the payload of a Close to the files of a backup: runs of Close requests on the primary together with the messages
// of the cluster (server_basics.go:847-948, server_replication.go:405-456).
module EndToEnd {
  import opened Basics
  import opened Words
  import opened NumberText
  import opened Replica
  import S = Server
  import P = PrimeFiles
  import C = Cluster
  import A = Availability

  /** One Close on the primary, or other activity, and the deliveries and counted acknowledgements that happen meanwhile. */
  datatype Segment = Segment(step: P.Step, network: seq<C.Step>)

  predicate IsNetwork(steps: seq<C.Step>)
  {
    forall i :: 0 <= i < |steps| ==> steps[i].Deliver? || steps[i].Count?
  }

  /** The entry a Close submits to the cluster, if it gets that far. */
  function Submitted(h: P.History, step: P.Step, servers: nat): seq<C.Step>
  {
    match step
    case CloseStep(req, env, order) =>
      if S.Logs(S.Close(h.p, req, servers, env, order).1, req.dirty) then
        var e := P.Logged(h, req, order);
        [C.Submit(e.op, e.filename, e.content, e.version, env.persisted)]
      else []
    case OtherStep(_) => []
  }

  /** The cluster when the Close stops waiting. */
  function Later(h: P.History, c: C.Cluster, seg: Segment): C.Cluster
    requires C.WellFormed(c) && C.RegularRun(c, Submitted(h, seg.step, |c.servers|) + seg.network)
  {
    C.After(c, Submitted(h, seg.step, |c.servers|) + seg.network)
  }

  /** The acknowledgements that Close receives in time are those that the cluster has counted. */
  predicate AcksAgree(seg: Segment, later: C.Cluster)
  {
    seg.step.CloseStep? && later.phase.Collecting? ==>
      S.Acks(seg.step.env.events) == |later.phase.acks - {later.primary}|
  }

  ghost predicate Enabled(h: P.History, c: C.Cluster, seg: Segment)
  {
    && C.WellFormed(c) && P.Enabled(h.p, seg.step, |c.servers|) && IsNetwork(seg.network)
    && C.RegularRun(c, Submitted(h, seg.step, |c.servers|) + seg.network)
    && AcksAgree(seg, Later(h, c, seg))
  }

  /** The primary commits if it can, and gives up otherwise. */
  function Settled(c: C.Cluster): (e: C.Cluster)
    requires C.WellFormed(c)
    ensures C.WellFormed(e) && e.servers == c.servers && e.primary == c.primary
  {
    if C.Enabled(c, C.Commit) then C.Next(c, C.Commit)
    else if C.Enabled(c, C.GiveUp) then C.Next(c, C.GiveUp)
    else c
  }

  ghost predicate ValidRun(h: P.History, c: C.Cluster, segs: seq<Segment>)
    decreases segs
  {
    segs == [] ||
    (Enabled(h, c, segs[0]) && ValidRun(P.Next(h, segs[0].step, |c.servers|), Settled(Later(h, c, segs[0])), segs[1..]))
  }

  ghost function After(h: P.History, c: C.Cluster, segs: seq<Segment>): (r: (P.History, C.Cluster))
    requires ValidRun(h, c, segs)
    ensures C.WellFormed(c) ==> C.WellFormed(r.1) && r.1.servers == c.servers && r.1.primary == c.primary
    decreases segs
  {
    if segs == [] then (h, c) else After(P.Next(h, segs[0].step, |c.servers|), Settled(Later(h, c, segs[0])), segs[1..])
  }

  // ---------- the two views stay joined ----------

  /** The server that runs the Closes is the primary of the cluster. */
  ghost predicate Joined(h: P.History, c: C.Cluster)
  {
    C.WellFormed(c) && h.p.r == c.nodes[c.primary] && c.phase == C.Idle
  }

  /** What Close does to the log is AppendAndCommit, or nothing. */
  lemma CloseLog(h: P.History, req: S.CloseRequest, env: S.Env, order: seq<uint64>, servers: nat)
    ensures var (p, outcome) := S.Close(h.p, req, servers, env, order);
            var (r, failure) := S.AppendAndCommit(h.p.r, P.Logged(h, req, order), servers, env);
            if S.Logs(outcome, req.dirty) then p.r == r else p.r == h.p.r
  {
    hide Print, Wrap32, S.Numbers, ApplyCommitted, S.Acks;
  }

  /** Deliveries and counting leave the primary and its phase alone. */
  lemma {:induction false} NetworkLeavesPrimary(c: C.Cluster, steps: seq<C.Step>)
    requires C.WellFormed(c) && C.RegularRun(c, steps) && IsNetwork(steps)
    ensures var e := C.After(c, steps);
            && e.servers == c.servers && e.primary == c.primary && e.nodes[c.primary] == c.nodes[c.primary]
            && (c.phase == C.Idle ==> e.phase == C.Idle)
            && (c.phase.Collecting? ==> e.phase.Collecting? && c.phase.acks <= e.phase.acks)
    decreases steps
  {
    if steps != [] {
      assert steps[0].Deliver? || steps[0].Count?;
      NetworkStep(c, steps[0]);
      hide C.Next, C.Enabled, C.Regular;
      NetworkLeavesPrimary(C.Next(c, steps[0]), steps[1..]);
    }
  }

  lemma NetworkStep(c: C.Cluster, step: C.Step)
    requires C.WellFormed(c) && C.Enabled(c, step) && (step.Deliver? || step.Count?)
    ensures var e := C.Next(c, step);
            && e.servers == c.servers && e.primary == c.primary && e.nodes[c.primary] == c.nodes[c.primary]
            && (c.phase == C.Idle ==> e.phase == C.Idle)
            && (c.phase.Collecting? ==> e.phase.Collecting? && c.phase.acks <= e.phase.acks)
  {}

  lemma SettledIdle(c: C.Cluster)
    requires C.WellFormed(c) && c.phase == C.Idle
    ensures Settled(c) == c
  {}

  lemma SettledAfterSubmit(c: C.Cluster, submit: C.Step, later: C.Cluster, env: S.Env)
    requires C.WellFormed(c) && c.phase == C.Idle && submit.Submit? && C.Enabled(c, submit) && submit.persisted == env.persisted
    requires C.WellFormed(later) && later.primary == c.primary && later.servers == c.servers
    requires later.nodes[c.primary] == C.Next(c, submit).nodes[c.primary]
    requires !env.persisted ==> later.phase == C.Idle
    requires env.persisted ==> later.phase.Collecting? && c.primary in later.phase.acks
    requires env.persisted ==> S.Acks(env.events) == |later.phase.acks - {c.primary}|
    ensures var e := LogEntry(|C.PrimaryLog(c)| + 1, submit.op, submit.filename, submit.content, submit.version);
            && Settled(later).phase == C.Idle
            && Settled(later).nodes[c.primary] == S.AppendAndCommit(c.nodes[c.primary], e, |c.servers|, env).0
  {
    C.CloseTakesTheseSteps(c, submit, later, env);
    hide CommitLocal, C.ToPeers, ApplyCommitted;
  }

  /** Some regular run of the cluster leads from c to e. */
  ghost predicate Reaches(c: C.Cluster, e: C.Cluster)
  {
    exists steps :: A.Leads(c, steps, e)
  }

  lemma ReachesNext(c: C.Cluster, steps: seq<C.Step>, later: C.Cluster, step: C.Step)
    requires A.Leads(c, steps, later) && C.WellFormed(later) && C.Enabled(later, step) && C.Regular(later, step)
    ensures Reaches(c, C.Next(later, step))
  {
    hide A.Leads, C.Enabled, C.Regular, C.Next;
    A.OneStep(later, step);
    A.LeadsConcat(c, steps, later, [step], C.Next(later, step));
  }

  lemma ReachesSettled(c: C.Cluster, steps: seq<C.Step>)
    requires C.WellFormed(c) && C.RegularRun(c, steps)
    ensures Reaches(c, Settled(C.After(c, steps)))
  {
    var later := C.After(c, steps);
    assert A.Leads(c, steps, later);
    hide A.Leads, C.Next, C.Enabled, Reaches;
    if C.Enabled(later, C.Commit) {
      ReachesNext(c, steps, later, C.Commit);
    } else if C.Enabled(later, C.GiveUp) {
      ReachesNext(c, steps, later, C.GiveUp);
    } else {
      assert Reaches(c, later) by {
        LeadsReaches(c, steps, later);
      }
    }
  }

  lemma LeadsReaches(c: C.Cluster, steps: seq<C.Step>, e: C.Cluster)
    requires A.Leads(c, steps, e)
    ensures Reaches(c, e)
  {}

  /** The primary and the phase between the submission and the end of the wait. */
  lemma WhileWaiting(c: C.Cluster, submit: C.Step, network: seq<C.Step>)
    requires C.WellFormed(c) && c.phase == C.Idle && submit.Submit? && IsNetwork(network)
    requires C.RegularRun(c, [submit] + network)
    ensures C.Enabled(c, submit)
    ensures var later := C.After(c, [submit] + network);
            && later.primary == c.primary && later.servers == c.servers
            && later.nodes[c.primary] == C.Next(c, submit).nodes[c.primary]
            && (if submit.persisted then later.phase.Collecting? && c.primary in later.phase.acks else later.phase == C.Idle)
  {
    hide C.Enabled, C.Regular, C.Next;
    A.LeadsSplit(c, [submit], network);
    SubmitOnly(c, submit);
    NetworkLeavesPrimary(C.Next(c, submit), network);
  }

  /** A Close that gets to log an entry. */
  lemma SubmittedKeepsJoined(h: P.History, c: C.Cluster, seg: Segment)
    requires Joined(h, c) && Enabled(h, c, seg) && Submitted(h, seg.step, |c.servers|) != []
    ensures Joined(P.Next(h, seg.step, |c.servers|), Settled(Later(h, c, seg)))
  {
    hide S.Close, P.Logged, C.Enabled, C.Regular, Settled, S.AppendAndCommit, C.Next, C.RegularRun, C.After, IsNetwork;
    var (req, env, order) := (seg.step.req, seg.step.env, seg.step.order);
    var submit := Submitted(h, seg.step, |c.servers|)[0];
    assert Submitted(h, seg.step, |c.servers|) == [submit];
    WhileWaiting(c, submit, seg.network);
    LoggedIndex(h, req, order);
    SettledAfterSubmit(c, submit, Later(h, c, seg), env);
    CloseLog(h, req, env, order, |c.servers|);
  }

  /** Anything else on the primary leaves its log alone. */
  lemma OthersKeepJoined(h: P.History, c: C.Cluster, seg: Segment)
    requires Joined(h, c) && Enabled(h, c, seg) && Submitted(h, seg.step, |c.servers|) == []
    ensures Joined(P.Next(h, seg.step, |c.servers|), Settled(Later(h, c, seg)))
  {
    hide S.Close, P.Logged, C.Enabled, C.Regular, Settled, S.AppendAndCommit, C.Next;
    assert [] + seg.network == seg.network;
    NetworkLeavesPrimary(c, seg.network);
    SettledIdle(Later(h, c, seg));
    hide C.RegularRun, C.After;
    if seg.step.CloseStep? {
      CloseLog(h, seg.step.req, seg.step.env, seg.step.order, |c.servers|);
    }
  }

  lemma SegmentKeepsJoined(h: P.History, c: C.Cluster, seg: Segment)
    requires Joined(h, c) && Enabled(h, c, seg)
    ensures Joined(P.Next(h, seg.step, |c.servers|), Settled(Later(h, c, seg)))
    ensures Settled(Later(h, c, seg)).servers == c.servers && Settled(Later(h, c, seg)).primary == c.primary
  {
    hide P.Next, Submitted, Joined;
    if Submitted(h, seg.step, |c.servers|) != [] {
      SubmittedKeepsJoined(h, c, seg);
    } else {
      OthersKeepJoined(h, c, seg);
    }
  }

  lemma LoggedIndex(h: P.History, req: S.CloseRequest, order: seq<uint64>)
    ensures P.Logged(h, req, order).index == |h.p.r.log| + 1
  {}

  lemma SubmitOnly(c: C.Cluster, submit: C.Step)
    requires C.WellFormed(c) && C.RegularRun(c, [submit]) && submit.Submit?
    ensures C.Enabled(c, submit) && C.After(c, [submit]) == C.Next(c, submit)
    ensures C.Next(c, submit).phase == if submit.persisted then C.Collecting({c.primary}) else c.phase
  {
    assert [submit][1..] == [];
  }

  // ---------- runs ----------

  function Steps(segs: seq<Segment>): seq<P.Step>
  {
    if segs == [] then [] else [segs[0].step] + Steps(segs[1..])
  }

  /** Its two halves: a run of Closes, and a regular run of the cluster. */
  lemma {:induction false} RunSplits(h: P.History, c: C.Cluster, segs: seq<Segment>)
    requires Joined(h, c) && ValidRun(h, c, segs)
    ensures var (h', c') := After(h, c, segs);
            && Joined(h', c') && c'.servers == c.servers && c'.primary == c.primary && Reaches(c, c')
            && P.ValidRun(h, Steps(segs), |c.servers|) && P.After(h, Steps(segs), |c.servers|) == h'
    decreases segs
  {
    if segs == [] {
      A.LeadsNowhere(c);
      LeadsReaches(c, [], c);
    } else {
      var h1, c1 := P.Next(h, segs[0].step, |c.servers|), Settled(Later(h, c, segs[0]));
      SegmentKeepsJoined(h, c, segs[0]);
      ReachesSettled(c, Submitted(h, segs[0].step, |c.servers|) + segs[0].network);
      hide P.Next, P.Enabled, C.RegularRun, C.After, Settled, Submitted, Joined, Reaches, AcksAgree, IsNetwork;
      RunSplits(h1, c1, segs[1..]);
      ReachesTransitive(c, c1, After(h, c, segs).1);
      assert Steps(segs)[1..] == Steps(segs[1..]);
    }
  }

  lemma ReachesTransitive(c: C.Cluster, m: C.Cluster, e: C.Cluster)
    requires Reaches(c, m) && Reaches(m, e)
    ensures Reaches(c, e)
  {
    hide A.Leads;
    var a :| A.Leads(c, a, m);
    var b :| A.Leads(m, b, e);
    A.LeadsConcat(c, a, m, b, e);
  }

  /** Fresh logs, no prime sets, and the primary's own files to start from. */
  ghost predicate Initial(h: P.History, c: C.Cluster, base: map<C.Id, Files>)
  {
    C.Initial(c, base) && Joined(h, c) && P.Initial(h, base[c.primary])
  }

  /** A file system that serves file f as the primary must: every confirmed number, no number that was not accepted, none twice. */
  ghost predicate Serves(h: P.History, files: Files, f: string)
  {
    S.SetOf(h.confirmed, f) != {} ==> f in files && P.Faithful(h, f, files[f])
  }

  lemma PrimaryServes(h: P.History, c: C.Cluster, base: map<C.Id, Files>, segs: seq<Segment>, f: string)
    requires Initial(h, c, base) && ValidRun(h, c, segs)
    ensures var (h', c') := After(h, c, segs);
            Serves(h', h'.p.r.files, f) && h'.p.r == c'.nodes[c.primary]
  {
    RunSplits(h, c, segs);
    P.ConfirmedWithinFileWithinAccepted(h, base[c.primary], Steps(segs), |c.servers|, f);
  }

  lemma PrimaryIsUpToDate(h: P.History, c: C.Cluster, base: map<C.Id, Files>, segs: seq<Segment>)
    requires Initial(h, c, base) && ValidRun(h, c, segs)
    ensures var h' := After(h, c, segs).0; h'.p.r.lastApplied == h'.p.r.commitIndex <= |h'.p.r.log|
  {
    RunSplits(h, c, segs);
    forall g
      ensures P.FileOk(h, base[c.primary], g) && P.SetOk(h, g)
    {}
    P.RunKeepsInv(h, base[c.primary], Steps(segs), |c.servers|);
  }

  /**
   * A backup that has applied up to the primary's commit index serves what clients were promised: in whatever file a payload
   * was confirmed, it has every confirmed number, each once, and none that was not accepted.
   */
  lemma ConfirmedIsOnBackups(h: P.History, c: C.Cluster, base: map<C.Id, Files>, segs: seq<Segment>, s: C.Id, f: string)
    requires Initial(h, c, base) && ValidRun(h, c, segs) && s in c.servers && base[s] == base[c.primary]
    requires var c' := After(h, c, segs).1;
             c'.nodes[s].lastApplied == c'.nodes[c.primary].commitIndex
    ensures var (h', c') := After(h, c, segs);
            c'.nodes[s].files == c'.nodes[c.primary].files && Serves(h', c'.nodes[s].files, f)
  {
    RunSplits(h, c, segs);
    PrimaryServes(h, c, base, segs, f);
    PrimaryIsUpToDate(h, c, base, segs);
    var c' := After(h, c, segs).1;
    var steps :| A.Leads(c, steps, c');
    C.EquallyAppliedServersAgree(c, base, steps, s, c.primary);
  }

  /**
   * And every majority has a server from whose log alone the promise can be kept: replaying its committed part over the
   * start files gives files that serve every confirmed number.
   */
  lemma ConfirmedSurvivesInMajority(h: P.History, c: C.Cluster, base: map<C.Id, Files>, segs: seq<Segment>, quorum: set<C.Id>)
    returns (s: C.Id)
    requires Initial(h, c, base) && ValidRun(h, c, segs)
    requires quorum <= c.servers && |quorum| >= C.Majority(c)
    ensures var (h', c') := After(h, c, segs);
            && s in quorum && h'.p.r.commitIndex <= |c'.nodes[s].log|
            && forall f :: Serves(h', Replay(base[c.primary], c'.nodes[s].log[..h'.p.r.commitIndex]), f)
  {
    RunSplits(h, c, segs);
    PrimaryIsUpToDate(h, c, base, segs);
    var (h', c') := After(h, c, segs);
    var steps :| A.Leads(c, steps, c');
    s := C.MajorityKnowsCommitted(c, base, steps, quorum);
    C.FilesAreReplayedLog(c, base, steps, c.primary);
    var n := h'.p.r.commitIndex;
    hide Serves, C.RegularRun, C.After, P.Initial;
    assert c'.nodes[s].log[..n] == h'.p.r.log[..n];
    forall f
      ensures Serves(h', h'.p.r.files, f)
    {
      PrimaryServes(h, c, base, segs, f);
    }
  }
}
