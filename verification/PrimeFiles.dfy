// What a file contains after any run of non-overlapping Close requests on the primary (server_basics.go:847-948):
// every number of every payload that was confirmed, no number that was never accepted, each number once.
module PrimeFiles {
  import opened Words
  import opened NumberText
  import opened Replica
  import opened Server

  /** A server's state with the history of its payloads, by file: those accepted for logging, those confirmed to the client. */
  datatype History = History(p: Primary, accepted: map<string, set<uint64>>, confirmed: map<string, set<uint64>>)

  /** One Close with all that the world contributes to it, or any other activity that leaves log, files and prime sets alone. */
  datatype Step = CloseStep(req: CloseRequest, env: Env, order: seq<uint64>) | OtherStep(after: Primary)

  /** The name of the file a request closes. */
  function Target(p: Primary, req: CloseRequest): string
  {
    if req.fd in p.open then p.open[req.fd].filename else ""
  }

  ghost predicate Enabled(p: Primary, step: Step, servers: nat)
  {
    match step
    case CloseStep(req, env, order) =>
      Logs(Close(p, req, servers, env, order).1, req.dirty) ==>
        IsListing(order, SetOf(p.sets, Target(p, req)) + Numbers(req.data))
    case OtherStep(after) =>
      after.r == p.r && after.sets == p.sets
  }

  function Record(history: map<string, set<uint64>>, f: string, nums: set<uint64>): map<string, set<uint64>>
  {
    history[f := SetOf(history, f) + nums]
  }

  function Next(h: History, step: Step, servers: nat): History
  {
    match step
    case CloseStep(req, env, order) =>
      var (p, outcome) := Close(h.p, req, servers, env, order);
      var f := Target(h.p, req);
      History(p,
              if Logs(outcome, req.dirty) then Record(h.accepted, f, Numbers(req.data)) else h.accepted,
              if outcome.Closed? && req.dirty then Record(h.confirmed, f, Numbers(req.data)) else h.confirmed)
    case OtherStep(after) =>
      h.(p := after)
  }

  ghost predicate ValidRun(h: History, steps: seq<Step>, servers: nat)
    decreases steps
  {
    steps == [] || (Enabled(h.p, steps[0], servers) && ValidRun(Next(h, steps[0], servers), steps[1..], servers))
  }

  function After(h: History, steps: seq<Step>, servers: nat): History
    decreases steps
  {
    if steps == [] then h else After(Next(h, steps[0], servers), steps[1..], servers)
  }

  // ---------- the invariant ----------

  /** A listing of a set that lies between the confirmed and the accepted numbers of a file. */
  ghost predicate Faithful(h: History, f: string, content: string)
  {
    && (forall i, j :: 0 <= i < j < |Parse(content)| ==> Parse(content)[i] != Parse(content)[j])
    && SetOf(h.confirmed, f) <= Numbers(content) <= SetOf(h.accepted, f)
  }

  /** No entry for the file has been applied yet. */
  ghost predicate Untouched(h: History, base: Files, f: string)
  {
    && SetOf(h.confirmed, f) == {}
    && (f in h.p.r.files <==> f in base)
    && (f in base ==> h.p.r.files[f] == base[f])
  }

  ghost predicate FileOk(h: History, base: Files, f: string)
  {
    Untouched(h, base, f) || (f in h.p.r.files && Faithful(h, f, h.p.r.files[f]))
  }

  ghost predicate SetOk(h: History, f: string)
  {
    if f in h.p.sets then SetOf(h.confirmed, f) <= h.p.sets[f] <= SetOf(h.accepted, f)
    else SetOf(h.confirmed, f) == {}
  }

  /** Entries logged but not applied are already faithful: whenever one is applied, its file becomes faithful. */
  ghost predicate PendingOk(h: History, i: int)
    requires 0 <= i < |h.p.r.log|
  {
    h.p.r.log[i].op == WRITE && Faithful(h, h.p.r.log[i].filename, h.p.r.log[i].content)
  }

  ghost predicate Inv(h: History, base: Files)
  {
    && h.p.r.lastApplied == h.p.r.commitIndex <= |h.p.r.log|
    && (forall f :: FileOk(h, base, f) && SetOk(h, f))
    && (forall i :: h.p.r.lastApplied <= i < |h.p.r.log| ==> PendingOk(h, i))
  }

  /** A start without prime sets: nothing is pending, and no payload has been seen. */
  ghost predicate Initial(h: History, base: Files)
  {
    && h.p.r.files == base && h.p.sets == map[] && h.accepted == map[] && h.confirmed == map[]
    && h.p.r.lastApplied == h.p.r.commitIndex == |h.p.r.log|
  }

  // ---------- listings ----------

  lemma ListingOfPrint(order: seq<uint64>, s: set<uint64>)
    requires IsListing(order, s)
    ensures Parse(Print(order)) == order && Numbers(Print(order)) == s
  {
    RoundTrip(order);
    forall x
      ensures x in Elements(order) <==> x in s
    {
      assert x in Elements(order) <==> x in order;
    }
  }

  // ---------- applying pending entries ----------

  /** Files that result from applying faithful entries are as they were, or faithful. */
  lemma {:induction false} ReplayKeepsFilesOk(h: History, base: Files, log: seq<LogEntry>)
    requires forall f :: FileOk(h, base, f)
    requires forall i :: 0 <= i < |log| ==> log[i].op == WRITE && Faithful(h, log[i].filename, log[i].content)
    ensures forall f :: FileOk(h.(p := h.p.(r := h.p.r.(files := Replay(h.p.r.files, log)))), base, f)
  {
    if log != [] {
      var init := log[..|log| - 1];
      ReplayKeepsFilesOk(h, base, init);
      var before := h.(p := h.p.(r := h.p.r.(files := Replay(h.p.r.files, init))));
      var after := h.(p := h.p.(r := h.p.r.(files := Replay(h.p.r.files, log))));
      var last := log[|log| - 1];
      forall f
        ensures FileOk(after, base, f)
      {
        assert FileOk(before, base, f);
        if f == last.filename {
          assert Faithful(after, f, last.content);
        } else {
          assert f in after.p.r.files <==> f in before.p.r.files;
        }
      }
    }
  }

  // ---------- steps ----------

  /** Everything that was faithful stays so when more payloads are accepted. */
  lemma AcceptMore(h: History, base: Files, f: string, nums: set<uint64>)
    requires Inv(h, base)
    ensures Inv(h.(accepted := Record(h.accepted, f, nums)), base)
  {
    var h' := h.(accepted := Record(h.accepted, f, nums));
    forall g
      ensures SetOf(h.accepted, g) <= SetOf(h'.accepted, g)
      ensures FileOk(h', base, g) && SetOk(h', g)
    {
      assert FileOk(h, base, g) && SetOk(h, g);
    }
    forall i | h.p.r.lastApplied <= i < |h.p.r.log|
      ensures PendingOk(h', i)
    {
      assert PendingOk(h, i);
    }
  }

  /** The state after the append: the payload is accepted, the entry pending, an existing set merged. */
  function Appended(h: History, f: string, data: string, e: LogEntry, persisted: bool): History
  {
    var merged := SetOf(h.p.sets, f) + Numbers(data);
    History(h.p.(r := AppendLocal(h.p.r, e, persisted), sets := if f in h.p.sets then h.p.sets[f := merged] else h.p.sets),
            Record(h.accepted, f, Numbers(data)), h.confirmed)
  }

  lemma AppendKeepsInv(h: History, base: Files, f: string, data: string, e: LogEntry, persisted: bool, order: seq<uint64>)
    requires Inv(h, base)
    requires IsListing(order, SetOf(h.p.sets, f) + Numbers(data))
    requires e.op == WRITE && e.filename == f && e.content == Print(order)
    ensures Inv(Appended(h, f, data, e, persisted), base) && h.p.r.lastApplied <= |h.p.r.log|
    ensures Numbers(e.content) == SetOf(h.p.sets, f) + Numbers(data)
  {
    var m := h.(accepted := Record(h.accepted, f, Numbers(data)));
    var h' := Appended(h, f, data, e, persisted);
    AcceptMore(h, base, f, Numbers(data));
    assert SetOk(h, f);
    ListingOfPrint(order, SetOf(h.p.sets, f) + Numbers(data));
    forall g
      ensures FileOk(h', base, g) && SetOk(h', g)
    {
      assert FileOk(m, base, g) && SetOk(m, g);
    }
    forall i | h'.p.r.lastApplied <= i < |h'.p.r.log|
      ensures PendingOk(h', i)
    {
      if i < |h.p.r.log| {
        assert PendingOk(m, i);
      } else {
        assert Faithful(h', f, e.content);
      }
    }
  }

  /** The state after the commit of the last entry: it is applied, its payload confirmed, its set kept. */
  function Committed(h: History, f: string, nums: set<uint64>, merged: set<uint64>): History
  {
    History(h.p.(r := CommitLocal(h.p.r, |h.p.r.log|).0, sets := h.p.sets[f := merged]), h.accepted, Record(h.confirmed, f, nums))
  }

  lemma CommitKeepsInv(h: History, base: Files, f: string, nums: set<uint64>, merged: set<uint64>)
    requires Inv(h, base) && h.p.r.lastApplied < |h.p.r.log|
    requires var e := h.p.r.log[|h.p.r.log| - 1];
             e.filename == f && Numbers(e.content) == merged && nums <= merged
    ensures Inv(Committed(h, f, nums, merged), base)
    ensures f in Committed(h, f, nums, merged).p.r.files && Numbers(Committed(h, f, nums, merged).p.r.files[f]) == merged
  {
    var n, a := |h.p.r.log|, h.p.r.lastApplied;
    var h' := Committed(h, f, nums, merged);
    var e := h.p.r.log[n - 1];
    assert PendingOk(h, n - 1);
    var pending := h.p.r.log[a..n];
    forall i | 0 <= i < |pending|
      ensures pending[i].op == WRITE && Faithful(h, pending[i].filename, pending[i].content)
    {
      assert PendingOk(h, a + i);
    }
    ReplayKeepsFilesOk(h, base, pending);
    var mid := h.(p := h.p.(r := h.p.r.(files := Replay(h.p.r.files, pending))));
    assert h'.p.r.files == mid.p.r.files && h'.p.r.files[f] == e.content;
    forall g
      ensures FileOk(h', base, g) && SetOk(h', g)
    {
      assert FileOk(mid, base, g) && SetOk(h, g);
      if g == f {
        assert Faithful(h', f, e.content);
      }
    }
  }

  /** The invariant speaks only of the log, the files, the sets and the history. */
  predicate SameView(h: History, h': History)
  {
    h'.p.r == h.p.r && h'.p.sets == h.p.sets && h'.accepted == h.accepted && h'.confirmed == h.confirmed
  }

  lemma SameViewKeepsInv(h: History, h': History, base: Files)
    requires Inv(h, base) && SameView(h, h')
    ensures Inv(h', base)
  {
    forall f
      ensures FileOk(h', base, f) && SetOk(h', f)
    {
      assert FileOk(h, base, f) && SetOk(h, f);
    }
    forall i | h'.p.r.lastApplied <= i < |h'.p.r.log|
      ensures PendingOk(h', i)
    {
      assert PendingOk(h, i);
    }
  }

  /** The entry a Close logs, if it gets to log one. */
  function Logged(h: History, req: CloseRequest, order: seq<uint64>): LogEntry
  {
    var f := Target(h.p, req);
    CloseEntry(h.p.(versions := h.p.versions[f := VersionOf(h.p.versions, f)]), f, order)
  }

  /** A Close does nothing to log, files and sets, or appends, or appends and commits. */
  lemma CloseView(h: History, req: CloseRequest, env: Env, order: seq<uint64>, servers: nat)
    ensures var (h', outcome) := (Next(h, CloseStep(req, env, order), servers), Close(h.p, req, servers, env, order).1);
            var f := Target(h.p, req);
            var appended := Appended(h, f, req.data, Logged(h, req, order), env.persisted);
            var committed := Committed(appended, f, Numbers(req.data), SetOf(h.p.sets, f) + Numbers(req.data));
            if !Logs(outcome, req.dirty) then SameView(h, h')
            else if outcome.Closed? then SameView(committed, h')
            else SameView(appended, h')
  {
    hide Numbers, Print, Wrap32, ReachesMajority, ApplyCommitted;
  }

  lemma CloseKeepsInv(h: History, base: Files, req: CloseRequest, env: Env, order: seq<uint64>, servers: nat)
    requires Inv(h, base) && Enabled(h.p, CloseStep(req, env, order), servers)
    ensures Inv(Next(h, CloseStep(req, env, order), servers), base)
    ensures Close(h.p, req, servers, env, order).1.Closed? && req.dirty ==>
      var (f, after) := (Target(h.p, req), Next(h, CloseStep(req, env, order), servers).p.r.files);
      f in after && Numbers(after[f]) == SetOf(h.p.sets, f) + Numbers(req.data)
  {
    hide Close, Inv, Numbers, IsListing, Wrap32, Print, ApplyCommitted;
    var outcome := Close(h.p, req, servers, env, order).1;
    var h' := Next(h, CloseStep(req, env, order), servers);
    var f := Target(h.p, req);
    CloseView(h, req, env, order, servers);
    if Logs(outcome, req.dirty) {
      var e := Logged(h, req, order);
      AppendKeepsInv(h, base, f, req.data, e, env.persisted, order);
      var appended := Appended(h, f, req.data, e, env.persisted);
      if outcome.Closed? {
        var merged := SetOf(h.p.sets, f) + Numbers(req.data);
        CommitKeepsInv(appended, base, f, Numbers(req.data), merged);
        SameViewKeepsInv(Committed(appended, f, Numbers(req.data), merged), h', base);
      } else {
        SameViewKeepsInv(appended, h', base);
      }
    } else {
      SameViewKeepsInv(h, h', base);
    }
  }

  // ---------- runs ----------

  lemma {:induction false} RunKeepsInv(h: History, base: Files, steps: seq<Step>, servers: nat)
    requires Inv(h, base) && ValidRun(h, steps, servers)
    ensures Inv(After(h, steps, servers), base)
    decreases steps
  {
    if steps != [] {
      match steps[0] {
        case CloseStep(req, env, order) => CloseKeepsInv(h, base, req, env, order, servers);
        case OtherStep(after) => SameViewKeepsInv(h, h.(p := after), base);
      }
      RunKeepsInv(Next(h, steps[0], servers), base, steps[1..], servers);
    }
  }

  /**
   * After any run of Close requests on any files, failed ones included: a file is as it was at the start and nothing
   * about it was ever confirmed, or its content lists each number once, among them every confirmed
   * payload number and none that was not accepted.
   */
  lemma ConfirmedWithinFileWithinAccepted(h: History, base: Files, steps: seq<Step>, servers: nat, f: string)
    requires Initial(h, base) && ValidRun(h, steps, servers)
    ensures FileOk(After(h, steps, servers), base, f)
  {
    forall g
      ensures FileOk(h, base, g) && SetOk(h, g)
    {}
    RunKeepsInv(h, base, steps, servers);
  }

  /** At the end of a run, one more dirty Close that succeeds leaves exactly the file's set and the payload in the file. */
  lemma SuccessfulCloseContent(h: History, base: Files, steps: seq<Step>, servers: nat, req: CloseRequest, env: Env, order: seq<uint64>)
    requires Initial(h, base) && ValidRun(h, steps, servers) && req.dirty
    requires Enabled(After(h, steps, servers).p, CloseStep(req, env, order), servers)
    requires Close(After(h, steps, servers).p, req, servers, env, order).1.Closed?
    ensures var p := After(h, steps, servers).p;
            var (f, files) := (Target(p, req), Close(p, req, servers, env, order).0.r.files);
            f in files && Numbers(files[f]) == SetOf(p.sets, f) + Numbers(req.data)
  {
    forall g
      ensures FileOk(h, base, g) && SetOk(h, g)
    {}
    RunKeepsInv(h, base, steps, servers);
    CloseKeepsInv(After(h, steps, servers), base, req, env, order, servers);
  }
}
