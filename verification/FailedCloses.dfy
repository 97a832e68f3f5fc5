// What becomes of the payload of a Close that logs its entry but does not succeed (server_basics.go:847-948).
module FailedCloses {
  import opened Words
  import opened NumberText
  import opened Replica
  import opened Server
  import opened PrimeFiles

  /** The entry is logged, but the client is told that the Close failed. */
  predicate LoggedInVain(outcome: Outcome)
  {
    outcome.PersistFailed? || outcome.NoMajority?
  }

  predicate FileHas(files: Files, f: string, x: uint64)
  {
    f in files && x in Numbers(files[f])
  }

  /** What a Close on f logs in vain: one more entry, and the numbers in the file's set if it has one. */
  lemma LoggedInVainView(p: Primary, req: CloseRequest, servers: nat, env: Env, order: seq<uint64>)
    requires req.dirty && LoggedInVain(Close(p, req, servers, env, order).1)
    ensures var (p', f) := (Close(p, req, servers, env, order).0, Target(p, req));
            && |p'.r.log| == |p.r.log| + 1 && p'.r.log[..|p.r.log|] == p.r.log
            && p'.r.lastApplied == p.r.lastApplied && p'.r.files == p.r.files
            && (var e := p'.r.log[|p.r.log|]; e.op == WRITE && e.filename == f && e.content == Print(order))
            && p'.sets == if f in p.sets then p.sets[f := p.sets[f] + Numbers(req.data)] else p.sets
  {
    hide Numbers, Print, Wrap32, ReachesMajority, ApplyCommitted;
  }

  /** What a Close that succeeds leaves in the files: the replay of all that was not applied, its own entry last. */
  lemma SuccessView(p: Primary, req: CloseRequest, servers: nat, env: Env, order: seq<uint64>)
    requires req.dirty && Close(p, req, servers, env, order).1.Closed? && p.r.lastApplied <= |p.r.log|
    ensures var (p', f) := (Close(p, req, servers, env, order).0, Target(p, req));
            && |p'.r.log| == |p.r.log| + 1 && p'.r.log[..|p.r.log|] == p.r.log
            && p'.r.files == Replay(p.r.files, p'.r.log[p.r.lastApplied..])
            && (var e := p'.r.log[|p.r.log|]; e.op == WRITE && e.filename == f && e.content == Print(order))
  {
    hide Numbers, Print, Wrap32, ReachesMajority, Replay;
    var p' := Close(p, req, servers, env, order).0;
    assert p'.r.log[p.r.lastApplied..|p'.r.log|] == p'.r.log[p.r.lastApplied..];
  }

  /** The content that the next success leaves in the file of the failed Close. */
  lemma ContentAfterSuccess(q: Primary, req': CloseRequest, servers: nat, env': Env, order': seq<uint64>, f: string, k: nat)
    requires req'.dirty && Close(q, req', servers, env', order').1.Closed?
    requires q.r.lastApplied <= k && k + 1 == |q.r.log| && Writes(q.r.log[k], f)
    ensures var files := Close(q, req', servers, env', order').0.r.files;
            f in files && files[f] == if Target(q, req') == f then Print(order') else q.r.log[k].content
  {
    SuccessView(q, req', servers, env', order');
    var log := Close(q, req', servers, env', order').0.r.log;
    hide Close, Print, Target;
    assert log[k] == q.r.log[k] by {
      assert log[..k + 1][k] == q.r.log[k];
    }
    LastOfTwo(q.r.files, log[q.r.lastApplied..], f);
  }

  /** The last entry but one writes f, and nothing follows it but the last. */
  lemma LastOfTwo(files: Files, log: seq<LogEntry>, f: string)
    requires |log| >= 2 && Writes(log[|log| - 2], f)
    ensures f in Replay(files, log)
    ensures Replay(files, log)[f] == if Writes(log[|log| - 1], f) then log[|log| - 1].content else log[|log| - 2].content
  {
    LastWriteWins(files, log, if Writes(log[|log| - 1], f) then |log| - 1 else |log| - 2, f);
  }

  /**
   * A Close on f is logged in vain; then, after anything that leaves log, files and prime sets alone, a dirty Close succeeds.
   * A number of the failed payload is then in f exactly when the second Close was on another file, or f already had
   * a set, or the second payload has the number too.
   */
  lemma FailedPayloadAppearsIff(p: Primary, req: CloseRequest, env: Env, order: seq<uint64>,
                                q: Primary, req': CloseRequest, env': Env, order': seq<uint64>, servers: nat, x: uint64)
    requires p.r.lastApplied <= |p.r.log|
    requires req.dirty && LoggedInVain(Close(p, req, servers, env, order).1)
    requires IsListing(order, SetOf(p.sets, Target(p, req)) + Numbers(req.data))
    requires q.r == Close(p, req, servers, env, order).0.r && q.sets == Close(p, req, servers, env, order).0.sets
    requires req'.dirty && Close(q, req', servers, env', order').1.Closed?
    requires IsListing(order', SetOf(q.sets, Target(q, req')) + Numbers(req'.data))
    requires x in Numbers(req.data)
    ensures var f := Target(p, req);
            FileHas(Close(q, req', servers, env', order').0.r.files, f, x) <==>
              Target(q, req') != f || f in p.sets || x in Numbers(req'.data)
  {
    var f := Target(p, req);
    LoggedInVainView(p, req, servers, env, order);
    ListingOfPrint(order, SetOf(p.sets, f) + Numbers(req.data));
    ListingOfPrint(order', SetOf(q.sets, Target(q, req')) + Numbers(req'.data));
    hide Close, Numbers, Print, IsListing;
    ContentAfterSuccess(q, req', servers, env', order', f, |p.r.log|);
  }

  // ---------- any number of failures before the success ----------

  /** A Close, the state it finds, and what the world contributes to it. */
  datatype Attempt = Attempt(at: Primary, req: CloseRequest, env: Env, order: seq<uint64>)

  function Done(a: Attempt, servers: nat): Primary
  {
    Close(a.at, a.req, servers, a.env, a.order).0
  }

  function FileOf(a: Attempt): string
  {
    Target(a.at, a.req)
  }

  /** Log, files and sets after the first n Closes. */
  function LogAfter(r: State, closes: seq<Attempt>, n: nat, servers: nat): State
    requires n <= |closes|
  {
    if n == 0 then r else Done(closes[n - 1], servers).r
  }

  function SetsAfter(sets: map<string, set<uint64>>, closes: seq<Attempt>, n: nat, servers: nat): map<string, set<uint64>>
    requires n <= |closes|
  {
    if n == 0 then sets else Done(closes[n - 1], servers).sets
  }

  /** A dirty Close that finds log, files and sets as the one before left them, whatever else went on between. */
  ghost predicate Follows(r: State, sets: map<string, set<uint64>>, closes: seq<Attempt>, i: nat, servers: nat)
    requires i < |closes|
  {
    var a := closes[i];
    && a.at.r == LogAfter(r, closes, i, servers) && a.at.sets == SetsAfter(sets, closes, i, servers) && a.req.dirty
    && IsListing(a.order, SetOf(a.at.sets, FileOf(a)) + Numbers(a.req.data))
  }

  ghost predicate InVain(r: State, sets: map<string, set<uint64>>, closes: seq<Attempt>, n: nat, servers: nat)
    requires n <= |closes|
  {
    forall i: nat :: i < n ==>
      Follows(r, sets, closes, i, servers) &&
      LoggedInVain(Close(closes[i].at, closes[i].req, servers, closes[i].env, closes[i].order).1)
  }

  /** What a Close that is logged in vain does to log, files and sets. */
  ghost predicate VainStep(r: State, sets: map<string, set<uint64>>, f: string, nums: set<uint64>, text: string,
                           r': State, sets': map<string, set<uint64>>)
  {
    && |r'.log| == |r.log| + 1 && r'.log[..|r.log|] == r.log && r'.lastApplied == r.lastApplied && r'.files == r.files
    && Writes(r'.log[|r.log|], f) && r'.log[|r.log|].content == text
    && sets' == (if f in sets then sets[f := sets[f] + nums] else sets)
    && Numbers(text) == SetOf(sets, f) + nums
  }

  lemma StepInVain(r: State, sets: map<string, set<uint64>>, closes: seq<Attempt>, j: nat, servers: nat)
    requires j < |closes| && InVain(r, sets, closes, j + 1, servers)
    ensures VainStep(LogAfter(r, closes, j, servers), SetsAfter(sets, closes, j, servers),
                     FileOf(closes[j]), Numbers(closes[j].req.data), Print(closes[j].order),
                     LogAfter(r, closes, j + 1, servers), SetsAfter(sets, closes, j + 1, servers))
  {
    var a := closes[j];
    assert Follows(r, sets, closes, j, servers);
    LoggedInVainView(a.at, a.req, servers, a.env, a.order);
    ListingOfPrint(a.order, SetOf(a.at.sets, FileOf(a)) + Numbers(a.req.data));
    hide Close, Target, Print, Numbers, IsListing;
  }

  /** Each failure adds its entry to the log. */
  lemma {:induction false} EntriesInVain(r: State, sets: map<string, set<uint64>>, closes: seq<Attempt>, n: nat, servers: nat)
    requires n <= |closes| && InVain(r, sets, closes, n, servers)
    ensures var after := LogAfter(r, closes, n, servers);
            && |after.log| == |r.log| + n && after.log[..|r.log|] == r.log
            && after.lastApplied == r.lastApplied && after.files == r.files
            && forall j :: 0 <= j < n ==>
                 Writes(after.log[|r.log| + j], FileOf(closes[j])) && after.log[|r.log| + j].content == Print(closes[j].order)
    decreases n
  {
    hide Close, Done, Target, Print, IsListing, Numbers, Follows;
    if n > 0 {
      EntriesInVain(r, sets, closes, n - 1, servers);
      StepInVain(r, sets, closes, n - 1, servers);
      hide InVain, LogAfter, SetsAfter;
      var before, after := LogAfter(r, closes, n - 1, servers), LogAfter(r, closes, n, servers);
      assert forall j :: 0 <= j < |before.log| ==> after.log[j] == after.log[..|before.log|][j] == before.log[j];
      assert after.log[..|r.log|] == before.log[..|r.log|];
    }
  }

  /** And its numbers to the set of its file, if there is one: failures make no sets. */
  lemma {:induction false} SetsInVain(r: State, sets: map<string, set<uint64>>, closes: seq<Attempt>, n: nat, servers: nat)
    requires n <= |closes| && InVain(r, sets, closes, n, servers)
    ensures SetsAfter(sets, closes, n, servers).Keys == sets.Keys
    ensures forall j :: 0 <= j < n && FileOf(closes[j]) in sets ==>
      Numbers(closes[j].req.data) <= SetsAfter(sets, closes, n, servers)[FileOf(closes[j])]
    decreases n
  {
    hide Close, Done, Target, Print, IsListing, Numbers, Follows;
    if n > 0 {
      SetsInVain(r, sets, closes, n - 1, servers);
      StepInVain(r, sets, closes, n - 1, servers);
      hide InVain, LogAfter, SetsAfter;
    }
  }

  /** What the k-th Close writes. */
  lemma WrittenNumbers(r: State, sets: map<string, set<uint64>>, closes: seq<Attempt>, k: nat, servers: nat)
    requires k < |closes| && InVain(r, sets, closes, k, servers) && Follows(r, sets, closes, k, servers)
    ensures var f := FileOf(closes[k]);
            f !in sets ==> Numbers(Print(closes[k].order)) == Numbers(closes[k].req.data)
    ensures Numbers(closes[k].req.data) <= Numbers(Print(closes[k].order))
    ensures forall j :: 0 <= j < k && FileOf(closes[j]) == FileOf(closes[k]) && FileOf(closes[k]) in sets ==>
      Numbers(closes[j].req.data) <= Numbers(Print(closes[k].order))
  {
    hide Close, Print, Numbers, IsListing, InVain, Target, Done;
    SetsInVain(r, sets, closes, k, servers);
    var a := closes[k];
    ListingOfPrint(a.order, SetOf(a.at.sets, FileOf(a)) + Numbers(a.req.data));
  }

  /** What the last Close, which succeeds, does to the log and the files. */
  lemma LastSucceeds(r: State, sets: map<string, set<uint64>>, closes: seq<Attempt>, n: nat, servers: nat)
    requires n + 1 == |closes| && Follows(r, sets, closes, n, servers)
    requires Close(closes[n].at, closes[n].req, servers, closes[n].env, closes[n].order).1.Closed?
    requires LogAfter(r, closes, n, servers).lastApplied <= |LogAfter(r, closes, n, servers).log|
    ensures var (before, after) := (LogAfter(r, closes, n, servers), Done(closes[n], servers).r);
            && |after.log| == |before.log| + 1 && after.log[..|before.log|] == before.log
            && after.files == Replay(before.files, after.log[before.lastApplied..])
            && Writes(after.log[|before.log|], FileOf(closes[n])) && after.log[|before.log|].content == Print(closes[n].order)
  {
    var a := closes[n];
    SuccessView(a.at, a.req, servers, a.env, a.order);
    hide Close, Target, Print, Numbers, IsListing, Replay;
  }

  /** The last Close on f decides what f holds once the last one of all has succeeded. */
  lemma ContentAfterAll(r: State, sets: map<string, set<uint64>>, closes: seq<Attempt>, servers: nat, f: string, k: nat)
    requires |closes| > 0 && InVain(r, sets, closes, |closes| - 1, servers) && Follows(r, sets, closes, |closes| - 1, servers)
    requires var a := closes[|closes| - 1]; Close(a.at, a.req, servers, a.env, a.order).1.Closed?
    requires r.lastApplied <= |r.log| && k < |closes| && FileOf(closes[k]) == f
    requires forall j :: k < j < |closes| ==> FileOf(closes[j]) != f
    ensures var files := Done(closes[|closes| - 1], servers).r.files; f in files && files[f] == Print(closes[k].order)
  {
    hide Close, Done, Target, Print, IsListing, Numbers, Replay, InVain, Follows, LogAfter;
    var n := |closes| - 1;
    EntriesInVain(r, sets, closes, n, servers);
    LastSucceeds(r, sets, closes, n, servers);
    var before, log := LogAfter(r, closes, n, servers).log, Done(closes[n], servers).r.log;
    assert forall j :: 0 <= j < |before| ==> log[j] == log[..|before|][j] == before[j];
    assert forall j :: 0 <= j < |closes| ==>
      Writes(log[|r.log| + j], FileOf(closes[j])) && log[|r.log| + j].content == Print(closes[j].order);
    LastWriteOfMany(r.files, log, r.lastApplied, |r.log|, closes, f, k);
  }

  lemma LastWriteOfMany(files: Files, log: seq<LogEntry>, applied: nat, start: nat, closes: seq<Attempt>, f: string, k: nat)
    requires applied <= start && |log| == start + |closes| && k < |closes| && FileOf(closes[k]) == f
    requires forall j :: 0 <= j < |closes| ==> Writes(log[start + j], FileOf(closes[j])) && log[start + j].content == Print(closes[j].order)
    requires forall j :: k < j < |closes| ==> FileOf(closes[j]) != f
    ensures f in Replay(files, log[applied..]) && Replay(files, log[applied..])[f] == Print(closes[k].order)
  {
    hide FileOf, Print, Replay;
    var pending, d := log[applied..], start - applied;
    assert Writes(log[start + k], f);
    forall j | d + k < j < |pending|
      ensures !Writes(pending[j], f)
    {
      assert Writes(log[start + (j - d)], FileOf(closes[j - d]));
    }
    LastWriteWins(files, pending, d + k, f);
  }

  /**
   * Any number of Closes are logged in vain, then one succeeds. A number of a failed payload on f is in f exactly when f had a
   * set to begin with, or the last of all these Closes on f has the number in its own payload.
   */
  lemma FailedPayloadsAppearIff(r: State, sets: map<string, set<uint64>>, closes: seq<Attempt>, servers: nat,
                                i: nat, k: nat, x: uint64)
    requires |closes| > 0 && InVain(r, sets, closes, |closes| - 1, servers) && Follows(r, sets, closes, |closes| - 1, servers)
    requires var a := closes[|closes| - 1]; Close(a.at, a.req, servers, a.env, a.order).1.Closed?
    requires r.lastApplied <= |r.log|
    requires i < |closes| - 1 && x in Numbers(closes[i].req.data)
    requires k < |closes| && FileOf(closes[k]) == FileOf(closes[i])
    requires forall j :: k < j < |closes| ==> FileOf(closes[j]) != FileOf(closes[i])
    ensures var f := FileOf(closes[i]);
            FileHas(Done(closes[|closes| - 1], servers).r.files, f, x) <==> f in sets || x in Numbers(closes[k].req.data)
  {
    hide Close, Done, FileOf, Print, Numbers, Follows, LoggedInVain;
    assert InVain(r, sets, closes, k, servers) && Follows(r, sets, closes, k, servers);
    hide InVain;
    WrittenNumbers(r, sets, closes, k, servers);
    ContentAfterAll(r, sets, closes, servers, FileOf(closes[i]), k);
    assert i <= k;
  }

  /** Where nothing was logged in vain, the bounds meet: a file that was touched holds exactly its confirmed numbers. */
  lemma NothingInVainMeansExact(h: History, base: Files, steps: seq<PrimeFiles.Step>, servers: nat, f: string)
    requires Initial(h, base) && ValidRun(h, steps, servers)
    requires SetOf(After(h, steps, servers).accepted, f) == SetOf(After(h, steps, servers).confirmed, f)
    ensures var e := After(h, steps, servers);
            Untouched(e, base, f) || (f in e.p.r.files && Numbers(e.p.r.files[f]) == SetOf(e.confirmed, f))
  {
    ConfirmedWithinFileWithinAccepted(h, base, steps, servers, f);
  }

  /** A primary with two files open for one client. */
  function TwoFilesOpen(f: string, g: string): Primary
  {
    var clients := map["client" := Mode.Write];
    Primary(State([], [], 0, 0, map[]), true, map[1 := FileMeta(f, clients), 2 := FileMeta(g, clients)], map[f := 0, g := 0], map[], map[])
  }

  function Request(id: string, fd: int, x: uint64): CloseRequest
  {
    CloseRequest(id, "client", fd, true, 0, Print([x]))
  }

  lemma NumbersOfOne(x: uint64)
    ensures Numbers(Print([x])) == {x} && IsListing([x], {x})
  {
    RoundTrip([x]);
    assert Elements([x]) == {x};
  }

  /** Three servers, and nobody answers. */
  lemma FirstMisses(f: string, g: string, x: uint64, env: Env)
    requires f != g && env == Env(0, 1, true, [Timeout])
    ensures var (p, outcome) := Close(TwoFilesOpen(f, g), Request("1", 1, x), 3, env, [x]);
            && outcome == NoMajority && p.sets == map[]
            && p == TwoFilesOpen(f, g).(r := p.r) && p.r.lastApplied == 0
  {
    hide Print, Numbers, Wrap32;
  }

  /** One backup answers: with the primary itself that is a majority. */
  lemma SecondSucceeds(f: string, g: string, x: uint64, p: Primary, env: Env)
    requires f != g && p == TwoFilesOpen(f, g).(r := p.r) && env == Env(2, 3, true, [Ack(true)])
    ensures Close(p, Request("2", 2, x), 3, env, [x]).1.Closed?
  {
    hide Print, Numbers, Wrap32, ApplyCommitted;
    assert Acks([Ack(true)]) == 1 by {
      assert [Ack(true)][1..] == [];
    }
  }

  /** A Close that is logged in vain, and then one that succeeds, as a run. */
  lemma TwoCloses(h: History, a: PrimeFiles.Step, b: PrimeFiles.Step, servers: nat)
    requires a.CloseStep? && Enabled(h.p, a, servers) && Close(h.p, a.req, servers, a.env, a.order).1 == NoMajority
    requires var p := Close(h.p, a.req, servers, a.env, a.order).0;
             b.CloseStep? && Enabled(p, b, servers) && Close(p, b.req, servers, b.env, b.order).1.Closed? && b.req.dirty
    ensures ValidRun(h, [a, b], servers)
    ensures var p := Close(h.p, a.req, servers, a.env, a.order).0;
            && After(h, [a, b], servers).p == Close(p, b.req, servers, b.env, b.order).0
            && After(h, [a, b], servers).confirmed == Record(h.confirmed, Target(p, b.req), Numbers(b.req.data))
  {
    hide Close, Numbers, IsListing, Record;
    var h1 := Next(h, a, servers);
    var h2 := Next(h1, b, servers);
    assert ValidRun(h2, [], servers) && After(h2, [], servers) == h2;
    assert [b][1..] == [] && ValidRun(h1, [b], servers) && After(h1, [b], servers) == h2;
    assert [a, b][1..] == [b];
  }

  /**
   * A smallest such run, with three servers: a Close on f misses its majority, a Close on g succeeds, and f
   * holds the number whose Close failed, though nothing was ever confirmed on f.
   */
  lemma UnconfirmedNumberIsApplied(f: string, g: string, x: uint64) returns (h: History, steps: seq<PrimeFiles.Step>)
    requires f != g
    ensures Initial(h, map[]) && ValidRun(h, steps, 3)
    ensures SetOf(After(h, steps, 3).confirmed, f) == {} && FileHas(After(h, steps, 3).p.r.files, f, x)
  {
    h := History(TwoFilesOpen(f, g), map[], map[]);
    var a := CloseStep(Request("1", 1, x), Env(0, 1, true, [Timeout]), [x]);
    var b := CloseStep(Request("2", 2, x), Env(2, 3, true, [Ack(true)]), [x]);
    steps := [a, b];
    NumbersOfOne(x);
    FirstMisses(f, g, x, a.env);
    var p := Close(h.p, a.req, 3, a.env, [x]).0;
    SecondSucceeds(f, g, x, p, b.env);
    hide Close, Print, Numbers, IsListing, ValidRun, After;
    TwoCloses(h, a, b, 3);
    FailedPayloadAppearsIff(h.p, a.req, a.env, [x], p, b.req, b.env, [x], 3, x);
  }
}
