// The server object: log replication (server_replication.go) and the commit path of Close (server_basics.go).
// Its methods change fields in place; each is proved against a function on values.
module Server {
  import opened Basics
  import opened Words
  import opened NumberText
  import opened Replica

  // ---------- values ----------

  datatype Mode = Read | Write | ReadWrite

  /** An open file: its name, and the clients that opened it. */
  datatype FileMeta = FileMeta(filename: string, clients: map<string, Mode>)

  datatype Reply = CloseReply(message: string, version: int) | OtherReply

  datatype Cached = Cached(reply: Reply, time: int)

  /** The part of a server that Close works on. The prime sets are the contents of the sets that filesPrimes points to. */
  datatype Primary = Primary(
    r: State,
    isPrimary: bool,
    open: map<int, FileMeta>,
    versions: map<string, int>,
    sets: map<string, set<uint64>>,
    requests: map<string, Cached>)

  datatype CloseRequest = CloseRequest(id: string, client: string, fd: int, dirty: bool, version: int, data: string)

  /** What arrives on the channel that Close waits on. */
  datatype Event = Ack(ok: bool) | Timeout

  /** What the world contributes to one Close: the clock, the disk, and the peers. */
  datatype Env = Env(start: int, end: int, persisted: bool, events: seq<Event>)

  datatype Outcome =
    | Closed(version: int)
    | Replied(reply: Reply)
    | NotLeader
    | NotOpen
    | WrongMode
    | Conflict
    | PersistFailed
    | NoMajority
    | Hangs    // the "already closed" branch locks a mutex that it already holds
    | Panics   // the cached reply belongs to another kind of request

  // Five minutes, in nanoseconds.
  const REQUEST_CACHE_TTL: int := 300_000_000_000

  // The version that getFileEntry gives to a name it has not seen.
  const UNSEEN_VERSION: int := 1

  // ---------- acknowledgements ----------

  /** How many successful replies arrive before the timeout. */
  function Acks(events: seq<Event>): nat
  {
    if events == [] || events[0].Timeout? then 0
    else (if events[0].ok then 1 else 0) + Acks(events[1..])
  }

  /** What arrives before the timeout, if there is one. */
  function InTime(events: seq<Event>): (r: seq<Event>)
    ensures r <= events && (forall i :: 0 <= i < |r| ==> r[i].Ack?) && (|r| < |events| ==> events[|r|].Timeout?)
  {
    if events == [] || events[0].Timeout? then [] else [events[0]] + InTime(events[1..])
  }

  /** Close counts the successful replies that arrive in time, and those alone. */
  lemma {:induction false} AcksAreSuccesses(events: seq<Event>)
    ensures Acks(events) == multiset(InTime(events))[Ack(true)]
    decreases events
  {
    if events != [] && events[0].Ack? {
      AcksAreSuccesses(events[1..]);
      assert multiset([events[0]] + InTime(events[1..])) == multiset{events[0]} + multiset(InTime(events[1..]));
    }
  }

  predicate ReachesMajority(servers: nat, events: seq<Event>)
  {
    1 + Acks(events) >= servers / 2 + 1
  }

  lemma MajorityOfSuccesses(servers: nat, events: seq<Event>)
    ensures ReachesMajority(servers, events) <==> 1 + multiset(InTime(events))[Ack(true)] >= servers / 2 + 1
  {
    AcksAreSuccesses(events);
  }

  // ---------- Close ----------

  predicate Fresh(requests: map<string, Cached>, id: string, now: int)
  {
    id in requests && now - requests[id].time < REQUEST_CACHE_TTL
  }

  function VersionOf(versions: map<string, int>, f: string): int
  {
    if f in versions then versions[f] else UNSEEN_VERSION
  }

  function SetOf(sets: map<string, set<uint64>>, f: string): set<uint64>
  {
    if f in sets then sets[f] else {}
  }

  function Elements(nums: seq<uint64>): set<uint64>
  {
    set i | 0 <= i < |nums| :: nums[i]
  }

  function Numbers(data: string): set<uint64>
  {
    Elements(Parse(data))
  }

  /** The entry that Close logs; order is the order in which it ranges over the merged set. */
  function CloseEntry(p: Primary, f: string, order: seq<uint64>): LogEntry
  {
    LogEntry(|p.r.log| + 1, WRITE, f, Print(order), Wrap32(VersionOf(p.versions, f) + 1))
  }

  /** Append, replicate, and with a majority commit; otherwise the reason why not. The entry stays in the log in every case. */
  function AppendAndCommit(r: State, e: LogEntry, servers: nat, env: Env): (State, Option<Outcome>)
  {
    var appended := AppendLocal(r, e, env.persisted);
    if !env.persisted then (appended, Some(PersistFailed))
    else if !ReachesMajority(servers, env.events) then (appended, Some(NoMajority))
    else (CommitLocal(appended, |appended.log|).0, None)
  }

  /**
   * The dirty part of Close up to the commit. A set that already exists is merged in place, so it keeps the payload
   * even when the commit fails.
   */
  function MergeAndCommit(p: Primary, f: string, data: string, servers: nat, env: Env, order: seq<uint64>): (Primary, Option<Outcome>)
  {
    var merged := SetOf(p.sets, f) + Numbers(data);
    var (r, failure) := AppendAndCommit(p.r, CloseEntry(p, f, order), servers, env);
    (p.(r := r, sets := if f in p.sets then p.sets[f := merged] else p.sets), failure)
  }

  /** After the commit the merged set is kept, also for a file that had none, and the version goes up. */
  function CommitPayload(p: Primary, f: string, data: string, servers: nat, env: Env, order: seq<uint64>): (Primary, Outcome)
  {
    var (q, failure) := MergeAndCommit(p, f, data, servers, env, order);
    if failure.Some? then (q, failure.value)
    else
      var version := Wrap32(VersionOf(p.versions, f) + 1);
      (q.(sets := q.sets[f := SetOf(p.sets, f) + Numbers(data)], versions := p.versions[f := version]), Closed(version))
  }

  /** The end of every Close that succeeds: the client leaves the open file, and the reply is cached. */
  function Finish(p: Primary, req: CloseRequest, version: int, end: int): Primary
    requires req.fd in p.open
  {
    var meta := p.open[req.fd];
    p.(open := p.open[req.fd := meta.(clients := meta.clients - {req.client})],
       requests := p.requests[req.id := Cached(CloseReply("closed", version), end)])
  }

  function Close(p: Primary, req: CloseRequest, servers: nat, env: Env, order: seq<uint64>): (Primary, Outcome)
  {
    if !p.isPrimary then (p, NotLeader)
    else if Fresh(p.requests, req.id, env.start) then
      (p, if p.requests[req.id].reply.CloseReply? then Replied(p.requests[req.id].reply) else Panics)
    else if req.fd !in p.open then (p, NotOpen)
    else if req.client !in p.open[req.fd].clients then (p, Hangs)
    else
      var meta := p.open[req.fd];
      var f := meta.filename;
      var seen := p.(versions := p.versions[f := VersionOf(p.versions, f)]);
      if !req.dirty then (Finish(seen, req, VersionOf(p.versions, f), env.end), Closed(VersionOf(p.versions, f)))
      else if meta.clients[req.client] != Write then (seen, WrongMode)
      else if req.version != VersionOf(p.versions, f) then (seen, Conflict)
      else
        var (done, outcome) := CommitPayload(seen, f, req.data, servers, env, order);
        (if outcome.Closed? then Finish(done, req, outcome.version, env.end) else done, outcome)
  }

  /** A listing names each element of a set once, in some order. */
  ghost predicate IsListing(order: seq<uint64>, s: set<uint64>)
  {
    && (forall i, j :: 0 <= i < j < |order| ==> order[i] != order[j])
    && (forall x :: x in order <==> x in s)
  }

  /** Close gets to log an entry. */
  predicate Logs(outcome: Outcome, dirty: bool)
  {
    outcome.PersistFailed? || outcome.NoMajority? || (outcome.Closed? && dirty)
  }

  // ---------- the objects ----------

  /** A FilePrimeSet: a Go map, hence shared by everyone who holds it. */
  class PrimeSet {
    var elems: set<uint64>

    constructor (elems: set<uint64>)
      ensures this.elems == elems
    {
      this.elems := elems;
    }
  }

  /** The numbers of a list that are new to a set, each at its first occurrence. */
  function FirstNew(nums: seq<uint64>, s: set<uint64>): seq<uint64>
  {
    if nums == [] then []
    else if nums[0] in s then FirstNew(nums[1..], s)
    else [nums[0]] + FirstNew(nums[1..], s + {nums[0]})
  }

  /** FirstNew lists the difference of the two sets. */
  lemma {:induction false} FirstNewIsListing(nums: seq<uint64>, s: set<uint64>)
    ensures IsListing(FirstNew(nums, s), Elements(nums) - s)
    decreases nums
  {
    if nums != [] {
      assert nums == [nums[0]] + nums[1..];
      assert Elements(nums) == {nums[0]} + Elements(nums[1..]);
      if nums[0] in s {
        FirstNewIsListing(nums[1..], s);
      } else {
        FirstNewIsListing(nums[1..], s + {nums[0]});
        var rest := FirstNew(nums[1..], s + {nums[0]});
        assert forall i :: 0 <= i < |rest| ==> rest[i] in rest;
      }
    }
  }

  /** The first place of a number in a list. */
  function FirstAt(nums: seq<uint64>, x: uint64): (i: nat)
    requires x in nums
    ensures i < |nums| && nums[i] == x && forall j :: 0 <= j < i ==> nums[j] != x
  {
    if nums[0] == x then 0 else 1 + FirstAt(nums[1..], x)
  }

  lemma {:induction false} FirstNewAreElements(nums: seq<uint64>, s: set<uint64>)
    ensures forall x :: x in FirstNew(nums, s) ==> x in nums && x !in s
    decreases nums
  {
    if nums != [] {
      FirstNewAreElements(nums[1..], if nums[0] in s then s else s + {nums[0]});
    }
  }

  lemma FirstAtStep(nums: seq<uint64>, x: uint64)
    requires nums != [] && (x == nums[0] || x in nums[1..])
    ensures x in nums && FirstAt(nums, x) == if x == nums[0] then 0 else 1 + FirstAt(nums[1..], x)
  {}

  lemma FirstNewStep(nums: seq<uint64>, s: set<uint64>)
    requires nums != []
    ensures FirstNew(nums, s) ==
      if nums[0] in s then FirstNew(nums[1..], s) else [nums[0]] + FirstNew(nums[1..], s + {nums[0]})
  {}

  /** And in the order in which the list first has them. */
  lemma {:induction false} FirstNewInOrder(nums: seq<uint64>, s: set<uint64>, i: nat, j: nat)
    requires i < j < |FirstNew(nums, s)|
    ensures FirstNew(nums, s)[i] in nums && FirstNew(nums, s)[j] in nums
    ensures FirstAt(nums, FirstNew(nums, s)[i]) < FirstAt(nums, FirstNew(nums, s)[j])
    decreases |nums|, 1
  {
    hide FirstAt, FirstNew;
    assert nums != [] by {
      FirstNewAreElements(nums, s);
      assert FirstNew(nums, s)[i] in FirstNew(nums, s);
    }
    FirstNewStep(nums, s);
    if nums[0] in s {
      LaterInOrder(nums, s, FirstNew(nums[1..], s), i, j);
    } else {
      var rest := FirstNew(nums[1..], s + {nums[0]});
      LaterElement(nums, s + {nums[0]}, rest, j - 1);
      if i == 0 {
        FirstAtStep(nums, nums[0]);
      } else {
        LaterInOrder(nums, s + {nums[0]}, rest, i - 1, j - 1);
      }
    }
  }

  /** An element that is new only after the first number of the list. */
  lemma LaterElement(nums: seq<uint64>, s: set<uint64>, rest: seq<uint64>, i: nat)
    requires nums != [] && nums[0] in s && rest == FirstNew(nums[1..], s) && i < |rest|
    ensures rest[i] in nums[1..] && rest[i] in nums && FirstAt(nums, rest[i]) == 1 + FirstAt(nums[1..], rest[i])
  {
    hide FirstAt, FirstNew;
    FirstNewAreElements(nums[1..], s);
    assert rest[i] in rest;
    FirstAtStep(nums, rest[i]);
  }

  lemma LaterInOrder(nums: seq<uint64>, s: set<uint64>, rest: seq<uint64>, i: nat, j: nat)
    requires nums != [] && nums[0] in s && rest == FirstNew(nums[1..], s) && i < j < |rest|
    ensures rest[i] in nums && rest[j] in nums && FirstAt(nums, rest[i]) < FirstAt(nums, rest[j])
    decreases |nums|, 0
  {
    hide FirstAt, FirstNew;
    LaterElement(nums, s, rest, i);
    LaterElement(nums, s, rest, j);
    FirstNewInOrder(nums[1..], s, i, j);
  }

  class Server {
    var log: seq<LogEntry>
    var disk: seq<Line>
    var commitIndex: nat
    var lastApplied: nat
    var files: Files
    var isPrimary: bool
    var servers: nat
    var open: map<int, FileMeta>
    var versions: map<string, int>
    var filesPrimes: map<string, PrimeSet>
    var requests: map<string, Cached>

    constructor (servers: nat, disk: seq<Line>, files: Files)
      requires servers > 0
      ensures Valid() && this.servers == servers && filesPrimes == map[]
      ensures ReplicaState() == State([], disk, 0, 0, files)
    {
      log, this.disk, commitIndex, lastApplied, this.files := [], disk, 0, 0, files;
      isPrimary, this.servers, open, versions, filesPrimes, requests := false, servers, map[], map[], map[], map[];
    }

    function ReplicaState(): State
      reads this
    {
      State(log, disk, commitIndex, lastApplied, files)
    }

    function Objects(): set<object>
      reads this
    {
      {this} + set f | f in filesPrimes :: filesPrimes[f]
    }

    /** The server counts itself among the servers, and different files have different set objects. */
    ghost predicate Valid()
      reads this
    {
      && servers > 0
      && forall f, g :: f in filesPrimes && g in filesPrimes && f != g ==> filesPrimes[f] != filesPrimes[g]
    }

    ghost function Value(): Primary
      reads Objects()
    {
      Primary(ReplicaState(), isPrimary, open, versions, map f | f in filesPrimes :: filesPrimes[f].elems, requests)
    }

    // ---------- replication ----------

    method ApplyEntry(entry: LogEntry)
      modifies this`files
      ensures files == Apply(old(files), entry)
    {
      if entry.op == WRITE {
        files := files[entry.filename := entry.content];
      }
    }

    method ApplyCommittedEntries() returns (ok: bool)
      modifies this`files, this`lastApplied
      ensures (ReplicaState(), ok) == ApplyCommitted(old(ReplicaState()))
    {
      ghost var start := lastApplied;
      ghost var before := files;
      if start <= |log| {
        assert log[start..start] == [];
      }
      while lastApplied < commitIndex
        invariant start <= lastApplied <= if start <= commitIndex then commitIndex else start
        invariant start < lastApplied ==> lastApplied <= |log|
        invariant start <= |log| ==> lastApplied <= |log| && files == Replay(before, log[start..lastApplied])
        invariant start > |log| ==> files == before && lastApplied == start
      {
        lastApplied := lastApplied + 1;
        if lastApplied - 1 >= |log| {
          assert start <= |log| ==> log[start..lastApplied - 1] == log[start..];
          return false;
        }
        ReplayStep(before, log, start, lastApplied - 1);
        ApplyEntry(log[lastApplied - 1]);
      }
      return true;
    }

    method AppendToDisk(entry: LogEntry)
      modifies this`disk
      ensures disk == old(disk) + Lines([entry])
    {
      disk := disk + [Entry(entry)];
      assert Lines([entry]) == [Entry(entry)];
    }

    /** The RPC a backup serves; entries and leaderCommit are as received, with int32 fields. */
    method HandleAppendEntries(entries: seq<LogEntry>, leaderCommit: int) returns (ok: bool)
      modifies this`log, this`disk, this`commitIndex, this`lastApplied, this`files
      ensures (ReplicaState(), ok) == AppendEntries(old(ReplicaState()), entries, leaderCommit)
    {
      ghost var log0, disk0 := log, disk;
      assert Lines(log[|log|..]) == [];
      for i := 0 to |entries|
        invariant log0 <= log && log == AppendAll(log0, entries[..i])
        invariant disk == disk0 + Lines(log[|log0|..])
        invariant commitIndex == old(commitIndex) && lastApplied == old(lastApplied) && files == old(files)
      {
        var entry := entries[i];
        assert entries[..i + 1][..i] == entries[..i];
        if entry.index <= |log| {
          continue;
        }
        assert Lines((log + [entry])[|log0|..]) == Lines(log[|log0|..]) + Lines([entry]);
        log := log + [entry];
        AppendToDisk(entry);
      }
      assert entries[..|entries|] == entries;
      if leaderCommit > commitIndex {
        commitIndex := leaderCommit;
      }
      ok := ApplyCommittedEntries();
    }

    /** The incremental branch of ApplyUpdate. */
    method ApplyIncrementalUpdate(entries: seq<LogEntry>) returns (ok: bool)
      modifies this`log, this`disk
      ensures (log, ok) == ApplyUpdate(old(log), entries)
      ensures old(log) <= log && disk == old(disk) + Lines(log[|old(log)|..])
    {
      ghost var log0, disk0 := log, disk;
      assert Lines(log[|log|..]) == [];
      for i := 0 to |entries|
        invariant log0 <= log && disk == disk0 + Lines(log[|log0|..])
        invariant ApplyUpdate(log0, entries) == ApplyUpdate(log, entries[i..])
      {
        var entry := entries[i];
        assert entries[i..][1..] == entries[i + 1..];
        if entry.index <= |log| {
          continue;
        }
        if entry.index != |log| + 1 {
          return false;
        }
        assert Lines((log + [entry])[|log0|..]) == Lines(log[|log0|..]) + Lines([entry]);
        log := log + [entry];
        AppendToDisk(entry);
      }
      return true;
    }

    /** After a restart: the log file is read line by line, and every entry that parses is appended and applied. */
    method RecoverFromLog()
      modifies this`log, this`files
      ensures ReplicaState() == Recover(old(ReplicaState()))
    {
      for i := 0 to |disk|
        invariant log == old(log) + Parsed(disk[..i]) && files == Replay(old(files), Parsed(disk[..i]))
      {
        assert disk[..i + 1][..i] == disk[..i];
        match disk[i]
        case Garbage =>
          assert Parsed(disk[..i + 1]) == Parsed(disk[..i]);
          continue;
        case Entry(entry) =>
          assert (Parsed(disk[..i]) + [entry])[..|Parsed(disk[..i])|] == Parsed(disk[..i]);
          log := log + [entry];
          ApplyEntry(entry);
      }
      assert disk[..|disk|] == disk;
    }

    // ---------- Close ----------

    /** Adds the numbers to the set that the caller passes, in place, and returns those that were new. */
    static method FilterUniquePrimes(primes: seq<uint64>, primeSet: PrimeSet) returns (unique: seq<uint64>)
      modifies primeSet
      ensures primeSet.elems == old(primeSet.elems) + Elements(primes)
      ensures unique == FirstNew(primes, old(primeSet.elems))
    {
      assert primes[0..] == primes && Elements(primes[..0]) == {} && FirstNew(primes[|primes|..], {}) == [];
      hide Elements;
      unique := [];
      for i := 0 to |primes|
        invariant primeSet.elems == old(primeSet.elems) + Elements(primes[..i])
        invariant FirstNew(primes, old(primeSet.elems)) == unique + FirstNew(primes[i..], primeSet.elems)
      {
        var p := primes[i];
        FilterStep(primes, i, primeSet.elems);
        if p !in primeSet.elems {
          primeSet.elems := primeSet.elems + {p};
          unique := unique + [p];
        }
      }
      assert primes[..|primes|] == primes;
    }

    static lemma FilterStep(primes: seq<uint64>, i: nat, s: set<uint64>)
      requires i < |primes|
      ensures Elements(primes[..i + 1]) == Elements(primes[..i]) + {primes[i]}
      ensures FirstNew(primes[i..], s) ==
        if primes[i] in s then FirstNew(primes[i + 1..], s) else [primes[i]] + FirstNew(primes[i + 1..], s + {primes[i]})
    {
      assert primes[..i + 1] == primes[..i] + [primes[i]];
      assert primes[i..][0] == primes[i] && primes[i..][1..] == primes[i + 1..];
    }

    /** Ranging over a Go map: every element once, in an order the language leaves open. */
    static method PrintSet(s: set<uint64>) returns (text: string, ghost order: seq<uint64>)
      ensures IsListing(order, s) && text == Print(order)
      ensures Parse(text) == order && Numbers(text) == s
    {
      var rest := s;
      text, order := "", [];
      while rest != {}
        invariant rest <= s && IsListing(order, s - rest) && text == Print(order)
        decreases rest
      {
        var p :| p in rest;
        text := text + Decimal(p as nat) + "\n";
        PrintAppend(order, p);
        order := order + [p];
        rest := rest - {p};
      }
      assert s - rest == s;
      RoundTrip(order);
      assert Elements(order) == s by {
        assert forall x :: x in Elements(order) <==> x in order;
      }
    }

    static lemma {:induction false} PrintAppend(order: seq<uint64>, p: uint64)
      ensures Print(order + [p]) == Print(order) + Decimal(p as nat) + "\n"
    {
      if order == [] {
        assert [p][1..] == [];
      } else {
        PrintAppend(order[1..], p);
        assert (order + [p])[1..] == order[1..] + [p];
      }
    }

    /** Counts acknowledgements until there are enough, or until the timeout. */
    static method WaitForMajority(servers: nat, events: seq<Event>) returns (reached: bool)
      ensures reached <==> 1 + multiset(InTime(events))[Ack(true)] >= servers / 2 + 1
      ensures reached <==> ReachesMajority(servers, events)
    {
      hide InTime, ReachesMajority;
      AcksAreSuccesses(events);
      MajorityOfSuccesses(servers, events);
      var ackCount := 1;
      var majority := servers / 2 + 1;
      var i := 0;
      while ackCount < majority && i < |events|
        invariant 0 <= i <= |events| && ackCount + Acks(events[i..]) == 1 + Acks(events)
      {
        assert events[i..][0] == events[i] && events[i..][1..] == events[i + 1..];
        if events[i].Timeout? {
          break;
        }
        if events[i].ok {
          ackCount := ackCount + 1;
        }
        i := i + 1;
      }
      return ackCount >= majority;
    }

    /** The payload goes into the file's set, in place if the file has one, and otherwise into a new set that nobody else holds. */
    method MergePayload(f: string, data: string) returns (tempPrimeSet: PrimeSet)
      requires Valid()
      modifies Objects() - {this}
      ensures f in filesPrimes ==> tempPrimeSet == filesPrimes[f]
      ensures f !in filesPrimes ==> fresh(tempPrimeSet)
      ensures tempPrimeSet.elems == SetOf(old(Value()).sets, f) + Numbers(data)
      ensures Value() == old(Value()).(sets := Value().sets)
      ensures Value().sets == if f in filesPrimes then old(Value()).sets[f := tempPrimeSet.elems] else old(Value()).sets
    {
      if f in filesPrimes {
        tempPrimeSet := filesPrimes[f];
      } else {
        tempPrimeSet := new PrimeSet({});
      }
      var nums := ParseNumbers(data);
      var unique := FilterUniquePrimes(nums, tempPrimeSet);
    }

    /** The file keeps the merged set. */
    method StoreSet(f: string, tempPrimeSet: PrimeSet)
      requires Valid() && (f in filesPrimes ==> tempPrimeSet == filesPrimes[f])
      modifies this`filesPrimes, Objects() - {this}
      ensures Valid() && fresh(Objects() - old(Objects()))
      ensures Value() == old(Value()).(sets := old(Value()).sets[f := old(tempPrimeSet.elems)])
    {
      if f in filesPrimes {
        filesPrimes[f].elems := tempPrimeSet.elems;
      } else {
        var newSet := new PrimeSet(tempPrimeSet.elems);
        filesPrimes := filesPrimes[f := newSet];
      }
      assert Value().sets == old(Value()).sets[f := old(tempPrimeSet.elems)];
    }

    /** The new entry goes into the log, and if the write succeeds into the log file. */
    method AppendLocally(logEntry: LogEntry, persisted: bool)
      modifies this`log, this`disk
      ensures ReplicaState() == AppendLocal(old(ReplicaState()), logEntry, persisted)
    {
      log := log + [logEntry];
      if persisted {
        AppendToDisk(logEntry);
      }
    }

    method CommitLocally(index: nat)
      modifies this`commitIndex, this`lastApplied, this`files
      ensures ReplicaState() == CommitLocal(old(ReplicaState()), index).0
    {
      commitIndex := index;
      var ok := ApplyCommittedEntries();
    }

    /** Append, replicate, and with a majority commit. */
    method LogAndCommit(f: string, content: string, env: Env) returns (failure: Option<Outcome>)
      requires f in versions
      modifies this`log, this`disk, this`commitIndex, this`lastApplied, this`files
      ensures var entry := LogEntry(|old(log)| + 1, WRITE, f, content, Wrap32(versions[f] + 1));
              (ReplicaState(), failure) == AppendAndCommit(old(ReplicaState()), entry, servers, env)
      ensures Value() == old(Value()).(r := ReplicaState())
      ensures failure.None? || failure.value.PersistFailed? || failure.value.NoMajority?
    {
      hide ReachesMajority, CommitLocal, AppendLocal, Wrap32, Value, Acks, InTime, ApplyCommitted, Lines, Replay;
      var logEntry := LogEntry(|log| + 1, WRITE, f, content, Wrap32(versions[f] + 1));
      AppendedLength(ReplicaState(), logEntry, env.persisted);
      AppendLocally(logEntry, env.persisted);
      if !env.persisted {
        failure := Some(PersistFailed);
      } else {
        var reached := WaitForMajority(servers, env.events);
        if !reached {
          failure := Some(NoMajority);
        } else {
          CommitLocally(logEntry.index);
          failure := None;
        }
      }
      OnlyReplicaChanged();
    }

    /** The rest of the server does not depend on the fields that replication changes. */
    twostate lemma OnlyReplicaChanged()
      requires isPrimary == old(isPrimary) && open == old(open) && versions == old(versions) && requests == old(requests)
      requires filesPrimes == old(filesPrimes) && forall f :: f in filesPrimes ==> filesPrimes[f].elems == old(filesPrimes[f].elems)
      ensures Value() == old(Value()).(r := ReplicaState())
    {}

    static lemma AppendedLength(r: State, e: LogEntry, persisted: bool)
      ensures |AppendLocal(r, e, persisted).log| == |r.log| + 1
    {}

    method RaiseVersion(f: string)
      requires f in versions
      modifies this`versions
      ensures versions == old(versions)[f := Wrap32(old(versions)[f] + 1)]
      ensures Value() == old(Value()).(versions := versions)
    {
      versions := versions[f := Wrap32(versions[f] + 1)];
    }

    method MergeAndCommitData(f: string, data: string, env: Env)
      returns (failure: Option<Outcome>, tempPrimeSet: PrimeSet, ghost order: seq<uint64>)
      requires Valid() && f in versions
      modifies Objects()
      ensures filesPrimes == old(filesPrimes) && servers == old(servers) && open == old(open)
      ensures failure.None? || failure.value.PersistFailed? || failure.value.NoMajority?
      ensures if f in filesPrimes then tempPrimeSet == filesPrimes[f] else fresh(tempPrimeSet)
      ensures tempPrimeSet.elems == SetOf(old(Value()).sets, f) + Numbers(data) && IsListing(order, tempPrimeSet.elems)
      ensures (Value(), failure) == MergeAndCommit(old(Value()), f, data, servers, env, order)
    {
      hide Numbers, Parse, AppendAndCommit, IsListing, Print, Wrap32, Acks;
      tempPrimeSet := MergePayload(f, data);
      var content;
      content, order := PrintSet(tempPrimeSet.elems);
      failure := LogAndCommit(f, content, env);
    }

    /** The work of a dirty Close, under the write lock of the file. */
    method CommitData(f: string, data: string, env: Env) returns (outcome: Outcome, ghost order: seq<uint64>)
      requires Valid() && f in versions
      modifies Objects()
      ensures Valid() && servers == old(servers) && open == old(open) && fresh(Objects() - old(Objects()))
      ensures outcome.Closed? ==> f in versions && outcome == Closed(versions[f])
      ensures outcome.Closed? || outcome.PersistFailed? || outcome.NoMajority?
      ensures IsListing(order, SetOf(old(Value()).sets, f) + Numbers(data))
      ensures (Value(), outcome) == CommitPayload(old(Value()), f, data, old(servers), env, order)
    {
      hide Numbers, AppendAndCommit, CloseEntry, IsListing, Wrap32;
      var failure, tempPrimeSet;
      failure, tempPrimeSet, order := MergeAndCommitData(f, data, env);
      if failure.Some? {
        return failure.value, order;
      }
      StoreSet(f, tempPrimeSet);
      RaiseVersion(f);
      outcome := Closed(versions[f]);
    }

    /** The client leaves the open file, and the reply is cached. */
    method FinishClose(req: CloseRequest, version: int, end: int)
      requires req.fd in open
      modifies this`open, this`requests
      ensures Value() == Finish(old(Value()), req, version, end)
    {
      var meta := open[req.fd];
      open := open[req.fd := meta.(clients := meta.clients - {req.client})];
      requests := requests[req.id := Cached(CloseReply("closed", version), end)];
    }

    /** getFileEntry: a name without an entry gets one. */
    method GetFileEntry(f: string)
      modifies this`versions
      ensures f in versions
      ensures Value() == old(Value()).(versions := old(versions)[f := VersionOf(old(versions), f)])
    {
      if f !in versions {
        versions := versions[f := UNSEEN_VERSION];
      }
      assert versions == old(versions)[f := VersionOf(old(versions), f)];
    }

    method HandleClose(req: CloseRequest, env: Env) returns (outcome: Outcome, ghost order: seq<uint64>)
      requires Valid()
      modifies Objects()
      ensures Valid() && servers == old(servers) && fresh(Objects() - old(Objects()))
      ensures (Value(), outcome) == Close(old(Value()), req, old(servers), env, order)
      ensures Logs(outcome, req.dirty) ==>
        req.fd in old(open) && IsListing(order, SetOf(old(Value()).sets, old(open)[req.fd].filename) + Numbers(req.data))
    {
      hide CommitPayload, Numbers, IsListing, SetOf;
      order := [];
      if !isPrimary {
        return NotLeader, order;
      }
      if req.id in requests && env.start - requests[req.id].time < REQUEST_CACHE_TTL {
        var reply := requests[req.id].reply;
        outcome := if reply.CloseReply? then Replied(reply) else Panics;
        return;
      }
      if req.fd !in open {
        return NotOpen, order;
      }
      var meta := open[req.fd];
      var f := meta.filename;
      if req.client !in meta.clients {
        return Hangs, order;
      }
      var mode := meta.clients[req.client];
      GetFileEntry(f);
      if req.dirty {
        if mode != Write {
          return WrongMode, order;
        }
        if req.version != versions[f] {
          return Conflict, order;
        }
        outcome, order := CommitData(f, req.data, env);
        if !outcome.Closed? {
          return;
        }
      }
      outcome := Closed(versions[f]);
      FinishClose(req, versions[f], env.end);
    }
  }
}
