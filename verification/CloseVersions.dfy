// Versions and the request cache under overlapping Close requests on one created file (server_basics.go:790-840 and
// 950-987). Any number of requests run at once; the only thing that orders them is the write lock of the file.
module CloseVersions {
  import opened Words

  type Thread = nat

  /** What a request ID stands for: a client that repeats an ID repeats the request. */
  datatype Request = Request(dirty: bool, version: int)

  datatype Result = Closed(version: int) | Replied(version: int) | Conflict | Failed

  /** Where a request is: before the cache check; past it; holding the lock; past the version check; about to cache its reply. */
  datatype PC = Checking | Waiting | Holding | Committing | Finishing(version: int) | Done(result: Result)

  datatype Task = Task(id: string, pc: PC)

  /** A Close that raised the version: its request, and the version it found. */
  datatype Success = Success(id: string, base: int)

  datatype System = System(
    version: int,
    writers: set<Thread>,
    cache: map<string, int>,
    tasks: map<Thread, Task>,
    successes: seq<Success>)

  datatype Step =
    | Arrive(t: Thread, id: string)
    | CheckCache(t: Thread)
    | Lock(t: Thread)
    | Validate(t: Thread)
    | Fail(t: Thread)        // the log write fails, or the majority is missed
    | Raise(t: Thread)
    | ReadVersion(t: Thread) // a clean Close takes no lock
    | Store(t: Thread)
    | Expire(id: string)

  predicate IsAt(s: System, t: Thread, pc: PC)
  {
    t in s.tasks && s.tasks[t].pc == pc
  }

  predicate Dirty(s: System, requests: map<string, Request>, t: Thread)
  {
    t in s.tasks && s.tasks[t].id in requests && requests[s.tasks[t].id].dirty
  }

  predicate Enabled(s: System, requests: map<string, Request>, step: Step)
  {
    match step
    case Arrive(t, id) => t !in s.tasks && id in requests
    case CheckCache(t) => IsAt(s, t, Checking)
    case Lock(t) => IsAt(s, t, Waiting) && Dirty(s, requests, t) && s.writers == {}
    case Validate(t) => IsAt(s, t, Holding)
    case Fail(t) => IsAt(s, t, Committing)
    case Raise(t) => IsAt(s, t, Committing)
    case ReadVersion(t) => IsAt(s, t, Waiting) && !Dirty(s, requests, t)
    case Store(t) => t in s.tasks && s.tasks[t].pc.Finishing?
    case Expire(id) => true
  }

  function Move(s: System, t: Thread, pc: PC): System
    requires t in s.tasks
  {
    s.(tasks := s.tasks[t := s.tasks[t].(pc := pc)])
  }

  function Unlock(s: System, t: Thread): System
  {
    s.(writers := s.writers - {t})
  }

  function Next(s: System, requests: map<string, Request>, step: Step): System
    requires Enabled(s, requests, step)
  {
    match step
    case Arrive(t, id) =>
      s.(tasks := s.tasks[t := Task(id, Checking)])
    case CheckCache(t) =>
      Move(s, t, if s.tasks[t].id in s.cache then Done(Replied(s.cache[s.tasks[t].id])) else Waiting)
    case Lock(t) =>
      Move(s.(writers := {t}), t, Holding)
    case Validate(t) =>
      if s.tasks[t].id in requests && requests[s.tasks[t].id].version == s.version then Move(s, t, Committing)
      else Move(Unlock(s, t), t, Done(Conflict))
    case Fail(t) =>
      Move(Unlock(s, t), t, Done(Failed))
    case Raise(t) =>
      var version := Wrap32(s.version + 1);
      Move(s.(version := version, successes := s.successes + [Success(s.tasks[t].id, s.version)]), t, Finishing(version))
    case ReadVersion(t) =>
      Move(s, t, Finishing(s.version))
    case Store(t) =>
      var version := s.tasks[t].pc.version;
      Move(Unlock(s.(cache := s.cache[s.tasks[t].id := version]), t), t, Done(Closed(version)))
    case Expire(id) =>
      s.(cache := s.cache - {id})
  }

  /** A file just created: version 0, no Close yet, and a cache that holds none of the request IDs to come. */
  predicate Initial(s: System, requests: map<string, Request>)
  {
    s.version == 0 && s.writers == {} && s.tasks == map[] && s.successes == [] && s.cache.Keys !! requests.Keys
  }

  predicate ValidRun(s: System, requests: map<string, Request>, steps: seq<Step>)
    decreases steps
  {
    steps == [] || (Enabled(s, requests, steps[0]) && ValidRun(Next(s, requests, steps[0]), requests, steps[1..]))
  }

  function After(s: System, requests: map<string, Request>, steps: seq<Step>): System
    requires ValidRun(s, requests, steps)
    decreases steps
  {
    if steps == [] then s else After(Next(s, requests, steps[0]), requests, steps[1..])
  }

  // ---------- the invariant ----------

  /** The k-th success found version k, as an int32. */
  ghost predicate CountingVersions(s: System)
  {
    && s.version == Wrap32(|s.successes|)
    && forall k :: 0 <= k < |s.successes| ==> s.successes[k].base == Wrap32(k)
  }

  ghost predicate HasSuccess(s: System, id: string)
  {
    exists k :: 0 <= k < |s.successes| && s.successes[k].id == id
  }

  /** A success is the success of a dirty request that carried the version it found. */
  ghost predicate HonestSuccesses(s: System, requests: map<string, Request>)
  {
    forall k :: 0 <= k < |s.successes| ==>
      var id := s.successes[k].id;
      id in requests && requests[id].dirty && requests[id].version == s.successes[k].base
  }

  /** The reply that a dirty request gets when it succeeds, and that the cache repeats. */
  ghost predicate RightReply(s: System, requests: map<string, Request>, id: string, version: int)
  {
    id in requests && requests[id].dirty ==> HasSuccess(s, id) && version == Wrap32(requests[id].version + 1)
  }

  predicate Locked(pc: PC)
  {
    pc.Holding? || pc.Committing? || pc.Finishing?
  }

  ghost predicate TaskOk(s: System, requests: map<string, Request>, t: Thread)
    requires t in s.tasks
  {
    var (id, pc) := (s.tasks[t].id, s.tasks[t].pc);
    && id in requests
    && (requests[id].dirty ==> (Locked(pc) <==> t in s.writers))
    && (!requests[id].dirty ==> t !in s.writers && !pc.Holding? && !pc.Committing?)
    && (pc.Committing? ==> requests[id].version == s.version)
    && (pc.Finishing? ==> RightReply(s, requests, id, pc.version))
    && (pc.Done? && pc.result.Closed? ==> RightReply(s, requests, id, pc.result.version))
    && (pc.Done? && pc.result.Replied? ==> RightReply(s, requests, id, pc.result.version))
  }

  ghost predicate Inv(s: System, requests: map<string, Request>)
  {
    && CountingVersions(s) && HonestSuccesses(s, requests)
    && |s.writers| <= 1 && s.writers <= s.tasks.Keys
    && (forall t :: t in s.tasks ==> TaskOk(s, requests, t))
    && (forall id :: id in s.cache ==> RightReply(s, requests, id, s.cache[id]))
  }

  lemma TwoElements<T>(x: set<T>, t: T, u: T)
    requires t in x && u in x && t != u
    ensures |x| >= 2
  {
    assert |x - {t, u}| == |x| - 2;
  }

  lemma OnlyWriter(s: System, requests: map<string, Request>, t: Thread, u: Thread)
    requires Inv(s, requests) && t in s.writers && u in s.writers
    ensures t == u
  {
    if t != u {
      TwoElements(s.writers, t, u);
    }
  }

  lemma WrapSucc(k: int)
    ensures Wrap32(Wrap32(k) + 1) == Wrap32(k + 1)
  {}

  lemma RaiseKeepsInv(s: System, requests: map<string, Request>, t: Thread)
    requires Inv(s, requests) && Enabled(s, requests, Raise(t))
    ensures Inv(Next(s, requests, Raise(t)), requests)
  {
    hide Wrap32;
    var s' := Next(s, requests, Raise(t));
    var id, n := s.tasks[t].id, |s.successes|;
    assert TaskOk(s, requests, t);
    WrapSucc(n);
    assert s'.successes[n].id == id;
    MoreSuccesses(s, s', requests);
    forall u | u in s'.tasks
      ensures TaskOk(s', requests, u)
    {
      assert u in s.tasks && TaskOk(s, requests, u);
      if u != t && s.tasks[u].pc.Committing? {
        OnlyWriter(s, requests, t, u);
      }
    }
  }

  /** More successes keep every reply right. */
  lemma MoreSuccesses(s: System, s': System, requests: map<string, Request>)
    requires s.successes <= s'.successes
    ensures forall id, version :: RightReply(s, requests, id, version) ==> RightReply(s', requests, id, version)
  {
    forall id, version | RightReply(s, requests, id, version)
      ensures RightReply(s', requests, id, version)
    {
      if id in requests && requests[id].dirty {
        var k :| 0 <= k < |s.successes| && s.successes[k].id == id;
        assert s'.successes[k].id == id;
      }
    }
  }

  lemma BystanderOk(s: System, s': System, requests: map<string, Request>, u: Thread)
    requires u in s.tasks && u in s'.tasks && TaskOk(s, requests, u)
    requires s'.tasks[u] == s.tasks[u] && (u in s'.writers <==> u in s.writers)
    requires s'.version == s.version && s'.successes == s.successes
    ensures TaskOk(s', requests, u)
  {}

  lemma MoverOk(s: System, requests: map<string, Request>, step: Step)
    requires Inv(s, requests) && Enabled(s, requests, step) && !step.Raise? && !step.Expire?
    ensures TaskOk(Next(s, requests, step), requests, step.t)
  {
    hide Wrap32, CountingVersions;
    if !step.Arrive? {
      assert TaskOk(s, requests, step.t);
    }
    MoreSuccesses(s, Next(s, requests, step), requests);
  }

  lemma OtherStepKeepsInv(s: System, requests: map<string, Request>, step: Step)
    requires Inv(s, requests) && Enabled(s, requests, step) && !step.Raise?
    ensures Inv(Next(s, requests, step), requests)
  {
    hide Wrap32, CountingVersions, HonestSuccesses, TaskOk;
    var s' := Next(s, requests, step);
    CountingOnly(s, s', requests);
    MoreSuccesses(s, s', requests);
    forall u | u in s'.tasks
      ensures TaskOk(s', requests, u)
    {
      if !step.Expire? && u == step.t {
        MoverOk(s, requests, step);
      } else {
        BystanderOk(s, s', requests, u);
      }
    }
    if step.Store? {
      StoredReplyIsRight(s, requests, step.t);
    }
  }

  lemma StoredReplyIsRight(s: System, requests: map<string, Request>, t: Thread)
    requires Inv(s, requests) && Enabled(s, requests, Store(t))
    ensures RightReply(s, requests, s.tasks[t].id, s.tasks[t].pc.version)
  {
    assert TaskOk(s, requests, t);
  }

  lemma CountingOnly(s: System, s': System, requests: map<string, Request>)
    requires CountingVersions(s) && HonestSuccesses(s, requests) && s'.version == s.version && s'.successes == s.successes
    ensures CountingVersions(s') && HonestSuccesses(s', requests)
  {}

  lemma InitialInv(s: System, requests: map<string, Request>)
    requires Initial(s, requests)
    ensures Inv(s, requests)
  {}

  lemma {:induction false} RunKeepsInv(s: System, requests: map<string, Request>, steps: seq<Step>)
    requires Inv(s, requests) && ValidRun(s, requests, steps)
    ensures Inv(After(s, requests, steps), requests)
    decreases steps
  {
    if steps != [] {
      match steps[0] {
        case Raise(t) => RaiseKeepsInv(s, requests, t);
        case _ => OtherStepKeepsInv(s, requests, steps[0]);
      }
      RunKeepsInv(Next(s, requests, steps[0]), requests, steps[1..]);
    }
  }

  // ---------- no lost update ----------

  /**
   * In every interleaving, the successful dirty Closes carry base versions 0, 1, 2, ...; as the version is an int32, two of
   * them carry the same base exactly when a multiple of 2^32 successes lies between them.
   */
  lemma NoLostUpdate(s: System, requests: map<string, Request>, steps: seq<Step>)
    requires Initial(s, requests) && ValidRun(s, requests, steps)
    ensures var log := After(s, requests, steps).successes;
            && (forall k :: 0 <= k < |log| ==> log[k].base == Wrap32(k))
            && (forall j, k :: 0 <= j < |log| && 0 <= k < |log| ==> (log[j].base == log[k].base <==> (k - j) % FULL32 == 0))
  {
    InitialInv(s, requests);
    RunKeepsInv(s, requests, steps);
    var log := After(s, requests, steps).successes;
    forall j, k | 0 <= j < |log| && 0 <= k < |log|
      ensures log[j].base == log[k].base <==> (k - j) % FULL32 == 0
    {
      Wrap32Equal(j, k);
    }
  }

  // ---------- at most once ----------

  /** One request ID raises the version at most once in any 2^32 successes, even when its repeats overlap and the cache forgets it. */
  lemma AtMostOnce(s: System, requests: map<string, Request>, steps: seq<Step>, j: nat, k: nat)
    requires Initial(s, requests) && ValidRun(s, requests, steps)
    requires j < k < |After(s, requests, steps).successes| && k - j < FULL32
    ensures After(s, requests, steps).successes[j].id != After(s, requests, steps).successes[k].id
  {
    InitialInv(s, requests);
    RunKeepsInv(s, requests, steps);
    Wrap32Equal(j, k);
  }

  /** All positive replies to one dirty request ID, first or repeated, report the same version, and it did succeed. */
  lemma RepliesAgree(s: System, requests: map<string, Request>, steps: seq<Step>, t: Thread)
    requires Initial(s, requests) && ValidRun(s, requests, steps)
    requires var e := After(s, requests, steps);
             t in e.tasks && Dirty(e, requests, t) && e.tasks[t].pc.Done? && (e.tasks[t].pc.result.Closed? || e.tasks[t].pc.result.Replied?)
    ensures var e := After(s, requests, steps);
            HasSuccess(e, e.tasks[t].id) && e.tasks[t].pc.result.version == Wrap32(requests[e.tasks[t].id].version + 1)
  {
    InitialInv(s, requests);
    RunKeepsInv(s, requests, steps);
    assert TaskOk(After(s, requests, steps), requests, t);
  }

  lemma CacheStays(s: System, requests: map<string, Request>, step: Step, id: string)
    requires Inv(s, requests) && Enabled(s, requests, step) && step != Expire(id)
    requires id in requests && requests[id].dirty && id in s.cache
    ensures id in Next(s, requests, step).cache && Next(s, requests, step).cache[id] == s.cache[id]
  {
    if step.Store? {
      assert TaskOk(s, requests, step.t);
    }
  }

  lemma {:induction false} CacheStaysInRun(s: System, requests: map<string, Request>, steps: seq<Step>, id: string)
    requires Inv(s, requests) && ValidRun(s, requests, steps)
    requires id in requests && requests[id].dirty && id in s.cache
    requires forall i :: 0 <= i < |steps| ==> steps[i] != Expire(id)
    ensures id in After(s, requests, steps).cache && After(s, requests, steps).cache[id] == s.cache[id]
    decreases steps
  {
    if steps != [] {
      CacheStays(s, requests, steps[0], id);
      match steps[0] {
        case Raise(t) => RaiseKeepsInv(s, requests, t);
        case _ => OtherStepKeepsInv(s, requests, steps[0]);
      }
      CacheStaysInRun(Next(s, requests, steps[0]), requests, steps[1..], id);
    }
  }

  /** From the moment a dirty request's reply is cached until it expires, a repeat gets that reply and changes nothing else. */
  lemma RepeatGetsStoredReply(s: System, requests: map<string, Request>, before: seq<Step>, after: seq<Step>, id: string, t: Thread)
    requires Initial(s, requests) && ValidRun(s, requests, before) && ValidRun(After(s, requests, before), requests, after)
    requires id in requests && requests[id].dirty && id in After(s, requests, before).cache
    requires forall i :: 0 <= i < |after| ==> after[i] != Expire(id)
    requires var e := After(After(s, requests, before), requests, after); IsAt(e, t, Checking) && e.tasks[t].id == id
    ensures var m := After(s, requests, before);
            var e := After(m, requests, after);
            Next(e, requests, CheckCache(t)) == Move(e, t, Done(Replied(m.cache[id])))
  {
    InitialInv(s, requests);
    RunKeepsInv(s, requests, before);
    CacheStaysInRun(After(s, requests, before), requests, after, id);
  }

  // ---------- a request that runs alone ----------

  /** What the thread does under the lock, when nobody else runs. */
  function StepsUnderLock(t: Thread, result: Result): seq<Step>
  {
    match result
    case Closed(_) => [Lock(t), Validate(t), Raise(t), Store(t)]
    case Failed => [Lock(t), Validate(t), Fail(t)]
    case _ => [Lock(t), Validate(t)]
  }

  function StepsOf(t: Thread, dirty: bool, result: Result): seq<Step>
  {
    [CheckCache(t)] +
    if result.Replied? then [] else if dirty then StepsUnderLock(t, result) else [ReadVersion(t), Store(t)]
  }

  /** The steps lead from s to e. */
  ghost predicate RunsTo(s: System, requests: map<string, Request>, steps: seq<Step>, e: System)
  {
    ValidRun(s, requests, steps) && After(s, requests, steps) == e
  }

  /** A list of states, each the next of the one before, is a run. */
  lemma {:induction false} StatesMakeRun(states: seq<System>, requests: map<string, Request>, steps: seq<Step>)
    requires |states| == |steps| + 1
    requires forall i :: 0 <= i < |steps| ==>
      Enabled(states[i], requests, steps[i]) && states[i + 1] == Next(states[i], requests, steps[i])
    ensures RunsTo(states[0], requests, steps, states[|steps|])
    decreases steps
  {
    if steps != [] {
      StatesMakeRun(states[1..], requests, steps[1..]);
    }
  }

  lemma RunsToFromNext(s: System, requests: map<string, Request>, step: Step, steps: seq<Step>, e: System)
    requires Enabled(s, requests, step) && RunsTo(Next(s, requests, step), requests, steps, e)
    ensures RunsTo(s, requests, [step] + steps, e)
  {
    assert ([step] + steps)[1..] == steps;
  }

  /** The result of a request that nothing disturbs, given whether its log write or its replication fails. */
  function Alone(s: System, request: Request, id: string, failed: bool): Result
  {
    if id in s.cache then Replied(s.cache[id])
    else if !request.dirty then Closed(s.version)
    else if request.version != s.version then Conflict
    else if failed then Failed
    else Closed(Wrap32(s.version + 1))
  }

  /** How a request that runs alone leaves the system. */
  predicate Ended(s: System, t: Thread, id: string, dirty: bool, result: Result, e: System)
  {
    && IsAt(e, t, Done(result)) && e.writers == {} && e.tasks.Keys == s.tasks.Keys
    && e.successes == s.successes + (if dirty && result.Closed? then [Success(id, s.version)] else [])
    && e.version == (if result.Closed? then result.version else s.version)
    && e.cache == (if result.Closed? then s.cache[id := result.version] else s.cache)
  }

  lemma LockedRuns(s: System, requests: map<string, Request>, t: Thread, failed: bool) returns (e: System)
    requires IsAt(s, t, Waiting) && Dirty(s, requests, t) && s.writers == {} && s.tasks[t].id !in s.cache
    ensures var (id, request) := (s.tasks[t].id, requests[s.tasks[t].id]);
            && RunsTo(s, requests, StepsUnderLock(t, Alone(s, request, id, failed)), e)
            && Ended(s, t, id, request.dirty, Alone(s, request, id, failed), e)
  {
    hide Wrap32, RunsTo;
    var result := Alone(s, requests[s.tasks[t].id], s.tasks[t].id, failed);
    var s1 := Next(s, requests, Lock(t));
    var s2 := Next(s1, requests, Validate(t));
    if result.Conflict? {
      e := s2;
      StatesMakeRun([s, s1, s2], requests, [Lock(t), Validate(t)]);
    } else if failed {
      e := Next(s2, requests, Fail(t));
      StatesMakeRun([s, s1, s2, e], requests, [Lock(t), Validate(t), Fail(t)]);
    } else {
      var s3 := Next(s2, requests, Raise(t));
      e := Next(s3, requests, Store(t));
      StatesMakeRun([s, s1, s2, s3, e], requests, [Lock(t), Validate(t), Raise(t), Store(t)]);
    }
  }

  /** A request that runs alone ends with that result, raises the version if it is dirty and succeeds, and caches its reply. */
  lemma AloneRuns(s: System, requests: map<string, Request>, t: Thread, failed: bool) returns (e: System)
    requires IsAt(s, t, Checking) && s.writers == {} && s.tasks[t].id in requests
    ensures var (id, request) := (s.tasks[t].id, requests[s.tasks[t].id]);
            && RunsTo(s, requests, StepsOf(t, request.dirty, Alone(s, request, id, failed)), e)
            && Ended(s, t, id, request.dirty, Alone(s, request, id, failed), e)
  {
    hide Wrap32, RunsTo;
    var (id, request) := (s.tasks[t].id, requests[s.tasks[t].id]);
    var s1 := Next(s, requests, CheckCache(t));
    if id in s.cache {
      e := s1;
      StatesMakeRun([s, s1], requests, [CheckCache(t)]);
    } else if request.dirty {
      e := LockedRuns(s1, requests, t, failed);
      RunsToFromNext(s, requests, CheckCache(t), StepsUnderLock(t, Alone(s, request, id, failed)), e);
    } else {
      var s2 := Next(s1, requests, ReadVersion(t));
      e := Next(s2, requests, Store(t));
      StatesMakeRun([s, s1, s2, e], requests, [CheckCache(t), ReadVersion(t), Store(t)]);
    }
    assert [CheckCache(t)] + [ReadVersion(t), Store(t)] == [CheckCache(t), ReadVersion(t), Store(t)];
    assert [CheckCache(t)] + [] == [CheckCache(t)];
  }

  // ---------- the bound of 2^32 is sharp ----------

  lemma {:induction false} RunsToConcat(s: System, requests: map<string, Request>, a: seq<Step>, m: System, b: seq<Step>, e: System)
    requires RunsTo(s, requests, a, m) && RunsTo(m, requests, b, e)
    ensures RunsTo(s, requests, a + b, e)
    decreases a
  {
    if a == [] {
      assert a + b == b;
    } else {
      RunsToConcat(Next(s, requests, a[0]), requests, a[1..], m, b, e);
      RunsToFromNext(s, requests, a[0], a[1..] + b, e);
      assert [a[0]] + (a[1..] + b) == a + b;
    }
  }

  /** A new request for the current version arrives, succeeds alone, and its reply expires. */
  lemma OneSuccess(s: System, requests: map<string, Request>, t: Thread, id: string) returns (steps: seq<Step>, e: System)
    requires s.writers == {} && t !in s.tasks && id in requests && id !in s.cache
    requires requests[id] == Request(true, s.version)
    ensures RunsTo(s, requests, steps, e)
    ensures e.writers == {} && e.tasks.Keys == s.tasks.Keys + {t} && e.cache == s.cache
    ensures e.version == Wrap32(s.version + 1) && e.successes == s.successes + [Success(id, s.version)]
  {
    hide Wrap32, RunsTo;
    var s1 := Next(s, requests, Arrive(t, id));
    var s2 := AloneRuns(s1, requests, t, false);
    var alone := StepsOf(t, true, Alone(s1, requests[id], id, false));
    e := Next(s2, requests, Expire(id));
    StatesMakeRun([s2, e], requests, [Expire(id)]);
    RunsToFromNext(s, requests, Arrive(t, id), alone, s2);
    RunsToConcat(s, requests, [Arrive(t, id)] + alone, s2, [Expire(id)], e);
    steps := [Arrive(t, id)] + alone + [Expire(id)];
  }

  /** There is a request for every version; byVersion names one. */
  ghost predicate CoverAllVersions(requests: map<string, Request>, byVersion: int -> string)
  {
    forall v: int :: -HALF32 <= v < HALF32 ==> byVersion(v) in requests && requests[byVersion(v)] == Request(true, v)
  }

  lemma {:induction false} SuccessesInOrder(s: System, requests: map<string, Request>, byVersion: int -> string, n: nat)
    returns (steps: seq<Step>, e: System)
    requires Initial(s, requests) && CoverAllVersions(requests, byVersion)
    ensures RunsTo(s, requests, steps, e)
    ensures e.writers == {} && e.cache == s.cache && e.version == Wrap32(n) && forall t :: t in e.tasks ==> t < n
    ensures |e.successes| == n && forall k :: 0 <= k < n ==> e.successes[k].id == byVersion(Wrap32(k))
  {
    if n == 0 {
      steps, e := [], s;
      assert Wrap32(0) == 0;
    } else {
      var first, m := SuccessesInOrder(s, requests, byVersion, n - 1);
      WrapSucc(n - 1);
      hide RunsTo;
      var last;
      last, e := OneSuccess(m, requests, n - 1, byVersion(m.version));
      RunsToConcat(s, requests, first, m, last, e);
      steps := first + last;
    }
  }

  /** With a request for every version, some run lets one request ID raise the version twice, 2^32 successes apart. */
  lemma SecondRaise(s: System, requests: map<string, Request>, byVersion: int -> string) returns (steps: seq<Step>)
    requires Initial(s, requests) && CoverAllVersions(requests, byVersion)
    ensures ValidRun(s, requests, steps) && |After(s, requests, steps).successes| == FULL32 + 1
    ensures After(s, requests, steps).successes[0].id == After(s, requests, steps).successes[FULL32].id
  {
    var e;
    steps, e := SuccessesInOrder(s, requests, byVersion, FULL32 + 1);
    Wrap32Equal(0, FULL32);
  }
}
