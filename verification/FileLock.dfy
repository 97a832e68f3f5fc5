// The read/write lock of a FileEntry (server_basics.go): a mutex, one condition variable, and three counters.
// The mutex makes every critical section one atomic step; cond.Wait splits an acquisition into several of them.
module FileLock {
  import opened Basics

  type Thread = nat

  /** The lock's fields, and the threads asleep in cond.Wait. */
  datatype Monitor = Monitor(readers: int, writer: bool, waiting: int, asleep: set<Thread>)
  {
    predicate CanRead()
    {
      !writer && waiting == 0
    }

    predicate CanWrite()
    {
      !writer && readers == 0
    }
  }

  // ---------- critical sections ----------

  /** The condition for a reader: AcquireReadNoPriority ignores waiting writers. */
  predicate ReadGuard(m: Monitor, priority: bool)
  {
    if priority then m.CanRead() else !m.writer
  }

  /** One pass of a read acquisition, first or after a wake-up: enter, or go to sleep. */
  function ReadPass(m: Monitor, t: Thread, priority: bool): (Monitor, bool)
  {
    if ReadGuard(m, priority) then (m.(readers := m.readers + 1), true)
    else (m.(asleep := m.asleep + {t}), false)
  }

  function ReadRelease(m: Monitor): Monitor
  {
    Monitor(if m.readers > 0 then m.readers - 1 else m.readers, m.writer, m.waiting, {})
  }

  /** One pass of a write acquisition by a thread already counted in waiting. */
  function WritePass(m: Monitor, t: Thread): (Monitor, bool)
  {
    if m.CanWrite() then (m.(waiting := m.waiting - 1, writer := true), true)
    else (m.(asleep := m.asleep + {t}), false)
  }

  function WriteRelease(m: Monitor): Monitor
  {
    m.(writer := false, asleep := {})
  }

  /** Delete's attempt: it takes the lock as a writer without waiting, or gives up. */
  function TryDelete(m: Monitor): (Monitor, bool)
  {
    if m.readers > 0 || m.writer then (m, false) else (m.(writer := true), true)
  }

  /** The lock as the Go struct keeps it. Each method is one critical section. */
  class FileEntry {
    var activeReaders: int
    var activeWriter: bool
    var waitingWriters: int
    ghost var asleep: set<Thread>

    ghost function State(): Monitor
      reads this
    {
      Monitor(activeReaders, activeWriter, waitingWriters, asleep)
    }

    constructor ()
      ensures State() == Monitor(0, false, 0, {})
    {
      activeReaders, activeWriter, waitingWriters, asleep := 0, false, 0, {};
    }

    predicate CanRead()
      reads this
    {
      !activeWriter && waitingWriters == 0
    }

    predicate CanWrite()
      reads this
    {
      !activeWriter && activeReaders == 0
    }

    /** The body of AcquireReadNoPriority between locking (or waking) and unlocking (or sleeping). */
    method AcquireReadNoPriority(t: Thread) returns (entered: bool)
      modifies this
      ensures (State(), entered) == ReadPass(old(State()), t, false)
    {
      if activeWriter {
        asleep := asleep + {t};
        return false;
      }
      activeReaders := activeReaders + 1;
      return true;
    }

    method AcquireRead(t: Thread) returns (entered: bool)
      modifies this
      ensures (State(), entered) == ReadPass(old(State()), t, true)
    {
      if !CanRead() {
        asleep := asleep + {t};
        return false;
      }
      activeReaders := activeReaders + 1;
      return true;
    }

    method ReleaseRead()
      modifies this
      ensures State() == ReadRelease(old(State()))
    {
      if activeReaders > 0 {
        activeReaders := activeReaders - 1;
      }
      asleep := {};
    }

    /** The first section of AcquireWrite: announce the writer, then try. */
    method AcquireWrite(t: Thread) returns (entered: bool)
      modifies this
      ensures (State(), entered) == WritePass(old(State()).(waiting := old(State()).waiting + 1), t)
    {
      waitingWriters := waitingWriters + 1;
      entered := AcquireWriteAgain(t);
    }

    /** The rest of AcquireWrite, also run after each wake-up. */
    method AcquireWriteAgain(t: Thread) returns (entered: bool)
      modifies this
      ensures (State(), entered) == WritePass(old(State()), t)
    {
      if !CanWrite() {
        asleep := asleep + {t};
        return false;
      }
      waitingWriters := waitingWriters - 1;
      activeWriter := true;
      return true;
    }

    method ReleaseWrite()
      modifies this
      ensures State() == WriteRelease(old(State()))
    {
      activeWriter := false;
      asleep := {};
    }

    method TryLockForDelete() returns (locked: bool)
      modifies this
      ensures (State(), locked) == TryDelete(old(State()))
    {
      if activeReaders > 0 || activeWriter {
        return false;
      }
      activeWriter := true;
      return true;
    }
  }

  // ---------- any number of threads ----------

  /** What a thread is doing with the lock. A thread that wants it is awake or asleep, as Monitor.asleep says. */
  datatype PC = Idle | WantRead(priority: bool) | WantWrite | Reading | Writing

  datatype System = System(m: Monitor, pcs: map<Thread, PC>)

  datatype Step =
    | StartRead(t: Thread, priority: bool)
    | RetryRead(t: Thread)
    | StartWrite(t: Thread)
    | RetryWrite(t: Thread)
    | EndRead(t: Thread)
    | EndWrite(t: Thread)
    | Delete(t: Thread)

  /** Which steps can be taken: releases are matched, and a sleeping thread takes none. */
  predicate Enabled(s: System, step: Step)
  {
    && step.t in s.pcs
    && match step
       case StartRead(t, _) => s.pcs[t] == Idle
       case RetryRead(t) => s.pcs[t].WantRead? && t !in s.m.asleep
       case StartWrite(t) => s.pcs[t] == Idle
       case RetryWrite(t) => s.pcs[t] == WantWrite && t !in s.m.asleep
       case EndRead(t) => s.pcs[t] == Reading
       case EndWrite(t) => s.pcs[t] == Writing
       case Delete(t) => s.pcs[t] == Idle
  }

  function Next(s: System, step: Step): System
    requires Enabled(s, step)
  {
    match step
    case StartRead(t, priority) =>
      var (m, entered) := ReadPass(s.m, t, priority);
      System(m, s.pcs[t := if entered then Reading else WantRead(priority)])
    case RetryRead(t) =>
      var (m, entered) := ReadPass(s.m, t, s.pcs[t].priority);
      System(m, if entered then s.pcs[t := Reading] else s.pcs)
    case StartWrite(t) =>
      var (m, entered) := WritePass(s.m.(waiting := s.m.waiting + 1), t);
      System(m, s.pcs[t := if entered then Writing else WantWrite])
    case RetryWrite(t) =>
      var (m, entered) := WritePass(s.m, t);
      System(m, if entered then s.pcs[t := Writing] else s.pcs)
    case EndRead(t) =>
      System(ReadRelease(s.m), s.pcs[t := Idle])
    case EndWrite(t) =>
      System(WriteRelease(s.m), s.pcs[t := Idle])
    case Delete(t) =>
      var (m, locked) := TryDelete(s.m);
      System(m, if locked then s.pcs[t := Writing] else s.pcs)
  }

  ghost predicate Initial(s: System)
  {
    s.m == Monitor(0, false, 0, {}) && forall t :: t in s.pcs ==> s.pcs[t] == Idle
  }

  predicate ValidRun(s: System, steps: seq<Step>)
    decreases steps
  {
    steps == [] || (Enabled(s, steps[0]) && ValidRun(Next(s, steps[0]), steps[1..]))
  }

  function After(s: System, steps: seq<Step>): System
    requires ValidRun(s, steps)
    decreases steps
  {
    if steps == [] then s else After(Next(s, steps[0]), steps[1..])
  }

  // ---------- the invariant ----------

  function At(pcs: map<Thread, PC>, pc: PC): set<Thread>
  {
    set t | t in pcs && pcs[t] == pc
  }

  predicate Wants(pc: PC)
  {
    pc.WantRead? || pc.WantWrite?
  }

  predicate Holds(pc: PC)
  {
    pc.Reading? || pc.Writing?
  }

  /** The condition that a thread wanting the lock waits for. */
  predicate Guard(m: Monitor, pc: PC)
    requires Wants(pc)
  {
    if pc.WantRead? then ReadGuard(m, pc.priority) else m.CanWrite()
  }

  /** The counters count exactly the threads they are named after. */
  ghost predicate ExactCounters(s: System)
  {
    && s.m.readers == |At(s.pcs, Reading)|
    && s.m.waiting == |At(s.pcs, WantWrite)|
    && |At(s.pcs, Writing)| == if s.m.writer then 1 else 0
  }

  /** Readers and a writer never hold the lock together. */
  ghost predicate Exclusion(s: System)
  {
    forall t, u :: t in s.pcs && u in s.pcs && s.pcs[t] == Writing && u != t ==>
      s.pcs[u] != Writing && s.pcs[u] != Reading
  }

  /** No lost wake-up: a thread sleeps only while the condition it waits for is false. */
  ghost predicate SleepersMustWait(s: System)
  {
    forall t :: t in s.m.asleep ==> t in s.pcs && Wants(s.pcs[t]) && !Guard(s.m, s.pcs[t])
  }

  ghost predicate Inv(s: System)
  {
    ExactCounters(s) && SleepersMustWait(s) && (s.m.writer ==> s.m.readers == 0)
  }

  lemma Toggle(x: set<Thread>, y: set<Thread>, t: Thread, inY: bool)
    requires y == if inY then x + {t} else x - {t}
    ensures |y| == |x| - (if t in x then 1 else 0) + (if inY then 1 else 0)
  {
    if t in x && inY {
      assert y == x;
    } else if t !in x && !inY {
      assert y == x;
    }
  }

  lemma MoveCounts(pcs: map<Thread, PC>, t: Thread, to: PC, pc: PC)
    requires t in pcs
    ensures |At(pcs[t := to], pc)| == |At(pcs, pc)| - (if pcs[t] == pc then 1 else 0) + (if to == pc then 1 else 0)
  {
    Toggle(At(pcs, pc), At(pcs[t := to], pc), t, to == pc);
  }

  lemma MoveKeepsCounters(s: System, t: Thread, to: PC)
    requires t in s.pcs
    ensures forall pc :: pc in {Reading, WantWrite, Writing} ==>
      |At(s.pcs[t := to], pc)| == |At(s.pcs, pc)| - (if s.pcs[t] == pc then 1 else 0) + (if to == pc then 1 else 0)
  {
    MoveCounts(s.pcs, t, to, Reading);
    MoveCounts(s.pcs, t, to, WantWrite);
    MoveCounts(s.pcs, t, to, Writing);
  }

  lemma MemberCounts(pcs: map<Thread, PC>, t: Thread)
    requires t in pcs
    ensures |At(pcs, pcs[t])| >= 1
  {
    assert t in At(pcs, pcs[t]);
  }

  lemma StepKeepsInv(s: System, step: Step)
    requires Inv(s) && Enabled(s, step)
    ensures Inv(Next(s, step))
  {
    var s' := Next(s, step);
    MoveKeepsCounters(s, step.t, s'.pcs[step.t]);
    MemberCounts(s.pcs, step.t);
    assert s.pcs[step.t := s'.pcs[step.t]] == s'.pcs;
  }

  lemma {:induction false} RunKeepsInv(s: System, steps: seq<Step>)
    requires Inv(s) && ValidRun(s, steps)
    ensures Inv(After(s, steps))
    decreases steps
  {
    if steps != [] {
      StepKeepsInv(s, steps[0]);
      RunKeepsInv(Next(s, steps[0]), steps[1..]);
    }
  }

  lemma InitialInv(s: System)
    requires Initial(s)
    ensures Inv(s)
  {
    assert At(s.pcs, Reading) == {} && At(s.pcs, WantWrite) == {} && At(s.pcs, Writing) == {};
  }

  // ---------- what every reachable state satisfies ----------

  /** In every interleaving the counters are exact, readers and writers exclude each other, and no wake-up is lost. */
  lemma MutualExclusion(s: System, steps: seq<Step>)
    requires Initial(s) && ValidRun(s, steps)
    ensures ExactCounters(After(s, steps))
    ensures Exclusion(After(s, steps))
    ensures SleepersMustWait(After(s, steps))
  {
    InitialInv(s);
    RunKeepsInv(s, steps);
    InvExcludes(After(s, steps));
  }

  lemma InvExcludes(s: System)
    requires Inv(s)
    ensures Exclusion(s)
  {
    forall t, u | t in s.pcs && u in s.pcs && s.pcs[t] == Writing && u != t
      ensures s.pcs[u] != Writing && s.pcs[u] != Reading
    {
      var writers := At(s.pcs, Writing);
      assert t in writers;
      if s.pcs[u] == Writing {
        assert {t, u} <= writers;
        SubsetSize({t, u}, writers);
      } else if s.pcs[u] == Reading {
        MemberCounts(s.pcs, u);
      }
    }
  }

  /** Some awake thread can enter at its next step. */
  ghost predicate SomeoneCanEnter(s: System)
  {
    exists t :: t in s.pcs && Wants(s.pcs[t]) && t !in s.m.asleep && Guard(s.m, s.pcs[t])
  }

  ghost predicate SomeoneHolds(s: System)
  {
    exists t :: t in s.pcs && Holds(s.pcs[t])
  }

  lemma InvNeverStuck(s: System, t: Thread)
    requires Inv(s) && t in s.pcs && Wants(s.pcs[t])
    ensures SomeoneHolds(s) || SomeoneCanEnter(s)
  {
    if s.m.readers > 0 {
      var u :| u in At(s.pcs, Reading);
      assert SomeoneHolds(s);
    } else if s.m.writer {
      var u :| u in At(s.pcs, Writing);
      assert SomeoneHolds(s);
    } else if s.m.waiting > 0 {
      var u :| u in At(s.pcs, WantWrite);
      assert Guard(s.m, s.pcs[u]);
    } else {
      assert s.pcs[t].WantRead? by {
        if s.pcs[t] == WantWrite {
          MemberCounts(s.pcs, t);
        }
      }
      assert Guard(s.m, s.pcs[t]);
    }
  }

  /** No deadlock: while any thread waits, some thread holds the lock or an awake waiter can enter. */
  lemma NeverStuck(s: System, steps: seq<Step>, t: Thread)
    requires Initial(s) && ValidRun(s, steps)
    requires t in After(s, steps).pcs && Wants(After(s, steps).pcs[t])
    ensures SomeoneHolds(After(s, steps)) || SomeoneCanEnter(After(s, steps))
  {
    InitialInv(s);
    RunKeepsInv(s, steps);
    InvNeverStuck(After(s, steps), t);
  }

  // ---------- who gets in ----------

  /** Some thread reads, or writes, or waits to write. */
  ghost predicate Present(s: System, pc: PC)
  {
    exists t :: t in s.pcs && s.pcs[t] == pc
  }

  lemma SomeIffCounted(s: System, pc: PC)
    ensures Present(s, pc) <==> |At(s.pcs, pc)| > 0
  {
    if Present(s, pc) {
      var t :| t in s.pcs && s.pcs[t] == pc;
      assert t in At(s.pcs, pc);
    }
    if |At(s.pcs, pc)| > 0 {
      var t :| t in At(s.pcs, pc);
    }
  }

  lemma Counted(s: System)
    requires Inv(s)
    ensures s.m.readers > 0 <==> Present(s, Reading)
    ensures s.m.writer <==> Present(s, Writing)
    ensures s.m.waiting > 0 <==> Present(s, WantWrite)
  {
    SomeIffCounted(s, Reading);
    SomeIffCounted(s, Writing);
    SomeIffCounted(s, WantWrite);
  }

  /** A reader that tries enters exactly when nobody writes and, with AcquireRead, nobody waits to write; otherwise it sleeps. */
  lemma ReaderEntersIff(s: System, step: Step)
    requires Inv(s) && Enabled(s, step) && (step.StartRead? || step.RetryRead?)
    ensures var priority := if step.StartRead? then step.priority else s.pcs[step.t].priority;
            var s' := Next(s, step);
            if !Present(s, Writing) && !(priority && Present(s, WantWrite)) then s'.pcs == s.pcs[step.t := Reading]
            else s'.pcs == s.pcs[step.t := WantRead(priority)] && s'.m.asleep == s.m.asleep + {step.t}
  {
    Counted(s);
  }

  /** A writer that tries enters exactly when nobody holds the lock; otherwise it sleeps. */
  lemma WriterEntersIff(s: System, step: Step)
    requires Inv(s) && Enabled(s, step) && (step.StartWrite? || step.RetryWrite?)
    ensures var s' := Next(s, step);
            if !Present(s, Reading) && !Present(s, Writing) then s'.pcs == s.pcs[step.t := Writing]
            else s'.pcs == s.pcs[step.t := WantWrite] && s'.m.asleep == s.m.asleep + {step.t}
  {
    Counted(s);
  }

  /** Delete gets the lock exactly when nobody holds it, whoever may be waiting; a refused attempt changes nothing. */
  lemma DeleteEntersIff(s: System, t: Thread)
    requires Inv(s) && Enabled(s, Delete(t))
    ensures var s' := Next(s, Delete(t));
            if !Present(s, Reading) && !Present(s, Writing) then s'.pcs == s.pcs[t := Writing] && s'.m == s.m.(writer := true)
            else s' == s
  {
    Counted(s);
  }

  /** A release wakes everybody and lets one holder go; nobody else moves. */
  lemma ReleaseWakesAll(s: System, step: Step)
    requires Inv(s) && Enabled(s, step) && (step.EndRead? || step.EndWrite?)
    ensures Next(s, step).m.asleep == {} && Next(s, step).pcs == s.pcs[step.t := Idle]
  {}

  /** Releasing a lock that has no reader keeps the counter at 0, and still wakes everybody. */
  lemma UnmatchedReadRelease(m: Monitor)
    requires m.readers == 0
    ensures ReadRelease(m) == m.(asleep := {})
  {}

  // ---------- every wait ends when arrivals stop ----------

  predicate Releases(step: Step)
  {
    step.EndRead? || step.EndWrite?
  }

  /** Steps of threads that already wait or hold: no new arrivals. */
  predicate Drains(step: Step)
  {
    step.RetryRead? || step.RetryWrite? || Releases(step)
  }

  function Waiters(s: System): set<Thread>
  {
    set t | t in s.pcs && Wants(s.pcs[t])
  }

  function Holders(s: System): set<Thread>
  {
    set t | t in s.pcs && Holds(s.pcs[t])
  }

  /** n rounds of k steps. */
  function Rounds(n: nat, k: nat): nat
  {
    if n == 0 then 0 else k + Rounds(n - 1, k)
  }

  /** How many threads have yet to enter, and to leave. */
  function Pending(s: System): nat
  {
    2 * |Waiters(s)| + |Holders(s)|
  }

  function Awake(s: System): nat
  {
    |Waiters(s) - s.m.asleep|
  }

  /** What is left to do: entering and leaving each end a round, in which every awake waiter may fall asleep once. */
  function Work(s: System): nat
  {
    Rounds(Pending(s), |s.pcs.Keys| + 1) + Awake(s)
  }

  lemma MoveWaiters(s: System, t: Thread, s': System)
    requires t in s.pcs && t in s'.pcs && s'.pcs == s.pcs[t := s'.pcs[t]]
    ensures |Waiters(s')| == |Waiters(s)| - (if Wants(s.pcs[t]) then 1 else 0) + (if Wants(s'.pcs[t]) then 1 else 0)
  {
    Toggle(Waiters(s), Waiters(s'), t, Wants(s'.pcs[t]));
  }

  lemma MoveHolders(s: System, t: Thread, s': System)
    requires t in s.pcs && t in s'.pcs && s'.pcs == s.pcs[t := s'.pcs[t]]
    ensures |Holders(s')| == |Holders(s)| - (if Holds(s.pcs[t]) then 1 else 0) + (if Holds(s'.pcs[t]) then 1 else 0)
  {
    Toggle(Holders(s), Holders(s'), t, Holds(s'.pcs[t]));
  }

  lemma FallAsleep(s: System, t: Thread, s': System)
    requires t in s.pcs && Wants(s.pcs[t]) && t !in s.m.asleep
    requires s'.pcs == s.pcs && s'.m.asleep == s.m.asleep + {t}
    ensures Pending(s') == Pending(s) && Awake(s') + 1 == Awake(s)
  {
    assert Waiters(s') == Waiters(s) && Holders(s') == Holders(s);
    assert Waiters(s') - s'.m.asleep == (Waiters(s) - s.m.asleep) - {t};
  }

  lemma DrainStepRank(s: System, step: Step)
    requires Enabled(s, step) && Drains(step)
    ensures var s' := Next(s, step);
            || Pending(s') + 1 == Pending(s)
            || (Pending(s') == Pending(s) && Awake(s') + 1 == Awake(s))
  {
    hide Waiters, Holders, Awake;
    var s', t := Next(s, step), step.t;
    assert s'.pcs == s.pcs[t := s'.pcs[t]];
    if Wants(s'.pcs[t]) {
      assert s'.m.asleep == s.m.asleep + {t};
      FallAsleep(s, t, s');
    } else {
      MoveWaiters(s, t, s');
      MoveHolders(s, t, s');
    }
  }

  lemma DrainStepDecreases(s: System, step: Step)
    requires Enabled(s, step) && Drains(step)
    ensures Work(Next(s, step)) < Work(s)
  {
    var s' := Next(s, step);
    assert s'.pcs.Keys == s.pcs.Keys;
    SubsetSize(Waiters(s') - s'.m.asleep, s.pcs.Keys);
    DrainStepRank(s, step);
  }

  /** Without new arrivals a run has at most Work(s) steps. */
  lemma {:induction false} DrainIsBounded(s: System, steps: seq<Step>)
    requires ValidRun(s, steps) && forall i :: 0 <= i < |steps| ==> Drains(steps[i])
    ensures |steps| <= Work(s)
    decreases steps
  {
    if steps != [] {
      assert Drains(steps[0]);
      DrainStepDecreases(s, steps[0]);
      DrainIsBounded(Next(s, steps[0]), steps[1..]);
    }
  }

  /** And it can only stop when nobody waits or holds, so every thread that waits is served. */
  lemma DrainGoesOn(s: System) returns (step: Step)
    requires Inv(s) && (Waiters(s) != {} || Holders(s) != {})
    ensures Drains(step) && Enabled(s, step)
  {
    if t :| t in Holders(s) {
      step := if s.pcs[t] == Reading then EndRead(t) else EndWrite(t);
    } else {
      var t :| t in Waiters(s);
      assert !SomeoneHolds(s) by {
        assert forall u :: u in s.pcs && Holds(s.pcs[u]) ==> u in Holders(s);
      }
      InvNeverStuck(s, t);
      var u :| u in s.pcs && Wants(s.pcs[u]) && u !in s.m.asleep;
      step := if s.pcs[u] == WantWrite then RetryWrite(u) else RetryRead(u);
    }
  }

  // ---------- writer preference ----------

  function HolderCount(m: Monitor): int
  {
    m.readers + if m.writer then 1 else 0
  }

  function ReleaseCount(steps: seq<Step>): nat
  {
    if steps == [] then 0 else (if Releases(steps[0]) then 1 else 0) + ReleaseCount(steps[1..])
  }

  /** Readers use AcquireRead only. */
  predicate OnlyPriorityReads(s: System)
  {
    forall t :: t in s.pcs ==> s.pcs[t] != WantRead(false)
  }

  predicate KeepsWritersOut(s: System, step: Step)
    requires Enabled(s, step)
  {
    && !(step.StartRead? && !step.priority)
    && (Next(s, step).m.writer ==> s.m.writer)
  }

  /** A stretch of a run with priority readers in which no writer enters. */
  predicate NoWriterEnters(s: System, steps: seq<Step>)
    requires ValidRun(s, steps)
    decreases steps
  {
    steps == [] || (KeepsWritersOut(s, steps[0]) && NoWriterEnters(Next(s, steps[0]), steps[1..]))
  }

  lemma StepWhileWriterWaits(s: System, step: Step)
    requires Inv(s) && Enabled(s, step) && OnlyPriorityReads(s) && s.m.waiting > 0 && KeepsWritersOut(s, step)
    ensures var s' := Next(s, step);
            && Inv(s') && OnlyPriorityReads(s') && s'.m.waiting > 0 && s'.m.readers <= s.m.readers
            && HolderCount(s'.m) == HolderCount(s.m) - if Releases(step) then 1 else 0
  {
    StepKeepsInv(s, step);
    MemberCounts(s.pcs, step.t);
  }

  /**
   * From the moment a writer waits until one enters, no reader gets in: the holders go down by exactly one with
   * each release, and the lock is free for the writer exactly after as many releases as there were holders.
   */
  lemma {:induction false} WriterPreference(s: System, steps: seq<Step>)
    requires Inv(s) && OnlyPriorityReads(s) && s.m.waiting > 0
    requires ValidRun(s, steps) && NoWriterEnters(s, steps)
    ensures var m := After(s, steps).m;
            && HolderCount(m) == HolderCount(s.m) - ReleaseCount(steps)
            && m.waiting > 0 && m.readers <= s.m.readers
            && (m.CanWrite() <==> ReleaseCount(steps) == HolderCount(s.m))
    decreases steps
  {
    if steps == [] {
      assert s.m.readers >= 0;
    } else {
      StepWhileWriterWaits(s, steps[0]);
      WriterPreference(Next(s, steps[0]), steps[1..]);
    }
  }

  /** A reader of an input file (AcquireReadNoPriority) does overtake waiting writers. */
  lemma NoPriorityReaderOvertakes(s: System, t: Thread)
    requires Inv(s) && t in s.pcs && s.pcs[t] == Idle && !s.m.writer && s.m.waiting > 0
    ensures Next(s, StartRead(t, false)).m.readers == s.m.readers + 1
    ensures Next(s, StartRead(t, true)).m.readers == s.m.readers
  {}
}
