// How each Close is answered, and what it changes: every answer by the condition under which the server gives it
// (server_basics.go:766-988).
module CloseOutcomes {
  import opened Words
  import opened NumberText
  import opened Replica
  import opened Server

  /** A reply less than five minutes old is cached under the ID. Times are in nanoseconds. */
  predicate Remembered(p: Primary, req: CloseRequest, now: int)
  {
    req.id in p.requests && now - p.requests[req.id].time < 5 * 60 * 1_000_000_000
  }

  /** The request passes the cache and finds the file open for this client. */
  predicate OpenForClient(p: Primary, req: CloseRequest, now: int)
  {
    p.isPrimary && !Remembered(p, req, now) && req.fd in p.open && req.client in p.open[req.fd].clients
  }

  /** The version of the file; a name the server has not met starts at 1. */
  function CurrentVersion(p: Primary, req: CloseRequest): int
    requires req.fd in p.open
  {
    var f := p.open[req.fd].filename;
    if f in p.versions then p.versions[f] else 1
  }

  /** A dirty Close that may write: opened for writing, on the current version. */
  predicate MayWrite(p: Primary, req: CloseRequest, now: int)
  {
    && OpenForClient(p, req, now) && req.dirty
    && p.open[req.fd].clients[req.client] == Mode.Write && req.version == CurrentVersion(p, req)
  }

  predicate GetsMajority(servers: nat, env: Env)
  {
    1 + multiset(InTime(env.events))[Ack(true)] >= servers / 2 + 1
  }

  /** Exactly when a Close is refused before anything is written. */
  lemma RefusedIff(p: Primary, req: CloseRequest, servers: nat, env: Env, order: seq<uint64>)
    ensures var (outcome, now) := (Close(p, req, servers, env, order).1, env.start);
            && (outcome == NotLeader <==> !p.isPrimary)
            && (outcome.Replied? <==> p.isPrimary && Remembered(p, req, now) && p.requests[req.id].reply.CloseReply?)
            && (outcome == Panics <==> p.isPrimary && Remembered(p, req, now) && !p.requests[req.id].reply.CloseReply?)
            && (outcome == NotOpen <==> p.isPrimary && !Remembered(p, req, now) && req.fd !in p.open)
            && (outcome == Hangs <==>
                  p.isPrimary && !Remembered(p, req, now) && req.fd in p.open && req.client !in p.open[req.fd].clients)
            && (outcome == WrongMode <==>
                  OpenForClient(p, req, now) && req.dirty && p.open[req.fd].clients[req.client] != Mode.Write)
            && (outcome == Conflict <==>
                  && OpenForClient(p, req, now) && req.dirty && p.open[req.fd].clients[req.client] == Mode.Write
                  && req.version != CurrentVersion(p, req))
    ensures Close(p, req, servers, env, order).1.Replied? ==> Close(p, req, servers, env, order).1.reply == p.requests[req.id].reply
  {
    hide CommitPayload;
    if req.fd in p.open {
      var f := p.open[req.fd].filename;
      PayloadOutcome(p.(versions := p.versions[f := VersionOf(p.versions, f)]), f, req.data, servers, env, order);
    }
  }

  /** How the committing part ends. */
  lemma PayloadOutcome(p: Primary, f: string, data: string, servers: nat, env: Env, order: seq<uint64>)
    ensures var outcome := CommitPayload(p, f, data, servers, env, order).1;
            && (outcome == PersistFailed <==> !env.persisted)
            && (outcome == NoMajority <==> env.persisted && !GetsMajority(servers, env))
            && (outcome.Closed? <==> env.persisted && GetsMajority(servers, env))
            && (outcome.Closed? ==> outcome.version == Wrap32((if f in p.versions then p.versions[f] else 1) + 1))
  {
    MajorityOfSuccesses(servers, env.events);
    hide Numbers, Wrap32, Acks, CloseEntry, CommitLocal, AppendLocal;
  }

  /** Exactly when a Close that may write fails or succeeds, and when a clean one succeeds; and the version it answers with. */
  lemma ClosedIff(p: Primary, req: CloseRequest, servers: nat, env: Env, order: seq<uint64>)
    ensures var (outcome, now) := (Close(p, req, servers, env, order).1, env.start);
            && (outcome == PersistFailed <==> MayWrite(p, req, now) && !env.persisted)
            && (outcome == NoMajority <==> MayWrite(p, req, now) && env.persisted && !GetsMajority(servers, env))
            && (outcome.Closed? <==>
                  || (OpenForClient(p, req, now) && !req.dirty)
                  || (MayWrite(p, req, now) && env.persisted && GetsMajority(servers, env)))
            && (outcome.Closed? ==>
                  outcome.version == (if req.dirty then Wrap32(CurrentVersion(p, req) + 1) else CurrentVersion(p, req)))
  {
    hide CommitPayload;
    if req.fd in p.open {
      var f := p.open[req.fd].filename;
      PayloadOutcome(p.(versions := p.versions[f := VersionOf(p.versions, f)]), f, req.data, servers, env, order);
    }
  }

  /** A refusal changes nothing, but for a name the server has not met, which gets its first version. */
  lemma RefusalChangesNothing(p: Primary, req: CloseRequest, servers: nat, env: Env, order: seq<uint64>)
    requires !Logs(Close(p, req, servers, env, order).1, req.dirty) && !Close(p, req, servers, env, order).1.Closed?
    ensures var (p', outcome) := Close(p, req, servers, env, order);
            if outcome.WrongMode? || outcome.Conflict?
            then req.fd in p.open && p' == p.(versions := p.versions[p.open[req.fd].filename := CurrentVersion(p, req)])
            else p' == p
  {
    hide CommitPayload;
    if req.fd in p.open {
      var f := p.open[req.fd].filename;
      PayloadOutcome(p.(versions := p.versions[f := VersionOf(p.versions, f)]), f, req.data, servers, env, order);
    }
  }

  /** The entry that a Close logs, whether it succeeds or not. */
  lemma LoggedEntryIs(p: Primary, req: CloseRequest, servers: nat, env: Env, order: seq<uint64>)
    requires Logs(Close(p, req, servers, env, order).1, req.dirty)
    ensures req.fd in p.open
    ensures var p' := Close(p, req, servers, env, order).0;
            && |p'.r.log| == |p.r.log| + 1 && p'.r.log[..|p.r.log|] == p.r.log
            && var e := p'.r.log[|p.r.log|];
               && e.index == |p.r.log| + 1 && e.op == "WRITE" && e.filename == p.open[req.fd].filename
               && e.version == Wrap32(CurrentVersion(p, req) + 1)
               && Parse(e.content) == order
  {
    hide CommitPayload, CloseEntry, Wrap32, Print;
    var f := p.open[req.fd].filename;
    var seen := p.(versions := p.versions[f := VersionOf(p.versions, f)]);
    PayloadEntry(seen, f, req.data, servers, env, order);
    PayloadOutcome(seen, f, req.data, servers, env, order);
    CloseEntryIs(seen, f, order);
  }

  lemma PayloadEntry(p: Primary, f: string, data: string, servers: nat, env: Env, order: seq<uint64>)
    ensures CommitPayload(p, f, data, servers, env, order).0.r.log == p.r.log + [CloseEntry(p, f, order)]
  {
    hide Numbers, Wrap32, ReachesMajority, CloseEntry;
  }

  lemma CloseEntryIs(p: Primary, f: string, order: seq<uint64>)
    ensures var e := CloseEntry(p, f, order);
            && e.index == |p.r.log| + 1 && e.op == "WRITE" && e.filename == f
            && e.version == Wrap32((if f in p.versions then p.versions[f] else 1) + 1)
            && Parse(e.content) == order
  {
    RoundTrip(order);
    hide Parse, Print, Wrap32;
  }

  /** What a success changes beside the log, the files and the set: this client leaves this file, and one reply is cached. */
  lemma SuccessEffect(p: Primary, req: CloseRequest, servers: nat, env: Env, order: seq<uint64>)
    requires Close(p, req, servers, env, order).1.Closed?
    ensures var (p', outcome) := Close(p, req, servers, env, order);
            && p'.isPrimary && req.fd in p.open && req.fd in p'.open && p'.open.Keys == p.open.Keys
            && (forall fd :: fd in p.open && fd != req.fd ==> p'.open[fd] == p.open[fd])
            && p'.open[req.fd].filename == p.open[req.fd].filename
            && p'.open[req.fd].clients == p.open[req.fd].clients - {req.client}
            && p'.requests == p.requests[req.id := Cached(CloseReply("closed", outcome.version), env.end)]
            && p'.versions == p.versions[p.open[req.fd].filename := outcome.version]
            && (!req.dirty ==> p'.r == p.r && p'.sets == p.sets)
  {
    hide CommitPayload;
    var f := p.open[req.fd].filename;
    if req.dirty {
      PayloadEffect(p.(versions := p.versions[f := VersionOf(p.versions, f)]), f, req.data, servers, env, order);
    }
  }

  lemma PayloadEffect(p: Primary, f: string, data: string, servers: nat, env: Env, order: seq<uint64>)
    requires CommitPayload(p, f, data, servers, env, order).1.Closed?
    ensures var (p', outcome) := CommitPayload(p, f, data, servers, env, order);
            && p'.isPrimary == p.isPrimary && p'.open == p.open && p'.requests == p.requests
            && p'.versions == p.versions[f := outcome.version]
  {
    hide Numbers, Wrap32, ReachesMajority, CloseEntry;
  }
}
