// What one Close leaves behind for later ones: the request cache with its clock, the version, the list of clients
// (server_basics.go:790-840 and 950-987).
module CloseEffects {
  import opened Basics
  import opened Words
  import opened Server
  import opened PrimeFiles
  import V = CloseVersions

  function NextPrimary(p: Primary, step: PrimeFiles.Step, servers: nat): Primary
  {
    match step
    case CloseStep(req, env, order) => Close(p, req, servers, env, order).0
    case OtherStep(after) => after
  }

  function AfterPrimary(p: Primary, steps: seq<PrimeFiles.Step>, servers: nat): Primary
    decreases steps
  {
    if steps == [] then p else AfterPrimary(NextPrimary(p, steps[0], servers), steps[1..], servers)
  }

  /** The steps happen while the reply cached under an ID is fresh, and other activity lets fresh replies be. */
  ghost predicate WhileFresh(p: Primary, steps: seq<PrimeFiles.Step>, servers: nat, id: string, cached: Cached)
    decreases steps
  {
    steps == [] ||
    (&& (match steps[0]
         case CloseStep(req, env, order) => env.start - cached.time < REQUEST_CACHE_TTL
         case OtherStep(after) => id in after.requests && after.requests[id] == cached)
     && WhileFresh(NextPrimary(p, steps[0], servers), steps[1..], servers, id, cached))
  }

  /** A fresh reply is never overwritten, whatever Closes run meanwhile. */
  lemma {:induction false} FreshReplyStays(p: Primary, steps: seq<PrimeFiles.Step>, servers: nat, id: string)
    requires id in p.requests && WhileFresh(p, steps, servers, id, p.requests[id])
    ensures id in AfterPrimary(p, steps, servers).requests && AfterPrimary(p, steps, servers).requests[id] == p.requests[id]
    decreases steps
  {
    if steps != [] {
      FreshReplyStays(NextPrimary(p, steps[0], servers), steps[1..], servers, id);
    }
  }

  /**
   * At most once: after a Close that succeeded, and any activity while its reply is fresh, the same request ID gets the
   * stored reply and changes nothing, even if the version has moved on or the file is no longer open.
   */
  lemma RepeatedCloseIsAnswered(p: Primary, req: CloseRequest, env: Env, order: seq<uint64>, between: seq<PrimeFiles.Step>,
                                again: CloseRequest, env': Env, order': seq<uint64>, servers: nat)
    requires again.id == req.id && Close(p, req, servers, env, order).1.Closed?
    requires var m := Close(p, req, servers, env, order).0;
             && req.id in m.requests && WhileFresh(m, between, servers, req.id, m.requests[req.id])
             && AfterPrimary(m, between, servers).isPrimary
    requires env'.start - env.end < REQUEST_CACHE_TTL
    ensures var (m, outcome) := Close(p, req, servers, env, order);
            var e := AfterPrimary(m, between, servers);
            Close(e, again, servers, env', order') == (e, Replied(CloseReply("closed", outcome.version)))
  {
    FreshReplyStays(Close(p, req, servers, env, order).0, between, servers, req.id);
  }

  /** A dirty Close succeeds only on the version it was opened with, and then this file's version is the next int32, and no other changes. */
  lemma SuccessRaisesVersion(p: Primary, req: CloseRequest, servers: nat, env: Env, order: seq<uint64>, other: string)
    requires req.dirty && Close(p, req, servers, env, order).1.Closed?
    ensures var ((p', outcome), f) := (Close(p, req, servers, env, order), Target(p, req));
            && req.version == VersionOf(p.versions, f)
            && VersionOf(p'.versions, f) == Wrap32(req.version + 1) == outcome.version
            && (other != f ==> VersionOf(p'.versions, other) == VersionOf(p.versions, other))
  {}

  /** What a Close that fails leaves as it was. */
  predicate Harmless(p: Primary, p': Primary, other: string)
  {
    && VersionOf(p'.versions, other) == VersionOf(p.versions, other)
    && p'.requests == p.requests && p'.open == p.open
    && p'.r.files == p.r.files && p'.r.commitIndex == p.r.commitIndex && p.r.log <= p'.r.log
  }

  lemma FailureBeforeLogging(p: Primary, req: CloseRequest, servers: nat, env: Env, order: seq<uint64>, other: string)
    requires !Close(p, req, servers, env, order).1.Closed? && !Logs(Close(p, req, servers, env, order).1, req.dirty)
    ensures Harmless(p, Close(p, req, servers, env, order).0, other)
  {
    hide CommitPayload;
    if req.fd in p.open && req.client in p.open[req.fd].clients {
      PayloadIsLogged(p.(versions := p.versions[p.open[req.fd].filename := VersionOf(p.versions, p.open[req.fd].filename)]),
                      p.open[req.fd].filename, req.data, servers, env, order);
    }
  }

  lemma PayloadIsLogged(p: Primary, f: string, data: string, servers: nat, env: Env, order: seq<uint64>)
    ensures var outcome := CommitPayload(p, f, data, servers, env, order).1;
            outcome.Closed? || outcome.PersistFailed? || outcome.NoMajority?
  {
    hide Numbers, Wrap32, ReachesMajority;
  }

  lemma PayloadFailureIsHarmless(p: Primary, f: string, data: string, servers: nat, env: Env, order: seq<uint64>)
    requires !CommitPayload(p, f, data, servers, env, order).1.Closed?
    ensures var p' := CommitPayload(p, f, data, servers, env, order).0;
            && p'.versions == p.versions && p'.requests == p.requests && p'.open == p.open
            && p'.r.files == p.r.files && p'.r.commitIndex == p.r.commitIndex && p.r.log <= p'.r.log
  {
    hide Numbers, Wrap32, ReachesMajority, CloseEntry;
  }

  lemma FailureAfterLogging(p: Primary, req: CloseRequest, servers: nat, env: Env, order: seq<uint64>, other: string)
    requires !Close(p, req, servers, env, order).1.Closed? && Logs(Close(p, req, servers, env, order).1, req.dirty)
    ensures Harmless(p, Close(p, req, servers, env, order).0, other)
  {
    hide CommitPayload;
    var f := p.open[req.fd].filename;
    PayloadFailureIsHarmless(p.(versions := p.versions[f := VersionOf(p.versions, f)]), f, req.data, servers, env, order);
  }

  /** A Close that does not succeed raises no version, caches no reply, and leaves every file as it is. */
  lemma FailureIsHarmless(p: Primary, req: CloseRequest, servers: nat, env: Env, order: seq<uint64>, other: string)
    requires !Close(p, req, servers, env, order).1.Closed?
    ensures var p' := Close(p, req, servers, env, order).0;
            && VersionOf(p'.versions, other) == VersionOf(p.versions, other)
            && p'.requests == p.requests && p'.open == p.open
            && p'.r.files == p.r.files && p'.r.commitIndex == p.r.commitIndex && p'.r.log[..|p.r.log|] == p.r.log
  {
    hide Close, Logs;
    if Logs(Close(p, req, servers, env, order).1, req.dirty) {
      FailureAfterLogging(p, req, servers, env, order, other);
    } else {
      FailureBeforeLogging(p, req, servers, env, order, other);
    }
  }

  /**
   * Close answers every request except one kind, which a caller can recognise before the call: the server is primary, has no
   * fresh reply for the ID, and has the file open, but not for this client.
   */
  lemma CloseHangsIff(p: Primary, req: CloseRequest, servers: nat, env: Env, order: seq<uint64>)
    ensures Close(p, req, servers, env, order).1 == Hangs <==>
      p.isPrimary && !Fresh(p.requests, req.id, env.start) && req.fd in p.open && req.client !in p.open[req.fd].clients
  {}

  /** And it panics exactly when the fresh reply under the ID answered a request of another kind. */
  lemma ClosePanicsIff(p: Primary, req: CloseRequest, servers: nat, env: Env, order: seq<uint64>)
    ensures Close(p, req, servers, env, order).1 == Panics <==>
      p.isPrimary && Fresh(p.requests, req.id, env.start) && !p.requests[req.id].reply.CloseReply?
  {}

  /** After a success the client no longer has the file open: closing it again under a new ID makes the server lock up. */
  lemma SecondCloseHangs(p: Primary, req: CloseRequest, env: Env, order: seq<uint64>, again: CloseRequest, env': Env, order': seq<uint64>, servers: nat)
    requires Close(p, req, servers, env, order).1.Closed?
    requires again.fd == req.fd && again.client == req.client
    requires again.id != req.id && !Fresh(p.requests, again.id, env'.start)
    ensures Close(Close(p, req, servers, env, order).0, again, servers, env', order').1 == Hangs
  {}

  // ---------- Close is a run of the steps in CloseVersions ----------

  /** The result that a thread of the step system gets when Close ends with an outcome; None for outcomes outside that system. */
  function ResultOf(outcome: Outcome): Option<V.Result>
  {
    match outcome
    case Closed(version) => Some(V.Result.Closed(version))
    case Replied(CloseReply(_, version)) => Some(V.Result.Replied(version))
    case Conflict => Some(V.Result.Conflict)
    case PersistFailed => Some(V.Result.Failed)
    case NoMajority => Some(V.Result.Failed)
    case _ => None
  }

  /** The step system shows this server's version of the file, and its fresh reply to the request. */
  predicate Shows(s: V.System, p: Primary, req: CloseRequest, now: int)
  {
    && s.version == VersionOf(p.versions, Target(p, req))
    && (req.id in s.cache <==> Fresh(p.requests, req.id, now))
    && (req.id in s.cache && p.requests[req.id].reply.CloseReply? ==> s.cache[req.id] == p.requests[req.id].reply.version)
  }

  /**
   * Close on the server, with its file's lock free, is a run of the step system: the cache check, the lock, the version
   * check, the new version and the cached reply come out the same.
   */
  lemma CloseTakesTheseSteps(p: Primary, req: CloseRequest, servers: nat, env: Env, order: seq<uint64>,
                             s: V.System, requests: map<string, V.Request>, t: V.Thread) returns (e: V.System)
    requires V.IsAt(s, t, V.Checking) && s.tasks[t].id == req.id && s.writers == {}
    requires req.id in requests && requests[req.id] == V.Request(req.dirty, req.version)
    requires Shows(s, p, req, env.start)
    requires ResultOf(Close(p, req, servers, env, order).1).Some?
    ensures var (p', outcome) := Close(p, req, servers, env, order);
            var result := ResultOf(outcome).value;
            && V.RunsTo(s, requests, V.StepsOf(t, req.dirty, result), e)
            && V.IsAt(e, t, V.Done(result)) && e.writers == {}
            && e.version == VersionOf(p'.versions, Target(p, req))
            && e.cache == (if outcome.Closed? then s.cache[req.id := outcome.version] else s.cache)
            && p'.requests == (if outcome.Closed? then p.requests[req.id := Cached(CloseReply("closed", outcome.version), env.end)] else p.requests)
  {
    hide V.RunsTo, V.StepsOf;
    var failed := Close(p, req, servers, env, order).1.PersistFailed? || Close(p, req, servers, env, order).1.NoMajority?;
    e := V.AloneRuns(s, requests, t, failed);
  }
}
