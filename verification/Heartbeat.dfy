// Who each server believes to be the primary: heartbeats and election (server_replication.go:79-106 and 200-211).
module Heartbeat {

  type Id = string

  // ---------- Go's order on strings ----------

  predicate Less(a: Id, b: Id)
  {
    b != "" && (a == "" || a[0] < b[0] || (a[0] == b[0] && Less(a[1..], b[1..])))
  }

  predicate AtMost(a: Id, b: Id)
  {
    a == b || Less(a, b)
  }

  lemma {:induction false} LessIsTotal(a: Id, b: Id)
    ensures Less(a, b) || a == b || Less(b, a)
    ensures !(Less(a, b) && Less(b, a)) && !Less(a, a)
  {
    if a != "" {
      LessIsTotal(a[1..], a[1..]);
      if b != "" {
        LessIsTotal(a[1..], b[1..]);
        if a[0] == b[0] && a[1..] == b[1..] {
          assert a == [a[0]] + a[1..] == b;
        }
      }
    }
  }

  lemma {:induction false} LessIsTransitive(a: Id, b: Id, c: Id)
    requires Less(a, b) && Less(b, c)
    ensures Less(a, c)
  {
    if a != "" && a[0] == b[0] == c[0] {
      LessIsTransitive(a[1..], b[1..], c[1..]);
    }
  }

  lemma AtMostIsTransitive(a: Id, b: Id, c: Id)
    requires AtMost(a, b) && AtMost(b, c)
    ensures AtMost(a, c)
  {
    if a != b && b != c {
      LessIsTransitive(a, b, c);
    }
  }

  // ---------- heartbeats ----------

  /** The server's new belief; a heartbeat from a greater id than the current belief is rejected. */
  function Heard(belief: Id, incoming: Id): Id
  {
    if belief != "" && Less(belief, incoming) then belief else incoming
  }

  datatype ServerInfo = ServerInfo(id: Id, timestamp: int, alive: bool)

  /** What the heartbeat handler leaves in the table of servers: a known sender is marked alive, an unknown one is added. */
  function Marked(servers: map<Id, ServerInfo>, sender: Id, timestamp: int): map<Id, ServerInfo>
  {
    servers[sender := if sender in servers then servers[sender].(alive := true) else ServerInfo(sender, timestamp, true)]
  }

  /** A heartbeat touches the sender's line of the table and no other: it is alive then, and otherwise as it was, or new. */
  lemma MarkedTouchesSender(servers: map<Id, ServerInfo>, sender: Id, timestamp: int)
    ensures var table := Marked(servers, sender, timestamp);
            && table.Keys == servers.Keys + {sender} && table[sender].alive
            && (forall k :: k in servers && k != sender ==> table[k] == servers[k])
            && (if sender in servers then table[sender].id == servers[sender].id && table[sender].timestamp == servers[sender].timestamp
                else table[sender].id == sender && table[sender].timestamp == timestamp)
  {}

  class Membership {
    var primaryID: Id
    var servers: map<Id, ServerInfo>
    var lastHeartbeat: int

    constructor (servers: map<Id, ServerInfo>)
      ensures this.servers == servers && primaryID == ""
    {
      primaryID, this.servers, lastHeartbeat := "", servers, 0;
    }

    method SendHeartbeat(primaryId: Id, timestamp: int, now: int) returns (success: bool)
      modifies this
      ensures servers == Marked(old(servers), primaryId, timestamp)
      ensures primaryID == Heard(old(primaryID), primaryId)
      ensures success <==> primaryID == primaryId
      ensures lastHeartbeat == if success then now else old(lastHeartbeat)
    {
      LessIsTotal(primaryID, primaryId);
      if primaryId !in servers {
        servers := servers[primaryId := ServerInfo(primaryId, timestamp, true)];
      } else {
        servers := servers[primaryId := servers[primaryId].(alive := true)];
      }
      if primaryID != "" {
        if Less(primaryID, primaryId) {
          return false;
        }
      }
      primaryID := primaryId;
      lastHeartbeat := now;
      return true;
    }

    /** Ranging over the table in an order the language leaves open. */
    method ElectPrimary() returns (leader: Id, ghost order: seq<Id>)
      ensures RangesOver(order, servers) && leader == Elect(Infos(order, servers))
      ensures "" !in AliveIds(servers) ==>
        if AliveIds(servers) == {} then leader == "" else IsLeast(leader, AliveIds(servers))
    {
      leader, order := "", [];
      var rest := servers.Keys;
      while rest != {}
        invariant rest <= servers.Keys && RangesOver(order, servers - rest)
        invariant leader == Elect(Infos(order, servers))
        decreases rest
      {
        var k :| k in rest;
        var s := servers[k];
        InfosAppend(order, k, servers);
        if s.alive && (leader == "" || Less(s.id, leader)) {
          leader := s.id;
        }
        assert (servers - (rest - {k})).Keys == (servers - rest).Keys + {k};
        order := order + [k];
        rest := rest - {k};
      }
      assert servers - {} == servers;
      if "" !in AliveIds(servers) {
        ElectIsLeastAlive(order, servers);
      }
    }
  }

  // ---------- one belief over many heartbeats ----------

  function Belief(start: Id, heard: seq<Id>): Id
  {
    if heard == [] then start else Heard(Belief(start, heard[..|heard| - 1]), heard[|heard| - 1])
  }

  predicate IsLeast(x: Id, ids: set<Id>)
  {
    x in ids && forall y :: y in ids ==> AtMost(x, y)
  }

  function Ids(heard: seq<Id>): set<Id>
  {
    set i | 0 <= i < |heard| :: heard[i]
  }

  /** With no empty id about, the belief is the least of the start value and everything heard. */
  lemma {:induction false} BeliefIsLeast(start: Id, heard: seq<Id>)
    requires start != "" && "" !in heard
    ensures IsLeast(Belief(start, heard), {start} + Ids(heard))
  {
    if heard != [] {
      var init, last := heard[..|heard| - 1], heard[|heard| - 1];
      BeliefIsLeast(start, init);
      var before := Belief(start, init);
      assert heard == init + [last];
      assert Ids(heard) == Ids(init) + {last};
      LessIsTotal(before, last);
      forall y | y in {start} + Ids(heard)
        ensures AtMost(Belief(start, heard), y)
      {
        if y != last {
          assert y in {start} + Ids(init);
          AtMostIsTransitive(Belief(start, heard), before, y);
        }
      }
    }
  }

  lemma LeastIsUnique(x: Id, y: Id, ids: set<Id>)
    requires IsLeast(x, ids) && IsLeast(y, ids)
    ensures x == y
  {
    LessIsTotal(x, y);
  }

  /** So it depends neither on the order of the heartbeats nor on repetitions. */
  lemma OrderDoesNotMatter(start: Id, heard: seq<Id>, other: seq<Id>)
    requires start != "" && "" !in heard && "" !in other && Ids(heard) == Ids(other)
    ensures Belief(start, heard) == Belief(start, other)
  {
    BeliefIsLeast(start, heard);
    BeliefIsLeast(start, other);
    LeastIsUnique(Belief(start, heard), Belief(start, other), {start} + Ids(heard));
  }

  /**
   * With empty ids about, the belief is still the least id exactly when the last id heard (or the start value, if
   * nothing was heard) is the empty one.
   */
  lemma BeliefIsLeastIff(start: Id, heard: seq<Id>)
    ensures IsLeast(Belief(start, heard), {start} + Ids(heard)) <==>
      "" !in {start} + Ids(heard) || (if heard == [] then start else heard[|heard| - 1]) == ""
  {
    var ids := {start} + Ids(heard);
    if "" !in ids {
      assert forall i :: 0 <= i < |heard| ==> heard[i] in ids;
      BeliefIsLeast(start, heard);
    } else if heard != [] {
      var before := Belief(start, heard[..|heard| - 1]);
      assert heard[|heard| - 1] in ids;
      if heard[|heard| - 1] != "" {
        assert Belief(start, heard) != "" && !AtMost(Belief(start, heard), "");
      }
    } else {
      assert ids == {start};
    }
  }

  /** A heartbeat with an empty id resets the belief: after it the next heartbeat wins, greater or not. */
  lemma EmptyIdResets(belief: Id, next: Id)
    ensures Heard(Heard(belief, ""), next) == next
  {
    LessIsTotal(belief, "");
  }

  // ---------- the whole cluster ----------

  /** Every server's belief, and for every server the heartbeats it has received so far, oldest first. */
  datatype Cluster = Cluster(start: map<Id, Id>, heard: map<Id, seq<Id>>)

  function BeliefOf(c: Cluster, s: Id): Id
    requires s in c.start && s in c.heard
  {
    Belief(c.start[s], c.heard[s])
  }

  /** A heartbeat arrives. Only a server that believes itself primary sends one, but it may arrive after the sender changed its mind. */
  datatype Step = Step(sender: Id, receiver: Id)

  predicate Servers(c: Cluster)
  {
    c.start.Keys == c.heard.Keys && "" !in c.start
  }

  /** No step makes the receiver hear from itself or from outside. */
  predicate Enabled(c: Cluster, step: Step)
  {
    step.sender in c.start && step.receiver in c.heard && step.sender != step.receiver
  }

  function Next(c: Cluster, step: Step): Cluster
    requires Enabled(c, step)
  {
    c.(heard := c.heard[step.receiver := c.heard[step.receiver] + [step.sender]])
  }

  predicate ValidRun(c: Cluster, steps: seq<Step>)
    decreases steps
  {
    steps == [] || (Enabled(c, steps[0]) && ValidRun(Next(c, steps[0]), steps[1..]))
  }

  function After(c: Cluster, steps: seq<Step>): Cluster
    requires ValidRun(c, steps)
    decreases steps
  {
    if steps == [] then c else After(Next(c, steps[0]), steps[1..])
  }

  /** Every server starts on its own id and has heard nothing. */
  predicate Initial(c: Cluster)
  {
    Servers(c) && forall s :: s in c.start ==> c.start[s] == s && c.heard[s] == []
  }

  predicate Inv(c: Cluster)
  {
    && Servers(c)
    && (forall s :: s in c.start ==> c.start[s] == s)
    && forall s, i :: s in c.heard && 0 <= i < |c.heard[s]| ==> c.heard[s][i] in c.start
  }

  lemma {:induction false} RunKeepsInv(c: Cluster, steps: seq<Step>)
    requires Inv(c) && ValidRun(c, steps)
    ensures Inv(After(c, steps)) && After(c, steps).start == c.start
    ensures forall s :: s in c.start ==> c.heard[s] <= After(c, steps).heard[s]
    decreases steps
  {
    if steps != [] {
      RunKeepsInv(Next(c, steps[0]), steps[1..]);
    }
  }

  /** In every run each belief is the least of the server's own id and the ids it heard. */
  lemma BeliefsAreLeast(c: Cluster, steps: seq<Step>, s: Id)
    requires Initial(c) && ValidRun(c, steps) && s in c.start
    ensures var e := After(c, steps);
            s in e.start && s in e.heard && IsLeast(BeliefOf(e, s), {s} + Ids(e.heard[s]))
  {
    RunKeepsInv(c, steps);
    BeliefIsLeast(s, After(c, steps).heard[s]);
  }

  /** The least id has reached everyone but its owner. */
  predicate Spread(c: Cluster, least: Id)
    requires Servers(c)
  {
    forall s :: s in c.start && s != least ==> least in c.heard[s]
  }

  /**
   * Convergence: once the least id has reached every server, all believe in it, and no later heartbeat, however late
   * or from whomever, changes that.
   */
  lemma Convergence(c: Cluster, steps: seq<Step>, later: seq<Step>, least: Id, s: Id)
    requires Initial(c) && IsLeast(least, c.start.Keys) && s in c.start
    requires ValidRun(c, steps) && ValidRun(After(c, steps), later)
    requires Servers(After(c, steps)) && Spread(After(c, steps), least)
    ensures var e := After(After(c, steps), later);
            s in e.start && s in e.heard && BeliefOf(e, s) == least
  {
    RunKeepsInv(c, steps);
    var m := After(c, steps);
    RunKeepsInv(m, later);
    var e := After(m, later);
    BeliefIsLeast(s, e.heard[s]);
    var ids := {s} + Ids(e.heard[s]);
    assert least in ids by {
      if s != least {
        assert least in m.heard[s] && m.heard[s] <= e.heard[s];
        var i :| 0 <= i < |m.heard[s]| && m.heard[s][i] == least;
        assert e.heard[s][i] == least;
      }
    }
    LeastIsUnique(BeliefOf(e, s), least, ids);
  }

  // ---------- election ----------

  function Elect(order: seq<ServerInfo>): Id
  {
    if order == [] then ""
    else
      var leader := Elect(order[..|order| - 1]);
      var s := order[|order| - 1];
      if s.alive && (leader == "" || Less(s.id, leader)) then s.id else leader
  }

  /** An order in which Go may range over a table: every key once. */
  ghost predicate RangesOver(order: seq<Id>, servers: map<Id, ServerInfo>)
  {
    && (forall i, j :: 0 <= i < j < |order| ==> order[i] != order[j])
    && (forall k :: k in order <==> k in servers)
  }

  ghost function Infos(order: seq<Id>, servers: map<Id, ServerInfo>): (infos: seq<ServerInfo>)
    requires forall k :: k in order ==> k in servers
    ensures |infos| == |order| && forall i :: 0 <= i < |order| ==> infos[i] == servers[order[i]]
  {
    if order == [] then [] else Infos(order[..|order| - 1], servers) + [servers[order[|order| - 1]]]
  }

  lemma InfosAppend(order: seq<Id>, k: Id, servers: map<Id, ServerInfo>)
    requires k in servers && forall o :: o in order ==> o in servers
    ensures forall o :: o in order + [k] ==> o in servers
    ensures Infos(order + [k], servers) == Infos(order, servers) + [servers[k]]
    ensures Elect(Infos(order + [k], servers)) ==
      (var leader, s := Elect(Infos(order, servers)), servers[k];
       if s.alive && (leader == "" || Less(s.id, leader)) then s.id else leader)
  {
    assert (order + [k])[..|order|] == order;
    assert (Infos(order, servers) + [servers[k]])[..|order|] == Infos(order, servers);
  }

  /** The ids of the servers that count as alive. */
  function AliveIds(servers: map<Id, ServerInfo>): set<Id>
  {
    set k | k in servers && servers[k].alive :: servers[k].id
  }

  function AliveIn(order: seq<ServerInfo>): set<Id>
  {
    set i | 0 <= i < |order| && order[i].alive :: order[i].id
  }

  lemma AliveInOrder(order: seq<Id>, servers: map<Id, ServerInfo>)
    requires RangesOver(order, servers)
    ensures AliveIn(Infos(order, servers)) == AliveIds(servers)
  {
    forall k | k in servers && servers[k].alive
      ensures servers[k].id in AliveIn(Infos(order, servers))
    {
      assert k in order;
      var i :| 0 <= i < |order| && order[i] == k;
      assert Infos(order, servers)[i] == servers[k];
    }
    forall i | 0 <= i < |order| && Infos(order, servers)[i].alive
      ensures Infos(order, servers)[i].id in AliveIds(servers)
    {
      assert order[i] in order;
    }
  }

  lemma {:induction false} FoldIsLeastAlive(order: seq<ServerInfo>)
    requires "" !in AliveIn(order)
    ensures if AliveIn(order) == {} then Elect(order) == "" else IsLeast(Elect(order), AliveIn(order))
  {
    if order != [] {
      var init, s := order[..|order| - 1], order[|order| - 1];
      assert order == init + [s];
      assert AliveIn(order) == AliveIn(init) + if s.alive then {s.id} else {};
      FoldIsLeastAlive(init);
      var leader := Elect(init);
      LessIsTotal(s.id, leader);
      forall y | y in AliveIn(order) && Elect(order) != leader
        ensures AtMost(Elect(order), y)
      {
        if y != s.id {
          AtMostIsTransitive(s.id, leader, y);
        }
      }
    }
  }

  /** With no empty id alive, the leader is the least id alive, whatever the order; with nobody alive there is none. */
  lemma ElectIsLeastAlive(order: seq<Id>, servers: map<Id, ServerInfo>)
    requires RangesOver(order, servers) && "" !in AliveIds(servers)
    ensures var leader := Elect(Infos(order, servers));
            if AliveIds(servers) == {} then leader == "" else IsLeast(leader, AliveIds(servers))
  {
    AliveInOrder(order, servers);
    FoldIsLeastAlive(Infos(order, servers));
  }

  lemma {:induction false} OnlyEmptyIds(order: seq<ServerInfo>)
    requires AliveIn(order) <= {""}
    ensures Elect(order) == ""
  {
    if order != [] {
      var init, s := order[..|order| - 1], order[|order| - 1];
      assert order == init + [s];
      assert AliveIn(order) == AliveIn(init) + if s.alive then {s.id} else {};
      OnlyEmptyIds(init);
    }
  }

  // ---------- when the election depends on the order ----------

  /** Every order of the table elects the same leader. */
  ghost predicate ElectionIsStable(servers: map<Id, ServerInfo>)
  {
    forall o, o' :: RangesOver(o, servers) && RangesOver(o', servers) ==> Elect(Infos(o, servers)) == Elect(Infos(o', servers))
  }

  lemma {:induction false} SomeOrder(servers: map<Id, ServerInfo>) returns (order: seq<Id>)
    ensures RangesOver(order, servers)
    decreases |servers.Keys|
  {
    if servers == map[] {
      order := [];
    } else {
      var k :| k in servers;
      assert (servers - {k}).Keys == servers.Keys - {k};
      order := SomeOrder(servers - {k});
      order := order + [k];
    }
  }

  /** The two orders that end in a non-empty and an empty id elect differently. */
  lemma LastTwoDecide(order: seq<Id>, servers: map<Id, ServerInfo>, e: Id, s: Id)
    requires forall k :: k in order ==> k in servers
    requires e in servers && servers[e].alive && servers[e].id == "" && s in servers && servers[s].alive && servers[s].id != ""
    ensures forall k :: k in order + [s] + [e] || k in order + [e] + [s] ==> k in servers
    ensures Elect(Infos(order + [s] + [e], servers)) == ""
    ensures Elect(Infos(order + [e] + [s], servers)) == servers[s].id
  {
    InfosAppend(order, s, servers);
    InfosAppend(order + [s], e, servers);
    InfosAppend(order, e, servers);
    InfosAppend(order + [e], s, servers);
  }

  lemma UnmixedIsStable(servers: map<Id, ServerInfo>, o: seq<Id>, o': seq<Id>)
    requires "" !in AliveIds(servers) || AliveIds(servers) == {""}
    requires RangesOver(o, servers) && RangesOver(o', servers)
    ensures Elect(Infos(o, servers)) == Elect(Infos(o', servers))
  {
    hide Infos, Elect, IsLeast, AliveIn;
    AliveInOrder(o, servers);
    AliveInOrder(o', servers);
    if "" in AliveIds(servers) {
      OnlyEmptyIds(Infos(o, servers));
      OnlyEmptyIds(Infos(o', servers));
    } else {
      ElectIsLeastAlive(o, servers);
      ElectIsLeastAlive(o', servers);
      if AliveIds(servers) != {} {
        LeastIsUnique(Elect(Infos(o, servers)), Elect(Infos(o', servers)), AliveIds(servers));
      }
    }
  }

  lemma MixedIsUnstable(servers: map<Id, ServerInfo>, e: Id, s: Id) returns (o: seq<Id>, o': seq<Id>)
    requires e in servers && servers[e].alive && servers[e].id == "" && s in servers && servers[s].alive && servers[s].id != ""
    ensures RangesOver(o, servers) && RangesOver(o', servers)
    ensures Elect(Infos(o, servers)) != Elect(Infos(o', servers))
  {
    hide Infos, Elect;
    assert (servers - {e, s}).Keys == servers.Keys - {e, s};
    var order := SomeOrder(servers - {e, s});
    LastTwoDecide(order, servers, e, s);
    o, o' := order + [s] + [e], order + [e] + [s];
  }

  /** The election depends on the order of ranging exactly when the empty id and another id are alive together. */
  lemma ElectionIsStableIff(servers: map<Id, ServerInfo>)
    ensures ElectionIsStable(servers) <==> "" !in AliveIds(servers) || AliveIds(servers) == {""}
  {
    hide Infos, Elect;
    if "" !in AliveIds(servers) || AliveIds(servers) == {""} {
      forall o, o' | RangesOver(o, servers) && RangesOver(o', servers)
        ensures Elect(Infos(o, servers)) == Elect(Infos(o', servers))
      {
        UnmixedIsStable(servers, o, o');
      }
    } else {
      var e :| e in servers && servers[e].alive && servers[e].id == "";
      var id :| id in AliveIds(servers) && id != "";
      var s :| s in servers && servers[s].alive && servers[s].id == id;
      var o, o' := MixedIsUnstable(servers, e, s);
    }
  }

  /** The smallest such table: one server with an empty id, one with another. */
  lemma EmptyIdMakesElectionUnstable(a: Id)
    requires a != ""
    ensures Elect([ServerInfo("", 0, true), ServerInfo(a, 0, true)]) == a
    ensures Elect([ServerInfo(a, 0, true), ServerInfo("", 0, true)]) == ""
  {
    var e, s := ServerInfo("", 0, true), ServerInfo(a, 0, true);
    assert [e, s][..1] == [e] && [e][..0] == [] && [s, e][..1] == [s] && [s][..0] == [];
    assert Elect([]) == "";
    assert Elect([e]) == "" && Elect([s]) == a;
  }

  /** After a heartbeat its sender counts as alive: the server elected then is the sender or a lesser id. */
  lemma SenderIsElectable(servers: map<Id, ServerInfo>, sender: Id, timestamp: int, order: seq<Id>)
    requires forall k :: k in servers ==> servers[k].id == k
    requires RangesOver(order, Marked(servers, sender, timestamp)) && "" !in AliveIds(Marked(servers, sender, timestamp))
    ensures AtMost(Elect(Infos(order, Marked(servers, sender, timestamp))), sender)
  {
    var table := Marked(servers, sender, timestamp);
    ElectIsLeastAlive(order, table);
    assert sender in table && table[sender].alive && table[sender].id == sender;
    assert sender in AliveIds(table);
  }
}
