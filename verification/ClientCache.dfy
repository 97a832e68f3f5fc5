// The client's cache of open files and its least-recently-used list (client_basics.go).
module ClientCache {
  import opened Basics

  datatype Mode = Read | Write | ReadWrite

  /** A cached file. The local path is a function of the name, so it is not kept here. */
  datatype CacheEntry = CacheEntry(version: int, dirty: bool, fd: int, closed: bool, mode: Mode, valid: bool)

  datatype Client = Client(cache: map<string, CacheEntry>, lru: seq<string>)

  const MAX_CACHE_ENTRIES := 20

  /** What opening returns from the server. */
  datatype OpenReply = OpenReply(fd: int, version: int)

  // ---------- the two list operations ----------

  function Without(lru: seq<string>, name: string): seq<string>
  {
    if lru == [] then [] else if lru[0] == name then lru[1..] else [lru[0]] + Without(lru[1..], name)
  }

  /** touchLRU: the name goes to the end. */
  function Touched(lru: seq<string>, name: string): seq<string>
  {
    Without(lru, name) + [name]
  }

  predicate Evictable(cache: map<string, CacheEntry>, name: string)
  {
    name in cache && cache[name].closed && !cache[name].dirty && cache[name].fd == 0
  }

  /** The first name on the list that may be evicted. */
  function Victim(cache: map<string, CacheEntry>, lru: seq<string>): Option<string>
  {
    if lru == [] then None else if Evictable(cache, lru[0]) then Some(lru[0]) else Victim(cache, lru[1..])
  }

  /** evictFromCache, which fails when nothing may be evicted. */
  function Evicted(c: Client): (Client, bool)
  {
    match Victim(c.cache, c.lru)
    case None => (c, false)
    case Some(name) => (Client(c.cache - {name}, Without(c.lru, name)), true)
  }

  /** Making room before a new name is cached. */
  function RoomMade(c: Client): (Client, bool)
  {
    if |c.cache| >= MAX_CACHE_ENTRIES then Evicted(c) else (c, true)
  }

  // ---------- operations; the arguments say how the server and the disk answered ----------

  datatype Operation =
    | Create(name: string, reply: Option<OpenReply>)
    | Open(name: string, mode: Mode, auth: Option<int>, reply: Option<OpenReply>)
    | ReadFile(name: string, ok: bool)
    | WriteFile(name: string, ok: bool)
    | Commit(name: string, newVersion: Option<int>)
    | Close(name: string, newVersion: Option<int>)
    | Delete(name: string, removed: bool, ok: bool)

  function Put(c: Client, name: string, e: CacheEntry): Client
  {
    c.(cache := c.cache[name := e])
  }

  function Touch(c: Client, name: string): Client
  {
    c.(lru := Touched(c.lru, name))
  }

  function CreateFile(c: Client, name: string, reply: Option<OpenReply>): Client
  {
    var (room, ok) := RoomMade(c);
    if !ok || reply.None? then room
    else Touch(Put(room, name, CacheEntry(reply.value.version, false, reply.value.fd, true, Read, false)), name)
  }

  /** Opening anew: a fresh entry replaces whatever was cached. */
  function OpenAnew(c: Client, name: string, mode: Mode, reply: Option<OpenReply>): Client
  {
    if reply.None? then c
    else Touch(Put(c, name, CacheEntry(reply.value.version, false, reply.value.fd, false, mode, false)), name)
  }

  function OpenFile(c: Client, name: string, mode: Mode, auth: Option<int>, reply: Option<OpenReply>): Client
  {
    if name !in c.cache then
      var (room, ok) := RoomMade(c);
      if ok then OpenAnew(room, name, mode, reply) else room
    else
      var e := c.cache[name];
      if e.dirty || auth.None? then c
      else if e.version != auth.value then OpenAnew(c, name, mode, reply)
      else if !e.closed && e.mode != mode && e.mode == Read then c
      else
        var seen := Touch(Put(c, name, e.(valid := true, mode := mode)), name);
        if reply.None? then seen
        else Put(seen, name, e.(valid := true, mode := mode, fd := reply.value.fd, closed := false))
  }

  function Next(c: Client, op: Operation): Client
  {
    match op
    case Create(name, reply) => CreateFile(c, name, reply)
    case Open(name, mode, auth, reply) => OpenFile(c, name, mode, auth, reply)
    case ReadFile(name, ok) =>
      if name in c.cache && ok then Touch(c, name) else c
    case WriteFile(name, ok) =>
      if name in c.cache && c.cache[name].mode != Read && ok
      then Touch(Put(c, name, c.cache[name].(dirty := true, valid := false)), name) else c
    case Commit(name, newVersion) =>
      if name in c.cache && !c.cache[name].closed && c.cache[name].dirty && newVersion.Some?
      then Put(c, name, c.cache[name].(version := newVersion.value, dirty := false)) else c
    case Close(name, newVersion) =>
      if name in c.cache && newVersion.Some?
      then Touch(Put(c, name, c.cache[name].(version := newVersion.value, dirty := false, closed := true, fd := 0)), name) else c
    case Delete(name, removed, ok) =>
      if name in c.cache && (c.cache[name].dirty || !removed) then c
      else Client(c.cache - {name}, if ok then Without(c.lru, name) else c.lru)
  }

  // ---------- the object ----------

  class CachingClient {
    var cache: map<string, CacheEntry>
    var lru: seq<string>

    constructor ()
      ensures Value() == Client(map[], [])
    {
      cache, lru := map[], [];
    }

    function Value(): Client
      reads this
    {
      Client(cache, lru)
    }

    method TouchLRU(filename: string)
      modifies this`lru
      ensures lru == Touched(old(lru), filename)
    {
      ghost var before := lru;
      var i := 0;
      while i < |lru|
        invariant 0 <= i <= |lru| && lru == before
        invariant Without(before, filename) == before[..i] + Without(before[i..], filename)
      {
        WithoutFrom(before, filename, i);
        if lru[i] == filename {
          lru := lru[..i] + lru[i + 1..];
          break;
        }
        i := i + 1;
      }
      lru := lru + [filename];
    }

    method EvictFromCache() returns (ok: bool)
      modifies this
      ensures (Value(), ok) == Evicted(old(Value()))
    {
      ghost var before := lru;
      var i := 0;
      while i < |lru|
        invariant 0 <= i <= |lru| && lru == before && cache == old(cache)
        invariant Victim(cache, lru) == Victim(cache, lru[i..])
        invariant forall k :: 0 <= k < i ==> !Evictable(cache, lru[k])
      {
        assert lru[i..][0] == lru[i] && lru[i..][1..] == lru[i + 1..];
        var name := lru[i];
        if name !in cache {
          i := i + 1;
          continue;
        }
        var entry := cache[name];
        if entry.closed && !entry.dirty && entry.fd == 0 {
          WithoutFirst(before, i);
          cache := cache - {name};
          lru := lru[..i] + lru[i + 1..];
          return true;
        }
        i := i + 1;
      }
      return false;
    }

    method MakeRoom() returns (ok: bool)
      modifies this
      ensures (Value(), ok) == RoomMade(old(Value()))
    {
      ok := true;
      if |cache| >= MAX_CACHE_ENTRIES {
        ok := EvictFromCache();
      }
    }

    method CreateInCache(filename: string, reply: Option<OpenReply>)
      modifies this
      ensures Value() == CreateFile(old(Value()), filename, reply)
    {
      var ok := MakeRoom();
      if !ok || reply.None? {
        return;
      }
      cache := cache[filename := CacheEntry(reply.value.version, false, reply.value.fd, true, Read, false)];
      TouchLRU(filename);
    }

    method OpenInCache(filename: string, mode: Mode, auth: Option<int>, reply: Option<OpenReply>)
      modifies this
      ensures Value() == OpenFile(old(Value()), filename, mode, auth, reply)
    {
      if filename in cache {
        var entry := cache[filename];
        if entry.dirty || auth.None? {
          return;
        }
        if entry.version == auth.value {
          if !entry.closed && entry.mode != mode && entry.mode == Read {
            return;
          }
          cache := cache[filename := entry.(valid := true, mode := mode)];
          TouchLRU(filename);
          if reply.Some? {
            cache := cache[filename := cache[filename].(fd := reply.value.fd, closed := false)];
          }
          return;
        }
      } else {
        var ok := MakeRoom();
        if !ok {
          return;
        }
      }
      if reply.None? {
        return;
      }
      cache := cache[filename := CacheEntry(reply.value.version, false, reply.value.fd, false, mode, false)];
      TouchLRU(filename);
    }

    method CloseInCache(filename: string, newVersion: Option<int>)
      modifies this
      ensures Value() == Next(old(Value()), Close(filename, newVersion))
    {
      if filename !in cache || newVersion.None? {
        return;
      }
      cache := cache[filename := cache[filename].(version := newVersion.value, dirty := false, closed := true, fd := 0)];
      TouchLRU(filename);
    }

    method DeleteInCache(filename: string, removed: bool, ok: bool)
      modifies this
      ensures Value() == Next(old(Value()), Delete(filename, removed, ok))
    {
      if filename in cache {
        if cache[filename].dirty || !removed {
          return;
        }
      }
      cache := cache - {filename};
      if !ok {
        return;
      }
      DropFromLRU(filename);
    }

    /** The loop at the end of Delete. */
    method DropFromLRU(filename: string)
      modifies this`lru
      ensures lru == Without(old(lru), filename)
    {
      ghost var before := lru;
      var i := 0;
      while i < |lru|
        invariant 0 <= i <= |lru| && lru == before
        invariant Without(before, filename) == before[..i] + Without(before[i..], filename)
      {
        WithoutFrom(before, filename, i);
        if lru[i] == filename {
          lru := lru[..i] + lru[i + 1..];
          return;
        }
        i := i + 1;
      }
    }
  }

  /** One step of the search for a name to remove. */
  lemma WithoutFrom(lru: seq<string>, name: string, i: nat)
    requires i < |lru|
    ensures lru[..i] + Without(lru[i..], name) ==
            if lru[i] == name then lru[..i] + lru[i + 1..] else lru[..i + 1] + Without(lru[i + 1..], name)
  {
    assert lru[i..][0] == lru[i] && lru[i..][1..] == lru[i + 1..];
    assert lru[..i + 1] == lru[..i] + [lru[i]];
  }

  /** Removing the entry at i is removing its name, when the name does not occur before. */
  lemma {:induction false} WithoutFirst(lru: seq<string>, i: nat)
    requires i < |lru| && forall k :: 0 <= k < i ==> lru[k] != lru[i]
    ensures Without(lru, lru[i]) == lru[..i] + lru[i + 1..]
  {
    if i > 0 {
      assert lru[1..][i - 1] == lru[i] && lru[0] != lru[i];
      WithoutFirst(lru[1..], i - 1);
      assert lru[1..][..i - 1] == lru[1..i] && lru[1..][i - 1 + 1..] == lru[i + 1..];
      assert lru[..i] == [lru[0]] + lru[1..i];
    }
  }

  // ---------- the invariant ----------

  ghost predicate NoDuplicates(lru: seq<string>)
  {
    forall i, j :: 0 <= i < j < |lru| ==> lru[i] != lru[j]
  }

  ghost predicate Inv(c: Client)
  {
    && NoDuplicates(c.lru)
    && (forall name :: name in c.cache ==> name in c.lru)
    && |c.cache| <= MAX_CACHE_ENTRIES
  }

  lemma {:induction false} WithoutMembers(lru: seq<string>, name: string)
    requires NoDuplicates(lru)
    ensures forall x :: x in Without(lru, name) <==> x in lru && x != name
  {
    if lru != [] {
      assert lru == [lru[0]] + lru[1..];
      if lru[0] != name {
        WithoutMembers(lru[1..], name);
      }
    }
  }

  lemma {:induction false} WithoutFacts(lru: seq<string>, name: string)
    requires NoDuplicates(lru)
    ensures NoDuplicates(Without(lru, name))
    ensures forall x :: x in Without(lru, name) <==> x in lru && x != name
  {
    WithoutMembers(lru, name);
    if lru != [] && lru[0] != name {
      TailLacksHead(lru);
      hide NoDuplicates;
      WithoutFacts(lru[1..], name);
      OneMoreName(lru[0], Without(lru[1..], name));
    }
  }

  lemma TailLacksHead(lru: seq<string>)
    requires lru != [] && NoDuplicates(lru)
    ensures lru[0] !in lru[1..] && NoDuplicates(lru[1..])
  {}

  lemma OneMoreName(name: string, rest: seq<string>)
    requires NoDuplicates(rest) && name !in rest
    ensures NoDuplicates([name] + rest)
  {
    assert forall k :: 0 <= k < |rest| ==> rest[k] in rest;
  }

  lemma TouchedFacts(lru: seq<string>, name: string)
    requires NoDuplicates(lru)
    ensures NoDuplicates(Touched(lru, name))
    ensures forall x :: x in Touched(lru, name) <==> x in lru || x == name
  {
    WithoutFacts(lru, name);
    var rest := Without(lru, name);
    assert forall k :: 0 <= k < |rest| ==> rest[k] in rest;
  }

  lemma {:induction false} VictimFacts(cache: map<string, CacheEntry>, lru: seq<string>)
    ensures match Victim(cache, lru)
            case None => forall x :: x in lru ==> !Evictable(cache, x)
            case Some(name) => name in lru && Evictable(cache, name)
  {
    if lru != [] {
      VictimFacts(cache, lru[1..]);
      assert lru == [lru[0]] + lru[1..];
    }
  }

  lemma RoomKeepsInv(c: Client)
    requires Inv(c)
    ensures Inv(RoomMade(c).0) && (RoomMade(c).1 ==> |RoomMade(c).0.cache| < MAX_CACHE_ENTRIES)
  {
    VictimFacts(c.cache, c.lru);
    match Victim(c.cache, c.lru) {
      case None =>
      case Some(name) =>
        WithoutFacts(c.lru, name);
        assert (c.cache - {name}).Keys == c.cache.Keys - {name};
        assert |c.cache - {name}| == |c.cache| - 1 by {
          assert |(c.cache - {name}).Keys| == |c.cache.Keys| - 1;
        }
    }
  }

  /** Caching a name and touching it. */
  lemma PutAndTouchKeepsInv(c: Client, name: string, e: CacheEntry)
    requires Inv(c) && (name in c.cache || |c.cache| < MAX_CACHE_ENTRIES)
    ensures Inv(Touch(Put(c, name, e), name))
  {
    hide Touched, NoDuplicates;
    TouchedFacts(c.lru, name);
    PutSize(c.cache, name, e);
  }

  lemma PutSize(cache: map<string, CacheEntry>, name: string, e: CacheEntry)
    ensures |cache[name := e]| == |cache| + if name in cache then 0 else 1
  {
    assert cache[name := e].Keys == cache.Keys + {name};
    assert |cache[name := e]| == |cache[name := e].Keys| && |cache| == |cache.Keys|;
    if name in cache {
      assert cache.Keys + {name} == cache.Keys;
    }
  }

  lemma PutKeepsInv(c: Client, name: string, e: CacheEntry)
    requires Inv(c) && name in c.cache
    ensures Inv(Put(c, name, e))
  {
    PutSize(c.cache, name, e);
  }

  lemma StepKeepsInv(c: Client, op: Operation)
    requires Inv(c)
    ensures Inv(Next(c, op))
  {
    hide Inv, Touched, Without;
    match op
    case Create(name, reply) =>
      RoomKeepsInv(c);
      var (room, ok) := RoomMade(c);
      if ok && reply.Some? {
        PutAndTouchKeepsInv(room, name, CacheEntry(reply.value.version, false, reply.value.fd, true, Read, false));
      }
    case Open(name, mode, auth, reply) =>
      OpenKeepsInv(c, name, mode, auth, reply);
    case ReadFile(name, ok) =>
      if name in c.cache {
        PutAndTouchKeepsInv(c, name, c.cache[name]);
        assert c.cache[name := c.cache[name]] == c.cache;
      }
    case WriteFile(name, ok) =>
      if name in c.cache {
        PutAndTouchKeepsInv(c, name, c.cache[name].(dirty := true, valid := false));
      }
    case Commit(name, newVersion) =>
      if name in c.cache && newVersion.Some? {
        PutKeepsInv(c, name, c.cache[name].(version := newVersion.value, dirty := false));
      }
    case Close(name, newVersion) =>
      if name in c.cache && newVersion.Some? {
        PutAndTouchKeepsInv(c, name, c.cache[name].(version := newVersion.value, dirty := false, closed := true, fd := 0));
      }
    case Delete(name, removed, ok) =>
      RemoveKeepsInv(c, name);
  }

  lemma OpenKeepsInv(c: Client, name: string, mode: Mode, auth: Option<int>, reply: Option<OpenReply>)
    requires Inv(c)
    ensures Inv(OpenFile(c, name, mode, auth, reply))
  {
    hide Inv, Touched, Without;
    RoomKeepsInv(c);
    if name !in c.cache {
      if reply.Some? && RoomMade(c).1 {
        PutAndTouchKeepsInv(RoomMade(c).0, name, CacheEntry(reply.value.version, false, reply.value.fd, false, mode, false));
      }
    } else {
      var e := c.cache[name];
      PutAndTouchKeepsInv(c, name, e.(valid := true, mode := mode));
      if reply.Some? {
        PutAndTouchKeepsInv(c, name, CacheEntry(reply.value.version, false, reply.value.fd, false, mode, false));
        PutKeepsInv(Touch(Put(c, name, e.(valid := true, mode := mode)), name), name,
                    e.(valid := true, mode := mode, fd := reply.value.fd, closed := false));
      }
    }
  }

  lemma RemoveKeepsInv(c: Client, name: string)
    requires Inv(c)
    ensures Inv(Client(c.cache - {name}, c.lru)) && Inv(Client(c.cache - {name}, Without(c.lru, name)))
  {
    WithoutFacts(c.lru, name);
    assert (c.cache - {name}).Keys == c.cache.Keys - {name};
    assert |c.cache - {name}| == |(c.cache - {name}).Keys| <= |c.cache.Keys| == |c.cache|;
  }

  function After(c: Client, ops: seq<Operation>): Client
  {
    if ops == [] then c else Next(After(c, ops[..|ops| - 1]), ops[|ops| - 1])
  }

  /** In every run the list has no duplicates and contains every cached name, and at most 20 files are cached. */
  lemma {:induction false} CacheIsBounded(ops: seq<Operation>)
    ensures Inv(After(Client(map[], []), ops)) && |After(Client(map[], []), ops).cache| <= 20
  {
    if ops != [] {
      CacheIsBounded(ops[..|ops| - 1]);
      StepKeepsInv(After(Client(map[], []), ops[..|ops| - 1]), ops[|ops| - 1]);
    }
  }

  // ---------- what an operation leaves in the cache ----------

  /** The client can take up another name. */
  predicate HasRoom(c: Client)
  {
    |c.cache| < 20 || exists name :: name in c.cache && name in c.lru && Evictable(c.cache, name)
  }

  lemma RoomMadeIff(c: Client)
    ensures RoomMade(c).1 <==> HasRoom(c)
  {
    VictimFacts(c.cache, c.lru);
  }

  /** A file that is not cached is cached exactly when there is room and the server replies, and then in the mode asked for. */
  lemma OpenUncached(c: Client, name: string, mode: Mode, auth: Option<int>, reply: Option<OpenReply>)
    requires name !in c.cache
    ensures var cache := Next(c, Open(name, mode, auth, reply)).cache;
            if HasRoom(c) && reply.Some?
            then name in cache && cache[name] == CacheEntry(reply.value.version, false, reply.value.fd, false, mode, false)
            else name !in cache
  {
    RoomMadeIff(c);
    VictimFacts(c.cache, c.lru);
  }

  /** A cached file that is dirty, or whose version the server does not confirm for lack of an answer, is left as it is. */
  lemma OpenLeavesDirty(c: Client, name: string, mode: Mode, auth: Option<int>, reply: Option<OpenReply>)
    requires name in c.cache && (c.cache[name].dirty || auth.None?)
    ensures Next(c, Open(name, mode, auth, reply)) == c
  {}

  /** So is one that is up to date and open for reading, when another mode is asked for. */
  lemma OpenKeepsReadMode(c: Client, name: string, mode: Mode, auth: Option<int>, reply: Option<OpenReply>)
    requires name in c.cache && !c.cache[name].dirty && auth == Some(c.cache[name].version)
    requires !c.cache[name].closed && c.cache[name].mode == Read && mode != Read
    ensures Next(c, Open(name, mode, auth, reply)) == c
  {}

  /** Any other clean file that is up to date keeps its version and gets the mode; the descriptor is the server's, if it replies. */
  lemma OpenUpToDate(c: Client, name: string, mode: Mode, auth: Option<int>, reply: Option<OpenReply>)
    requires name in c.cache && !c.cache[name].dirty && auth == Some(c.cache[name].version)
    requires c.cache[name].closed || c.cache[name].mode != Read || mode == Read
    ensures var (e, cache) := (c.cache[name], Next(c, Open(name, mode, auth, reply)).cache);
            && name in cache && cache[name].version == e.version && cache[name].mode == mode
            && cache[name].valid && !cache[name].dirty
            && cache[name].fd == (if reply.Some? then reply.value.fd else e.fd)
            && cache[name].closed == (reply.None? && e.closed)
  {}

  /** An outdated clean file is replaced by what the server replies. */
  lemma OpenOutdated(c: Client, name: string, mode: Mode, auth: Option<int>, reply: Option<OpenReply>)
    requires name in c.cache && !c.cache[name].dirty && auth.Some? && auth.value != c.cache[name].version
    ensures var after := Next(c, Open(name, mode, auth, reply));
            if reply.Some?
            then name in after.cache
                 && after.cache[name] == CacheEntry(reply.value.version, false, reply.value.fd, false, mode, false)
            else after == c
  {}

  /** After opening a new file, writing makes it dirty exactly when it was opened in a writing mode and the local write succeeds. */
  lemma WriteAfterOpen(c: Client, name: string, mode: Mode, auth: Option<int>, reply: OpenReply, ok: bool)
    requires name !in c.cache && HasRoom(c)
    ensures var cache := Next(Next(c, Open(name, mode, auth, Some(reply))), WriteFile(name, ok)).cache;
            name in cache && (cache[name].dirty <==> mode != Read && ok) && cache[name].version == reply.version
  {
    OpenUncached(c, name, mode, auth, Some(reply));
  }

  /** A write marks the entry dirty and its local copy as not the server's, and changes nothing else of it. */
  lemma WriteEffect(c: Client, name: string, ok: bool)
    ensures var cache := Next(c, WriteFile(name, ok)).cache;
            cache == if name in c.cache && c.cache[name].mode in {Mode.Write, Mode.ReadWrite} && ok
                     then c.cache[name := c.cache[name].(dirty := true, valid := false)] else c.cache
  {}

  /** A created file has the server's version and descriptor, and counts as closed and clean, in mode Read. */
  lemma CreateEffect(c: Client, name: string, reply: Option<OpenReply>)
    ensures var cache := Next(c, Create(name, reply)).cache;
            HasRoom(c) && reply.Some? ==>
              name in cache && cache[name] == CacheEntry(reply.value.version, false, reply.value.fd, true, Read, false)
    ensures !(HasRoom(c) && reply.Some?) ==> Next(c, Create(name, reply)) == RoomMade(c).0
    ensures !HasRoom(c) ==> Next(c, Create(name, reply)) == c
  {
    RoomMadeIff(c);
  }

  /** A commit takes the server's version and clears the dirty flag, exactly for an open, dirty file that the server accepts. */
  lemma CommitEffect(c: Client, name: string, newVersion: Option<int>)
    ensures var after := Next(c, Commit(name, newVersion));
            && after.lru == c.lru
            && if name in c.cache && !c.cache[name].closed && c.cache[name].dirty && newVersion.Some?
               then after.cache == c.cache[name := c.cache[name].(version := newVersion.value, dirty := false)]
               else after.cache == c.cache
  {}

  /** A close takes the server's version and leaves the entry clean, closed and without descriptor, if the server accepts it. */
  lemma CloseEffect(c: Client, name: string, newVersion: Option<int>)
    ensures var cache := Next(c, Close(name, newVersion)).cache;
            if name in c.cache && newVersion.Some?
            then cache == c.cache[name := CacheEntry(newVersion.value, false, 0, true, c.cache[name].mode, c.cache[name].valid)]
            else cache == c.cache
  {}

  /** A delete drops the entry unless it is dirty or its local file cannot be removed; the list only when the server agrees too. */
  lemma DeleteEffect(c: Client, name: string, removed: bool, ok: bool)
    requires NoDuplicates(c.lru)
    ensures var after := Next(c, Delete(name, removed, ok));
            if name in c.cache && (c.cache[name].dirty || !removed) then after == c
            else && after.cache.Keys == c.cache.Keys - {name}
                 && (forall x :: x in after.lru <==> x in c.lru && !(ok && x == name))
  {
    WithoutFacts(c.lru, name);
  }

  /** No operation changes the entry of another file, except that an eviction may drop one. */
  lemma OthersUntouched(c: Client, op: Operation, other: string)
    requires op.name != other
    ensures other in Next(c, op).cache ==> other in c.cache && Next(c, op).cache[other] == c.cache[other]
    ensures other in c.cache && other !in Next(c, op).cache ==>
      && c.cache[other].closed && !c.cache[other].dirty && c.cache[other].fd == 0
      && |c.cache| >= 20 && (op.Create? || op.Open?)
  {
    VictimFacts(c.cache, c.lru);
  }

  // ---------- what is never lost, and what becomes evictable ----------

  /** Unsaved writes stay cached: only a commit, a close or a new creation of the same file ends them; no eviction, no delete. */
  lemma UnsavedWritesStay(c: Client, op: Operation, name: string)
    requires name in c.cache && c.cache[name].dirty
    requires op.name == name ==> !op.Commit? && !op.Close? && !op.Create?
    ensures name in Next(c, op).cache && Next(c, op).cache[name].dirty
  {
    VictimFacts(c.cache, c.lru);
  }

  /** An open file is not evicted either: only deleting it removes it. */
  lemma OpenFilesStay(c: Client, op: Operation, name: string)
    requires name in c.cache && !c.cache[name].closed
    requires op.name == name ==> !op.Delete?
    ensures name in Next(c, op).cache
  {
    VictimFacts(c.cache, c.lru);
  }

  /** A file that is closed with success may be evicted from then on, until it is used again. */
  lemma ClosedFileIsEvictable(c: Client, name: string, newVersion: int, op: Operation)
    requires name in c.cache
    ensures var closed := Next(c, Close(name, Some(newVersion)));
            && Evictable(closed.cache, name) && closed.cache[name].version == newVersion
            && (op.name != name && name in Next(closed, op).cache ==> Evictable(Next(closed, op).cache, name))
  {}

  // ---------- the list is ordered by last use ----------

  /** What an operation does to the list: it uses a name, or drops one. */
  datatype Event = Use(name: string) | Drop(name: string)

  function EvictionEvents(c: Client): seq<Event>
  {
    if |c.cache| < MAX_CACHE_ENTRIES then []
    else match Victim(c.cache, c.lru)
         case None => []
         case Some(name) => [Drop(name)]
  }

  /** A file is used when it is created, opened, read, written or closed; a name is dropped when evicted or deleted. */
  function Events(c: Client, op: Operation): seq<Event>
  {
    match op
    case Create(name, reply) =>
      EvictionEvents(c) + if RoomMade(c).1 && reply.Some? then [Use(name)] else []
    case Open(name, mode, auth, reply) =>
      if name !in c.cache then EvictionEvents(c) + if RoomMade(c).1 && reply.Some? then [Use(name)] else []
      else
        var e := c.cache[name];
        if e.dirty || auth.None? then []
        else if e.version != auth.value then if reply.Some? then [Use(name)] else []
        else if !e.closed && e.mode != mode && e.mode == Read then []
        else [Use(name)]
    case ReadFile(name, ok) => if name in c.cache && ok then [Use(name)] else []
    case WriteFile(name, ok) => if name in c.cache && c.cache[name].mode != Read && ok then [Use(name)] else []
    case Commit(_, _) => []
    case Close(name, newVersion) => if name in c.cache && newVersion.Some? then [Use(name)] else []
    case Delete(name, removed, ok) =>
      if !(name in c.cache && (c.cache[name].dirty || !removed)) && ok then [Drop(name)] else []
  }

  function Trace(ops: seq<Operation>): seq<Event>
  {
    if ops == [] then []
    else
      var init := ops[..|ops| - 1];
      Trace(init) + Events(After(Client(map[], []), init), ops[|ops| - 1])
  }

  /** The position of the last event about a name, or -1. */
  function Last(trace: seq<Event>, name: string): (k: int)
    ensures -1 <= k < |trace|
    ensures k >= 0 ==> trace[k].name == name
  {
    if trace == [] then -1
    else if trace[|trace| - 1].name == name then |trace| - 1
    else Last(trace[..|trace| - 1], name)
  }

  /** The list holds the names whose last event is a use, in the order of those uses. */
  ghost predicate OrderedByLastUse(lru: seq<string>, trace: seq<Event>)
  {
    && (forall i, j :: 0 <= i < j < |lru| ==> Last(trace, lru[i]) < Last(trace, lru[j]))
    && (forall x :: x in lru <==> Last(trace, x) >= 0 && trace[Last(trace, x)].Use?)
  }

  function ApplyEvent(lru: seq<string>, e: Event): seq<string>
  {
    if e.Use? then Touched(lru, e.name) else Without(lru, e.name)
  }

  lemma LastAfter(trace: seq<Event>, e: Event)
    ensures forall x :: Last(trace + [e], x) == if x == e.name then |trace| else Last(trace, x)
  {
    assert (trace + [e])[..|trace|] == trace;
  }

  lemma {:induction false} WithoutIsSubsequence(lru: seq<string>, name: string, i: nat, j: nat) returns (i': nat, j': nat)
    requires i < j < |Without(lru, name)| && NoDuplicates(lru)
    ensures i' < j' < |lru| && Without(lru, name)[i] == lru[i'] && Without(lru, name)[j] == lru[j']
  {
    if lru[0] == name {
      i', j' := i + 1, j + 1;
    } else if i > 0 {
      i', j' := WithoutIsSubsequence(lru[1..], name, i - 1, j - 1);
      i', j' := i' + 1, j' + 1;
    } else {
      WithoutFacts(lru[1..], name);
      assert Without(lru, name)[j] == Without(lru[1..], name)[j - 1];
      assert Without(lru[1..], name)[j - 1] in lru[1..];
      i' := 0;
      j' :| 1 <= j' < |lru| && lru[j'] == Without(lru, name)[j];
    }
  }

  lemma EventKeepsOrder(lru: seq<string>, trace: seq<Event>, e: Event)
    requires NoDuplicates(lru) && OrderedByLastUse(lru, trace)
    ensures NoDuplicates(ApplyEvent(lru, e)) && OrderedByLastUse(ApplyEvent(lru, e), trace + [e])
  {
    var lru' := ApplyEvent(lru, e);
    WithoutFacts(lru, e.name);
    LastAfter(trace, e);
    forall i, j | 0 <= i < j < |lru'|
      ensures Last(trace + [e], lru'[i]) < Last(trace + [e], lru'[j])
    {
      var rest := Without(lru, e.name);
      assert rest[i] in rest;
      if j < |rest| {
        assert rest[j] in rest;
        var i', j' := WithoutIsSubsequence(lru, e.name, i, j);
      }
    }
  }

  function ApplyEvents(lru: seq<string>, events: seq<Event>): seq<string>
    decreases events
  {
    if events == [] then lru else ApplyEvents(ApplyEvent(lru, events[0]), events[1..])
  }

  lemma {:induction false} EventsKeepOrder(lru: seq<string>, trace: seq<Event>, events: seq<Event>)
    requires NoDuplicates(lru) && OrderedByLastUse(lru, trace)
    ensures OrderedByLastUse(ApplyEvents(lru, events), trace + events)
    decreases events
  {
    hide OrderedByLastUse, NoDuplicates, Touched, Without;
    if events == [] {
      assert trace + events == trace;
    } else {
      EventKeepsOrder(lru, trace, events[0]);
      EventsKeepOrder(ApplyEvent(lru, events[0]), trace + [events[0]], events[1..]);
      assert trace + [events[0]] + events[1..] == trace + events;
    }
  }

  lemma ApplyAtMostOne(lru: seq<string>, e: Event)
    ensures ApplyEvents(lru, []) == lru && ApplyEvents(lru, [e]) == ApplyEvent(lru, e)
  {
    assert [e][1..] == [];
  }

  lemma {:induction false} ApplyEventsConcat(lru: seq<string>, a: seq<Event>, b: seq<Event>)
    ensures ApplyEvents(lru, a + b) == ApplyEvents(ApplyEvents(lru, a), b)
    decreases a
  {
    if a == [] {
      assert a + b == b;
    } else {
      assert (a + b)[1..] == a[1..] + b;
      ApplyEventsConcat(ApplyEvent(lru, a[0]), a[1..], b);
    }
  }

  lemma EvictionIsAnEvent(c: Client)
    ensures RoomMade(c).0.lru == ApplyEvents(c.lru, EvictionEvents(c))
  {
    match Victim(c.cache, c.lru) {
      case None =>
      case Some(name) => ApplyAtMostOne(c.lru, Drop(name));
    }
  }

  lemma OperationEvents(c: Client, op: Operation)
    ensures Next(c, op).lru == ApplyEvents(c.lru, Events(c, op))
  {
    var room := RoomMade(c).0;
    EvictionIsAnEvent(c);
    ApplyEventsConcat(c.lru, EvictionEvents(c), []);
    ApplyEventsConcat(c.lru, EvictionEvents(c), [Use(op.name)]);
    ApplyAtMostOne(room.lru, Use(op.name));
    ApplyAtMostOne(c.lru, Use(op.name));
    ApplyAtMostOne(c.lru, Drop(op.name));
    hide ApplyEvents, RoomMade, EvictionEvents;
  }

  /** In every run the list is ordered by last use. */
  lemma {:induction false} ListIsOrderedByLastUse(ops: seq<Operation>)
    ensures OrderedByLastUse(After(Client(map[], []), ops).lru, Trace(ops))
  {
    if ops != [] {
      var init, op := ops[..|ops| - 1], ops[|ops| - 1];
      var c := After(Client(map[], []), init);
      ListIsOrderedByLastUse(init);
      CacheIsBounded(init);
      OperationEvents(c, op);
      EventsKeepOrder(c.lru, Trace(init), Events(c, op));
    }
  }

  lemma {:induction false} VictimIsFirst(cache: map<string, CacheEntry>, lru: seq<string>) returns (i: nat)
    requires Victim(cache, lru).Some?
    ensures i < |lru| && lru[i] == Victim(cache, lru).value && forall k :: 0 <= k < i ==> !Evictable(cache, lru[k])
  {
    i := 0;
    if !Evictable(cache, lru[0]) {
      i := VictimIsFirst(cache, lru[1..]);
      i := i + 1;
    }
  }

  /**
   * In every run, eviction removes the least recently used of the cached files that are closed, clean and have fd 0; it
   * fails only when there is none.
   */
  lemma EvictsLeastRecentlyUsed(ops: seq<Operation>, other: string)
    ensures var c := After(Client(map[], []), ops);
            Evictable(c.cache, other) ==>
              && Evicted(c).1
              && exists victim :: Evictable(c.cache, victim)
                  && Evicted(c).0 == Client(c.cache - {victim}, Without(c.lru, victim))
                  && Last(Trace(ops), victim) <= Last(Trace(ops), other)
  {
    var c := After(Client(map[], []), ops);
    CacheIsBounded(ops);
    ListIsOrderedByLastUse(ops);
    VictimFacts(c.cache, c.lru);
    if Evictable(c.cache, other) {
      var j :| 0 <= j < |c.lru| && c.lru[j] == other;
      var i := VictimIsFirst(c.cache, c.lru);
      assert Last(Trace(ops), c.lru[i]) <= Last(Trace(ops), other);
    }
  }

  /** A client with a full cache can take up another file exactly when some cached file may be evicted. */
  lemma RoomIffEvictable(ops: seq<Operation>)
    ensures var c := After(Client(map[], []), ops);
            RoomMade(c).1 <==> |c.cache| < MAX_CACHE_ENTRIES || exists name :: Evictable(c.cache, name)
  {
    var c := After(Client(map[], []), ops);
    CacheIsBounded(ops);
    VictimFacts(c.cache, c.lru);
  }

  /**
   * A file just created counts as closed, but keeps the descriptor the server gave it: until it is used again it may be
   * evicted exactly when that descriptor happens to be 0. So 20 created files block the cache.
   */
  lemma CreatedFileIsEvictableIffFdZero(c: Client, name: string, reply: OpenReply, op: Operation)
    requires RoomMade(c).1
    ensures var created := Next(c, Create(name, Some(reply)));
            && (Evictable(created.cache, name) <==> reply.fd == 0)
            && (op.name != name && reply.fd != 0 ==> name in Next(created, op).cache && !Evictable(Next(created, op).cache, name))
  {
    var created := Next(c, Create(name, Some(reply)));
    VictimFacts(created.cache, created.lru);
  }

  /** Creations of different files, each answered with a descriptor other than 0. */
  ghost predicate FreshCreations(ops: seq<Operation>)
  {
    && (forall i :: 0 <= i < |ops| ==> ops[i].Create? && ops[i].reply.Some? && ops[i].reply.value.fd != 0)
    && (forall i, j :: 0 <= i < j < |ops| ==> ops[i].name != ops[j].name)
  }

  /** Every cached file is blocked, and the cached files are those created. */
  ghost predicate AllBlocked(c: Client, ops: seq<Operation>)
  {
    && |c.cache| == |ops| && (forall x :: x in c.cache ==> !Evictable(c.cache, x))
    && (forall x :: x in c.cache ==> exists i :: 0 <= i < |ops| && ops[i].name == x)
  }

  lemma OneMoreBlocked(c: Client, ops: seq<Operation>, op: Operation)
    requires AllBlocked(c, ops) && |ops| < MAX_CACHE_ENTRIES && FreshCreations(ops + [op])
    ensures AllBlocked(Next(c, op), ops + [op])
  {
    assert (ops + [op])[|ops|] == op;
    forall i | 0 <= i < |ops|
      ensures ops[i].name != op.name
    {
      assert (ops + [op])[i] == ops[i];
    }
    assert op.name !in c.cache;
    var c' := Next(c, op);
    hide Touched;
    PutSize(c.cache, op.name, c'.cache[op.name]);
    forall x | x in c'.cache
      ensures exists i :: 0 <= i < |ops + [op]| && (ops + [op])[i].name == x
    {
      if x != op.name {
        var i :| 0 <= i < |ops| && ops[i].name == x;
        assert (ops + [op])[i] == ops[i];
      }
    }
  }

  lemma FreshPrefix(ops: seq<Operation>)
    requires ops != [] && FreshCreations(ops)
    ensures FreshCreations(ops[..|ops| - 1])
  {}

  lemma NothingBlocked()
    ensures AllBlocked(After(Client(map[], []), []), [])
  {}

  /** Until the cache is full each of them is cached, and none may be evicted. */
  lemma {:induction false} CreationsStay(ops: seq<Operation>)
    requires FreshCreations(ops) && |ops| <= MAX_CACHE_ENTRIES
    ensures AllBlocked(After(Client(map[], []), ops), ops)
  {
    hide AllBlocked, Next, FreshCreations;
    if ops == [] {
      NothingBlocked();
    } else {
      var init, op := ops[..|ops| - 1], ops[|ops| - 1];
      FreshPrefix(ops);
      CreationsStay(init);
      assert ops == init + [op];
      OneMoreBlocked(After(Client(map[], []), init), init, op);
    }
  }

  /** After 20 such creations the client can take up no file: any creation, and opening a file not cached, fails and changes nothing. */
  lemma TwentyCreationsBlockTheCache(ops: seq<Operation>, op: Operation)
    requires FreshCreations(ops) && |ops| == 20
    ensures var c := After(Client(map[], []), ops);
            && |c.cache| == 20 && !RoomMade(c).1
            && (op.Create? || (op.Open? && op.name !in c.cache) ==> Next(c, op) == c)
  {
    CreationsStay(ops);
    RoomIffEvictable(ops);
  }
}
