/** A run on which spacing fails: a restart inside the epoch, before either build is stored. */
module CacheLimits {
  import opened Wrappers
  import opened SnapshotCache
  import opened CacheProtocol

  const TTL := 10
  const BUILT: Built<int> := Built(1, 7)

  /** The server while "a" is published: everything else as given. */
  function During(server: Server<int>, held: map<nat, ReqId>, requests: map<ReqId, Request<int>>, log: seq<Event>)
    : State<int>
  {
    State(server, TTL, 0, held, requests, map[1 := [7]], [map[], map["a" := 1]], log)
  }

  function Published(locks: map<Id, Bound>, nextLock: nat): Server<int> {
    Server(map["a" := 1], 1, map[], locks, nextLock)
  }

  function Asking(loop: nat, fetched: nat, phase: Phase<int>): Request<int> {
    Request("a", loop, 1, 1, fetched, phase)
  }

  ghost predicate Reachable(s: State<int>) {
    exists states, steps :: IsRun(states, steps) && states[|steps|] == s
  }

  lemma Advance(s: State<int>, step: Step<int>) returns (t: State<int>)
    requires Reachable(s) && Enabled(s, step)
    ensures Reachable(t) && t == Next(s, step)
  {
    t := Next(s, step);
    var states, steps :| IsRun(states, steps) && states[|steps|] == s;
    assert IsRun(states + [t], steps + [step]) && (states + [t])[|steps + [step]|] == t;
  }

  lemma Opening() returns (s: State<int>)
    ensures Reachable(s) && s == During(Published(map[], 0), map[], map[], [Invalidated(1, "a")])
  {
    s := State(Empty(), TTL, 0, map[], map[], map[], [map[]], []);
    var none: seq<Step<int>> := [];
    assert IsRun([s], none) && [s][|none|] == s;
    s := Advance(s, Register("a", 1));
    s := Advance(s, Produce(1, 7));
    assert s.server.providers == map["a" := 1] && s.server.cache == map[] && s.server.locks == map[];
    assert s.runs[1] == [7];
    assert s.runs == map[1 := [7]] && s.past == [map[], map["a" := 1]] && s.log == [Invalidated(1, "a")];
  }

  lemma Asks(s: State<int>, r: ReqId, loop: nat) returns (t: State<int>)
    requires Reachable(s) && s == During(s.server, s.held, s.requests, s.log) && r !in s.requests
    requires s.server.providers == map["a" := 1] && s.server.epoch == 1
    ensures Reachable(t) && t == s.(requests := s.requests[r := Asking(loop, |s.log|, Admitted)])
  {
    t := Advance(s, Admit(r, "a", loop));
  }

  /** A request fetches a new lock and takes it. */
  lemma Locks(s: State<int>, r: ReqId, k: nat, loop: nat) returns (t: State<int>)
    requires Reachable(s) && s == During(Published(map[], k), s.held, s.requests, s.log) && k !in s.held
    requires r in s.requests && s.requests[r] == Asking(loop, |s.log|, Admitted)
    ensures Reachable(t)
    ensures t == During(Published(map["a" := Bound(loop, k)], k + 1), s.held[k := r],
                        s.requests[r := Asking(loop, |s.log|, Holding(k))], s.log + [Fetched(1, "a", loop)])
  {
    t := Advance(s, Fetch(r));
    assert t.server.locks == map["a" := Bound(loop, k)];
    assert t.requests == s.requests[r := Asking(loop, |s.log|, Waiting(k))];
    t := Advance(t, Acquire(r));
    assert t.requests == s.requests[r := Asking(loop, |s.log|, Holding(k))];
  }

  /** It finds nothing cached and has the provider called. */
  lemma Calling(s: State<int>, r: ReqId, k: nat, loop: nat, fetched: nat) returns (t: State<int>)
    requires Reachable(s) && s == During(s.server, s.held, s.requests, s.log) && s.server.cache == map[]
    requires r in s.requests && s.requests[r] == Asking(loop, fetched, Holding(k))
    ensures Reachable(t) && t == s.(requests := s.requests[r := Asking(loop, fetched, Serialized(k, BUILT))])
  {
    t := Advance(s, Look(r));
    assert t.requests == s.requests[r := Asking(loop, fetched, Looked(k, None))];
    t := Advance(t, Decide(r));
    assert t.requests == s.requests[r := Asking(loop, fetched, Building(k))];
    t := Advance(t, CallProvider(r));
    assert t.requests == s.requests[r := Asking(loop, fetched, Serialized(k, BUILT))];
  }

  lemma Restart(s: State<int>) returns (t: State<int>)
    requires Reachable(s)
    ensures Reachable(t)
    ensures t == s.(server := s.server.(cache := map[], locks := map[]),
                    log := s.log + [CacheCleared(s.server.epoch), LocksCleared(s.server.epoch)])
  {
    t := Advance(s, ClearCache);
    t := Advance(t, ClearLocks);
    assert s.log + [CacheCleared(s.server.epoch)] + [LocksCleared(s.server.epoch)]
        == s.log + [CacheCleared(s.server.epoch), LocksCleared(s.server.epoch)];
  }

  /** A result built for the current provider is stored. */
  lemma Stores(s: State<int>, r: ReqId) returns (t: State<int>)
    requires Reachable(s) && s.server.providers == map["a" := 1] && s.server.epoch == 1
    requires r in s.requests && s.requests[r].phase.Serialized? && s.requests[r].id == "a"
    requires s.requests[r].provider == 1 && s.requests[r].epoch == 1
    ensures Reachable(t) && t.log == s.log + [Stored(1, "a", s.clock, s.requests[r].fetched)] && t.ttl == s.ttl
            && t.clock == s.clock
    ensures t.server.providers == s.server.providers && t.server.epoch == s.server.epoch
    ensures forall q | q in s.requests && q != r :: q in t.requests && t.requests[q] == s.requests[q]
  {
    t := Advance(s, Store(r));
  }

  lemma FirstBuilt() returns (s: State<int>)
    ensures Reachable(s)
    ensures s == During(Published(map["a" := Bound(0, 0)], 1), map[0 := 0],
            map[0 := Asking(0, 1, Serialized(0, BUILT))],
                        [Invalidated(1, "a"), Fetched(1, "a", 0)])
  {
    s := Opening();
    s := Asks(s, 0, 0);
    s := Locks(s, 0, 0, 0);
    s := Calling(s, 0, 0, 0, 1);
    assert s.held == map[0 := 0] && s.requests == map[0 := Asking(0, 1, Serialized(0, BUILT))];
    assert s.log == [Invalidated(1, "a"), Fetched(1, "a", 0)];
  }

  lemma Restarted() returns (s: State<int>)
    ensures Reachable(s)
    ensures s == During(Published(map[], 1), map[0 := 0], map[0 := Asking(0, 1, Serialized(0, BUILT))],
                        [Invalidated(1, "a"), Fetched(1, "a", 0), CacheCleared(1), LocksCleared(1)])
  {
    s := FirstBuilt();
    s := Restart(s);
    assert s.log == [Invalidated(1, "a"), Fetched(1, "a", 0), CacheCleared(1), LocksCleared(1)];
  }

  lemma BothBuilt() returns (s: State<int>)
    ensures Reachable(s) && s.server.providers == map["a" := 1] && s.server.epoch == 1 && s.ttl == TTL
    ensures s.requests == map[0 := Asking(0, 1, Serialized(0, BUILT)), 1 := Asking(1, 4, Serialized(1, BUILT))]
    ensures s.log == [Invalidated(1, "a"), Fetched(1, "a", 0), CacheCleared(1), LocksCleared(1), Fetched(1, "a", 1)]
  {
    s := Restarted();
    s := Asks(s, 1, 1);
    s := Locks(s, 1, 1, 1);
    s := Calling(s, 1, 1, 1, 4);
    assert s.requests == map[0 := Asking(0, 1, Serialized(0, BUILT)), 1 := Asking(1, 4, Serialized(1, BUILT))];
  }

  /** Even with no restart between the two stores, builds of one epoch can be stored together:
      it is enough that a server restart, with its new event loop, parted the lock fetches of
      the two requests. */
  lemma RestartBreaksSpacing() returns (s: State<int>)
    ensures Reachable(s) && s.ttl > 0
    ensures s.log == [Invalidated(1, "a"), Fetched(1, "a", 0), CacheCleared(1), LocksCleared(1), Fetched(1, "a", 1),
                      Stored(1, "a", s.clock, 1), Stored(1, "a", s.clock, 4)]
  {
    s := BothBuilt();
    s := Stores(s, 0);
    s := Stores(s, 1);
  }
}
