/** The shared state of the live server: registered providers, the provider epoch, the
    snapshot cache and the per-measurement build locks.

    `Server` is that state as a value, with one function for each piece of code that runs
    without interruption.  `LiveServer` is the object that updates it in place; each of its
    methods is proved against the function of the same name. */
module SnapshotCache {
  import opened Wrappers

  type Id = string

  /** What `str.strip` takes off. */
  predicate IsSpace(c: char) {
    var n := c as int;
    9 <= n <= 13 || 28 <= n <= 32 || n == 0x85 || n == 0xA0 || n == 0x1680 || 0x2000 <= n <= 0x200A
    || n == 0x2028 || n == 0x2029 || n == 0x202F || n == 0x205F || n == 0x3000
  }

  /** An empty identifier, or one of nothing but white space. */
  predicate Blank(id: Id) {
    forall i | 0 <= i < |id| :: IsSpace(id[i])
  }

  /** Identity of a registered provider entry: what `is` compares. */
  type Provider = nat

  /** What one build yields: the dataset its provider returned, and whose it is.  The payload,
      the framed message and the metadata are all computed from these two. */
  datatype Built<D> = Built(provider: Provider, dataset: D)

  datatype Entry<D> = Entry(built: Built<D>, created: int, epoch: nat)

  /** A lock, stored with the event loop it belongs to. */
  datatype Bound = Bound(loop: nat, lock: nat)

  datatype Server<D> = Server(
    providers: map<Id, Provider>,
    epoch: nat,
    cache: map<Id, Entry<D>>,
    locks: map<Id, Bound>,
    nextLock: nat)

  function Empty<D>(): Server<D> {
    Server(map[], 0, map[], map[], 0)
  }

  function Invalidate<D>(s: Server<D>, id: Id): Server<D> {
    s.(epoch := s.epoch + 1, cache := s.cache - {id}, locks := s.locks - {id})
  }

  function Register<D>(s: Server<D>, id: Id, p: Provider): Server<D> {
    Invalidate(s.(providers := s.providers[id := p]), id)
  }

  function Unregister<D>(s: Server<D>, id: Id): Server<D> {
    Invalidate(s.(providers := s.providers - {id}), id)
  }

  /** The provider a request is admitted with, and the epoch it was found in. */
  function ProviderState<D>(s: Server<D>, id: Id): Option<(Provider, nat)> {
    if id in s.providers then Some((s.providers[id], s.epoch)) else None
  }

  /** The bound lock for `id` on `loop`, replaced when it is missing or another loop's. */
  function FetchLock<D>(s: Server<D>, id: Id, loop: nat): Server<D> {
    if id in s.locks && s.locks[id].loop == loop then s
    else s.(locks := s.locks[id := Bound(loop, s.nextLock)], nextLock := s.nextLock + 1)
  }

  /** Whether a request admitted in `epoch` may be answered from `seen` at time `now`. */
  predicate Usable<D>(seen: Option<Entry<D>>, epoch: nat, now: int, ttl: int) {
    seen.Some? && seen.value.epoch == epoch && now - seen.value.created < ttl
  }

  predicate MayStore<D>(s: Server<D>, id: Id, p: Provider, epoch: nat) {
    s.epoch == epoch && id in s.providers && s.providers[id] == p
  }

  function StoreIfCurrent<D>(s: Server<D>, id: Id, p: Provider, epoch: nat, built: Built<D>, now: int): Server<D> {
    if MayStore(s, id, p, epoch) then s.(cache := s.cache[id := Entry(built, now, epoch)]) else s
  }

  function Lookup<D>(s: Server<D>, id: Id): Option<Entry<D>> {
    if id in s.cache then Some(s.cache[id]) else None
  }

  class LiveServer<D> {
    var providers: map<Id, Provider>
    var epoch: nat
    var cache: map<Id, Entry<D>>
    var locks: map<Id, Bound>
    var nextLock: nat

    ghost function State(): Server<D>
      reads this
    {
      Server(providers, epoch, cache, locks, nextLock)
    }

    constructor ()
      ensures State() == Empty()
    {
      providers, epoch, cache, locks, nextLock := map[], 0, map[], map[], 0;
    }

    method InvalidateSnapshot(id: Id)
      modifies this
      ensures State() == Invalidate(old(State()), id)
      ensures epoch == old(epoch) + 1 && providers == old(providers) && nextLock == old(nextLock)
      ensures cache == old(cache) - {id} && locks == old(locks) - {id}
    {
      epoch := epoch + 1;
      cache := cache - {id};
      locks := locks - {id};
    }

    method RegisterSnapshotProvider(id: Id, p: Provider) returns (accepted: bool)
      modifies this
      ensures accepted <==> !Blank(id)
      ensures State() == if accepted then Register(old(State()), id, p) else old(State())
      ensures accepted ==>
                && providers == old(providers)[id := p] && epoch == old(epoch) + 1
                && cache == old(cache) - {id} && locks == old(locks) - {id}
    {
      accepted := !Blank(id);
      if accepted {
        providers := providers[id := p];
        InvalidateSnapshot(id);
      }
    }

    method UnregisterSnapshotProvider(id: Id)
      modifies this
      ensures State() == Unregister(old(State()), id)
      ensures providers == old(providers) - {id} && epoch == old(epoch) + 1
      ensures cache == old(cache) - {id} && locks == old(locks) - {id}
    {
      providers := providers - {id};
      InvalidateSnapshot(id);
    }

    /** The bound lock a request goes on to await. */
    method BindLock(id: Id, loop: nat) returns (bound: Bound)
      modifies this`locks, this`nextLock
      ensures State() == FetchLock(old(State()), id, loop)
      ensures id in locks && bound == locks[id] && bound.loop == loop && locks == old(locks)[id := bound]
      ensures if id in old(locks) && old(locks)[id].loop == loop
              then bound == old(locks)[id] && nextLock == old(nextLock)
              else bound.lock == old(nextLock) && nextLock == old(nextLock) + 1
    {
      if id in locks && locks[id].loop == loop {
        bound := locks[id];
      } else {
        bound := Bound(loop, nextLock);
        nextLock := nextLock + 1;
        locks := locks[id := bound];
      }
    }

    method StoreSnapshot(id: Id, p: Provider, admitted: nat, built: Built<D>, now: int)
      modifies this`cache
      ensures State() == StoreIfCurrent(old(State()), id, p, admitted, built, now)
      ensures cache == if epoch == admitted && id in providers && providers[id] == p
                       then old(cache)[id := Entry(built, now, admitted)] else old(cache)
    {
      if epoch == admitted && id in providers && providers[id] == p {
        cache := cache[id := Entry(built, now, admitted)];
      }
    }

    method ClearSnapshotCache()
      modifies this`cache, this`locks
      ensures State() == old(State()).(cache := map[], locks := map[])
      ensures cache == map[] && locks == map[]
    {
      cache := map[];
      locks := map[];
    }
  }
}
