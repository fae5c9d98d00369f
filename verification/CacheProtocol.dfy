/** Every interleaving of snapshot requests with the threads that register, remove and
    produce measurements.

    A request runs `_process_request` and `_cached_snapshot` in the pieces between which
    other code may run: admission, fetching the lock, taking it, looking at the cache,
    deciding, building on a worker thread, and storing.  `past` and `log` are history: no
    step depends on them. */
module CacheProtocol {
  import opened Wrappers
  import opened SnapshotCache

  type ReqId = nat

  datatype Reply<D> =
    | Hit(built: Built<D>, created: int, checked: int)
    | Fresh(built: Built<D>)
    | Failed

  datatype Phase<D> =
    | Admitted
    | Waiting(lock: nat)
    | Holding(lock: nat)
    | Looked(lock: nat, seen: Option<Entry<D>>)
    | Building(lock: nat)
    | Serialized(lock: nat, built: Built<D>)
    | Done(reply: Reply<D>)
    | Abandoned   // cancelled; a build it started still runs on its worker thread

  datatype Request<D> = Request(
    id: Id, loop: nat, provider: Provider, epoch: nat,
    fetched: nat,   // history: position in the log of its lock fetch
    phase: Phase<D>)

  datatype Event =
    | Invalidated(epoch: nat, id: Id)   // `epoch` is the one it opens
    | CacheCleared(epoch: nat)
    | LocksCleared(epoch: nat)
    | Fetched(epoch: nat, id: Id, loop: nat)
    | Stored(epoch: nat, id: Id, time: int, fetched: nat)   // `fetched` is that of the request that stores

  datatype State<D> = State(
    server: Server<D>,
    ttl: int,
    clock: int,
    held: map<nat, ReqId>,
    requests: map<ReqId, Request<D>>,
    runs: map<Provider, seq<D>>,      // the states a provider's measurement has been in
    past: seq<map<Id, Provider>>,     // history: the provider map of every epoch
    log: seq<Event>)

  datatype Step<D> =
    | Register(id: Id, provider: Provider)
    | Unregister(id: Id)
    | ClearCache
    | ClearLocks
    | Tick(elapsed: nat)
    | Produce(provider: Provider, dataset: D)
    | Admit(r: ReqId, id: Id, loop: nat)
    | Fetch(r: ReqId)
    | Acquire(r: ReqId)
    | Look(r: ReqId)
    | Decide(r: ReqId)
    | CallProvider(r: ReqId)
    | FailBuild(r: ReqId)
    | Store(r: ReqId)
    | Cancel(r: ReqId)

  ghost predicate Initial<D>(s: State<D>) {
    && s.server == Empty()
    && s.held == map[] && s.requests == map[] && s.runs == map[]
    && s.past == [map[]] && s.log == []
  }

  /** Whether a phase lies inside `async with`. */
  predicate Inside<D>(phase: Phase<D>) {
    phase.Holding? || phase.Looked? || phase.Building? || phase.Serialized?
  }

  predicate HasLock<D>(phase: Phase<D>) {
    phase.Waiting? || Inside(phase)
  }

  predicate InFlight<D>(phase: Phase<D>) {
    phase.Building? || phase.Serialized?
  }

  predicate Enabled<D>(s: State<D>, step: Step<D>) {
    match step
    case Register(_, _) => true
    case Unregister(_) => true
    case ClearCache => true
    case ClearLocks => true
    case Tick(_) => true
    case Produce(_, _) => true
    case Admit(r, id, _) => r !in s.requests && ProviderState(s.server, id).Some?
    case Fetch(r) => r in s.requests && s.requests[r].phase.Admitted?
    case Acquire(r) => r in s.requests && s.requests[r].phase.Waiting? && s.requests[r].phase.lock !in s.held
    case Look(r) => r in s.requests && s.requests[r].phase.Holding?
    case Decide(r) => r in s.requests && s.requests[r].phase.Looked?
    case CallProvider(r) =>
      r in s.requests && s.requests[r].phase.Building?
      && s.requests[r].provider in s.runs && s.runs[s.requests[r].provider] != []
    case FailBuild(r) => r in s.requests && InFlight(s.requests[r].phase)
    case Store(r) => r in s.requests && s.requests[r].phase.Serialized?
    case Cancel(r) => r in s.requests && !s.requests[r].phase.Done?
  }

  function Moved<D>(s: State<D>, r: ReqId, phase: Phase<D>): State<D>
    requires r in s.requests
  {
    s.(requests := s.requests[r := s.requests[r].(phase := phase)])
  }

  /** Leave `async with` if inside it. */
  function Left<D>(s: State<D>, r: ReqId, phase: Phase<D>): State<D>
    requires r in s.requests
  {
    var req := s.requests[r];
    Moved(if Inside(req.phase) then s.(held := s.held - {req.phase.lock}) else s, r, phase)
  }

  function Invalidating<D>(s: State<D>, id: Id, server: Server<D>): State<D> {
    s.(server := server, past := s.past + [server.providers], log := s.log + [Invalidated(server.epoch, id)])
  }

  function Fetching<D>(s: State<D>, r: ReqId): State<D>
    requires r in s.requests
  {
    var req := s.requests[r];
    var server := FetchLock(s.server, req.id, req.loop);
    s.(server := server,
       log := s.log + [Fetched(server.epoch, req.id, req.loop)],
       requests := s.requests[r := req.(fetched := |s.log|, phase := Waiting(server.locks[req.id].lock))])
  }

  function Storing<D>(s: State<D>, r: ReqId): State<D>
    requires r in s.requests && s.requests[r].phase.Serialized?
  {
    var req := s.requests[r];
    var built := req.phase.built;
    var s' := s.(server := StoreIfCurrent(s.server, req.id, req.provider, req.epoch, built, s.clock),
                 log := if MayStore(s.server, req.id, req.provider, req.epoch)
                        then s.log + [Stored(req.epoch, req.id, s.clock, req.fetched)] else s.log);
    Left(s', r, Done(Fresh(built)))
  }

  function Deciding<D>(s: State<D>, r: ReqId): State<D>
    requires r in s.requests && s.requests[r].phase.Looked?
  {
    var req := s.requests[r];
    var seen := req.phase.seen;
    if Usable(seen, req.epoch, s.clock, s.ttl)
    then Left(s, r, Done(Hit(seen.value.built, seen.value.created, s.clock)))
    else Moved(s, r, Building(req.phase.lock))
  }

  function Next<D>(s: State<D>, step: Step<D>): State<D>
    requires Enabled(s, step)
  {
    match step
    case Register(id, p) => Invalidating(s, id, SnapshotCache.Register(s.server, id, p))
    case Unregister(id) => Invalidating(s, id, SnapshotCache.Unregister(s.server, id))
    case ClearCache =>
      s.(server := s.server.(cache := map[]), log := s.log + [CacheCleared(s.server.epoch)])
    case ClearLocks =>
      s.(server := s.server.(locks := map[]), log := s.log + [LocksCleared(s.server.epoch)])
    case Tick(elapsed) => s.(clock := s.clock + elapsed)
    case Produce(p, d) => s.(runs := s.runs[p := (if p in s.runs then s.runs[p] else []) + [d]])
    case Admit(r, id, loop) =>
      var (p, epoch) := ProviderState(s.server, id).value;
      s.(requests := s.requests[r := Request(id, loop, p, epoch, |s.log|, Admitted)])
    case Fetch(r) => Fetching(s, r)
    case Acquire(r) =>
      var lock := s.requests[r].phase.lock;
      Moved(s.(held := s.held[lock := r]), r, Holding(lock))
    case Look(r) => Moved(s, r, Looked(s.requests[r].phase.lock, Lookup(s.server, s.requests[r].id)))
    case Decide(r) => Deciding(s, r)
    case CallProvider(r) =>
      var p := s.requests[r].provider;
      Moved(s, r, Serialized(s.requests[r].phase.lock, Built(p, s.runs[p][|s.runs[p]| - 1])))
    case FailBuild(r) => Left(s, r, Done(Failed))
    case Store(r) => Storing(s, r)
    case Cancel(r) => Left(s, r, Abandoned)
  }

  /** The request a step belongs to, if any. */
  function Actor<D>(step: Step<D>): Option<ReqId> {
    match step
    case Admit(r, _, _) => Some(r)
    case Fetch(r) => Some(r)
    case Acquire(r) => Some(r)
    case Look(r) => Some(r)
    case Decide(r) => Some(r)
    case CallProvider(r) => Some(r)
    case FailBuild(r) => Some(r)
    case Store(r) => Some(r)
    case Cancel(r) => Some(r)
    case _ => None
  }

  /** A step touches no request but its own. */
  lemma OthersUntouched<D>(s: State<D>, step: Step<D>, r: ReqId)
    requires Enabled(s, step) && Actor(step) != Some(r)
    ensures r in Next(s, step).requests <==> r in s.requests
    ensures r in s.requests ==> Next(s, step).requests[r] == s.requests[r]
  {
  }

  /** What a step can change about its own request. */
  lemma OwnRequest<D>(s: State<D>, step: Step<D>, r: ReqId)
    requires Enabled(s, step) && Actor(step) == Some(r) && !step.Admit?
    ensures r in s.requests && r in Next(s, step).requests
    ensures var a, b := s.requests[r], Next(s, step).requests[r];
            && a.id == b.id && a.loop == b.loop && a.provider == b.provider && a.epoch == b.epoch
            && (step.Fetch? || a.fetched == b.fetched)
            && (HasLock(b.phase) && !step.Fetch? ==> HasLock(a.phase) && a.phase.lock == b.phase.lock)
  {
  }

  /** A run: each state follows from the one before by the step between them. */
  ghost predicate IsRun<D>(states: seq<State<D>>, steps: seq<Step<D>>) {
    && |states| == |steps| + 1
    && Initial(states[0])
    && forall i | 0 <= i < |steps| :: Enabled(states[i], steps[i]) && states[i + 1] == Next(states[i], steps[i])
  }
}
