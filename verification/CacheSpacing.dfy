/** Stored builds of one measurement within one epoch are at least the TTL apart, unless a
    restart or another event loop parted them. */
module CacheSpacing {
  import opened Wrappers
  import opened SnapshotCache
  import opened CacheProtocol
  import Locks = CacheLocks

  ghost predicate IsStore(event: Event, id: Id, epoch: nat) {
    event.Stored? && event.id == id && event.epoch == epoch
  }

  /** Every store follows the lock fetch of its request, in the epoch of that fetch. */
  ghost predicate StoreOk(log: seq<Event>, i: nat)
    requires i < |log| && log[i].Stored?
  {
    var f := log[i].fetched;
    f < i && log[f].Fetched? && log[f].id == log[i].id && log[f].epoch == log[i].epoch
  }

  ghost predicate StoresOk(log: seq<Event>) {
    forall i | 0 <= i < |log| && log[i].Stored? :: StoreOk(log, i)
  }

  ghost predicate CacheStood(log: seq<Event>, lo: nat, hi: nat)
    requires hi <= |log|
  {
    forall k | lo < k < hi :: !log[k].CacheCleared?
  }

  /** The request of store `i` and one that fetched the lock of `id` on `loop` at `f` found the same lock,
      and the cache was not cleared since the store, up to `hi`. */
  ghost predicate Linked(log: seq<Event>, i: nat, id: Id, loop: nat, f: nat, hi: nat)
    requires i < |log| && log[i].Stored? && StoreOk(log, i) && f < |log| && hi <= |log|
  {
    var a := log[i].fetched;
    && log[a].loop == loop
    && Locks.Undropped(log, id, loop, a, f) && Locks.Undropped(log, id, loop, f, a)
    && CacheStood(log, i, hi)
  }

  /** While the cache is not cleared, what was stored stays until something newer replaces it. */
  ghost predicate StoresKept<D>(s: State<D>) {
    forall i, id | 0 <= i < |s.log| && IsStore(s.log[i], id, s.server.epoch) && CacheStood(s.log, i, |s.log|) ::
      InCache(s, id, s.log[i].time)
  }

  ghost predicate InCache<D>(s: State<D>, id: Id, stored: int) {
    && id in s.server.cache
    && s.server.cache[id].epoch == s.server.epoch
    && stored <= s.server.cache[id].created <= s.clock
  }

  /** A request still able to store knows of every store it is linked to: what it read was as
      new, and once it decided to build all of them were a TTL old. */
  ghost predicate Informed<D>(s: State<D>, req: Request<D>)
    requires StoresOk(s.log)
  {
    (req.phase.Looked? || InFlight(req.phase)) && req.epoch == s.server.epoch && req.fetched < |s.log|
    ==>
      forall i | 0 <= i < |s.log| && IsStore(s.log[i], req.id, req.epoch)
                 && Linked(s.log, i, req.id, req.loop, req.fetched, |s.log|) ::
        Knows(s, req, s.log[i].time)
  }

  ghost predicate Knows<D>(s: State<D>, req: Request<D>, stored: int)
    requires req.phase.Looked? || InFlight(req.phase)
  {
    if req.phase.Looked?
    then req.phase.seen.Some? && req.phase.seen.value.epoch == req.epoch && stored <= req.phase.seen.value.created
    else stored + s.ttl <= s.clock
  }

  ghost predicate AllInformed<D>(s: State<D>)
    requires StoresOk(s.log)
  {
    forall r | r in s.requests :: Informed(s, s.requests[r])
  }

  /** Two stores of one measurement and epoch whose requests found the same lock, with the cache
      left standing in between. */
  ghost predicate LinkedStores(log: seq<Event>, i: nat, j: nat)
    requires StoresOk(log)
  {
    && i < j < |log| && log[i].Stored? && IsStore(log[j], log[i].id, log[i].epoch)
    && StoreOk(log, i) && StoreOk(log, j)
    && Linked(log, i, log[j].id, log[log[j].fetched].loop, log[j].fetched, j)
  }

  ghost predicate Spaced<D>(s: State<D>)
    requires StoresOk(s.log)
  {
    forall i, j | 0 <= i < j < |s.log| && LinkedStores(s.log, i, j) :: s.log[i].time + s.ttl <= s.log[j].time
  }

  ghost predicate Inv<D>(s: State<D>) {
    Locks.Inv(s) && StoresOk(s.log) && StoresKept(s) && AllInformed(s) && Spaced(s)
  }

  lemma ClockKept<D>(s: State<D>, step: Step<D>)
    requires Enabled(s, step)
    ensures s.clock <= Next(s, step).clock && s.ttl == Next(s, step).ttl
    ensures s.server.epoch <= Next(s, step).server.epoch
  {
  }

  /** Only a request's last piece writes a store to the log. */
  lemma NewStoreStep<D>(s: State<D>, step: Step<D>)
    requires Enabled(s, step) && |Next(s, step).log| > |s.log| && Next(s, step).log[|s.log|].Stored?
    ensures step.Store? && s.requests[step.r].phase.Serialized? && s.requests[step.r].epoch == s.server.epoch
    ensures Next(s, step).log[|s.log|]
         == Stored(s.server.epoch, s.requests[step.r].id, s.clock, s.requests[step.r].fetched)
    ensures step.r in Next(s, step).requests && Next(s, step).requests[step.r].phase.Done?
    ensures InCache(Next(s, step), s.requests[step.r].id, s.clock)
  {
  }

  lemma FetchInEpoch<D>(s: State<D>, r: ReqId)
    requires Locks.Inv(s) && r in s.requests && HasLock(s.requests[r].phase) && s.requests[r].epoch == s.server.epoch
    ensures var req := s.requests[r];
            req.fetched < |s.log| && s.log[req.fetched] == Fetched(req.epoch, req.id, req.loop)
  {
    assert Locks.FetchOk(s, s.requests[r]);
  }

  lemma StoresOkKept<D>(s: State<D>, step: Step<D>)
    requires Enabled(s, step) && Locks.Inv(s) && StoresOk(s.log)
    ensures StoresOk(Next(s, step).log)
  {
    var t := Next(s, step);
    Locks.LogGrows(s, step);
    forall i | 0 <= i < |t.log| && t.log[i].Stored? ensures StoreOk(t.log, i) {
      if i < |s.log| {
        assert StoreOk(s.log, i);
      } else {
        NewStoreStep(s, step);
        FetchInEpoch(s, step.r);
      }
    }
  }

  /** An entry of the current epoch stays as new as it was, unless the cache is cleared. */
  lemma CacheKept<D>(s: State<D>, step: Step<D>, id: Id, stored: int)
    requires Enabled(s, step) && InCache(s, id, stored) && Next(s, step).server.epoch == s.server.epoch
    requires |Next(s, step).log| > |s.log| ==> !Next(s, step).log[|s.log|].CacheCleared?
    ensures InCache(Next(s, step), id, stored)
  {
  }

  lemma StoresStay<D>(s: State<D>, step: Step<D>)
    requires Enabled(s, step) && Inv(s)
    ensures StoresKept(Next(s, step))
  {
    var t := Next(s, step);
    Locks.LogGrows(s, step);
    ClockKept(s, step);
    forall i, id | 0 <= i < |t.log| && IsStore(t.log[i], id, t.server.epoch) && CacheStood(t.log, i, |t.log|)
      ensures InCache(t, id, t.log[i].time)
    {
      if i < |s.log| {
        assert s.log[i] == t.log[i] && t.server.epoch == s.server.epoch;
        assert CacheStood(s.log, i, |s.log|);
        CacheKept(s, step, id, s.log[i].time);
      } else {
        NewStoreStep(s, step);
      }
    }
  }

  lemma LinkedBefore(log: seq<Event>, log': seq<Event>, i: nat, id: Id, loop: nat, f: nat, hi: nat, hi': nat)
    requires log <= log' && i < |log| && log[i].Stored? && StoreOk(log, i) && f < |log| && hi <= |log|
             && hi <= hi' <= |log'|
    requires Linked(log', i, id, loop, f, hi')
    ensures Linked(log, i, id, loop, f, hi)
  {
    Locks.UndroppedBefore(log, log', id, loop, log[i].fetched, f);
    Locks.UndroppedBefore(log, log', id, loop, f, log[i].fetched);
    assert forall k | i < k < hi :: log[k] == log'[k];
  }

  /** Requests of one measurement that found the same lock cannot both be inside it. */
  lemma OneInside<D>(s: State<D>, q: ReqId, r: ReqId)
    requires Locks.Inv(s) && q in s.requests && r in s.requests
    requires Inside(s.requests[q].phase) && Inside(s.requests[r].phase)
    requires s.requests[q].id == s.requests[r].id && s.requests[q].loop == s.requests[r].loop
    requires s.requests[q].fetched < |s.log| && s.requests[r].fetched < |s.log|
    requires var a, b := s.requests[q], s.requests[r];
             Locks.Undropped(s.log, a.id, a.loop, a.fetched, b.fetched)
                 && Locks.Undropped(s.log, a.id, a.loop, b.fetched, a.fetched)
    ensures q == r
  {
    assert Locks.Shared(s, s.requests[q], s.requests[r]) && Locks.Shared(s, s.requests[r], s.requests[q]);
  }

  /** No request is linked to a new store while it may still store itself. */
  lemma NewStoreUnlinked<D>(s: State<D>, step: Step<D>, r: ReqId)
    requires Enabled(s, step) && Inv(s) && r in s.requests && Inside(s.requests[r].phase)
    requires s.requests[r].epoch == s.server.epoch && step != Store(r)
    requires var t := Next(s, step); |t.log| > |s.log| && IsStore(t.log[|s.log|], s.requests[r].id, s.requests[r].epoch)
    ensures s.requests[r].fetched < |s.log|
    ensures var t, req := Next(s, step), s.requests[r];
            StoreOk(t.log, |s.log|) && !Linked(t.log, |s.log|, req.id, req.loop, req.fetched, |t.log|)
  {
    var t, req := Next(s, step), s.requests[r];
    NewStoreStep(s, step);
    Locks.LogGrows(s, step);
    StoresOkKept(s, step);
    FetchInEpoch(s, r);
    FetchInEpoch(s, step.r);
    var f := s.requests[step.r].fetched;
    if Linked(t.log, |s.log|, req.id, req.loop, req.fetched, |t.log|) {
      Locks.UndroppedBefore(s.log, t.log, req.id, req.loop, f, req.fetched);
      Locks.UndroppedBefore(s.log, t.log, req.id, req.loop, req.fetched, f);
      OneInside(s, step.r, r);
    }
  }

  lemma InformedKept<D>(s: State<D>, step: Step<D>, r: ReqId)
    requires Enabled(s, step) && Inv(s) && StoresOk(Next(s, step).log) && r in Next(s, step).requests
    ensures Informed(Next(s, step), Next(s, step).requests[r])
  {
    var t := Next(s, step);
    var req := t.requests[r];
    if (req.phase.Looked? || InFlight(req.phase)) && req.epoch == t.server.epoch && req.fetched < |t.log| {
      assert step != Fetch(r) && step != Store(r);
      Locks.RequestKeepsLock(s, step, r);
      StillInside(s, step, r);
      forall i | 0 <= i < |t.log| && IsStore(t.log[i], req.id, req.epoch)
                 && Linked(t.log, i, req.id, req.loop, req.fetched, |t.log|)
        ensures Knows(t, req, t.log[i].time)
      {
        StoreKnown(s, step, r, i);
      }
    }
  }

  lemma StillInside<D>(s: State<D>, step: Step<D>, r: ReqId)
    requires Enabled(s, step) && Locks.EpochsOk(s) && r in s.requests && r in Next(s, step).requests && step != Fetch(r)
    requires Next(s, step).requests[r].phase.Looked? || InFlight(Next(s, step).requests[r].phase)
    requires Next(s, step).requests[r].epoch == Next(s, step).server.epoch
    ensures Inside(s.requests[r].phase) && s.requests[r].epoch == s.server.epoch == Next(s, step).server.epoch
  {
    ClockKept(s, step);
    if Actor(step) != Some(r) {
      OthersUntouched(s, step, r);
    } else {
      OwnRequest(s, step, r);
    }
  }

  lemma StoreKnown<D>(s: State<D>, step: Step<D>, r: ReqId, i: nat)
    requires Enabled(s, step) && Inv(s) && StoresOk(Next(s, step).log) && r in s.requests && r in Next(s, step).requests
    requires step != Fetch(r) && step != Store(r)
    requires var req := Next(s, step).requests[r];
             && (req.phase.Looked? || InFlight(req.phase)) && req.fetched < |Next(s, step).log|
             && Locks.SameFetch(s.requests[r], req)
    requires Inside(s.requests[r].phase) && s.requests[r].epoch == s.server.epoch == Next(s, step).server.epoch
    requires var t, req := Next(s, step), Next(s, step).requests[r];
             i < |t.log| && IsStore(t.log[i], req.id, req.epoch)
                 && Linked(t.log, i, req.id, req.loop, req.fetched, |t.log|)
    ensures Knows(Next(s, step), Next(s, step).requests[r], Next(s, step).log[i].time)
  {
    Locks.LogGrows(s, step);
    FetchInEpoch(s, r);
    if i < |s.log| {
      assert StoreOk(s.log, i);
      LinkedBefore(s.log, Next(s, step).log, i, s.requests[r].id, s.requests[r].loop, s.requests[r].fetched,
                   |s.log|, |Next(s, step).log|);
      OldStoreKnown(s, step, r, i);
    } else {
      NewStoreUnlinked(s, step, r);
    }
  }

  /** A step leaves a request informed of the stores that were already in the log. */
  lemma OldStoreKnown<D>(s: State<D>, step: Step<D>, r: ReqId, i: nat)
    requires Enabled(s, step) && Inv(s) && r in s.requests && i < |s.log| && r in Next(s, step).requests
    requires Next(s, step).requests[r].phase.Looked? || InFlight(Next(s, step).requests[r].phase)
    requires s.requests[r].epoch == s.server.epoch && s.requests[r].fetched < |s.log|
    requires IsStore(s.log[i], s.requests[r].id, s.requests[r].epoch)
    requires Linked(s.log, i, s.requests[r].id, s.requests[r].loop, s.requests[r].fetched, |s.log|)
    ensures Knows(Next(s, step), Next(s, step).requests[r], s.log[i].time)
  {
    ClockKept(s, step);
    assert Informed(s, s.requests[r]);
    assert InCache(s, s.requests[r].id, s.log[i].time);
    if Actor(step) != Some(r) {
      OthersUntouched(s, step, r);
    } else {
      OwnStoreKnown(s, step, r, s.log[i].time);
    }
  }

  lemma OwnStoreKnown<D>(s: State<D>, step: Step<D>, r: ReqId, stored: int)
    requires Enabled(s, step) && Actor(step) == Some(r) && r in s.requests
    requires s.requests[r].epoch == s.server.epoch && InCache(s, s.requests[r].id, stored)
    requires Next(s, step).requests[r].phase.Looked? || InFlight(Next(s, step).requests[r].phase)
    requires s.requests[r].phase.Looked? || InFlight(s.requests[r].phase) ==> Knows(s, s.requests[r], stored)
    ensures Knows(Next(s, step), Next(s, step).requests[r], stored)
  {
    assert step.Look? || step.Decide? || step.CallProvider?;
  }

  lemma LinkedStoresBefore(log: seq<Event>, log': seq<Event>, i: nat, j: nat)
    requires log <= log' && StoresOk(log) && StoresOk(log') && j < |log| && LinkedStores(log', i, j)
    ensures LinkedStores(log, i, j)
  {
    assert log[i] == log'[i] && log[j] == log'[j];
    assert StoreOk(log, i) && StoreOk(log, j);
    var f := log[j].fetched;
    assert log[f] == log'[f];
    LinkedBefore(log, log', i, log[j].id, log[f].loop, f, j, j);
  }

  lemma SpacedKept<D>(s: State<D>, step: Step<D>)
    requires Enabled(s, step) && Inv(s) && StoresOk(Next(s, step).log)
    ensures Spaced(Next(s, step))
  {
    var t := Next(s, step);
    Locks.LogGrows(s, step);
    ClockKept(s, step);
    forall i, j | 0 <= i < j < |t.log| && LinkedStores(t.log, i, j) ensures t.log[i].time + t.ttl <= t.log[j].time {
      if j < |s.log| {
        LinkedStoresBefore(s.log, t.log, i, j);
      } else {
        NewStoreSpaced(s, step, i);
      }
    }
  }

  lemma NewStoreSpaced<D>(s: State<D>, step: Step<D>, i: nat)
    requires Enabled(s, step) && Inv(s) && StoresOk(Next(s, step).log)
    requires |Next(s, step).log| == |s.log| + 1 && s.log <= Next(s, step).log && i < |s.log|
    requires LinkedStores(Next(s, step).log, i, |s.log|)
    ensures s.log[i].time + s.ttl <= Next(s, step).log[|s.log|].time
  {
    var t := Next(s, step);
    NewStoreStep(s, step);
    FetchInEpoch(s, step.r);
    var req := s.requests[step.r];
    assert s.log[i] == t.log[i] && StoreOk(s.log, i);
    LinkedBefore(s.log, t.log, i, req.id, req.loop, req.fetched, |s.log|, |s.log|);
    assert Informed(s, req);
    assert Knows(s, req, s.log[i].time);
  }

  lemma InvKept<D>(s: State<D>, step: Step<D>)
    requires Enabled(s, step) && Inv(s)
    ensures Inv(Next(s, step))
  {
    Locks.InvKept(s, step);
    StoresOkKept(s, step);
    StoresStay(s, step);
    forall r | r in Next(s, step).requests ensures Informed(Next(s, step), Next(s, step).requests[r]) {
      InformedKept(s, step, r);
    }
    SpacedKept(s, step);
  }

  lemma {:induction false} InvAlways<D>(states: seq<State<D>>, steps: seq<Step<D>>, n: nat)
    requires IsRun(states, steps) && n < |states|
    ensures Inv(states[n])
  {
    if n > 0 {
      InvAlways(states, steps, n - 1);
      InvKept(states[n - 1], steps[n - 1]);
    }
  }

  /** In `epoch` no restart came after the first lock fetch for `id`, and only `loop` fetched it. */
  ghost predicate Quiet(log: seq<Event>, id: Id, epoch: nat, loop: nat) {
    forall f | 0 <= f < |log| && log[f].Fetched? && log[f].id == id && log[f].epoch == epoch ::
      && log[f].loop == loop
      && forall k | f < k < |log| && log[k].epoch == epoch :: !log[k].CacheCleared? && !log[k].LocksCleared?
  }

  /** In a quiet epoch all stores are linked. */
  lemma QuietLinks<D>(s: State<D>, id: Id, epoch: nat, loop: nat, i: nat, j: nat)
    requires Inv(s) && Quiet(s.log, id, epoch, loop) && i < j < |s.log|
    requires IsStore(s.log[i], id, epoch) && IsStore(s.log[j], id, epoch)
    ensures LinkedStores(s.log, i, j)
  {
    assert StoreOk(s.log, i) && StoreOk(s.log, j);
    SameEpochUndropped(s, id, epoch, loop, s.log[i].fetched, s.log[j].fetched);
    SameEpochUndropped(s, id, epoch, loop, s.log[j].fetched, s.log[i].fetched);
    assert forall k | i < k < j :: s.log[i].epoch <= s.log[k].epoch <= s.log[j].epoch;
  }

  lemma SameEpochUndropped<D>(s: State<D>, id: Id, epoch: nat, loop: nat, a: nat, b: nat)
    requires Locks.LogOk(s) && a < |s.log| && b < |s.log| && Quiet(s.log, id, epoch, loop)
    requires s.log[a] == Fetched(epoch, id, loop) && s.log[b] == Fetched(epoch, id, loop)
    ensures Locks.Undropped(s.log, id, loop, a, b)
  {
    forall k | a < k < b ensures !Locks.Drops(s.log[k], id, loop) {
      assert s.log[a].epoch <= s.log[k].epoch <= s.log[b].epoch;
    }
  }
}
