/** Lock sharing: which requests are serialized with one another, in every run. */
module CacheLocks {
  import opened Wrappers
  import opened SnapshotCache
  import opened CacheProtocol

  /** An event after which requests for `id` on `loop` no longer find the lock found before. */
  ghost predicate Drops(event: Event, id: Id, loop: nat) {
    match event
    case Invalidated(_, other) => other == id
    case LocksCleared(_) => true
    case Fetched(_, other, from) => other == id && from != loop
    case _ => false
  }

  /** No lock for `id` is dropped strictly between two positions of the log. */
  ghost predicate Undropped(log: seq<Event>, id: Id, loop: nat, lo: nat, hi: nat)
    requires hi <= |log|
  {
    forall k | lo < k < hi :: !Drops(log[k], id, loop)
  }

  ghost predicate LogOk<D>(s: State<D>) {
    && (forall k | 0 <= k < |s.log| :: s.log[k].epoch <= s.server.epoch)
    && (forall j, k | 0 <= j < k < |s.log| ::
          s.log[j].epoch <= s.log[k].epoch && (s.log[k].Invalidated? ==> s.log[j].epoch < s.log[k].epoch))
  }

  /** The log has the lock fetch of a request, in its own epoch or a later one. */
  ghost predicate FetchOk<D>(s: State<D>, req: Request<D>) {
    HasLock(req.phase) ==>
      && req.fetched < |s.log|
      && s.log[req.fetched] == Fetched(s.log[req.fetched].epoch, req.id, req.loop)
      && req.epoch <= s.log[req.fetched].epoch
      && (Undropped(s.log, req.id, req.loop, req.fetched, |s.log|) ==>
            req.id in s.server.locks && s.server.locks[req.id] == Bound(req.loop, req.phase.lock))
  }

  ghost predicate Shared<D>(s: State<D>, a: Request<D>, b: Request<D>) {
    HasLock(a.phase) && HasLock(b.phase) && a.id == b.id && a.loop == b.loop && a.fetched < b.fetched < |s.log|
    && Undropped(s.log, a.id, a.loop, a.fetched, b.fetched)
    ==> a.phase.lock == b.phase.lock
  }

  ghost predicate FetchesOk<D>(s: State<D>) {
    forall r | r in s.requests :: FetchOk(s, s.requests[r])
  }

  ghost predicate AllShared<D>(s: State<D>) {
    forall q, r | q in s.requests && r in s.requests :: Shared(s, s.requests[q], s.requests[r])
  }

  ghost predicate EpochsOk<D>(s: State<D>) {
    forall r | r in s.requests :: s.requests[r].epoch <= s.server.epoch
  }

  ghost predicate FetchesDistinct<D>(s: State<D>) {
    forall q, r | q in s.requests && r in s.requests && q != r
                  && HasLock(s.requests[q].phase) && HasLock(s.requests[r].phase) ::
      s.requests[q].fetched != s.requests[r].fetched
  }

  ghost predicate Mutex<D>(s: State<D>) {
    forall r | r in s.requests && Inside(s.requests[r].phase) ::
      s.requests[r].phase.lock in s.held && s.held[s.requests[r].phase.lock] == r
  }

  ghost predicate Inv<D>(s: State<D>) {
    LogOk(s) && EpochsOk(s) && FetchesOk(s) && AllShared(s) && FetchesDistinct(s) && Mutex(s)
  }

  /** What a step appends to the log is of the epoch it leaves, and only an invalidation opens one. */
  lemma LogAppends<D>(s: State<D>, step: Step<D>)
    requires Enabled(s, step) && EpochsOk(s)
    ensures var t := Next(s, step);
            || (t.log == s.log && t.server.epoch == s.server.epoch)
            || (|t.log| == |s.log| + 1 && t.log[..|s.log|] == s.log
                && Appended(t.log[|s.log|], s.server.epoch, t.server.epoch))
  {
  }

  predicate Appended(e: Event, before: nat, after: nat) {
    e.epoch == after && if e.Invalidated? then after == before + 1 else after == before
  }

  lemma LogKept<D>(s: State<D>, step: Step<D>)
    requires Enabled(s, step) && Inv(s)
    ensures LogOk(Next(s, step))
  {
    var t := Next(s, step);
    LogAppends(s, step);
    forall j, k | 0 <= j < k < |t.log|
      ensures t.log[j].epoch <= t.log[k].epoch && (t.log[k].Invalidated? ==> t.log[j].epoch < t.log[k].epoch)
    {
      assert t.log[j] == s.log[j] && (k < |s.log| ==> t.log[k] == s.log[k]);
    }
  }

  lemma LogGrows<D>(s: State<D>, step: Step<D>)
    requires Enabled(s, step)
    ensures var t := Next(s, step); s.log <= t.log && |t.log| <= |s.log| + 1
  {
  }

  /** Only its own fetch gives a request another lock. */
  lemma RequestKeepsLock<D>(s: State<D>, step: Step<D>, r: ReqId)
    requires Enabled(s, step) && step != Fetch(r)
    requires r in Next(s, step).requests && HasLock(Next(s, step).requests[r].phase)
    ensures r in s.requests && HasLock(s.requests[r].phase)
    ensures SameFetch(s.requests[r], Next(s, step).requests[r])
  {
    if Actor(step) != Some(r) {
      OthersUntouched(s, step, r);
    } else if !step.Admit? {
      OwnRequest(s, step, r);
    }
  }

  ghost predicate SameFetch<D>(a: Request<D>, b: Request<D>) {
    && HasLock(a.phase) && HasLock(b.phase)
    && a.id == b.id && a.loop == b.loop && a.epoch == b.epoch && a.fetched == b.fetched && a.phase.lock == b.phase.lock
  }

  lemma BoundKept<D>(s: State<D>, step: Step<D>, id: Id, bound: Bound)
    requires Enabled(s, step) && id in s.server.locks && s.server.locks[id] == bound
    requires var t := Next(s, step); |t.log| == |s.log| || !Drops(t.log[|s.log|], id, bound.loop)
    ensures var t := Next(s, step); id in t.server.locks && t.server.locks[id] == bound
  {
  }

  lemma UndroppedBefore(log: seq<Event>, log': seq<Event>, id: Id, loop: nat, lo: nat, hi: nat)
    requires log <= log' && hi <= |log|
    ensures Undropped(log, id, loop, lo, hi) == Undropped(log', id, loop, lo, hi)
  {
    assert forall k | 0 <= k < |log| :: log[k] == log'[k];
  }

  lemma FetchKept<D>(s: State<D>, step: Step<D>, r: ReqId)
    requires Enabled(s, step) && Inv(s)
    requires r in Next(s, step).requests
    ensures FetchOk(Next(s, step), Next(s, step).requests[r])
  {
    var t := Next(s, step);
    var req := t.requests[r];
    if step != Fetch(r) && HasLock(req.phase) {
      LogGrows(s, step);
      RequestKeepsLock(s, step, r);
      assert FetchOk(s, s.requests[r]);
      if Undropped(t.log, req.id, req.loop, req.fetched, |t.log|) {
        UndroppedBefore(s.log, t.log, req.id, req.loop, req.fetched, |s.log|);
        assert Undropped(t.log, req.id, req.loop, req.fetched, |s.log|);
        BoundKept(s, step, req.id, Bound(req.loop, req.phase.lock));
      }
    }
  }

  lemma SharedKept<D>(s: State<D>, step: Step<D>, q: ReqId, r: ReqId)
    requires Enabled(s, step) && Inv(s)
    requires q in Next(s, step).requests && r in Next(s, step).requests
    ensures var t := Next(s, step); Shared(t, t.requests[q], t.requests[r])
  {
    var t := Next(s, step);
    var a, b := t.requests[q], t.requests[r];
    if HasLock(a.phase) && HasLock(b.phase) && a.id == b.id && a.loop == b.loop && a.fetched < b.fetched < |t.log|
       && Undropped(t.log, a.id, a.loop, a.fetched, b.fetched) {
      LogGrows(s, step);
      if step != Fetch(q) {
        RequestKeepsLock(s, step, q);
        assert FetchOk(s, s.requests[q]);
        if step == Fetch(r) {
          UndroppedBefore(s.log, t.log, a.id, a.loop, a.fetched, |s.log|);
        } else {
          RequestKeepsLock(s, step, r);
          assert FetchOk(s, s.requests[r]);
          UndroppedBefore(s.log, t.log, a.id, a.loop, a.fetched, b.fetched);
          assert Shared(s, s.requests[q], s.requests[r]);
        }
      }
    }
  }

  lemma EpochsKept<D>(s: State<D>, step: Step<D>)
    requires Enabled(s, step) && EpochsOk(s)
    ensures EpochsOk(Next(s, step))
  {
  }

  lemma MutexKept<D>(s: State<D>, step: Step<D>)
    requires Enabled(s, step) && Mutex(s)
    ensures Mutex(Next(s, step))
  {
  }

  lemma Differ<D>(s: State<D>, step: Step<D>, q: ReqId, r: ReqId)
    requires Enabled(s, step) && FetchesOk(s) && FetchesDistinct(s) && q != r && step != Fetch(q)
    requires q in Next(s, step).requests && r in Next(s, step).requests
    requires HasLock(Next(s, step).requests[q].phase) && HasLock(Next(s, step).requests[r].phase)
    ensures Next(s, step).requests[q].fetched != Next(s, step).requests[r].fetched
  {
    RequestKeepsLock(s, step, q);
    if step == Fetch(r) {
      assert FetchOk(s, s.requests[q]);
    } else {
      RequestKeepsLock(s, step, r);
    }
  }

  lemma DistinctKept<D>(s: State<D>, step: Step<D>)
    requires Enabled(s, step) && FetchesOk(s) && FetchesDistinct(s)
    ensures FetchesDistinct(Next(s, step))
  {
    var t := Next(s, step);
    forall q, r | q in t.requests && r in t.requests && q != r && HasLock(t.requests[q].phase)
        && HasLock(t.requests[r].phase)
      ensures t.requests[q].fetched != t.requests[r].fetched
    {
      if step == Fetch(q) {
        Differ(s, step, r, q);
      } else {
        Differ(s, step, q, r);
      }
    }
  }

  lemma InvKept<D>(s: State<D>, step: Step<D>)
    requires Enabled(s, step) && Inv(s)
    ensures Inv(Next(s, step))
  {
    LogKept(s, step);
    EpochsKept(s, step);
    AllFetchesKept(s, step);
    AllSharedKept(s, step);
    DistinctKept(s, step);
    MutexKept(s, step);
  }

  lemma AllFetchesKept<D>(s: State<D>, step: Step<D>)
    requires Enabled(s, step) && Inv(s)
    ensures FetchesOk(Next(s, step))
  {
    forall r | r in Next(s, step).requests ensures FetchOk(Next(s, step), Next(s, step).requests[r]) {
      FetchKept(s, step, r);
    }
  }

  lemma AllSharedKept<D>(s: State<D>, step: Step<D>)
    requires Enabled(s, step) && Inv(s)
    ensures AllShared(Next(s, step))
  {
    var t := Next(s, step);
    forall q, r | q in t.requests && r in t.requests ensures Shared(t, t.requests[q], t.requests[r]) {
      SharedKept(s, step, q, r);
    }
  }

  lemma {:induction false} InvAlways<D>(states: seq<State<D>>, steps: seq<Step<D>>, n: nat)
    requires IsRun(states, steps) && n < |states|
    ensures Inv(states[n])
  {
    if n > 0 {
      InvAlways(states, steps, n - 1);
      InvKept(states[n - 1], steps[n - 1]);
    }
  }

  /** Two builds of one measurement run together on one loop only if its lock was dropped
      between the two lock fetches. */
  lemma BuildsOverlapOnlyAcrossADrop<D>(states: seq<State<D>>, steps: seq<Step<D>>, n: nat, q: ReqId, r: ReqId)
    requires IsRun(states, steps) && n < |states|
    requires q in states[n].requests && r in states[n].requests && q != r
    requires InFlight(states[n].requests[q].phase) && InFlight(states[n].requests[r].phase)
    requires states[n].requests[q].id == states[n].requests[r].id
    requires states[n].requests[q].loop == states[n].requests[r].loop
    requires states[n].requests[q].fetched <= states[n].requests[r].fetched
    ensures exists k | states[n].requests[q].fetched < k < states[n].requests[r].fetched < |states[n].log| ::
              Drops(states[n].log[k], states[n].requests[q].id, states[n].requests[q].loop)
  {
    InvAlways(states, steps, n);
    var s := states[n];
    assert FetchOk(s, s.requests[r]);
    assert Shared(s, s.requests[q], s.requests[r]);
  }

  /** On a single event loop the drop is an invalidation of that very measurement, or a restart. */
  lemma OnOneLoopBuildsOverlapOnlyAcrossInvalidation<D>(
    states: seq<State<D>>, steps: seq<Step<D>>, n: nat, q: ReqId, r: ReqId, id: Id, loop: nat)
    requires IsRun(states, steps) && n < |states|
    requires forall e | e in states[n].log && e.Fetched? && e.id == id :: e.loop == loop
    requires q in states[n].requests && r in states[n].requests && q != r
    requires InFlight(states[n].requests[q].phase) && InFlight(states[n].requests[r].phase)
    requires states[n].requests[q].id == states[n].requests[r].id == id
    ensures exists k |
              0 <= k < |states[n].log|
              && (states[n].requests[q].fetched < k < states[n].requests[r].fetched
                  || states[n].requests[r].fetched < k < states[n].requests[q].fetched) ::
              states[n].log[k].LocksCleared? || (states[n].log[k].Invalidated? && states[n].log[k].id == id)
  {
    InvAlways(states, steps, n);
    var s := states[n];
    assert FetchOk(s, s.requests[q]) && FetchOk(s, s.requests[r]);
    assert s.log[s.requests[q].fetched] in s.log && s.log[s.requests[r].fetched] in s.log;
    var (a, b) := if s.requests[q].fetched <= s.requests[r].fetched then (q, r) else (r, q);
    BuildsOverlapOnlyAcrossADrop(states, steps, n, a, b);
    var k :| s.requests[a].fetched < k < s.requests[b].fetched < |s.log| && Drops(s.log[k], id, loop);
    assert s.log[k] in s.log;
  }

  /** Every held lock is held by a request that is inside its `async with`. */
  ghost predicate HeldOk<D>(s: State<D>) {
    forall k | k in s.held ::
      s.held[k] in s.requests && Inside(s.requests[s.held[k]].phase) && s.requests[s.held[k]].phase.lock == k
  }

  lemma HeldKept<D>(s: State<D>, step: Step<D>)
    requires Enabled(s, step) && HeldOk(s) && Mutex(s)
    ensures HeldOk(Next(s, step))
  {
  }

  /** No failure or cancellation leaks a lock. */
  lemma {:induction false} LocksAreNotLeaked<D>(states: seq<State<D>>, steps: seq<Step<D>>, n: nat)
    requires IsRun(states, steps) && n < |states|
    ensures HeldOk(states[n])
  {
    if n > 0 {
      LocksAreNotLeaked(states, steps, n - 1);
      InvAlways(states, steps, n - 1);
      HeldKept(states[n - 1], steps[n - 1]);
    }
  }
}
