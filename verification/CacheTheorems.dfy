/** What the snapshot cache guarantees over whole runs. */
module CacheTheorems {
  import opened Wrappers
  import opened SnapshotCache
  import opened CacheProtocol
  import Provenance = CacheProvenance
  import Locks = CacheLocks
  import Spacing = CacheSpacing

  ghost predicate SameAdmission<D>(a: Request<D>, b: Request<D>) {
    a.id == b.id && a.loop == b.loop && a.provider == b.provider && a.epoch == b.epoch
  }

  lemma NextKeepsAdmission<D>(s: State<D>, step: Step<D>, r: ReqId)
    requires Enabled(s, step) && r in s.requests
    ensures r in Next(s, step).requests && SameAdmission(s.requests[r], Next(s, step).requests[r])
  {
    if Actor(step) == Some(r) {
      OwnRequest(s, step, r);
    } else {
      OthersUntouched(s, step, r);
    }
  }

  /** Requests keep what they were admitted with, epochs only open, and what a measurement has
      been stays on record. */
  ghost predicate Kept<D>(s: State<D>, t: State<D>) {
    && Provenance.Grows(s, t)
    && s.server.epoch <= t.server.epoch
    && forall r | r in s.requests :: r in t.requests && SameAdmission(s.requests[r], t.requests[r])
  }

  lemma OneStep<D>(s: State<D>, step: Step<D>)
    requires Enabled(s, step)
    ensures Kept(s, Next(s, step))
  {
    Provenance.NextGrows(s, step);
    forall r | r in s.requests
        ensures r in Next(s, step).requests && SameAdmission(s.requests[r], Next(s, step).requests[r]) {
      NextKeepsAdmission(s, step, r);
    }
  }

  lemma KeptTrans<D>(a: State<D>, b: State<D>, c: State<D>)
    requires Kept(a, b) && Kept(b, c)
    ensures Kept(a, c)
  {
    Provenance.GrowsTrans(a, b, c);
  }

  ghost predicate Chain<D>(states: seq<State<D>>) {
    forall k | 0 < k < |states| :: Kept(states[k - 1], states[k])
  }

  lemma RunIsChain<D>(states: seq<State<D>>, steps: seq<Step<D>>)
    requires IsRun(states, steps)
    ensures Chain(states)
  {
    forall k | 0 < k < |states| ensures Kept(states[k - 1], states[k]) {
      OneStep(states[k - 1], steps[k - 1]);
    }
  }

  lemma {:induction false} ChainKept<D>(states: seq<State<D>>, m: nat, n: nat)
    requires Chain(states) && m <= n < |states|
    ensures Kept(states[m], states[n])
  {
    if m < n {
      ChainKept(states, m, n - 1);
      KeptTrans(states[m], states[n - 1], states[n]);
    }
  }

  /** A request keeps the identifier, provider and epoch it was admitted with, while epochs
      only open and what a measurement has been stays on record. */
  lemma AdmissionKept<D>(states: seq<State<D>>, steps: seq<Step<D>>, m: nat, n: nat)
    requires IsRun(states, steps) && m <= n < |states|
    ensures Kept(states[m], states[n])
  {
    RunIsChain(states, steps);
    ChainKept(states, m, n);
  }

  /** Hit or built, an answer comes from the provider its request found at admission and is a
      state that provider's measurement really was in; a hit was stored less than the TTL
      before the check. */
  lemma AnswersComeFromTheAdmittedProvider<D>(
    states: seq<State<D>>, steps: seq<Step<D>>, m: nat, n: nat, r: ReqId, id: Id, loop: nat)
    requires IsRun(states, steps) && m < n < |states|
    requires steps[m] == Admit(r, id, loop)
    requires r in states[n].requests && states[n].requests[r].phase.Done? && !states[n].requests[r].phase.reply.Failed?
    ensures var reply := states[n].requests[r].phase.reply;
            && id in states[m].server.providers
            && reply.built.provider == states[m].server.providers[id]
            && Provenance.Real(states[n], reply.built)
            && (reply.Hit? ==>
                  && reply.checked - states[n].ttl < reply.created <= reply.checked
                  && Provenance.WasStored(states[n].log, states[m].server.epoch, id, reply.created))
  {
    AdmissionKept(states, steps, m + 1, n);
    Provenance.InvAlways(states, steps, n);
    assert Provenance.RequestOk(states[n], states[n].requests[r]);
  }

  /** Every cached entry was built by the provider registered now under its identifier. */
  lemma CacheHoldsOnlyCurrentProviders<D>(states: seq<State<D>>, steps: seq<Step<D>>, n: nat, id: Id)
    requires IsRun(states, steps) && n < |states|
    requires id in states[n].server.cache
    ensures id in states[n].server.providers
    ensures states[n].server.cache[id].built.provider == states[n].server.providers[id]
    ensures Provenance.Real(states[n], states[n].server.cache[id].built)
  {
    Provenance.InvAlways(states, steps, n);
  }

  /** A build that finishes after any registration or removal leaves the cache alone. */
  lemma LateBuildsAreNotStored<D>(states: seq<State<D>>, steps: seq<Step<D>>, m: nat, n: nat, r: ReqId)
    requires IsRun(states, steps) && m < n < |steps|
    requires steps[m].Register? || steps[m].Unregister?
    requires r in states[m].requests && steps[n] == Store(r)
    ensures states[n + 1].server == states[n].server
  {
    Locks.InvAlways(states, steps, m);
    AdmissionKept(states, steps, m, n);
    AdmissionKept(states, steps, m + 1, n);
    assert Locks.EpochsOk(states[m]);
  }

  /** The epoch is global: whatever was cached before a registration or removal, of any
      identifier, answers no request admitted after it. */
  lemma RegistrationHidesEveryEntry<D>(
    states: seq<State<D>>, steps: seq<Step<D>>, m: nat, n: nat, r: ReqId, id: Id, loop: nat, other: Id, now: int)
    requires IsRun(states, steps) && m < n < |steps|
    requires steps[m].Register? || steps[m].Unregister?
    requires steps[n] == Admit(r, id, loop)
    requires other in states[m].server.cache
    ensures !Usable(Some(states[m].server.cache[other]), states[n + 1].requests[r].epoch, now, states[n].ttl)
  {
    Provenance.InvAlways(states, steps, m);
    AdmissionKept(states, steps, m + 1, n);
  }

  /** The epoch test alone decides whether a result is stored: the provider test beside it
      never changes the outcome. */
  lemma EpochTestDecides<D>(states: seq<State<D>>, steps: seq<Step<D>>, n: nat, r: ReqId)
    requires IsRun(states, steps) && n < |states| && r in states[n].requests
    ensures var req := states[n].requests[r];
            MayStore(states[n].server, req.id, req.provider, req.epoch) <==> states[n].server.epoch == req.epoch
  {
    Provenance.InvAlways(states, steps, n);
    assert Provenance.RequestOk(states[n], states[n].requests[r]);
  }

  /** The times at which builds of `id` were stored in `epoch`, in order. */
  ghost function StoreTimes(log: seq<Event>, id: Id, epoch: nat): seq<int> {
    if log == [] then []
    else
      var last := log[|log| - 1];
      StoreTimes(log[..|log| - 1], id, epoch) + if Spacing.IsStore(last, id, epoch) then [last.time] else []
  }

  ghost predicate ApartBy(times: seq<int>, ttl: int) {
    forall i, j | 0 <= i < j < |times| :: times[i] + ttl <= times[j]
  }

  lemma {:induction false} StoreTimesInLog(log: seq<Event>, id: Id, epoch: nat, i: nat)
    requires i < |StoreTimes(log, id, epoch)|
    ensures exists k | 0 <= k < |log| ::
            Spacing.IsStore(log[k], id, epoch) && log[k].time == StoreTimes(log, id, epoch)[i]
  {
    var front := log[..|log| - 1];
    if i < |StoreTimes(front, id, epoch)| {
      StoreTimesInLog(front, id, epoch, i);
      var k :| 0 <= k < |front| && Spacing.IsStore(front[k], id, epoch)
          && front[k].time == StoreTimes(front, id, epoch)[i];
      assert front[k] == log[k];
    } else {
      assert Spacing.IsStore(log[|log| - 1], id, epoch);
    }
  }

  lemma {:induction false} StoresApart(log: seq<Event>, id: Id, epoch: nat, ttl: int)
    requires forall i, j | 0 <= i < j < |log| && Spacing.IsStore(log[i], id, epoch)
             && Spacing.IsStore(log[j], id, epoch) ::
               log[i].time + ttl <= log[j].time
    ensures ApartBy(StoreTimes(log, id, epoch), ttl)
  {
    if log != [] {
      var front := log[..|log| - 1];
      StoresApart(front, id, epoch, ttl);
      forall i | 0 <= i < |StoreTimes(front, id, epoch)| && Spacing.IsStore(log[|log| - 1], id, epoch)
        ensures StoreTimes(front, id, epoch)[i] + ttl <= log[|log| - 1].time
      {
        StoreTimesInLog(front, id, epoch, i);
        var k :| 0 <= k < |front| && Spacing.IsStore(front[k], id, epoch)
            && front[k].time == StoreTimes(front, id, epoch)[i];
        assert front[k] == log[k];
      }
    }
  }

  /** What can part two stores of `id` in `epoch`, at `i` and `j`, whose requests fetched the lock
      at `a` and `b`: different loops, a restart or another loop's fetch between the fetches, or a
      cleared cache between the stores. */
  ghost predicate Parted(log: seq<Event>, id: Id, epoch: nat, a: nat, b: nat, i: nat, j: nat) {
    && a < |log| && b < |log| && i < j < |log|
    && log[a].Fetched? && log[b].Fetched? && log[a].id == log[b].id == id && log[a].epoch == log[b].epoch == epoch
    && (|| log[a].loop != log[b].loop
        || (exists k | a < k < b || b < k < a :: log[k].epoch == epoch && Parts(log[k], id, log[a].loop))
        || (exists k | i < k < j :: log[k].epoch == epoch && log[k].CacheCleared?))
  }

  predicate Parts(event: Event, id: Id, loop: nat) {
    event.LocksCleared? || (event.Fetched? && event.id == id && event.loop != loop)
  }

  lemma DropParts(log: seq<Event>, id: Id, epoch: nat, loop: nat, a: nat, b: nat)
    requires forall j, k | 0 <= j < k < |log| ::
               log[j].epoch <= log[k].epoch && (log[k].Invalidated? ==> log[j].epoch < log[k].epoch)
    requires a < |log| && b < |log| && log[a].epoch == log[b].epoch == epoch && !Locks.Undropped(log, id, loop, a, b)
    ensures exists k | a < k < b :: log[k].epoch == epoch && Parts(log[k], id, loop)
  {
    var k :| a < k < b && Locks.Drops(log[k], id, loop);
    assert log[a].epoch <= log[k].epoch <= log[b].epoch;
    assert Parts(log[k], id, loop);
  }

  /** Two builds of a measurement stored in one epoch are at least the TTL apart, unless something
      parted them. */
  lemma CloseStoresWereParted<D>(states: seq<State<D>>, steps: seq<Step<D>>, n: nat, id: Id, epoch: nat, i: nat, j: nat)
    requires IsRun(states, steps) && n < |states| && i < j < |states[n].log|
    requires Spacing.IsStore(states[n].log[i], id, epoch) && Spacing.IsStore(states[n].log[j], id, epoch)
    requires states[n].log[j].time < states[n].log[i].time + states[n].ttl
    ensures Parted(states[n].log, id, epoch, states[n].log[i].fetched, states[n].log[j].fetched, i, j)
  {
    Spacing.InvAlways(states, steps, n);
    var log := states[n].log;
    assert Spacing.StoreOk(log, i) && Spacing.StoreOk(log, j) && !Spacing.LinkedStores(log, i, j);
    var a, b := log[i].fetched, log[j].fetched;
    if log[a].loop == log[b].loop {
      if !Locks.Undropped(log, id, log[a].loop, a, b) {
        DropParts(log, id, epoch, log[a].loop, a, b);
      } else if !Locks.Undropped(log, id, log[a].loop, b, a) {
        DropParts(log, id, epoch, log[a].loop, b, a);
      } else {
        var k :| i < k < j && log[k].CacheCleared?;
        assert log[i].epoch <= log[k].epoch <= log[j].epoch;
      }
    }
  }

  /** Within one epoch without a restart after the first lock fetch, and on one loop, stored
      builds of a measurement are at least the TTL apart. */
  lemma StoredBuildsAreApart<D>(states: seq<State<D>>, steps: seq<Step<D>>, n: nat, id: Id, epoch: nat, loop: nat)
    requires IsRun(states, steps) && n < |states|
    requires Spacing.Quiet(states[n].log, id, epoch, loop)
    ensures ApartBy(StoreTimes(states[n].log, id, epoch), states[n].ttl)
  {
    Spacing.InvAlways(states, steps, n);
    var log := states[n].log;
    forall i, j | 0 <= i < j < |log| && Spacing.IsStore(log[i], id, epoch) && Spacing.IsStore(log[j], id, epoch)
      ensures log[i].time + states[n].ttl <= log[j].time
    {
      Spacing.QuietLinks(states[n], id, epoch, loop, i, j);
    }
    StoresApart(log, id, epoch, states[n].ttl);
  }

  lemma {:induction false} ApartSpan(times: seq<int>, ttl: int)
    requires ApartBy(times, ttl) && times != []
    ensures (|times| - 1) * ttl <= times[|times| - 1] - times[0]
  {
    if |times| > 1 {
      var front := times[..|times| - 1];
      ApartSpan(front, ttl);
      assert (|front| - 1) * ttl + ttl == (|times| - 1) * ttl;
    }
  }

  /** The times from `from` to `to`, in order. */
  function Within(times: seq<int>, from: int, to: int): (r: seq<int>)
    ensures forall t | t in r :: t in times && from <= t <= to
  {
    if times == [] then []
    else
      var last := times[|times| - 1];
      Within(times[..|times| - 1], from, to) + if from <= last <= to then [last] else []
  }

  lemma {:induction false} WithinApart(times: seq<int>, ttl: int, from: int, to: int)
    requires ApartBy(times, ttl)
    ensures ApartBy(Within(times, from, to), ttl)
  {
    if times != [] {
      var front, last := times[..|times| - 1], times[|times| - 1];
      WithinApart(front, ttl, from, to);
      forall i | 0 <= i < |Within(front, from, to)| ensures Within(front, from, to)[i] + ttl <= last {
        assert Within(front, from, to)[i] in front;
      }
    }
  }

  /** Builds stored between two times of one epoch: at most one per TTL, and one more. */
  lemma StoredBuildsAreFew<D>(
    states: seq<State<D>>, steps: seq<Step<D>>, n: nat, id: Id, epoch: nat, loop: nat, from: int, to: int)
    requires IsRun(states, steps) && n < |states| && states[n].ttl > 0
    requires Spacing.Quiet(states[n].log, id, epoch, loop) && from <= to
    ensures |Within(StoreTimes(states[n].log, id, epoch), from, to)| <= (to - from) / states[n].ttl + 1
  {
    var ttl := states[n].ttl;
    StoredBuildsAreApart(states, steps, n, id, epoch, loop);
    WithinApart(StoreTimes(states[n].log, id, epoch), ttl, from, to);
    var times := Within(StoreTimes(states[n].log, id, epoch), from, to);
    if times != [] {
      ApartSpan(times, ttl);
      assert times[0] in times && times[|times| - 1] in times;
      DivideBound(|times| - 1, ttl, to - from);
    }
  }

  lemma AtLeastOne(k: int, ttl: int)
    requires k >= 1 && ttl > 0
    ensures k * ttl >= ttl
  {
  }

  lemma DivideBound(count: int, ttl: int, span: int)
    requires ttl > 0 && count * ttl <= span
    ensures count <= span / ttl
  {
    if count > span / ttl {
      AtLeastOne(count - span / ttl, ttl);
    }
  }
}
