/** Which build every answer is, and which lock a request gets after a registration. */
module CacheFreshness {
  import opened Wrappers
  import opened SnapshotCache
  import opened CacheProtocol
  import CacheTheorems
  import Provenance = CacheProvenance

  /** At step `k` the worker of `r` called the provider and got `built`: the last state its
      measurement had been in. */
  ghost predicate Called<D>(states: seq<State<D>>, steps: seq<Step<D>>, r: ReqId, k: nat, built: Built<D>) {
    && k < |steps| && k < |states| && steps[k] == CallProvider(r) && r in states[k].requests
    && built.provider == states[k].requests[r].provider
    && built.provider in states[k].runs
    && var run := states[k].runs[built.provider];
       run != [] && built.dataset == run[|run| - 1]
  }

  /** At step `j` some request for `id` stored `entry`, which is what it had from its own call. */
  ghost predicate StoredBy<D>(states: seq<State<D>>, steps: seq<Step<D>>, id: Id, entry: Entry<D>, j: nat) {
    && j < |steps| && j < |states| && steps[j].Store? && steps[j].r in states[j].requests
    && states[j].requests[steps[j].r].id == id && states[j].requests[steps[j].r].epoch == entry.epoch
    && states[j].clock == entry.created
    && exists k | 0 <= k < j :: Called(states, steps, steps[j].r, k, entry.built)
  }

  ghost predicate EntryTraced<D>(states: seq<State<D>>, steps: seq<Step<D>>, id: Id, entry: Entry<D>, n: nat) {
    exists j | 0 <= j < n :: StoredBy(states, steps, id, entry, j)
  }

  ghost predicate BuiltTraced<D>(states: seq<State<D>>, steps: seq<Step<D>>, r: ReqId, built: Built<D>, n: nat) {
    exists k | 0 <= k < n :: Called(states, steps, r, k, built)
  }

  ghost predicate PhaseTraced<D>(states: seq<State<D>>, steps: seq<Step<D>>, r: ReqId, req: Request<D>, n: nat) {
    match req.phase
    case Looked(_, seen) => seen.Some? ==> EntryTraced(states, steps, req.id, seen.value, n)
    case Serialized(_, built) => BuiltTraced(states, steps, r, built, n)
    case Done(reply) =>
      (match reply
       case Fresh(built) => BuiltTraced(states, steps, r, built, n)
       case Hit(built, created, _) => EntryTraced(states, steps, req.id, Entry(built, created, req.epoch), n)
       case Failed => true)
    case _ => true
  }

  ghost predicate Traced<D>(states: seq<State<D>>, steps: seq<Step<D>>, n: nat)
    requires n < |states|
  {
    && (forall r | r in states[n].requests :: PhaseTraced(states, steps, r, states[n].requests[r], n))
    && (forall id | id in states[n].server.cache :: EntryTraced(states, steps, id, states[n].server.cache[id], n))
  }

  /** Where the phase a step gives its own request comes from. */
  ghost predicate PhaseFrom<D>(s: State<D>, step: Step<D>, r: ReqId, phase: Phase<D>)
    requires r in s.requests
  {
    var req := s.requests[r];
    match phase
    case Looked(_, seen) => step == Look(r) && seen == Lookup(s.server, req.id)
    case Serialized(_, built) =>
      && step == CallProvider(r) && built.provider == req.provider
      && req.provider in s.runs && s.runs[req.provider] != []
      && built.dataset == s.runs[req.provider][|s.runs[req.provider]| - 1]
    case Done(reply) =>
      (match reply
       case Fresh(built) => step == Store(r) && req.phase.Serialized? && built == req.phase.built
       case Hit(built, created, _) =>
         && step == Decide(r) && req.phase.Looked? && req.phase.seen == Some(Entry(built, created, req.epoch))
       case Failed => true)
    case _ => true
  }

  lemma OwnPhaseFrom<D>(s: State<D>, step: Step<D>, r: ReqId)
    requires Enabled(s, step) && Actor(step) == Some(r) && !step.Admit?
    ensures r in s.requests && r in Next(s, step).requests && PhaseFrom(s, step, r, Next(s, step).requests[r].phase)
  {
  }

  lemma EntryLater<D>(states: seq<State<D>>, steps: seq<Step<D>>, id: Id, entry: Entry<D>, m: nat, n: nat)
    requires EntryTraced(states, steps, id, entry, m) && m <= n
    ensures EntryTraced(states, steps, id, entry, n)
  {
  }

  lemma BuiltLater<D>(states: seq<State<D>>, steps: seq<Step<D>>, r: ReqId, built: Built<D>, m: nat, n: nat)
    requires BuiltTraced(states, steps, r, built, m) && m <= n
    ensures BuiltTraced(states, steps, r, built, n)
  {
  }

  lemma PhaseLater<D>(states: seq<State<D>>, steps: seq<Step<D>>, r: ReqId, req: Request<D>, m: nat, n: nat)
    requires PhaseTraced(states, steps, r, req, m) && m <= n
    ensures PhaseTraced(states, steps, r, req, n)
  {
    match req.phase
    case Looked(_, seen) =>
      if seen.Some? {
        EntryLater(states, steps, req.id, seen.value, m, n);
      }
    case Serialized(_, built) => BuiltLater(states, steps, r, built, m, n);
    case Done(reply) =>
      if reply.Fresh? {
        BuiltLater(states, steps, r, reply.built, m, n);
      } else if reply.Hit? {
        EntryLater(states, steps, req.id, Entry(reply.built, reply.created, req.epoch), m, n);
      }
    case _ =>
  }

  lemma OwnTraced<D>(states: seq<State<D>>, steps: seq<Step<D>>, n: nat, r: ReqId)
    requires IsRun(states, steps) && n < |steps| && Traced(states, steps, n)
    requires Actor(steps[n]) == Some(r) && !steps[n].Admit?
    ensures r in states[n + 1].requests && PhaseTraced(states, steps, r, states[n + 1].requests[r], n + 1)
  {
    OwnPhaseFrom(states[n], steps[n], r);
    OwnRequest(states[n], steps[n], r);
    var req, phase := states[n].requests[r], states[n + 1].requests[r].phase;
    assert PhaseTraced(states, steps, r, req, n);
    PhaseLater(states, steps, r, req, n, n + 1);
    if phase.Serialized? {
      assert Called(states, steps, r, n, phase.built);
    } else if phase.Looked? && phase.seen.Some? {
      EntryLater(states, steps, req.id, phase.seen.value, n, n + 1);
    }
  }

  lemma CacheTraced<D>(states: seq<State<D>>, steps: seq<Step<D>>, n: nat, id: Id)
    requires IsRun(states, steps) && n < |steps| && Traced(states, steps, n) && id in states[n + 1].server.cache
    ensures EntryTraced(states, steps, id, states[n + 1].server.cache[id], n + 1)
  {
    var s, entry := states[n], states[n + 1].server.cache[id];
    Provenance.EntryOrigin(s, steps[n], id);
    if id in s.server.cache && entry == s.server.cache[id] {
      EntryLater(states, steps, id, entry, n, n + 1);
    } else {
      assert PhaseTraced(states, steps, steps[n].r, s.requests[steps[n].r], n);
      assert StoredBy(states, steps, id, entry, n);
    }
  }

  lemma TracedKept<D>(states: seq<State<D>>, steps: seq<Step<D>>, n: nat)
    requires IsRun(states, steps) && n < |steps| && Traced(states, steps, n)
    ensures Traced(states, steps, n + 1)
  {
    var t, later := states[n + 1], n + 1;
    forall r | r in t.requests ensures PhaseTraced(states, steps, r, t.requests[r], later) {
      if Actor(steps[n]) != Some(r) {
        OthersUntouched(states[n], steps[n], r);
        PhaseLater(states, steps, r, states[n].requests[r], n, later);
      } else if !steps[n].Admit? {
        OwnTraced(states, steps, n, r);
      }
    }
    forall id | id in t.server.cache ensures EntryTraced(states, steps, id, t.server.cache[id], later) {
      CacheTraced(states, steps, n, id);
    }
  }

  lemma {:induction false} TracedAlways<D>(states: seq<State<D>>, steps: seq<Step<D>>, n: nat)
    requires IsRun(states, steps) && n < |states|
    ensures Traced(states, steps, n)
  {
    if n > 0 {
      TracedAlways(states, steps, n - 1);
      TracedKept(states, steps, n - 1);
    }
  }

  /** Whatever a request does after its admission comes after it. */
  lemma NotBefore<D>(states: seq<State<D>>, steps: seq<Step<D>>, m: nat, k: nat, r: ReqId, id: Id, loop: nat)
    requires IsRun(states, steps) && m < |steps| && k < |steps| && steps[m] == Admit(r, id, loop)
    requires r in states[k].requests
    ensures m < k
  {
    if k <= m {
      CacheTheorems.AdmissionKept(states, steps, k, m);
    }
  }

  /** A request that builds answers with what its own call of the provider returned: the last
      state the measurement had been in at that moment, after the request was admitted. */
  lemma FreshAnswersAreTheProvidersLast<D>(
    states: seq<State<D>>, steps: seq<Step<D>>, m: nat, n: nat, r: ReqId, id: Id, loop: nat, built: Built<D>)
    requires IsRun(states, steps) && m < n < |states| && steps[m] == Admit(r, id, loop)
    requires r in states[n].requests && states[n].requests[r].phase == Done(Fresh(built))
    ensures exists k | m < k < n :: Called(states, steps, r, k, built)
  {
    TracedAlways(states, steps, n);
    assert PhaseTraced(states, steps, r, states[n].requests[r], n);
    var k :| 0 <= k < n && Called(states, steps, r, k, built);
    NotBefore(states, steps, m, k, r, id, loop);
  }

  /** A hit is what some request for the same measurement and epoch stored at the time the hit
      carries, and had from its own call of the provider. */
  lemma HitsAreStoredBuilds<D>(states: seq<State<D>>, steps: seq<Step<D>>, n: nat, r: ReqId)
    requires IsRun(states, steps) && n < |states| && r in states[n].requests
    requires states[n].requests[r].phase.Done? && states[n].requests[r].phase.reply.Hit?
    ensures var req := states[n].requests[r];
            exists j | 0 <= j < n ::
              StoredBy(states, steps, req.id, Entry(req.phase.reply.built, req.phase.reply.created, req.epoch), j)
  {
    TracedAlways(states, steps, n);
    assert PhaseTraced(states, steps, r, states[n].requests[r], n);
  }

  function Rank<D>(phase: Phase<D>): nat {
    match phase
    case Admitted => 0
    case Waiting(_) => 1
    case Holding(_) => 2
    case Looked(_, _) => 3
    case Building(_) => 4
    case Serialized(_, _) => 5
    case Done(_) => 6
    case Abandoned => 6
  }

  lemma RankRises<D>(s: State<D>, step: Step<D>, r: ReqId)
    requires Enabled(s, step) && r in s.requests
    ensures r in Next(s, step).requests
    ensures var a, b := s.requests[r], Next(s, step).requests[r];
            a == b || Rank(a.phase) < Rank(b.phase) || a.phase.Abandoned?
    ensures s.requests[r].phase.Abandoned? ==> Next(s, step).requests[r].phase.Abandoned?
  {
    if Actor(step) != Some(r) {
      OthersUntouched(s, step, r);
    }
  }

  lemma {:induction false} PhaseStays<D>(states: seq<State<D>>, steps: seq<Step<D>>, m: nat, n: nat, r: ReqId)
    requires IsRun(states, steps) && m <= n < |states| && r in states[m].requests && r in states[n].requests
    ensures Rank(states[m].requests[r].phase) <= Rank(states[n].requests[r].phase)
    ensures Rank(states[m].requests[r].phase) == Rank(states[n].requests[r].phase) < 6 ==>
              states[m].requests[r] == states[n].requests[r]
    decreases n - m
  {
    if m < n {
      RankRises(states[m], steps[m], r);
      PhaseStays(states, steps, m + 1, n, r);
    }
  }

  /** An entry of the request's epoch that is younger than the TTL when the request decides is its
      answer, as found when it looked; otherwise, and only then, it goes on to build. */
  lemma LookThenDecide<D>(states: seq<State<D>>, steps: seq<Step<D>>, m: nat, n: nat, r: ReqId)
    requires IsRun(states, steps) && m < n < |steps| && steps[m] == Look(r) && steps[n] == Decide(r)
    ensures r in states[m].requests && r in states[n + 1].requests
    ensures var req, after := states[m].requests[r], states[n + 1].requests[r];
            var cache, now := states[m].server.cache, states[n].clock;
            if req.id in cache && cache[req.id].epoch == req.epoch && now - cache[req.id].created < states[n].ttl
            then after.phase == Done(Hit(cache[req.id].built, cache[req.id].created, now))
            else after.phase.Building?
  {
    PhaseStays(states, steps, m + 1, n, r);
  }

  /** Locks are numbered in the order they are made. */
  ghost predicate LocksNumbered<D>(s: State<D>) {
    && (forall id | id in s.server.locks :: s.server.locks[id].lock < s.server.nextLock)
    && (forall r | r in s.requests && HasLock(s.requests[r].phase) :: s.requests[r].phase.lock < s.server.nextLock)
  }

  lemma NumberedKept<D>(s: State<D>, step: Step<D>)
    requires Enabled(s, step) && LocksNumbered(s)
    ensures LocksNumbered(Next(s, step)) && s.server.nextLock <= Next(s, step).server.nextLock
  {
  }

  lemma {:induction false} NumberedAlways<D>(states: seq<State<D>>, steps: seq<Step<D>>, n: nat)
    requires IsRun(states, steps) && n < |states|
    ensures LocksNumbered(states[n])
  {
    if n > 0 {
      NumberedAlways(states, steps, n - 1);
      NumberedKept(states[n - 1], steps[n - 1]);
    }
  }

  /** From some point on only locks numbered `least` or above are bound to `id`. */
  ghost predicate BoundFrom<D>(s: State<D>, id: Id, least: nat) {
    least <= s.server.nextLock && (id in s.server.locks ==> least <= s.server.locks[id].lock)
  }

  lemma BoundFromKept<D>(s: State<D>, step: Step<D>, id: Id, least: nat)
    requires Enabled(s, step) && BoundFrom(s, id, least)
    ensures BoundFrom(Next(s, step), id, least)
  {
  }

  lemma {:induction false} BoundFromAlways<D>(
    states: seq<State<D>>, steps: seq<Step<D>>, m: nat, n: nat, id: Id, least: nat)
    requires IsRun(states, steps) && m <= n < |states| && BoundFrom(states[m], id, least)
    ensures BoundFrom(states[n], id, least)
  {
    if m < n {
      BoundFromAlways(states, steps, m, n - 1, id, least);
      BoundFromKept(states[n - 1], steps[n - 1], id, least);
    }
  }

  /** A request that fetches its lock after its measurement was registered anew or removed gets
      one that no request had before. */
  lemma LocksAreNewAfterRegistration<D>(
    states: seq<State<D>>, steps: seq<Step<D>>, m: nat, n: nat, q: ReqId, r: ReqId, id: Id)
    requires IsRun(states, steps) && m < n < |steps|
    requires (steps[m].Register? || steps[m].Unregister?) && steps[m].id == id
    requires q in states[m].requests && HasLock(states[m].requests[q].phase)
    requires steps[n] == Fetch(r) && r in states[n].requests && states[n].requests[r].id == id
    ensures r in states[n + 1].requests && states[n + 1].requests[r].phase.Waiting?
    ensures states[n + 1].requests[r].phase.lock != states[m].requests[q].phase.lock
  {
    NumberedAlways(states, steps, m);
    var least := states[m].server.nextLock;
    assert BoundFrom(states[m + 1], id, least);
    BoundFromAlways(states, steps, m + 1, n, id, least);
    BoundFromKept(states[n], steps[n], id, least);
  }
}
