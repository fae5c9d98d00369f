/** Where cached entries and answers come from, in every run of the cache protocol. */
module CacheProvenance {
  import opened Wrappers
  import opened SnapshotCache
  import opened CacheProtocol

  /** The dataset is a state the provider's measurement has been in. */
  ghost predicate Real<D>(s: State<D>, built: Built<D>) {
    built.provider in s.runs && built.dataset in s.runs[built.provider]
  }

  ghost predicate ProviderAt<D>(s: State<D>, epoch: nat, id: Id, p: Provider) {
    epoch < |s.past| && id in s.past[epoch] && s.past[epoch][id] == p
  }

  ghost predicate WasStored(log: seq<Event>, epoch: nat, id: Id, time: int) {
    exists fetched :: Stored(epoch, id, time, fetched) in log
  }

  /** An entry holds what its own epoch's provider built, whatever is registered now. */
  ghost predicate EntryOk<D>(s: State<D>, id: Id, entry: Entry<D>) {
    && ProviderAt(s, entry.epoch, id, entry.built.provider)
    && Real(s, entry.built)
    && entry.created <= s.clock
    && WasStored(s.log, entry.epoch, id, entry.created)
  }

  /** The epoch determines the whole provider map. */
  ghost predicate HistoryOk<D>(s: State<D>) {
    |s.past| == s.server.epoch + 1 && s.past[s.server.epoch] == s.server.providers
  }

  ghost predicate CacheOk<D>(s: State<D>) {
    forall id | id in s.server.cache ::
      && EntryOk(s, id, s.server.cache[id])
      && id in s.server.providers
      && s.server.providers[id] == s.server.cache[id].built.provider
  }

  ghost predicate ReplyOk<D>(s: State<D>, req: Request<D>, reply: Reply<D>) {
    match reply
    case Hit(built, created, checked) =>
      && built.provider == req.provider && Real(s, built)
      && created <= checked < created + s.ttl && checked <= s.clock
      && WasStored(s.log, req.epoch, req.id, created)
    case Fresh(built) => built.provider == req.provider && Real(s, built)
    case Failed => true
  }

  ghost predicate RequestOk<D>(s: State<D>, req: Request<D>) {
    && ProviderAt(s, req.epoch, req.id, req.provider)
    && match req.phase
       case Looked(_, seen) => seen.Some? ==> EntryOk(s, req.id, seen.value)
       case Serialized(_, built) => built.provider == req.provider && Real(s, built)
       case Done(reply) => ReplyOk(s, req, reply)
       case _ => true
  }

  ghost predicate Inv<D>(s: State<D>) {
    && HistoryOk(s)
    && CacheOk(s)
    && forall r | r in s.requests :: RequestOk(s, s.requests[r])
  }

  /** What no step takes back. */
  ghost predicate Grows<D>(s: State<D>, t: State<D>) {
    && s.past <= t.past && s.log <= t.log
    && s.clock <= t.clock
    && s.ttl == t.ttl
    && forall p, d | p in s.runs && d in s.runs[p] :: p in t.runs && d in t.runs[p]
  }

  lemma NextGrows<D>(s: State<D>, step: Step<D>)
    requires Enabled(s, step)
    ensures Grows(s, Next(s, step))
  {
    if step.Store? {
      assert Next(s, step).runs == s.runs;
    }
  }

  lemma GrowsTrans<D>(s: State<D>, t: State<D>, u: State<D>)
    requires Grows(s, t) && Grows(t, u)
    ensures Grows(s, u)
  {
  }

  lemma HistoryKept<D>(s: State<D>, step: Step<D>)
    requires Enabled(s, step) && HistoryOk(s)
    ensures HistoryOk(Next(s, step))
  {
  }

  lemma RequestStaysOk<D>(s: State<D>, t: State<D>, req: Request<D>)
    requires Grows(s, t) && RequestOk(s, req)
    ensures RequestOk(t, req)
  {
  }

  lemma OwnRequestKept<D>(s: State<D>, step: Step<D>, r: ReqId)
    requires Enabled(s, step) && Inv(s) && Actor(step) == Some(r)
    ensures r in Next(s, step).requests && RequestOk(Next(s, step), Next(s, step).requests[r])
  {
    if r in s.requests {
      assert RequestOk(s, s.requests[r]);
    }
  }

  lemma RequestKept<D>(s: State<D>, step: Step<D>, r: ReqId)
    requires Enabled(s, step) && Inv(s) && r in Next(s, step).requests
    ensures RequestOk(Next(s, step), Next(s, step).requests[r])
  {
    if Actor(step) == Some(r) {
      OwnRequestKept(s, step, r);
    } else {
      OthersUntouched(s, step, r);
      NextGrows(s, step);
      RequestStaysOk(s, Next(s, step), s.requests[r]);
    }
  }

  /** An entry was there before and its provider still is, or a request just stored it. */
  lemma EntryOrigin<D>(s: State<D>, step: Step<D>, id: Id)
    requires Enabled(s, step) && id in Next(s, step).server.cache
    ensures var t := Next(s, step);
            || (id in s.server.cache && t.server.cache[id] == s.server.cache[id]
                && (id in s.server.providers ==>
                      id in t.server.providers && t.server.providers[id] == s.server.providers[id]))
            || (step.Store?
                && var req := s.requests[step.r];
                   && req.id == id && MayStore(s.server, id, req.provider, req.epoch)
                   && t.server.cache[id] == Entry(req.phase.built, s.clock, req.epoch)
                   && t.log == s.log + [Stored(req.epoch, id, s.clock, req.fetched)]
                   && t.server.providers == s.server.providers)
  {
  }

  lemma EntryKept<D>(s: State<D>, step: Step<D>, id: Id)
    requires Enabled(s, step) && Inv(s) && id in Next(s, step).server.cache
    ensures var t := Next(s, step);
            && EntryOk(t, id, t.server.cache[id])
            && id in t.server.providers && t.server.providers[id] == t.server.cache[id].built.provider
  {
    NextGrows(s, step);
    EntryOrigin(s, step, id);
    if step.Store? {
      assert RequestOk(s, s.requests[step.r]);
    }
  }

  lemma InvKept<D>(s: State<D>, step: Step<D>)
    requires Enabled(s, step) && Inv(s)
    ensures Inv(Next(s, step))
  {
    HistoryKept(s, step);
    var t := Next(s, step);
    forall r | r in t.requests ensures RequestOk(t, t.requests[r]) {
      RequestKept(s, step, r);
    }
    forall id | id in t.server.cache
      ensures EntryOk(t, id, t.server.cache[id])
              && id in t.server.providers && t.server.providers[id] == t.server.cache[id].built.provider
    {
      EntryKept(s, step, id);
    }
  }

  lemma {:induction false} InvAlways<D>(states: seq<State<D>>, steps: seq<Step<D>>, n: nat)
    requires IsRun(states, steps) && n < |states|
    ensures Inv(states[n])
  {
    if n > 0 {
      InvAlways(states, steps, n - 1);
      InvKept(states[n - 1], steps[n - 1]);
    }
  }
}
