/** The registry as the mutable table it is, with the loops of its passes. */
module RegistryStore {
  import opened Wrappers
  import opened Registry
  import opened RegistryTheorems

  predicate NoRepeats<T(==)>(s: seq<T>) {
    forall i, j | 0 <= i < j < |s| :: s[i] != s[j]
  }

  /** `groups` holds exactly the identifiers `ids`, each once under its own endpoint, and
      `endpoints` its keys in the order they were met. */
  ghost predicate IsGrouping(t: Table, endpoints: seq<string>, groups: map<string, seq<string>>, ids: set<string>) {
    && NoRepeats(endpoints)
    && (forall url :: url in endpoints <==> url in groups)
    && (forall url | url in groups :: groups[url] != [] && NoRepeats(groups[url]))
    && (forall url, id | url in groups && id in groups[url] :: id in ids && id in t && t[id].wsUrl == url)
    && (forall id | id in ids :: id in t && t[id].wsUrl in groups && id in groups[t[id].wsUrl])
  }

  lemma GroupOneMore(t: Table, endpoints: seq<string>, groups: map<string, seq<string>>, ids: set<string>, id: string)
    requires IsGrouping(t, endpoints, groups, ids) && id in t && id !in ids
    ensures var url := t[id].wsUrl;
            IsGrouping(t, if url in groups then endpoints else endpoints + [url],
                       groups[url := (if url in groups then groups[url] else []) + [id]], ids + {id})
  {
  }

  /** How often an endpoint is asked: not at all unless a live row without a heartbeat names it. */
  ghost predicate Asked(t: Table, cutoff: int, url: string) {
    exists id | id in t :: t[id].live && LivenessOf(t[id], cutoff).Unknown? && t[id].wsUrl == url
  }

  /** The live rows that have or have not a heartbeat to read. */
  ghost function Heard(t: Table, cutoff: int, ids: seq<string>): set<string> {
    set id | id in ids && id in t && !LivenessOf(t[id], cutoff).Unknown?
  }

  ghost function Unheard(t: Table, cutoff: int, ids: seq<string>): set<string> {
    set id | id in ids && id in t && LivenessOf(t[id], cutoff).Unknown?
  }

  ghost function Elements<T>(s: seq<T>): set<T> {
    set x | x in s
  }

  lemma OneMoreElement<T>(s: seq<T>, n: nat)
    requires n < |s| && NoRepeats(s)
    ensures s[n] !in s[..n] && Elements(s[..n + 1]) == Elements(s[..n]) + {s[n]}
  {
    assert s[..n + 1] == s[..n] + [s[n]];
  }

  lemma HeardOneMore(t: Table, cutoff: int, ids: seq<string>, n: nat)
    requires n < |ids| && ids[n] in t
    ensures Heard(t, cutoff, ids[..n + 1]) ==
              Heard(t, cutoff, ids[..n]) + if LivenessOf(t[ids[n]], cutoff).Unknown? then {} else {ids[n]}
    ensures Unheard(t, cutoff, ids[..n + 1]) ==
              Unheard(t, cutoff, ids[..n]) + if LivenessOf(t[ids[n]], cutoff).Unknown? then {ids[n]} else {}
  {
    assert ids[..n + 1] == ids[..n] + [ids[n]];
  }

  /** The identifiers whose endpoint is among `endpoints`. */
  ghost function At(t: Table, ids: set<string>, endpoints: seq<string>): set<string> {
    set id | id in ids && id in t && t[id].wsUrl in endpoints
  }

  lemma GroupRows(t: Table, endpoints: seq<string>, groups: map<string, seq<string>>, ids: set<string>, n: nat)
    requires IsGrouping(t, endpoints, groups, ids) && n < |endpoints|
    ensures At(t, ids, endpoints[..n + 1]) == At(t, ids, endpoints[..n]) + Elements(groups[endpoints[n]])
    ensures At(t, ids, endpoints[..n]) !! Elements(groups[endpoints[n]])
  {
    assert endpoints[..n + 1] == endpoints[..n] + [endpoints[n]];
    assert endpoints[n] !in endpoints[..n];
  }

  function Repeat(url: string, n: nat): seq<string> {
    seq(n, _ => url)
  }

  function Count(s: seq<string>, x: string): nat {
    if s == [] then 0 else Count(s[..|s| - 1], x) + if s[|s| - 1] == x then 1 else 0
  }

  /** Each of the endpoints was asked until it answered or `retries` were spent, and no other. */
  ghost predicate AskedDuly(asked: seq<string>, p: Pass, endpoints: seq<string>) {
    forall url :: Count(asked, url) == if url in endpoints then Attempts(p, url, 0) else 0
  }

  lemma {:induction false} CountMore(asked: seq<string>, url: string, n: nat, u: string)
    ensures Count(asked + Repeat(url, n), u) == Count(asked, u) + if u == url then n else 0
  {
    if n == 0 {
      assert asked + Repeat(url, n) == asked;
    } else {
      CountMore(asked, url, n - 1, u);
      assert asked + Repeat(url, n) == asked + Repeat(url, n - 1) + [url];
    }
  }

  lemma AskedMore(asked: seq<string>, p: Pass, endpoints: seq<string>, n: nat)
    requires NoRepeats(endpoints) && n < |endpoints| && AskedDuly(asked, p, endpoints[..n])
    ensures AskedDuly(asked + Repeat(endpoints[n], Attempts(p, endpoints[n], 0)), p, endpoints[..n + 1])
  {
    var url, k := endpoints[n], Attempts(p, endpoints[n], 0);
    OneMoreElement(endpoints, n);
    assert endpoints[..n + 1] == endpoints[..n] + [url];
    forall u ensures Count(asked + Repeat(url, k), u) == if u in endpoints[..n + 1] then Attempts(p, u, 0) else 0 {
      CountMore(asked, url, k, u);
    }
  }

  /** The endpoints gathered are those that must be asked. */
  lemma EndpointsAreAsked(t: Table, cutoff: int, ids: seq<string>, endpoints: seq<string>,
                          groups: map<string, seq<string>>)
    requires IsListing(t, ids) && IsGrouping(t, endpoints, groups, Unheard(t, cutoff, ids))
    ensures forall url :: url in endpoints <==> Asked(t, cutoff, url)
  {
    forall url | url in endpoints ensures Asked(t, cutoff, url) {
      var id := groups[url][0];
      assert id in groups[url] && id in Unheard(t, cutoff, ids);
    }
    forall url | Asked(t, cutoff, url) ensures url in endpoints {
      var id :| id in t && t[id].live && LivenessOf(t[id], cutoff).Unknown? && t[id].wsUrl == url;
      assert id in Unheard(t, cutoff, ids);
    }
  }

  class Store {
    var rows: Table

    constructor ()
      ensures rows == map[]
    {
      rows := map[];
    }

    method RegisterMeasurement(id: string, fpath: string, wsUrl: string, wsPort: nat, startedAt: int)
      modifies this
      ensures rows == Registered(old(rows), id, fpath, wsUrl, wsPort, startedAt)
      ensures rows == old(rows)[id := Row(fpath, wsUrl, wsPort, true, startedAt, None, None, None)]
    {
      rows := rows[id := Row(fpath, wsUrl, wsPort, true, startedAt, None, None, None)];
    }

    method EndMeasurement(id: string, at: int)
      modifies this
      ensures rows == Ended(old(rows), id, at)
    {
      if id in rows {
        rows := rows[id := rows[id].(live := false, endedAt := Some(at))];
      }
    }

    method Heartbeat(id: string, at: int)
      modifies this
      ensures rows == Beaten(old(rows), id, at)
      ensures rows.Keys == old(rows).Keys && rows - {id} == old(rows) - {id}
      ensures id in rows ==> rows[id] == old(rows)[id].(lastSeen := Some(at))
    {
      if id in rows {
        rows := rows[id := rows[id].(lastSeen := Some(at))];
      }
    }

    method UpdateMeasurementPath(id: string, fpath: string)
      modifies this
      ensures rows == Moved(old(rows), id, fpath)
      ensures rows.Keys == old(rows).Keys && rows - {id} == old(rows) - {id}
      ensures id in rows ==> rows[id] == old(rows)[id].(fpath := fpath)
    {
      if id in rows {
        rows := rows[id := rows[id].(fpath := fpath)];
      }
    }

    method NoteReachable(id: string)
      modifies this
      ensures rows == Reached(old(rows), id)
    {
      if id in rows {
        rows := rows[id := rows[id].(missedSince := None)];
      }
    }

    /** The first miss stamps the row and later ones leave it. */
    method NoteUnreachable(id: string, now: int) returns (unanswered: int)
      modifies this
      ensures rows == Missed(old(rows), id, now)
      ensures unanswered == UnansweredFor(old(rows), id, now)
    {
      var stamp := if id in rows then rows[id].missedSince else None;
      if stamp.None? {
        if id in rows {
          rows := rows[id := rows[id].(missedSince := Some(now))];
        }
        return 0;
      }
      return now - stamp.value;
    }

    /** `SELECT ... WHERE live_status ORDER BY started_at DESC` */
    method ListLive() returns (ids: seq<string>)
      ensures IsListing(rows, ids)
    {
      ids := [];
      var left := set id | id in rows && rows[id].live;
      while left != {}
        invariant NoRepeats(ids)
        invariant forall id :: id in left ==> id in rows && rows[id].live && id !in ids
        invariant forall id :: id in rows && rows[id].live ==> id in left || id in ids
        invariant forall id :: id in ids ==> id in rows && rows[id].live
        invariant forall i, j | 0 <= i < j < |ids| :: rows[ids[i]].startedAt >= rows[ids[j]].startedAt
        invariant forall i, id | 0 <= i < |ids| && id in left :: rows[ids[i]].startedAt >= rows[id].startedAt
      {
        var newest := Newest(left);
        ids := ids + [newest];
        left := left - {newest};
      }
    }

    method Newest(ids: set<string>) returns (newest: string)
      requires ids != {} && forall id | id in ids :: id in rows
      ensures newest in ids && forall id | id in ids :: rows[newest].startedAt >= rows[id].startedAt
    {
      newest :| newest in ids;
      var left := ids - {newest};
      while left != {}
        invariant newest in ids && left <= ids
        invariant forall id | id in ids && id !in left :: rows[newest].startedAt >= rows[id].startedAt
      {
        var id :| id in left;
        if rows[id].startedAt > rows[newest].startedAt {
          newest := id;
        }
        left := left - {id};
      }
    }

    /** The live rows, newest first, without those whose heartbeat stopped. */
    method GetLiveMeasurements(clock: int, staleAfter: int) returns (r: Result<seq<string>, Invalid>)
      ensures r.Err? <==> staleAfter < 0
      ensures r.Ok? ==>
                && NoRepeats(r.value)
                && (forall id :: id in r.value <==>
                      id in rows && rows[id].live
                      && (rows[id].lastSeen.None? || rows[id].lastSeen.value >= clock - staleAfter))
                && (forall i, j | 0 <= i < j < |r.value| :: rows[r.value[i]].startedAt >= rows[r.value[j]].startedAt)
    {
      if staleAfter < 0 {
        return Err(NegativeStaleAfter);
      }
      var ids := ListLive();
      var kept := [];
      for n := 0 to |ids|
        invariant NoRepeats(kept) && forall id | id in kept :: id in rows
        invariant forall id :: id in kept <==> id in ids[..n] && !LivenessOf(rows[id], clock - staleAfter).Stopped?
        invariant forall i, j | 0 <= i < j < |kept| :: rows[kept[i]].startedAt >= rows[kept[j]].startedAt
      {
        if !LivenessOf(rows[ids[n]], clock - staleAfter).Stopped? {
          kept := kept + [ids[n]];
        }
      }
      return Ok(kept);
    }

    /** Ask an endpoint until it answers, at most `retries` times. */
    method AskEndpoint(p: Pass, url: string) returns (advertised: Option<set<string>>, attempts: nat)
      ensures advertised == Answer(p, url, 0)
      ensures attempts == Attempts(p, url, 0)
    {
      advertised, attempts := None, 0;
      while attempts < p.retries
        invariant attempts <= p.retries && advertised == None
        invariant Answer(p, url, 0) == Answer(p, url, attempts)
        invariant Attempts(p, url, 0) == attempts + Attempts(p, url, attempts)
      {
        advertised := p.probe(url, attempts);
        attempts := attempts + 1;
        if advertised.Some? {
          return;
        }
      }
    }

    /** Settle the rows of one endpoint by its answer, or by its silence. */
    method SettleEndpoint(ghost t: Table, p: Pass, ghost done: set<string>, stale: seq<string>, ids: seq<string>,
                          advertised: Option<set<string>>)
      returns (ended: seq<string>)
      requires rows == Settled(t, p, done) && StaleIn(t, p, done, stale) && NoRepeats(ids)
      requires forall id | id in ids ::
                 id in t && id !in done && t[id].live && LivenessOf(t[id], p.cutoff).Unknown?
                     && Answer(p, t[id].wsUrl, 0) == advertised
      modifies this
      ensures rows == Settled(t, p, done + Elements(ids)) && StaleIn(t, p, done + Elements(ids), ended)
    {
      ended := stale;
      assert done + Elements(ids[..0]) == done;
      for n := 0 to |ids|
        invariant rows == Settled(t, p, done + Elements(ids[..n])) && StaleIn(t, p, done + Elements(ids[..n]), ended)
      {
        var id := ids[n];
        ghost var before := done + Elements(ids[..n]);
        OneMoreElement(ids, n);
        assert id !in before && rows[id] == t[id];
        SettleOne(t, p, before, ended, id);
        if advertised.Some? {
          if id in advertised.value {
            NoteReachable(id);
          } else {
            EndMeasurement(id, p.stamps(id));
            ended := ended + [id];
          }
        } else {
          var unanswered := NoteUnreachable(id, p.now);
          if unanswered >= p.grace {
            EndMeasurement(id, p.stamps(id));
            ended := ended + [id];
          }
        }
        assert done + Elements(ids[..n + 1]) == before + {id};
      }
      assert ids[..|ids|] == ids;
    }

    /** The first loop: settle the rows with a heartbeat and gather the others by endpoint. */
    method SettleHeard(p: Pass, ids: seq<string>)
      returns (stale: seq<string>, endpoints: seq<string>, groups: map<string, seq<string>>)
      requires IsListing(rows, ids)
      modifies this
      ensures rows == Settled(old(rows), p, Heard(old(rows), p.cutoff, ids))
      ensures StaleIn(old(rows), p, Heard(old(rows), p.cutoff, ids), stale)
      ensures IsGrouping(old(rows), endpoints, groups, Unheard(old(rows), p.cutoff, ids))
    {
      ghost var t := rows;
      ghost var heard: set<string>, unheard: set<string> := {}, {};
      stale, endpoints, groups := [], [], map[];
      for n := 0 to |ids|
        invariant heard == Heard(t, p.cutoff, ids[..n]) && unheard == Unheard(t, p.cutoff, ids[..n])
        invariant rows == Settled(t, p, heard) && StaleIn(t, p, heard, stale)
        invariant IsGrouping(t, endpoints, groups, unheard)
      {
        var id := ids[n];
        OneMoreElement(ids, n);
        HeardOneMore(t, p.cutoff, ids, n);
        assert id in t && t[id].live && id !in heard && id !in unheard && rows[id] == t[id];
        var liveness := LivenessOf(rows[id], p.cutoff);
        if liveness.Unknown? {
          var url := rows[id].wsUrl;
          GroupOneMore(t, endpoints, groups, unheard, id);
          if url !in groups {
            endpoints := endpoints + [url];
          }
          groups := groups[url := (if url in groups then groups[url] else []) + [id]];
          unheard := unheard + {id};
        } else {
          SettleOne(t, p, heard, stale, id);
          if liveness.Beating? {
            NoteReachable(id);
          } else {
            EndMeasurement(id, p.stamps(id));
            stale := stale + [id];
          }
          heard := heard + {id};
        }
      }
      assert ids[..|ids|] == ids;
    }

    /** `reconcile_live_measurements`: settles every live row and returns those it ended.  `asked`
        records the probes, one entry for each attempt. */
    method ReconcileLiveMeasurements(timeout: int, retries: int, staleAfter: int, grace: int, now: int, clock: int,
                                     stamps: string -> int, probe: (string, nat) -> Option<set<string>>)
      returns (r: Result<seq<string>, Invalid>, asked: seq<string>)
      modifies this
      ensures r.Err? <==> CheckArguments(timeout, retries, staleAfter, grace).Some?
      ensures r.Err? ==> r.error == CheckArguments(timeout, retries, staleAfter, grace).value
      ensures r.Err? ==> rows == old(rows) && asked == []
      ensures r.Ok? <==> timeout > 0 && retries >= 1 && grace >= 0 && staleAfter >= 0
      ensures r == Err(TimeoutNotPositive) <==> timeout <= 0
      ensures r == Err(RetriesBelowOne) <==> timeout > 0 && retries < 1
      ensures r == Err(NegativeGrace) <==> timeout > 0 && retries >= 1 && grace < 0
      ensures r.Ok? ==>
                var p := Pass(now, clock - staleAfter, grace, retries, stamps, probe);
                && rows.Keys == old(rows).Keys
                && (forall id | id in r.value :: id in old(rows) && old(rows)[id].live)
                && forall id | id in old(rows) && old(rows)[id].live ::
                     Judged(p, id, old(rows)[id], id in r.value) && (id in r.value <==> !rows[id].live)
      ensures r.Ok? ==>
                var p := Pass(now, clock - staleAfter, grace, retries, stamps, probe);
                && rows == Reconciled(old(rows), p)
                && StaleIn(old(rows), p, old(rows).Keys, r.value)
                && forall url :: Count(asked, url) == if Asked(old(rows), p.cutoff, url) then Attempts(p, url, 0) else 0
    {
      asked := [];
      var invalid := CheckArguments(timeout, retries, staleAfter, grace);
      if invalid.Some? {
        return Err(invalid.value), asked;
      }
      ghost var t := rows;
      var p := Pass(now, clock - staleAfter, grace, retries, stamps, probe);
      var ids := ListLive();
      var stale, endpoints, groups := SettleHeard(p, ids);
      ghost var heard, unheard := Heard(t, p.cutoff, ids), Unheard(t, p.cutoff, ids);
      ghost var done := heard;
      for n := 0 to |endpoints|
        invariant done == heard + At(t, unheard, endpoints[..n])
        invariant rows == Settled(t, p, done) && StaleIn(t, p, done, stale)
        invariant AskedDuly(asked, p, endpoints[..n])
      {
        var url := endpoints[n];
        var advertised, attempts := AskEndpoint(p, url);
        AskedMore(asked, p, endpoints, n);
        asked := asked + Repeat(url, attempts);
        GroupRows(t, endpoints, groups, unheard, n);
        stale := SettleEndpoint(t, p, done, stale, groups[url], advertised);
        done := done + Elements(groups[url]);
      }
      assert endpoints[..|endpoints|] == endpoints;
      EndpointsAreAsked(t, p.cutoff, ids, endpoints, groups);
      AllSettled(t, p, done);
      forall id | id in t && t[id].live ensures Judged(p, id, t[id], Ends(p, id, t[id])) {
        PassDecides(t, p, id);
      }
      return Ok(stale), asked;
    }

    /** `cleanup_old_measurements` */
    method CleanupOldMeasurements(clock: int, days: int) returns (r: Result<nat, Invalid>)
      modifies this
      ensures r.Err? <==> days < 0
      ensures r.Err? ==> r == Err(NegativeDays) && rows == old(rows)
      ensures r.Ok? ==> rows == Cleaned(old(rows), clock - days * DAY) && r.value == |old(rows)| - |rows|
      ensures r.Ok? ==>
                forall id :: id in rows <==>
                  id in old(rows) && !(!old(rows)[id].live && old(rows)[id].endedAt.Some?
                                       && old(rows)[id].endedAt.value / 1_000_000
                                            < (clock - days * 86_400_000_000) / 1_000_000)
    {
      if days < 0 {
        return Err(NegativeDays);
      }
      var cutoff := clock - days * DAY;
      var kept := map id | id in rows && !Expired(rows[id], cutoff) :: rows[id];
      FewerRows(rows, kept);
      var deleted := |rows| - |kept|;
      rows := kept;
      return Ok(deleted);
    }

    /** `maintain_registry`: a pass, then the deletion of what expired.  A bad retention is only
        noticed after the pass has been made. */
    method MaintainRegistry(retentionDays: int, timeout: int, retries: int, staleAfter: int, grace: int,
                            now: int, clock: int, later: int,
                            stamps: string -> int, probe: (string, nat) -> Option<set<string>>)
      returns (r: Result<(seq<string>, nat), Invalid>)
      modifies this
      ensures CheckArguments(timeout, retries, staleAfter, grace).Some? ==>
                r == Err(CheckArguments(timeout, retries, staleAfter, grace).value) && rows == old(rows)
      ensures CheckArguments(timeout, retries, staleAfter, grace).None? ==>
                var p := Pass(now, clock - staleAfter, grace, retries, stamps, probe);
                if retentionDays < 0 then r == Err(NegativeDays) && rows == Reconciled(old(rows), p)
                else
                  && rows == Cleaned(Reconciled(old(rows), p), later - retentionDays * DAY)
                  && r.Ok? && StaleIn(old(rows), p, old(rows).Keys, r.value.0)
                  && r.value.1 == |old(rows)| - |rows|
      ensures r.Ok? <==> timeout > 0 && retries >= 1 && grace >= 0 && staleAfter >= 0 && retentionDays >= 0
      ensures r.Ok? ==> forall id | id in old(rows) && old(rows)[id].live ::
                Judged(Pass(now, clock - staleAfter, grace, retries, stamps, probe), id, old(rows)[id],
                       id in r.value.0)
    {
      var stale, asked := ReconcileLiveMeasurements(timeout, retries, staleAfter, grace, now, clock, stamps, probe);
      if stale.Err? {
        return Err(stale.error);
      }
      assert rows.Keys == old(rows).Keys;
      var deleted := CleanupOldMeasurements(later, retentionDays);
      if deleted.Err? {
        return Err(deleted.error);
      }
      return Ok((stale.value, deleted.value));
    }
  }

  lemma FewerRows(t: Table, kept: Table)
    requires forall id | id in kept :: id in t
    ensures |kept| <= |t|
  {
    assert kept.Keys <= t.Keys;
    var rest := t.Keys - kept.Keys;
    assert t.Keys == kept.Keys + rest;
    assert |t.Keys| == |kept.Keys| + |rest|;
  }
}
