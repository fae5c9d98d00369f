/** Publishing measurements: the order in which one process touches its registrations, the
    server's providers and the discovery registry. */
module Producer {
  import opened Wrappers
  import opened Registry
  import opened RegistryStore
  import SnapshotCache

  /** What a locked section does to the outside, in order. */
  datatype Effect =
    | Served(id: string)                // a provider is registered with the server
    | Withdrawn(id: string)             // it is removed
    | Inserted(id: string, url: string) // the discovery row is written
    | Stamped(id: string)               // a heartbeat
    | RowEnded(id: string)

  /** Whether the effects so far leave `id` served. */
  predicate Advertised(trace: seq<Effect>, id: string) {
    trace != []
    && var last := trace[|trace| - 1];
       if last == Served(id) then true
       else if last == Withdrawn(id) then false
       else Advertised(trace[..|trace| - 1], id)
  }

  /** Whether they leave a row inserted and neither withdrawn nor ended since. */
  predicate Open(trace: seq<Effect>, id: string) {
    trace != []
    && var last := trace[|trace| - 1];
       if last.id != id || last.Served? || last.Stamped? then Open(trace[..|trace| - 1], id) else last.Inserted?
  }

  /** Rows are inserted only while advertised and ended only when no longer so. */
  ghost predicate WellOrdered(trace: seq<Effect>) {
    forall i | 0 <= i < |trace| ::
      && (trace[i].Inserted? ==> Advertised(trace[..i], trace[i].id))
      && (trace[i].RowEnded? ==> !Advertised(trace[..i], trace[i].id))
  }

  /** A well-ordered trace that leaves exactly `served` advertised and `open` open. */
  ghost predicate Leaves(trace: seq<Effect>, served: set<string>, open: set<string>) {
    && WellOrdered(trace)
    && forall id :: (Advertised(trace, id) <==> id in served) && (Open(trace, id) <==> id in open)
  }

  function ServedAfter(served: set<string>, e: Effect): set<string> {
    if e.Served? then served + {e.id} else if e.Withdrawn? then served - {e.id} else served
  }

  function OpenAfter(open: set<string>, e: Effect): set<string> {
    if e.Inserted? then open + {e.id} else if e.Withdrawn? || e.RowEnded? then open - {e.id} else open
  }

  lemma OneMoreEffect(trace: seq<Effect>, served: set<string>, open: set<string>, e: Effect)
    requires Leaves(trace, served, open) && (e.Inserted? ==> e.id in served) && (e.RowEnded? ==> e.id !in served)
    ensures Leaves(trace + [e], ServedAfter(served, e), OpenAfter(open, e))
  {
    var longer := trace + [e];
    assert longer[..|trace|] == trace;
    forall i | 0 <= i < |trace| ensures longer[..i] == trace[..i] { }
  }

  /** A row is inserted after its measurement was advertised and before it is withdrawn. */
  lemma {:induction false} InsertFollowsAdvertising(trace: seq<Effect>, id: string) returns (j: nat)
    requires Advertised(trace, id)
    ensures j < |trace| && trace[j] == Served(id) && forall k | j < k < |trace| :: trace[k] != Withdrawn(id)
  {
    if trace[|trace| - 1] == Served(id) {
      j := |trace| - 1;
    } else {
      j := InsertFollowsAdvertising(trace[..|trace| - 1], id);
    }
  }

  /** `i` inserts the row of `id`, and nothing inserts, withdraws or ends it afterwards. */
  ghost predicate OpenedAt(trace: seq<Effect>, id: string, i: nat) {
    && i < |trace| && trace[i].Inserted? && trace[i].id == id
    && forall k | i < k < |trace| && trace[k].id == id :: trace[k].Served? || trace[k].Stamped?
  }

  lemma {:induction false} OpenIsOpened(trace: seq<Effect>, id: string) returns (i: nat)
    requires Open(trace, id)
    ensures OpenedAt(trace, id, i)
  {
    var last := trace[|trace| - 1];
    if last.id != id || last.Served? || last.Stamped? {
      i := OpenIsOpened(trace[..|trace| - 1], id);
    } else {
      i := |trace| - 1;
    }
  }

  function Decimal(n: nat): string {
    if n < 10 then ['0' + n as char] else Decimal(n / 10) + ['0' + (n % 10) as char]
  }

  function Url(host: string, port: nat): string {
    "ws://" + host + ":" + Decimal(port)
  }

  lemma {:induction false} DecimalsDiffer(m: nat, n: nat)
    ensures Decimal(m) == Decimal(n) <==> m == n
    ensures Decimal(n) != ""
  {
    if m >= 10 && n >= 10 {
      DecimalsDiffer(m / 10, n / 10);
      var a, b := Decimal(m / 10), Decimal(n / 10);
      assert Decimal(m)[..|a|] == a && Decimal(n)[..|b|] == b;
      assert Decimal(m)[|a|] == '0' + (m % 10) as char && Decimal(n)[|b|] == '0' + (n % 10) as char;
    } else if m >= 10 {
      DecimalsDiffer(m / 10, 0);
    } else if n >= 10 {
      DecimalsDiffer(0, n / 10);
    }
  }

  /** On one host the endpoints of different ports are different. */
  lemma PortsTellEndpointsApart(host: string, port: nat, other: nat)
    ensures Url(host, port) == Url(host, other) <==> port == other
  {
    DecimalsDiffer(port, other);
    var head := "ws://" + host + ":";
    assert Url(host, port) == head + Decimal(port) && Url(host, other) == head + Decimal(other);
    assert (head + Decimal(port))[|head|..] == Decimal(port) && (head + Decimal(other))[|head|..] == Decimal(other);
  }

  class Handle {
    const id: string
    const wsUrl: string
    const wsPort: nat
    var closed: bool

    constructor (id: string, wsUrl: string, wsPort: nat)
      ensures this.id == id && this.wsUrl == wsUrl && this.wsPort == wsPort && !closed
    {
      this.id, this.wsUrl, this.wsPort, closed := id, wsUrl, wsPort, false;
    }
  }

  datatype Failure = EndNotWritten | BlankIdentifier | ServerNotStarted | RowNotWritten | BeatNotWritten

  /** A maintenance pass's clock readings and what endpoints answer it. */
  datatype Sweep = Sweep(now: int, clock: int, later: int, stamps: string -> int,
      probe: (string, nat) -> Option<set<string>>)

  /** The table after maintenance with the default windows: fifteen seconds without a beat, sixty
      without an answer, two attempts.  A negative retention is noticed after the pass. */
  ghost function Swept(t: Table, retentionDays: int, sweep: Option<Sweep>): Table {
    match sweep
    case None => t
    case Some(s) =>
      var passed := Reconciled(t, Pass(s.now, s.clock - 15 * SECOND, 60 * SECOND, 2, s.stamps, s.probe));
      if retentionDays < 0 then passed else Cleaned(passed, s.later - retentionDays * DAY)
  }

  /** The tables differ at most in the row of `id`. */
  ghost predicate SameElsewhere(t: Table, u: Table, id: string) {
    forall other | other != id :: (other in t <==> other in u) && (other in t && other in u ==> t[other] == u[other])
  }

  lemma ElsewhereTwice(t: Table, u: Table, v: Table, id: string)
    requires SameElsewhere(t, u, id) && SameElsewhere(u, v, id)
    ensures SameElsewhere(t, v, id)
  {
  }

  lemma OwnRowOnly(t: Table, id: string, fpath: string, url: string, port: nat, startedAt: int, at: int)
    ensures SameElsewhere(t, Registered(t, id, fpath, url, port, startedAt), id)
    ensures SameElsewhere(t, Beaten(Registered(t, id, fpath, url, port, startedAt), id, at), id)
  {
  }

  /** What maintenance does to a row does not depend on any other. */
  lemma SweepsRowByRow(t: Table, u: Table, retentionDays: int, sweep: Option<Sweep>, id: string)
    requires SameElsewhere(t, u, id)
    ensures SameElsewhere(Swept(t, retentionDays, sweep), Swept(u, retentionDays, sweep), id)
  {
  }

  /** Maintenance leaves a live row live exactly if it has beaten within fifteen seconds, or if it
      has no beat and its endpoint lists it or has been silent for less than a minute. */
  lemma SweepDecides(t: Table, retentionDays: int, s: Sweep, id: string)
    requires id in t && t[id].live
    ensures var spared :=
              match t[id].lastSeen
              case Some(seen) => s.clock - seen <= 15_000_000
              case None =>
                match s.probe(t[id].wsUrl, 0)
                case Some(listed) => id in listed
                case None =>
                  match s.probe(t[id].wsUrl, 1)
                  case Some(listed) => id in listed
                  case None => t[id].missedSince.None? || s.now - t[id].missedSince.value < 60_000_000;
            var swept := Swept(t, retentionDays, Some(s));
            if spared then id in swept && swept[id].live else id in swept ==> !swept[id].live
  {
    var p := Pass(s.now, s.clock - 15 * SECOND, 60 * SECOND, 2, s.stamps, s.probe);
    assert Answer(p, t[id].wsUrl, 2).None?;
    assert Answer(p, t[id].wsUrl, 1) == s.probe(t[id].wsUrl, 1);
  }

  /** What the outside does during one registration: whether the registry takes each write,
      what a server start yields, and the clock. */
  datatype Outside = Outside(
    endWritten: bool,
    endedAt: int,
    sweep: Option<Sweep>,               // none if the registry cannot be swept
    started: Option<(string, nat)>,     // host and port of a server started now
    rowWritten: bool,
    startedAt: int,
    beatWritten: bool,
    beatAt: int)

  /** Why a publication fails: the first of these that applies. */
  ghost function FirstFailure(id: string, served: bool, beats: bool, o: Outside): Option<Failure> {
    if SnapshotCache.Blank(id) then Some(BlankIdentifier)
    else if !served then Some(ServerNotStarted)
    else if !o.rowWritten then Some(RowNotWritten)
    else if beats && !o.beatWritten then Some(BeatNotWritten)
    else None
  }

  lemma Overwritten<K, V>(m: map<K, V>, key: K, value: V)
    ensures (m - {key})[key := value] == m[key := value]
  {
  }

  function Cleared<D>(s: SnapshotCache.Server<D>, starts: bool): SnapshotCache.Server<D> {
    if starts then s.(cache := map[], locks := map[]) else s
  }

  class Process<D> {
    const server: SnapshotCache.LiveServer<D>
    const store: Store
    var registrations: map<string, Handle>
    var endpoint: Option<(string, nat)>   // where the server listens, once it runs
    ghost var handles: set<Handle>        // every handle made
    ghost var stuck: set<Handle>          // those whose closing failed to end the row
    ghost var trace: seq<Effect>

    predicate Current(h: Handle)
      reads this`registrations
    {
      h.id in registrations && registrations[h.id] == h
    }

    /** A handle is unclosed while it is the current one for its identifier, and otherwise only
        if closing it failed to end its row. */
    ghost predicate HandlesOk()
      reads this`registrations, this`handles, this`stuck, handles
    {
      && (forall id | id in registrations ::
            registrations[id] in handles && registrations[id].id == id && registrations[id] !in stuck)
      && stuck <= handles
      && (forall h | h in handles :: h.closed <==> !Current(h) && h !in stuck)
    }

    /** What holds whenever the registration lock is free: the registered identifiers are the
        served ones, and rows were only ever inserted while served and ended when no longer. */
    ghost predicate Valid()
      reads this, server, handles
    {
      HandlesOk() && registrations.Keys == server.providers.Keys
          && Leaves(trace, registrations.Keys, registrations.Keys)
    }

    constructor (server: SnapshotCache.LiveServer<D>, store: Store)
      requires server.providers == map[]
      ensures Valid() && this.server == server && this.store == store && registrations == map[] && handles == {}
    {
      this.server, this.store := server, store;
      registrations, endpoint, handles, stuck, trace := map[], None, {}, {}, [];
    }

    method Serve(id: string, p: SnapshotCache.Provider) returns (accepted: bool)
      requires HandlesOk()
      modifies server, this`trace
      ensures HandlesOk()
      ensures accepted ==> server.State() == SnapshotCache.Register(old(server.State()), id, p)
      ensures !accepted ==> server.State() == old(server.State())
      ensures trace == if accepted then old(trace) + [Served(id)] else old(trace)
      ensures accepted <==> !SnapshotCache.Blank(id)
    {
      accepted := server.RegisterSnapshotProvider(id, p);
      if accepted {
        trace := trace + [Served(id)];
      }
    }

    method Withdraw(id: string)
      requires HandlesOk()
      modifies server, this`trace
      ensures HandlesOk()
      ensures server.State() == SnapshotCache.Unregister(old(server.State()), id)
      ensures trace == old(trace) + [Withdrawn(id)]
    {
      server.UnregisterSnapshotProvider(id);
      trace := trace + [Withdrawn(id)];
    }

    method EndRow(id: string, at: int)
      requires HandlesOk()
      modifies store, this`trace
      ensures HandlesOk()
      ensures store.rows == Ended(old(store.rows), id, at)
      ensures trace == old(trace) + [RowEnded(id)]
    {
      store.EndMeasurement(id, at);
      trace := trace + [RowEnded(id)];
    }

    method InsertRow(id: string, fpath: string, url: string, port: nat, at: int)
      requires HandlesOk()
      modifies store, this`trace
      ensures HandlesOk()
      ensures store.rows == Registered(old(store.rows), id, fpath, url, port, at)
      ensures trace == old(trace) + [Inserted(id, url)]
    {
      store.RegisterMeasurement(id, fpath, url, port, at);
      trace := trace + [Inserted(id, url)];
    }

    method Stamp(id: string, at: int)
      requires HandlesOk()
      modifies store, this`trace
      ensures HandlesOk()
      ensures store.rows == Beaten(old(store.rows), id, at)
      ensures trace == old(trace) + [Stamped(id)]
    {
      store.Heartbeat(id, at);
      trace := trace + [Stamped(id)];
    }

    /** Until it is marked closed, a popped handle counts as stuck. */
    method Pop(h: Handle)
      requires HandlesOk() && Current(h)
      modifies this`registrations, this`stuck
      ensures HandlesOk()
      ensures registrations == old(registrations) - {h.id} && stuck == old(stuck) + {h}
    {
      registrations := registrations - {h.id};
      stuck := stuck + {h};
    }

    method MarkClosed(h: Handle)
      requires HandlesOk() && h in handles && !Current(h)
      modifies this`stuck, h`closed
      ensures HandlesOk()
      ensures h.closed && stuck == old(stuck) - {h}
    {
      stuck := stuck - {h};
      h.closed := true;
    }

    /** The locked section of `close`.  A late close of a replaced handle touches nothing of its
        successor; a failing end write leaves the handle unclosed though nothing is published. */
    method Close(h: Handle, endWritten: bool, endedAt: int) returns (closed: bool)
      requires Valid() && h in handles
      modifies this, server, store, h`closed
      ensures Valid()
      ensures handles == old(handles) && endpoint == old(endpoint)
      ensures closed == h.closed == (!old(Current(h)) || endWritten)
      ensures !old(Current(h)) ==>
                && registrations == old(registrations) && server.State() == old(server.State())
                && store.rows == old(store.rows) && trace == old(trace)
      ensures old(Current(h)) ==>
                && registrations == old(registrations) - {h.id}
                && server.State() == SnapshotCache.Unregister(old(server.State()), h.id)
                && store.rows == (if endWritten then Ended(old(store.rows), h.id, endedAt) else old(store.rows))
                && trace == old(trace) + [Withdrawn(h.id)] + if endWritten then [RowEnded(h.id)] else []
      ensures stuck == if closed then old(stuck) - {h} else old(stuck) + {h}
    {
      if Current(h) {
        Pop(h);
        OneMoreEffect(trace, old(registrations.Keys), old(registrations.Keys), Withdrawn(h.id));
        Withdraw(h.id);
        if !endWritten {
          return false;
        }
        OneMoreEffect(trace, registrations.Keys, registrations.Keys, RowEnded(h.id));
        EndRow(h.id, endedAt);
      }
      MarkClosed(h);
      return true;
    }

    /** Undo a `Serve` that nothing else has followed. */
    method TakeBack(id: string)
      requires HandlesOk() && id in server.providers
      requires Leaves(trace, server.providers.Keys, server.providers.Keys - {id})
      modifies server, this`trace
      ensures HandlesOk() && Leaves(trace, server.providers.Keys, server.providers.Keys)
      ensures server.State() == SnapshotCache.Unregister(old(server.State()), id)
      ensures trace == old(trace) + [Withdrawn(id)]
    {
      OneMoreEffect(trace, server.providers.Keys, server.providers.Keys - {id}, Withdrawn(id));
      Withdraw(id);
      assert server.providers.Keys == old(server.providers).Keys - {id};
    }

    /** `start_live_server`: if none runs, the cache and the locks are cleared before it starts,
        and stay cleared if it does not. */
    method StartServer(started: Option<(string, nat)>) returns (running: bool)
      requires HandlesOk()
      modifies server`cache, server`locks, this`endpoint
      ensures HandlesOk()
      ensures server.State() == Cleared(old(server.State()), old(endpoint).None?)
      ensures endpoint == if old(endpoint).Some? then old(endpoint) else started
      ensures running == endpoint.Some?
    {
      if endpoint.None? {
        server.ClearSnapshotCache();
        endpoint := started;
      }
      return endpoint.Some?;
    }

    /** Serve the measurement and start the server if need be; a failing start takes the provider
        back. */
    method Launch(id: string, p: SnapshotCache.Provider, started: Option<(string, nat)>)
      returns (failure: Option<Failure>)
      requires HandlesOk() && id !in server.providers && Leaves(trace, server.providers.Keys, server.providers.Keys)
      modifies server, this`trace, this`endpoint
      ensures HandlesOk() && old(trace) <= trace
      ensures endpoint == old(endpoint) || (old(endpoint).None? && endpoint == started)
      ensures var launched := Cleared(SnapshotCache.Register(old(server.State()), id, p), old(endpoint).None?);
              match failure
              case None =>
                && server.State() == launched && endpoint.Some? && !SnapshotCache.Blank(id)
                && endpoint == (if old(endpoint).Some? then old(endpoint) else started)
                && Leaves(trace, server.providers.Keys, old(server.providers).Keys)
              case Some(f) =>
                && server.providers == old(server.providers)
                && Leaves(trace, server.providers.Keys, server.providers.Keys)
                && match f
                   case BlankIdentifier =>
                     server.State() == old(server.State()) && SnapshotCache.Blank(id)
                   case ServerNotStarted =>
                     && server.State() == SnapshotCache.Unregister(launched, id) && !SnapshotCache.Blank(id)
                     && old(endpoint).None? && started.None?
                   case _ => false
    {
      ghost var before, ids := trace, server.providers.Keys;
      var accepted := Serve(id, p);
      if !accepted {
        return Some(BlankIdentifier);
      }
      OneMoreEffect(before, ids, ids, Served(id));
      var running := StartServer(started);
      if !running {
        TakeBack(id);
        return Some(ServerNotStarted);
      }
      return None;
    }

    /** Serve the measurement, start the server if need be and write the row, in this order; a
        failing write takes the provider back too. */
    method Announce(id: string, p: SnapshotCache.Provider, diskPath: string, o: Outside)
      returns (failure: Option<Failure>)
      requires HandlesOk() && id !in server.providers && Leaves(trace, server.providers.Keys, server.providers.Keys)
      modifies server, store, this`trace, this`endpoint
      ensures HandlesOk() && Leaves(trace, server.providers.Keys, server.providers.Keys)
      ensures old(trace) <= trace
      ensures var launched := Cleared(SnapshotCache.Register(old(server.State()), id, p), old(endpoint).None?);
              match failure
              case None =>
                && server.State() == launched && !SnapshotCache.Blank(id) && o.rowWritten
                && endpoint.Some? && endpoint == (if old(endpoint).Some? then old(endpoint) else o.started)
                && store.rows == Registered(old(store.rows), id, diskPath, Url(endpoint.value.0, endpoint.value.1),
                                            endpoint.value.1, o.startedAt)
              case Some(f) =>
                && store.rows == old(store.rows) && server.providers == old(server.providers)
                && match f
                   case BlankIdentifier =>
                     server.State() == old(server.State()) && SnapshotCache.Blank(id)
                   case ServerNotStarted =>
                     && server.State() == SnapshotCache.Unregister(launched, id) && !SnapshotCache.Blank(id)
                     && old(endpoint).None? && o.started.None?
                   case RowNotWritten =>
                     && server.State() == SnapshotCache.Unregister(launched, id) && !SnapshotCache.Blank(id)
                     && (old(endpoint).Some? || o.started.Some?) && !o.rowWritten
                   case _ => false
    {
      ghost var ids := server.providers.Keys;
      var failed := Launch(id, p, o.started);
      if failed.Some? {
        return failed;
      }
      var url := Url(endpoint.value.0, endpoint.value.1);
      if !o.rowWritten {
        TakeBack(id);
        return Some(RowNotWritten);
      }
      OneMoreEffect(trace, server.providers.Keys, ids, Inserted(id, url));
      InsertRow(id, diskPath, url, endpoint.value.1, o.startedAt);
      return None;
    }

    method FirstBeat(id: string, written: bool, at: int) returns (stamped: bool)
      requires Valid()
      modifies store, this`trace
      ensures Valid()
      ensures old(trace) <= trace
      ensures stamped == written && store.rows == if written then Beaten(old(store.rows), id, at) else old(store.rows)
    {
      if written {
        OneMoreEffect(trace, registrations.Keys, registrations.Keys, Stamped(id));
        Stamp(id, at);
      }
      return written;
    }

    /** Housekeeping before publishing; whatever it fails with is ignored. */
    method Maintain(retentionDays: int, sweep: Option<Sweep>)
      requires HandlesOk()
      modifies store
      ensures HandlesOk()
      ensures store.rows == Swept(old(store.rows), retentionDays, sweep)
    {
      if sweep.Some? {
        var s := sweep.value;
        var result := store.MaintainRegistry(retentionDays, SECOND, 2, 15 * SECOND, 60 * SECOND, s.now, s.clock,
            s.later, s.stamps, s.probe);
      }
    }

    /** Close what is published under the identifier, if anything is. */
    method Replace(id: string, endWritten: bool, endedAt: int) returns (free: bool)
      requires Valid()
      modifies this, server, store, handles
      ensures Valid() && handles == old(handles) && endpoint == old(endpoint)
      ensures registrations == old(registrations) - {id} && server.providers == old(server.providers) - {id}
      ensures old(trace) <= trace
      ensures store.rows == if id in old(registrations) && endWritten then Ended(old(store.rows), id, endedAt)
                            else old(store.rows)
      ensures free <==> !(id in old(registrations) && !endWritten)
      ensures stuck == old(stuck) + if id in old(registrations) && !endWritten then {old(registrations)[id]} else {}
    {
      free := true;
      if id in registrations {
        free := Close(registrations[id], endWritten, endedAt);
      }
    }

    /** Free the identifier, then sweep the registry if asked to. */
    method Prepare(id: string, maintain: bool, retentionDays: int, o: Outside) returns (free: bool)
      requires Valid()
      modifies this, server, store, handles
      ensures Valid() && handles == old(handles) && endpoint == old(endpoint)
      ensures registrations == old(registrations) - {id} && server.providers == old(server.providers) - {id}
      ensures old(trace) <= trace
      ensures free <==> !(id in old(registrations) && !o.endWritten)
      ensures stuck == old(stuck) + if id in old(registrations) && !o.endWritten then {old(registrations)[id]} else {}
      ensures SameElsewhere(if maintain && free then Swept(old(store.rows), retentionDays, o.sweep)
                            else old(store.rows), store.rows, id)
    {
      free := Replace(id, o.endWritten, o.endedAt);
      if free && maintain {
        SweepsRowByRow(old(store.rows), store.rows, retentionDays, o.sweep, id);
        Maintain(retentionDays, o.sweep);
      }
    }

    /** Make the handle the current one for its identifier. */
    method Adopt(id: string, url: string, port: nat) returns (h: Handle)
      requires HandlesOk() && id !in registrations
      modifies this`registrations, this`handles
      ensures HandlesOk()
      ensures fresh(h) && h.id == id && h.wsUrl == url && h.wsPort == port
      ensures registrations == old(registrations)[id := h] && handles == old(handles) + {h}
    {
      h := new Handle(id, url, port);
      registrations := registrations[id := h];
      handles := handles + {h};
    }

    /** The row a publication writes, and its first beat if there is one. */
    ghost predicate RowWritten(id: string, diskPath: string, beats: bool, o: Outside)
      reads this, store
    {
      && id in registrations && endpoint.Some? && registrations[id].wsUrl == Url(endpoint.value.0, endpoint.value.1)
      && id in store.rows
      && store.rows[id] == Row(diskPath, registrations[id].wsUrl, endpoint.value.1, true, o.startedAt, None,
                               if beats && o.beatWritten then Some(o.beatAt) else None, None)
    }

    /** Publish under a free identifier. */
    method Publish(id: string, p: SnapshotCache.Provider, diskPath: string, beats: bool, o: Outside)
      returns (r: Result<Handle, Failure>)
      requires Valid() && id !in registrations
      modifies this, server, store
      ensures Valid()
      ensures stuck == old(stuck) && old(trace) <= trace
      ensures r.Ok? || r.error == BeatNotWritten <==> id in registrations
      ensures id !in registrations ==> registrations == old(registrations) && handles == old(handles)
      ensures id in registrations ==>
                && fresh(registrations[id]) && registrations == old(registrations)[id := registrations[id]]
                && handles == old(handles) + {registrations[id]}
                && server.providers == old(server.providers)[id := p] && RowWritten(id, diskPath, beats, o)
      ensures SameElsewhere(old(store.rows), store.rows, id)
      ensures id !in registrations ==> store.rows == old(store.rows)
      ensures match FirstFailure(id, old(endpoint).Some? || o.started.Some?, beats, o)
              case None => id in registrations && r == Ok(registrations[id])
              case Some(f) => r == Err(f)
    {
      var failure := Announce(id, p, diskPath, o);
      if failure.Some? {
        return Err(failure.value);
      }
      OwnRowOnly(old(store.rows), id, diskPath, Url(endpoint.value.0, endpoint.value.1), endpoint.value.1,
                 o.startedAt, o.beatAt);
      var h := Adopt(id, Url(endpoint.value.0, endpoint.value.1), endpoint.value.1);
      if beats {
        var stamped := FirstBeat(id, o.beatWritten, o.beatAt);
        if !stamped {
          return Err(BeatNotWritten);
        }
      }
      return Ok(h);
    }

    /** The locked section of `register_live_measurement`.  A failing first beat leaves the
        publication open. */
    method Register(id: string, p: SnapshotCache.Provider, diskPath: string, maintain: bool, retentionDays: int,
                    beats: bool, o: Outside)
      returns (r: Result<Handle, Failure>)
      requires Valid()
      modifies this, server, store, handles
      ensures Valid()
      ensures stuck == old(stuck) + if id in old(registrations) && !o.endWritten then {old(registrations)[id]} else {}
      ensures old(trace) <= trace
      ensures r.Ok? || r.error == BeatNotWritten <==> id in registrations
      ensures id !in registrations ==> registrations == old(registrations) - {id} && handles == old(handles)
      ensures id in registrations ==>
                && fresh(registrations[id]) && registrations == old(registrations)[id := registrations[id]]
                && handles == old(handles) + {registrations[id]}
                && server.providers == old(server.providers)[id := p] && RowWritten(id, diskPath, beats, o)
      ensures SameElsewhere(if maintain && (id in old(registrations) ==> o.endWritten)
                            then Swept(old(store.rows), retentionDays, o.sweep) else old(store.rows),
                            store.rows, id)
      ensures if id in old(registrations) && !o.endWritten then r == Err(EndNotWritten)
              else match FirstFailure(id, old(endpoint).Some? || o.started.Some?, beats, o)
                   case None => id in registrations && r == Ok(registrations[id])
                   case Some(f) => r == Err(f)
    {
      var free := Prepare(id, maintain, retentionDays, o);
      if !free {
        return Err(EndNotWritten);
      }
      ghost var prepared := store.rows;
      r := Publish(id, p, diskPath, beats, o);
      ElsewhereTwice(if maintain then Swept(old(store.rows), retentionDays, o.sweep) else old(store.rows), prepared,
                     store.rows, id);
      if id in registrations {
        Overwritten(old(registrations), id, registrations[id]);
        Overwritten(old(server.providers), id, p);
      }
    }

    /** `get_live_registration` */
    method GetRegistration(id: string) returns (h: Option<Handle>)
      requires Valid()
      ensures h.Some? <==> id in registrations
      ensures h.Some? ==> h.value == registrations[id] && h.value in handles && !h.value.closed && h.value.id == id
    {
      h := if id in registrations then Some(registrations[id]) else None;
    }

    /** `close_live_measurement` with nothing between its lookup and its close. */
    method CloseById(id: string, endWritten: bool, endedAt: int) returns (found: bool, closed: bool)
      requires Valid()
      modifies this, server, store, handles
      ensures Valid() && handles == old(handles) && old(trace) <= trace
      ensures found <==> id in old(registrations)
      ensures id !in registrations && registrations == old(registrations) - {id}
      ensures closed <==> found && endWritten
      ensures stuck == old(stuck) + if found && !endWritten then {old(registrations)[id]} else {}
      ensures closed ==> old(registrations)[id].closed && store.rows == Ended(old(store.rows), id, endedAt)
    {
      var h := GetRegistration(id);
      if h.None? {
        return false, false;
      }
      closed := Close(h.value, endWritten, endedAt);
      return true, closed;
    }
  }

  /** A failing end write leaves a handle that is unclosed although it is no longer current. */
  method UnclosedYetNotCurrent() returns (process: Process<int>, h: Handle)
    ensures h in process.handles && !h.closed && !process.Current(h)
  {
    var server := new SnapshotCache.LiveServer<int>();
    var store := new Store();
    process := new Process(server, store);
    var o := Outside(true, 0, None, Some(("localhost", 8765)), true, 0, true, 0);
    var name := "a";
    assert !SnapshotCache.IsSpace(name[0]);
    assert !SnapshotCache.Blank(name);
    var r := process.Register(name, 1, "", false, 7, false, o);
    h := r.value;
    var closed := process.Close(h, false, 0);
  }

  /** One locked section some thread runs; handles are named by the order in which the threads got
      them, from a registration or a lookup. */
  datatype Call =
    | Open(id: string, provider: SnapshotCache.Provider, diskPath: string, maintain: bool, days: int, beats: bool,
        o: Outside)
    | Find(id: string)
    | CloseHandle(k: nat, endWritten: bool, endedAt: int)
    | CloseNamed(id: string, endWritten: bool, endedAt: int)

  predicate EndWritten(call: Call) {
    match call
    case Open(_, _, _, _, _, _, o) => o.endWritten
    case Find(_) => true
    case CloseHandle(_, endWritten, _) => endWritten
    case CloseNamed(_, endWritten, _) => endWritten
  }

  predicate AllEndsWritten(calls: seq<Call>) {
    forall i | 0 <= i < |calls| :: EndWritten(calls[i])
  }

  /** Any interleaving of locked sections, whatever starts and writes fail in them.  If only every
      end write succeeds, the unclosed handles are exactly the current ones. */
  method Interleave<D>(process: Process<D>, calls: seq<Call>) returns (got: seq<Handle>)
    requires process.Valid()
    modifies process, process.server, process.store, process.handles
    ensures process.Valid() && process.registrations.Keys == process.server.providers.Keys
    ensures forall h | h in got :: h in process.handles
    ensures old(process.trace) <= process.trace
    ensures AllEndsWritten(calls) ==> process.stuck <= old(process.stuck)
    ensures AllEndsWritten(calls) && old(process.stuck) == {} ==>
              forall h | h in process.handles :: !h.closed <==> process.Current(h)
  {
    got := [];
    for n := 0 to |calls|
      invariant process.Valid() && old(process.handles) <= process.handles
                && fresh(process.handles - old(process.handles))
      invariant forall h | h in got :: h in process.handles
      invariant old(process.trace) <= process.trace
      invariant AllEndsWritten(calls[..n]) ==> process.stuck <= old(process.stuck)
    {
      assert AllEndsWritten(calls[..n + 1]) ==> AllEndsWritten(calls[..n]) && EndWritten(calls[n]) by {
        assert forall i | 0 <= i < n :: calls[..n + 1][i] == calls[..n][i];
        assert calls[..n + 1][n] == calls[n];
      }
      match calls[n]
      case Open(id, provider, diskPath, maintain, days, beats, o) =>
        var r := process.Register(id, provider, diskPath, maintain, days, beats, o);
        if r.Ok? {
          got := got + [r.value];
        }
      case Find(id) =>
        var h := process.GetRegistration(id);
        if h.Some? {
          got := got + [h.value];
        }
      case CloseHandle(k, endWritten, endedAt) =>
        if k < |got| {
          var closed := process.Close(got[k], endWritten, endedAt);
        }
      case CloseNamed(id, endWritten, endedAt) =>
        var found, closed := process.CloseById(id, endWritten, endedAt);
    }
    assert calls[..|calls|] == calls;
  }
}
