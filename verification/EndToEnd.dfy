/** One client following one measurement through the whole server: its polls interleave with
    every other request, with registrations, ticks, restarts and the run's own appends, and any
    answer may be lost. */
module EndToEnd {
  import opened Wrappers
  import opened SnapshotCache
  import opened CacheProtocol
  import opened Datasets
  import opened Rows
  import opened Incremental
  import opened Merging
  import Provenance = CacheProvenance

  /** The client keeps its copy and the row fields of the last answer; `used` is history: the
      snapshot that answer was served from. */
  datatype Client = Client(
    id: Id,
    pending: Option<ReqId>,
    copy: Option<Dataset>,
    rows: Option<RowFields>,
    used: Option<Dataset>)

  datatype World = World(server: State<Dataset>, client: Client)

  /** The way from the server's answer to what the client makes of the message, if anything. */
  type Channel = Answer -> Option<Answer>

  datatype Move =
    | Serve(step: Step<Dataset>)        // anything but this client
    | Poll(r: ReqId, loop: nat)
    | Receive                           // an answer, or the end of the wait for one
    | Lose                              // the connection fails

  /** A client asks from the rows it has, and for everything when it has none. */
  function SinceRows(c: Client): Option<nat> {
    if c.rows.Some? then Some(c.rows.value.rowsWritten) else None
  }

  ghost predicate MoveEnabled(w: World, move: Move) {
    match move
    case Serve(step) => Enabled(w.server, step)
    case Poll(r, loop) => w.client.pending.None? && Enabled(w.server, Admit(r, w.client.id, loop))
    case Lose => w.client.pending.Some?
    case Receive =>
      w.client.pending.Some? && w.client.pending.value in w.server.requests
      && match w.server.requests[w.client.pending.value].phase
         case Done(reply) => reply.Failed? || WellFormed(reply.built.dataset)
         case Abandoned => true
         case _ => false
  }

  /** The client with the answer it was served from `ds`. */
  function Merged(c: Client, ds: Dataset, answer: Answer): Client {
    c.(pending := None,
       copy := Some(if c.copy.Some? then Merge(c.copy.value, answer) else answer.dataset),
       rows := answer.rows,
       used := Some(ds))
  }

  function Received(c: Client, ds: Dataset, channel: Channel): Client
    requires WellFormed(ds)
  {
    match channel(Respond(ds, SinceRows(c)))
    case None => c.(pending := None)
    case Some(answer) => Merged(c, ds, answer)
  }

  function Moved(w: World, move: Move, channel: Channel): World
    requires MoveEnabled(w, move)
  {
    match move
    case Serve(step) => w.(server := Next(w.server, step))
    case Poll(r, loop) =>
      World(Next(w.server, Admit(r, w.client.id, loop)), w.client.(pending := Some(r)))
    case Receive =>
      var phase := w.server.requests[w.client.pending.value].phase;
      if phase.Abandoned? || phase.reply.Failed? then w.(client := w.client.(pending := None))
      else w.(client := Received(w.client, phase.reply.built.dataset, channel))
    case Lose => w.(client := w.client.(pending := None))
  }

  ghost predicate IsHistory(worlds: seq<World>, moves: seq<Move>, id: Id, channel: Channel) {
    && |worlds| == |moves| + 1
    && Initial(worlds[0].server) && worlds[0].client == Client(id, None, None, None, None)
    && forall i | 0 <= i < |moves| ::
         MoveEnabled(worlds[i], moves[i]) && worlds[i + 1] == Moved(worlds[i], moves[i], channel)
  }

  /** Whoever publishes `id` publishes the run of provider `p`. */
  ghost predicate OneRun(moves: seq<Move>, id: Id, p: Provider) {
    forall i | 0 <= i < |moves| && moves[i].Serve? && moves[i].step.Register? && moves[i].step.id == id ::
      moves[i].step.provider == p
  }

  /** Rows below the frontier of `d` are in `e` as they were, where both have rows at all. */
  ghost predicate Frozen(d: Dataset, e: Dataset)
    requires WellFormed(d)
  {
    AppendDim(d).Some? && Frontier(d, AppendDim(d).value) > 0 && AppendDim(e).Some? ==>
      AppendDim(d) == AppendDim(e) && RowsAgree(d, e, AppendDim(d).value, Frontier(d, AppendDim(d).value))
  }

  ghost predicate FrozenRun(run: seq<Dataset>) {
    && (forall i | 0 <= i < |run| :: WellFormed(run[i]))
    && (forall i, j | 0 <= i <= j < |run| :: Frozen(run[i], run[j]))
  }

  /** The channel brings answers about states of the run as they are, or not at all. */
  ghost predicate Faithful(channel: Channel, run: seq<Dataset>)
    requires forall d | d in run :: WellFormed(d)
  {
    forall d, since | d in run :: channel(Respond(d, since)).Some? ==>
        channel(Respond(d, since)) == Some(Respond(d, since))
  }

  /** The copy is the snapshot itself after a whole answer, and its written rows after an
      incremental one. */
  ghost predicate Exact(c: Client, ds: Dataset)
    requires WellFormed(ds)
  {
    match c.rows
    case None => AppendDim(ds).None? && c.copy == Some(ds)
    case Some(f) =>
      && AppendDim(ds) == Some(f.dim)
      && f.rowsWritten == Frontier(ds, f.dim) && f.rowsTotal == Size(ds, f.dim)
      && f.rowsFrom <= f.rowsWritten <= f.rowsTotal
      && Sliceable(ds, f.dim, f.rowsWritten)
      && c.copy == Some(if f.rowsFrom == 0 then ds else Isel(ds, f.dim, 0, f.rowsWritten))
  }

  lemma ExactRowsAgree(c: Client, ds: Dataset)
    requires WellFormed(ds) && c.rows.Some? && Exact(c, ds)
    ensures RowsAgree(c.copy.value, ds, c.rows.value.dim, c.rows.value.rowsWritten)
  {
    var f := c.rows.value;
    if f.rowsFrom == 0 {
      RowsAgreeSelf(ds, f.dim, f.rowsWritten);
    } else {
      HeadRowsAgree(ds, f.dim, f.rowsWritten);
    }
  }

  /** Rows held from one snapshot are rows of another that has at least as many written,
      whichever of the two is the older. */
  lemma HeldRowsAgree(run: seq<Dataset>, held: Dataset, ds: Dataset, dim: string, other: string)
    requires FrozenRun(run) && held in run && ds in run
    requires AppendDim(held) == Some(dim) && AppendDim(ds) == Some(other)
    requires 0 < Frontier(held, dim) <= Frontier(ds, other)
    ensures dim == other && RowsAgree(held, ds, dim, Frontier(held, dim))
  {
    var i :| 0 <= i < |run| && run[i] == held;
    var j :| 0 <= j < |run| && run[j] == ds;
    if i <= j {
      assert Frozen(run[i], run[j]);
    } else {
      assert Frozen(run[j], run[i]);
      RowsAgreeLess(ds, held, dim, Frontier(ds, dim), Frontier(held, dim));
      RowsAgreeSym(ds, held, dim, Frontier(held, dim));
    }
  }

  lemma AgreeMeansLayout(c: Dataset, d: Dataset, dim: string, n: nat)
    requires RowsAgree(c, d, dim, n)
    ensures SameLayouts(c.coords, d.coords, dim, n) && SameLayouts(c.dataVars, d.dataVars, dim, n)
  {
    assert forall i | 0 <= i < |d.coords| :: VarAgrees(c.coords[i], d.coords[i], dim, n);
    assert forall i | 0 <= i < |d.dataVars| :: VarAgrees(c.dataVars[i], d.dataVars[i], dim, n);
  }

  /** A whole answer leaves an exact copy. */
  lemma WholeAnswerExact(c: Client, ds: Dataset)
    requires WellFormed(ds)
    ensures Exact(Merged(c, ds, Answer(ds, FieldsOf(ds, 0))), ds)
  {
    if AppendDim(ds).Some? {
      var dim := AppendDim(ds).value;
      FrontierBounded(ds, dim);
      WholeIsSliceable(ds, dim, Frontier(ds, dim));
    }
  }

  /** So does the answer about any snapshot of the run, older or newer, to an exact copy. */
  lemma AnswerExact(run: seq<Dataset>, c: Client, ds: Dataset)
    requires FrozenRun(run) && ds in run && WellFormed(ds)
    requires c.used.None? ==> c.rows.None?
    requires c.used.Some? ==> c.used.value in run && WellFormed(c.used.value) && Exact(c, c.used.value)
    ensures Exact(Merged(c, ds, Respond(ds, SinceRows(c))), ds)
  {
    if c.rows.None? || c.rows.value.rowsWritten == 0 || Partial(ds, c.rows.value.rowsWritten).None? {
      WholeAnswerExact(c, ds);
    } else {
      var f, held, other := c.rows.value, c.used.value, AppendDim(ds).value;
      RowCountsOrdered(ds, f.rowsWritten);
      HeldRowsAgree(run, held, ds, f.dim, other);
      ExactRowsAgree(c, held);
      RowsAgreeTrans(c.copy.value, held, ds, f.dim, f.rowsWritten);
      AgreeMeansLayout(c.copy.value, ds, f.dim, f.rowsWritten);
      MergeExact(c.copy.value, ds, f.dim, f.rowsWritten);
      RespondsPartially(ds, f.dim, f.rowsWritten);
      FrontierBounded(ds, f.dim);
    }
  }

  /** Receiving an answer about any snapshot of the run leaves an exact copy of it, or, if nothing
      comes through, the client as it was.  Rows the client has are sent again only if it has more
      than the snapshot. */
  lemma ReceivedExact(run: seq<Dataset>, c: Client, ds: Dataset, channel: Channel)
    requires FrozenRun(run) && Faithful(channel, run) && ds in run && WellFormed(ds)
    requires c.used.None? ==> c.rows.None?
    requires c.used.Some? ==> c.used.value in run && WellFormed(c.used.value) && Exact(c, c.used.value)
    ensures var arrived := channel(Respond(ds, SinceRows(c))).Some?;
            if arrived then Received(c, ds, channel).used == Some(ds) && Exact(Received(c, ds, channel), ds)
            else Received(c, ds, channel) == c.(pending := None)
    ensures var after := Received(c, ds, channel);
            channel(Respond(ds, SinceRows(c))).Some? && c.rows.Some? && after.rows.Some? ==>
              after.rows.value.rowsFrom ==
                if c.rows.value.rowsWritten <= after.rows.value.rowsWritten then c.rows.value.rowsWritten else 0
  {
    AnswerExact(run, c, ds);
  }

  /** Every request for `id` holds provider `p`, and so does the registration. */
  ghost predicate OnlyProvider(s: State<Dataset>, id: Id, p: Provider) {
    && (id in s.server.providers ==> s.server.providers[id] == p)
    && forall r | r in s.requests && s.requests[r].id == id :: s.requests[r].provider == p
  }

  ghost predicate Inv(w: World, p: Provider, run: seq<Dataset>) {
    var c := w.client;
    && Provenance.Inv(w.server)
    && OnlyProvider(w.server, c.id, p)
    && (c.pending.Some? ==> c.pending.value in w.server.requests && w.server.requests[c.pending.value].id == c.id)
    && (c.used.None? ==> c.rows.None?)
    && (c.used.Some? ==> c.used.value in run && WellFormed(c.used.value) && Exact(c, c.used.value))
  }

  /** Every state of the run so far is a state of the whole run. */
  ghost predicate Part(s: State<Dataset>, p: Provider, run: seq<Dataset>) {
    forall d | p in s.runs && d in s.runs[p] :: d in run
  }

  lemma ServeKeeps(s: State<Dataset>, step: Step<Dataset>, id: Id, p: Provider)
    requires Enabled(s, step) && OnlyProvider(s, id, p)
    requires step.Register? && step.id == id ==> step.provider == p
    ensures OnlyProvider(Next(s, step), id, p)
    ensures forall r | r in s.requests ::
            r in Next(s, step).requests && Next(s, step).requests[r].id == s.requests[r].id
  {
    var t := Next(s, step);
    forall r | r in t.requests
      ensures r in s.requests ==> t.requests[r].id == s.requests[r].id
      ensures t.requests[r].id == id ==> t.requests[r].provider == p
    {
      if Actor(step) != Some(r) {
        OthersUntouched(s, step, r);
      } else if !step.Admit? {
        OwnRequest(s, step, r);
      }
    }
    forall r | r in s.requests ensures r in t.requests {
      if Actor(step) != Some(r) { OthersUntouched(s, step, r); } else { OwnRequest(s, step, r); }
    }
  }

  lemma InvKept(w: World, move: Move, p: Provider, run: seq<Dataset>, channel: Channel)
    requires MoveEnabled(w, move) && Inv(w, p, run) && FrozenRun(run) && Faithful(channel, run)
             && Part(w.server, p, run)
    requires move.Serve? && move.step.Register? && move.step.id == w.client.id ==> move.step.provider == p
    ensures Inv(Moved(w, move, channel), p, run) && Moved(w, move, channel).client.id == w.client.id
  {
    match move
    case Serve(step) =>
      Provenance.InvKept(w.server, step);
      ServeKeeps(w.server, step, w.client.id, p);
    case Poll(r, loop) =>
      Provenance.InvKept(w.server, Admit(r, w.client.id, loop));
      ServeKeeps(w.server, Admit(r, w.client.id, loop), w.client.id, p);
    case Receive => ReceiveKeeps(w, p, run, channel);
    case Lose =>
  }

  lemma ReplyInRun(s: State<Dataset>, r: ReqId, p: Provider, run: seq<Dataset>)
    requires Provenance.Inv(s) && Part(s, p, run) && r in s.requests && s.requests[r].provider == p
    requires s.requests[r].phase.Done? && !s.requests[r].phase.reply.Failed?
    ensures s.requests[r].phase.reply.built.dataset in run
  {
    assert Provenance.RequestOk(s, s.requests[r]);
  }

  lemma ReceiveKeeps(w: World, p: Provider, run: seq<Dataset>, channel: Channel)
    requires MoveEnabled(w, Receive) && Inv(w, p, run) && FrozenRun(run) && Faithful(channel, run)
             && Part(w.server, p, run)
    ensures Inv(Moved(w, Receive, channel), p, run)
  {
    var r := w.client.pending.value;
    if w.server.requests[r].phase.Done? && !w.server.requests[r].phase.reply.Failed? {
      ReplyInRun(w.server, r, p, run);
      ReceivedExact(run, w.client, w.server.requests[r].phase.reply.built.dataset, channel);
    }
  }

  lemma MoveGrows(w: World, move: Move, channel: Channel)
    requires MoveEnabled(w, move)
    ensures Provenance.Grows(w.server, Moved(w, move, channel).server)
  {
    match move
    case Serve(step) => Provenance.NextGrows(w.server, step);
    case Poll(r, loop) => Provenance.NextGrows(w.server, Admit(r, w.client.id, loop));
    case _ =>
  }

  ghost predicate Growing(worlds: seq<World>) {
    forall k | 0 < k < |worlds| :: Provenance.Grows(worlds[k - 1].server, worlds[k].server)
  }

  lemma HistoryGrows(worlds: seq<World>, moves: seq<Move>, id: Id, channel: Channel)
    requires IsHistory(worlds, moves, id, channel)
    ensures Growing(worlds)
  {
    forall k | 0 < k < |worlds| ensures Provenance.Grows(worlds[k - 1].server, worlds[k].server) {
      MoveGrows(worlds[k - 1], moves[k - 1], channel);
    }
  }

  lemma {:induction false} GrowsTo(worlds: seq<World>, m: nat, n: nat)
    requires Growing(worlds) && m <= n < |worlds|
    ensures Provenance.Grows(worlds[m].server, worlds[n].server)
  {
    if m < n {
      GrowsTo(worlds, m, n - 1);
      Provenance.GrowsTrans(worlds[m].server, worlds[n - 1].server, worlds[n].server);
    }
  }

  lemma {:induction false} InvAlways(
    worlds: seq<World>, moves: seq<Move>, id: Id, channel: Channel, p: Provider, run: seq<Dataset>, n: nat, last: nat)
    requires IsHistory(worlds, moves, id, channel) && OneRun(moves, id, p) && n <= last < |worlds|
    requires FrozenRun(run) && Faithful(channel, run) && Part(worlds[last].server, p, run)
    ensures Inv(worlds[n], p, run) && worlds[n].client.id == id
  {
    if n > 0 {
      InvAlways(worlds, moves, id, channel, p, run, n - 1, last);
      HistoryGrows(worlds, moves, id, channel);
      GrowsTo(worlds, n - 1, last);
      InvKept(worlds[n - 1], moves[n - 1], p, run, channel);
    }
  }

  /** End to end: after every answered poll the client's copy is, to the item, the written rows
      of the snapshot the server used -- or all of it -- and that snapshot is a state the run
      really had.  Rows below a frontier must stay as they are; successive snapshots need not
      grow. */
  lemma EveryPollIsExact(worlds: seq<World>, moves: seq<Move>, id: Id, channel: Channel, p: Provider, n: nat)
    requires IsHistory(worlds, moves, id, channel) && OneRun(moves, id, p) && n < |worlds|
    requires p in worlds[n].server.runs
    requires FrozenRun(worlds[n].server.runs[p]) && Faithful(channel, worlds[n].server.runs[p])
    requires worlds[n].client.used.Some?
    ensures var c := worlds[n].client;
            && c.used.value in worlds[n].server.runs[p]
            && WellFormed(c.used.value)
            && Exact(c, c.used.value)
            && (c.rows.Some? ==> RowsAgree(c.copy.value, c.used.value, c.rows.value.dim, c.rows.value.rowsWritten))
  {
    InvAlways(worlds, moves, id, channel, p, worlds[n].server.runs[p], n, n);
    if worlds[n].client.rows.Some? {
      ExactRowsAgree(worlds[n].client, worlds[n].client.used.value);
    }
  }
}
