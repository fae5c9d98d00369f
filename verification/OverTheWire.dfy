/** The following client of `EndToEnd`, with its answers encoded, framed, decoded and rebuilt. */
module OverTheWire {
  import opened Wrappers
  import opened SnapshotCache
  import opened Values
  import opened Datasets
  import opened Rows
  import opened Incremental
  import opened Framing
  import opened Payloads
  import opened WireTheorems
  import opened Deltas
  import opened EndToEnd
  import Copies
  import Merging

  ghost function Wire(text: Text, id: Id, source: Json): Channel {
    answer => Decoded(text, answer, id, source)
  }

  ghost predicate AllSendable(run: seq<Dataset>) {
    forall d | d in run :: Sendable(d)
  }

  /** The wire brings answers as they are, or not at all. */
  lemma WireIsFaithful(text: Text, id: Id, source: Json, run: seq<Dataset>)
    requires Lawful(text) && KeysDistinct(source) && AllSendable(run)
    ensures forall d | d in run :: WellFormed(d)
    ensures Faithful(Wire(text, id, source), run)
  {
    forall d | d in run ensures WellFormed(d) {
      assert Sendable(d);
    }
    forall d, since | d in run
      ensures Wire(text, id, source)(Respond(d, since)).Some? ==>
                Wire(text, id, source)(Respond(d, since)) == Some(Respond(d, since))
    {
      DecodedExactly(text, d, since, id, source);
    }
  }

  /** End to end over the wire: after every poll that was answered and decoded, the client's copy
      is the written rows, or all, of a state the run really had. */
  lemma EveryDecodedPollIsExact(
    worlds: seq<World>, moves: seq<Move>, id: Id, text: Text, source: Json, p: Provider, n: nat)
    requires Lawful(text) && KeysDistinct(source)
    requires IsHistory(worlds, moves, id, Wire(text, id, source)) && OneRun(moves, id, p) && n < |worlds|
    requires p in worlds[n].server.runs && AllSendable(worlds[n].server.runs[p]) && FrozenRun(worlds[n].server.runs[p])
    requires worlds[n].client.used.Some?
    ensures var c := worlds[n].client;
            && c.used.value in worlds[n].server.runs[p]
            && WellFormed(c.used.value)
            && Exact(c, c.used.value)
            && (c.rows.Some? ==>
                Merging.RowsAgree(c.copy.value, c.used.value, c.rows.value.dim, c.rows.value.rowsWritten))
            && if c.rows.None? || c.rows.value.rowsFrom == 0 then c.copy == c.used
               else Copies.DatasetRows(c.copy.value, c.used.value, c.rows.value.dim, 0, c.rows.value.rowsWritten)
  {
    WireIsFaithful(text, id, source, worlds[n].server.runs[p]);
    Copies.EveryCopyByPosition(worlds, moves, id, Wire(text, id, source), p, n);
    EveryPollIsExact(worlds, moves, id, Wire(text, id, source), p, n);
  }

  /** A poll is answered into the client's copy exactly when the header can be framed and the shapes
      of what is sent survive nesting, and otherwise leaves the client as it was.  When the shapes of
      the whole snapshot do, only an empty delta with nested complex rows is lost. */
  lemma PollArrivesExactly(text: Text, source: Json, c: Client, ds: Dataset)
    requires Lawful(text) && KeysDistinct(source) && Sendable(ds)
    ensures Serializable(Respond(ds, SinceRows(c)).dataset)
    ensures var answer := Respond(ds, SinceRows(c));
            Received(c, ds, Wire(text, c.id, source))
            == if |text.dumps(Header(PayloadOf(answer.dataset), answer.rows, c.id, source))| < LENGTH_LIMIT
                  && ShapesSurvive(answer.dataset)
               then Merged(c, ds, answer) else c.(pending := None)
    ensures ShapesSurvive(ds) ==>
              (ShapesSurvive(Respond(ds, SinceRows(c)).dataset)
               <==> !(NothingNew(ds, SinceRows(c)) && NestsRows(ds, AppendDim(ds).value)))
  {
    DecodedExactly(text, ds, SinceRows(c), c.id, source);
    if ShapesSurvive(ds) {
      AnswerShapesSurvive(ds, SinceRows(c));
    }
  }
}
