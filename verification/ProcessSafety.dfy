/** What a process's own order of effects guarantees among all the others: its open
    publications stay live. */
module ProcessSafety {
  import opened Publication
  import opened Producer

  /** The move in the shared world that an effect of the process listening at `url` is. */
  predicate Matches(e: Effect, move: Publication.Move, url: string) {
    match e
    case Served(id) => move == Advertise(url, id)
    case Withdrawn(id) => move == Publication.Move.Withdraw(url, id)
    case Inserted(id, to) => to == url && InsertsRow(move, id, url)
    case Stamped(id) => BeatsFor(move, id)
    case RowEnded(id) => move.Transact? && move.op.End? && move.op.id == id
  }

  /** The effects happen among the moves, in order, at the positions `at`. */
  ghost predicate Embedded(trace: seq<Effect>, moves: seq<Publication.Move>, url: string, at: seq<nat>) {
    && |at| == |trace|
    && (forall k | 0 <= k < |at| :: at[k] < |moves| && Matches(trace[k], moves[at[k]], url))
    && (forall j, k | 0 <= j < k < |at| :: at[j] < at[k])
  }

  predicate Touches(move: Publication.Move, id: string, url: string) {
    || move == Publication.Move.Withdraw(url, id)
    || (move.Transact? && (move.op.Register? || move.op.End?) && move.op.id == id)
  }

  /** Only the process itself withdraws, inserts or ends under the identifier. */
  ghost predicate OwnsAlone(moves: seq<Publication.Move>, id: string, url: string, at: seq<nat>) {
    forall i | 0 <= i < |moves| && Touches(moves[i], id, url) :: i in at
  }

  lemma OpenIsLeftAlone(trace: seq<Effect>, moves: seq<Publication.Move>, url: string, at: seq<nat>, id: string, i: nat)
    requires Embedded(trace, moves, url, at) && OwnsAlone(moves, id, url, at) && OpenedAt(trace, id, i)
    ensures LeftAlone(moves, id, url, at[i] + 1, |moves|)
  {
    forall k | i < k < |at| ensures !Touches(moves[at[k]], id, url) {
      assert Matches(trace[k], moves[at[k]], url);
    }
    forall m | at[i] < m < |moves| ensures !Touches(moves[m], id, url) {
      if m in at {
        var k :| 0 <= k < |at| && at[k] == m;
        assert k > i;
      }
    }
    assert forall m | at[i] < m < |moves| :: moves[m] != Publication.Move.Withdraw(url, id);
  }

  lemma ServedBefore(trace: seq<Effect>, moves: seq<Publication.Move>, url: string, at: seq<nat>, id: string, i: nat)
    returns (j: nat)
    requires Embedded(trace, moves, url, at) && OwnsAlone(moves, id, url, at) && OpenedAt(trace, id, i)
             && WellOrdered(trace)
    ensures j < i && moves[at[j]] == Advertise(url, id)
    ensures forall m | at[j] <= m < at[i] :: moves[m] != Publication.Move.Withdraw(url, id)
  {
    j := InsertFollowsAdvertising(trace[..i], id);
    assert Matches(trace[j], moves[at[j]], url);
    forall k | j <= k < i ensures moves[at[k]] != Publication.Move.Withdraw(url, id) {
      assert Matches(trace[k], moves[at[k]], url) && trace[k] == trace[..i][k];
    }
    forall m | at[j] <= m < at[i] ensures moves[m] != Publication.Move.Withdraw(url, id) {
      if m in at {
        var k :| 0 <= k < |at| && at[k] == m;
        assert j <= k < i;
      } else {
        assert !Touches(moves[m], id, url);
      }
    }
  }

  /** Whatever passes any process makes, a measurement that its process has open -- inserted
      and not yet withdrawn -- is live and listed, if the process beats for it in time. */
  lemma OpenMeansLive(
    trace: seq<Effect>, worlds: seq<World>, moves: seq<Publication.Move>, url: string, at: seq<nat>, id: string, i: nat)
    requires Publication.IsRun(worlds, moves) && Embedded(trace, moves, url, at) && OwnsAlone(moves, id, url, at)
    requires WellOrdered(trace) && OpenedAt(trace, id, i)
    requires BeatsInTime(worlds, moves, id, at[i], |moves|)
    ensures var w := worlds[|moves|];
            && id in w.table && w.table[id].live && w.table[id].wsUrl == url && id in Listed(w, url)
  {
    OpenIsLeftAlone(trace, moves, url, at, id, i);
    var j := ServedBefore(trace, moves, url, at, id, i);
    assert Matches(trace[i], moves[at[i]], url);
    NotEndedBeforeClosing(worlds, moves, id, url, at[j], at[i], |moves|);
  }

  /** Whatever is registered with a process is live in the shared table, and listed by its
      endpoint, whatever passes any process makes, if the process beats for it in time. */
  lemma RegisteredMeansLive<D>(
    process: Process<D>, worlds: seq<World>, moves: seq<Publication.Move>, url: string, at: seq<nat>, id: string)
    requires process.Valid() && id in process.registrations
    requires Publication.IsRun(worlds, moves) && Embedded(process.trace, moves, url, at)
    requires OwnsAlone(moves, id, url, at)
    requires forall i: nat | OpenedAt(process.trace, id, i) :: BeatsInTime(worlds, moves, id, at[i], |moves|)
    ensures var w := worlds[|moves|];
            && id in w.table && w.table[id].live && w.table[id].wsUrl == url && id in Listed(w, url)
  {
    var i := OpenIsOpened(process.trace, id);
    OpenMeansLive(process.trace, worlds, moves, url, at, id, i);
  }

  /** After a close the process has withdrawn the measurement before it ended the row. */
  lemma EndFollowsWithdrawing(trace: seq<Effect>, id: string, i: nat, e: nat) returns (w: nat)
    requires WellOrdered(trace) && i < e < |trace|
    requires trace[i].Inserted? && trace[i].id == id && trace[e] == RowEnded(id)
    ensures i < w < e && trace[w] == Withdrawn(id)
  {
    assert trace[..e][..i] == trace[..i];
    w := WithdrawnBetween(trace[..e], id, i);
    assert trace[w] != trace[i];
  }

  lemma {:induction false} WithdrawnBetween(trace: seq<Effect>, id: string, i: nat) returns (w: nat)
    requires i < |trace| && Advertised(trace[..i], id) && !Advertised(trace, id)
    ensures i <= w < |trace| && trace[w] == Withdrawn(id)
    decreases |trace|
  {
    var front := trace[..|trace| - 1];
    if trace[|trace| - 1] == Withdrawn(id) {
      w := |trace| - 1;
    } else {
      assert !Advertised(front, id);
      assert i < |front|;
      assert front[..i] == trace[..i];
      w := WithdrawnBetween(front, id, i);
    }
  }
}
