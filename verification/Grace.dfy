/** The grace of unanswering endpoints over whole runs: how long is counted, and from when. */
module Grace {
  import opened Wrappers
  import opened Registry

  /** One transaction of some process on the shared table; a pass is one of them. */
  datatype Op =
    | Register(id: string, fpath: string, wsUrl: string, wsPort: nat, startedAt: int)
    | End(id: string, at: int)
    | Beat(id: string, at: int)
    | Move(id: string, fpath: string)
    | Reconcile(p: Pass)
    | Clean(cutoff: int)

  function Apply(t: Table, op: Op): Table {
    match op
    case Register(id, fpath, wsUrl, wsPort, startedAt) => Registered(t, id, fpath, wsUrl, wsPort, startedAt)
    case End(id, at) => Ended(t, id, at)
    case Beat(id, at) => Beaten(t, id, at)
    case Move(id, fpath) => Moved(t, id, fpath)
    case Reconcile(p) => Reconciled(t, p)
    case Clean(cutoff) => Cleaned(t, cutoff)
  }

  ghost predicate IsRun(tables: seq<Table>, ops: seq<Op>) {
    && |tables| == |ops| + 1 && tables[0] == map[]
    && forall i | 0 <= i < |ops| :: tables[i + 1] == Apply(tables[i], ops[i])
  }

  /** A live row that has not had a heartbeat since it was registered. */
  predicate Waiting(t: Table, id: string) {
    id in t && t[id].live && t[id].lastSeen.None?
  }

  predicate FailedRound(op: Op, url: string) {
    op.Reconcile? && Answer(op.p, url, 0).None?
  }

  /** What starts the window anew: a registration, or a round the endpoint answers. */
  predicate Restarts(op: Op, id: string, url: string) {
    (op.Register? && op.id == id) || (op.Reconcile? && Answer(op.p, url, 0).Some?)
  }

  /** `from` is just past the latest restart before `n`. */
  ghost predicate SinceRestart(ops: seq<Op>, id: string, url: string, from: nat, n: nat) {
    && 0 < from <= n <= |ops| && Restarts(ops[from - 1], id, url)
    && forall i | from <= i < n :: !Restarts(ops[i], id, url)
  }

  /** `f` is the first failed round from `from` on, before `n`. */
  ghost predicate FirstFailure(ops: seq<Op>, url: string, from: nat, n: nat, f: nat) {
    && from <= f < n <= |ops| && FailedRound(ops[f], url)
    && forall i | from <= i < f :: !FailedRound(ops[i], url)
  }

  ghost predicate NoFailure(ops: seq<Op>, url: string, from: nat, n: nat) {
    n <= |ops| && forall i | from <= i < n :: !FailedRound(ops[i], url)
  }

  lemma WaitedBefore(t: Table, op: Op, id: string)
    requires Waiting(Apply(t, op), id)
    ensures (op.Register? && op.id == id) || (Waiting(t, id) && t[id].wsUrl == Apply(t, op)[id].wsUrl)
  {
  }

  /** For a live row with no heartbeat since registration, the miss stamp is the time of the
      first failed round since the latest registration or answering round, or unset when there
      has been none. */
  lemma {:induction false} MissStampIsFirstFailure(tables: seq<Table>, ops: seq<Op>, id: string, n: nat)
    returns (from: nat)
    requires IsRun(tables, ops) && n < |tables| && Waiting(tables[n], id)
    ensures SinceRestart(ops, id, tables[n][id].wsUrl, from, n)
    ensures tables[n][id].missedSince.None? <==> NoFailure(ops, tables[n][id].wsUrl, from, n)
    ensures tables[n][id].missedSince.Some? ==>
              exists f: nat :: FirstFailure(ops, tables[n][id].wsUrl, from, n, f)
                  && tables[n][id].missedSince == Some(ops[f].p.now)
  {
    var op, row, url := ops[n - 1], tables[n][id], tables[n][id].wsUrl;
    assert tables[n] == Apply(tables[n - 1], op);
    if Restarts(op, id, url) {
      if !(op.Register? && op.id == id) { WaitedBefore(tables[n - 1], op, id); }
      from := n;
    } else {
      WaitedBefore(tables[n - 1], op, id);
      from := MissStampIsFirstFailure(tables, ops, id, n - 1);
      var before := tables[n - 1][id].missedSince;
      if before.Some? {
        var f: nat :| FirstFailure(ops, url, from, n - 1, f) && before == Some(ops[f].p.now);
        assert FirstFailure(ops, url, from, n, f) && row.missedSince == before;
      } else if FailedRound(op, url) {
        assert FirstFailure(ops, url, from, n, n - 1) && row.missedSince == Some(op.p.now);
      }
    }
  }

  /** At a failed round such a row is ended exactly when the first failure since the latest
      restart -- this very round, if there was none before -- is at least the grace ago. */
  lemma UnreachableExactly(tables: seq<Table>, ops: seq<Op>, id: string, n: nat) returns (from: nat, f: nat)
    requires IsRun(tables, ops) && n < |ops| && Waiting(tables[n], id) && FailedRound(ops[n], tables[n][id].wsUrl)
    ensures SinceRestart(ops, id, tables[n][id].wsUrl, from, n)
    ensures FirstFailure(ops, tables[n][id].wsUrl, from, n + 1, f)
    ensures id in tables[n + 1] && (!tables[n + 1][id].live <==> ops[n].p.now - ops[f].p.now >= ops[n].p.grace)
  {
    from := MissStampIsFirstFailure(tables, ops, id, n);
    var url := tables[n][id].wsUrl;
    if tables[n][id].missedSince.Some? {
      f :| FirstFailure(ops, url, from, n, f) && tables[n][id].missedSince == Some(ops[f].p.now);
    } else {
      f := n;
    }
    assert tables[n + 1] == Apply(tables[n], ops[n]);
  }

  /** The failed rounds of the run read clocks that do not go back. */
  ghost predicate ClocksOrdered(ops: seq<Op>) {
    forall i, j | 0 <= i < j < |ops| && ops[i].Reconcile? && ops[j].Reconcile? :: ops[i].p.now <= ops[j].p.now
  }

  /** Two unanswered rounds a grace apart, with nothing in between to restart the window, end
      the row. */
  lemma TwoFailuresEnd(tables: seq<Table>, ops: seq<Op>, id: string, i: nat, j: nat)
    requires IsRun(tables, ops) && ClocksOrdered(ops) && i < j < |ops| && Waiting(tables[j], id)
    requires FailedRound(ops[i], tables[j][id].wsUrl) && FailedRound(ops[j], tables[j][id].wsUrl)
    requires forall k | i <= k < j :: !Restarts(ops[k], id, tables[j][id].wsUrl)
    requires ops[j].p.now - ops[i].p.now >= ops[j].p.grace
    ensures id in tables[j + 1] && !tables[j + 1][id].live
  {
    var from, f := UnreachableExactly(tables, ops, id, j);
    assert from <= i;
    assert f <= i;
  }

  /** One answer restarts the window: a failed round less than the grace after the answer does
      not end the row. */
  lemma AnswerRestarts(tables: seq<Table>, ops: seq<Op>, id: string, i: nat, j: nat)
    requires IsRun(tables, ops) && ClocksOrdered(ops) && i < j < |ops| && Waiting(tables[j], id)
    requires ops[i].Reconcile? && Restarts(ops[i], id, tables[j][id].wsUrl) && FailedRound(ops[j], tables[j][id].wsUrl)
    requires ops[j].p.now - ops[i].p.now < ops[j].p.grace
    ensures id in tables[j + 1] && tables[j + 1][id].live
  {
    var from, f := UnreachableExactly(tables, ops, id, j);
    assert i < from <= f;
  }
}
