/** What reconciling, retention and the miss stamps guarantee. */
module RegistryTheorems {
  import opened Wrappers
  import opened Registry

  /** Repeating a pass with the same clock and answers changes nothing and ends nothing. */
  lemma PassIsIdempotent(t: Table, p: Pass)
    ensures Reconciled(Reconciled(t, p), p) == Reconciled(t, p)
    ensures forall id | id in t :: !Ends(p, id, Reconciled(t, p)[id])
  {
    forall id | id in t
      ensures !Ends(p, id, Reconciled(t, p)[id]) && AfterPass(p, id, Reconciled(t, p)[id]) == Reconciled(t, p)[id]
    {
      var row := t[id];
      assert Reconciled(t, p)[id] == AfterPass(p, id, row);
    }
  }

  /** After a pass, being listed as live at its cutoff and being marked live are one, and only a
      silent endpoint of a row without a heartbeat leaves a miss stamp on a live row. */
  lemma LiveMeansListed(t: Table, p: Pass, id: string)
    requires id in t
    ensures Reconciled(t, p)[id].live ==> !LivenessOf(Reconciled(t, p)[id], p.cutoff).Stopped?
    ensures Reconciled(t, p)[id].live <==> t[id].live && !Ends(p, id, t[id])
    ensures !t[id].live ==> Reconciled(t, p)[id] == t[id]
    ensures Reconciled(t, p)[id].live ==>
              (Reconciled(t, p)[id].missedSince.Some? <==> t[id].lastSeen.None? && Answer(p, t[id].wsUrl, 0).None?)
  {
  }

  /** An endpoint answers within `retries` attempts or not at all, and the attempts stop at the
      first answer. */
  lemma {:induction false} AttemptsExact(p: Pass, url: string, from: nat)
    requires from <= p.retries
    ensures var n := Attempts(p, url, from);
            && from + n <= p.retries
            && (Answer(p, url, from).Some? ==> n > 0 && p.probe(url, from + n - 1) == Answer(p, url, from))
            && (Answer(p, url, from).None? ==> from + n == p.retries)
            && (forall k | from <= k < from + n - 1 :: p.probe(url, k).None?)
            && (Answer(p, url, from).None? ==> forall k | from <= k < p.retries :: p.probe(url, k).None?)
    decreases p.retries - from
  {
    if from < p.retries && p.probe(url, from).None? {
      AttemptsExact(p, url, from + 1);
    }
  }

  lemma {:induction false} AnswerFrom(p: Pass, url: string, from: nat)
    requires from <= p.retries && forall k | 0 <= k < from :: p.probe(url, k).None?
    ensures forall a :: Answer(p, url, from) == Some(a) <==> FirstAnswer(p, url, a)
    ensures Answer(p, url, from).None? <==> Silent(p, url)
    decreases p.retries - from
  {
    if from < p.retries {
      if p.probe(url, from).None? {
        AnswerFrom(p, url, from + 1);
      } else {
        assert FirstAnswer(p, url, p.probe(url, from).value);
      }
    }
  }

  /** Every live row is ended or kept as it must be, whatever else is in the table. */
  lemma PassDecides(t: Table, p: Pass, id: string)
    requires id in t && t[id].live
    ensures Reconciled(t, p).Keys == t.Keys
    ensures Judged(p, id, t[id], !Reconciled(t, p)[id].live)
    ensures Judged(p, id, t[id], Ends(p, id, t[id]))
  {
    AnswerFrom(p, t[id].wsUrl, 0);
  }

  /** Apart from that a pass writes nothing but the end stamp of a row it ends and the miss stamp
      of one it keeps: set by the first round without an answer, cleared by an answer or a beat. */
  lemma PassKeeps(t: Table, p: Pass, id: string)
    requires id in t
    ensures var row, after := t[id], Reconciled(t, p)[id];
            && after == row.(live := after.live, endedAt := after.endedAt, missedSince := after.missedSince)
            && after.endedAt == (if row.live && !after.live then Some(p.stamps(id)) else row.endedAt)
            && (!row.live ==> after == row)
            && (after.live && (row.lastSeen.Some? || !Silent(p, row.wsUrl)) ==> after.missedSince.None?)
            && (after.live && row.lastSeen.None? && Silent(p, row.wsUrl) ==>
                  after.missedSince == if row.missedSince.Some? then row.missedSince else Some(p.now))
  {
    AnswerFrom(p, t[id].wsUrl, 0);
  }

  /** What the deletion leaves: every row but the ended ones whose end, in whole seconds, lies
      before the cutoff. */
  lemma CleanedExactly(t: Table, cutoff: int, id: string)
    ensures id in Cleaned(t, cutoff) <==>
              id in t && (t[id].live || t[id].endedAt.None?
                          || t[id].endedAt.value / 1_000_000 >= cutoff / 1_000_000)
    ensures id in Cleaned(t, cutoff) ==> Cleaned(t, cutoff)[id] == t[id]
  {
  }

  /** A row that is ended, by its producer or by a pass, is gone after every cleanup whose cutoff is
      a second or more past the end stamp. */
  lemma EndedRowsGo(t: Table, p: Pass, id: string, at: int, cutoff: int)
    requires id in t
    ensures at + SECOND <= cutoff ==> id !in Cleaned(Ended(t, id, at), cutoff)
    ensures t[id].live && !Reconciled(t, p)[id].live && p.stamps(id) + SECOND <= cutoff ==>
              id !in Cleaned(Reconciled(t, p), cutoff)
  {
    DeletionBounds(Ended(t, id, at)[id], cutoff);
    PassKeeps(t, p, id);
    DeletionBounds(Reconciled(t, p)[id], cutoff);
  }

  /** With whole-second truncation every deleted row ended before the cutoff, and every row that
      ended at least one second before it is deleted. */
  lemma DeletionBounds(row: Row, cutoff: int)
    ensures Expired(row, cutoff) ==> !row.live && row.endedAt.Some? && row.endedAt.value < cutoff
    ensures !row.live && row.endedAt.Some? && row.endedAt.value + SECOND <= cutoff ==> Expired(row, cutoff)
    ensures !row.live && row.endedAt.Some? && row.endedAt.value < cutoff && !Expired(row, cutoff) ==>
              cutoff - row.endedAt.value < SECOND
  {
  }

  /** Maintenance deletes no live row, nor any row it just ended if the deletion comes within the
      retention of the end stamp; the rows it deletes were ended before the pass. */
  lemma MaintenanceKeeps(t: Table, p: Pass, later: int, days: nat, id: string)
    requires id in t
    ensures Reconciled(t, p)[id].live ==> id in Cleaned(Reconciled(t, p), later - days * DAY)
    ensures Ends(p, id, t[id]) && later - p.stamps(id) <= days * DAY ==>
            id in Cleaned(Reconciled(t, p), later - days * DAY)
    ensures id in Cleaned(Reconciled(t, p), later - days * DAY) ==>
              Cleaned(Reconciled(t, p), later - days * DAY)[id] == Reconciled(t, p)[id]
    ensures id !in Cleaned(Reconciled(t, p), later - days * DAY) && later - p.stamps(id) <= days * DAY ==> !t[id].live
  {
    DeletionBounds(Reconciled(t, p)[id], later - days * DAY);
  }
}
