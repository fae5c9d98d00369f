/** The discovery registry: one row for each measurement identifier, and the operations that
    producers and consumers of any process run on it. */
module Registry {
  import opened Wrappers

  // Times count microseconds.
  const SECOND := 1_000_000
  const DAY := 86_400 * SECOND

  datatype Row = Row(
    fpath: string,
    wsUrl: string,
    wsPort: nat,
    live: bool,
    startedAt: int,
    endedAt: Option<int>,
    lastSeen: Option<int>,
    missedSince: Option<int>)

  type Table = map<string, Row>

  datatype Liveness = Unknown | Beating | Stopped

  function LivenessOf(row: Row, cutoff: int): Liveness {
    match row.lastSeen
    case None => Unknown
    case Some(seen) => if seen >= cutoff then Beating else Stopped
  }

  function Registered(t: Table, id: string, fpath: string, wsUrl: string, wsPort: nat, startedAt: int): Table {
    t[id := Row(fpath, wsUrl, wsPort, true, startedAt, None, None, None)]
  }

  function EndedRow(row: Row, at: int): Row {
    row.(live := false, endedAt := Some(at))
  }

  function Ended(t: Table, id: string, at: int): Table {
    if id in t then t[id := EndedRow(t[id], at)] else t
  }

  function Beaten(t: Table, id: string, at: int): Table {
    if id in t then t[id := t[id].(lastSeen := Some(at))] else t
  }

  function Moved(t: Table, id: string, fpath: string): Table {
    if id in t then t[id := t[id].(fpath := fpath)] else t
  }

  function Reached(t: Table, id: string): Table {
    if id in t then t[id := t[id].(missedSince := None)] else t
  }

  function Missed(t: Table, id: string, now: int): Table {
    if id in t && t[id].missedSince.None? then t[id := t[id].(missedSince := Some(now))] else t
  }

  function UnansweredFor(t: Table, id: string, now: int): int {
    if id in t && t[id].missedSince.Some? then now - t[id].missedSince.value else 0
  }

  /** The result of listing the live rows: every one once, newest first. */
  ghost predicate IsListing(t: Table, ids: seq<string>) {
    && (forall i, j | 0 <= i < j < |ids| :: ids[i] != ids[j])
    && (forall id :: id in ids <==> id in t && t[id].live)
    && (forall i, j | 0 <= i < j < |ids| :: t[ids[i]].startedAt >= t[ids[j]].startedAt)
  }

  /** What one reconcile pass is given and meets: its clock readings, its arguments, and what
      each attempt on each endpoint would answer.  `stamps` are the readings its end stamps take. */
  datatype Pass = Pass(
    now: int,
    cutoff: int,
    grace: nat,
    retries: nat,
    stamps: string -> int,
    probe: (string, nat) -> Option<set<string>>)

  /** The first answer among the attempts from `attempt` on. */
  function Answer(p: Pass, url: string, attempt: nat): Option<set<string>>
    decreases p.retries - attempt
  {
    if attempt >= p.retries then None
    else if p.probe(url, attempt).Some? then p.probe(url, attempt)
    else Answer(p, url, attempt + 1)
  }

  /** How many attempts are made from `attempt` on: up to the first answer. */
  function Attempts(p: Pass, url: string, attempt: nat): (n: nat)
    ensures n <= if attempt <= p.retries then p.retries - attempt else 0
    decreases p.retries - attempt
  {
    if attempt >= p.retries then 0
    else if p.probe(url, attempt).Some? then 1
    else 1 + Attempts(p, url, attempt + 1)
  }

  /** `a` is what the first attempt that is answered answers. */
  ghost predicate FirstAnswer(p: Pass, url: string, a: set<string>) {
    exists n | 0 <= n < p.retries :: p.probe(url, n) == Some(a) && forall k | 0 <= k < n :: p.probe(url, k).None?
  }

  ghost predicate Silent(p: Pass, url: string) {
    forall n | 0 <= n < p.retries :: p.probe(url, n).None?
  }

  /** When a live row must be ended: by its heartbeat if it has one, else by the first answer of its
      endpoint, else by the time since the first round it missed. */
  ghost predicate Judged(p: Pass, id: string, row: Row, ended: bool) {
    && (row.lastSeen.Some? ==> (ended <==> row.lastSeen.value < p.cutoff))
    && (row.lastSeen.None? ==> forall a | FirstAnswer(p, row.wsUrl, a) :: ended <==> id !in a)
    && (row.lastSeen.None? && Silent(p, row.wsUrl) && row.missedSince.Some? ==>
          (ended <==> p.now - row.missedSince.value >= p.grace))
    && (row.lastSeen.None? && Silent(p, row.wsUrl) && row.missedSince.None? ==> (ended <==> p.grace == 0))
  }

  /** Why a live row is ended, if it is. */
  predicate Ends(p: Pass, id: string, row: Row) {
    row.live
    && match LivenessOf(row, p.cutoff)
       case Beating => false
       case Stopped => true
       case Unknown =>
         match Answer(p, row.wsUrl, 0)
         case Some(advertised) => id !in advertised
         case None => (if row.missedSince.Some? then p.now - row.missedSince.value else 0) >= p.grace
  }

  /** The stamp of the first unanswered round that a live row carries after the pass. */
  function MissStamp(p: Pass, id: string, row: Row): Option<int> {
    match LivenessOf(row, p.cutoff)
    case Beating => None
    case Stopped => row.missedSince
    case Unknown =>
      match Answer(p, row.wsUrl, 0)
      case Some(advertised) => if id in advertised then None else row.missedSince
      case None => if row.missedSince.Some? then row.missedSince else Some(p.now)
  }

  function AfterPass(p: Pass, id: string, row: Row): Row {
    if !row.live then row
    else
      var noted := row.(missedSince := MissStamp(p, id, row));
      if Ends(p, id, row) then EndedRow(noted, p.stamps(id)) else noted
  }

  /** The table after a pass. */
  function Reconciled(t: Table, p: Pass): Table {
    map id | id in t :: AfterPass(p, id, t[id])
  }

  /** The pass so far has settled the rows `done`, and only those. */
  ghost function Settled(t: Table, p: Pass, done: set<string>): Table {
    map id | id in t :: if id in done then AfterPass(p, id, t[id]) else t[id]
  }

  /** `stale` lists the settled rows that were ended, each once. */
  ghost predicate StaleIn(t: Table, p: Pass, done: set<string>, stale: seq<string>) {
    && (forall i, j | 0 <= i < j < |stale| :: stale[i] != stale[j])
    && (forall id :: id in stale <==> id in done && id in t && Ends(p, id, t[id]))
  }

  lemma SettleOne(t: Table, p: Pass, done: set<string>, stale: seq<string>, id: string)
    requires StaleIn(t, p, done, stale) && id in t && id !in done
    ensures Settled(t, p, done + {id}) == Settled(t, p, done)[id := AfterPass(p, id, t[id])]
    ensures StaleIn(t, p, done + {id}, if Ends(p, id, t[id]) then stale + [id] else stale)
  {
  }

  lemma AllSettled(t: Table, p: Pass, done: set<string>)
    requires forall id | id in t && t[id].live :: id in done
    ensures Settled(t, p, done) == Reconciled(t, p)
  {
  }

  /** Ended rows that expired, by whole seconds. */
  predicate Expired(row: Row, cutoff: int) {
    !row.live && row.endedAt.Some? && row.endedAt.value / SECOND < cutoff / SECOND
  }

  function Cleaned(t: Table, cutoff: int): Table {
    map id | id in t && !Expired(t[id], cutoff) :: t[id]
  }

  datatype Invalid = TimeoutNotPositive | RetriesBelowOne | NegativeGrace | NegativeStaleAfter | NegativeDays

  /** Arguments are checked in this order. */
  function CheckArguments(timeout: int, retries: int, staleAfter: int, grace: int): Option<Invalid> {
    if timeout <= 0 then Some(TimeoutNotPositive)
    else if retries < 1 then Some(RetriesBelowOne)
    else if grace < 0 then Some(NegativeGrace)
    else if staleAfter < 0 then Some(NegativeStaleAfter)
    else None
  }
}
