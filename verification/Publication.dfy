/** A published measurement among processes that keep reconciling: it is not ended before it
    starts closing. */
module Publication {
  import opened Wrappers
  import opened Registry
  import opened Grace

  /** The shared table, what each endpoint lists, and the time. */
  datatype World = World(table: Table, listed: map<string, set<string>>, clock: int)

  datatype Move =
    | Tick(elapsed: nat)
    | Advertise(url: string, id: string)
    | Withdraw(url: string, id: string)
    | Transact(op: Op)

  function Listed(w: World, url: string): set<string> {
    if url in w.listed then w.listed[url] else {}
  }

  /** Passes and heartbeats read the clock, and an endpoint that answers lists what it has. */
  ghost predicate Truthful(w: World, op: Op) {
    match op
    case Reconcile(p) =>
      && p.now == w.clock && p.cutoff <= w.clock
      && forall url :: Answer(p, url, 0).Some? ==> Answer(p, url, 0).value == Listed(w, url)
    case Beat(_, at) => at == w.clock
    case _ => true
  }

  function Next(w: World, move: Move): World {
    match move
    case Tick(elapsed) => w.(clock := w.clock + elapsed)
    case Advertise(url, id) => w.(listed := w.listed[url := Listed(w, url) + {id}])
    case Withdraw(url, id) => w.(listed := w.listed[url := Listed(w, url) - {id}])
    case Transact(op) => w.(table := Apply(w.table, op))
  }

  ghost predicate IsRun(worlds: seq<World>, moves: seq<Move>) {
    && |worlds| == |moves| + 1
    && forall i | 0 <= i < |moves| ::
         worlds[i + 1] == Next(worlds[i], moves[i]) && (moves[i].Transact? ==> Truthful(worlds[i], moves[i].op))
  }

  predicate InsertsRow(move: Move, id: string, url: string) {
    move.Transact? && move.op.Register? && move.op.id == id && move.op.wsUrl == url
  }

  predicate BeatsFor(move: Move, id: string) {
    move.Transact? && move.op.Beat? && move.op.id == id
  }

  /** Nobody but a pass touches the publication from `lo` to `hi`, except to beat for it. */
  ghost predicate LeftAlone(moves: seq<Move>, id: string, url: string, lo: nat, hi: nat) {
    hi <= |moves| && forall i | lo <= i < hi ::
      && moves[i] != Withdraw(url, id)
      && (moves[i].Transact? ==>
          !(moves[i].op.End? && moves[i].op.id == id) && !(moves[i].op.Register? && moves[i].op.id == id))
  }

  /** The latest beat before `i` since the row was inserted at `ins`, if there has been one. */
  function LastBeat(moves: seq<Move>, id: string, ins: nat, i: nat): (k: Option<nat>)
    requires i <= |moves|
    ensures k.Some? ==> ins < k.value < i && BeatsFor(moves[k.value], id)
    decreases i
  {
    if i <= ins + 1 then None
    else if BeatsFor(moves[i - 1], id) then Some(i - 1)
    else LastBeat(moves, id, ins, i - 1)
  }

  /** No pass finds the publication overdue: the latest beat is within the pass's staleness
      window, and before the first beat the insert is within its grace. */
  ghost predicate BeatsInTime(worlds: seq<World>, moves: seq<Move>, id: string, ins: nat, hi: nat)
    requires IsRun(worlds, moves) && hi <= |moves|
  {
    forall i | ins < i < hi && moves[i].Transact? && moves[i].op.Reconcile? ::
      match LastBeat(moves, id, ins, i)
      case Some(k) => moves[i].op.p.cutoff <= worlds[k].clock
      case None => worlds[i].clock - worlds[ins].clock < moves[i].op.p.grace
  }

  /** Advertised, live, stamped by its latest beat, or else missed only since the insert. */
  ghost predicate Safe(worlds: seq<World>, moves: seq<Move>, id: string, url: string, ins: nat, n: nat)
    requires IsRun(worlds, moves) && ins < n < |worlds|
  {
    var w := worlds[n];
    && id in Listed(w, url)
    && id in w.table && w.table[id].live && w.table[id].wsUrl == url
    && match LastBeat(moves, id, ins, n)
       case Some(k) => w.table[id].lastSeen == Some(worlds[k].clock)
       case None =>
         w.table[id].lastSeen.None?
         && (w.table[id].missedSince.Some? ==> w.table[id].missedSince.value >= worlds[ins].clock)
  }

  lemma {:induction false} ClockAdvances(worlds: seq<World>, moves: seq<Move>, m: nat, n: nat)
    requires IsRun(worlds, moves) && m <= n < |worlds|
    ensures worlds[m].clock <= worlds[n].clock
  {
    if m < n {
      ClockAdvances(worlds, moves, m, n - 1);
    }
  }

  lemma {:induction false} StaysListed(worlds: seq<World>, moves: seq<Move>, id: string, url: string, adv: nat, n: nat)
    requires IsRun(worlds, moves) && adv < n < |worlds| && moves[adv] == Advertise(url, id)
    requires forall i | adv <= i < n :: moves[i] != Withdraw(url, id)
    ensures id in Listed(worlds[n], url)
  {
    if n > adv + 1 {
      StaysListed(worlds, moves, id, url, adv, n - 1);
    }
  }

  lemma StaysSafe(worlds: seq<World>, moves: seq<Move>, id: string, url: string, ins: nat, n: nat)
    requires IsRun(worlds, moves) && ins < n < |moves| && Safe(worlds, moves, id, url, ins, n)
    requires LeftAlone(moves, id, url, ins + 1, n + 1) && BeatsInTime(worlds, moves, id, ins, n + 1)
    ensures Safe(worlds, moves, id, url, ins, n + 1)
  {
    var w, move := worlds[n], moves[n];
    assert worlds[n + 1] == Next(w, move);
    ClockAdvances(worlds, moves, ins, n);
    if move.Transact? && move.op.Reconcile? {
      assert Truthful(w, move.op);
    }
  }

  /** A publication that is advertised before its row is inserted, left alone until it closes
      and beaten for in time is live and listed after every move, whatever passes any process
      makes. */
  lemma {:induction false} NotEndedBeforeClosing(
    worlds: seq<World>, moves: seq<Move>, id: string, url: string, adv: nat, ins: nat, n: nat)
    requires IsRun(worlds, moves) && adv < ins < n < |worlds|
    requires moves[adv] == Advertise(url, id) && InsertsRow(moves[ins], id, url)
    requires forall i | adv <= i < ins :: moves[i] != Withdraw(url, id)
    requires LeftAlone(moves, id, url, ins + 1, n) && BeatsInTime(worlds, moves, id, ins, n)
    ensures id in worlds[n].table && worlds[n].table[id].live && id in Listed(worlds[n], url)
    ensures Safe(worlds, moves, id, url, ins, n)
  {
    if n == ins + 1 {
      StaysListed(worlds, moves, id, url, adv, ins);
      assert worlds[n] == Next(worlds[ins], moves[ins]);
    } else {
      NotEndedBeforeClosing(worlds, moves, id, url, adv, ins, n - 1);
      StaysSafe(worlds, moves, id, url, ins, n - 1);
    }
  }

  /** Beats come at most `gap` apart, the first within less than `first` of the insert, and the
      latest is no older than `gap` when the window ends. */
  ghost predicate Punctual(worlds: seq<World>, moves: seq<Move>, id: string, ins: nat, hi: nat, gap: nat, first: nat)
    requires IsRun(worlds, moves) && hi <= |moves|
  {
    forall j | ins < j <= hi && (j == hi || BeatsFor(moves[j], id)) ::
      match LastBeat(moves, id, ins, j)
      case Some(k) => worlds[j].clock - worlds[k].clock <= gap
      case None => worlds[j].clock - worlds[ins].clock < first
  }

  /** Every pass in the window allows beats that far apart, and an insert that far ahead. */
  ghost predicate Allows(worlds: seq<World>, moves: seq<Move>, ins: nat, hi: nat, gap: nat, first: nat)
    requires IsRun(worlds, moves) && hi <= |moves|
  {
    forall i | ins < i < hi && moves[i].Transact? && moves[i].op.Reconcile? ::
      moves[i].op.p.cutoff <= worlds[i].clock - gap && first <= moves[i].op.p.grace
  }

  lemma {:induction false} NextBeat(moves: seq<Move>, id: string, ins: nat, i: nat, hi: nat) returns (j: nat)
    requires ins < i <= hi <= |moves|
    ensures i <= j <= hi && (j == hi || BeatsFor(moves[j], id))
    ensures LastBeat(moves, id, ins, j) == LastBeat(moves, id, ins, i)
    decreases hi - i
  {
    if i == hi || BeatsFor(moves[i], id) {
      j := i;
    } else {
      j := NextBeat(moves, id, ins, i + 1, hi);
    }
  }

  /** A punctual publication is beaten for in time at every pass that allows its gaps. */
  lemma PunctualMeansInTime(worlds: seq<World>, moves: seq<Move>, id: string, ins: nat, hi: nat, gap: nat, first: nat)
    requires IsRun(worlds, moves) && hi <= |moves|
    requires Punctual(worlds, moves, id, ins, hi, gap, first) && Allows(worlds, moves, ins, hi, gap, first)
    ensures BeatsInTime(worlds, moves, id, ins, hi)
  {
    forall i | ins < i < hi && moves[i].Transact? && moves[i].op.Reconcile?
      ensures match LastBeat(moves, id, ins, i)
              case Some(k) => moves[i].op.p.cutoff <= worlds[k].clock
              case None => worlds[i].clock - worlds[ins].clock < moves[i].op.p.grace
    {
      var j := NextBeat(moves, id, ins, i, hi);
      ClockAdvances(worlds, moves, i, j);
    }
  }

  /** Beating in time is also necessary: the first pass that finds the latest beat too old ends
      the publication. */
  lemma OverdueIsEnded(worlds: seq<World>, moves: seq<Move>, id: string, url: string, ins: nat, n: nat, k: nat)
    requires IsRun(worlds, moves) && ins < n < |moves| && Safe(worlds, moves, id, url, ins, n)
    requires LastBeat(moves, id, ins, n) == Some(k)
    requires moves[n].Transact? && moves[n].op.Reconcile? && worlds[k].clock < moves[n].op.p.cutoff
    ensures id in worlds[n + 1].table && !worlds[n + 1].table[id].live
  {
    assert worlds[n + 1] == Next(worlds[n], moves[n]);
  }

  /** The order matters: a row inserted before it is advertised can be ended by the first pass. */
  lemma InsertFirstIsUnsafe(id: string, url: string, port: nat) returns (worlds: seq<World>, moves: seq<Move>)
    ensures IsRun(worlds, moves) && |moves| == 3
    ensures InsertsRow(moves[0], id, url) && moves[2] == Advertise(url, id)
    ensures LeftAlone(moves, id, url, 1, 3) && BeatsInTime(worlds, moves, id, 0, 3)
    ensures id in worlds[3].table && !worlds[3].table[id].live
  {
    var p := Pass(0, 0, 60 * SECOND, 1, (_: string) => 0, (_: string, _: nat) => Some({}));
    moves := [Transact(Register(id, "", url, port, 0)), Transact(Reconcile(p)), Advertise(url, id)];
    var w0 := World(map[], map[], 0);
    var w1 := Next(w0, moves[0]);
    var w2 := Next(w1, moves[1]);
    worlds := [w0, w1, w2, Next(w2, moves[2])];
  }
}
