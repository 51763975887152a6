/**
 Sweeps that overlap each other and the ticks: the scheduler's sweep and the ones that the sweep-now
 endpoint starts read their queues and settle their users in any interleaving.
*/
module OverlappingSweeps {
  import opened Prelude
  import opened Ledger
  import opened Payments
  import opened Metering
  import opened Sweeping

  /**
   A queued settlement. since counts what was ticked to its user from the moment on that the accumulator
   is known: from the reading of the queue, or, if another sweep has settled the user meanwhile, from there.
  */
  datatype Queued = Queued(due: Due, resettled: bool, since: int)

  /** The tables, and what each sweep still has in its queue. */
  datatype World = World(t: Tables, open: map<nat, seq<Queued>>)

  datatype Event =
    | Read(sweep: nat, queue: seq<Due>)
    | SettleNext(sweep: nat, rate: int, now: int, faults: Faults)
    | Charges(charge: Charge)

  ghost predicate Enabled(w: World, e: Event) {
    match e
    case Read(sweep, queue) => sweep !in w.open && ListsDue(w.t, queue)
    case SettleNext(sweep, _, _, _) => sweep in w.open && w.open[sweep] != []
    case Charges(_) => true
  }

  /** A tick of the user, as the pending settlements see it. */
  function AfterTick(p: Queued, charge: Charge): Queued {
    if p.due.user == charge.user then p.(since := p.since + charge.amount) else p
  }

  /** A committed settlement of the user, as the other pending settlements see it. */
  function AfterSettlement(p: Queued, user: string): Queued {
    if p.due.user == user then Queued(p.due, true, 0) else p
  }

  function Fresh(queue: seq<Due>): seq<Queued> {
    seq(|queue|, k requires 0 <= k < |queue| => Queued(queue[k], false, 0))
  }

  function TickedQueue(queue: seq<Queued>, charge: Charge): seq<Queued> {
    seq(|queue|, k requires 0 <= k < |queue| => AfterTick(queue[k], charge))
  }

  function SettledQueue(queue: seq<Queued>, user: string): seq<Queued> {
    seq(|queue|, k requires 0 <= k < |queue| => AfterSettlement(queue[k], user))
  }

  ghost function Next(w: World, e: Event): World
    requires Enabled(w, e)
  {
    match e
    case Read(sweep, queue) => w.(open := w.open[sweep := Fresh(queue)])
    case SettleNext(sweep, rate, now, faults) =>
      var due := w.open[sweep][0].due;
      var (t', r) := SettleOne(w.t, due, rate, now, faults);
      var rest := w.open[sweep := w.open[sweep][1..]];
      World(t', if r.Ok? then map s | s in rest :: SettledQueue(rest[s], due.user) else rest)
    case Charges(charge) =>
      World(AddCharge(w.t, charge.user, charge.amount, charge.now),
            map s | s in w.open :: TickedQueue(w.open[s], charge))
  }

  ghost predicate Happens(w: World, events: seq<Event>)
    decreases |events|
  {
    events == [] || (Enabled(w, events[0]) && Happens(Next(w, events[0]), events[1..]))
  }

  ghost function After(w: World, events: seq<Event>): World
    requires Happens(w, events)
    decreases |events|
  {
    if events == [] then w else After(Next(w, events[0]), events[1..])
  }

  /** The settlement at the head of the sweep's queue is the user's, and commits. */
  ghost predicate Settles(w: World, e: Event, user: string)
    requires Enabled(w, e)
  {
    && e.SettleNext?
    && w.open[e.sweep][0].due.user == user
    && SettleOne(w.t, w.open[e.sweep][0].due, e.rate, e.now, e.faults).1.Ok?
  }

  ghost function TickedTo(events: seq<Event>, user: string): int {
    if events == [] then 0
    else
      (if events[0].Charges? && events[0].charge.user == user then events[0].charge.amount else 0)
      + TickedTo(events[1..], user)
  }

  /** The amounts that committed settlements took although another sweep had settled the user since they were read. */
  ghost function DrainedAgain(w: World, events: seq<Event>, user: string): int
    requires Happens(w, events)
    decreases |events|
  {
    if events == [] then 0
    else
      (if Settles(w, events[0], user) && w.open[events[0].sweep][0].resettled then
         w.open[events[0].sweep][0].due.drained
       else 0)
      + DrainedAgain(Next(w, events[0]), events[1..], user)
  }

  /** The ticked charges that committed settlements wiped out unbilled. */
  ghost function WipedOut(w: World, events: seq<Event>, user: string): int
    requires Happens(w, events)
    decreases |events|
  {
    if events == [] then 0
    else
      (if Settles(w, events[0], user) then w.open[events[0].sweep][0].since else 0)
      + WipedOut(Next(w, events[0]), events[1..], user)
  }

  // ================================================================ what the queues know

  /** The accumulator holds what was read, unless another settlement emptied it, and what was ticked since. */
  ghost predicate Known(t: Tables, p: Queued) {
    Unbilled(t, p.due.user) == (if p.resettled then 0 else p.due.drained) + p.since
  }

  ghost predicate AllKnown(w: World) {
    forall s, k | s in w.open && 0 <= k < |w.open[s]| :: Known(w.t, w.open[s][k])
  }

  lemma ReadKeeps(w: World, e: Event)
    requires e.Read? && Enabled(w, e) && AllKnown(w)
    ensures AllKnown(Next(w, e))
  {
    var w' := Next(w, e);
    forall s, k | s in w'.open && 0 <= k < |w'.open[s]| ensures Known(w'.t, w'.open[s][k]) {
      if s == e.sweep {
        assert w'.open[s][k] == Queued(e.queue[k], false, 0);
      }
    }
  }

  lemma TickKeeps(w: World, e: Event)
    requires e.Charges? && Enabled(w, e) && AllKnown(w)
    ensures AllKnown(Next(w, e))
  {
    var w' := Next(w, e);
    forall s, k | s in w'.open && 0 <= k < |w'.open[s]| ensures Known(w'.t, w'.open[s][k]) {
      assert Known(w.t, w.open[s][k]);
      assert w'.open[s][k] == AfterTick(w.open[s][k], e.charge);
    }
  }

  lemma SettleKeeps(w: World, e: Event)
    requires e.SettleNext? && Enabled(w, e) && AllKnown(w)
    ensures AllKnown(Next(w, e))
  {
    var w' := Next(w, e);
    var due := w.open[e.sweep][0].due;
    var rest := w.open[e.sweep := w.open[e.sweep][1..]];
    var ok := SettleOne(w.t, due, e.rate, e.now, e.faults).1.Ok?;
    forall s, k | s in w'.open && 0 <= k < |w'.open[s]| ensures Known(w'.t, w'.open[s][k]) {
      var p := rest[s][k];
      assert p == w.open[s][if s == e.sweep then k + 1 else k];
      assert Known(w.t, p);
      assert w'.open[s][k] == if ok then AfterSettlement(p, due.user) else p;
      SettleOneMoves(w.t, due, e.rate, e.now, e.faults, p.due.user);
    }
  }

  lemma EventKeeps(w: World, e: Event)
    requires Enabled(w, e) && AllKnown(w)
    ensures AllKnown(Next(w, e))
  {
    match e
    case Read(_, _) => ReadKeeps(w, e);
    case SettleNext(_, _, _, _) => SettleKeeps(w, e);
    case Charges(_) => TickKeeps(w, e);
  }

  /** Unbilled plus drained moves by the tick, by a repeated amount, or by what a settlement wipes out. */
  lemma EventMoves(w: World, e: Event, user: string)
    requires Enabled(w, e) && AllKnown(w)
    ensures var t, t' := w.t, Next(w, e).t;
            Unbilled(t', user) + Drained(t'.ledger, user)
            == Unbilled(t, user) + Drained(t.ledger, user) + TickedTo([e], user)
               + (if Settles(w, e, user) then
                    var p := w.open[e.sweep][0];
                    (if p.resettled then p.due.drained else 0) - p.since
                  else 0)
    ensures Drift(Next(w, e).t, user) == Drift(w.t, user)
  {
    assert [e][1..] == [];
    match e
    case SettleNext(sweep, rate, now, faults) =>
      assert Known(w.t, w.open[sweep][0]);
      SettleOneMoves(w.t, w.open[sweep][0].due, rate, now, faults, user);
    case _ =>
  }

  /**
   However sweeps overlap each other and the ticks, everything ticked to a user is unbilled or drained, up
   to two exact amounts: what sweeps drained again after another had settled the user is charged on top,
   and what was ticked before a settlement and after its reading, or the last settlement, is lost.
  */
  lemma {:induction false} OverlapExact(w: World, events: seq<Event>, user: string)
    requires AllKnown(w) && Happens(w, events)
    ensures var t, t' := w.t, After(w, events).t;
            && Unbilled(t', user) + Drained(t'.ledger, user)
               == Unbilled(t, user) + Drained(t.ledger, user) + TickedTo(events, user)
                  + DrainedAgain(w, events, user) - WipedOut(w, events, user)
            && Drift(t', user) == Drift(t, user)
    decreases |events|
  {
    if events != [] {
      EventMoves(w, events[0], user);
      EventKeeps(w, events[0]);
      assert [events[0]][1..] == [];
      OverlapExact(Next(w, events[0]), events[1..], user);
    }
  }

  /** From any tables with no sweep under way. */
  lemma OverlappingSweepsExact(t: Tables, events: seq<Event>, user: string)
    requires Happens(World(t, map[]), events)
    ensures var w := World(t, map[]);
            var t' := After(w, events).t;
            Unbilled(t', user) + Drained(t'.ledger, user)
            == Unbilled(t, user) + Drained(t.ledger, user) + TickedTo(events, user)
               + DrainedAgain(w, events, user) - WipedOut(w, events, user)
  {
    OverlapExact(World(t, map[]), events, user);
  }

  /** Two sweeps that read the same queue before either settles both charge its first user the amount read. */
  lemma DrainedTwice(t: Tables, queue: seq<Due>, rate: int, now: int)
    requires ListsDue(t, queue) && queue != []
    ensures var user := queue[0].user;
            var w0 := Next(Next(World(t, map[]), Read(0, queue)), Read(1, queue));
            var w1 := Next(w0, SettleNext(0, rate, now, {}));
            && Enabled(w1, SettleNext(1, rate, now, {}))
            && var t' := Next(w1, SettleNext(1, rate, now, {})).t;
               && Unbilled(t', user) == 0
               && Balance(t', user) == Balance(t, user) - 2 * Unbilled(t, user)
  {
    var due := queue[0];
    var w0 := Next(Next(World(t, map[]), Read(0, queue)), Read(1, queue));
    assert w0.open[0][0].due == due && w0.open[1][0].due == due;
    SettleOneExact(t, due, rate, now, {});
    SettleOneMoves(t, due, rate, now, {}, due.user);
    var w1 := Next(w0, SettleNext(0, rate, now, {}));
    assert |w1.open[1]| == |queue| && w1.open[1][0] == AfterSettlement(w0.open[1][0], due.user);
    SettleOneExact(w1.t, due, rate, now, {});
    SettleOneMoves(w1.t, due, rate, now, {}, due.user);
  }

  /** One sweep at a time drains nothing again. */
  ghost predicate OneAtATime(w: World, events: seq<Event>)
    requires Happens(w, events)
    decreases |events|
  {
    events == [] ||
    (&& (events[0].Read? ==> forall s | s in w.open :: w.open[s] == [])
     && OneAtATime(Next(w, events[0]), events[1..]))
  }

  /** Distinct users, none of them settled by another sweep since the queue was read. */
  ghost predicate Single(queue: seq<Queued>) {
    && (forall k | 0 <= k < |queue| :: !queue[k].resettled)
    && forall j, k | 0 <= j < k < |queue| :: queue[j].due.user != queue[k].due.user
  }

  ghost predicate SingleQueue(w: World) {
    && (forall s | s in w.open :: Single(w.open[s]))
    && forall s, r | s in w.open && r in w.open && w.open[s] != [] && w.open[r] != [] :: s == r
  }

  lemma TickedStaysSingle(queue: seq<Queued>, charge: Charge)
    requires Single(queue)
    ensures Single(TickedQueue(queue, charge))
  {
  }

  /** The rest of the queue does not notice that its own head was settled. */
  lemma RestStaysSingle(queue: seq<Queued>)
    requires queue != [] && Single(queue)
    ensures Single(queue[1..]) && SettledQueue(queue[1..], queue[0].due.user) == queue[1..]
  {
    assert forall k | 0 <= k < |queue[1..]| :: queue[1..][k] == queue[k + 1];
  }

  lemma EventKeepsSingle(w: World, e: Event)
    requires Enabled(w, e) && SingleQueue(w)
    requires e.Read? ==> forall s | s in w.open :: w.open[s] == []
    ensures SingleQueue(Next(w, e))
  {
    var w' := Next(w, e);
    match e
    case Read(sweep, queue) =>
      assert Single(Fresh(queue));
      assert forall s | s in w'.open && s != sweep :: w'.open[s] == [];
    case Charges(charge) =>
      forall s | s in w'.open ensures Single(w'.open[s]) && |w'.open[s]| == |w.open[s]| {
        TickedStaysSingle(w.open[s], charge);
      }
    case SettleNext(sweep, _, _, _) =>
      RestStaysSingle(w.open[sweep]);
      forall s | s in w'.open ensures w'.open[s] == if s == sweep then w.open[s][1..] else [] {
        if s != sweep {
          assert w.open[s] == [];
        }
      }
  }

  lemma {:induction false} OneAtATimeDrainsOnce(w: World, events: seq<Event>, user: string)
    requires Happens(w, events) && OneAtATime(w, events) && SingleQueue(w)
    ensures DrainedAgain(w, events, user) == 0
    decreases |events|
  {
    if events != [] {
      EventKeepsSingle(w, events[0]);
      OneAtATimeDrainsOnce(Next(w, events[0]), events[1..], user);
    }
  }
}
