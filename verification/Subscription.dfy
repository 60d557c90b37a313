/** Where the messages of a subscription go. The grain is reentrant: a turn runs until an await
    that really suspends, and the only such await on this path is the spool delay of a drain.
    So a state has any number of suspended drains, and every turn is one step. */
module Subscription {
  import opened Sequences
  import opened Wrappers

  datatype Message = Message(id: nat, timestamp: int)

  type LeaseKey = string

  /** The metadata the queues depend on: a subscription with a time to live and without a
      notify address. `spools` says that a spool rate is set. */
  datatype Config = Config(ttl: int, durable: bool, spools: bool)

  /** A drain keeps the rest of its snapshot; `thenDurable` says that the queue check goes on
      with the durable queue afterwards. */
  datatype Drain = Drain(pending: seq<Message>, thenDurable: bool)

  datatype Delivery = Delivery(message: Message, leases: set<LeaseKey>)

  datatype Drop = Drop(message: Message, at: int)

  /** The grain's queues and leases, whether the queue timer is armed, and what has happened to
      the messages that left the queues. */
  datatype Queues = Queues(leases: set<LeaseKey>, durable: seq<Message>, memory: seq<Message>, drains: seq<Drain>,
                           timerArmed: bool, arrived: seq<Message>, delivered: seq<Delivery>, dropped: seq<Drop>,
                           lost: seq<Message>)

  // ---- One notification ----

  /** The test of the purge loop. */
  predicate Stale(cfg: Config, m: Message, now: int) {
    m.timestamp + cfg.ttl < now
  }

  /** The test of the drain, which is not the negation of the purge's. */
  predicate Alive(cfg: Config, m: Message, now: int) {
    m.timestamp + cfg.ttl > now
  }

  function StalePrefix(cfg: Config, queue: seq<Message>, now: int): (k: nat)
    ensures k <= |queue|
    ensures forall i :: 0 <= i < k ==> queue[i].timestamp + cfg.ttl < now
    ensures k < |queue| ==> queue[k].timestamp + cfg.ttl >= now
  {
    if |queue| == 0 || !Stale(cfg, queue[0], now) then 0 else 1 + StalePrefix(cfg, queue[1..], now)
  }

  function DropsOf(ms: seq<Message>, now: int): (ds: seq<Drop>)
    ensures |ds| == |ms| && forall i :: 0 <= i < |ms| ==> ds[i] == Drop(ms[i], now)
  {
    seq(|ms|, i requires 0 <= i < |ms| => Drop(ms[i], now))
  }

  /** `NotifyAsync`: to the observers if there are any, else to a queue. When everything in a
      non-empty durable queue is stale the purge empties it and then fails on it, and the
      message is lost. */
  function Notified(cfg: Config, q: Queues, m: Message, now: int): (Queues, bool) {
    if q.leases != {} then
      (q.(delivered := q.delivered + [Delivery(m, q.leases)]), true)
    else if cfg.durable then
      var k := StalePrefix(cfg, q.durable, now);
      var purged := q.(durable := q.durable[k..], dropped := q.dropped + DropsOf(q.durable[..k], now));
      if k != 0 && k == |q.durable| then (purged.(lost := q.lost + [m]), false)
      else (purged.(durable := q.durable[k..] + [m], timerArmed := true), true)
    else (q.(memory := q.memory + [m], timerArmed := true), true)
  }

  // ---- Drains ----

  /** The rest of a drain's turn. It returns the drain as it suspends, or empty when it is over. */
  function Drained(cfg: Config, q: Queues, d: Drain, now: int): (Queues, Drain)
    decreases d.thenDurable, |d.pending|
  {
    if |d.pending| == 0 then
      if d.thenDurable then Drained(cfg, q.(durable := []), Drain(q.durable, false), now)
      else (q, Drain([], false))
    else
      var m, rest := d.pending[0], d.pending[1..];
      if !Alive(cfg, m, now) then
        Drained(cfg, q.(dropped := q.dropped + [Drop(m, now)]), Drain(rest, d.thenDurable), now)
      else
        var (q', ok) := Notified(cfg, q, m, now);
        if !ok then (q'.(lost := q'.lost + rest), Drain([], false))
        else if cfg.spools then (q', Drain(rest, d.thenDurable))
        else Drained(cfg, q', Drain(rest, d.thenDurable), now)
  }

  function Started(cfg: Config, q: Queues, d: Drain, now: int): Queues {
    var (q', d') := Drained(cfg, q, d, now); q'.(drains := q'.drains + [d'])
  }

  function DurableStarted(cfg: Config, q: Queues, now: int): Queues {
    Started(cfg, q.(durable := []), Drain(q.durable, false), now)
  }

  // ---- Turns ----

  datatype Turn =
    | Arrive(message: Message)
    | Activate
    | AddObserver(key: LeaseKey)
    | LoseObservers(keys: set<LeaseKey>)
    | CheckQueue
    | Resume(drain: nat)

  /** A queue check is a tick of the queue timer, so without the timer there is none; a tick
      that finds no observer disposes of the timer. */
  function Step(cfg: Config, q: Queues, turn: Turn, now: int): Queues {
    match turn
    case Arrive(m) => Notified(cfg, q.(arrived := q.arrived + [m]), m, now).0
    case Activate => DurableStarted(cfg, q, now)
    case AddObserver(k) => DurableStarted(cfg, q.(leases := q.leases + {k}), now)
    case LoseObservers(ks) => q.(leases := q.leases - ks)
    case CheckQueue =>
      if !q.timerArmed then q
      else if q.leases == {} then q.(timerArmed := false)
      else Started(cfg, q.(memory := []), Drain(q.memory, true), now)
    case Resume(i) =>
      if i >= |q.drains| then q
      else
        var (q', d) := Drained(cfg, q.(drains := q.drains[i := Drain([], false)]), q.drains[i], now);
        if i < |q'.drains| then q'.(drains := q'.drains[i := d]) else q'
  }

  function Run(cfg: Config, q: Queues, turns: seq<(Turn, int)>): Queues
    decreases |turns|
  {
    if |turns| == 0 then q else Run(cfg, Step(cfg, q, turns[0].0, turns[0].1), turns[1..])
  }

  const Empty := Queues({}, [], [], [], false, [], [], [], [])

  // ---- Conservation ----

  function Times(ms: seq<Message>, x: Message): nat {
    if |ms| == 0 then 0 else (if ms[0] == x then 1 else 0) + Times(ms[1..], x)
  }

  function PendingTimes(ds: seq<Drain>, x: Message): nat {
    if |ds| == 0 then 0 else Times(ds[0].pending, x) + PendingTimes(ds[1..], x)
  }

  function DeliveredTimes(ds: seq<Delivery>, x: Message): nat {
    if |ds| == 0 then 0 else (if ds[0].message == x then 1 else 0) + DeliveredTimes(ds[1..], x)
  }

  function DroppedTimes(ds: seq<Drop>, x: Message): nat {
    if |ds| == 0 then 0 else (if ds[0].message == x then 1 else 0) + DroppedTimes(ds[1..], x)
  }

  /** How often x is found, over every place a message that has arrived can be in. */
  function Found(q: Queues, x: Message): nat {
    Times(q.durable, x) + Times(q.memory, x) + PendingTimes(q.drains, x)
    + DeliveredTimes(q.delivered, x) + DroppedTimes(q.dropped, x) + Times(q.lost, x)
  }

  /** Each message that arrived is in exactly one place, once for each time it arrived. */
  predicate Conserved(q: Queues, x: Message) {
    Times(q.arrived, x) == Found(q, x)
  }

  /** Messages are dropped only when their time is over, and delivered to somebody. */
  predicate Accountable(cfg: Config, q: Queues) {
    && (forall d <- q.dropped :: d.message.timestamp + cfg.ttl <= d.at)
    && (forall d <- q.delivered :: d.leases != {})
  }

  lemma {:induction false} TimesConcat(a: seq<Message>, b: seq<Message>, x: Message)
    ensures Times(a + b, x) == Times(a, x) + Times(b, x)
  {
    if |a| == 0 {
      assert a + b == b;
    } else {
      assert (a + b)[1..] == a[1..] + b;
      TimesConcat(a[1..], b, x);
    }
  }

  lemma {:induction false} DeliveredAppend(ds: seq<Delivery>, d: Delivery, x: Message)
    ensures DeliveredTimes(ds + [d], x) == DeliveredTimes(ds, x) + (if d.message == x then 1 else 0)
  {
    if |ds| == 0 {
      assert ds + [d] == [d];
    } else {
      assert (ds + [d])[1..] == ds[1..] + [d];
      DeliveredAppend(ds[1..], d, x);
    }
  }

  lemma {:induction false} DroppedConcat(a: seq<Drop>, b: seq<Drop>, x: Message)
    ensures DroppedTimes(a + b, x) == DroppedTimes(a, x) + DroppedTimes(b, x)
  {
    if |a| == 0 {
      assert a + b == b;
    } else {
      assert (a + b)[1..] == a[1..] + b;
      DroppedConcat(a[1..], b, x);
    }
  }

  lemma {:induction false} DropsOfTimes(ms: seq<Message>, now: int, x: Message)
    ensures DroppedTimes(DropsOf(ms, now), x) == Times(ms, x)
  {
    if |ms| != 0 {
      assert DropsOf(ms, now)[1..] == DropsOf(ms[1..], now);
      DropsOfTimes(ms[1..], now, x);
    }
  }

  lemma {:induction false} PendingUpdate(ds: seq<Drain>, i: nat, d: Drain, x: Message)
    requires i < |ds|
    ensures PendingTimes(ds[i := d], x) + Times(ds[i].pending, x) == PendingTimes(ds, x) + Times(d.pending, x)
  {
    if i == 0 {
      assert ds[i := d][1..] == ds[1..];
    } else {
      assert ds[i := d][1..] == ds[1..][i - 1 := d];
      PendingUpdate(ds[1..], i - 1, d, x);
    }
  }

  lemma {:induction false} PendingAppend(ds: seq<Drain>, d: Drain, x: Message)
    ensures PendingTimes(ds + [d], x) == PendingTimes(ds, x) + Times(d.pending, x)
  {
    if |ds| == 0 {
      assert ds + [d] == [d];
    } else {
      assert (ds + [d])[1..] == ds[1..] + [d];
      PendingAppend(ds[1..], d, x);
    }
  }

  predicate SameContext(a: Queues, b: Queues) {
    a.drains == b.drains && a.arrived == b.arrived && a.leases == b.leases
  }

  /** Purged messages are the ones dropped. */
  lemma PurgeConserves(q: Queues, k: nat, now: int, x: Message)
    requires k <= |q.durable|
    ensures Times(q.durable[k..], x) + DroppedTimes(q.dropped + DropsOf(q.durable[..k], now), x)
         == Times(q.durable, x) + DroppedTimes(q.dropped, x)
  {
    var stale, kept := q.durable[..k], q.durable[k..];
    DroppedConcat(q.dropped, DropsOf(stale, now), x);
    DropsOfTimes(stale, now, x);
    TimesConcat(stale, kept, x);
    assert q.durable == stale + kept;
  }

  /** A notification puts its message in exactly one place and moves others only to `dropped`. */
  lemma NotifiedConserves(cfg: Config, q: Queues, m: Message, now: int, x: Message)
    ensures Found(Notified(cfg, q, m, now).0, x) == Found(q, x) + Times([m], x)
    ensures SameContext(Notified(cfg, q, m, now).0, q)
    ensures Accountable(cfg, q) ==> Accountable(cfg, Notified(cfg, q, m, now).0)
  {
    if q.leases != {} {
      DeliveredAppend(q.delivered, Delivery(m, q.leases), x);
    } else if cfg.durable {
      var k := StalePrefix(cfg, q.durable, now);
      PurgeConserves(q, k, now, x);
      TimesConcat(q.lost, [m], x);
      TimesConcat(q.durable[k..], [m], x);
    } else {
      TimesConcat(q.memory, [m], x);
    }
  }

  lemma {:induction false} DrainedConserves(cfg: Config, q: Queues, d: Drain, now: int, x: Message)
    ensures Found(Drained(cfg, q, d, now).0, x) + Times(Drained(cfg, q, d, now).1.pending, x)
         == Found(q, x) + Times(d.pending, x)
    ensures SameContext(Drained(cfg, q, d, now).0, q)
    ensures Accountable(cfg, q) ==> Accountable(cfg, Drained(cfg, q, d, now).0)
    decreases d.thenDurable, |d.pending|
  {
    if |d.pending| == 0 {
      if d.thenDurable {
        DrainedConserves(cfg, q.(durable := []), Drain(q.durable, false), now, x);
      }
    } else {
      var m, rest := d.pending[0], d.pending[1..];
      TimesConcat([m], rest, x);
      assert d.pending == [m] + rest;
      if !Alive(cfg, m, now) {
        var q' := q.(dropped := q.dropped + [Drop(m, now)]);
        DroppedConcat(q.dropped, [Drop(m, now)], x);
        DrainedConserves(cfg, q', Drain(rest, d.thenDurable), now, x);
      } else {
        NotifiedConserves(cfg, q, m, now, x);
        var (q', ok) := Notified(cfg, q, m, now);
        TimesConcat(q'.lost, rest, x);
        if ok && !cfg.spools {
          DrainedConserves(cfg, q', Drain(rest, d.thenDurable), now, x);
        }
      }
    }
  }

  lemma StartedConserves(cfg: Config, q: Queues, d: Drain, now: int, x: Message)
    ensures Found(Started(cfg, q, d, now), x) == Found(q, x) + Times(d.pending, x)
    ensures Started(cfg, q, d, now).arrived == q.arrived
    ensures Accountable(cfg, q) ==> Accountable(cfg, Started(cfg, q, d, now))
  {
    DrainedConserves(cfg, q, d, now, x);
    var (q', d') := Drained(cfg, q, d, now);
    PendingAppend(q'.drains, d', x);
  }

  lemma ResumeConserves(cfg: Config, q: Queues, i: nat, now: int, x: Message)
    requires i < |q.drains|
    ensures Found(Step(cfg, q, Resume(i), now), x) == Found(q, x)
    ensures Step(cfg, q, Resume(i), now).arrived == q.arrived
    ensures Accountable(cfg, q) ==> Accountable(cfg, Step(cfg, q, Resume(i), now))
  {
    var resumed := q.(drains := q.drains[i := Drain([], false)]);
    PendingUpdate(q.drains, i, Drain([], false), x);
    DrainedConserves(cfg, resumed, q.drains[i], now, x);
    var (q', d) := Drained(cfg, resumed, q.drains[i], now);
    PendingUpdate(q'.drains, i, d, x);
  }

  lemma StepConserves(cfg: Config, q: Queues, turn: Turn, now: int, x: Message)
    requires Conserved(q, x) && Accountable(cfg, q)
    ensures Conserved(Step(cfg, q, turn, now), x) && Accountable(cfg, Step(cfg, q, turn, now))
  {
    match turn
    case Arrive(m) =>
      TimesConcat(q.arrived, [m], x);
      NotifiedConserves(cfg, q.(arrived := q.arrived + [m]), m, now, x);
    case Activate => StartedConserves(cfg, q.(durable := []), Drain(q.durable, false), now, x);
    case AddObserver(k) =>
      StartedConserves(cfg, q.(leases := q.leases + {k}, durable := []), Drain(q.durable, false), now, x);
    case LoseObservers(_) =>
    case CheckQueue =>
      StartedConserves(cfg, q.(memory := []), Drain(q.memory, true), now, x);
    case Resume(i) =>
      if i < |q.drains| {
        ResumeConserves(cfg, q, i, now, x);
      }
  }

  // ---- When messages are lost ----

  /** Nobody observes a durable subscription whose stored messages have all gone stale. */
  predicate AllStale(cfg: Config, q: Queues, now: int) {
    q.leases == {} && cfg.durable && q.durable != [] && forall s <- q.durable :: Stale(cfg, s, now)
  }

  /** A notification fails, losing its message, exactly in that state. */
  lemma NotificationFailsIffAllStale(cfg: Config, q: Queues, m: Message, now: int)
    ensures !Notified(cfg, q, m, now).1 <==> AllStale(cfg, q, now)
  {
    var k := StalePrefix(cfg, q.durable, now);
    if k < |q.durable| {
      assert q.durable[k] in q.durable;
    }
  }

  /** The messages from the first one a drain would send. */
  function AliveOn(cfg: Config, ms: seq<Message>, now: int): (rest: seq<Message>)
    ensures rest != [] <==> exists m <- ms :: Alive(cfg, m, now)
    ensures |rest| <= |ms|
  {
    if |ms| == 0 then [] else if Alive(cfg, ms[0], now) then ms else AliveOn(cfg, ms[1..], now)
  }

  lemma {:induction false} AliveOnIs(cfg: Config, ms: seq<Message>, now: int)
    ensures var k := |ms| - |AliveOn(cfg, ms, now)|;
            && AliveOn(cfg, ms, now) == ms[k..]
            && (forall i :: 0 <= i < k ==> ms[i].timestamp + cfg.ttl <= now)
            && (k < |ms| ==> ms[k].timestamp + cfg.ttl > now)
  {
    if |ms| > 0 && !Alive(cfg, ms[0], now) {
      AliveOnIs(cfg, ms[1..], now);
    }
  }

  /** What a turn loses: the message that arrives, or all that a drain had still to send. */
  function LostBy(cfg: Config, q: Queues, turn: Turn, now: int): seq<Message> {
    if !AllStale(cfg, q, now) then []
    else if turn.Arrive? then [turn.message]
    else if turn.Resume? && turn.drain < |q.drains| then AliveOn(cfg, q.drains[turn.drain].pending, now)
    else []
  }

  lemma {:induction false} DrainLosesNothing(cfg: Config, q: Queues, d: Drain, now: int)
    requires !AllStale(cfg, q, now)
    ensures Drained(cfg, q, d, now).0.lost == q.lost
    decreases d.thenDurable, |d.pending|
  {
    if |d.pending| == 0 {
      if d.thenDurable {
        DrainLosesNothing(cfg, q.(durable := []), Drain(q.durable, false), now);
      }
    } else {
      var m, rest := d.pending[0], Drain(d.pending[1..], d.thenDurable);
      if !Alive(cfg, m, now) {
        DrainLosesNothing(cfg, q.(dropped := q.dropped + [Drop(m, now)]), rest, now);
      } else {
        NotificationFailsIffAllStale(cfg, q, m, now);
        var q' := Notified(cfg, q, m, now).0;
        assert q.leases == {} && cfg.durable ==> m in q'.durable by {
          if q.leases == {} && cfg.durable {
            assert q'.durable[|q'.durable| - 1] == m;
          }
        }
        DrainLosesNothing(cfg, q', rest, now);
      }
    }
  }

  lemma {:induction false} DrainLosesTheRest(cfg: Config, q: Queues, d: Drain, now: int)
    requires AllStale(cfg, q, now)
    ensures Drained(cfg, q, d, now).0.lost == q.lost + AliveOn(cfg, d.pending, now)
    decreases |d.pending|
  {
    if |d.pending| == 0 {
      if d.thenDurable {
        DrainLosesNothing(cfg, q.(durable := []), Drain(q.durable, false), now);
      }
    } else {
      var m, rest := d.pending[0], d.pending[1..];
      if Alive(cfg, m, now) {
        NotificationFailsIffAllStale(cfg, q, m, now);
        AppendOne(q.lost, m, rest);
        assert d.pending == [m] + rest;
      } else {
        DrainLosesTheRest(cfg, q.(dropped := q.dropped + [Drop(m, now)]), Drain(rest, d.thenDurable), now);
      }
    }
  }

  lemma DrainLoses(cfg: Config, q: Queues, d: Drain, now: int)
    ensures Drained(cfg, q, d, now).0.lost
         == q.lost + if AllStale(cfg, q, now) then AliveOn(cfg, d.pending, now) else []
  {
    if AllStale(cfg, q, now) {
      DrainLosesTheRest(cfg, q, d, now);
    } else {
      DrainLosesNothing(cfg, q, d, now);
    }
  }

  /** What every turn loses, exactly: nothing, unless everything stored is stale and nobody
      observes; then a message that arrives, or what a drain has to send from its first message
      that is still alive. */
  lemma TurnLosesExactly(cfg: Config, q: Queues, turn: Turn, now: int)
    ensures Step(cfg, q, turn, now).lost == q.lost + LostBy(cfg, q, turn, now)
    ensures LostBy(cfg, q, turn, now) != [] <==>
              && AllStale(cfg, q, now)
              && (turn.Arrive? || (turn.Resume? && turn.drain < |q.drains|
                                   && exists m <- q.drains[turn.drain].pending :: Alive(cfg, m, now)))
  {
    match turn
    case Arrive(m) => NotificationFailsIffAllStale(cfg, q.(arrived := q.arrived + [m]), m, now);
    case Activate => DrainLosesNothing(cfg, q.(durable := []), Drain(q.durable, false), now);
    case AddObserver(k) =>
      DrainLosesNothing(cfg, q.(leases := q.leases + {k}, durable := []), Drain(q.durable, false), now);
    case LoseObservers(_) =>
    case CheckQueue =>
      if q.leases != {} {
        DrainLosesNothing(cfg, q.(memory := []), Drain(q.memory, true), now);
      }
    case Resume(i) =>
      if i < |q.drains| {
        DrainLoses(cfg, q.(drains := q.drains[i := Drain([], false)]), q.drains[i], now);
      }
  }

  /** What the turns of a run lose, in order. */
  function LostIn(cfg: Config, q: Queues, turns: seq<(Turn, int)>): seq<Message>
    decreases |turns|
  {
    if |turns| == 0 then []
    else
      LostBy(cfg, q, turns[0].0, turns[0].1)
      + LostIn(cfg, Step(cfg, q, turns[0].0, turns[0].1), turns[1..])
  }

  /** In every run of notifications, drains, lease changes and queue checks, under any
      interleaving and with any clock reading for each turn: each message is in exactly one
      place, dropped messages were out of time, delivered ones went to somebody, and the lost
      ones are exactly those of the turns that lose. */
  lemma {:induction false} MessagesAreConserved(cfg: Config, q: Queues, turns: seq<(Turn, int)>, x: Message)
    requires Conserved(q, x) && Accountable(cfg, q)
    ensures Conserved(Run(cfg, q, turns), x) && Accountable(cfg, Run(cfg, q, turns))
    ensures Run(cfg, q, turns).lost == q.lost + LostIn(cfg, q, turns)
    decreases |turns|
  {
    if |turns| != 0 {
      var (turn, now) := turns[0];
      StepConserves(cfg, q, turn, now, x);
      TurnLosesExactly(cfg, q, turn, now);
      MessagesAreConserved(cfg, Step(cfg, q, turn, now), turns[1..], x);
      Concat(q.lost, LostBy(cfg, q, turn, now), LostIn(cfg, Step(cfg, q, turn, now), turns[1..]));
    }
  }

  lemma EveryRunConserves(cfg: Config, turns: seq<(Turn, int)>)
    ensures forall x :: Conserved(Run(cfg, Empty, turns), x)
    ensures Accountable(cfg, Run(cfg, Empty, turns))
    ensures Run(cfg, Empty, turns).lost == LostIn(cfg, Empty, turns)
  {
    forall x ensures Conserved(Run(cfg, Empty, turns), x) {
      MessagesAreConserved(cfg, Empty, turns, x);
    }
    MessagesAreConserved(cfg, Empty, turns, Message(0, 0));
  }

  /** No turn of the run loses anything. */
  predicate Lossless(cfg: Config, q: Queues, turns: seq<(Turn, int)>)
    decreases |turns|
  {
    |turns| != 0 ==>
      && LostBy(cfg, q, turns[0].0, turns[0].1) == []
      && Lossless(cfg, Step(cfg, q, turns[0].0, turns[0].1), turns[1..])
  }

  lemma {:induction false} LostInNothingIffLossless(cfg: Config, q: Queues, turns: seq<(Turn, int)>)
    ensures LostIn(cfg, q, turns) == [] <==> Lossless(cfg, q, turns)
    decreases |turns|
  {
    if |turns| != 0 {
      LostInNothingIffLossless(cfg, Step(cfg, q, turns[0].0, turns[0].1), turns[1..]);
    }
  }

  /** Without durable messaging no run loses a message. */
  lemma {:induction false} MemoryOnlyLosesNothing(cfg: Config, q: Queues, turns: seq<(Turn, int)>)
    requires !cfg.durable
    ensures Lossless(cfg, q, turns)
    decreases |turns|
  {
    if |turns| != 0 {
      MemoryOnlyLosesNothing(cfg, Step(cfg, q, turns[0].0, turns[0].1), turns[1..]);
    }
  }

  // ---- What a joining observer gets ----

  /** The messages a drain at one time lets through. */
  function AliveOf(cfg: Config, ms: seq<Message>, now: int): seq<Message> {
    if |ms| == 0 then [] else (if Alive(cfg, ms[0], now) then [ms[0]] else []) + AliveOf(cfg, ms[1..], now)
  }

  /** It goes message by message, in order, and looks at the time alone. */
  lemma {:induction false} AliveOfFilters(cfg: Config, a: seq<Message>, b: seq<Message>, now: int)
    ensures AliveOf(cfg, a + b, now) == AliveOf(cfg, a, now) + AliveOf(cfg, b, now)
    ensures |a| == 1 ==> AliveOf(cfg, a, now) == if a[0].timestamp + cfg.ttl > now then a else []
  {
    if |a| == 0 {
      assert a + b == b;
    } else {
      assert (a + b)[1..] == a[1..] + b;
      AliveOfFilters(cfg, a[1..], b, now);
      Concat(if Alive(cfg, a[0], now) then [a[0]] else [], AliveOf(cfg, a[1..], now), AliveOf(cfg, b, now));
    }
  }

  function DeliveriesOf(ms: seq<Message>, leases: set<LeaseKey>): (ds: seq<Delivery>)
    ensures |ds| == |ms| && forall i :: 0 <= i < |ms| ==> ds[i] == Delivery(ms[i], leases)
  {
    seq(|ms|, i requires 0 <= i < |ms| => Delivery(ms[i], leases))
  }

  lemma DeliveriesOfConcat(a: seq<Message>, b: seq<Message>, leases: set<LeaseKey>)
    ensures DeliveriesOf(a + b, leases) == DeliveriesOf(a, leases) + DeliveriesOf(b, leases)
  {
  }

  /** What a whole drain of one list delivers. */
  function AliveDeliveries(cfg: Config, ms: seq<Message>, now: int, leases: set<LeaseKey>): seq<Delivery> {
    DeliveriesOf(AliveOf(cfg, ms, now), leases)
  }

  /** With observers and without a spool rate a drain delivers all that is alive, and goes on
      with the stored queue when it is to. */
  lemma {:induction false} DrainDelivers(cfg: Config, q: Queues, d: Drain, now: int)
    requires !cfg.spools && q.leases != {}
    ensures var (q', rest) := Drained(cfg, q, d, now);
            var stored := if d.thenDurable then AliveDeliveries(cfg, q.durable, now, q.leases) else [];
            && rest == Drain([], false)
            && q'.delivered == q.delivered + AliveDeliveries(cfg, d.pending, now, q.leases) + stored
            && q'.durable == (if d.thenDurable then [] else q.durable) && q'.memory == q.memory
            && q'.lost == q.lost && q'.leases == q.leases && q'.timerArmed == q.timerArmed
    decreases d.thenDurable, |d.pending|
  {
    if |d.pending| == 0 {
      if d.thenDurable {
        DrainDelivers(cfg, q.(durable := []), Drain(q.durable, false), now);
      }
    } else {
      var m, rest := d.pending[0], Drain(d.pending[1..], d.thenDurable);
      var q' := if Alive(cfg, m, now) then Notified(cfg, q, m, now).0 else q.(dropped := q.dropped + [Drop(m, now)]);
      DrainDelivers(cfg, q', rest, now);
      var own := if Alive(cfg, m, now) then [m] else [];
      DeliveriesOfConcat(own, AliveOf(cfg, rest.pending, now), q.leases);
      assert q'.delivered == q.delivered + DeliveriesOf(own, q.leases);
      Concat(q.delivered, DeliveriesOf(own, q.leases), AliveDeliveries(cfg, rest.pending, now, q.leases));
    }
  }

  /** An observer that joins a subscription without a spool rate is sent, in order, every
      stored message that is still alive, along with the observers already there. */
  lemma JoiningObserverCatchesUp(cfg: Config, q: Queues, k: LeaseKey, now: int)
    requires !cfg.spools
    ensures var q' := Step(cfg, q, AddObserver(k), now);
            && q'.delivered == q.delivered + AliveDeliveries(cfg, q.durable, now, q.leases + {k})
            && q'.durable == [] && q'.memory == q.memory && q'.lost == q.lost && q'.leases == q.leases + {k}
  {
    DrainDelivers(cfg, q.(leases := q.leases + {k}, durable := []), Drain(q.durable, false), now);
  }

  /** A queue check with observers and without a spool rate delivers all that is alive, first
      what is kept in memory and then what is stored, and empties both queues. */
  lemma QueueCheckDeliversBoth(cfg: Config, q: Queues, now: int)
    requires !cfg.spools && q.leases != {} && q.timerArmed
    ensures var q' := Step(cfg, q, CheckQueue, now);
            && q'.delivered == q.delivered + AliveDeliveries(cfg, q.memory, now, q.leases)
                               + AliveDeliveries(cfg, q.durable, now, q.leases)
            && q'.memory == [] && q'.durable == [] && q'.lost == q.lost && q'.timerArmed
  {
    DrainDelivers(cfg, q.(memory := []), Drain(q.memory, true), now);
  }

  /** Without observers and a spool rate, activation puts what is alive back in order: into the
      stored queue, or, without durable messaging, into memory. */
  lemma ActivationKeepsTheAlive(cfg: Config, q: Queues, now: int)
    requires !cfg.spools && q.leases == {}
    ensures var q', alive := Step(cfg, q, Activate, now), AliveOf(cfg, q.durable, now);
            && q'.durable == (if cfg.durable then alive else [])
            && q'.memory == (if cfg.durable then q.memory else q.memory + alive)
            && q'.delivered == q.delivered && q'.lost == q.lost
            && q'.timerArmed == (q.timerArmed || alive != [])
  {
    DrainRequeues(cfg, q.(durable := []), q.durable, now);
  }

  lemma {:induction false} DrainRequeues(cfg: Config, q: Queues, ms: seq<Message>, now: int)
    requires !cfg.spools && q.leases == {} && (|q.durable| > 0 ==> !Stale(cfg, q.durable[0], now))
    ensures var q', alive := Drained(cfg, q, Drain(ms, false), now).0, AliveOf(cfg, ms, now);
            && q'.durable == (if cfg.durable then q.durable + alive else q.durable)
            && q'.memory == (if cfg.durable then q.memory else q.memory + alive)
            && q'.delivered == q.delivered && q'.lost == q.lost
            && q'.timerArmed == (q.timerArmed || alive != [])
    decreases |ms|
  {
    if |ms| != 0 {
      var m, rest := ms[0], ms[1..];
      if Alive(cfg, m, now) {
        var q' := Notified(cfg, q, m, now).0;
        assert DropsOf(q.durable[..0], now) == [] && q.durable[0..] == q.durable;
        DrainRequeues(cfg, q', rest, now);
        Concat(q.durable, [m], AliveOf(cfg, rest, now));
        Concat(q.memory, [m], AliveOf(cfg, rest, now));
      } else {
        DrainRequeues(cfg, q.(dropped := q.dropped + [Drop(m, now)]), rest, now);
      }
    }
  }

  // ---- Which queue a message goes to ----

  /** With observers a message is delivered to all of them at once; without, it is stored last in
      the durable queue, after the stale ones have gone from its front, or kept last in memory. */
  lemma NotifiedGoesTo(cfg: Config, q: Queues, m: Message, now: int)
    ensures var (q', ok) := Notified(cfg, q, m, now);
            if q.leases != {} then
              ok && q' == q.(delivered := q.delivered + [Delivery(m, q.leases)])
            else if !cfg.durable then
              ok && q' == q.(memory := q.memory + [m], timerArmed := true)
            else
              && q'.memory == q.memory && q'.delivered == q.delivered
              && q'.timerArmed == (q.timerArmed || ok)
              && (!ok ==> q'.durable == [] && q'.lost == q.lost + [m])
              && (ok ==> q'.lost == q.lost && StoredLast(cfg, q.durable, q'.durable, m, now))
  {
    var k := StalePrefix(cfg, q.durable, now);
    if q.leases == {} && cfg.durable && Notified(cfg, q, m, now).1 {
      assert StoredAfter(cfg, q.durable, q.durable[k..] + [m], m, now, k);
    }
  }

  /** The queue without its first k messages, all of them stale, and with m at its end. */
  predicate StoredAfter(cfg: Config, before: seq<Message>, after: seq<Message>, m: Message, now: int, k: nat) {
    && k <= |before| && after == before[k..] + [m]
    && (forall i :: 0 <= i < k ==> before[i].timestamp + cfg.ttl < now)
    && (k < |before| ==> before[k].timestamp + cfg.ttl >= now)
  }

  predicate StoredLast(cfg: Config, before: seq<Message>, after: seq<Message>, m: Message, now: int) {
    exists k :: 0 <= k <= |before| && StoredAfter(cfg, before, after, m, now, k)
  }

  lemma {:induction false} DurableDrainKeepsMemory(cfg: Config, q: Queues, d: Drain, now: int)
    requires cfg.durable
    ensures Drained(cfg, q, d, now).0.memory == q.memory
    decreases d.thenDurable, |d.pending|
  {
    if |d.pending| == 0 {
      if d.thenDurable {
        DurableDrainKeepsMemory(cfg, q.(durable := []), Drain(q.durable, false), now);
      }
    } else {
      var m, rest := d.pending[0], Drain(d.pending[1..], d.thenDurable);
      if Alive(cfg, m, now) {
        NotifiedGoesTo(cfg, q, m, now);
        DurableDrainKeepsMemory(cfg, Notified(cfg, q, m, now).0, rest, now);
      } else {
        DurableDrainKeepsMemory(cfg, q.(dropped := q.dropped + [Drop(m, now)]), rest, now);
      }
    }
  }

  /** With durable messaging no run ever keeps a message in memory. */
  lemma {:induction false} DurableKeepsNothingInMemory(cfg: Config, q: Queues, turns: seq<(Turn, int)>)
    requires cfg.durable && q.memory == []
    ensures Run(cfg, q, turns).memory == []
    decreases |turns|
  {
    if |turns| != 0 {
      var (turn, now) := turns[0];
      match turn {
        case Arrive(m) => NotifiedGoesTo(cfg, q.(arrived := q.arrived + [m]), m, now);
        case Activate => DurableDrainKeepsMemory(cfg, q.(durable := []), Drain(q.durable, false), now);
        case AddObserver(k) =>
          DurableDrainKeepsMemory(cfg, q.(leases := q.leases + {k}, durable := []), Drain(q.durable, false), now);
        case CheckQueue => DurableDrainKeepsMemory(cfg, q.(memory := []), Drain(q.memory, true), now);
        case Resume(i) =>
          if i < |q.drains| {
            DurableDrainKeepsMemory(cfg, q.(drains := q.drains[i := Drain([], false)]), q.drains[i], now);
          }
        case LoseObservers(_) =>
      }
      DurableKeepsNothingInMemory(cfg, Step(cfg, q, turn, now), turns[1..]);
    }
  }

  lemma ArrivalIsStoredLast(cfg: Config, q: Queues, m: Message, now: int) returns (ms: seq<Message>)
    requires cfg.durable && q.leases == {} && !AllStale(cfg, q, now)
    ensures var q' := Step(cfg, q, Arrive(m), now);
            q'.durable == ms + [m] && q'.leases == {} && q'.delivered == q.delivered
  {
    var arrived := q.(arrived := q.arrived + [m]);
    NotificationFailsIffAllStale(cfg, arrived, m, now);
    NotifiedGoesTo(cfg, arrived, m, now);
    var n :| 0 <= n <= |q.durable| && StoredAfter(cfg, q.durable, Step(cfg, q, Arrive(m), now).durable, m, now, n);
    ms := q.durable[n..];
  }

  /** A message stored for want of observers is the last one sent to the observer that joins in
      time. */
  lemma StoredMessageReachesTheJoiner(cfg: Config, q: Queues, m: Message, t0: int, k: LeaseKey, t1: int)
    requires cfg.durable && !cfg.spools && q.leases == {} && !AllStale(cfg, q, t0)
    requires m.timestamp + cfg.ttl > t1
    ensures var ds := Step(cfg, Step(cfg, q, Arrive(m), t0), AddObserver(k), t1).delivered;
            |ds| > |q.delivered| && ds[|ds| - 1] == Delivery(m, {k})
  {
    var ms := ArrivalIsStoredLast(cfg, q, m, t0);
    JoiningObserverCatchesUp(cfg, Step(cfg, q, Arrive(m), t0), k, t1);
    LastIsDelivered(cfg, ms, m, t1, {k});
    assert {} + {k} == {k};
  }

  lemma LastIsDelivered(cfg: Config, ms: seq<Message>, m: Message, now: int, leases: set<LeaseKey>)
    requires m.timestamp + cfg.ttl > now
    ensures var ds := AliveDeliveries(cfg, ms + [m], now, leases); |ds| > 0 && ds[|ds| - 1] == Delivery(m, leases)
  {
    AliveOfFilters(cfg, ms, [m], now);
    AliveOfFilters(cfg, [m], [], now);
  }

  // ---- A joining observer with a spool rate ----

  /** One message a turn: what the turns of a drain at the given times deliver. */
  function Spooled(cfg: Config, ms: seq<Message>, times: seq<int>, leases: set<LeaseKey>): seq<Delivery>
    decreases |times|
  {
    if |times| == 0 then []
    else
      var rest := AliveOn(cfg, ms, times[0]);
      if |rest| == 0 then [] else [Delivery(rest[0], leases)] + Spooled(cfg, rest[1..], times[1..], leases)
  }

  function ResumeAt(drain: nat, times: seq<int>): (turns: seq<(Turn, int)>)
    ensures |turns| == |times| && forall j :: 0 <= j < |times| ==> turns[j] == (Resume(drain), times[j])
  {
    seq(|times|, j requires 0 <= j < |times| => (Resume(drain), times[j]))
  }

  lemma {:induction false} SpoolDeliversOne(cfg: Config, q: Queues, ms: seq<Message>, now: int)
    requires cfg.spools && q.leases != {}
    ensures var (q', d) := Drained(cfg, q, Drain(ms, false), now); var rest := AliveOn(cfg, ms, now);
            && d == Drain(if |rest| == 0 then [] else rest[1..], false)
            && q'.delivered == q.delivered + (if |rest| == 0 then [] else [Delivery(rest[0], q.leases)])
            && q'.memory == q.memory && q'.lost == q.lost && q'.drains == q.drains && q'.leases == q.leases
    decreases |ms|
  {
    if |ms| != 0 && !Alive(cfg, ms[0], now) {
      SpoolDeliversOne(cfg, q.(dropped := q.dropped + [Drop(ms[0], now)]), ms[1..], now);
    }
  }

  lemma {:induction false} ResumesDeliver(cfg: Config, q: Queues, i: nat, times: seq<int>)
    requires cfg.spools && q.leases != {} && i < |q.drains| && !q.drains[i].thenDurable
    ensures var q' := Run(cfg, q, ResumeAt(i, times));
            && q'.delivered == q.delivered + Spooled(cfg, q.drains[i].pending, times, q.leases)
            && q'.memory == q.memory && q'.lost == q.lost && i < |q'.drains|
            && (|times| >= |q.drains[i].pending| ==> q'.drains[i].pending == [])
    decreases |times|
  {
    if |times| != 0 {
      var ms, turns := q.drains[i].pending, ResumeAt(i, times);
      SpoolDeliversOne(cfg, q.(drains := q.drains[i := Drain([], false)]), ms, times[0]);
      var q1 := Step(cfg, q, Resume(i), times[0]);
      assert turns[1..] == ResumeAt(i, times[1..]);
      ResumesDeliver(cfg, q1, i, times[1..]);
      var rest := AliveOn(cfg, ms, times[0]);
      if |rest| == 0 {
        assert Spooled(cfg, [], times[1..], q.leases) == [];
      } else {
        Concat(q.delivered, [Delivery(rest[0], q.leases)], Spooled(cfg, rest[1..], times[1..], q.leases));
      }
    }
  }

  /** With a spool rate the joining observer gets one stored message a turn, and after as many
      turns as there were messages the drain is done. */
  lemma SpoolingObserverCatchesUp(cfg: Config, q: Queues, k: LeaseKey, now: int, times: seq<int>)
    requires cfg.spools
    ensures var q' := Run(cfg, Step(cfg, q, AddObserver(k), now), ResumeAt(|q.drains|, times));
            && q'.delivered == q.delivered + Spooled(cfg, q.durable, [now] + times, q.leases + {k})
            && q'.memory == q.memory && q'.lost == q.lost && |q.drains| < |q'.drains|
            && (|times| >= |q.durable| ==> q'.drains[|q.drains|].pending == [])
  {
    var joined := q.(leases := q.leases + {k}, durable := []);
    SpoolDeliversOne(cfg, joined, q.durable, now);
    var q1 := Step(cfg, q, AddObserver(k), now);
    ResumesDeliver(cfg, q1, |q.drains|, times);
    var rest := AliveOn(cfg, q.durable, now);
    assert ([now] + times)[1..] == times;
    if |rest| == 0 {
      assert Spooled(cfg, [], times, joined.leases) == [];
    } else {
      Concat(q.delivered, [Delivery(rest[0], joined.leases)], Spooled(cfg, rest[1..], times, joined.leases));
    }
  }

  /** Every message that stays alive through the turns is among those delivered. */
  lemma {:induction false} SpooledMissesNoneAlive(cfg: Config, ms: seq<Message>, times: seq<int>, leases: set<LeaseKey>,
                                                  m: Message)
    requires m in ms && |times| >= |ms| && forall t <- times :: Alive(cfg, m, t)
    ensures Delivery(m, leases) in Spooled(cfg, ms, times, leases)
    decreases |times|
  {
    assert times[0] in times;
    AliveOnKeeps(cfg, ms, times[0], m);
    var rest := AliveOn(cfg, ms, times[0]);
    if rest[0] != m {
      SpooledMissesNoneAlive(cfg, rest[1..], times[1..], leases, m);
    }
  }

  lemma {:induction false} AliveOnKeeps(cfg: Config, ms: seq<Message>, now: int, m: Message)
    requires m in ms && Alive(cfg, m, now)
    ensures m in AliveOn(cfg, ms, now)
  {
    if !Alive(cfg, ms[0], now) {
      AliveOnKeeps(cfg, ms[1..], now, m);
    }
  }

  /** What has been delivered since, each to all the leases there are. */
  predicate DeliversToAll(q: Queues, q': Queues) {
    && q.delivered <= q'.delivered
    && forall i :: |q.delivered| <= i < |q'.delivered| ==> q'.delivered[i].leases == q'.leases
  }

  lemma {:induction false} DrainDeliversToAll(cfg: Config, q: Queues, d: Drain, now: int)
    ensures DeliversToAll(q, Drained(cfg, q, d, now).0) && Drained(cfg, q, d, now).0.leases == q.leases
    decreases d.thenDurable, |d.pending|
  {
    if |d.pending| == 0 {
      if d.thenDurable {
        DrainDeliversToAll(cfg, q.(durable := []), Drain(q.durable, false), now);
      }
    } else {
      var m, rest := d.pending[0], Drain(d.pending[1..], d.thenDurable);
      var q' := if Alive(cfg, m, now) then Notified(cfg, q, m, now).0 else q.(dropped := q.dropped + [Drop(m, now)]);
      DrainDeliversToAll(cfg, q', rest, now);
    }
  }

  /** In every turn, whatever is delivered goes to every lease present at its end. */
  lemma EveryTurnDeliversToAll(cfg: Config, q: Queues, turn: Turn, now: int)
    ensures DeliversToAll(q, Step(cfg, q, turn, now))
  {
    match turn
    case Activate => DrainDeliversToAll(cfg, q.(durable := []), Drain(q.durable, false), now);
    case AddObserver(k) =>
      DrainDeliversToAll(cfg, q.(leases := q.leases + {k}, durable := []), Drain(q.durable, false), now);
    case CheckQueue => DrainDeliversToAll(cfg, q.(memory := []), Drain(q.memory, true), now);
    case Resume(i) =>
      if i < |q.drains| {
        DrainDeliversToAll(cfg, q.(drains := q.drains[i := Drain([], false)]), q.drains[i], now);
      }
    case _ =>
  }

  // ---- Who is reached by the queue checks ----

  lemma {:induction false} WatchedDrainQueuesNothing(cfg: Config, q: Queues, d: Drain, now: int)
    requires q.leases != {}
    ensures var q' := Drained(cfg, q, d, now).0;
            q'.leases == q.leases && q'.memory == q.memory && q'.timerArmed == q.timerArmed
    decreases d.thenDurable, |d.pending|
  {
    if |d.pending| == 0 {
      if d.thenDurable {
        WatchedDrainQueuesNothing(cfg, q.(durable := []), Drain(q.durable, false), now);
      }
    } else {
      var m, rest := d.pending[0], Drain(d.pending[1..], d.thenDurable);
      var q' := if Alive(cfg, m, now) then Notified(cfg, q, m, now).0 else q.(dropped := q.dropped + [Drop(m, now)]);
      WatchedDrainQueuesNothing(cfg, q', rest, now);
    }
  }

  /** While somebody observes the subscription, a queue check takes up the messages kept in
      memory exactly when the timer is still armed. */
  lemma CheckReachesMemoryIffArmed(cfg: Config, q: Queues, now: int)
    requires q.leases != {}
    ensures Step(cfg, q, CheckQueue, now).memory == [] <==> q.timerArmed || q.memory == []
  {
    WatchedDrainQueuesNothing(cfg, q.(memory := []), Drain(q.memory, true), now);
  }

  /** Once the timer is gone, no run brings it back, or delivers what is kept in memory, for as
      long as there are observers. */
  lemma {:induction false} MemoryStaysBehind(cfg: Config, q: Queues, turns: seq<(Turn, int)>)
    requires q.leases != {} && !q.timerArmed
    requires forall t <- turns :: !t.0.LoseObservers?
    ensures var q' := Run(cfg, q, turns); q'.leases != {} && !q'.timerArmed && q'.memory == q.memory
    decreases |turns|
  {
    if |turns| != 0 {
      var (turn, now) := turns[0];
      assert turns[0] in turns;
      match turn {
        case Activate => WatchedDrainQueuesNothing(cfg, q.(durable := []), Drain(q.durable, false), now);
        case AddObserver(k) =>
          WatchedDrainQueuesNothing(cfg, q.(leases := q.leases + {k}, durable := []), Drain(q.durable, false), now);
        case Resume(i) =>
          if i < |q.drains| {
            WatchedDrainQueuesNothing(cfg, q.(drains := q.drains[i := Drain([], false)]), q.drains[i], now);
          }
        case _ =>
      }
      MemoryStaysBehind(cfg, Step(cfg, q, turn, now), turns[1..]);
    }
  }

  /** The three turns that get there, without durable messaging: a message arrives, the timer
      ticks, an observer joins. Whatever happens next, that message is not delivered while the
      observers stay. */
  lemma LateObserverNeverGetsTheMessage(cfg: Config, m: Message, k: LeaseKey, t0: int, t1: int, t2: int,
                                        later: seq<(Turn, int)>)
    requires !cfg.durable && forall t <- later :: !t.0.LoseObservers?
    ensures var q := Run(cfg, Run(cfg, Empty, [(Arrive(m), t0), (CheckQueue, t1), (AddObserver(k), t2)]), later);
            && q.leases != {} && q.memory == [m]
            && (Times(q.arrived, m) == 1 ==> DeliveredTimes(q.delivered, m) == 0)
  {
    var run := [(Arrive(m), t0), (CheckQueue, t1), (AddObserver(k), t2)];
    assert run[1..] == [(CheckQueue, t1), (AddObserver(k), t2)] && run[1..][1..] == [(AddObserver(k), t2)];
    assert run[1..][1..][1..] == [];
    var q1 := Step(cfg, Empty, Arrive(m), t0);
    var q2 := Step(cfg, q1, CheckQueue, t1);
    var q3 := Step(cfg, q2, AddObserver(k), t2);
    assert [] + [m] == [m];
    assert q2.memory == [m] && !q2.timerArmed && q2.leases == {};
    WatchedDrainQueuesNothing(cfg, q2.(leases := {k}, durable := []), Drain([], false), t2);
    assert Run(cfg, q3, []) == q3;
    assert Run(cfg, q2, run[1..][1..]) == q3;
    assert Run(cfg, q1, run[1..]) == q3;
    MemoryStaysBehind(cfg, q3, later);
    MessagesAreConserved(cfg, Empty, run, m);
    MessagesAreConserved(cfg, q3, later, m);
  }

  // ---- The grain ----

  class SubscriptionGrain {
    const config: Config
    var messageLeases: set<LeaseKey>
    var messageQueue: seq<Message>
    var memoryMessageQueue: seq<Message>
    /** The suspended drains: what their continuations still hold. */
    var drains: seq<Drain>
    var messageQueueTimer: bool
    ghost var arrived: seq<Message>
    ghost var delivered: seq<Delivery>
    ghost var dropped: seq<Drop>
    ghost var lost: seq<Message>

    ghost function State(): Queues
      reads this
    {
      Queues(messageLeases, messageQueue, memoryMessageQueue, drains, messageQueueTimer,
             arrived, delivered, dropped, lost)
    }

    constructor (config: Config)
      ensures this.config == config && State() == Empty
    {
      this.config := config;
      messageLeases, messageQueue, memoryMessageQueue, drains, messageQueueTimer := {}, [], [], [], false;
      arrived, delivered, dropped, lost := [], [], [], [];
    }

    /** The outside call; the drains call the inner `Notify`. */
    method NotifyAsync(message: Message, now: int) returns (ok: bool)
      modifies this
      ensures State() == Step(config, old(State()), Arrive(message), now)
      ensures !ok <==> AllStale(config, old(State()), now)
      ensures old(messageLeases) != {} ==>
                && delivered == old(delivered) + [Delivery(message, old(messageLeases))]
                && messageQueue == old(messageQueue) && memoryMessageQueue == old(memoryMessageQueue)
      ensures old(messageLeases) == {} && config.durable && ok ==>
                && StoredLast(config, old(messageQueue), messageQueue, message, now)
                && memoryMessageQueue == old(memoryMessageQueue) && messageQueueTimer
      ensures old(messageLeases) == {} && !config.durable ==>
                && memoryMessageQueue == old(memoryMessageQueue) + [message]
                && messageQueue == old(messageQueue) && messageQueueTimer
    {
      NotificationFailsIffAllStale(config, State().(arrived := arrived + [message]), message, now);
      NotifiedGoesTo(config, State().(arrived := arrived + [message]), message, now);
      arrived := arrived + [message];
      ok := Notify(message, now);
    }

    method Notify(message: Message, now: int) returns (ok: bool)
      modifies this
      ensures (State(), ok) == Notified(config, old(State()), message, now)
    {
      if messageLeases != {} {
        delivered := delivered + [Delivery(message, messageLeases)];
        ok := true;
      } else if config.durable {
        ok := QueueDurableMessageAsync(message, now);
      } else {
        memoryMessageQueue := memoryMessageQueue + [message];
        messageQueueTimer := true;
        ok := true;
      }
    }

    method QueueDurableMessageAsync(message: Message, now: int) returns (ok: bool)
      requires messageLeases == {} && config.durable
      modifies this
      ensures (State(), ok) == Notified(config, old(State()), message, now)
      ensures memoryMessageQueue == old(memoryMessageQueue)
      ensures if ok then StoredLast(config, old(messageQueue), messageQueue, message, now) && messageQueueTimer
              else messageQueue == []
    {
      NotifiedGoesTo(config, State(), message, now);
      assert dropped + DropsOf(messageQueue[..0], now) == dropped;
      if |messageQueue| > 0 {
        Purge(now);
        if |messageQueue| == 0 {
          // Peek on the emptied queue throws.
          lost := lost + [message];
          return false;
        }
      }
      messageQueue := messageQueue + [message];
      messageQueueTimer := true;
      return true;
    }

    /** The purge loop, up to the first message that is not stale. */
    method Purge(now: int)
      modifies this`messageQueue, this`dropped
      ensures var k := StalePrefix(config, old(messageQueue), now);
              messageQueue == old(messageQueue)[k..]
              && dropped == old(dropped) + DropsOf(old(messageQueue)[..k], now)
    {
      ghost var queue, k := messageQueue, 0;
      assert dropped + DropsOf(queue[..0], now) == dropped;
      while |messageQueue| > 0 && messageQueue[0].timestamp + config.ttl < now
        invariant k <= |queue| && messageQueue == queue[k..]
        invariant dropped == old(dropped) + DropsOf(queue[..k], now)
        invariant StalePrefix(config, queue, now) == k + StalePrefix(config, messageQueue, now)
        decreases |messageQueue|
      {
        assert DropsOf(queue[..k + 1], now) == DropsOf(queue[..k], now) + [Drop(queue[k], now)];
        dropped := dropped + [Drop(messageQueue[0], now)];
        messageQueue := messageQueue[1..];
        k := k + 1;
      }
    }

    /** One turn of `DequeueAsync`, from the start of its loop or after a spool delay. */
    method Dequeue(drain: Drain, now: int) returns (rest: Drain)
      modifies this
      ensures (State(), rest) == Drained(config, old(State()), drain, now)
    {
      rest := drain;
      while true
        invariant Drained(config, State(), rest, now) == Drained(config, old(State()), drain, now)
        decreases rest.thenDurable, |rest.pending|
      {
        if |rest.pending| == 0 {
          if !rest.thenDurable {
            return;
          }
          rest := Drain(messageQueue, false);
          messageQueue := [];
        } else {
          var message := rest.pending[0];
          rest := rest.(pending := rest.pending[1..]);
          if message.timestamp + config.ttl > now {
            var ok := Notify(message, now);
            if !ok {
              lost := lost + rest.pending;
              rest := Drain([], false);
              return;
            }
            if config.spools {
              return;
            }
          } else {
            dropped := dropped + [Drop(message, now)];
          }
        }
      }
    }

    method OnActivateAsync(now: int)
      modifies this
      ensures State() == Step(config, old(State()), Activate, now)
    {
      var snapshot := Drain(messageQueue, false);
      messageQueue := [];
      var rest := Dequeue(snapshot, now);
      drains := drains + [rest];
    }

    method AddObserverAsync(key: LeaseKey, now: int)
      modifies this
      ensures State() == Step(config, old(State()), AddObserver(key), now)
    {
      messageLeases := messageLeases + {key};
      OnActivateAsync(now);
    }

    method CheckQueueAsync(now: int)
      requires messageQueueTimer
      modifies this
      ensures State() == Step(config, old(State()), CheckQueue, now)
      ensures old(messageLeases) == {} ==>
                && !messageQueueTimer && messageQueue == old(messageQueue)
                && memoryMessageQueue == old(memoryMessageQueue)
    {
      if messageLeases != {} {
        var snapshot := Drain(memoryMessageQueue, true);
        memoryMessageQueue := [];
        var rest := Dequeue(snapshot, now);
        drains := drains + [rest];
      } else {
        messageQueueTimer := false;
      }
    }

    method ResumeDrain(i: nat, now: int)
      requires i < |drains|
      modifies this
      ensures State() == Step(config, old(State()), Resume(i), now)
    {
      ghost var before := State();
      var drain := drains[i];
      drains := drains[i := Drain([], false)];
      ghost var resumed := State();
      var rest := Dequeue(drain, now);
      DrainedConserves(config, resumed, drain, now, Message(0, 0));
      drains := drains[i := rest];
    }
  }
}
