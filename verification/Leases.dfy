/** The lease tables of a pi-system and of a subscription: one dictionary of observers per kind
    and one dictionary of expiry times over all of them. Both grains share this behaviour; a
    pi-system has no message leases and is never ephemeral. */
module Leases {
  import opened Wrappers

  type LeaseKey = string

  datatype Tag = MessageTag | MetricTag | ErrorTag

  datatype Expiry = Expiry(at: int, tag: Tag)

  /** A tick of the lease timer that waits for the unsubscription of an ephemeral subscription:
      the keys it has listed and not dropped yet. */
  datatype Tick = Tick(messages: seq<LeaseKey>, metrics: seq<LeaseKey>, errors: seq<LeaseKey>)

  /** `used` holds every key ever handed out: a new GUID is none of them. */
  datatype Tables = Tables(messageLeases: set<LeaseKey>, metricLeases: set<LeaseKey>, errorLeases: set<LeaseKey>,
                           expiry: map<LeaseKey, Expiry>, timerArmed: bool, tick: Option<Tick>, used: set<LeaseKey>)

  function AddKey(t: Tables, key: LeaseKey, tag: Tag, at: int): Tables {
    t.(messageLeases := if tag == MessageTag then t.messageLeases + {key} else t.messageLeases,
       metricLeases := if tag == MetricTag then t.metricLeases + {key} else t.metricLeases,
       errorLeases := if tag == ErrorTag then t.errorLeases + {key} else t.errorLeases,
       expiry := t.expiry[key := Expiry(at, tag)], timerArmed := true, used := t.used + {key})
  }

  /** The message leases are left alone. */
  function RemoveKey(t: Tables, key: LeaseKey): Tables {
    t.(metricLeases := t.metricLeases - {key}, errorLeases := t.errorLeases - {key}, expiry := t.expiry - {key})
  }

  function RenewKey(t: Tables, key: LeaseKey, at: int): Tables {
    if key in t.expiry then t.(expiry := t.expiry[key := Expiry(at, t.expiry[key].tag)]) else t
  }

  /** Drops the listed keys of one kind, with their expiry times. */
  function DropKeys(t: Tables, tag: Tag, keys: seq<LeaseKey>): Tables {
    var ks := set k | k in keys;
    t.(messageLeases := if tag == MessageTag then t.messageLeases - ks else t.messageLeases,
       metricLeases := if tag == MetricTag then t.metricLeases - ks else t.metricLeases,
       errorLeases := if tag == ErrorTag then t.errorLeases - ks else t.errorLeases,
       expiry := t.expiry - ks)
  }

  function ExpiredKeys(t: Tables, tag: Tag, now: int): set<LeaseKey> {
    set k | k in t.expiry && t.expiry[k].at < now && t.expiry[k].tag == tag
  }

  /** A list of the keys of a set, each once. */
  ghost predicate Lists(keys: seq<LeaseKey>, ks: set<LeaseKey>) {
    (forall k :: k in keys <==> k in ks) && forall i, j :: 0 <= i < j < |keys| ==> keys[i] != keys[j]
  }

  ghost predicate ListsExpired(t: Tables, k: Tick, now: int) {
    && Lists(k.messages, ExpiredKeys(t, MessageTag, now))
    && Lists(k.metrics, ExpiredKeys(t, MetricTag, now))
    && Lists(k.errors, ExpiredKeys(t, ErrorTag, now))
  }

  /** The end of a tick, after the message leases. */
  function FinishTick(t: Tables, k: Tick): Tables {
    var t' := DropKeys(DropKeys(t, MetricTag, k.metrics), ErrorTag, k.errors).(tick := None);
    if t'.expiry == map[] && t'.messageLeases == {} && t'.errorLeases == {} then t'.(timerArmed := false) else t'
  }

  /** A tick without a suspension in it. */
  function WholeTick(t: Tables, k: Tick): Tables {
    FinishTick(DropKeys(t, MessageTag, k.messages), k)
  }

  /** One message lease is dropped, and the tick waits with the rest of its lists. */
  function DropFirst(t: Tables, k: Tick): Tables
    requires |k.messages| > 0
  {
    DropKeys(t, MessageTag, k.messages[..1]).(tick := Some(k.(messages := k.messages[1..])))
  }

  datatype Turn =
    | Add(key: LeaseKey, tag: Tag, at: int)
    | Remove(key: LeaseKey)
    | Renew(key: LeaseKey, at: int)
    | TickAtOnce(now: int, tick: Tick)
    | TickStarts(now: int, tick: Tick)
    | TickGoesOn

  /** Only one tick is under way at a time, and only while the timer is armed. */
  ghost predicate Enabled(t: Tables, turn: Turn) {
    match turn
    case Add(key, _, _) => key !in t.used
    case Remove(_) => true
    case Renew(_, _) => true
    case TickAtOnce(now, k) => t.timerArmed && t.tick == None && ListsExpired(t, k, now)
    case TickStarts(now, k) => t.timerArmed && t.tick == None && ListsExpired(t, k, now) && |k.messages| > 0
    case TickGoesOn => t.tick.Some?
  }

  function Step(t: Tables, turn: Turn): Tables
    requires Enabled(t, turn)
  {
    match turn
    case Add(key, tag, at) => AddKey(t, key, tag, at)
    case Remove(key) => RemoveKey(t, key)
    case Renew(key, at) => RenewKey(t, key, at)
    case TickAtOnce(_, k) => WholeTick(t, k)
    case TickStarts(_, k) => DropFirst(t, k)
    case TickGoesOn =>
      var k := t.tick.value;
      if |k.messages| == 0 then FinishTick(t, k)
      else DropFirst(t, k)
  }

  ghost predicate Feasible(t: Tables, run: seq<Turn>)
    decreases |run|
  {
    |run| != 0 ==> Enabled(t, run[0]) && Feasible(Step(t, run[0]), run[1..])
  }

  function After(t: Tables, run: seq<Turn>): Tables
    requires Feasible(t, run)
    decreases |run|
  {
    if |run| == 0 then t else After(Step(t, run[0]), run[1..])
  }

  // ---- The tables agree ----

  predicate Tagged(t: Tables, key: LeaseKey, tag: Tag) {
    key in t.expiry && t.expiry[key].tag == tag
  }

  /** The expiry times split exactly over metric and error leases; those tagged as message
      leases are among the message leases. */
  ghost predicate Agree(t: Tables) {
    && (forall k :: k in t.metricLeases <==> Tagged(t, k, MetricTag))
    && (forall k :: k in t.errorLeases <==> Tagged(t, k, ErrorTag))
    && (forall k :: Tagged(t, k, MessageTag) ==> k in t.messageLeases)
    && (forall k :: k in t.messageLeases && k in t.expiry ==> Tagged(t, k, MessageTag))
  }

  /** What a waiting tick has listed has not changed its kind since. */
  ghost predicate TickAgrees(t: Tables) {
    t.tick.Some? ==>
      && (forall k <- t.tick.value.messages :: k in t.used && (k in t.expiry ==> Tagged(t, k, MessageTag)))
      && (forall k <- t.tick.value.metrics :: k in t.used && (k in t.expiry ==> Tagged(t, k, MetricTag)))
      && (forall k <- t.tick.value.errors :: k in t.used && (k in t.expiry ==> Tagged(t, k, ErrorTag)))
  }

  ghost predicate Invariant(t: Tables) {
    && Agree(t) && TickAgrees(t)
    && t.expiry.Keys <= t.used && t.messageLeases <= t.used
    && (t.expiry != map[] ==> t.timerArmed)
  }

  lemma DropKeepsAgreement(t: Tables, tag: Tag, keys: seq<LeaseKey>)
    requires Agree(t)
    requires forall k <- keys :: k in t.expiry ==> Tagged(t, k, tag)
    ensures Agree(DropKeys(t, tag, keys))
    ensures forall k, g :: Tagged(DropKeys(t, tag, keys), k, g) ==> Tagged(t, k, g)
    ensures DropKeys(t, tag, keys).expiry.Keys <= t.expiry.Keys
  {
  }

  lemma FinishKeepsAgreement(t: Tables, k: Tick)
    requires Invariant(t)
    requires forall x <- k.metrics :: x in t.expiry ==> Tagged(t, x, MetricTag)
    requires forall x <- k.errors :: x in t.expiry ==> Tagged(t, x, ErrorTag)
    ensures Invariant(FinishTick(t, k))
  {
    DropKeepsAgreement(t, MetricTag, k.metrics);
    DropKeepsAgreement(DropKeys(t, MetricTag, k.metrics), ErrorTag, k.errors);
  }

  lemma DropFirstKeepsInvariant(t: Tables, k: Tick)
    requires Invariant(t.(tick := Some(k))) && |k.messages| > 0
    ensures Invariant(DropFirst(t, k))
  {
    assert k.messages[0] in k.messages;
    DropKeepsAgreement(t, MessageTag, k.messages[..1]);
  }

  lemma StepKeepsInvariant(t: Tables, turn: Turn)
    requires Enabled(t, turn) && Invariant(t)
    ensures Invariant(Step(t, turn))
  {
    match turn
    case Add(_, _, _) =>
    case Remove(_) =>
    case Renew(_, _) =>
    case TickAtOnce(_, k) =>
      DropKeepsAgreement(t, MessageTag, k.messages);
      FinishKeepsAgreement(DropKeys(t, MessageTag, k.messages), k);
    case TickStarts(_, k) => DropFirstKeepsInvariant(t, k);
    case TickGoesOn =>
      var k := t.tick.value;
      if |k.messages| == 0 {
        FinishKeepsAgreement(t, k);
      } else {
        DropFirstKeepsInvariant(t, k);
      }
  }

  /** In every run, with renewals and additions between the suspensions of a tick: the tables
      agree, and the timer is armed whenever there is an expiry time to watch. */
  lemma {:induction false} TablesAlwaysAgree(t: Tables, run: seq<Turn>)
    requires Feasible(t, run) && Invariant(t)
    ensures Invariant(After(t, run))
    decreases |run|
  {
    if |run| != 0 {
      StepKeepsInvariant(t, run[0]);
      TablesAlwaysAgree(Step(t, run[0]), run[1..]);
    }
  }

  // ---- Expiry ----

  /** A tick without interleaving removes precisely the leases whose time is over, from every
      table, and keeps the others with their times and tags. */
  lemma TickIsExact(t: Tables, now: int, k: Tick)
    requires Invariant(t) && t.tick == None && ListsExpired(t, k, now)
    ensures var t', over := WholeTick(t, k), Overdue(t, now);
            && t'.expiry == t.expiry - over
            && t'.messageLeases == t.messageLeases - over
            && t'.metricLeases == t.metricLeases - over
            && t'.errorLeases == t.errorLeases - over
            && (t'.timerArmed <==> t.timerArmed && (t'.expiry != map[] || t'.messageLeases != {}))
  {
    var over := Overdue(t, now);
    var t1 := DropKeys(t, MessageTag, k.messages);
    var t2 := DropKeys(t1, MetricTag, k.metrics);
    var t3 := DropKeys(t2, ErrorTag, k.errors);
    assert t1.messageLeases == t.messageLeases - over;
    assert t2.metricLeases == t.metricLeases - over;
    assert t3.errorLeases == t.errorLeases - over;
    assert t3.expiry == t.expiry - over;
    if t3.expiry == map[] {
      assert forall x :: x in t3.errorLeases ==> x in t3.expiry;
      assert t3.errorLeases == {};
    }
  }

  function Overdue(t: Tables, now: int): set<LeaseKey> {
    set x | x in t.expiry && t.expiry[x].at < now
  }

  predicate Pending(k: Tick, key: LeaseKey) {
    key in k.messages || key in k.metrics || key in k.errors
  }

  predicate NoNewTick(run: seq<Turn>) {
    forall turn <- run :: !turn.TickAtOnce? && !turn.TickStarts?
  }

  lemma {:induction false} GoneStaysGone(t: Tables, run: seq<Turn>, key: LeaseKey)
    requires Invariant(t) && Feasible(t, run) && key in t.used && key !in t.expiry
    ensures key !in After(t, run).expiry
    decreases |run|
  {
    if |run| != 0 {
      StepKeepsInvariant(t, run[0]);
      GoneStaysGone(Step(t, run[0]), run[1..], key);
    }
  }

  /** A lease present while a tick waits, renewed in the meantime or not, is gone after that
      tick exactly when the tick had it on its lists or it was removed. */
  lemma {:induction false} WaitingTickTakesItsLists(t: Tables, run: seq<Turn>, key: LeaseKey)
    requires Invariant(t) && Feasible(t, run) && NoNewTick(run)
    requires After(t, run).tick == None && key in t.expiry
    ensures key !in After(t, run).expiry <==> (t.tick.Some? && Pending(t.tick.value, key)) || Remove(key) in run
    decreases |run|
  {
    if |run| != 0 {
      var t', rest := Step(t, run[0]), run[1..];
      StepKeepsInvariant(t, run[0]);
      assert run[0] in run;
      assert forall turn :: turn in run <==> turn == run[0] || turn in rest;
      if key in t'.expiry {
        StepKeepsPending(t, run[0], key);
        WaitingTickTakesItsLists(t', rest, key);
      } else {
        StepTakesPending(t, run[0], key);
        GoneStaysGone(t', rest, key);
      }
    }
  }

  /** A turn that leaves a key in place leaves it pending, or not pending, as it was. */
  lemma StepKeepsPending(t: Tables, turn: Turn, key: LeaseKey)
    requires Enabled(t, turn) && !turn.TickAtOnce? && !turn.TickStarts?
    requires key in t.expiry && key in Step(t, turn).expiry
    ensures var t' := Step(t, turn);
            turn != Remove(key)
            && ((t.tick.Some? && Pending(t.tick.value, key)) <==> (t'.tick.Some? && Pending(t'.tick.value, key)))
  {
    if turn.TickGoesOn? && |t.tick.value.messages| > 0 {
      var ms := t.tick.value.messages;
      assert ms[..1] == [ms[0]] && ms == [ms[0]] + ms[1..];
      assert ms[0] in ms[..1];
    }
  }

  lemma StepTakesPending(t: Tables, turn: Turn, key: LeaseKey)
    requires Enabled(t, turn) && !turn.TickAtOnce? && !turn.TickStarts?
    requires key in t.expiry && key !in Step(t, turn).expiry
    ensures turn == Remove(key) || (t.tick.Some? && Pending(t.tick.value, key))
  {
    if turn.TickGoesOn? && |t.tick.value.messages| > 0 {
      assert key in t.tick.value.messages[..1];
    }
  }

  /** So a lease renewed while a tick waits is dropped by that tick all the same, whatever else
      happens in between, though the renewal found it and was answered with success. */
  lemma RenewedLeaseIsDropped(t: Tables, key: LeaseKey, at: int, rest: seq<Turn>)
    requires Invariant(t) && t.tick.Some? && Pending(t.tick.value, key) && key in t.expiry
    requires Feasible(t, [Renew(key, at)] + rest) && NoNewTick(rest) && After(t, [Renew(key, at)] + rest).tick == None
    ensures var renewed := Step(t, Renew(key, at)); key in renewed.expiry && renewed.expiry[key].at == at
    ensures key !in After(t, [Renew(key, at)] + rest).expiry
  {
    WaitingTickTakesItsLists(t, [Renew(key, at)] + rest, key);
  }

  /** Such a run, with two overdue message leases: the first is dropped at once, the second is
      renewed while the tick waits, and dropped when it goes on. */
  lemma RenewalWhileTickWaits(t: Tables, a: LeaseKey, b: LeaseKey, now: int, at: int)
    requires Invariant(t) && t.timerArmed && t.tick == None && a != b
    requires t.expiry == map[a := Expiry(now - 1, MessageTag), b := Expiry(now - 1, MessageTag)]
    ensures var start := TickStarts(now, Tick([a, b], [], []));
            && Enabled(t, start) && Invariant(Step(t, start))
            && Feasible(Step(t, start), [Renew(b, at), TickGoesOn, TickGoesOn])
            && Step(Step(t, start), Renew(b, at)).expiry == map[b := Expiry(at, MessageTag)]
            && After(Step(t, start), [Renew(b, at), TickGoesOn, TickGoesOn]).expiry == map[]
  {
    var k := Tick([a, b], [], []);
    assert k.messages[0] == a && k.messages[1] == b;
    assert Lists(k.messages, ExpiredKeys(t, MessageTag, now));
    assert Lists([], ExpiredKeys(t, MetricTag, now)) && Lists([], ExpiredKeys(t, ErrorTag, now));
    StepKeepsInvariant(t, TickStarts(now, k));
    var t1 := Step(t, TickStarts(now, k));
    assert [a, b][..1] == [a] && [a, b][1..] == [b] && t1.expiry == map[b := Expiry(now - 1, MessageTag)];
    RenewalThenDrop(t1, b, at);
  }

  lemma RenewalThenDrop(t: Tables, b: LeaseKey, at: int)
    requires t.tick == Some(Tick([b], [], [])) && Tagged(t, b, MessageTag) && t.expiry.Keys == {b}
    ensures Feasible(t, [Renew(b, at), TickGoesOn, TickGoesOn])
    ensures Step(t, Renew(b, at)).expiry == map[b := Expiry(at, MessageTag)]
    ensures After(t, [Renew(b, at), TickGoesOn, TickGoesOn]).expiry == map[]
  {
    var t1 := Step(t, Renew(b, at));
    assert [b][..1] == [b] && [b][1..] == [];
    var t2 := Step(t1, TickGoesOn);
    assert b in [b] && t2.expiry == map[];
    TurnFirst(t2, [TickGoesOn]);
    assert [TickGoesOn, TickGoesOn][1..] == [TickGoesOn];
    TurnFirst(t1, [TickGoesOn, TickGoesOn]);
    assert [Renew(b, at), TickGoesOn, TickGoesOn][1..] == [TickGoesOn, TickGoesOn];
    TurnFirst(t, [Renew(b, at), TickGoesOn, TickGoesOn]);
  }

  lemma TurnFirst(t: Tables, run: seq<Turn>)
    requires |run| != 0 && Enabled(t, run[0]) && Feasible(Step(t, run[0]), run[1..])
    ensures Feasible(t, run) && After(t, run) == After(Step(t, run[0]), run[1..])
  {
  }

  // ---- The grain's methods ----

  class LeaseTables {
    var messageLeases: set<LeaseKey>
    var metricLeases: set<LeaseKey>
    var errorLeases: set<LeaseKey>
    var leaseExpiry: map<LeaseKey, Expiry>
    var leaseTimer: bool
    ghost var used: set<LeaseKey>

    ghost function State(): Tables
      reads this
    {
      Tables(messageLeases, metricLeases, errorLeases, leaseExpiry, leaseTimer, None, used)
    }

    constructor ()
      ensures Invariant(State()) && State() == Tables({}, {}, {}, map[], false, None, {})
    {
      messageLeases, metricLeases, errorLeases := {}, {}, {};
      leaseExpiry, leaseTimer, used := map[], false, {};
    }

    method AddObserverAsync(leaseKey: LeaseKey, tag: Tag, at: int)
      requires Invariant(State()) && leaseKey !in used
      modifies this
      ensures Invariant(State()) && State() == AddKey(old(State()), leaseKey, tag, at)
      ensures leaseExpiry == old(leaseExpiry)[leaseKey := Expiry(at, tag)] && leaseTimer
      ensures messageLeases == old(messageLeases) + if tag == MessageTag then {leaseKey} else {}
      ensures metricLeases == old(metricLeases) + if tag == MetricTag then {leaseKey} else {}
      ensures errorLeases == old(errorLeases) + if tag == ErrorTag then {leaseKey} else {}
    {
      StepKeepsInvariant(State(), Add(leaseKey, tag, at));
      match tag {
        case MessageTag => messageLeases := messageLeases + {leaseKey};
        case MetricTag => metricLeases := metricLeases + {leaseKey};
        case ErrorTag => errorLeases := errorLeases + {leaseKey};
      }
      leaseExpiry := leaseExpiry[leaseKey := Expiry(at, tag)];
      used := used + {leaseKey};
      if !leaseTimer {
        leaseTimer := true;
      }
    }

    method RemoveObserverAsync(leaseKey: LeaseKey)
      requires Invariant(State())
      modifies this
      ensures Invariant(State()) && State() == RemoveKey(old(State()), leaseKey)
      ensures leaseExpiry == old(leaseExpiry) - {leaseKey} && messageLeases == old(messageLeases)
      ensures metricLeases == old(metricLeases) - {leaseKey} && errorLeases == old(errorLeases) - {leaseKey}
    {
      StepKeepsInvariant(State(), Remove(leaseKey));
      leaseExpiry := leaseExpiry - {leaseKey};
      metricLeases := metricLeases - {leaseKey};
      errorLeases := errorLeases - {leaseKey};
    }

    method RenewObserverLeaseAsync(leaseKey: LeaseKey, at: int) returns (renewed: bool)
      requires Invariant(State())
      modifies this
      ensures Invariant(State()) && State() == RenewKey(old(State()), leaseKey, at)
      ensures renewed == (leaseKey in old(leaseExpiry))
      ensures leaseExpiry == if renewed then old(leaseExpiry)[leaseKey := Expiry(at, old(leaseExpiry)[leaseKey].tag)]
                             else old(leaseExpiry)
      ensures messageLeases == old(messageLeases) && metricLeases == old(metricLeases)
              && errorLeases == old(errorLeases)
    {
      StepKeepsInvariant(State(), Renew(leaseKey, at));
      if leaseKey in leaseExpiry {
        leaseExpiry := leaseExpiry[leaseKey := Expiry(at, leaseExpiry[leaseKey].tag)];
        return true;
      }
      return false;
    }

    /** A tick whose unsubscriptions, if any, finish before anything else happens. */
    method CheckLeaseExpiryAsync(now: int, tick: Tick)
      requires Invariant(State()) && leaseTimer && ListsExpired(State(), tick, now)
      modifies this
      ensures Invariant(State()) && State() == WholeTick(old(State()), tick)
      ensures forall k :: k in leaseExpiry <==> k in old(leaseExpiry) && old(leaseExpiry)[k].at >= now
      ensures forall k :: k in leaseExpiry ==> leaseExpiry[k] == old(leaseExpiry)[k]
      ensures forall k :: k in messageLeases <==>
                k in old(messageLeases) && !(k in old(leaseExpiry) && old(leaseExpiry)[k].at < now)
      ensures leaseTimer <==> leaseExpiry != map[] || messageLeases != {}
    {
      StepKeepsInvariant(State(), TickAtOnce(now, tick));
      TickIsExact(State(), now, tick);
      DropMessages(tick.messages);
      DropMetrics(tick.metrics);
      DropErrors(tick.errors);
      if leaseExpiry == map[] && messageLeases == {} && errorLeases == {} {
        leaseTimer := false;
      }
    }

    method DropMessages(keys: seq<LeaseKey>)
      modifies this`messageLeases, this`leaseExpiry
      ensures State() == DropKeys(old(State()), MessageTag, keys)
    {
      for i := 0 to |keys|
        invariant messageLeases == old(messageLeases) - (set k | k in keys[..i])
        invariant leaseExpiry == old(leaseExpiry) - (set k | k in keys[..i])
      {
        assert keys[..i + 1] == keys[..i] + [keys[i]];
        messageLeases := messageLeases - {keys[i]};
        leaseExpiry := leaseExpiry - {keys[i]};
      }
      assert keys[..|keys|] == keys;
    }

    method DropMetrics(keys: seq<LeaseKey>)
      modifies this`metricLeases, this`leaseExpiry
      ensures State() == DropKeys(old(State()), MetricTag, keys)
    {
      for i := 0 to |keys|
        invariant metricLeases == old(metricLeases) - (set k | k in keys[..i])
        invariant leaseExpiry == old(leaseExpiry) - (set k | k in keys[..i])
      {
        assert keys[..i + 1] == keys[..i] + [keys[i]];
        metricLeases := metricLeases - {keys[i]};
        leaseExpiry := leaseExpiry - {keys[i]};
      }
      assert keys[..|keys|] == keys;
    }

    method DropErrors(keys: seq<LeaseKey>)
      modifies this`errorLeases, this`leaseExpiry
      ensures State() == DropKeys(old(State()), ErrorTag, keys)
    {
      for i := 0 to |keys|
        invariant errorLeases == old(errorLeases) - (set k | k in keys[..i])
        invariant leaseExpiry == old(leaseExpiry) - (set k | k in keys[..i])
      {
        assert keys[..i + 1] == keys[..i] + [keys[i]];
        errorLeases := errorLeases - {keys[i]};
        leaseExpiry := leaseExpiry - {keys[i]};
      }
      assert keys[..|keys|] == keys;
    }
  }
}
