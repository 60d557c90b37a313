/** Publishing to a pi-system: the fan-out over its subscriptions and the index filter each of
    them applies. What a subscription does with a message it accepts is in `Subscription`. */
module PiSystem {
  import opened Wrappers

  datatype Event = Event(id: nat, size: nat)

  datatype Index = Index(key: string, value: string)

  // ---- The filter ----

  /** `TrimStart`: what follows the leading tildes. */
  function TrimTildes(s: string): (t: string)
    ensures |t| == 0 || t[0] != '~'
    ensures |t| <= |s| && s[|s| - |t|..] == t && forall i :: 0 <= i < |s| - |t| ==> s[i] == '~'
  {
    if |s| > 0 && s[0] == '~' then TrimTildes(s[1..]) else s
  }

  /** One term of the query; a leading tilde asks for the index to be absent. */
  predicate Meets(index: Index, own: set<Index>)
    requires |index.value| > 0
  {
    if index.value[0] != '~' then index in own
    else Index(index.key, TrimTildes(index.value)) !in own
  }

  /** The query counts the indexes that are met. It fails on an empty value, and on a
      subscription that has no index list. */
  function Count(indexes: seq<Index>, own: Option<set<Index>>): Option<nat> {
    if |indexes| == 0 then Some(0)
    else if |indexes[0].value| == 0 || own.None? then None
    else
      var rest := Count(indexes[1..], own);
      if rest.None? then None
      else if Meets(indexes[0], own.value) then Some(rest.value + 1)
      else rest
  }

  predicate Fails(indexes: seq<Index>, own: Option<set<Index>>) {
    (exists i <- indexes :: |i.value| == 0) || (indexes != [] && own.None?)
  }

  predicate Passes(indexes: seq<Index>, own: Option<set<Index>>) {
    !Fails(indexes, own) && (indexes == [] || forall i <- indexes :: Meets(i, own.value))
  }

  /** The count equals the number of indexes exactly when every one of them is met. */
  lemma {:induction false} CountExact(indexes: seq<Index>, own: Option<set<Index>>)
    ensures Count(indexes, own).None? <==> Fails(indexes, own)
    ensures Count(indexes, own).Some? ==> Count(indexes, own).value <= |indexes|
    ensures Count(indexes, own) == Some(|indexes|) <==> Passes(indexes, own)
    decreases |indexes|
  {
    if |indexes| > 0 {
      var first, rest := indexes[0], indexes[1..];
      assert forall i :: i in indexes <==> i == first || i in rest;
      CountExact(rest, own);
    }
  }

  /** A longer list of indexes lets through what both of its parts let through. */
  lemma MoreIndexesReachFewer(a: seq<Index>, b: seq<Index>, own: Option<set<Index>>)
    ensures Passes(a + b, own) <==> Passes(a, own) && Passes(b, own)
  {
    assert forall i :: i in a + b <==> i in a || i in b;
    assert a + b == [] <==> a == [] && b == [];
  }

  /** An index and its negation split the subscriptions that pass the rest in two. */
  lemma IndexAndNegationSplit(indexes: seq<Index>, key: string, value: string, own: set<Index>)
    requires |value| > 0 && value[0] != '~'
    ensures var asked := Passes(indexes + [Index(key, value)], Some(own));
            var negated := Passes(indexes + [Index(key, "~" + value)], Some(own));
            (Passes(indexes, Some(own)) <==> asked || negated) && !(asked && negated)
  {
    var plain, tilde := [Index(key, value)], [Index(key, "~" + value)];
    MoreIndexesReachFewer(indexes, plain, Some(own));
    MoreIndexesReachFewer(indexes, tilde, Some(own));
    assert plain[0] in plain && tilde[0] in tilde;
    assert ("~" + value)[1..] == value;
    assert TrimTildes("~" + value) == value;
  }

  /** All leading tildes are trimmed, so a subscription's index whose value starts with a tilde
      can neither be asked for nor be ruled out: the filter never sees it. */
  lemma TildeValuesAreNeverSeen(indexes: seq<Index>, own: set<Index>)
    ensures Passes(indexes, Some(own))
       <==> Passes(indexes, Some(set i | i in own && (|i.value| == 0 || i.value[0] != '~')))
  {
    var seen := set i | i in own && (|i.value| == 0 || i.value[0] != '~');
    forall i | i in indexes && |i.value| > 0 ensures Meets(i, own) <==> Meets(i, seen) {
      var trimmed := Index(i.key, TrimTildes(i.value));
      assert i.value[0] == '~' ==> (trimmed in own <==> trimmed in seen);
    }
  }

  /** The filter written out over the subscription's indexes: a value without a leading tilde
      must be among them; what follows the leading tildes of any other must not be. */
  ghost predicate Wanted(indexes: seq<Index>, own: set<Index>) {
    forall i <- indexes ::
      && (|i.value| > 0 && i.value[0] != '~' ==> Index(i.key, i.value) in own)
      && (forall n :: 0 < n <= |i.value| && Tildes(i.value[..n]) && (n < |i.value| ==> i.value[n] != '~') ==>
            Index(i.key, i.value[n..]) !in own)
  }

  predicate Tildes(s: string) {
    forall c <- s :: c == '~'
  }

  lemma {:induction false} TildesThenRest(s: string, n: nat)
    requires 0 < n <= |s| && Tildes(s[..n]) && (n < |s| ==> s[n] != '~')
    ensures TrimTildes(s) == s[n..] && s[0] == '~'
  {
    assert s[0] in s[..n];
    if n > 1 {
      assert s[..n][1..] == s[1..][..n - 1];
      assert forall c <- s[..n][1..] :: c in s[..n];
      TildesThenRest(s[1..], n - 1);
    }
  }

  lemma LeadingTildes(s: string) returns (n: nat)
    requires |s| > 0 && s[0] == '~'
    ensures 0 < n <= |s| && Tildes(s[..n]) && (n < |s| ==> s[n] != '~')
  {
    n := |s| - |TrimTildes(s)|;
    assert n < |s| ==> s[n] == TrimTildes(s)[0];
  }

  /** What the query lets through, for every list it does not fail on. */
  lemma PassesIsWanted(indexes: seq<Index>, own: Option<set<Index>>)
    requires !Fails(indexes, own)
    ensures Passes(indexes, own) <==> indexes == [] || Wanted(indexes, own.value)
  {
    forall i | i in indexes
      ensures Meets(i, own.value) <==>
                && (|i.value| > 0 && i.value[0] != '~' ==> Index(i.key, i.value) in own.value)
                && (forall n :: 0 < n <= |i.value| && Tildes(i.value[..n]) && (n < |i.value| ==> i.value[n] != '~') ==>
                      Index(i.key, i.value[n..]) !in own.value) {
      forall n | 0 < n <= |i.value| && Tildes(i.value[..n]) && (n < |i.value| ==> i.value[n] != '~')
        ensures TrimTildes(i.value) == i.value[n..] && i.value[0] == '~' {
        TildesThenRest(i.value, n);
      }
      if i.value[0] == '~' {
        var n := LeadingTildes(i.value);
      }
      assert Index(i.key, i.value) == i;
    }
  }

  // ---- The grains ----

  class Subscription {
    const id: string
    const indexes: Option<set<Index>>
    var messageCount: nat
    var byteCount: nat
    /** The messages handed on to the observers or the queues. */
    var accepted: seq<Event>

    constructor (id: string, indexes: Option<set<Index>>)
      ensures this.id == id && this.indexes == indexes && messageCount == 0 && byteCount == 0 && accepted == []
    {
      this.id, this.indexes, messageCount, byteCount, accepted := id, indexes, 0, 0, [];
    }

    /** Counted once, and handed on. */
    ghost predicate Took(count: nat, bytes: nat, events: seq<Event>, message: Event)
      reads this
    {
      messageCount == count + 1 && byteCount == bytes + message.size && accepted == events + [message]
    }

    /** What one filtered notification makes of the counters and the messages. */
    ghost predicate Filtered(count: nat, bytes: nat, events: seq<Event>, message: Event, wanted: seq<Index>)
      reads this
    {
      var fails := (exists i <- wanted :: i.value == "") || (wanted != [] && indexes.None?);
      && messageCount == (if fails then count else count + 1)
      && byteCount == (if fails then bytes else bytes + message.size)
      && accepted == (if !fails && (wanted == [] || Wanted(wanted, indexes.value)) then events + [message] else events)
    }

    method NotifyAsync(message: Event)
      modifies this
      ensures messageCount == old(messageCount) + 1 && byteCount == old(byteCount) + message.size
      ensures accepted == old(accepted) + [message]
    {
      messageCount := messageCount + 1;
      byteCount := byteCount + message.size;
      accepted := accepted + [message];
    }

    method NotifyFilteredAsync(message: Event, wanted: seq<Index>) returns (ok: bool)
      modifies this
      ensures ok <==> (forall i <- wanted :: i.value != "") && (wanted == [] || indexes.Some?)
      ensures Filtered(old(messageCount), old(byteCount), old(accepted), message, wanted)
    {
      CountExact(wanted, indexes);
      if !Fails(wanted, indexes) {
        PassesIsWanted(wanted, indexes);
      }
      var count := Count(wanted, indexes);
      if count.None? {
        return false;
      }
      if count.value == |wanted| {
        NotifyAsync(message);
      } else {
        messageCount := messageCount + 1;
        byteCount := byteCount + message.size;
      }
      return true;
    }
  }

  class PiSystemGrain {
    var messageCount: nat
    var byteCount: nat
    var subscriptions: map<string, Subscription>

    /** A subscription is filed under its own identifier. */
    ghost predicate Valid()
      reads this
    {
      forall id <- subscriptions :: subscriptions[id].id == id
    }

    constructor ()
      ensures Valid() && messageCount == 0 && byteCount == 0 && subscriptions == map[]
    {
      messageCount, byteCount, subscriptions := 0, 0, map[];
    }

    method SubscribeAsync(subscription: Subscription)
      requires Valid()
      modifies this`subscriptions
      ensures Valid() && subscriptions == old(subscriptions)[subscription.id := subscription]
    {
      subscriptions := subscriptions[subscription.id := subscription];
    }

    method UnsubscribeAsync(id: string)
      requires Valid()
      modifies this`subscriptions
      ensures Valid() && subscriptions == old(subscriptions) - {id}
    {
      subscriptions := subscriptions - {id};
    }

    method PublishAsync(message: Event)
      requires Valid()
      modifies this`messageCount, this`byteCount, subscriptions.Values
      ensures messageCount == old(messageCount) + 1 && byteCount == old(byteCount) + message.size
      ensures forall id <- subscriptions :: subscriptions[id].Took(old(subscriptions[id].messageCount),
                old(subscriptions[id].byteCount), old(subscriptions[id].accepted), message)
    {
      messageCount := messageCount + 1;
      byteCount := byteCount + message.size;
      var pending := subscriptions.Keys;
      while pending != {}
        invariant pending <= subscriptions.Keys
        invariant messageCount == old(messageCount) + 1 && byteCount == old(byteCount) + message.size
        invariant forall id <- pending :: unchanged(subscriptions[id])
        invariant forall id <- subscriptions.Keys - pending ::
                    subscriptions[id].Took(old(subscriptions[id].messageCount), old(subscriptions[id].byteCount),
                                           old(subscriptions[id].accepted), message)
        decreases pending
      {
        var id :| id in pending;
        subscriptions[id].NotifyAsync(message);
        pending := pending - {id};
      }
    }

    /** The message reaches exactly the subscriptions that meet every index, and each
        subscription whose filter does not fail counts it once. Without an index list the
        pi-system itself counts the message twice. */
    method PublishFilteredAsync(message: Event, indexes: Option<seq<Index>>) returns (ok: bool)
      requires Valid()
      modifies this`messageCount, this`byteCount, subscriptions.Values
      ensures messageCount == old(messageCount) + (if indexes.None? then 2 else 1)
      ensures byteCount == old(byteCount) + (if indexes.None? then 2 else 1) * message.size
      ensures indexes.None? ==> ok && forall id <- subscriptions ::
                subscriptions[id].Took(old(subscriptions[id].messageCount),
                  old(subscriptions[id].byteCount), old(subscriptions[id].accepted), message)
      ensures indexes.Some? ==> forall id <- subscriptions ::
                subscriptions[id].Filtered(old(subscriptions[id].messageCount), old(subscriptions[id].byteCount),
                  old(subscriptions[id].accepted), message, indexes.value)
      ensures indexes.Some? ==>
                (ok <==> forall id <- subscriptions ::
                   && (forall i <- indexes.value :: i.value != "")
                   && (indexes.value == [] || subscriptions[id].indexes.Some?))
      ensures indexes.Some? && ok ==> forall id <- subscriptions ::
                subscriptions[id].accepted
                == if indexes.value == [] || Wanted(indexes.value, subscriptions[id].indexes.value)
                   then old(subscriptions[id].accepted) + [message] else old(subscriptions[id].accepted)
    {
      messageCount := messageCount + 1;
      byteCount := byteCount + message.size;
      ok := true;
      if indexes.None? {
        PublishAsync(message);
        return;
      }
      var pending := subscriptions.Keys;
      while pending != {}
        invariant pending <= subscriptions.Keys
        invariant messageCount == old(messageCount) + 1 && byteCount == old(byteCount) + message.size
        invariant forall id <- pending :: unchanged(subscriptions[id])
        invariant forall id <- subscriptions.Keys - pending ::
                    subscriptions[id].Filtered(old(subscriptions[id].messageCount), old(subscriptions[id].byteCount),
                                               old(subscriptions[id].accepted), message, indexes.value)
        invariant ok <==> forall id <- subscriptions.Keys - pending ::
                    && (forall i <- indexes.value :: i.value != "")
                    && (indexes.value == [] || subscriptions[id].indexes.Some?)
        decreases pending
      {
        var id :| id in pending;
        var passed := subscriptions[id].NotifyFilteredAsync(message, indexes.value);
        ok := ok && passed;
        pending := pending - {id};
      }
    }
  }
}
