/** The protocol adapter's bookkeeping: which resources it holds a subscription lease for.
    An operation runs to its end before the next one starts; the graph manager's answers (new
    subscription URIs, lease keys) are parameters. */
module OrleansAdapter {
  import opened Sequences

  type Resource = string
  type SubscriptionUri = string

  datatype Lease = Lease(subscription: SubscriptionUri, key: string)

  type Container = map<Resource, Lease>

  /** The leases of the container that belong to the given subscriptions. */
  ghost function LeasesOf(container: Container, subscriptions: set<SubscriptionUri>): set<Lease> {
    set r | r in container && container[r].subscription in subscriptions :: container[r]
  }

  ghost predicate OneEntryEach(container: Container) {
    forall r, s :: r in container && s in container && r != s ==>
      container[r].subscription != container[s].subscription
  }

  /** The container without the entries of the given subscriptions. */
  function Without(container: Container, subscriptions: set<SubscriptionUri>): Container {
    map r | r in container && container[r].subscription !in subscriptions :: container[r]
  }

  /** The list names every subscription of the set that has an entry, and none outside the set. */
  ghost predicate Lists(container: Container, subscriptions: set<SubscriptionUri>, list: set<SubscriptionUri>) {
    list <= subscriptions && forall r <- container :: container[r].subscription !in subscriptions - list
  }

  lemma EnteringHoldsOneMore(container: Container, resource: Resource, lease: Lease)
    requires resource !in container
    requires forall r <- container :: container[r].subscription != lease.subscription
    ensures OneEntryEach(container) ==> OneEntryEach(container[resource := lease])
    ensures multiset(container[resource := lease].Values) == multiset(container.Values) + multiset{lease}
  {
    var after := container[resource := lease];
    assert after[resource] == lease;
    assert forall r <- container :: after[r] == container[r];
    assert after.Values == container.Values + {lease};
    assert lease !in container.Values;
  }

  lemma NothingToRemove(container: Container, resource: Resource)
    requires resource !in container
    ensures container - {resource} == container
  {
  }

  predicate AllIn(container: Container, subscriptions: set<SubscriptionUri>) {
    forall r <- container :: container[r].subscription in subscriptions
  }

  lemma OthersStayObserved(container: Container, resource: Resource, a: set<SubscriptionUri>, b: set<SubscriptionUri>)
    requires OneEntryEach(container) && resource in container && AllIn(container, a + b)
    ensures AllIn(container - {resource}, a - {container[resource].subscription} + b)
    ensures AllIn(container - {resource}, a + b)
  {
  }

  /** A lease taken is held or leaked; a lease held no longer is given back or leaked. */
  lemma OneLeaseMoves(released: multiset<Lease>, held: multiset<Lease>, leaked: multiset<Lease>, lease: Lease)
    ensures released + held + leaked + multiset{lease} == released + (held + multiset{lease}) + leaked
    ensures released + held + leaked + multiset{lease} == released + held + (leaked + multiset{lease})
    ensures released + (held + multiset{lease}) + leaked == (released + multiset{lease}) + held + leaked
  {
  }

  lemma RemovingHoldsOneLess(container: Container, resource: Resource)
    requires OneEntryEach(container) && resource in container
    ensures multiset(container.Values) == multiset((container - {resource}).Values) + multiset{container[resource]}
  {
    var after := container - {resource};
    assert after[resource := container[resource]] == container;
    EnteringHoldsOneMore(after, resource, container[resource]);
  }

  /** Every lease of the container goes to the given subscriptions or stays. */
  lemma LeasesSplit(container: Container, subscriptions: set<SubscriptionUri>)
    ensures multiset(container.Values)
         == multiset(LeasesOf(container, subscriptions)) + multiset(Without(container, subscriptions).Values)
  {
    var gone, kept := LeasesOf(container, subscriptions), Without(container, subscriptions);
    assert forall r <- kept :: kept[r] == container[r];
    assert container.Values == gone + kept.Values by {
      forall lease | lease in container.Values ensures lease in gone + kept.Values {
        var r :| r in container && container[r] == lease;
        if r in kept {
          assert kept[r] == lease;
        }
      }
    }
    assert gone !! kept.Values;
  }

  lemma OneMoreSubscription(container: Container, done: set<SubscriptionUri>, resource: Resource)
    requires OneEntryEach(container) && resource in container && container[resource].subscription !in done
    ensures multiset(LeasesOf(container, done + {container[resource].subscription}))
         == multiset(LeasesOf(container, done)) + multiset{container[resource]}
  {
    var lease := container[resource];
    assert LeasesOf(container, done + {lease.subscription}) == LeasesOf(container, done) + {lease};
    assert lease !in LeasesOf(container, done);
  }

  /** Removing one kind of observers takes no lease of the other kind away, and together the
      two kinds have every lease. */
  lemma RemovingInTurns(container: Container, a: set<SubscriptionUri>, b: set<SubscriptionUri>,
                        list: set<SubscriptionUri>)
    requires a !! b && Lists(container, a, list) && AllIn(container, a + b)
    ensures LeasesOf(Without(container, list), b) == LeasesOf(container, b)
    ensures OneEntryEach(container) ==> OneEntryEach(Without(container, list))
    ensures multiset(LeasesOf(container, a)) + multiset(LeasesOf(container, b)) == multiset(container.Values)
  {
    LeasesSplit(container, a);
    var rest := Without(container, a);
    forall lease | lease in LeasesOf(container, b)
      ensures lease in rest.Values && lease in LeasesOf(Without(container, list), b) {
      var r :| r in container && container[r] == lease && lease.subscription in b;
      assert rest[r] == lease && Without(container, list)[r] == lease;
    }
    assert rest.Values == LeasesOf(container, b);
  }

  /** In either order, dropping what the two removals have listed empties the container. */
  lemma ListedAreGone(container: Container, a: set<SubscriptionUri>, b: set<SubscriptionUri>,
                      listA: set<SubscriptionUri>, listB: set<SubscriptionUri>)
    requires a !! b && AllIn(container, a + b)
    requires Lists(container, a, listA)
    requires Lists(container, b, listB) || Lists(Without(container, listA), b, listB)
    ensures Without(Without(container, listA), listB) == map[]
    ensures Without(Without(container, listB), listA) == map[]
  {
    forall r | r in container ensures container[r].subscription in listA + listB {
      if container[r].subscription !in listA {
        assert Without(container, listA)[r] == container[r];
      }
    }
  }

  /** The subscription at i is neither observed yet nor listed before. */
  predicate IsNew(observed: set<SubscriptionUri>, subscriptions: seq<SubscriptionUri>, i: nat)
    requires i < |subscriptions|
  {
    subscriptions[i] !in observed && subscriptions[i] !in subscriptions[..i]
  }

  predicate LoadedBefore(observed: set<SubscriptionUri>, subscriptions: seq<SubscriptionUri>,
                         resourceOf: SubscriptionUri -> Resource, n: nat, resource: Resource)
    requires n <= |subscriptions|
  {
    exists i :: 0 <= i < n && IsNew(observed, subscriptions, i) && resourceOf(subscriptions[i]) == resource
  }

  /** The lease is that of the first new subscription of the resource, with the key given out
      for that very subscription. */
  predicate EnteredBy(observed: set<SubscriptionUri>, subscriptions: seq<SubscriptionUri>,
                      resourceOf: SubscriptionUri -> Resource, leaseKeys: seq<string>, resource: Resource, lease: Lease)
    requires |leaseKeys| == |subscriptions|
  {
    exists i :: 0 <= i < |subscriptions| && IsNew(observed, subscriptions, i)
      && resourceOf(subscriptions[i]) == resource
      && !LoadedBefore(observed, subscriptions, resourceOf, i, resource)
      && lease == Lease(subscriptions[i], leaseKeys[i])
  }

  /** What is observed after the first n turns of a load. */
  function Known(observed: set<SubscriptionUri>, subscriptions: seq<SubscriptionUri>, n: nat): set<SubscriptionUri>
    requires n <= |subscriptions|
  {
    if n == 0 then observed else Known(observed, subscriptions, n - 1) + {subscriptions[n - 1]}
  }

  lemma {:induction false} KnownIs(observed: set<SubscriptionUri>, subscriptions: seq<SubscriptionUri>, n: nat,
                                   s: SubscriptionUri)
    requires n <= |subscriptions|
    ensures s in Known(observed, subscriptions, n) <==> s in observed || s in subscriptions[..n]
    decreases n
  {
    if n > 0 {
      KnownIs(observed, subscriptions, n - 1, s);
      TakeOneMore(subscriptions, n - 1);
    }
  }

  /** The resources of the new subscriptions among the first n, in order. */
  function NewUpTo(observed: set<SubscriptionUri>, subscriptions: seq<SubscriptionUri>,
                   resourceOf: SubscriptionUri -> Resource, n: nat): seq<Resource>
    requires n <= |subscriptions|
  {
    if n == 0 then []
    else
      var before := NewUpTo(observed, subscriptions, resourceOf, n - 1);
      if IsNew(observed, subscriptions, n - 1) then before + [resourceOf(subscriptions[n - 1])] else before
  }

  function NewResources(observed: set<SubscriptionUri>, subscriptions: seq<SubscriptionUri>,
                        resourceOf: SubscriptionUri -> Resource): seq<Resource>
  {
    NewUpTo(observed, subscriptions, resourceOf, |subscriptions|)
  }

  /** Some leases and those of the new subscriptions among the first n, each once. */
  function Taken(leases: multiset<Lease>, observed: set<SubscriptionUri>, subscriptions: seq<SubscriptionUri>,
                 leaseKeys: seq<string>, n: nat): multiset<Lease>
    requires n <= |subscriptions| == |leaseKeys|
  {
    if n == 0 then leases
    else
      var before := Taken(leases, observed, subscriptions, leaseKeys, n - 1);
      if !IsNew(observed, subscriptions, n - 1) then before
      else before + multiset{Lease(subscriptions[n - 1], leaseKeys[n - 1])}
  }

  /** Some leases and those of the new subscriptions whose resource had an entry by then. */
  function Leaked(leases: multiset<Lease>, observed: set<SubscriptionUri>, held: set<Resource>,
                  subscriptions: seq<SubscriptionUri>, resourceOf: SubscriptionUri -> Resource,
                  leaseKeys: seq<string>, n: nat): multiset<Lease>
    requires n <= |subscriptions| == |leaseKeys|
  {
    if n == 0 then leases
    else
      var before := Leaked(leases, observed, held, subscriptions, resourceOf, leaseKeys, n - 1);
      var resource := resourceOf(subscriptions[n - 1]);
      if IsNew(observed, subscriptions, n - 1)
         && (resource in held || LoadedBefore(observed, subscriptions, resourceOf, n - 1, resource))
      then before + multiset{Lease(subscriptions[n - 1], leaseKeys[n - 1])} else before
  }

  /** The container after the first n turns. */
  function Entered(observed: set<SubscriptionUri>, start: Container, subscriptions: seq<SubscriptionUri>,
                   resourceOf: SubscriptionUri -> Resource, leaseKeys: seq<string>, n: nat): Container
    requires n <= |subscriptions| == |leaseKeys|
  {
    if n == 0 then start
    else
      var before := Entered(observed, start, subscriptions, resourceOf, leaseKeys, n - 1);
      var resource := resourceOf(subscriptions[n - 1]);
      if !IsNew(observed, subscriptions, n - 1) || resource in before then before
      else before[resource := Lease(subscriptions[n - 1], leaseKeys[n - 1])]
  }

  lemma LoadedNext(observed: set<SubscriptionUri>, subscriptions: seq<SubscriptionUri>,
                   resourceOf: SubscriptionUri -> Resource, n: nat, r: Resource)
    requires n < |subscriptions|
    ensures LoadedBefore(observed, subscriptions, resourceOf, n + 1, r) <==>
              || LoadedBefore(observed, subscriptions, resourceOf, n, r)
              || (IsNew(observed, subscriptions, n) && resourceOf(subscriptions[n]) == r)
  {
    if LoadedBefore(observed, subscriptions, resourceOf, n, r) {
      var i :| 0 <= i < n && IsNew(observed, subscriptions, i) && resourceOf(subscriptions[i]) == r;
    } else if IsNew(observed, subscriptions, n) && resourceOf(subscriptions[n]) == r {
      assert LoadedBefore(observed, subscriptions, resourceOf, n + 1, r);
    }
  }

  lemma {:induction false} NewUpToExact(observed: set<SubscriptionUri>, subscriptions: seq<SubscriptionUri>,
                                        resourceOf: SubscriptionUri -> Resource, n: nat, r: Resource)
    requires n <= |subscriptions|
    ensures r in NewUpTo(observed, subscriptions, resourceOf, n)
       <==> LoadedBefore(observed, subscriptions, resourceOf, n, r)
    decreases n
  {
    if n > 0 {
      NewUpToExact(observed, subscriptions, resourceOf, n - 1, r);
      LoadedNext(observed, subscriptions, resourceOf, n - 1, r);
    }
  }

  /** Exactly the resources of the listed subscriptions that were not observed before. */
  lemma NewResourcesExact(observed: set<SubscriptionUri>, subscriptions: seq<SubscriptionUri>,
                          resourceOf: SubscriptionUri -> Resource, resource: Resource)
    ensures resource in NewResources(observed, subscriptions, resourceOf)
       <==> exists s :: s in subscriptions && s !in observed && resourceOf(s) == resource
  {
    NewUpToExact(observed, subscriptions, resourceOf, |subscriptions|, resource);
    if s :| s in subscriptions && s !in observed && resourceOf(s) == resource {
      var i := FirstListed(subscriptions, s);
      assert IsNew(observed, subscriptions, i);
    }
  }

  lemma {:induction false} FirstListed(subscriptions: seq<SubscriptionUri>, s: SubscriptionUri) returns (i: nat)
    requires s in subscriptions
    ensures i < |subscriptions| && subscriptions[i] == s && s !in subscriptions[..i]
  {
    if subscriptions[0] == s {
      i := 0;
    } else {
      var k := FirstListed(subscriptions[1..], s);
      i := k + 1;
      assert subscriptions[..i] == [subscriptions[0]] + subscriptions[1..][..k];
    }
  }

  lemma FirstEnters(observed: set<SubscriptionUri>, subscriptions: seq<SubscriptionUri>,
                    resourceOf: SubscriptionUri -> Resource, leaseKeys: seq<string>, i: nat)
    requires i < |subscriptions| == |leaseKeys| && IsNew(observed, subscriptions, i)
    requires !LoadedBefore(observed, subscriptions, resourceOf, i, resourceOf(subscriptions[i]))
    ensures EnteredBy(observed, subscriptions, resourceOf, leaseKeys, resourceOf(subscriptions[i]),
                      Lease(subscriptions[i], leaseKeys[i]))
  {
  }

  /** What the turns have entered, resource by resource. */
  lemma {:induction false} EnteredIs(observed: set<SubscriptionUri>, start: Container,
                                     subscriptions: seq<SubscriptionUri>, resourceOf: SubscriptionUri -> Resource,
                                     leaseKeys: seq<string>, n: nat, r: Resource)
    requires n <= |subscriptions| == |leaseKeys|
    ensures var container := Entered(observed, start, subscriptions, resourceOf, leaseKeys, n);
            && (r in container <==> r in start || LoadedBefore(observed, subscriptions, resourceOf, n, r))
            && (r in start ==> container[r] == start[r])
            && (r in container && r !in start ==>
                  EnteredBy(observed, subscriptions, resourceOf, leaseKeys, r, container[r]))
    decreases n
  {
    if n > 0 {
      var resource := resourceOf(subscriptions[n - 1]);
      EnteredIs(observed, start, subscriptions, resourceOf, leaseKeys, n - 1, r);
      LoadedNext(observed, subscriptions, resourceOf, n - 1, r);
      if IsNew(observed, subscriptions, n - 1) && r == resource && r !in start
         && !LoadedBefore(observed, subscriptions, resourceOf, n - 1, r) {
        FirstEnters(observed, subscriptions, resourceOf, leaseKeys, n - 1);
      }
    }
  }

  class Adapter {
    var container: Container
    var ephemeralObservers: set<SubscriptionUri>
    var durableObservers: set<SubscriptionUri>
    /** Every lease ever taken, every lease given back, and those nobody can give back. */
    ghost var acquired: multiset<Lease>
    ghost var released: multiset<Lease>
    ghost var leaked: multiset<Lease>

    ghost function Observed(): set<SubscriptionUri>
      reads this
    {
      ephemeralObservers + durableObservers
    }

    /** Each lease ever taken is in exactly one place: given back, in the container, or leaked. */
    ghost predicate Accounted()
      reads this
    {
      acquired == released + multiset(container.Values) + leaked
    }

    ghost predicate Valid()
      reads this
    {
      && OneEntryEach(container)
      && AllIn(container, Observed())
      && ephemeralObservers !! durableObservers
      && Accounted()
    }

    constructor ()
      ensures Valid() && container == map[] && Observed() == {} && acquired == multiset{}
    {
      container, ephemeralObservers, durableObservers := map[], {}, {};
      acquired, released, leaked := multiset{}, multiset{}, multiset{};
    }

    /** Enters a new lease; when the resource has one already, the new one is recorded nowhere. */
    method Enter(resource: Resource, lease: Lease)
      requires OneEntryEach(container) && Accounted()
      requires forall r <- container :: container[r].subscription != lease.subscription
      modifies this`container, this`acquired, this`leaked
      ensures OneEntryEach(container) && Accounted()
      ensures acquired == old(acquired) + multiset{lease}
      ensures container == if resource in old(container) then old(container) else old(container)[resource := lease]
      ensures leaked == if resource in old(container) then old(leaked) + multiset{lease} else old(leaked)
    {
      OneLeaseMoves(released, multiset(container.Values), leaked, lease);
      acquired := acquired + multiset{lease};
      if resource !in container {
        EnteringHoldsOneMore(container, resource, lease);
        container := container[resource := lease];
      } else {
        leaked := leaked + multiset{lease};
      }
    }

    method SubscribeAsync(resource: Resource, subscription: SubscriptionUri, leaseKey: string)
      requires Valid() && subscription !in Observed()
      modifies this
      ensures Valid() && resource in container
      ensures ephemeralObservers == old(ephemeralObservers) + {subscription}
      ensures durableObservers == old(durableObservers)
      ensures container == if resource in old(container) then old(container)
                           else old(container)[resource := Lease(subscription, leaseKey)]
      ensures acquired == old(acquired) + multiset{Lease(subscription, leaseKey)} && released == old(released)
      ensures leaked == if resource in old(container) then old(leaked) + multiset{Lease(subscription, leaseKey)}
                        else old(leaked)
    {
      ephemeralObservers := ephemeralObservers + {subscription};
      Enter(resource, Lease(subscription, leaseKey));
    }

    /** One turn of the durable load. */
    method LoadDurable(subscription: SubscriptionUri, resource: Resource, leaseKey: string) returns (loaded: bool)
      requires Valid() && subscription !in ephemeralObservers
      modifies this
      ensures Valid() && loaded == (subscription !in old(durableObservers))
      ensures durableObservers == old(durableObservers) + {subscription}
      ensures ephemeralObservers == old(ephemeralObservers)
      ensures released == old(released)
      ensures acquired == if loaded then old(acquired) + multiset{Lease(subscription, leaseKey)} else old(acquired)
      ensures leaked == if loaded && resource in old(container)
                        then old(leaked) + multiset{Lease(subscription, leaseKey)} else old(leaked)
      ensures container == if !loaded || resource in old(container) then old(container)
                           else old(container)[resource := Lease(subscription, leaseKey)]
    {
      loaded := subscription !in durableObservers;
      if loaded {
        durableObservers := durableObservers + {subscription};
        Enter(resource, Lease(subscription, leaseKey));
      }
    }

    /** One turn of the load: a new subscription is entered, or its lease leaks. */
    method LoadTurn(subscriptions: seq<SubscriptionUri>, resourceOf: SubscriptionUri -> Resource,
                    leaseKeys: seq<string>, i: nat, ghost observed: set<SubscriptionUri>, ghost start: Container)
      returns (loaded: bool)
      requires Valid() && i < |subscriptions| == |leaseKeys| && subscriptions[i] !in ephemeralObservers
      requires durableObservers == Known(observed, subscriptions, i)
      requires container == Entered(observed, start, subscriptions, resourceOf, leaseKeys, i)
      modifies this
      ensures Valid() && ephemeralObservers == old(ephemeralObservers) && released == old(released)
      ensures durableObservers == Known(observed, subscriptions, i + 1) && loaded == IsNew(observed, subscriptions, i)
      ensures container == Entered(observed, start, subscriptions, resourceOf, leaseKeys, i + 1)
      ensures var lease, resource := multiset{Lease(subscriptions[i], leaseKeys[i])}, resourceOf(subscriptions[i]);
              && acquired == (if loaded then old(acquired) + lease else old(acquired))
              && leaked == if loaded && (resource in start
                                         || LoadedBefore(observed, subscriptions, resourceOf, i, resource))
                           then old(leaked) + lease else old(leaked)
    {
      KnownIs(observed, subscriptions, i, subscriptions[i]);
      EnteredIs(observed, start, subscriptions, resourceOf, leaseKeys, i, resourceOf(subscriptions[i]));
      loaded := LoadDurable(subscriptions[i], resourceOf(subscriptions[i]), leaseKeys[i]);
    }

    /** The loop of the load, turn by turn. */
    method LoadAll(subscriptions: seq<SubscriptionUri>, resourceOf: SubscriptionUri -> Resource, leaseKeys: seq<string>)
      returns (list: seq<Resource>)
      requires Valid() && |leaseKeys| == |subscriptions|
      requires forall s <- subscriptions :: s !in ephemeralObservers
      modifies this
      ensures Valid() && ephemeralObservers == old(ephemeralObservers) && released == old(released)
      ensures durableObservers == Known(old(durableObservers), subscriptions, |subscriptions|)
      ensures list == NewResources(old(durableObservers), subscriptions, resourceOf)
      ensures container
           == Entered(old(durableObservers), old(container), subscriptions, resourceOf, leaseKeys, |subscriptions|)
      ensures acquired == Taken(old(acquired), old(durableObservers), subscriptions, leaseKeys, |subscriptions|)
      ensures leaked == Leaked(old(leaked), old(durableObservers), old(container).Keys, subscriptions, resourceOf,
                                             leaseKeys, |subscriptions|)
    {
      list := [];
      ghost var observed, start := durableObservers, container;
      for i := 0 to |subscriptions|
        invariant Valid() && ephemeralObservers == old(ephemeralObservers) && released == old(released)
        invariant durableObservers == Known(observed, subscriptions, i)
        invariant list == NewUpTo(observed, subscriptions, resourceOf, i)
        invariant container == Entered(observed, start, subscriptions, resourceOf, leaseKeys, i)
        invariant acquired == Taken(old(acquired), observed, subscriptions, leaseKeys, i)
        invariant leaked == Leaked(old(leaked), observed, start.Keys, subscriptions, resourceOf, leaseKeys, i)
      {
        var loaded := LoadTurn(subscriptions, resourceOf, leaseKeys, i, observed, start);
        if loaded {
          list := list + [resourceOf(subscriptions[i])];
        }
      }
    }

    /** The list returned holds the resources of the subscriptions that were new, in order. Each
        new entry is that of the first new subscription of its resource, under its own key; each
        new subscription takes its lease once, and it leaks when its resource has an entry. */
    method LoadDurableSubscriptionsAsync(subscriptions: seq<SubscriptionUri>, resourceOf: SubscriptionUri -> Resource,
                                         leaseKeys: seq<string>)
      returns (list: seq<Resource>)
      requires Valid() && |leaseKeys| == |subscriptions|
      requires forall s <- subscriptions :: s !in ephemeralObservers
      modifies this
      ensures Valid() && ephemeralObservers == old(ephemeralObservers) && released == old(released)
      ensures forall s :: s in durableObservers <==> s in old(durableObservers) || s in subscriptions
      ensures list == NewResources(old(durableObservers), subscriptions, resourceOf)
      ensures forall r :: r in container <==> r in old(container) || r in list
      ensures forall r <- old(container) :: container[r] == old(container)[r]
      ensures forall r <- container :: r !in old(container) ==>
                EnteredBy(old(durableObservers), subscriptions, resourceOf, leaseKeys, r, container[r])
      ensures acquired == Taken(old(acquired), old(durableObservers), subscriptions, leaseKeys, |subscriptions|)
      ensures leaked == Leaked(old(leaked), old(durableObservers), old(container).Keys, subscriptions, resourceOf,
                                             leaseKeys, |subscriptions|)
    {
      ghost var observed, start, n := durableObservers, container, |subscriptions|;
      list := LoadAll(subscriptions, resourceOf, leaseKeys);
      forall s ensures s in durableObservers <==> s in observed || s in subscriptions {
        KnownIs(observed, subscriptions, n, s);
        assert subscriptions[..n] == subscriptions;
      }
      forall r
        ensures r in container <==> r in start || r in list
        ensures r in start ==> container[r] == start[r]
        ensures r in container && r !in start ==>
                  EnteredBy(observed, subscriptions, resourceOf, leaseKeys, r, container[r]) {
        EnteredIs(observed, start, subscriptions, resourceOf, leaseKeys, n, r);
        NewUpToExact(observed, subscriptions, resourceOf, n, r);
      }
    }

    /** Takes an entry out of the container; its lease is given back, or nobody can any more. */
    method RemoveEntry(resource: Resource, back: bool)
      requires OneEntryEach(container) && Accounted() && resource in container
      modifies this`container, this`released, this`leaked
      ensures OneEntryEach(container) && Accounted() && container == old(container) - {resource}
      ensures released == if back then old(released) + multiset{old(container)[resource]} else old(released)
      ensures leaked == if back then old(leaked) else old(leaked) + multiset{old(container)[resource]}
    {
      var lease := container[resource];
      RemovingHoldsOneLess(container, resource);
      OneLeaseMoves(released, multiset((container - {resource}).Values), leaked, lease);
      container := container - {resource};
      if back {
        released := released + multiset{lease};
      } else {
        leaked := leaked + multiset{lease};
      }
    }

    /** An ephemeral subscription's lease is given back, unless the graph manager faults, and
        then nothing changes; a durable one's is just forgotten. */
    method UnsubscribeAsync(resource: Resource, faults: bool) returns (ok: bool)
      requires Valid()
      modifies this
      ensures !ok <==> faults && resource in old(container)
                       && old(container)[resource].subscription in old(ephemeralObservers)
      ensures Valid() && container == if ok then old(container) - {resource} else old(container)
      ensures durableObservers == old(durableObservers) && acquired == old(acquired)
      ensures ephemeralObservers == if ok && resource in old(container)
                                       && old(container)[resource].subscription in old(ephemeralObservers)
                                    then old(ephemeralObservers) - {old(container)[resource].subscription}
                                    else old(ephemeralObservers)
      ensures released == if ok && resource in old(container)
                             && old(container)[resource].subscription in old(ephemeralObservers)
                          then old(released) + multiset{old(container)[resource]} else old(released)
      ensures leaked == if resource in old(container)
                           && old(container)[resource].subscription !in old(ephemeralObservers)
                        then old(leaked) + multiset{old(container)[resource]} else old(leaked)
    {
      if resource !in container {
        NothingToRemove(container, resource);
        return true;
      }
      if container[resource].subscription !in ephemeralObservers {
        ForgetDurable(resource);
        return true;
      }
      if faults {
        return false;
      }
      GiveUpEphemeral(resource);
      return true;
    }

    method ForgetDurable(resource: Resource)
      requires Valid() && resource in container && container[resource].subscription !in ephemeralObservers
      modifies this`container, this`released, this`leaked
      ensures Valid() && container == old(container) - {resource} && released == old(released)
      ensures old(container)[resource].subscription in durableObservers
      ensures leaked == old(leaked) + multiset{old(container)[resource]}
    {
      OthersStayObserved(container, resource, ephemeralObservers, durableObservers);
      RemoveEntry(resource, false);
    }

    method GiveUpEphemeral(resource: Resource)
      requires Valid() && resource in container && container[resource].subscription in ephemeralObservers
      modifies this
      ensures Valid() && container == old(container) - {resource}
      ensures durableObservers == old(durableObservers) && acquired == old(acquired) && leaked == old(leaked)
      ensures ephemeralObservers == old(ephemeralObservers) - {old(container)[resource].subscription}
      ensures released == old(released) + multiset{old(container)[resource]}
    {
      var subscription := container[resource].subscription;
      OthersStayObserved(container, resource, ephemeralObservers, durableObservers);
      RemoveEntry(resource, true);
      ephemeralObservers := ephemeralObservers - {subscription};
    }

    /** Gives back the lease of one observer. The container holds at most one entry of each
        subscription, so the source's inner loop over its entries runs at most once. */
    method ReleaseOne(item: SubscriptionUri, ghost done: set<SubscriptionUri>, ghost before: multiset<Lease>)
      returns (listed: set<SubscriptionUri>)
      requires OneEntryEach(container) && item !in done
      requires released == before + multiset(LeasesOf(container, done))
      modifies this`released
      ensures released == before + multiset(LeasesOf(container, done + {item}))
      ensures Lists(container, {item}, listed)
    {
      if resource :| resource in container && container[resource].subscription == item {
        OneMoreSubscription(container, done, resource);
        released := released + multiset{container[resource]};
        listed := {item};
      } else {
        assert LeasesOf(container, done + {item}) == LeasesOf(container, done);
        listed := {};
      }
    }

    /** Gives back the leases of the observers of one kind; the list names the entries to drop. */
    method ReleaseLeases(subscriptions: set<SubscriptionUri>) returns (list: set<SubscriptionUri>)
      requires OneEntryEach(container)
      modifies this`released
      ensures released == old(released) + multiset(LeasesOf(container, subscriptions))
      ensures Lists(container, subscriptions, list)
    {
      var pending := subscriptions;
      ghost var done: set<SubscriptionUri> := {};
      list := {};
      assert LeasesOf(container, {}) == {};
      while pending != {}
        invariant done + pending == subscriptions && done !! pending
        invariant released == old(released) + multiset(LeasesOf(container, done))
        invariant Lists(container, done, list)
        decreases pending
      {
        var item :| item in pending;
        var listed := ReleaseOne(item, done, old(released));
        list := list + listed;
        pending := pending - {item};
        done := done + {item};
      }
      assert done == subscriptions;
    }

    method ReleaseAll(subscriptions: set<SubscriptionUri>)
      requires OneEntryEach(container)
      modifies this`container, this`released
      ensures container == Without(old(container), subscriptions)
      ensures released == old(released) + multiset(LeasesOf(old(container), subscriptions))
    {
      var list := ReleaseLeases(subscriptions);
      container := Without(container, list);
    }

    method RemoveDurableObserversAsync()
      requires Valid()
      modifies this
      ensures Valid() && durableObservers == {} && ephemeralObservers == old(ephemeralObservers)
      ensures container == Without(old(container), old(durableObservers))
      ensures released == old(released) + multiset(LeasesOf(old(container), old(durableObservers)))
      ensures acquired == old(acquired) && leaked == old(leaked)
    {
      LeasesSplit(container, durableObservers);
      ReleaseAll(durableObservers);
      durableObservers := {};
    }

    method RemoveEphemeralObserversAsync()
      requires Valid()
      modifies this
      ensures Valid() && ephemeralObservers == {} && durableObservers == old(durableObservers)
      ensures container == Without(old(container), old(ephemeralObservers))
      ensures released == old(released) + multiset(LeasesOf(old(container), old(ephemeralObservers)))
      ensures acquired == old(acquired) && leaked == old(leaked)
    {
      LeasesSplit(container, ephemeralObservers);
      ReleaseAll(ephemeralObservers);
      ephemeralObservers := {};
    }

    /** The first halves of the two removals: every lease of the container is given back. When
        the durable one has nothing to wait for, it also drops its entries. */
    method ReleaseBoth(durableWaits: bool) returns (durable: set<SubscriptionUri>, ephemeral: set<SubscriptionUri>)
      requires Valid()
      modifies this`container, this`released
      ensures released == old(released) + multiset(old(container).Values)
      ensures if durableWaits then Without(Without(container, durable), ephemeral) == map[]
                                   && Without(Without(container, ephemeral), durable) == map[]
              else Without(container, ephemeral) == map[]
    {
      durable := ReleaseLeases(durableObservers);
      RemovingInTurns(container, durableObservers, ephemeralObservers, durable);
      if !durableWaits {
        container := Without(container, durable);
      }
      ephemeral := ReleaseLeases(ephemeralObservers);
      ListedAreGone(old(container), durableObservers, ephemeralObservers, durable, ephemeral);
    }

    /** Disposing empties all three tables and releases each lease of the container exactly
        once. What stays unreleased is what has leaked before. Nobody waits for the two
        removals: the first may suspend while its leases are given back, and then either of
        them finishes first. */
    method Dispose(durableWaits: bool, durableFirst: bool)
      requires Valid()
      modifies this
      ensures Valid() && container == map[] && ephemeralObservers == {} && durableObservers == {}
      ensures released == old(released) + multiset(old(container).Values)
      ensures acquired == released + leaked && acquired == old(acquired) && leaked == old(leaked)
    {
      var durable, ephemeral := ReleaseBoth(durableWaits);
      if !durableWaits {
        durableObservers := {};
        ephemeralObservers, container := {}, Without(container, ephemeral);
      } else if durableFirst {
        durableObservers, container := {}, Without(container, durable);
        ephemeralObservers, container := {}, Without(container, ephemeral);
      } else {
        ephemeralObservers, container := {}, Without(container, ephemeral);
        durableObservers, container := {}, Without(container, durable);
      }
      assert container.Values == {};
    }
  }
}
