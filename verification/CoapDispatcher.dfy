/** The CoAP request dispatcher on top of the protocol adapter: which token a resource is
    observed under, and what every run of requests makes of it. The validator's verdict, a
    fault of the graph manager during a delete and the new subscription's names come with the
    request; a request is handled before the next one. */
module CoapDispatcher {
  import opened Wrappers
  import opened OrleansAdapter

  type Token = seq<bv8>

  datatype Kind = Acknowledgement | NonConfirmable | Reset

  datatype Code = EmptyMessage | Unauthorized | Valid | Deleted | NotAcceptable | Created

  datatype Response = Response(kind: Kind, code: Code, token: Option<Token>)

  datatype Header = Header(confirmable: bool, token: Token)

  datatype Request =
    | Observe(resource: Resource, header: Header, flag: Option<bool>, validated: bool)
    | Delete(resource: Resource, header: Header, faulted: bool)
    | Put(resource: Resource, header: Header, validated: bool)
    | DurablesLoaded(resources: seq<Resource>)

  /** What the dispatcher decides on: its two tables and the keys of the adapter's container. */
  datatype Desk = Desk(observed: map<Resource, Token>, unobserved: set<Resource>, held: set<Resource>)

  function ReplyKind(header: Header): Kind {
    if header.confirmable then Acknowledgement else NonConfirmable
  }

  function Reply(header: Header, code: Code): Response {
    Response(ReplyKind(header), code, Some(header.token))
  }

  function Handle(desk: Desk, request: Request): Desk {
    match request
    case Observe(r, header, flag, validated) =>
      if flag.None? || !validated then desk
      else if !flag.value then desk.(observed := desk.observed - {r}, held := desk.held - {r})
      else Desk(if r in desk.observed then desk.observed else desk.observed[r := header.token],
                desk.unobserved, desk.held + {r})
    case Delete(r, _, faulted) =>
      if faulted then desk else desk.(observed := desk.observed - {r}, held := desk.held - {r})
    case Put(r, _, validated) =>
      if validated || r in desk.observed || r in desk.unobserved then desk
      else desk.(unobserved := desk.unobserved + {r}, held := desk.held + {r})
    case DurablesLoaded(rs) =>
      var loaded := set r | r in rs;
      if rs == [] then desk else desk.(unobserved := loaded, held := desk.held + loaded)
  }

  /** The reply to a request; the durable load at start-up is no request of a client's. */
  function Answer(desk: Desk, request: Request): Option<Response> {
    match request
    case Observe(_, header, flag, validated) =>
      if flag.None? then Some(Response(Reset, EmptyMessage, None))
      else Some(Reply(header, if validated then Code.Valid else Unauthorized))
    case Delete(_, header, faulted) =>
      Some(if faulted then Response(Reset, EmptyMessage, None) else Reply(header, Deleted))
    case Put(r, header, validated) =>
      Some(Reply(header, if validated then Unauthorized
                         else if r in desk.observed || r in desk.unobserved then NotAcceptable
                         else Created))
    case DurablesLoaded(_) => None
  }

  function Run(requests: seq<Request>): Desk {
    if |requests| == 0 then Desk(map[], {}, {})
    else Handle(Run(requests[..|requests| - 1]), requests[|requests| - 1])
  }

  /** A client's observe of the resource that went through. */
  predicate Observes(request: Request, r: Resource) {
    request.Observe? && request.resource == r && request.validated && request.flag == Some(true)
  }

  predicate Cancels(request: Request, r: Resource) {
    || (request.Delete? && request.resource == r && !request.faulted)
    || (request.Observe? && request.resource == r && request.validated && request.flag == Some(false))
  }

  predicate CancelledBetween(requests: seq<Request>, after: nat, before: nat, r: Resource)
    requires before <= |requests|
  {
    exists k :: after < k < before && Cancels(requests[k], r)
  }

  /** Request i is the first observe of r since the last cancellation of r. */
  predicate FirstSinceCancellation(requests: seq<Request>, i: nat, r: Resource)
    requires i < |requests|
  {
    && Observes(requests[i], r)
    && !CancelledBetween(requests, i, |requests|, r)
    && (forall j :: 0 <= j < i && Observes(requests[j], r) ==> CancelledBetween(requests, j, i, r))
  }

  /** The observation in force after a run, as the history of requests alone tells it. */
  predicate InForce(requests: seq<Request>, r: Resource, token: Token) {
    exists i :: 0 <= i < |requests| && FirstSinceCancellation(requests, i, r) && requests[i].header.token == token
  }

  /** Some observation of r is in force. */
  predicate Observing(requests: seq<Request>, r: Resource) {
    exists i :: 0 <= i < |requests| && FirstSinceCancellation(requests, i, r)
  }

  /** A request about something else changes neither the first observe nor its being in force. */
  lemma OthersKeepTheFirst(before: seq<Request>, next: Request, i: nat, r: Resource)
    requires i < |before| && !Cancels(next, r)
    ensures FirstSinceCancellation(before + [next], i, r) <==> FirstSinceCancellation(before, i, r)
  {
    var requests := before + [next];
    assert forall k :: 0 <= k < |before| ==> requests[k] == before[k];
    assert CancelledBetween(requests, i, |requests|, r) <==> CancelledBetween(before, i, |before|, r);
    assert forall j :: 0 <= j < i ==>
      (CancelledBetween(requests, j, i, r) <==> CancelledBetween(before, j, i, r));
  }

  /** When no observation is in force, every earlier observe has been cancelled. */
  lemma {:induction false} NothingInForceMeansCancelled(requests: seq<Request>, r: Resource, j: nat)
    requires forall token :: !InForce(requests, r, token)
    requires j < |requests| && Observes(requests[j], r)
    ensures CancelledBetween(requests, j, |requests|, r)
    decreases j
  {
    if k :| 0 <= k < j && Observes(requests[k], r) && !CancelledBetween(requests, k, j, r) {
      NothingInForceMeansCancelled(requests, r, k);
      var m :| k < m < |requests| && Cancels(requests[m], r);
      assert j < m;
    } else if !CancelledBetween(requests, j, |requests|, r) {
      assert FirstSinceCancellation(requests, j, r);
      assert InForce(requests, r, requests[j].header.token);
    }
  }

  /** The table as the history tells it, after one request more. */
  lemma InForceAfter(before: seq<Request>, next: Request, r: Resource, token: Token)
    ensures Cancels(next, r) ==> !InForce(before + [next], r, token)
    ensures !Cancels(next, r) && InForce(before, r, token) ==> InForce(before + [next], r, token)
    ensures !Observes(next, r) && !Cancels(next, r) ==>
              (InForce(before + [next], r, token) <==> InForce(before, r, token))
    ensures Observes(next, r) && (exists other :: InForce(before, r, other)) ==>
              (InForce(before + [next], r, token) <==> InForce(before, r, token))
    ensures Observes(next, r) && (forall other :: !InForce(before, r, other)) ==>
              (InForce(before + [next], r, token) <==> token == next.header.token)
  {
    var requests := before + [next];
    var last := |before|;
    if Cancels(next, r) {
      assert requests[last] == next;
      assert forall i :: 0 <= i < last ==> CancelledBetween(requests, i, |requests|, r);
    } else {
      forall i | 0 <= i < last
        ensures FirstSinceCancellation(requests, i, r) <==> FirstSinceCancellation(before, i, r) {
        OthersKeepTheFirst(before, next, i, r);
      }
      assert forall i :: 0 <= i < last ==> requests[i] == before[i];
      if Observes(next, r) {
        ObservingAgain(before, next, r);
      }
    }
  }

  lemma ObservingAgain(before: seq<Request>, next: Request, r: Resource)
    requires Observes(next, r)
    ensures FirstSinceCancellation(before + [next], |before|, r) <==> forall token :: !InForce(before, r, token)
  {
    var requests := before + [next];
    assert forall k :: 0 <= k < |before| ==> requests[k] == before[k];
    if token :| InForce(before, r, token) {
      var i :| 0 <= i < |before| && FirstSinceCancellation(before, i, r);
      assert !CancelledBetween(before, i, |before|, r);
      assert !CancelledBetween(requests, i, |before|, r);
    } else {
      forall j | 0 <= j < |before| && Observes(requests[j], r) ensures CancelledBetween(requests, j, |before|, r) {
        NothingInForceMeansCancelled(before, r, j);
        var k :| j < k < |before| && Cancels(before[k], r);
        assert Cancels(requests[k], r);
      }
    }
  }

  /** Over every run the table holds exactly the observations in force: each resource with the
      token of its first successful observe since its last cancellation. */
  lemma {:induction false} TableHoldsTheObservationsInForce(requests: seq<Request>, r: Resource, token: Token)
    ensures (r in Run(requests).observed && Run(requests).observed[r] == token) <==> InForce(requests, r, token)
    decreases |requests|
  {
    if |requests| > 0 {
      var before, next := requests[..|requests| - 1], requests[|requests| - 1];
      assert before + [next] == requests;
      forall other
        ensures (r in Run(before).observed && Run(before).observed[r] == other) <==> InForce(before, r, other) {
        TableHoldsTheObservationsInForce(before, r, other);
      }
      if r in Run(before).observed {
        assert InForce(before, r, Run(before).observed[r]);
      }
      InForceAfter(before, next, r, token);
    }
  }

  /** In every reachable state a resource observed is one the adapter holds a lease entry for. */
  lemma {:induction false} ObservedIsHeld(requests: seq<Request>)
    ensures Run(requests).observed.Keys <= Run(requests).held
    decreases |requests|
  {
    if |requests| > 0 {
      ObservedIsHeld(requests[..|requests| - 1]);
    }
  }

  /** A put resource is refused to every later put for as long as no durable load replaces the
      table: neither a delete nor an unobserve clears the mark, though they give up the lease. */
  lemma {:induction false} PutMarkOutlivesItsSubscription(requests: seq<Request>, later: seq<Request>, r: Resource,
                                                          header: Header)
    requires r in Run(requests).unobserved
    requires forall q <- later :: q.DurablesLoaded? ==> q.resources == []
    ensures r in Run(requests + later).unobserved
    ensures Answer(Run(requests + later), Put(r, header, false)) == Some(Reply(header, NotAcceptable))
    decreases |later|
  {
    if |later| == 0 {
      assert requests + later == requests;
    } else {
      var most, last := later[..|later| - 1], later[|later| - 1];
      PutMarkOutlivesItsSubscription(requests, most, r, header);
      assert (requests + later)[..|requests + later| - 1] == requests + most;
      assert last in later;
    }
  }

  /** The three requests that show it: the resource is held by nobody and still refused. */
  lemma PutIsRefusedAfterDelete(r: Resource, header: Header)
    ensures var desk := Run([Put(r, header, false), Delete(r, header, false)]);
            && r !in desk.held && r !in desk.observed
            && Answer(desk, Put(r, header, false)) == Some(Reply(header, NotAcceptable))
  {
    var first := [Put(r, header, false)];
    var both := [Put(r, header, false), Delete(r, header, false)];
    assert both[..1] == first && first[..0] == [];
    assert Run(first) == Handle(Run([]), first[0]);
    assert Run(both) == Handle(Run(first), both[1]);
  }

  // ---- The marks of put and loaded resources ----

  predicate Loads(request: Request) {
    request.DurablesLoaded? && request.resources != []
  }

  /** Request i marks r: a load that lists it, or a put that no verdict and no observation in
      force stands against. */
  predicate Marks(requests: seq<Request>, i: nat, r: Resource)
    requires i < |requests|
  {
    match requests[i]
    case Put(resource, _, validated) => resource == r && !validated && !Observing(requests[..i], r)
    case DurablesLoaded(resources) => r in resources
    case _ => false
  }

  predicate LoadedAfter(requests: seq<Request>, i: nat) {
    exists j :: i < j < |requests| && Loads(requests[j])
  }

  lemma ObservedIffObserving(requests: seq<Request>, r: Resource)
    ensures r in Run(requests).observed <==> Observing(requests, r)
  {
    if r in Run(requests).observed {
      TableHoldsTheObservationsInForce(requests, r, Run(requests).observed[r]);
    }
    if i :| 0 <= i < |requests| && FirstSinceCancellation(requests, i, r) {
      assert InForce(requests, r, requests[i].header.token);
      TableHoldsTheObservationsInForce(requests, r, requests[i].header.token);
    }
  }

  /** Marked, as the history of requests alone tells it. */
  predicate Marked(requests: seq<Request>, r: Resource) {
    exists i :: 0 <= i < |requests| && Marks(requests, i, r) && !LoadedAfter(requests, i)
  }

  lemma MarkedAfter(before: seq<Request>, next: Request, r: Resource)
    ensures var requests := before + [next];
            Marked(requests, r) <==> Marks(requests, |before|, r) || (Marked(before, r) && !Loads(next))
  {
    var requests := before + [next];
    var last := |before|;
    forall i | 0 <= i < last
      ensures Marks(requests, i, r) <==> Marks(before, i, r)
      ensures LoadedAfter(requests, i) <==> LoadedAfter(before, i) || Loads(next) {
      assert requests[..i] == before[..i];
      assert requests[last] == next && forall j :: 0 <= j < last ==> requests[j] == before[j];
      if j :| i < j < |before| && Loads(before[j]) {
        assert Loads(requests[j]);
      }
    }
    if Marked(before, r) {
      var i :| 0 <= i < |before| && Marks(before, i, r) && !LoadedAfter(before, i);
      assert Marks(requests, i, r);
    }
    assert !LoadedAfter(requests, last);
  }

  /** Over every run the other table holds exactly the marks: a resource is in it if and only if
      it was put, or listed by a load, and no load that lists something came since. */
  lemma {:induction false} TableHoldsTheMarks(requests: seq<Request>, r: Resource)
    ensures r in Run(requests).unobserved <==> Marked(requests, r)
    decreases |requests|
  {
    if |requests| > 0 {
      var before, next := requests[..|requests| - 1], requests[|requests| - 1];
      assert before + [next] == requests && requests[..|before|] == before;
      TableHoldsTheMarks(before, r);
      ObservedIffObserving(before, r);
      MarkedAfter(before, next, r);
    }
  }

  /** An observe goes through only where the validator accepts, a put only where it refuses. So
      while its verdict on a resource does not change, no run ever has the resource both put
      and observed: one of the two is open to clients and the other never is. */
  lemma {:induction false} SteadyVerdictAllowsOneKind(requests: seq<Request>, r: Resource, verdict: bool)
    requires forall q <- requests :: (q.Observe? || q.Put?) && q.resource == r ==> q.validated == verdict
    requires forall q <- requests :: q.DurablesLoaded? ==> r !in q.resources
    ensures if verdict then r !in Run(requests).unobserved else r !in Run(requests).observed
    decreases |requests|
  {
    if |requests| > 0 {
      assert requests[|requests| - 1] in requests;
      SteadyVerdictAllowsOneKind(requests[..|requests| - 1], r, verdict);
    }
  }

  lemma KeysGrow(before: set<Resource>, after: set<Resource>, list: seq<Resource>)
    requires forall r :: r in after <==> r in before || r in list
    ensures after == before + set r | r in list
    ensures list == [] ==> after == before
  {
  }

  class CoapRequestDispatcher {
    const adapter: Adapter
    var coapObserved: map<Resource, Token>
    var coapUnobserved: set<Resource>
    /** Everything handled so far. */
    ghost var handled: seq<Request>

    function Tables(): Desk
      reads this, adapter
    {
      Desk(coapObserved, coapUnobserved, adapter.container.Keys)
    }

    ghost predicate Valid()
      reads this, adapter
    {
      adapter.Valid() && Tables() == Run(handled)
    }

    constructor ()
      ensures Valid() && fresh(adapter) && handled == []
    {
      coapObserved, coapUnobserved, handled := map[], {}, [];
      adapter := new Adapter();
    }

    ghost method Record(request: Request, before: Desk)
      requires before == Run(handled) && Tables() == Handle(before, request)
      modifies this`handled
      ensures handled == old(handled) + [request] && Tables() == Run(handled)
    {
      assert (handled + [request])[..|handled|] == handled;
      handled := handled + [request];
    }

    method Cancel(resource: Resource, faults: bool) returns (ok: bool)
      requires Valid()
      modifies this`coapObserved, adapter
      ensures adapter.Valid() && (!ok ==> faults)
      ensures adapter.container == if ok then old(adapter.container) - {resource} else old(adapter.container)
      ensures Tables() == if !ok then old(Tables())
                          else Desk(old(coapObserved) - {resource}, coapUnobserved, old(Tables()).held - {resource})
    {
      ok := adapter.UnsubscribeAsync(resource, faults);
      if ok {
        coapObserved := coapObserved - {resource};
      }
    }

    method Observe(resource: Resource, token: Token, subscription: SubscriptionUri, leaseKey: string)
      requires Valid() && subscription !in adapter.Observed()
      modifies this`coapObserved, adapter
      ensures adapter.Valid() && coapUnobserved == old(coapUnobserved)
      ensures coapObserved == if resource in old(coapObserved) then old(coapObserved)
                              else old(coapObserved)[resource := token]
      ensures adapter.container.Keys == old(adapter.container.Keys) + {resource}
      ensures adapter.ephemeralObservers == old(adapter.ephemeralObservers) + {subscription}
    {
      adapter.SubscribeAsync(resource, subscription, leaseKey);
      if resource !in coapObserved {
        coapObserved := coapObserved[resource := token];
      }
    }

    method DeleteAsync(resource: Resource, header: Header, faults: bool) returns (response: Response)
      requires Valid()
      modifies this, adapter
      ensures Valid() && (!faults ==> response.code == Deleted)
      ensures || response == Response(Reset, EmptyMessage, None)
              || (response.kind == (if header.confirmable then Acknowledgement else NonConfirmable)
                  && response.code == Deleted && response.token == Some(header.token))
      ensures response.code == Deleted ==>
                && coapObserved == old(coapObserved) - {resource}
                && adapter.container == old(adapter.container) - {resource}
      ensures response.code == EmptyMessage ==>
                coapObserved == old(coapObserved) && adapter.container == old(adapter.container)
      ensures handled == old(handled) + [Request.Delete(resource, header, response.code == EmptyMessage)]
      ensures Some(response) == Answer(old(Tables()), Request.Delete(resource, header, response.code == EmptyMessage))
    {
      ghost var before := Tables();
      var ok := Cancel(resource, faults);
      Record(Request.Delete(resource, header, !ok), before);
      response := if ok then Reply(header, Deleted) else Response(Reset, EmptyMessage, None);
    }

    method ObserveAsync(resource: Resource, header: Header, flag: Option<bool>, validated: bool,
                        subscription: SubscriptionUri, leaseKey: string)
      returns (response: Response)
      requires Valid() && subscription !in adapter.Observed()
      modifies this, adapter
      ensures Valid() && handled == old(handled) + [Request.Observe(resource, header, flag, validated)]
      ensures Some(response) == Answer(old(Tables()), Request.Observe(resource, header, flag, validated))
      ensures flag.None? ==> response == Response(Reset, EmptyMessage, None)
      ensures flag.Some? ==>
                && response.kind == (if header.confirmable then Acknowledgement else NonConfirmable)
                && response.token == Some(header.token)
                && response.code == if validated then Code.Valid else Unauthorized
      ensures flag.None? || !validated ==>
                coapObserved == old(coapObserved) && adapter.container == old(adapter.container)
      ensures validated && flag == Some(true) ==>
                && adapter.ephemeralObservers == old(adapter.ephemeralObservers) + {subscription}
                && resource in coapObserved && resource in adapter.container
                && (resource !in old(coapObserved) ==> coapObserved[resource] == header.token)
      ensures validated && flag == Some(false) ==> resource !in coapObserved && resource !in adapter.container
    {
      ghost var before, request := Tables(), Request.Observe(resource, header, flag, validated);
      if flag.None? {
        Record(request, before);
        return Response(Reset, EmptyMessage, None);
      }
      if !validated {
        Record(request, before);
        return Reply(header, Unauthorized);
      }
      if !flag.value {
        var ok := Cancel(resource, false);
      } else {
        Observe(resource, header.token, subscription, leaseKey);
      }
      Record(request, before);
      response := Reply(header, Code.Valid);
    }

    method PutAsync(resource: Resource, header: Header, validated: bool, subscription: SubscriptionUri,
                    leaseKey: string)
      returns (response: Response)
      requires Valid() && subscription !in adapter.Observed()
      modifies this, adapter
      ensures Valid() && handled == old(handled) + [Put(resource, header, validated)]
      ensures Some(response) == Answer(old(Tables()), Put(resource, header, validated))
      ensures response.kind == (if header.confirmable then Acknowledgement else NonConfirmable)
              && response.token == Some(header.token)
      ensures response.code == if validated then Unauthorized
                               else if resource in old(coapObserved) then NotAcceptable
                               else if resource in old(coapUnobserved) then NotAcceptable
                               else Created
      ensures response.code == Created ==>
                && adapter.ephemeralObservers == old(adapter.ephemeralObservers) + {subscription}
                && resource in coapUnobserved && resource in adapter.container
      ensures response.code != Created ==>
                coapUnobserved == old(coapUnobserved) && adapter.container == old(adapter.container)
    {
      ghost var before, request := Tables(), Put(resource, header, validated);
      if validated {
        Record(request, before);
        return Reply(header, Unauthorized);
      }
      if resource in coapObserved || resource in coapUnobserved {
        Record(request, before);
        return Reply(header, NotAcceptable);
      }
      adapter.SubscribeAsync(resource, subscription, leaseKey);
      coapUnobserved := coapUnobserved + {resource};
      assert Tables() == Handle(before, request);
      Record(request, before);
      response := Reply(header, Created);
    }

    method LoadDurablesAsync(subscriptions: seq<SubscriptionUri>, resourceOf: SubscriptionUri -> Resource,
                             leaseKeys: seq<string>)
      requires Valid() && |leaseKeys| == |subscriptions|
      requires forall s <- subscriptions :: s !in adapter.ephemeralObservers
      modifies this, adapter
      ensures Valid()
      ensures var list := NewResources(old(adapter.durableObservers), subscriptions, resourceOf);
              handled == old(handled) + [DurablesLoaded(list)]
    {
      ghost var before := Tables();
      var list := adapter.LoadDurableSubscriptionsAsync(subscriptions, resourceOf, leaseKeys);
      if list != [] {
        coapUnobserved := set r | r in list;
      }
      KeysGrow(before.held, adapter.container.Keys, list);
      assert Tables() == Handle(before, DurablesLoaded(list));
      Record(DurablesLoaded(list), before);
    }

    /** The token a message about the resource is sent under, if any: the one of the first
        observe since the last cancellation. */
    method NotificationToken(resource: Resource) returns (token: Option<Token>)
      requires Valid()
      ensures token.Some? ==> InForce(handled, resource, token.value) && resource in adapter.container
      ensures token.None? ==> forall t :: !InForce(handled, resource, t)
    {
      ObservedIsHeld(handled);
      forall t ensures (resource in coapObserved && coapObserved[resource] == t) <==> InForce(handled, resource, t) {
        TableHoldsTheObservationsInForce(handled, resource, t);
      }
      token := if resource in coapObserved then Some(coapObserved[resource]) else None;
    }
  }
}
