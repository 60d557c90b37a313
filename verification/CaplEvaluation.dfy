/** What a policy decides. `Holds` gives the meaning of a term; the methods are the evaluators
    with their early returns, proved to compute it. */
module CaplEvaluation {
  import opened Sequences
  import opened Wrappers
  import opened CaplPolicy
  import opened CaplXml
  import opened CaplReader
  import opened CaplRoundTrip
  import opened CaplReload

  /** The match expressions, operations and transform actions, looked up by URI. A transform
      action may return null, which leaves the claims as they are. */
  datatype Library = Library(
    matchClaims: (Uri, seq<Claim>, Option<string>, Option<string>) -> seq<Claim>,
    execute: (Uri, string, Option<string>) -> bool,
    transform: (Uri, seq<Claim>, Option<seq<Claim>>, Option<LiteralClaim>) -> Option<seq<Claim>>)

  datatype Identity = Identity(claims: seq<Claim>, actorClaims: Option<seq<Claim>>)

  // ---- Meaning ----

  function IssuedBy(claims: seq<Claim>, issuer: Option<string>): seq<Claim> {
    if issuer.None? then claims
    else if |claims| == 0 then []
    else (if claims[0].issuer == issuer.value then [claims[0]] else []) + IssuedBy(claims[1..], issuer)
  }

  function Matched(lib: Library, m: Match, claims: seq<Claim>): seq<Claim> {
    lib.matchClaims(m.matchType, claims, m.claimType, m.value)
  }

  predicate Satisfies(lib: Library, o: Operation, c: Claim) {
    lib.execute(o.operationType, c.value, o.claimValue)
  }

  predicate RuleHolds(lib: Library, r: Rule, claims: seq<Claim>)
    requires r.operation.Some? && r.matcher.Some?
  {
    var found := Matched(lib, r.matcher.value, claims);
    if |found| == 0 then !r.matcher.value.required
    else (exists c :: c in IssuedBy(found, r.issuer) && Satisfies(lib, r.operation.value, c)) == r.evaluates
  }

  predicate Holds(lib: Library, t: Term, claims: seq<Claim>)
    requires Complete(t)
  {
    match t
    case RuleTerm(r) => RuleHolds(lib, r, claims)
    case Connective(And, _, e, ts) => (forall c <- ts :: Holds(lib, c, claims)) == e
    case Connective(Or, _, e, ts) => (exists c <- ts :: Holds(lib, c, claims)) == e
  }

  function Transformed(lib: Library, c: ClaimTransform, claims: seq<Claim>): seq<Claim>
    requires CompleteTransform(c)
  {
    var matched := if c.matcher.Some? then Some(Matched(lib, c.matcher.value, claims)) else None;
    if c.expression.Some? && !Holds(lib, c.expression.value, claims) then claims
    else
      var result := lib.transform(c.transformType, claims, matched, c.target);
      if result.Some? then result.value else claims
  }

  function TransformedAll(lib: Library, cs: seq<ClaimTransform>, claims: seq<Claim>): seq<Claim>
    requires forall c <- cs :: CompleteTransform(c)
  {
    if |cs| == 0 then claims else TransformedAll(lib, cs[1..], Transformed(lib, cs[0], claims))
  }

  predicate Allows(lib: Library, p: Policy, identity: Identity)
    requires CompletePolicy(p)
  {
    var claims := if p.delegation then identity.actorClaims else Some(identity.claims);
    claims.Some? && Holds(lib, p.expression.value, TransformedAll(lib, p.transforms, claims.value))
  }

  // ---- The evaluators ----

  lemma {:induction false} RemoveFirstAt(claims: seq<Claim>, i: nat)
    requires i < |claims| && forall j :: 0 <= j < i ==> claims[j] != claims[i]
    ensures RemoveFirst(claims, claims[i]) == claims[..i] + claims[i + 1..]
  {
    if i != 0 {
      RemoveFirstAt(claims[1..], i - 1);
    }
  }

  lemma {:induction false} IssuedByConcat(a: seq<Claim>, b: seq<Claim>, issuer: Option<string>)
    ensures IssuedBy(a + b, issuer) == IssuedBy(a, issuer) + IssuedBy(b, issuer)
  {
    if issuer.Some? {
      if |a| == 0 {
        assert a + b == b;
      } else {
        assert (a + b)[1..] == a[1..] + b;
        IssuedByConcat(a[1..], b, issuer);
      }
    }
  }

  lemma {:induction false} IssuedByAll(claims: seq<Claim>, issuer: string)
    requires forall c <- claims :: c.issuer == issuer
    ensures IssuedBy(claims, Some(issuer)) == claims
  {
    if |claims| != 0 {
      IssuedByAll(claims[1..], issuer);
    }
  }

  /** The loop that removes foreign claims while stepping over the same list. */
  method KeepIssuer(claims: seq<Claim>, issuer: string) returns (list: seq<Claim>)
    ensures list == IssuedBy(claims, Some(issuer))
  {
    list := claims;
    var index, count := 0, |list|;
    while index < count
      invariant 0 <= index <= count == |list|
      invariant forall j :: 0 <= j < index ==> list[j].issuer == issuer
      invariant IssuedBy(list, Some(issuer)) == IssuedBy(claims, Some(issuer))
      decreases count - index
    {
      if list[index].issuer != issuer {
        RemoveFirstAt(list, index);
        DropForeign(list, index, issuer);
        list := RemoveFirst(list, list[index]);
        index := index - 1;
        count := count - 1;
      }
      index := index + 1;
    }
    IssuedByAll(list, issuer);
  }

  lemma DropForeign(list: seq<Claim>, i: nat, issuer: string)
    requires i < |list| && list[i].issuer != issuer
    ensures IssuedBy(list[..i] + list[i + 1..], Some(issuer)) == IssuedBy(list, Some(issuer))
  {
    SplitAt(list, i);
    DropMiddle(list[..i], list[i], list[i + 1..], issuer);
  }

  lemma SplitAt(list: seq<Claim>, i: nat)
    requires i < |list|
    ensures list[..i] + ([list[i]] + list[i + 1..]) == list
  {
  }

  lemma DropMiddle(kept: seq<Claim>, c: Claim, later: seq<Claim>, issuer: string)
    requires c.issuer != issuer
    ensures IssuedBy(kept + ([c] + later), Some(issuer)) == IssuedBy(kept + later, Some(issuer))
  {
    IssuedByConcat(kept, [c] + later, Some(issuer));
    IssuedByConcat(kept, later, Some(issuer));
    assert ([c] + later)[1..] == later;
    assert IssuedBy([c] + later, Some(issuer)) == [] + IssuedBy(later, Some(issuer));
  }

  lemma {:induction false} IssuedByExact(claims: seq<Claim>, issuer: Option<string>, c: Claim)
    ensures c in IssuedBy(claims, issuer) <==> c in claims && (issuer == None || issuer == Some(c.issuer))
  {
    if issuer.Some? && |claims| != 0 {
      IssuedByExact(claims[1..], issuer, c);
      assert c in claims <==> c == claims[0] || c in claims[1..];
    }
  }

  /** What a rule asks the library: its match of the claims, then its operation on the value of
      each claim of the wanted issuer. */
  lemma RuleAsksTheLibrary(lib: Library, r: Rule, claims: seq<Claim>)
    requires r.operation.Some? && r.matcher.Some?
    ensures var m, o := r.matcher.value, r.operation.value;
            var found := lib.matchClaims(m.matchType, claims, m.claimType, m.value);
            RuleHolds(lib, r, claims)
            == if found == [] then !m.required
               else (exists c :: c in found && (r.issuer == None || r.issuer == Some(c.issuer))
                                 && lib.execute(o.operationType, c.value, o.claimValue)) == r.evaluates
  {
    var found := Matched(lib, r.matcher.value, claims);
    forall c
      ensures c in IssuedBy(found, r.issuer) <==> c in found && (r.issuer == None || r.issuer == Some(c.issuer)) {
      IssuedByExact(found, r.issuer, c);
    }
  }

  method EvaluateRule(lib: Library, r: Rule, claims: seq<Claim>) returns (result: bool)
    requires r.operation.Some? && r.matcher.Some?
    ensures result == RuleHolds(lib, r, claims)
  {
    var list := Matched(lib, r.matcher.value, claims);
    if |list| == 0 {
      return !r.matcher.value.required;
    }
    if r.issuer.Some? {
      list := KeepIssuer(list, r.issuer.value);
    }
    for i := 0 to |list|
      invariant forall j :: 0 <= j < i ==> !Satisfies(lib, r.operation.value, list[j])
    {
      var eval := Satisfies(lib, r.operation.value, list[i]);
      if r.evaluates && eval {
        return true;
      }
      if !r.evaluates && eval {
        return false;
      }
    }
    return !r.evaluates;
  }

  method EvaluateTerm(lib: Library, t: Term, claims: seq<Claim>) returns (result: bool)
    requires Complete(t)
    ensures result == Holds(lib, t, claims)
    ensures t.RuleTerm? ==> result == RuleHolds(lib, t.rule, claims)
    ensures t.Connective? && t.kind == And ==> result == ((forall c <- t.terms :: Holds(lib, c, claims)) == t.evaluates)
    ensures t.Connective? && t.kind == Or ==> result == ((exists c <- t.terms :: Holds(lib, c, claims)) == t.evaluates)
    decreases t
  {
    match t
    case RuleTerm(r) =>
      result := EvaluateRule(lib, r, claims);
    case Connective(And, _, evaluates, ts) =>
      for i := 0 to |ts|
        invariant forall j :: 0 <= j < i ==> Holds(lib, ts[j], claims)
      {
        var eval := EvaluateTerm(lib, ts[i], claims);
        if !eval {
          if !evaluates {
            return true;
          }
          return false;
        }
      }
      return evaluates;
    case Connective(Or, _, evaluates, ts) =>
      for i := 0 to |ts|
        invariant forall j :: 0 <= j < i ==> !Holds(lib, ts[j], claims)
      {
        var eval := EvaluateTerm(lib, ts[i], claims);
        if evaluates {
          if eval {
            return true;
          }
        } else {
          if eval {
            return false;
          }
        }
      }
      return !evaluates;
  }

  /** What the action makes of the claims and of those the transform matches, if anything. */
  function ActionResult(lib: Library, c: ClaimTransform, claims: seq<Claim>): seq<Claim> {
    var matched := match c.matcher
                   case Some(m) => Some(lib.matchClaims(m.matchType, claims, m.claimType, m.value))
                   case None => None;
    match lib.transform(c.transformType, claims, matched, c.target)
    case Some(result) => result
    case None => claims
  }

  method TransformClaims(lib: Library, c: ClaimTransform, claims: seq<Claim>) returns (result: seq<Claim>)
    requires CompleteTransform(c)
    ensures result == Transformed(lib, c, claims)
    ensures c.expression.Some? && !Holds(lib, c.expression.value, claims) ==> result == claims
    ensures c.expression.None? || Holds(lib, c.expression.value, claims) ==> result == ActionResult(lib, c, claims)
  {
    var matched: Option<seq<Claim>> := None;
    if c.matcher.Some? {
      matched := Some(Matched(lib, c.matcher.value, claims));
    }
    var eval := true;
    if c.expression.Some? {
      eval := EvaluateTerm(lib, c.expression.value, claims);
    }
    var transformed: Option<seq<Claim>> := None;
    if eval {
      transformed := lib.transform(c.transformType, claims, matched, c.target);
    }
    return if transformed.Some? then transformed.value else claims;
  }

  /** The fold shared by a policy's evaluation, by the collection and by issuance. */
  method TransformAll(lib: Library, cs: seq<ClaimTransform>, input: seq<Claim>) returns (claims: seq<Claim>)
    requires forall c <- cs :: CompleteTransform(c)
    ensures claims == TransformedAll(lib, cs, input)
  {
    claims := input;
    for i := 0 to |cs|
      invariant TransformedAll(lib, cs[i..], claims) == TransformedAll(lib, cs, input)
    {
      claims := TransformClaims(lib, cs[i], claims);
      assert cs[i..][1..] == cs[i + 1..];
    }
  }

  method EvaluatePolicy(lib: Library, p: Policy, identity: Identity) returns (result: bool)
    requires CompletePolicy(p)
    ensures result == Allows(lib, p, identity)
    ensures !p.delegation ==>
              result == Holds(lib, p.expression.value, TransformedAll(lib, p.transforms, identity.claims))
    ensures p.delegation && identity.actorClaims.Some? ==>
              result == Holds(lib, p.expression.value, TransformedAll(lib, p.transforms, identity.actorClaims.value))
    ensures p.delegation && identity.actorClaims.None? ==> !result
  {
    var claims;
    if !p.delegation {
      claims := identity.claims;
    } else if identity.actorClaims.Some? {
      claims := identity.actorClaims.value;
    } else {
      return false;
    }
    claims := TransformAll(lib, p.transforms, claims);
    result := EvaluateTerm(lib, p.expression.value, claims);
  }

  /** A collection of one transform does what the transform does. */
  lemma OneTransform(lib: Library, c: ClaimTransform, claims: seq<Claim>)
    requires CompleteTransform(c)
    ensures TransformedAll(lib, [c], claims)
         == if c.expression.Some? && !Holds(lib, c.expression.value, claims) then claims
            else ActionResult(lib, c, claims)
  {
    assert [c][1..] == [];
    assert TransformedAll(lib, [], Transformed(lib, c, claims)) == Transformed(lib, c, claims);
  }

  lemma {:induction false} FailingGuardsKeepClaims(lib: Library, cs: seq<ClaimTransform>, claims: seq<Claim>)
    requires forall c <- cs :: CompleteTransform(c) && c.expression.Some? && !Holds(lib, c.expression.value, claims)
    ensures TransformedAll(lib, cs, claims) == claims
  {
    if |cs| != 0 {
      FailingGuardsKeepClaims(lib, cs[1..], claims);
    }
  }

  /** A policy all of whose guards fail decides as the same policy without transforms. */
  lemma FailingGuardsDecideNothing(lib: Library, p: Policy, identity: Identity)
    requires CompletePolicy(p)
    requires var claims := if p.delegation then identity.actorClaims else Some(identity.claims);
             claims.Some? ==>
               forall c <- p.transforms :: c.expression.Some? && !Holds(lib, c.expression.value, claims.value)
    ensures Allows(lib, p, identity) == Allows(lib, p.(transforms := []), identity)
  {
    var claims := if p.delegation then identity.actorClaims else Some(identity.claims);
    if claims.Some? {
      FailingGuardsKeepClaims(lib, p.transforms, claims.value);
    }
  }

  // ---- Negation ----

  /** Flipping the flag of a connective negates it. */
  lemma FlippedConnective(lib: Library, t: Term, claims: seq<Claim>)
    requires t.Connective? && Complete(t)
    ensures var flipped := t.(evaluates := !t.evaluates);
            Complete(flipped) && Holds(lib, flipped, claims) == !Holds(lib, t, claims)
  {
  }

  /** Flipping the flag of a rule negates it exactly when its match finds a claim. */
  lemma FlippedRule(lib: Library, r: Rule, claims: seq<Claim>)
    requires r.operation.Some? && r.matcher.Some?
    ensures RuleHolds(lib, r.(evaluates := !r.evaluates), claims) == !RuleHolds(lib, r, claims)
            <==> Matched(lib, r.matcher.value, claims) != []
  {
  }

  /** Terms with negation only at the rules. */
  datatype Signed = Literal(positive: bool, rule: Rule) | All(parts: seq<Signed>) | Any(parts: seq<Signed>)

  predicate CompleteSigned(s: Signed) {
    match s
    case Literal(_, r) => r.operation.Some? && r.matcher.Some?
    case All(ps) => forall p <- ps :: CompleteSigned(p)
    case Any(ps) => forall p <- ps :: CompleteSigned(p)
  }

  predicate SignedHolds(lib: Library, s: Signed, claims: seq<Claim>)
    requires CompleteSigned(s)
  {
    match s
    case Literal(positive, r) => RuleHolds(lib, r, claims) == positive
    case All(ps) => forall p <- ps :: SignedHolds(lib, p, claims)
    case Any(ps) => exists p <- ps :: SignedHolds(lib, p, claims)
  }

  /** Pushes the flags of the connectives down to the rules. */
  function PushDown(t: Term, positive: bool): Signed {
    match t
    case RuleTerm(r) => Literal(positive, r)
    case Connective(k, _, e, ts) =>
      var sign := positive == e;
      var parts := seq(|ts|, i requires 0 <= i < |ts| => PushDown(ts[i], sign));
      if (k == And) == sign then All(parts) else Any(parts)
  }

  /** De Morgan: pushing the flags down keeps the meaning of every term. */
  lemma {:induction false} PushDownKeepsMeaning(lib: Library, t: Term, positive: bool, claims: seq<Claim>)
    requires Complete(t)
    ensures CompleteSigned(PushDown(t, positive))
    ensures SignedHolds(lib, PushDown(t, positive), claims) <==> (Holds(lib, t, claims) == positive)
    decreases t
  {
    match t
    case RuleTerm(_) =>
    case Connective(k, _, e, ts) =>
      var sign := positive == e;
      var s := PushDown(t, positive);
      forall i | 0 <= i < |ts|
        ensures s.parts[i] == PushDown(ts[i], sign) && CompleteSigned(s.parts[i])
        ensures SignedHolds(lib, s.parts[i], claims) <==> (Holds(lib, ts[i], claims) == sign)
      {
        PushDownKeepsMeaning(lib, ts[i], sign, claims);
      }
      assert (forall p <- s.parts :: SignedHolds(lib, p, claims))
        <==> forall i :: 0 <= i < |ts| ==> SignedHolds(lib, s.parts[i], claims);
      assert (exists p <- s.parts :: SignedHolds(lib, p, claims))
        <==> exists i :: 0 <= i < |ts| && SignedHolds(lib, s.parts[i], claims);
  }

  // ---- A reloaded policy ----

  /** The library does not tell the texts of the rule from what they are read back as. */
  ghost predicate BlindToRule(lib: Library, r: Rule)
    requires r.operation.Some? && r.matcher.Some?
  {
    && (forall cs :: Matched(lib, NormalMatch(r.matcher.value), cs) == Matched(lib, r.matcher.value, cs))
    && (forall c :: Satisfies(lib, NormalOperation(r.operation.value), c) == Satisfies(lib, r.operation.value, c))
  }

  ghost predicate BlindToTerm(lib: Library, t: Term)
    requires Complete(t)
  {
    match t
    case RuleTerm(r) => BlindToRule(lib, r)
    case Connective(_, _, _, ts) => forall c <- ts :: BlindToTerm(lib, c)
  }

  ghost predicate BlindToTransform(lib: Library, c: ClaimTransform)
    requires CompleteTransform(c)
  {
    && (c.matcher.Some? ==>
          forall cs :: Matched(lib, NormalMatch(c.matcher.value), cs) == Matched(lib, c.matcher.value, cs))
    && (c.target.Some? ==> forall cs, m :: lib.transform(c.transformType, cs, m, Some(NormalTarget(c.target.value)))
                                        == lib.transform(c.transformType, cs, m, c.target))
    && (c.expression.Some? ==> BlindToTerm(lib, c.expression.value))
  }

  ghost predicate BlindToPolicy(lib: Library, p: Policy)
    requires CompletePolicy(p)
  {
    BlindToTerm(lib, p.expression.value) && forall c <- p.transforms :: BlindToTransform(lib, c)
  }

  /** The library tells no empty text from an absent one. */
  ghost predicate Indifferent(lib: Library) {
    && (forall u, cs, ct, v :: lib.matchClaims(u, cs, ct, v) == lib.matchClaims(u, cs, NullToEmpty(ct), EmptyToNull(v)))
    && (forall u, x, v :: lib.execute(u, x, v) == lib.execute(u, x, EmptyToNull(v)))
    && (forall u, cs, m, c :: lib.transform(u, cs, m, Some(c)) == lib.transform(u, cs, m, Some(NormalTarget(c))))
  }

  /** No text of the policy is empty where the reader would return null, or null where it
      would return the empty string. */
  predicate BlankFree(p: Policy) {
    && (p.expression.Some? ==> NormalTerm(p.expression.value) == p.expression.value)
    && forall c <- p.transforms :: NormalTransform(c) == c.(transformId := None)
  }

  lemma {:induction false} BlindToTermWhen(lib: Library, t: Term)
    requires Complete(t) && (NormalTerm(t) == t || Indifferent(lib))
    ensures BlindToTerm(lib, t)
    decreases t
  {
    match t
    case RuleTerm(_) =>
    case Connective(_, _, _, ts) =>
      forall c | c in ts ensures BlindToTerm(lib, c) {
        var i :| 0 <= i < |ts| && ts[i] == c;
        assert NormalTerms(ts)[i] == NormalTerm(c);
        BlindToTermWhen(lib, c);
      }
  }

  /** Two ways to be blind to a policy: it has nothing to tell apart, or the library never
      tells. */
  lemma BlindToPolicyWhen(lib: Library, p: Policy)
    requires CompletePolicy(p) && (BlankFree(p) || Indifferent(lib))
    ensures BlindToPolicy(lib, p)
  {
    BlindToTermWhen(lib, p.expression.value);
    forall c | c in p.transforms ensures BlindToTransform(lib, c) {
      if c.expression.Some? {
        BlindToTermWhen(lib, c.expression.value);
      }
    }
  }

  lemma {:induction false} NormalTermIsComplete(t: Term)
    requires Complete(t)
    ensures Complete(NormalTerm(t))
    decreases t
  {
    if t.Connective? {
      forall c <- NormalTerms(t.terms) ensures Complete(c) {
        var i :| 0 <= i < |t.terms| && c == NormalTerm(t.terms[i]);
        NormalTermIsComplete(t.terms[i]);
      }
    }
  }

  /** Lists of terms that hold alike, one by one, hold alike under both connectives. */
  lemma ListsHoldAlike(lib: Library, ts: seq<Term>, ns: seq<Term>, claims: seq<Claim>)
    requires |ts| == |ns| && (forall c <- ts :: Complete(c)) && (forall c <- ns :: Complete(c))
    requires forall i :: 0 <= i < |ts| ==> Holds(lib, ns[i], claims) == Holds(lib, ts[i], claims)
    ensures (forall c <- ns :: Holds(lib, c, claims)) <==> (forall c <- ts :: Holds(lib, c, claims))
    ensures (exists c <- ns :: Holds(lib, c, claims)) <==> (exists c <- ts :: Holds(lib, c, claims))
  {
    assert forall i :: 0 <= i < |ts| ==> ts[i] in ts && ns[i] in ns;
  }

  lemma NormalRuleHoldsAlike(lib: Library, r: Rule, claims: seq<Claim>)
    requires r.operation.Some? && r.matcher.Some? && BlindToRule(lib, r)
    ensures RuleHolds(lib, NormalRule(r), claims) == RuleHolds(lib, r, claims)
  {
    var found := Matched(lib, r.matcher.value, claims);
    assert Matched(lib, NormalMatch(r.matcher.value), claims) == found;
    var o, n := r.operation.value, NormalOperation(r.operation.value);
    assert forall c :: Satisfies(lib, n, c) == Satisfies(lib, o, c);
  }

  lemma {:induction false} NormalTermHoldsAlike(lib: Library, t: Term, claims: seq<Claim>)
    requires Complete(t) && BlindToTerm(lib, t)
    ensures Complete(NormalTerm(t))
    ensures Holds(lib, NormalTerm(t), claims) == Holds(lib, t, claims)
    decreases t
  {
    NormalTermIsComplete(t);
    match t
    case RuleTerm(r) => NormalRuleHoldsAlike(lib, r, claims);
    case Connective(_, _, _, ts) =>
      var ns := NormalTerms(ts);
      forall i | 0 <= i < |ns| ensures Holds(lib, ns[i], claims) == Holds(lib, ts[i], claims) {
        NormalTermHoldsAlike(lib, ts[i], claims);
      }
      ListsHoldAlike(lib, ts, ns, claims);
  }

  lemma NormalTransformActsAlike(lib: Library, c: ClaimTransform, claims: seq<Claim>)
    requires CompleteTransform(c) && BlindToTransform(lib, c)
    ensures CompleteTransform(NormalTransform(c))
    ensures Transformed(lib, NormalTransform(c), claims) == Transformed(lib, c, claims)
  {
    if c.expression.Some? {
      NormalTermHoldsAlike(lib, c.expression.value, claims);
    }
  }

  lemma {:induction false} NormalTransformsActAlike(lib: Library, cs: seq<ClaimTransform>, claims: seq<Claim>)
    requires forall c <- cs :: CompleteTransform(c) && BlindToTransform(lib, c)
    ensures forall c <- NormalTransforms(cs) :: CompleteTransform(c)
    ensures TransformedAll(lib, NormalTransforms(cs), claims) == TransformedAll(lib, cs, claims)
  {
    var ns := NormalTransforms(cs);
    forall i | 0 <= i < |ns| ensures CompleteTransform(ns[i]) {
      NormalTransformActsAlike(lib, cs[i], claims);
    }
    if |cs| != 0 {
      NormalTransformActsAlike(lib, cs[0], claims);
      NormalTransformsActAlike(lib, cs[1..], Transformed(lib, cs[0], claims));
      assert ns[1..] == NormalTransforms(cs[1..]);
    }
  }

  /** A stored policy that is reloadable decides every request as the original does, when the
      library is blind to what reading does to this policy's texts. */
  lemma ReloadedPolicyDecidesAlike(lib: Library, p: Policy, identity: Identity)
    requires CompletePolicy(p) && FilledPolicy(p) && Reloadable(p) && BlindToPolicy(lib, p)
    ensures CompletePolicy(p) && PolicyFrom(Document(p)).Ok?
    ensures var q := PolicyFrom(Document(p)).value;
            CompletePolicy(q) && Allows(lib, q, identity) == Allows(lib, p, identity)
  {
    ReloadIffReloadable(p);
    var claims := if p.delegation then identity.actorClaims else Some(identity.claims);
    var input := if claims.Some? then claims.value else [];
    NormalTransformsActAlike(lib, p.transforms, input);
    NormalTermHoldsAlike(lib, p.expression.value, TransformedAll(lib, p.transforms, input));
  }

  /** How the literal match expression selects claims. */
  function LiteralMatch(claims: seq<Claim>, claimType: Option<string>, value: Option<string>): seq<Claim> {
    if |claims| == 0 then []
    else (if Some(claims[0].claimType) == claimType && (value == None || value == Some(claims[0].value))
          then [claims[0]] else []) + LiteralMatch(claims[1..], claimType, value)
  }

  function LiteralLibrary(): Library {
    Library((u, cs, ct, v) => LiteralMatch(cs, ct, v), (u, x, v) => true, (u, cs, m, c) => None)
  }

  function MatchPolicy(id: Uri, m: Match, o: Operation): Policy {
    Policy(Some(id), false, Some(RuleTerm(Rule(None, None, true, Some(o), Some(m)))), [])
  }

  /** Counterexample for policies with an empty text: a rule that asks for the empty value of a
      claim type reloads as a rule that accepts any value of it. */
  lemma EmptyMatchValueDecidesDifferently(id: Uri, typ: Uri, op: Uri, claim: Claim)
    requires claim.value != ""
    ensures var p := MatchPolicy(id, Match(typ, Some(claim.claimType), true, Some("")), Operation(op, None));
            && FilledPolicy(p) && CompletePolicy(p)
            && PolicyFrom(Document(p)).Ok? && CompletePolicy(PolicyFrom(Document(p)).value)
            && !Allows(LiteralLibrary(), p, Identity([claim], None))
            && Allows(LiteralLibrary(), PolicyFrom(Document(p)).value, Identity([claim], None))
  {
    var m, o := Match(typ, Some(claim.claimType), true, Some("")), Operation(op, None);
    var p := MatchPolicy(id, m, o);
    ReloadIffReloadable(p);
    assert NormalPolicy(p) == MatchPolicy(id, m.(value := None), o);
    OneClaimDecides(id, m, o, claim);
    OneClaimDecides(id, m.(value := None), o, claim);
  }

  lemma OneClaimDecides(id: Uri, m: Match, o: Operation, claim: Claim)
    requires m.claimType == Some(claim.claimType) && m.required
    ensures CompletePolicy(MatchPolicy(id, m, o))
    ensures Allows(LiteralLibrary(), MatchPolicy(id, m, o), Identity([claim], None))
            <==> m.value == None || m.value == Some(claim.value)
  {
    var found := LiteralMatch([claim], m.claimType, m.value);
    assert [claim][1..] == [] && LiteralMatch([], m.claimType, m.value) == [];
    if m.value == None || m.value == Some(claim.value) {
      assert found == [claim] && claim in found;
      assert Satisfies(LiteralLibrary(), o, claim);
    } else {
      assert found == [];
    }
    assert Matched(LiteralLibrary(), m, [claim]) == found;
  }
}
