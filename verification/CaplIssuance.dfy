/** Issuing claims: the transform fold and the subtraction of the unique mode. */
module CaplIssuance {
  import opened Sequences
  import opened Wrappers
  import opened CaplPolicy
  import opened CaplXml
  import opened CaplEvaluation

  datatype IssueMode = Aggregate | Unique

  datatype IssuePolicy = IssuePolicy(mode: IssueMode, policyId: Option<string>, transforms: seq<ClaimTransform>)

  predicate SameClaim(a: Claim, b: Claim) {
    a.claimType == b.claimType && a.value == b.value && a.issuer == b.issuer
  }

  /** `FindAll` with the equality of the unique mode. */
  function AllLike(claims: seq<Claim>, c: Claim): (found: seq<Claim>)
    ensures forall x <- found :: SameClaim(c, x)
  {
    if |claims| == 0 then []
    else (if SameClaim(c, claims[0]) then [claims[0]] else []) + AllLike(claims[1..], c)
  }

  /** The claims that equal none of the input claims, in order and with their multiplicity. */
  function NotAmong(claims: seq<Claim>, input: seq<Claim>): (kept: seq<Claim>)
    ensures forall x <- kept, c <- input :: !SameClaim(c, x)
  {
    if |claims| == 0 then []
    else if exists c :: c in input && SameClaim(c, claims[0]) then NotAmong(claims[1..], input)
    else [claims[0]] + NotAmong(claims[1..], input)
  }

  /** What a unique issue keeps of each claim: every copy, or none. */
  lemma {:induction false} NotAmongKeepsOrDrops(claims: seq<Claim>, input: seq<Claim>, x: Claim)
    ensures multiset(NotAmong(claims, input))[x]
         == if exists c :: c in input && c.claimType == x.claimType && c.value == x.value && c.issuer == x.issuer
            then 0 else multiset(claims)[x]
  {
    if |claims| != 0 {
      NotAmongKeepsOrDrops(claims[1..], input, x);
      assert claims == [claims[0]] + claims[1..];
    }
  }

  /** It goes claim by claim, in order. */
  lemma {:induction false} NotAmongFilters(a: seq<Claim>, b: seq<Claim>, input: seq<Claim>)
    ensures NotAmong(a + b, input) == NotAmong(a, input) + NotAmong(b, input)
  {
    if |a| == 0 {
      assert a + b == b;
    } else {
      assert (a + b)[0] == a[0] && (a + b)[1..] == a[1..] + b;
      NotAmongFilters(a[1..], b, input);
      Concat([a[0]], NotAmong(a[1..], input), NotAmong(b, input));
    }
  }

  lemma {:induction false} NotAmongNone(claims: seq<Claim>)
    ensures NotAmong(claims, []) == claims
  {
    if |claims| != 0 {
      NotAmongNone(claims[1..]);
    }
  }

  lemma {:induction false} NotAmongOneMore(claims: seq<Claim>, input: seq<Claim>, c: Claim)
    ensures NotAmong(claims, input + [c]) == NotAmong(NotAmong(claims, input), [c])
  {
    if |claims| != 0 {
      NotAmongOneMore(claims[1..], input, c);
      var x := claims[0];
      assert (exists d :: d in input + [c] && SameClaim(d, x))
        <==> (exists d :: d in input && SameClaim(d, x)) || SameClaim(c, x) by {
        assert c in input + [c];
        forall d | d in input ensures d in input + [c] {}
      }
      if exists d :: d in input && SameClaim(d, x) {
      } else {
        var kept := [x] + NotAmong(claims[1..], input);
        assert kept[0] == x && kept[1..] == NotAmong(claims[1..], input);
        assert (exists d :: d in [c] && SameClaim(d, x)) <==> SameClaim(c, x) by { assert c in [c]; }
      }
    }
  }

  /** Among the claims kept so far, those like c are all of them or none. */
  lemma {:induction false} AllLikeKept(claims: seq<Claim>, input: seq<Claim>, c: Claim)
    ensures AllLike(NotAmong(claims, input), c)
         == if exists d :: d in input && SameClaim(d, c) then [] else AllLike(claims, c)
  {
    if |claims| != 0 {
      AllLikeKept(claims[1..], input, c);
      var x, later := claims[0], NotAmong(claims[1..], input);
      if SameClaim(c, x) {
        assert (exists d :: d in input && SameClaim(d, x)) <==> (exists d :: d in input && SameClaim(d, c));
      }
      assert ([x] + later)[1..] == later;
    }
  }

  /** Removing the first claim like c leaves the claims unlike c alone. */
  lemma {:induction false} RemoveFirstLike(claims: seq<Claim>, c: Claim)
    requires |AllLike(claims, c)| != 0
    ensures var rest := RemoveFirst(claims, AllLike(claims, c)[0]);
            AllLike(rest, c) == AllLike(claims, c)[1..] && NotAmong(rest, [c]) == NotAmong(claims, [c])
  {
    assert c in [c];
    if !SameClaim(c, claims[0]) {
      RemoveFirstLike(claims[1..], c);
      var x := AllLike(claims, c)[0];
      assert SameClaim(c, x);
      var later := RemoveFirst(claims[1..], x);
      assert ([claims[0]] + later)[1..] == later;
    }
  }

  lemma {:induction false} NoneLike(claims: seq<Claim>, c: Claim)
    requires AllLike(claims, c) == []
    ensures NotAmong(claims, [c]) == claims
    ensures forall x <- claims :: !SameClaim(c, x)
  {
    if |claims| != 0 {
      assert !SameClaim(c, claims[0]);
      NoneLike(claims[1..], c);
    }
  }

  /** Removing one by one the claims found like c, whether or not they are still there. */
  method RemoveSet(claims: seq<Claim>, ghost c: Claim, found: seq<Claim>) returns (list: seq<Claim>)
    requires forall x <- found :: SameClaim(c, x)
    requires AllLike(claims, c) == found || AllLike(claims, c) == []
    ensures list == NotAmong(claims, [c])
  {
    list := claims;
    for k := 0 to |found|
      invariant NotAmong(list, [c]) == NotAmong(claims, [c])
      invariant AllLike(list, c) == found[k..] || AllLike(list, c) == []
    {
      if AllLike(list, c) == [] {
        NoneLike(list, c);
        RemoveAbsent(list, found[k]);
      } else {
        RemoveFirstLike(list, c);
      }
      list := RemoveFirst(list, found[k]);
    }
    NoneLike(list, c);
  }

  lemma OneMoreSet(claims: seq<Claim>, done: seq<Claim>, firsts: seq<Claim>, c: Claim)
    requires NotAmong(claims, firsts) == NotAmong(claims, done)
    ensures NotAmong(claims, done + [c])
         == if AllLike(claims, c) == [] then NotAmong(claims, firsts) else NotAmong(claims, firsts + [c])
  {
    NotAmongOneMore(claims, done, c);
    if AllLike(claims, c) == [] {
      AllLikeKept(claims, done, c);
      NoneLike(NotAmong(claims, done), c);
    } else {
      NotAmongOneMore(claims, firsts, c);
    }
  }

  /** The first pass: the sets of claims like each input claim, empty ones left out. */
  method FindSets(clone: seq<Claim>, input: seq<Claim>) returns (sets: seq<seq<Claim>>, ghost firsts: seq<Claim>)
    ensures |sets| == |firsts| && forall j :: 0 <= j < |sets| ==> sets[j] == AllLike(clone, firsts[j])
    ensures NotAmong(clone, firsts) == NotAmong(clone, input)
  {
    sets, firsts := [], [];
    for i := 0 to |input|
      invariant |sets| == |firsts| && forall j :: 0 <= j < |sets| ==> sets[j] == AllLike(clone, firsts[j])
      invariant NotAmong(clone, firsts) == NotAmong(clone, input[..i])
    {
      var found := AllLike(clone, input[i]);
      OneMoreSet(clone, input[..i], firsts, input[i]);
      TakeOneMore(input, i);
      if |found| > 0 {
        sets := sets + [found];
        firsts := firsts + [input[i]];
      }
    }
    assert input[..|input|] == input;
  }

  /** The second pass: each set is removed, though an earlier one may have emptied it. */
  method RemoveSets(claims: seq<Claim>, sets: seq<seq<Claim>>, ghost firsts: seq<Claim>) returns (clone: seq<Claim>)
    requires |sets| == |firsts| && forall j :: 0 <= j < |sets| ==> sets[j] == AllLike(claims, firsts[j])
    ensures clone == NotAmong(claims, firsts)
  {
    clone := claims;
    NotAmongNone(claims);
    assert firsts[..0] == [];
    for j := 0 to |sets|
      invariant clone == NotAmong(claims, firsts[..j])
    {
      AllLikeKept(claims, firsts[..j], firsts[j]);
      NotAmongOneMore(claims, firsts[..j], firsts[j]);
      TakeOneMore(firsts, j);
      clone := RemoveSet(clone, firsts[j], sets[j]);
    }
    assert firsts[..|sets|] == firsts;
  }

  /** The unique mode: first all the sets are looked up, then each is removed. */
  method Subtract(claims: seq<Claim>, input: seq<Claim>) returns (clone: seq<Claim>)
    ensures clone == NotAmong(claims, input)
  {
    var sets, firsts := FindSets(claims, input);
    clone := RemoveSets(claims, sets, firsts);
  }

  method Issue(lib: Library, policy: IssuePolicy, claims: seq<Claim>) returns (issued: seq<Claim>)
    requires forall c <- policy.transforms :: CompleteTransform(c)
    ensures policy.mode == Aggregate ==> issued == TransformedAll(lib, policy.transforms, claims)
    ensures policy.mode == Unique ==> issued == NotAmong(TransformedAll(lib, policy.transforms, claims), claims)
    ensures policy.mode == Unique ==> forall x <- issued, c <- claims ::
              !(c.claimType == x.claimType && c.value == x.value && c.issuer == x.issuer)
  {
    issued := TransformAll(lib, policy.transforms, claims);
    if policy.mode == Unique {
      issued := Subtract(issued, claims);
    }
  }

  /** Concatenated collections compose. */
  lemma {:induction false} TransformsCompose(lib: Library, a: seq<ClaimTransform>, b: seq<ClaimTransform>,
                                             claims: seq<Claim>)
    requires forall c <- a :: CompleteTransform(c)
    requires forall c <- b :: CompleteTransform(c)
    ensures TransformedAll(lib, a + b, claims) == TransformedAll(lib, b, TransformedAll(lib, a, claims))
  {
    if |a| == 0 {
      assert a + b == b;
    } else {
      assert (a + b)[1..] == a[1..] + b;
      TransformsCompose(lib, a[1..], b, Transformed(lib, a[0], claims));
    }
  }
}
