/** The entities of the CAPL policy language. Terms are built once, by a caller or by the
    reader, and only inspected afterwards, so they are values here. */
module CaplPolicy {
  import opened Wrappers

  /** A URI is opaque: what matters is that a printed URI is never the empty string. */
  type Uri = s: string | s != "" witness "urn:capl"

  /** `other` stands for what else tells two claim objects apart. */
  datatype Claim = Claim(claimType: string, value: string, issuer: string, other: nat)

  datatype Match = Match(matchType: Uri, claimType: Option<string>, required: bool, value: Option<string>)

  datatype Operation = Operation(operationType: Uri, claimValue: Option<string>)

  /** `operation` and `matcher` are null while a rule is being read. */
  datatype Rule = Rule(termId: Option<Uri>, issuer: Option<string>, evaluates: bool,
                       operation: Option<Operation>, matcher: Option<Match>)

  datatype Kind = And | Or

  datatype Term =
    | RuleTerm(rule: Rule)
    | Connective(kind: Kind, termId: Option<Uri>, evaluates: bool, terms: seq<Term>)

  datatype LiteralClaim = LiteralClaim(claimType: Option<string>, claimValue: Option<string>)

  datatype ClaimTransform = ClaimTransform(transformId: Option<Uri>, transformType: Uri,
                                           matcher: Option<Match>, target: Option<LiteralClaim>,
                                           expression: Option<Term>)

  datatype Policy = Policy(policyId: Option<Uri>, delegation: bool,
                           expression: Option<Term>, transforms: seq<ClaimTransform>)

  /** Every rule has its operation and its match: without them printing and evaluating
      dereference null. */
  predicate Complete(t: Term) {
    match t
    case RuleTerm(r) => r.operation.Some? && r.matcher.Some?
    case Connective(_, _, _, ts) => forall c <- ts :: Complete(c)
  }

  /** What the published schema asks of a term: complete rules, no empty connective. Such a
      term is never written as an element without content. */
  predicate FilledTerm(t: Term) {
    match t
    case RuleTerm(r) => r.operation.Some? && r.matcher.Some?
    case Connective(_, _, _, ts) => ts != [] && forall c <- ts :: FilledTerm(c)
  }

  /** A transform with something in it. The published schema asks for the match. */
  predicate FilledTransform(c: ClaimTransform) {
    && (c.matcher.Some? || c.target.Some? || c.expression.Some?)
    && (c.expression.Some? ==> FilledTerm(c.expression.value))
  }

  predicate FilledPolicy(p: Policy) {
    && p.expression.Some?
    && FilledTerm(p.expression.value)
    && forall c <- p.transforms :: FilledTransform(c)
  }

  lemma {:induction false} FilledTermIsComplete(t: Term)
    requires FilledTerm(t)
    ensures Complete(t)
  {
    if t.Connective? {
      forall c <- t.terms ensures Complete(c) {
        FilledTermIsComplete(c);
      }
    }
  }

  function TermCount(t: Term): nat {
    match t
    case RuleTerm(_) => 1
    case Connective(_, _, _, ts) => 1 + TermCounts(ts)
  }

  function TermCounts(ts: seq<Term>): nat {
    if |ts| == 0 then 0 else TermCount(ts[0]) + TermCounts(ts[1..])
  }

  lemma {:induction false} TermCountsAppend(ts: seq<Term>, t: Term)
    ensures TermCounts(ts + [t]) == TermCounts(ts) + TermCount(t)
  {
    if ts == [] {
      assert ts + [t] == [t];
    } else {
      assert (ts + [t])[1..] == ts[1..] + [t];
      TermCountsAppend(ts[1..], t);
    }
  }

  function OptionalCount(t: Option<Term>): nat {
    if t.Some? then TermCount(t.value) else 0
  }

  function TransformCounts(cs: seq<ClaimTransform>): nat {
    if |cs| == 0 then 0 else OptionalCount(cs[0].expression) + TransformCounts(cs[1..])
  }

  lemma {:induction false} TransformCountsAppend(cs: seq<ClaimTransform>, c: ClaimTransform)
    ensures TransformCounts(cs + [c]) == TransformCounts(cs) + OptionalCount(c.expression)
  {
    if cs == [] {
      assert cs + [c] == [c];
    } else {
      assert (cs + [c])[1..] == cs[1..] + [c];
      TransformCountsAppend(cs[1..], c);
    }
  }
}
