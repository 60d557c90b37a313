/** The hand-written policy reader. A reader state is the sequence of nodes from the current
    one on (empty at the end of the document). The functions say what each `ReadXml` reads and
    where it stops; the class holds the cursor the methods move, and each method is proved to
    do what its function says. */
module CaplReader {
  import opened Wrappers
  import opened CaplPolicy
  import opened CaplXml

  // ---- Cursor primitives ----

  function Advance(r: Nodes): Nodes {
    if |r| == 0 then [] else r[1..]
  }

  predicate AtStart(r: Nodes, tag: Tag) {
    |r| != 0 && r[0].Start? && r[0].tag == tag
  }

  /** An end tag, or the short form of an empty element. */
  predicate AtEnd(r: Nodes, tag: Tag) {
    |r| != 0 && ((r[0].Start? && r[0].isEmpty) || r[0].End?) && r[0].tag == tag
  }

  predicate IsTermTag(tag: Tag) {
    tag == RuleTag || tag == AndTag || tag == OrTag
  }

  /** The start tags of terms from the current node on. */
  function TermStarts(r: Nodes): nat {
    if |r| == 0 then 0
    else (if r[0].Start? && IsTermTag(r[0].tag) then 1 else 0) + TermStarts(r[1..])
  }

  /** Moves to the next start of `tag`, unless already there. */
  function MoveTo(r: Nodes, tag: Tag): (res: Result<Nodes>)
    ensures res.Ok? ==> AtStart(res.value, tag) && |res.value| <= |r| && TermStarts(res.value) <= TermStarts(r)
  {
    if AtStart(r, tag) then Ok(r)
    else if |r| == 0 then Err(SerializationFault)
    else MoveTo(r[1..], tag)
  }

  function MoveToStart(r: Nodes): (rest: Nodes)
    ensures |rest| <= |r| && TermStarts(rest) <= TermStarts(r)
    ensures |rest| != 0 ==> rest[0].Start?
  {
    if |r| == 0 || r[0].Start? then r else MoveToStart(r[1..])
  }

  function RequiredAttribute(s: Option<string>): (res: Result<Uri>)
    ensures res.Ok? <==> !NullOrEmpty(s)
    ensures res.Ok? ==> s == Some(res.value)
  {
    if NullOrEmpty(s) then Err(SerializationFault) else Ok(s.value)
  }

  /** `new Uri` on an attribute that is skipped when null or empty. */
  function OptionalUri(s: Option<string>): (u: Option<Uri>)
    ensures AsText(u) == if NullOrEmpty(s) then None else s
  {
    if NullOrEmpty(s) then None else Some(s.value)
  }

  /** `new Uri` without a test first. */
  function ParseUri(s: Option<string>): Result<Uri> {
    if s == None then Err(NullFault) else if s.value == "" then Err(FormatFault) else Ok(s.value)
  }

  function ToBoolean(s: string): Result<bool> {
    if s == "true" || s == "1" then Ok(true)
    else if s == "false" || s == "0" then Ok(false)
    else Err(FormatFault)
  }

  /** A flag that keeps its default when the attribute is absent or empty. */
  function OptionalFlag(s: Option<string>, default: bool): Result<bool> {
    if NullOrEmpty(s) then Ok(default) else ToBoolean(s.value)
  }

  /** The run of text at the current node and the first node after it. */
  function TextRun(r: Nodes): (res: (string, Nodes))
    ensures |res.1| <= |r| && TermStarts(res.1) <= TermStarts(r)
  {
    if |r| == 0 || !r[0].Text? then ("", r)
    else var (s, rest) := TextRun(r[1..]); (r[0].text + s, rest)
  }

  function ElementValue(r: Nodes, tag: Tag): (res: Result<(Option<string>, Nodes)>)
    ensures res.Ok? ==> |res.value.1| <= |r| && TermStarts(res.value.1) <= TermStarts(r)
  {
    if |r| == 0 || (r[0] == NoNode || r[0].Text?) || r[0].tag != tag then Err(SerializationFault)
    else if r[0].Start? && r[0].isEmpty then Ok((None, r))
    else if !r[0].Start? || |r| == 1 then Err(SerializationFault)
    else var (s, rest) := TextRun(r[1..]); Ok((Some(s), rest))
  }

  // ---- What each ReadXml reads ----

  function MatchFrom(r: Nodes): (res: Result<(Match, Nodes)>)
    ensures res.Ok? ==> |res.value.1| <= |r| && TermStarts(res.value.1) <= TermStarts(r)
  {
    var s :- MoveTo(r, MatchTag);
    var typ :- RequiredAttribute(s[0].attributes.typ);
    var required :- OptionalFlag(s[0].attributes.required, true);
    var (value, rest) :- ElementValue(s, MatchTag);
    if AtEnd(rest, MatchTag) then Ok((Match(typ, s[0].attributes.claimType, required, value), rest))
    else Err(SerializationFault)
  }

  function OperationFrom(r: Nodes): (res: Result<(Operation, Nodes)>)
    ensures res.Ok? ==> |res.value.1| <= |r| && TermStarts(res.value.1) <= TermStarts(r)
  {
    var s :- MoveTo(r, OperationTag);
    var typ :- RequiredAttribute(s[0].attributes.typ);
    var (value, rest) :- ElementValue(s, OperationTag);
    if AtEnd(rest, OperationTag) then Ok((Operation(typ, value), rest)) else Err(SerializationFault)
  }

  /** The tests one turn of the rule loop makes, in order; each may move the reader. */
  function RuleStep(r: Nodes, rule: Rule): (res: Result<(Rule, Nodes)>)
    ensures res.Ok? ==> |res.value.1| <= |r| && TermStarts(res.value.1) <= TermStarts(r)
  {
    var (rule1, r1) :- (if AtStart(r, OperationTag) then
                          var (o, rest) :- OperationFrom(r); Ok((rule.(operation := Some(o)), rest))
                        else Ok((rule, r)));
    if AtStart(r1, MatchTag) then
      var (m, rest) :- MatchFrom(r1); Ok((rule1.(matcher := Some(m)), rest))
    else Ok((rule1, r1))
  }

  /** The rule loop, from the node `Read` has just reached. */
  function RuleLoop(r: Nodes, rule: Rule): (res: Result<(Rule, Nodes)>)
    ensures res.Ok? ==> |res.value.1| <= |r| && TermStarts(res.value.1) <= TermStarts(r)
    decreases |r|
  {
    if |r| == 0 then Ok((rule, []))
    else
      var (rule', r') :- RuleStep(r, rule);
      if AtEnd(r', RuleTag) then Ok((rule', r')) else RuleLoop(Advance(r'), rule')
  }

  function RuleHeader(a: Attributes): Result<Rule> {
    var evaluates :- OptionalFlag(a.evaluates, true);
    Ok(Rule(OptionalUri(a.termId), a.issuer, evaluates, None, None))
  }

  function RuleFrom(r: Nodes): (res: Result<(Rule, Nodes)>)
    ensures res.Ok? ==> |res.value.1| < |r| && 1 + TermStarts(res.value.1) <= TermStarts(r)
  {
    var s :- MoveTo(r, RuleTag);
    var rule :- RuleHeader(s[0].attributes);
    RuleLoop(s[1..], rule)
  }

  function ConnectiveFrom(kind: Kind, r: Nodes): (res: Result<(Term, Nodes)>)
    ensures res.Ok? ==> |res.value.1| < |r| && TermCount(res.value.0) + TermStarts(res.value.1) <= TermStarts(r)
    decreases |r|, 0
  {
    var s :- MoveTo(r, KindTag(kind));
    var evaluates :- OptionalFlag(s[0].attributes.evaluates, true);
    var (terms, rest) :- ConnectiveLoop(kind, s[1..], []);
    Ok((Connective(kind, OptionalUri(s[0].attributes.termId), evaluates, terms), rest))
  }

  /** The shared loop of both connectives, from the node `Read` has just reached. */
  function ConnectiveLoop(kind: Kind, r: Nodes, terms: seq<Term>): (res: Result<(seq<Term>, Nodes)>)
    ensures res.Ok? ==> |res.value.1| <= |r|
    ensures res.Ok? ==> TermCounts(res.value.0) + TermStarts(res.value.1) <= TermCounts(terms) + TermStarts(r)
    decreases |r|, 4
  {
    if |r| == 0 then Ok((terms, []))
    else
      var (terms', r') :- ConnectiveStep(r, terms);
      if AtEnd(r', KindTag(kind)) then Ok((terms', r')) else ConnectiveLoop(kind, Advance(r'), terms')
  }

  /** The three tests of one turn, each made where the previous one left the reader. */
  function ConnectiveStep(r: Nodes, terms: seq<Term>): (res: Result<(seq<Term>, Nodes)>)
    ensures res.Ok? ==> |res.value.1| <= |r|
    ensures res.Ok? ==> TermCounts(res.value.0) + TermStarts(res.value.1) <= TermCounts(terms) + TermStarts(r)
    decreases |r|, 3
  {
    var (terms1, r1) :- AddConnective(And, r, terms);
    var (terms2, r2) :- AddConnective(Or, r1, terms1);
    AddRule(r2, terms2)
  }

  function AddConnective(kind: Kind, r: Nodes, terms: seq<Term>): (res: Result<(seq<Term>, Nodes)>)
    ensures res.Ok? ==> |res.value.1| <= |r|
    ensures res.Ok? ==> TermCounts(res.value.0) + TermStarts(res.value.1) <= TermCounts(terms) + TermStarts(r)
    decreases |r|, 1
  {
    if AtStart(r, KindTag(kind)) then
      var (t, rest) :- ConnectiveFrom(kind, r);
      TermCountsAppend(terms, t);
      Ok((terms + [t], rest))
    else Ok((terms, r))
  }

  function AddRule(r: Nodes, terms: seq<Term>): (res: Result<(seq<Term>, Nodes)>)
    ensures res.Ok? ==> |res.value.1| <= |r|
    ensures res.Ok? ==> TermCounts(res.value.0) + TermStarts(res.value.1) <= TermCounts(terms) + TermStarts(r)
  {
    if AtStart(r, RuleTag) then
      var (rule, rest) :- RuleFrom(r);
      TermCountsAppend(terms, RuleTerm(rule));
      Ok((terms + [RuleTerm(rule)], rest))
    else Ok((terms, r))
  }

  /** `Term.Load`: three independent tests, the last successful one wins. */
  function TermFrom(r: Nodes): (res: Result<(Term, Nodes)>)
    ensures res.Ok? ==> |res.value.1| < |r| && TermCount(res.value.0) + TermStarts(res.value.1) <= TermStarts(r)
  {
    var r0 := MoveToStart(r);
    var (t1, r1) :- (if AtStart(r0, RuleTag) then
                       var (rule, rest) :- RuleFrom(r0); Ok((Some(RuleTerm(rule)), rest))
                     else Ok((None, r0)));
    var (t2, r2) :- LoadConnective(And, r1, t1);
    var (t3, r3) :- LoadConnective(Or, r2, t2);
    if t3.Some? then Ok((t3.value, r3)) else Err(SerializationFault)
  }

  function LoadConnective(kind: Kind, r: Nodes, loaded: Option<Term>): (res: Result<(Option<Term>, Nodes)>)
    ensures res.Ok? ==> |res.value.1| <= |r|
    ensures res.Ok? ==> OptionalCount(res.value.0) + TermStarts(res.value.1) <= OptionalCount(loaded) + TermStarts(r)
    ensures res.Ok? && res.value.0 != loaded ==> |res.value.1| < |r|
    ensures res.Ok? && loaded.Some? ==> res.value.0.Some?
  {
    if AtStart(r, KindTag(kind)) then
      var (t, rest) :- ConnectiveFrom(kind, r); Ok((Some(t), rest))
    else Ok((loaded, r))
  }

  function TargetFrom(r: Nodes): (res: Result<(LiteralClaim, Nodes)>)
    requires AtStart(r, TargetClaimTag)
    ensures res.Ok? ==> |res.value.1| <= |r| && TermStarts(res.value.1) <= TermStarts(r)
  {
    var claimType :- RequiredAttribute(r[0].attributes.claimType);
    if r[0].isEmpty then Ok((LiteralClaim(Some(claimType), None), r))
    else
      var (value, rest) :- ElementValue(r, TargetClaimTag);
      Ok((LiteralClaim(Some(claimType), value), rest))
  }

  /** The expression test of a transform looks at the tag name alone, not at the kind of node. */
  predicate AtTermName(r: Nodes) {
    |r| != 0 && (r[0].Start? || r[0].End?) && IsTermTag(r[0].tag)
  }

  function TransformStep(r: Nodes, c: ClaimTransform): (res: Result<(ClaimTransform, Nodes)>)
    ensures res.Ok? ==> |res.value.1| <= |r|
    ensures res.Ok? ==> OptionalCount(res.value.0.expression) + TermStarts(res.value.1)
                        <= OptionalCount(c.expression) + TermStarts(r)
    ensures res.Ok? && res.value.0.expression != c.expression ==>
              OptionalCount(res.value.0.expression) + TermStarts(res.value.1) <= TermStarts(r)
  {
    var (c1, r1) :- (if AtStart(r, MatchTag) then
                       var (m, rest) :- MatchFrom(r); Ok((c.(matcher := Some(m)), rest))
                     else Ok((c, r)));
    var (c2, r2) :- (if AtStart(r1, TargetClaimTag) then
                       var (t, rest) :- TargetFrom(r1); Ok((c1.(target := Some(t)), rest))
                     else Ok((c1, r1)));
    if AtTermName(r2) then
      var (t, rest) :- TermFrom(r2); Ok((c2.(expression := Some(t)), rest))
    else Ok((c2, r2))
  }

  /** Replacing an expression already read loses it, so at least one term goes missing. */
  function TransformLoop(r: Nodes, c: ClaimTransform): (res: Result<(ClaimTransform, Nodes)>)
    ensures res.Ok? ==> |res.value.1| <= |r|
    ensures res.Ok? ==> OptionalCount(res.value.0.expression) + TermStarts(res.value.1)
                        <= OptionalCount(c.expression) + TermStarts(r)
    ensures res.Ok? && res.value.0.expression != c.expression ==>
              OptionalCount(res.value.0.expression) + TermStarts(res.value.1) <= TermStarts(r)
    decreases |r|
  {
    if |r| == 0 then Ok((c, []))
    else
      var (c', r') :- TransformStep(r, c);
      if AtEnd(r', TransformTag) then Ok((c', r')) else TransformLoop(Advance(r'), c')
  }

  function TransformFrom(r: Nodes): (res: Result<(ClaimTransform, Nodes)>)
    ensures res.Ok? ==> |res.value.1| < |r|
    ensures res.Ok? ==> OptionalCount(res.value.0.expression) + TermStarts(res.value.1) <= TermStarts(r)
  {
    var s :- MoveTo(r, TransformTag);
    var typ :- RequiredAttribute(s[0].attributes.typ);
    TransformLoop(s[1..], ClaimTransform(None, typ, None, None, None))
  }

  function TransformsStep(r: Nodes, cs: seq<ClaimTransform>): (res: Result<(seq<ClaimTransform>, Nodes)>)
    ensures res.Ok? ==> |res.value.1| <= |r|
    ensures res.Ok? ==> TransformCounts(res.value.0) + TermStarts(res.value.1) <= TransformCounts(cs) + TermStarts(r)
  {
    if AtStart(r, TransformTag) then
      var (c, rest) :- TransformFrom(r);
      TransformCountsAppend(cs, c);
      Ok((cs + [c], rest))
    else Ok((cs, r))
  }

  function TransformsLoop(r: Nodes, cs: seq<ClaimTransform>): (res: Result<(seq<ClaimTransform>, Nodes)>)
    ensures res.Ok? ==> |res.value.1| <= |r|
    ensures res.Ok? ==> TransformCounts(res.value.0) + TermStarts(res.value.1) <= TransformCounts(cs) + TermStarts(r)
    decreases |r|
  {
    if |r| == 0 then Ok((cs, []))
    else
      var (cs', r') :- TransformsStep(r, cs);
      if AtEnd(r', TransformsTag) then Ok((cs', r')) else TransformsLoop(Advance(r'), cs')
  }

  function TransformsFrom(r: Nodes, cs: seq<ClaimTransform>): (res: Result<(seq<ClaimTransform>, Nodes)>)
    ensures res.Ok? ==> |res.value.1| < |r|
    ensures res.Ok? ==> TransformCounts(res.value.0) + TermStarts(res.value.1) <= TransformCounts(cs) + TermStarts(r)
  {
    var s :- MoveTo(r, TransformsTag);
    TransformsLoop(s[1..], cs)
  }

  function PolicyTerms(p: Policy): nat {
    OptionalCount(p.expression) + TransformCounts(p.transforms)
  }

  function PolicyStep(r: Nodes, p: Policy): (res: Result<(Policy, Nodes)>)
    ensures res.Ok? ==> |res.value.1| <= |r|
    ensures res.Ok? ==> PolicyTerms(res.value.0) + TermStarts(res.value.1) <= PolicyTerms(p) + TermStarts(r)
    ensures res.Ok? && res.value.0.expression != p.expression ==>
              PolicyTerms(res.value.0) + TermStarts(res.value.1) <= TransformCounts(p.transforms) + TermStarts(r)
  {
    var (p1, r1) :- (if AtStart(r, AndTag) || AtStart(r, OrTag) || AtStart(r, RuleTag) then
                       var (t, rest) :- TermFrom(r); Ok((p.(expression := Some(t)), rest))
                     else Ok((p, r)));
    if AtStart(r1, TransformsTag) then
      var (cs, rest) :- TransformsFrom(r1, p1.transforms); Ok((p1.(transforms := cs), rest))
    else Ok((p1, r1))
  }

  function PolicyLoop(r: Nodes, p: Policy): (res: Result<(Policy, Nodes)>)
    ensures res.Ok? ==> PolicyTerms(res.value.0) + TermStarts(res.value.1) <= PolicyTerms(p) + TermStarts(r)
    ensures res.Ok? && res.value.0.expression != p.expression ==>
              PolicyTerms(res.value.0) + TermStarts(res.value.1) <= TransformCounts(p.transforms) + TermStarts(r)
    decreases |r|
  {
    if |r| == 0 then Ok((p, []))
    else
      var (p', r') :- PolicyStep(r, p);
      if AtEnd(r', PolicyTag) then Ok((p', r')) else PolicyLoop(Advance(r'), p')
  }

  /** Reading a policy never makes up a term: every term of the result was a start tag. */
  function PolicyFrom(r: Nodes): (res: Result<Policy>)
    ensures res.Ok? ==> PolicyTerms(res.value) <= TermStarts(r)
  {
    var s :- MoveTo(r, PolicyTag);
    var id :- ParseUri(s[0].attributes.policyId);
    var delegation :- OptionalFlag(s[0].attributes.delegation, false);
    var (p, rest) :- PolicyLoop(s[1..], Policy(Some(id), delegation, None, []));
    Ok(p)
  }

  // ---- The reader the ReadXml methods move ----

  class XmlReader {
    const nodes: Nodes
    var pos: nat

    predicate Valid()
      reads this
    {
      pos <= |nodes|
    }

    /** The nodes from the current one on. */
    function Rest(): Nodes
      requires Valid()
      reads this
    {
      nodes[pos..]
    }

    /** A new reader stands before the first node. */
    constructor (document: Nodes)
      ensures Valid() && Rest() == [NoNode] + document
    {
      nodes, pos := [NoNode] + document, 0;
    }

    method Read() returns (more: bool)
      requires Valid()
      modifies this`pos
      ensures Valid() && Rest() == Advance(old(Rest())) && more == (|Rest()| != 0)
    {
      if pos < |nodes| {
        pos := pos + 1;
      }
      more := pos < |nodes|;
    }

    method MoveToRequiredStartElement(tag: Tag) returns (res: Result<Nodes>)
      requires Valid()
      modifies this`pos
      ensures Valid() && res == MoveTo(old(Rest()), tag)
      ensures res.Ok? ==> Rest() == res.value
    {
      ghost var goal := MoveTo(Rest(), tag);
      if AtStart(Rest(), tag) {
        return Ok(Rest());
      }
      var more := Read();
      while more
        invariant Valid() && more == (|Rest()| != 0) && MoveTo(Rest(), tag) == goal
        decreases |Rest()|
      {
        if AtStart(Rest(), tag) {
          return Ok(Rest());
        }
        more := Read();
      }
      return Err(SerializationFault);
    }

    method MoveToStartElement()
      requires Valid()
      modifies this`pos
      ensures Valid() && Rest() == MoveToStart(old(Rest()))
    {
      ghost var goal := MoveToStart(Rest());
      if |Rest()| != 0 && Rest()[0].Start? {
        return;
      }
      var more := Read();
      while more
        invariant Valid() && more == (|Rest()| != 0) && MoveToStart(Rest()) == goal
        decreases |Rest()|
      {
        if Rest()[0].Start? {
          return;
        }
        more := Read();
      }
    }

    method GetElementValue(tag: Tag) returns (res: Result<Option<string>>)
      requires Valid()
      modifies this`pos
      ensures Valid()
      ensures match ElementValue(old(Rest()), tag)
              case Ok((value, rest)) => res == Ok(value) && Rest() == rest
              case Err(f) => res == Err(f)
    {
      ghost var r := Rest();
      if |Rest()| == 0 || (Rest()[0] == NoNode || Rest()[0].Text?) || Rest()[0].tag != tag {
        return Err(SerializationFault);
      }
      if Rest()[0].Start? && Rest()[0].isEmpty {
        return Ok(None);
      }
      if !Rest()[0].Start? {
        return Err(SerializationFault);
      }
      var more := Read();
      if !more {
        return Err(SerializationFault);
      }
      var value := "";
      assert "" + TextRun(Rest()).0 == TextRun(Rest()).0;
      while more && Rest()[0].Text?
        invariant Valid() && more == (|Rest()| != 0)
        invariant TextRun(r[1..]) == (value + TextRun(Rest()).0, TextRun(Rest()).1)
        decreases |Rest()|
      {
        ghost var text, later := Rest()[0].text, TextRun(Rest()[1..]).0;
        assert value + (text + later) == value + text + later;
        value := value + Rest()[0].text;
        more := Read();
      }
      assert value + "" == value;
      return Ok(Some(value));
    }
  }

  method ReadMatch(reader: XmlReader) returns (res: Result<Match>)
    requires reader.Valid()
    modifies reader`pos
    ensures reader.Valid()
    ensures match MatchFrom(old(reader.Rest()))
            case Ok((m, rest)) => res == Ok(m) && reader.Rest() == rest
            case Err(f) => res == Err(f)
  {
    var s :- reader.MoveToRequiredStartElement(MatchTag);
    var attributes := s[0].attributes;
    var typ :- RequiredAttribute(attributes.typ);
    var required :- OptionalFlag(attributes.required, true);
    var value :- reader.GetElementValue(MatchTag);
    if !AtEnd(reader.Rest(), MatchTag) {
      return Err(SerializationFault);
    }
    return Ok(Match(typ, attributes.claimType, required, value));
  }

  method ReadOperation(reader: XmlReader) returns (res: Result<Operation>)
    requires reader.Valid()
    modifies reader`pos
    ensures reader.Valid()
    ensures match OperationFrom(old(reader.Rest()))
            case Ok((o, rest)) => res == Ok(o) && reader.Rest() == rest
            case Err(f) => res == Err(f)
  {
    var s :- reader.MoveToRequiredStartElement(OperationTag);
    var typ :- RequiredAttribute(s[0].attributes.typ);
    var value :- reader.GetElementValue(OperationTag);
    if !AtEnd(reader.Rest(), OperationTag) {
      return Err(SerializationFault);
    }
    return Ok(Operation(typ, value));
  }

  method ReadRule(reader: XmlReader) returns (res: Result<Rule>)
    requires reader.Valid()
    modifies reader`pos
    ensures reader.Valid()
    ensures match RuleFrom(old(reader.Rest()))
            case Ok((rule, rest)) => res == Ok(rule) && reader.Rest() == rest
            case Err(f) => res == Err(f)
  {
    var s :- reader.MoveToRequiredStartElement(RuleTag);
    var rule :- RuleHeader(s[0].attributes);
    ghost var goal := RuleLoop(s[1..], rule);
    var more := reader.Read();
    while more
      invariant reader.Valid() && more == (|reader.Rest()| != 0)
      invariant RuleLoop(reader.Rest(), rule) == goal
      decreases |reader.Rest()|
    {
      if AtStart(reader.Rest(), OperationTag) {
        var o :- ReadOperation(reader);
        rule := rule.(operation := Some(o));
      }
      if AtStart(reader.Rest(), MatchTag) {
        var m :- ReadMatch(reader);
        rule := rule.(matcher := Some(m));
      }
      if AtEnd(reader.Rest(), RuleTag) {
        return Ok(rule);
      }
      more := reader.Read();
    }
    more := reader.Read();
    return Ok(rule);
  }

  /** `ReadXml` of LogicalAndCollection (kind And) and of LogicalOrCollection (kind Or). */
  method ReadConnective(reader: XmlReader, kind: Kind) returns (res: Result<Term>)
    requires reader.Valid()
    modifies reader`pos
    ensures reader.Valid()
    ensures match ConnectiveFrom(kind, old(reader.Rest()))
            case Ok((t, rest)) => res == Ok(t) && reader.Rest() == rest
            case Err(f) => res == Err(f)
    decreases |reader.Rest()|, 0
  {
    var s :- reader.MoveToRequiredStartElement(KindTag(kind));
    var evaluates :- OptionalFlag(s[0].attributes.evaluates, true);
    var termId := OptionalUri(s[0].attributes.termId);
    var terms: seq<Term> := [];
    ghost var goal := ConnectiveLoop(kind, s[1..], []);
    var more := reader.Read();
    while more
      invariant reader.Valid() && more == (|reader.Rest()| != 0)
      invariant |reader.Rest()| < |s|
      invariant ConnectiveLoop(kind, reader.Rest(), terms) == goal
      decreases |reader.Rest()|
    {
      terms :- ReadOperands(reader, terms);
      if AtEnd(reader.Rest(), KindTag(kind)) {
        return Ok(Connective(kind, termId, evaluates, terms));
      }
      more := reader.Read();
    }
    more := reader.Read();
    return Ok(Connective(kind, termId, evaluates, terms));
  }

  /** One turn of the connective loop. */
  method ReadOperands(reader: XmlReader, before: seq<Term>) returns (res: Result<seq<Term>>)
    requires reader.Valid()
    modifies reader`pos
    ensures reader.Valid()
    ensures match ConnectiveStep(old(reader.Rest()), before)
            case Ok((terms, rest)) => res == Ok(terms) && reader.Rest() == rest
            case Err(f) => res == Err(f)
    decreases |reader.Rest()|, 1
  {
    var terms := before;
    if AtStart(reader.Rest(), AndTag) {
      var t :- ReadConnective(reader, And);
      terms := terms + [t];
    }
    if AtStart(reader.Rest(), OrTag) {
      var t :- ReadConnective(reader, Or);
      terms := terms + [t];
    }
    if AtStart(reader.Rest(), RuleTag) {
      var rule :- ReadRule(reader);
      terms := terms + [RuleTerm(rule)];
    }
    return Ok(terms);
  }

  method LoadTerm(reader: XmlReader) returns (res: Result<Term>)
    requires reader.Valid()
    modifies reader`pos
    ensures reader.Valid()
    ensures match TermFrom(old(reader.Rest()))
            case Ok((t, rest)) => res == Ok(t) && reader.Rest() == rest
            case Err(f) => res == Err(f)
  {
    var loaded: Option<Term> := None;
    reader.MoveToStartElement();
    if AtStart(reader.Rest(), RuleTag) {
      var rule :- ReadRule(reader);
      loaded := Some(RuleTerm(rule));
    }
    if AtStart(reader.Rest(), AndTag) {
      var t :- ReadConnective(reader, And);
      loaded := Some(t);
    }
    if AtStart(reader.Rest(), OrTag) {
      var t :- ReadConnective(reader, Or);
      loaded := Some(t);
    }
    if loaded.Some? {
      return Ok(loaded.value);
    }
    return Err(SerializationFault);
  }

  method ReadTarget(reader: XmlReader) returns (res: Result<LiteralClaim>)
    requires reader.Valid() && AtStart(reader.Rest(), TargetClaimTag)
    modifies reader`pos
    ensures reader.Valid()
    ensures match TargetFrom(old(reader.Rest()))
            case Ok((c, rest)) => res == Ok(c) && reader.Rest() == rest
            case Err(f) => res == Err(f)
  {
    var claimType :- RequiredAttribute(reader.Rest()[0].attributes.claimType);
    if reader.Rest()[0].isEmpty {
      return Ok(LiteralClaim(Some(claimType), None));
    }
    var value :- reader.GetElementValue(TargetClaimTag);
    return Ok(LiteralClaim(Some(claimType), value));
  }

  method ReadTransform(reader: XmlReader) returns (res: Result<ClaimTransform>)
    requires reader.Valid()
    modifies reader`pos
    ensures reader.Valid()
    ensures match TransformFrom(old(reader.Rest()))
            case Ok((c, rest)) => res == Ok(c) && reader.Rest() == rest
            case Err(f) => res == Err(f)
  {
    var s :- reader.MoveToRequiredStartElement(TransformTag);
    var typ :- RequiredAttribute(s[0].attributes.typ);
    var c := ClaimTransform(None, typ, None, None, None);
    ghost var goal := TransformLoop(s[1..], c);
    var more := reader.Read();
    while more
      invariant reader.Valid() && more == (|reader.Rest()| != 0)
      invariant TransformLoop(reader.Rest(), c) == goal
      decreases |reader.Rest()|
    {
      if AtStart(reader.Rest(), MatchTag) {
        var m :- ReadMatch(reader);
        c := c.(matcher := Some(m));
      }
      if AtStart(reader.Rest(), TargetClaimTag) {
        var target :- ReadTarget(reader);
        c := c.(target := Some(target));
      }
      if AtTermName(reader.Rest()) {
        var t :- LoadTerm(reader);
        c := c.(expression := Some(t));
      }
      if AtEnd(reader.Rest(), TransformTag) {
        return Ok(c);
      }
      more := reader.Read();
    }
    return Ok(c);
  }

  method ReadTransforms(reader: XmlReader, before: seq<ClaimTransform>) returns (res: Result<seq<ClaimTransform>>)
    requires reader.Valid()
    modifies reader`pos
    ensures reader.Valid()
    ensures match TransformsFrom(old(reader.Rest()), before)
            case Ok((cs, rest)) => res == Ok(cs) && reader.Rest() == rest
            case Err(f) => res == Err(f)
  {
    var s :- reader.MoveToRequiredStartElement(TransformsTag);
    var cs := before;
    ghost var goal := TransformsLoop(s[1..], cs);
    var more := reader.Read();
    while more
      invariant reader.Valid() && more == (|reader.Rest()| != 0)
      invariant TransformsLoop(reader.Rest(), cs) == goal
      decreases |reader.Rest()|
    {
      if AtStart(reader.Rest(), TransformTag) {
        var c :- ReadTransform(reader);
        cs := cs + [c];
      }
      if AtEnd(reader.Rest(), TransformsTag) {
        return Ok(cs);
      }
      more := reader.Read();
    }
    return Ok(cs);
  }

  /** One turn of the policy loop. */
  method ReadPolicyPart(reader: XmlReader, before: Policy) returns (res: Result<Policy>)
    requires reader.Valid()
    modifies reader`pos
    ensures reader.Valid()
    ensures match PolicyStep(old(reader.Rest()), before)
            case Ok((p, rest)) => res == Ok(p) && reader.Rest() == rest
            case Err(f) => res == Err(f)
  {
    var p := before;
    if AtStart(reader.Rest(), AndTag) || AtStart(reader.Rest(), OrTag) || AtStart(reader.Rest(), RuleTag) {
      var t :- LoadTerm(reader);
      p := p.(expression := Some(t));
    }
    if AtStart(reader.Rest(), TransformsTag) {
      var cs :- ReadTransforms(reader, p.transforms);
      p := p.(transforms := cs);
    }
    return Ok(p);
  }

  method LoadPolicy(reader: XmlReader) returns (res: Result<Policy>)
    requires reader.Valid()
    modifies reader`pos
    ensures reader.Valid() && res == PolicyFrom(old(reader.Rest()))
  {
    var s :- reader.MoveToRequiredStartElement(PolicyTag);
    var id :- ParseUri(s[0].attributes.policyId);
    var delegation :- OptionalFlag(s[0].attributes.delegation, false);
    var p := Policy(Some(id), delegation, None, []);
    ghost var goal := PolicyLoop(s[1..], p);
    var more := reader.Read();
    while more
      invariant reader.Valid() && more == (|reader.Rest()| != 0)
      invariant match PolicyLoop(reader.Rest(), p)
                case Ok((q, _)) => goal.Ok? && goal.value.0 == q
                case Err(f) => goal == Err(f)
      decreases |reader.Rest()|
    {
      p :- ReadPolicyPart(reader, p);
      if AtEnd(reader.Rest(), PolicyTag) {
        break;
      }
      more := reader.Read();
    }
    more := reader.Read();
    return Ok(p);
  }
}
