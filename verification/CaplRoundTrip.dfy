/** What becomes of a policy that is written and read back. Reading returns the normal form of
    the policy exactly when its connectives nest in a way the reader can follow. */
module CaplRoundTrip {
  import opened Sequences
  import opened Wrappers
  import opened CaplPolicy
  import opened CaplXml
  import opened CaplReader

  // ---- The normal form: empty texts are null, transform ids are gone ----

  function EmptyToNull(s: Option<string>): Option<string> {
    if NullOrEmpty(s) then None else s
  }

  function NormalMatch(m: Match): Match {
    m.(claimType := NullToEmpty(m.claimType), value := EmptyToNull(m.value))
  }

  function NormalOperation(o: Operation): Operation {
    o.(claimValue := EmptyToNull(o.claimValue))
  }

  function NormalRule(r: Rule): Rule {
    r.(operation := if r.operation.Some? then Some(NormalOperation(r.operation.value)) else None,
       matcher := if r.matcher.Some? then Some(NormalMatch(r.matcher.value)) else None)
  }

  function NormalTerm(t: Term): Term
    decreases t, 1
  {
    match t
    case RuleTerm(r) => RuleTerm(NormalRule(r))
    case Connective(k, id, e, ts) => Connective(k, id, e, NormalTerms(ts))
  }

  function NormalTerms(ts: seq<Term>): (ns: seq<Term>)
    ensures |ns| == |ts|
    ensures forall i :: 0 <= i < |ts| ==> ns[i] == NormalTerm(ts[i])
    decreases ts, 0
  {
    if |ts| == 0 then [] else [NormalTerm(ts[0])] + NormalTerms(ts[1..])
  }

  function NormalTarget(c: LiteralClaim): LiteralClaim {
    LiteralClaim(NullToEmpty(c.claimType), EmptyToNull(c.claimValue))
  }

  function NormalTransform(c: ClaimTransform): ClaimTransform {
    ClaimTransform(None, c.transformType,
                   if c.matcher.Some? then Some(NormalMatch(c.matcher.value)) else None,
                   if c.target.Some? then Some(NormalTarget(c.target.value)) else None,
                   if c.expression.Some? then Some(NormalTerm(c.expression.value)) else None)
  }

  function NormalTransforms(cs: seq<ClaimTransform>): (ns: seq<ClaimTransform>)
    ensures |ns| == |cs|
    ensures forall i :: 0 <= i < |cs| ==> ns[i] == NormalTransform(cs[i])
  {
    if |cs| == 0 then [] else [NormalTransform(cs[0])] + NormalTransforms(cs[1..])
  }

  function NormalPolicy(p: Policy): Policy {
    Policy(p.policyId, p.delegation,
           if p.expression.Some? then Some(NormalTerm(p.expression.value)) else None,
           NormalTransforms(p.transforms))
  }

  // ---- The policies that are their own normal form ----

  predicate PlainMatch(m: Match) {
    m.claimType.Some? && m.value != Some("")
  }

  predicate PlainTerm(t: Term) {
    match t
    case RuleTerm(r) =>
      && (r.operation.Some? ==> r.operation.value.claimValue != Some(""))
      && (r.matcher.Some? ==> PlainMatch(r.matcher.value))
    case Connective(_, _, _, ts) => forall c <- ts :: PlainTerm(c)
  }

  /** No transform id, no claim type that is null, and no other text that is empty. */
  predicate PlainTransform(c: ClaimTransform) {
    && c.transformId == None
    && (c.matcher.Some? ==> PlainMatch(c.matcher.value))
    && (c.target.Some? ==> c.target.value.claimType.Some? && c.target.value.claimValue != Some(""))
    && (c.expression.Some? ==> PlainTerm(c.expression.value))
  }

  predicate PlainPolicy(p: Policy) {
    (p.expression.Some? ==> PlainTerm(p.expression.value)) && forall c <- p.transforms :: PlainTransform(c)
  }

  lemma {:induction false} NormalTermIffPlain(t: Term)
    ensures NormalTerm(t) == t <==> PlainTerm(t)
    decreases t
  {
    match t
    case RuleTerm(_) =>
    case Connective(_, _, _, ts) =>
      var ns := NormalTerms(ts);
      forall i | 0 <= i < |ts| ensures ns[i] == ts[i] <==> PlainTerm(ts[i]) {
        NormalTermIffPlain(ts[i]);
      }
      assert ns == ts <==> forall i :: 0 <= i < |ts| ==> ns[i] == ts[i];
  }

  lemma NormalTransformIffPlain(c: ClaimTransform)
    ensures NormalTransform(c) == c <==> PlainTransform(c)
  {
    if c.expression.Some? {
      NormalTermIffPlain(c.expression.value);
    }
  }

  /** The normal form changes exactly the texts that are null or empty where reading returns the
      other, and the transform ids. */
  lemma NormalPolicyIffPlain(p: Policy)
    ensures NormalPolicy(p) == p <==> PlainPolicy(p)
  {
    if p.expression.Some? {
      NormalTermIffPlain(p.expression.value);
    }
    var ns := NormalTransforms(p.transforms);
    forall i | 0 <= i < |ns| ensures ns[i] == p.transforms[i] <==> PlainTransform(p.transforms[i]) {
      NormalTransformIffPlain(p.transforms[i]);
    }
    assert ns == p.transforms <==> forall i :: 0 <= i < |ns| ==> ns[i] == p.transforms[i];
  }

  // ---- The shapes the reader can follow ----

  predicate SameKind(k: Kind, t: Term) {
    t.Connective? && t.kind == k
  }

  /** A connective may hold one of its own kind in last position only. */
  predicate WellNested(t: Term)
    decreases t, 1
  {
    t.Connective? ==> NestedIn(t.kind, t.terms)
  }

  predicate NestedIn(k: Kind, ts: seq<Term>)
    decreases ts, 0
  {
    |ts| != 0 ==>
      && WellNested(ts[0])
      && (SameKind(k, ts[0]) ==> |ts| == 1)
      && NestedIn(k, ts[1..])
  }

  /** The reader returns at the end tag of the nested connective, before the term's own. */
  predicate StopsEarly(t: Term) {
    t.Connective? && |t.terms| != 0 && SameKind(t.kind, t.terms[|t.terms| - 1])
  }

  predicate ReloadableTransform(c: ClaimTransform) {
    && (c.target.Some? ==> !NullOrEmpty(c.target.value.claimType))
    && (c.expression.Some? ==> WellNested(c.expression.value) && !StopsEarly(c.expression.value))
  }

  predicate Reloadable(p: Policy) {
    && p.policyId.Some?
    && (p.expression.Some? ==> WellNested(p.expression.value))
    && forall c <- p.transforms :: ReloadableTransform(c)
  }

  /** What is left of a term's own nodes where its reader stops: end tags of one kind. */
  function Trail(t: Term): (ends: Nodes)
    ensures |ends| != 0
    decreases t, 1
  {
    match t
    case RuleTerm(_) => [End(RuleTag)]
    case Connective(k, _, _, ts) => TrailIn(k, ts)
  }

  function TrailIn(k: Kind, ts: seq<Term>): (ends: Nodes)
    ensures |ends| != 0
    decreases ts, 0
  {
    if |ts| != 0 && SameKind(k, ts[|ts| - 1]) then Trail(ts[|ts| - 1]) + [End(KindTag(k))]
    else [End(KindTag(k))]
  }

  function TermTag(t: Term): Tag {
    match t case RuleTerm(_) => RuleTag case Connective(k, _, _, _) => KindTag(k)
  }

  predicate AllEnds(ends: Nodes, tag: Tag) {
    forall i :: 0 <= i < |ends| ==> ends[i] == End(tag)
  }

  lemma {:induction false} TrailIsEnds(t: Term)
    ensures AllEnds(Trail(t), TermTag(t))
    decreases t
  {
    if t.Connective? && |t.terms| != 0 && SameKind(t.kind, t.terms[|t.terms| - 1]) {
      TrailIsEnds(t.terms[|t.terms| - 1]);
    }
  }

  // ---- Elements seen by the reader ----

  lemma ElementNodes(tag: Tag, attributes: Attributes, content: Nodes, post: Nodes)
    ensures |Element(tag, attributes, content)| != 0
    ensures (Element(tag, attributes, content) + post)[0] == Start(tag, attributes, |content| == 0)
    ensures |content| == 0 ==> (Element(tag, attributes, content) + post)[1..] == post
    ensures |content| != 0 ==> (Element(tag, attributes, content) + post)[1..] == content + ([End(tag)] + post)
  {
  }

  /** The node a leaf element's reader stops at: its end tag, or the short form itself. */
  function LastOf(tag: Tag, attributes: Attributes, content: Nodes): Node {
    if |content| == 0 then Start(tag, attributes, true) else End(tag)
  }

  function MatchAttributes(m: Match): Attributes {
    NoAttributes.(typ := Some(m.matchType), claimType := NullToEmpty(m.claimType),
                  required := Some(BooleanText(m.required)))
  }

  lemma ReadsText(tag: Tag, attributes: Attributes, text: Option<string>, post: Nodes)
    ensures ElementValue(Element(tag, attributes, TextNodes(text)) + post, tag)
         == Ok((EmptyToNull(text), [LastOf(tag, attributes, TextNodes(text))] + post))
  {
    var content := TextNodes(text);
    var r := Element(tag, attributes, content) + post;
    ElementNodes(tag, attributes, content, post);
    if |content| == 0 {
      assert r == [LastOf(tag, attributes, content)] + post;
    } else {
      assert r[1..][1..] == [End(tag)] + post;
      assert TextRun(r[1..][1..]) == ("", [End(tag)] + post);
      assert text.value + "" == text.value;
    }
  }

  lemma ReadsMatch(m: Match, post: Nodes)
    ensures MatchFrom(MatchXml(m) + post)
         == Ok((NormalMatch(m), [LastOf(MatchTag, MatchAttributes(m), TextNodes(m.value))] + post))
  {
    ElementNodes(MatchTag, MatchAttributes(m), TextNodes(m.value), post);
    ReadsText(MatchTag, MatchAttributes(m), m.value, post);
  }

  lemma ReadsOperation(o: Operation, post: Nodes)
    ensures OperationFrom(OperationXml(o) + post)
         == Ok((NormalOperation(o),
                [LastOf(OperationTag, NoAttributes.(typ := Some(o.operationType)), TextNodes(o.claimValue))] + post))
  {
    var attributes := NoAttributes.(typ := Some(o.operationType));
    ElementNodes(OperationTag, attributes, TextNodes(o.claimValue), post);
    ReadsText(OperationTag, attributes, o.claimValue, post);
  }

  // ---- Elements from anywhere: what their attributes have to say ----

  /** Absent and empty flags count as true, and so does 1. */
  predicate FlagOn(s: Option<string>) {
    s == None || s == Some("") || s == Some("true") || s == Some("1")
  }

  predicate FlagOff(s: Option<string>) {
    s == Some("false") || s == Some("0")
  }

  /** A match is read if and only if it has a type and a flag one can read. */
  lemma AnyMatchIsRead(a: Attributes, text: Option<string>, post: Nodes)
    ensures var res := MatchFrom(Leaf(MatchTag, a, text) + post);
            && (res.Ok? <==> a.typ.Some? && a.typ != Some("") && (FlagOn(a.required) || FlagOff(a.required)))
            && (res.Ok? ==> res.value.0 == Match(a.typ.value, a.claimType, FlagOn(a.required),
                                                 if text == Some("") then None else text))
  {
    assert Leaf(MatchTag, a, text) == Element(MatchTag, a, TextNodes(text));
    ElementNodes(MatchTag, a, TextNodes(text), post);
    ReadsText(MatchTag, a, text, post);
  }

  lemma AnyOperationIsRead(a: Attributes, text: Option<string>, post: Nodes)
    ensures var res := OperationFrom(Leaf(OperationTag, a, text) + post);
            && (res.Ok? <==> a.typ.Some? && a.typ != Some(""))
            && (res.Ok? ==> res.value.0 == Operation(a.typ.value, if text == Some("") then None else text))
  {
    assert Leaf(OperationTag, a, text) == Element(OperationTag, a, TextNodes(text));
    ElementNodes(OperationTag, a, TextNodes(text), post);
    ReadsText(OperationTag, a, text, post);
  }

  /** The flag and the id of a connective, whatever follows. */
  lemma AnyConnectiveIsRead(k: Kind, a: Attributes, isEmpty: bool, rest: Nodes)
    ensures var res := ConnectiveFrom(k, [Start(KindTag(k), a, isEmpty)] + rest);
            && (res.Ok? ==> FlagOn(a.evaluates) || FlagOff(a.evaluates))
            && (res.Ok? ==> res.value.0.kind == k && res.value.0.evaluates == FlagOn(a.evaluates))
            && (res.Ok? ==> res.value.0.termId == if a.termId == Some("") then None else a.termId)
  {
  }

  lemma {:induction false} RuleLoopKeepsHeader(r: Nodes, rule: Rule)
    ensures var res := RuleLoop(r, rule);
            res.Ok? ==> var read := res.value.0;
              read.termId == rule.termId && read.issuer == rule.issuer && read.evaluates == rule.evaluates
    decreases |r|
  {
    if |r| != 0 {
      var step := RuleStep(r, rule);
      if step.Ok? && !AtEnd(step.value.1, RuleTag) {
        RuleLoopKeepsHeader(Advance(step.value.1), step.value.0);
      }
    }
  }

  lemma AnyRuleIsRead(a: Attributes, isEmpty: bool, rest: Nodes)
    ensures var res := RuleFrom([Start(RuleTag, a, isEmpty)] + rest);
            && (res.Ok? ==> FlagOn(a.evaluates) || FlagOff(a.evaluates))
            && (res.Ok? ==> res.value.0.evaluates == FlagOn(a.evaluates) && res.value.0.issuer == a.issuer)
            && (res.Ok? ==> res.value.0.termId == if a.termId == Some("") then None else a.termId)
  {
    if RuleHeader(a).Ok? {
      RuleLoopKeepsHeader(rest, RuleHeader(a).value);
      assert ([Start(RuleTag, a, isEmpty)] + rest)[1..] == rest;
    }
  }

  lemma {:induction false} PolicyLoopKeepsHeader(r: Nodes, p: Policy)
    ensures var res := PolicyLoop(r, p);
            res.Ok? ==> res.value.0.policyId == p.policyId && res.value.0.delegation == p.delegation
    decreases |r|
  {
    if |r| != 0 {
      var step := PolicyStep(r, p);
      if step.Ok? && !AtEnd(step.value.1, PolicyTag) {
        PolicyLoopKeepsHeader(Advance(step.value.1), step.value.0);
      }
    }
  }

  /** A policy is read only with an id; its delegation is off unless the attribute says on. */
  lemma AnyPolicyIsRead(a: Attributes, isEmpty: bool, rest: Nodes)
    ensures var res := PolicyFrom([Start(PolicyTag, a, isEmpty)] + rest);
            && (res.Ok? ==> a.policyId.Some? && a.policyId != Some("") && AsText(res.value.policyId) == a.policyId)
            && (res.Ok? ==> (FlagOn(a.delegation) || FlagOff(a.delegation))
                            && (res.value.delegation <==> a.delegation == Some("true") || a.delegation == Some("1")))
  {
    var xml := [Start(PolicyTag, a, isEmpty)] + rest;
    assert xml[1..] == rest;
    var id, delegation := ParseUri(a.policyId), OptionalFlag(a.delegation, false);
    if id.Ok? && delegation.Ok? {
      PolicyLoopKeepsHeader(rest, Policy(Some(id.value), delegation.value, None, []));
    }
  }

  lemma ReadsRule(rule: Rule, post: Nodes)
    requires rule.operation.Some? && rule.matcher.Some?
    ensures RuleFrom(TermXml(RuleTerm(rule)) + post) == Ok((NormalRule(rule), [End(RuleTag)] + post))
  {
    var o, m := rule.operation.value, rule.matcher.value;
    var tail := [End(RuleTag)] + post;
    var header := Rule(rule.termId, rule.issuer, rule.evaluates, None, None);
    ReadsRuleHeader(rule, post);
    ElementNodes(MatchTag, MatchAttributes(m), TextNodes(m.value), tail);
    RuleLoopOperation(o, MatchXml(m) + tail, header);
    RuleLoopMatch(m, tail, header.(operation := Some(NormalOperation(o))));
  }

  lemma ReadsRuleHeader(rule: Rule, post: Nodes)
    requires rule.operation.Some? && rule.matcher.Some?
    ensures RuleFrom(TermXml(RuleTerm(rule)) + post)
         == RuleLoop(OperationXml(rule.operation.value) + (MatchXml(rule.matcher.value) + ([End(RuleTag)] + post)),
                     Rule(rule.termId, rule.issuer, rule.evaluates, None, None))
  {
    var o, m := OperationXml(rule.operation.value), MatchXml(rule.matcher.value);
    OperationXmlSome(rule.operation.value);
    ElementNodes(RuleTag, RuleAttributes(rule), o + m, post);
    Concat(o, m, [End(RuleTag)] + post);
    RuleFromHeader(rule, TermXml(RuleTerm(rule)) + post);
  }

  lemma RuleFromHeader(rule: Rule, r: Nodes)
    requires |r| != 0 && r[0] == Start(RuleTag, RuleAttributes(rule), false)
    ensures RuleFrom(r) == RuleLoop(r[1..], Rule(rule.termId, rule.issuer, rule.evaluates, None, None))
  {
    AttributesReturn(rule.termId, rule.evaluates);
  }

  lemma OperationXmlSome(o: Operation)
    ensures |OperationXml(o)| != 0
  {
  }

  lemma RuleLoopOperation(o: Operation, post: Nodes, rule: Rule)
    requires AtStart(post, MatchTag)
    ensures RuleLoop(OperationXml(o) + post, rule) == RuleLoop(post, rule.(operation := Some(NormalOperation(o))))
  {
    var attributes := NoAttributes.(typ := Some(o.operationType));
    ElementNodes(OperationTag, attributes, TextNodes(o.claimValue), post);
    ReadsOperation(o, post);
    var last := [LastOf(OperationTag, attributes, TextNodes(o.claimValue))] + post;
    assert Advance(last) == post;
  }

  lemma RuleLoopMatch(m: Match, post: Nodes, rule: Rule)
    requires |post| != 0 && post[0] == End(RuleTag)
    ensures RuleLoop(MatchXml(m) + post, rule) == Ok((rule.(matcher := Some(NormalMatch(m))), post))
  {
    ElementNodes(MatchTag, MatchAttributes(m), TextNodes(m.value), post);
    ReadsMatch(m, post);
    var last := [LastOf(MatchTag, MatchAttributes(m), TextNodes(m.value))] + post;
    assert Advance(last) == post;
  }

  // ---- Terms that nest well are read back ----

  lemma TermXmlStart(t: Term, post: Nodes)
    requires Complete(t)
    ensures AtStart(TermXml(t) + post, TermTag(t))
  {
    match t
    case RuleTerm(r) =>
      ElementNodes(RuleTag, RuleAttributes(r), OperationXml(r.operation.value) + MatchXml(r.matcher.value), post);
    case Connective(k, _, _, ts) =>
      ElementNodes(KindTag(k), ConnectiveAttributes(t), TermsXml(ts), post);
  }

  lemma FilledTermsXml(ts: seq<Term>)
    requires forall c <- ts :: FilledTerm(c)
    ensures forall c <- ts :: Complete(c)
    ensures |ts| != 0 ==> |TermsXml(ts)| != 0
  {
    forall c <- ts ensures Complete(c) { FilledTermIsComplete(c); }
    if |ts| != 0 {
      TermXmlStart(ts[0], []);
      assert TermXml(ts[0]) + [] == TermXml(ts[0]);
    }
  }

  /** One turn of the connective loop reads one well-nested operand. */
  lemma {:induction false} ReadsOperand(t: Term, acc: seq<Term>, post: Nodes)
    requires FilledTerm(t) && WellNested(t)
    ensures Complete(t)
    ensures ConnectiveStep(TermXml(t) + post, acc) == Ok((acc + [NormalTerm(t)], Trail(t) + post))
    decreases t, 2
  {
    FilledTermIsComplete(t);
    TermXmlStart(t, post);
    TrailIsEnds(t);
    var rest := Trail(t) + post;
    assert rest[0] == Trail(t)[0];
    match t
    case RuleTerm(rule) => ReadsRule(rule, post);
    case Connective(k, _, _, _) => ReadsConnective(t, post);
  }

  lemma {:induction false} ReadsConnective(t: Term, post: Nodes)
    requires FilledTerm(t) && WellNested(t) && t.Connective?
    ensures Complete(t)
    ensures ConnectiveFrom(t.kind, TermXml(t) + post) == Ok((NormalTerm(t), Trail(t) + post))
    decreases t, 1
  {
    FilledTermIsComplete(t);
    FilledTermsXml(t.terms);
    ConnectiveStart(t, post);
    ReadsOperands(t.kind, t.terms, [], post);
    assert [] + NormalTerms(t.terms) == NormalTerms(t.terms);
  }

  /** The attributes of a connective are read back before its loop starts. */
  lemma ConnectiveHeader(t: Term, r: Nodes, body: Nodes)
    requires t.Connective? && |r| != 0 && r[0].Start? && r[0].tag == KindTag(t.kind)
    requires r[0].attributes == ConnectiveAttributes(t) && r[1..] == body
    ensures var loop := ConnectiveLoop(t.kind, body, []);
            ConnectiveFrom(t.kind, r) ==
            if loop.Err? then Err(loop.fault) else Ok((t.(terms := loop.value.0), loop.value.1))
  {
    AttributesReturn(t.termId, t.evaluates);
  }

  lemma AttributesReturn(u: Option<Uri>, flag: bool)
    ensures OptionalUri(AsText(u)) == u && OptionalFlag(Some(BooleanText(flag)), true) == Ok(flag)
  {
  }

  lemma ConnectiveStart(t: Term, post: Nodes)
    requires t.Connective? && Complete(t) && |TermsXml(t.terms)| != 0
    ensures var loop := ConnectiveLoop(t.kind, TermsXml(t.terms) + ([End(KindTag(t.kind))] + post), []);
            ConnectiveFrom(t.kind, TermXml(t) + post) ==
            if loop.Err? then Err(loop.fault) else Ok((t.(terms := loop.value.0), loop.value.1))
  {
    ElementNodes(KindTag(t.kind), ConnectiveAttributes(t), TermsXml(t.terms), post);
    ConnectiveHeader(t, TermXml(t) + post, TermsXml(t.terms) + ([End(KindTag(t.kind))] + post));
  }

  /** After an operand the loop ends if the operand is of its own kind, and goes on with the
      next operand otherwise. */
  lemma {:induction false} AfterOperand(k: Kind, t: Term, acc: seq<Term>, tail: Nodes)
    requires FilledTerm(t) && WellNested(t)
    ensures Complete(t)
    ensures ConnectiveLoop(k, TermXml(t) + tail, acc)
         == if SameKind(k, t) then Ok((acc + [NormalTerm(t)], Trail(t) + tail))
            else ConnectiveLoop(k, tail, acc + [NormalTerm(t)])
    decreases t, 3
  {
    ReadsOperand(t, acc, tail);
    TermXmlStart(t, tail);
    TrailIsEnds(t);
    var rest := Trail(t) + tail;
    assert rest[0] == Trail(t)[0];
    if !SameKind(k, t) {
      assert Advance(rest) == Trail(t)[1..] + tail;
      SkipsEnds(k, Trail(t)[1..], TermTag(t), tail, acc + [NormalTerm(t)]);
    }
  }

  lemma {:induction false} ReadsOperands(k: Kind, ts: seq<Term>, acc: seq<Term>, post: Nodes)
    requires |ts| != 0 && NestedIn(k, ts) && forall c <- ts :: FilledTerm(c)
    ensures forall c <- ts :: Complete(c)
    ensures ConnectiveLoop(k, TermsXml(ts) + ([End(KindTag(k))] + post), acc)
         == Ok((acc + NormalTerms(ts), TrailIn(k, ts) + post))
    decreases ts, 0
  {
    FilledTermsXml(ts);
    var t, end := ts[0], [End(KindTag(k))] + post;
    FirstOperand(ts, end, acc);
    if |ts| == 1 {
      assert TermsXml(ts[1..]) + end == end;
      LastOperand(k, t, acc, post);
      assert ts == [t];
    } else {
      AfterOperand(k, t, acc, TermsXml(ts[1..]) + end);
      ReadsOperands(k, ts[1..], acc + [NormalTerm(t)], post);
      TrailOfRest(k, ts);
    }
  }

  lemma TrailOfRest(k: Kind, ts: seq<Term>)
    requires |ts| > 1
    ensures TrailIn(k, ts) == TrailIn(k, ts[1..])
  {
    assert ts[1..][|ts| - 2] == ts[|ts| - 1];
  }

  lemma {:induction false} LastOperand(k: Kind, t: Term, acc: seq<Term>, post: Nodes)
    requires FilledTerm(t) && WellNested(t)
    ensures Complete(t)
    ensures ConnectiveLoop(k, TermXml(t) + ([End(KindTag(k))] + post), acc)
         == Ok((acc + [NormalTerm(t)], TrailIn(k, [t]) + post))
    decreases t, 4
  {
    AfterOperand(k, t, acc, [End(KindTag(k))] + post);
    if SameKind(k, t) {
      Concat(Trail(t), [End(KindTag(k))], post);
    } else {
      LoopEnds(k, post, acc + [NormalTerm(t)]);
    }
  }

  lemma FirstOperand(ts: seq<Term>, end: Nodes, acc: seq<Term>)
    requires |ts| != 0 && forall c <- ts :: Complete(c)
    ensures TermsXml(ts) + end == TermXml(ts[0]) + (TermsXml(ts[1..]) + end)
    ensures acc + NormalTerms(ts) == acc + [NormalTerm(ts[0])] + NormalTerms(ts[1..])
    ensures |ts| == 1 ==> acc + NormalTerms(ts) == acc + [NormalTerm(ts[0])]
  {
    Concat(TermXml(ts[0]), TermsXml(ts[1..]), end);
    AppendOne(acc, NormalTerm(ts[0]), NormalTerms(ts[1..]));
  }

  lemma LoopEnds(k: Kind, post: Nodes, acc: seq<Term>)
    ensures ConnectiveLoop(k, [End(KindTag(k))] + post, acc) == Ok((acc, [End(KindTag(k))] + post))
  {
    assert ConnectiveStep([End(KindTag(k))] + post, acc) == Ok((acc, [End(KindTag(k))] + post));
  }

  /** End tags of another kind are passed over. */
  lemma {:induction false} SkipsEnds(k: Kind, ends: Nodes, tag: Tag, r: Nodes, acc: seq<Term>)
    requires AllEnds(ends, tag) && tag != KindTag(k)
    ensures ConnectiveLoop(k, ends + r, acc) == ConnectiveLoop(k, r, acc)
  {
    if |ends| == 0 {
      assert ends + r == r;
    } else {
      assert (ends + r)[0] == ends[0];
      assert (ends + r)[1..] == ends[1..] + r;
      assert ConnectiveStep(ends + r, acc) == Ok((acc, ends + r));
      SkipsEnds(k, ends[1..], tag, r, acc);
    }
  }

  // ---- Terms that do not nest well are read as something else ----

  lemma StepExtends(r: Nodes, acc: seq<Term>)
    ensures var res := ConnectiveStep(r, acc); res.Ok? ==> acc <= res.value.0
  {
  }

  /** The loop only ever appends to the terms read so far. */
  lemma {:induction false} LoopExtends(k: Kind, r: Nodes, acc: seq<Term>)
    ensures var res := ConnectiveLoop(k, r, acc); res.Ok? ==> acc <= res.value.0
    decreases |r|
  {
    if |r| != 0 {
      var step := ConnectiveStep(r, acc);
      StepExtends(r, acc);
      if step.Ok? && !AtEnd(step.value.1, KindTag(k)) {
        LoopExtends(k, Advance(step.value.1), step.value.0);
      }
    }
  }

  lemma {:induction false} MisreadsConnective(t: Term, post: Nodes)
    requires FilledTerm(t) && !WellNested(t)
    ensures t.Connective? && Complete(t)
    ensures var res := ConnectiveFrom(t.kind, TermXml(t) + post); res.Ok? ==> res.value.0 != NormalTerm(t)
    decreases t, 1
  {
    FilledTermIsComplete(t);
    FilledTermsXml(t.terms);
    ConnectiveStart(t, post);
    MisreadsOperands(t.kind, t.terms, [], post);
    assert [] + NormalTerms(t.terms) == NormalTerms(t.terms);
  }

  lemma {:induction false} MisreadsOperands(k: Kind, ts: seq<Term>, acc: seq<Term>, post: Nodes)
    requires !NestedIn(k, ts) && forall c <- ts :: FilledTerm(c)
    ensures forall c <- ts :: Complete(c)
    ensures var res := ConnectiveLoop(k, TermsXml(ts) + ([End(KindTag(k))] + post), acc);
            res.Ok? ==> res.value.0 != acc + NormalTerms(ts)
    decreases ts, 0
  {
    FilledTermsXml(ts);
    var t, end := ts[0], [End(KindTag(k))] + post;
    FirstOperand(ts, end, acc);
    if !WellNested(t) {
      MisreadsFirst(k, t, acc, TermsXml(ts[1..]) + end);
      assert (acc + NormalTerms(ts))[|acc|] == NormalTerm(t);
    } else {
      AfterOperand(k, t, acc, TermsXml(ts[1..]) + end);
      if !SameKind(k, t) {
        MisreadsOperands(k, ts[1..], acc + [NormalTerm(t)], post);
      }
    }
  }

  lemma {:induction false} MisreadsFirst(k: Kind, t: Term, acc: seq<Term>, tail: Nodes)
    requires FilledTerm(t) && !WellNested(t)
    ensures Complete(t)
    ensures var res := ConnectiveLoop(k, TermXml(t) + tail, acc);
            res.Ok? ==> |acc| < |res.value.0| && res.value.0[|acc|] != NormalTerm(t)
    decreases t, 2
  {
    MisreadsConnective(t, tail);
    var r := TermXml(t) + tail;
    TermXmlStart(t, tail);
    var read, step := ConnectiveFrom(t.kind, r), ConnectiveStep(r, acc);
    StepStarts(t.kind, r, acc);
    if step.Ok? && !AtEnd(step.value.1, KindTag(k)) {
      LoopExtends(k, Advance(step.value.1), step.value.0);
    }
  }

  /** A turn that starts at a connective first adds what its reader returns. */
  lemma StepStarts(kind: Kind, r: Nodes, acc: seq<Term>)
    requires AtStart(r, KindTag(kind))
    ensures var read, step := ConnectiveFrom(kind, r), ConnectiveStep(r, acc);
            step.Ok? ==> read.Ok? && acc + [read.value.0] <= step.value.0
  {
  }
}
