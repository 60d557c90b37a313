/** The XML a policy is written as. A document is the sequence of nodes an XML reader meets;
    all tags live in the CAPL namespace except `Other`. */
module CaplXml {
  import opened Sequences
  import opened Wrappers
  import opened CaplPolicy

  datatype Tag =
    | PolicyTag | AndTag | OrTag | RuleTag | OperationTag | MatchTag
    | TargetClaimTag | TransformTag | TransformsTag | OtherTag(name: string)

  /** The attributes the policy readers ever ask for. */
  datatype Attributes = Attributes(claimType: Option<string>, delegation: Option<string>,
                                   evaluates: Option<string>, issuer: Option<string>,
                                   policyId: Option<string>, required: Option<string>,
                                   termId: Option<string>, transformId: Option<string>,
                                   typ: Option<string>)

  const NoAttributes := Attributes(None, None, None, None, None, None, None, None, None)

  datatype Node =
    | NoNode
    | Start(tag: Tag, attributes: Attributes, isEmpty: bool)
    | Text(text: string)
    | End(tag: Tag)

  type Nodes = seq<Node>

  function KindTag(k: Kind): Tag {
    match k case And => AndTag case Or => OrTag
  }

  function BooleanText(b: bool): string {
    if b then "true" else "false"
  }

  function AsText(u: Option<Uri>): Option<string> {
    match u case None => None case Some(s) => Some(s)
  }

  predicate NullOrEmpty(s: Option<string>) {
    s == None || s == Some("")
  }

  /** An attribute written from a null string is present and empty. */
  function NullToEmpty(s: Option<string>): Option<string> {
    if s == None then Some("") else s
  }

  /** Writing a null or an empty string adds no text node. */
  function TextNodes(s: Option<string>): Nodes {
    if NullOrEmpty(s) then [] else [Text(s.value)]
  }

  /** An element without content is written with the short form. */
  function Element(tag: Tag, attributes: Attributes, content: Nodes): Nodes {
    if |content| == 0 then [Start(tag, attributes, true)]
    else [Start(tag, attributes, false)] + content + [End(tag)]
  }

  function MatchXml(m: Match): Nodes {
    Element(MatchTag,
            NoAttributes.(typ := Some(m.matchType), claimType := NullToEmpty(m.claimType),
                          required := Some(BooleanText(m.required))),
            TextNodes(m.value))
  }

  function OperationXml(o: Operation): Nodes {
    Element(OperationTag, NoAttributes.(typ := Some(o.operationType)), TextNodes(o.claimValue))
  }

  function RuleAttributes(r: Rule): Attributes {
    NoAttributes.(issuer := r.issuer, termId := AsText(r.termId), evaluates := Some(BooleanText(r.evaluates)))
  }

  function ConnectiveAttributes(t: Term): Attributes
    requires t.Connective?
  {
    NoAttributes.(termId := AsText(t.termId), evaluates := Some(BooleanText(t.evaluates)))
  }

  function TermXml(t: Term): Nodes
    requires Complete(t)
    decreases t, 1
  {
    match t
    case RuleTerm(r) => Element(RuleTag, RuleAttributes(r), OperationXml(r.operation.value) + MatchXml(r.matcher.value))
    case Connective(k, _, _, ts) => Element(KindTag(k), ConnectiveAttributes(t), TermsXml(ts))
  }

  function TermsXml(ts: seq<Term>): Nodes
    requires forall c <- ts :: Complete(c)
    decreases ts, 0
  {
    if |ts| == 0 then [] else TermXml(ts[0]) + TermsXml(ts[1..])
  }

  function TargetXml(c: LiteralClaim): Nodes {
    Element(TargetClaimTag, NoAttributes.(claimType := NullToEmpty(c.claimType)), TextNodes(c.claimValue))
  }

  predicate CompleteTransform(c: ClaimTransform) {
    c.expression.Some? ==> Complete(c.expression.value)
  }

  function MatchPart(c: ClaimTransform): Nodes {
    if c.matcher.Some? then MatchXml(c.matcher.value) else []
  }

  function TargetPart(c: ClaimTransform): Nodes {
    if c.target.Some? then TargetXml(c.target.value) else []
  }

  function ExpressionPart(c: ClaimTransform): Nodes
    requires CompleteTransform(c)
  {
    if c.expression.Some? then TermXml(c.expression.value) else []
  }

  function TransformContent(c: ClaimTransform): Nodes
    requires CompleteTransform(c)
  {
    MatchPart(c) + TargetPart(c) + ExpressionPart(c)
  }

  function TransformXml(c: ClaimTransform): Nodes
    requires CompleteTransform(c)
  {
    Element(TransformTag,
            NoAttributes.(transformId := AsText(c.transformId), typ := Some(c.transformType)),
            TransformContent(c))
  }

  function TransformsXml(cs: seq<ClaimTransform>): Nodes
    requires forall c <- cs :: CompleteTransform(c)
  {
    if |cs| == 0 then [] else TransformXml(cs[0]) + TransformsXml(cs[1..])
  }

  predicate CompletePolicy(p: Policy) {
    && p.expression.Some?
    && Complete(p.expression.value)
    && forall c <- p.transforms :: CompleteTransform(c)
  }

  /** An empty transform collection writes nothing at all. */
  function TransformSection(cs: seq<ClaimTransform>): Nodes
    requires forall c <- cs :: CompleteTransform(c)
  {
    if |cs| == 0 then [] else Element(TransformsTag, NoAttributes, TransformsXml(cs))
  }

  function PolicyXml(p: Policy): Nodes
    requires CompletePolicy(p)
  {
    Element(PolicyTag,
            NoAttributes.(policyId := AsText(p.policyId), delegation := Some(BooleanText(p.delegation))),
            TermXml(p.expression.value) + TransformSection(p.transforms))
  }

  /** A leaf element as a document has it: the short form when the text is null or empty. */
  function Leaf(tag: Tag, attributes: Attributes, text: Option<string>): Nodes {
    if text == None || text == Some("") then [Start(tag, attributes, true)]
    else [Start(tag, attributes, false), Text(text.value), End(tag)]
  }

  /** The writer the `WriteXml` methods drive: `nodes` is the output so far and `open` the
      elements not yet closed, innermost last. */
  class XmlWriter {
    var nodes: Nodes
    var open: seq<Tag>

    constructor ()
      ensures nodes == [] && open == []
    {
      nodes, open := [], [];
    }

    method WriteStartElement(tag: Tag, attributes: Attributes)
      modifies this
      ensures nodes == old(nodes) + [Start(tag, attributes, false)]
      ensures open == old(open) + [tag]
    {
      nodes := nodes + [Start(tag, attributes, false)];
      open := open + [tag];
    }

    method WriteString(s: Option<string>)
      modifies this`nodes
      ensures nodes == old(nodes) + TextNodes(s)
    {
      if !NullOrEmpty(s) {
        nodes := nodes + [Text(s.value)];
      }
    }

    /** Closes the innermost element; when nothing was written since its start tag, the start
        tag itself becomes the short form. */
    method WriteEndElement(ghost before: Nodes, ghost attributes: Attributes, ghost content: Nodes)
      requires open != []
      requires nodes == before + [Start(open[|open| - 1], attributes, false)] + content
      requires content != [] && content[|content| - 1].Start? ==> content[|content| - 1].isEmpty
      modifies this
      ensures nodes == before + Element(old(open)[|old(open)| - 1], attributes, content)
      ensures open == old(open)[..|old(open)| - 1]
    {
      var last := |nodes| - 1;
      assert content != [] ==> nodes[last] == content[|content| - 1];
      if nodes[last].Start? && !nodes[last].isEmpty {
        assert content == [];
        nodes := nodes[last := nodes[last].(isEmpty := true)];
      } else {
        assert content != [];
        nodes := nodes + [End(open[|open| - 1])];
      }
      open := open[..|open| - 1];
    }

    method WriteMatch(m: Match)
      modifies this
      ensures nodes == old(nodes) + MatchXml(m) && open == old(open)
      ensures nodes == old(nodes) + Leaf(MatchTag, NoAttributes.(
                typ := Some(m.matchType), claimType := Some(if m.claimType.Some? then m.claimType.value else ""),
                required := Some(if m.required then "true" else "false")), m.value)
    {
      var attributes := NoAttributes.(typ := Some(m.matchType), claimType := NullToEmpty(m.claimType),
                                      required := Some(BooleanText(m.required)));
      WriteStartElement(MatchTag, attributes);
      if !NullOrEmpty(m.value) {
        WriteString(m.value);
      }
      WriteEndElement(old(nodes), attributes, TextNodes(m.value));
    }

    method WriteOperation(o: Operation)
      modifies this
      ensures nodes == old(nodes) + OperationXml(o) && open == old(open)
      ensures nodes == old(nodes) + Leaf(OperationTag, NoAttributes.(typ := Some(o.operationType)), o.claimValue)
    {
      WriteStartElement(OperationTag, NoAttributes.(typ := Some(o.operationType)));
      WriteString(o.claimValue);
      WriteEndElement(old(nodes), NoAttributes.(typ := Some(o.operationType)), TextNodes(o.claimValue));
    }

    method WriteRule(r: Rule)
      requires r.operation.Some? && r.matcher.Some?
      modifies this
      ensures nodes == old(nodes) + TermXml(RuleTerm(r)) && open == old(open)
      ensures var attributes := NoAttributes.(issuer := r.issuer, termId := AsText(r.termId),
                                              evaluates := Some(if r.evaluates then "true" else "false"));
              var content := OperationXml(r.operation.value) + MatchXml(r.matcher.value);
              nodes == old(nodes) + ([Start(RuleTag, attributes, false)] + content + [End(RuleTag)])
    {
      WriteStartElement(RuleTag, RuleAttributes(r));
      ghost var started := nodes;
      WriteOperation(r.operation.value);
      WriteMatch(r.matcher.value);
      ghost var o, m := OperationXml(r.operation.value), MatchXml(r.matcher.value);
      Concat(started, o, m);
      WriteEndElement(old(nodes), RuleAttributes(r), o + m);
    }

    method WriteTerm(t: Term)
      requires Complete(t)
      modifies this
      ensures nodes == old(nodes) + TermXml(t) && open == old(open)
      ensures t.Connective? && t.terms != [] ==>
                var tag := match t.kind case And => AndTag case Or => OrTag;
                nodes == old(nodes) + ([Start(tag, ConnectiveAttributes(t), false)] + TermsXml(t.terms) + [End(tag)])
      decreases t
    {
      match t
      case RuleTerm(r) =>
        WriteRule(r);
      case Connective(k, _, _, ts) =>
        WriteStartElement(KindTag(k), ConnectiveAttributes(t));
        ghost var started := nodes;
        assert TermsXml(ts[..0]) == [];
        for i := 0 to |ts|
          invariant nodes == started + TermsXml(ts[..i]) && open == old(open) + [KindTag(k)]
        {
          WriteTerm(ts[i]);
          TermsXmlTake(ts, i);
          Concat(started, TermsXml(ts[..i]), TermXml(ts[i]));
        }
        assert ts[..|ts|] == ts;
        TermsXmlLast(ts);
        WriteEndElement(old(nodes), ConnectiveAttributes(t), TermsXml(ts));
    }

    method WriteTarget(c: LiteralClaim)
      modifies this
      ensures nodes == old(nodes) + TargetXml(c) && open == old(open)
      ensures nodes == old(nodes) + Leaf(TargetClaimTag, NoAttributes.(
                claimType := Some(if c.claimType.Some? then c.claimType.value else "")), c.claimValue)
    {
      var attributes := NoAttributes.(claimType := NullToEmpty(c.claimType));
      WriteStartElement(TargetClaimTag, attributes);
      if !NullOrEmpty(c.claimValue) {
        WriteString(c.claimValue);
      }
      WriteEndElement(old(nodes), attributes, TextNodes(c.claimValue));
    }

    method WriteTransform(c: ClaimTransform)
      requires CompleteTransform(c)
      modifies this
      ensures nodes == old(nodes) + TransformXml(c) && open == old(open)
      ensures var attributes := NoAttributes.(transformId := AsText(c.transformId), typ := Some(c.transformType));
              var content := MatchPart(c) + TargetPart(c) + ExpressionPart(c);
              nodes == old(nodes) + if content == [] then [Start(TransformTag, attributes, true)]
                                    else [Start(TransformTag, attributes, false)] + content + [End(TransformTag)]
    {
      var attributes := NoAttributes.(transformId := AsText(c.transformId), typ := Some(c.transformType));
      WriteStartElement(TransformTag, attributes);
      WriteTransformParts(c);
      TransformContentLast(c);
      WriteEndElement(old(nodes), attributes, TransformContent(c));
    }

    method WriteTransformParts(c: ClaimTransform)
      requires CompleteTransform(c)
      modifies this
      ensures nodes == old(nodes) + TransformContent(c) && open == old(open)
    {
      WriteMatchPart(c);
      WriteTargetPart(c);
      WriteExpressionPart(c);
      Concat(old(nodes), MatchPart(c), TargetPart(c));
      Concat(old(nodes), MatchPart(c) + TargetPart(c), ExpressionPart(c));
    }

    method WriteMatchPart(c: ClaimTransform)
      modifies this
      ensures nodes == old(nodes) + MatchPart(c) && open == old(open)
    {
      if c.matcher.Some? {
        WriteMatch(c.matcher.value);
      }
    }

    method WriteTargetPart(c: ClaimTransform)
      modifies this
      ensures nodes == old(nodes) + TargetPart(c) && open == old(open)
    {
      if c.target.Some? {
        WriteTarget(c.target.value);
      }
    }

    method WriteExpressionPart(c: ClaimTransform)
      requires CompleteTransform(c)
      modifies this
      ensures nodes == old(nodes) + ExpressionPart(c) && open == old(open)
    {
      if c.expression.Some? {
        WriteTerm(c.expression.value);
      }
    }

    method WritePolicy(p: Policy)
      requires CompletePolicy(p)
      modifies this
      ensures nodes == old(nodes) + PolicyXml(p) && open == old(open)
      ensures var attributes := NoAttributes.(policyId := AsText(p.policyId),
                                              delegation := Some(if p.delegation then "true" else "false"));
              var content := TermXml(p.expression.value) + TransformSection(p.transforms);
              nodes == old(nodes) + ([Start(PolicyTag, attributes, false)] + content + [End(PolicyTag)])
    {
      var attributes := NoAttributes.(policyId := AsText(p.policyId), delegation := Some(BooleanText(p.delegation)));
      WriteStartElement(PolicyTag, attributes);
      ghost var started := nodes;
      WriteTerm(p.expression.value);
      TermXmlLast(p.expression.value);
      WriteTransforms(p.transforms);
      ghost var expression, section := TermXml(p.expression.value), TransformSection(p.transforms);
      Concat(started, expression, section);
      WriteEndElement(old(nodes), attributes, expression + section);
    }

    method WriteTransforms(cs: seq<ClaimTransform>)
      requires forall c <- cs :: CompleteTransform(c)
      modifies this
      ensures nodes == old(nodes) + TransformSection(cs) && open == old(open)
      ensures cs == [] ==> nodes == old(nodes)
      ensures cs != [] ==>
                nodes == old(nodes) + ([Start(TransformsTag, NoAttributes, false)] + TransformsXml(cs)
                                       + [End(TransformsTag)])
    {
      if cs == [] {
        return;
      }
      WriteStartElement(TransformsTag, NoAttributes);
      WriteTransformList(cs);
      TransformsXmlLast(cs);
      WriteEndElement(old(nodes), NoAttributes, TransformsXml(cs));
    }

    method WriteNextTransform(cs: seq<ClaimTransform>, i: nat, ghost started: Nodes)
      requires i < |cs| && forall c <- cs :: CompleteTransform(c)
      requires nodes == started + TransformsXml(cs[..i])
      modifies this
      ensures nodes == started + TransformsXml(cs[..i + 1]) && open == old(open)
    {
      ghost var written, next := TransformsXml(cs[..i]), TransformXml(cs[i]);
      WriteTransform(cs[i]);
      Concat(started, written, next);
      TransformsXmlTake(cs, i);
    }

    method WriteTransformList(cs: seq<ClaimTransform>)
      requires forall c <- cs :: CompleteTransform(c)
      modifies this
      ensures nodes == old(nodes) + TransformsXml(cs) && open == old(open)
    {
      ghost var started := nodes;
      for i := 0 to |cs|
        invariant nodes == started + TransformsXml(cs[..i]) && open == old(open)
      {
        WriteNextTransform(cs, i, started);
      }
      assert cs[..|cs|] == cs;
    }
  }

  lemma {:induction false} TermsXmlAppend(ts: seq<Term>, t: Term)
    requires Complete(t) && forall c <- ts :: Complete(c)
    ensures TermsXml(ts + [t]) == TermsXml(ts) + TermXml(t)
  {
    if ts == [] {
      assert ts + [t] == [t];
    } else {
      assert (ts + [t])[1..] == ts[1..] + [t];
      TermsXmlAppend(ts[1..], t);
    }
  }

  lemma {:induction false} TransformsXmlAppend(cs: seq<ClaimTransform>, c: ClaimTransform)
    requires CompleteTransform(c) && forall d <- cs :: CompleteTransform(d)
    ensures TransformsXml(cs + [c]) == TransformsXml(cs) + TransformXml(c)
  {
    if cs == [] {
      assert cs + [c] == [c];
    } else {
      assert (cs + [c])[1..] == cs[1..] + [c];
      TransformsXmlAppend(cs[1..], c);
    }
  }

  lemma TermsXmlTake(ts: seq<Term>, i: nat)
    requires i < |ts| && forall c <- ts :: Complete(c)
    ensures TermsXml(ts[..i + 1]) == TermsXml(ts[..i]) + TermXml(ts[i])
  {
    TakeOneMore(ts, i);
    TermsXmlAppend(ts[..i], ts[i]);
  }

  lemma TransformsXmlTake(cs: seq<ClaimTransform>, i: nat)
    requires i < |cs| && forall d <- cs :: CompleteTransform(d)
    ensures TransformsXml(cs[..i + 1]) == TransformsXml(cs[..i]) + TransformXml(cs[i])
  {
    TakeOneMore(cs, i);
    TransformsXmlAppend(cs[..i], cs[i]);
  }

  /** Whatever is written ends in an end tag or in a short-form tag. */
  predicate Closed(xml: Nodes) {
    xml != [] && (xml[|xml| - 1].End? || (xml[|xml| - 1].Start? && xml[|xml| - 1].isEmpty))
  }

  lemma TermXmlLast(t: Term)
    requires Complete(t)
    ensures Closed(TermXml(t))
  {
  }

  lemma {:induction false} TermsXmlLast(ts: seq<Term>)
    requires forall c <- ts :: Complete(c)
    ensures ts != [] ==> Closed(TermsXml(ts))
  {
    if ts != [] {
      TermXmlLast(ts[0]);
      TermsXmlLast(ts[1..]);
    }
  }

  lemma TransformContentLast(c: ClaimTransform)
    requires CompleteTransform(c)
    ensures TransformContent(c) != [] ==> Closed(TransformContent(c))
  {
    if c.expression.Some? {
      TermXmlLast(c.expression.value);
    }
  }

  lemma {:induction false} TransformsXmlLast(cs: seq<ClaimTransform>)
    requires forall c <- cs :: CompleteTransform(c)
    ensures cs != [] ==> Closed(TransformsXml(cs))
  {
    if cs != [] {
      TransformsXmlLast(cs[1..]);
    }
  }
}
