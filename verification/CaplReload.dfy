/** Storing a policy and loading it again: the whole-document round trip, with the exact
    condition under which it succeeds. */
module CaplReload {
  import opened Sequences
  import opened Wrappers
  import opened CaplPolicy
  import opened CaplXml
  import opened CaplReader
  import opened CaplRoundTrip

  function Document(p: Policy): Nodes
    requires CompletePolicy(p)
  {
    [NoNode] + PolicyXml(p)
  }

  lemma FilledPolicyIsComplete(p: Policy)
    requires FilledPolicy(p)
    ensures CompletePolicy(p)
  {
    FilledTermIsComplete(p.expression.value);
    forall c <- p.transforms ensures CompleteTransform(c) {
      FilledTransformIsComplete(c);
    }
  }

  lemma FilledTransformIsComplete(c: ClaimTransform)
    requires FilledTransform(c)
    ensures CompleteTransform(c)
  {
    if c.expression.Some? {
      FilledTermIsComplete(c.expression.value);
    }
  }

  // ---- Loading one term ----

  lemma LoadsTerm(t: Term, post: Nodes)
    requires FilledTerm(t) && WellNested(t)
    ensures Complete(t)
    ensures TermFrom(TermXml(t) + post) == Ok((NormalTerm(t), Trail(t) + post))
  {
    FilledTermIsComplete(t);
    TermXmlStart(t, post);
    TrailHead(t, post);
    match t
    case RuleTerm(rule) => ReadsRule(rule, post);
    case Connective(_, _, _, _) =>
      ReadsConnective(t, post);
      LoadsConnective(t.kind, TermXml(t) + post);
  }

  lemma TrailHead(t: Term, post: Nodes)
    ensures (Trail(t) + post)[0] == End(TermTag(t))
    ensures Advance(Trail(t) + post) == Trail(t)[1..] + post
  {
    TrailIsEnds(t);
  }

  lemma LoadsConnective(k: Kind, r: Nodes)
    requires AtStart(r, KindTag(k))
    ensures var read := ConnectiveFrom(k, r);
            read.Ok? && |read.value.1| != 0 && read.value.1[0].End? ==> TermFrom(r) == read
  {
  }

  /** A badly nested term is loaded as a different one, if at all. */
  lemma MisloadsTerm(t: Term, post: Nodes)
    requires FilledTerm(t) && !WellNested(t)
    ensures Complete(t)
    ensures var res := TermFrom(TermXml(t) + post); res.Ok? ==> res.value.0 != NormalTerm(t)
  {
    MisreadsConnective(t, post);
    TermXmlStart(t, post);
    var r := TermXml(t) + post;
    var read := ConnectiveFrom(t.kind, r);
    if read.Ok? {
      StopsOnOwnTag(t.kind, r);
    }
  }

  /** A connective's reader stops on a tag of its own kind, or at the end of the document. */
  lemma StopsOnOwnTag(k: Kind, r: Nodes)
    ensures var res := ConnectiveFrom(k, r);
            res.Ok? ==> |res.value.1| == 0 || AtEnd(res.value.1, KindTag(k))
  {
    var s := MoveTo(r, KindTag(k));
    if s.Ok? {
      LoopStopsOnOwnTag(k, s.value[1..], []);
    }
  }

  lemma {:induction false} LoopStopsOnOwnTag(k: Kind, r: Nodes, acc: seq<Term>)
    ensures var res := ConnectiveLoop(k, r, acc);
            res.Ok? ==> |res.value.1| == 0 || AtEnd(res.value.1, KindTag(k))
    decreases |r|
  {
    if |r| != 0 {
      var step := ConnectiveStep(r, acc);
      if step.Ok? && !AtEnd(step.value.1, KindTag(k)) {
        LoopStopsOnOwnTag(k, Advance(step.value.1), step.value.0);
      }
    }
  }

  // ---- Transforms ----

  function EmptyTransform(c: ClaimTransform): ClaimTransform {
    ClaimTransform(None, c.transformType, None, None, None)
  }

  lemma {:induction false} TransformLoopKeepsHeader(r: Nodes, c: ClaimTransform)
    ensures var res := TransformLoop(r, c);
            res.Ok? ==> res.value.0.transformType == c.transformType && res.value.0.transformId == c.transformId
    decreases |r|
  {
    if |r| != 0 {
      var step := TransformStep(r, c);
      if step.Ok? && !AtEnd(step.value.1, TransformTag) {
        TransformLoopKeepsHeader(Advance(step.value.1), step.value.0);
      }
    }
  }

  /** A transform is read only with a type; its id is never read. */
  lemma AnyTransformIsRead(a: Attributes, isEmpty: bool, rest: Nodes)
    ensures var res := TransformFrom([Start(TransformTag, a, isEmpty)] + rest);
            && (res.Ok? ==> a.typ.Some? && a.typ != Some("") && Some(res.value.0.transformType) == a.typ)
            && (res.Ok? ==> res.value.0.transformId == None)
  {
    assert ([Start(TransformTag, a, isEmpty)] + rest)[1..] == rest;
    if a.typ.Some? && a.typ.value != "" {
      TransformLoopKeepsHeader(rest, ClaimTransform(None, a.typ.value, None, None, None));
    }
  }

  /** A target is read if and only if it has a claim type. */
  lemma AnyTargetIsRead(a: Attributes, text: Option<string>, post: Nodes)
    ensures var r := Leaf(TargetClaimTag, a, text) + post;
            && AtStart(r, TargetClaimTag)
            && (TargetFrom(r).Ok? <==> a.claimType.Some? && a.claimType != Some(""))
            && (TargetFrom(r).Ok? ==> TargetFrom(r).value.0
                                      == LiteralClaim(a.claimType, if text == Some("") then None else text))
  {
    assert Leaf(TargetClaimTag, a, text) == Element(TargetClaimTag, a, TextNodes(text));
    ElementNodes(TargetClaimTag, a, TextNodes(text), post);
    ReadsText(TargetClaimTag, a, text, post);
  }

  lemma TransformLoopMatch(m: Match, rest: Nodes, c: ClaimTransform)
    ensures TransformLoop(MatchXml(m) + rest, c) == TransformLoop(rest, c.(matcher := Some(NormalMatch(m))))
  {
    ElementNodes(MatchTag, MatchAttributes(m), TextNodes(m.value), rest);
    ReadsMatch(m, rest);
    var last := [LastOf(MatchTag, MatchAttributes(m), TextNodes(m.value))] + rest;
    assert Advance(last) == rest;
  }

  lemma TransformLoopTarget(target: LiteralClaim, rest: Nodes, c: ClaimTransform)
    ensures TransformLoop(TargetXml(target) + rest, c)
         == if NullOrEmpty(target.claimType) then Err(SerializationFault)
            else TransformLoop(rest, c.(target := Some(NormalTarget(target))))
  {
    var attributes := NoAttributes.(claimType := NullToEmpty(target.claimType));
    ElementNodes(TargetClaimTag, attributes, TextNodes(target.claimValue), rest);
    ReadsText(TargetClaimTag, attributes, target.claimValue, rest);
    var last := [LastOf(TargetClaimTag, attributes, TextNodes(target.claimValue))] + rest;
    assert Advance(last) == rest;
  }

  lemma TransformStepTerm(t: Term, rest: Nodes, c: ClaimTransform)
    requires FilledTerm(t) && WellNested(t)
    ensures Complete(t)
    ensures TransformStep(TermXml(t) + rest, c) == Ok((c.(expression := Some(NormalTerm(t))), Trail(t) + rest))
    ensures |TermXml(t) + rest| != 0 && (Trail(t) + rest)[0] == End(TermTag(t))
  {
    LoadsTerm(t, rest);
    TermXmlStart(t, rest);
    TrailHead(t, rest);
  }

  lemma TransformLoopReadsTerm(t: Term, rest: Nodes, c: ClaimTransform)
    requires FilledTerm(t) && WellNested(t)
    ensures Complete(t)
    ensures TransformLoop(TermXml(t) + rest, c)
         == TransformLoop(Trail(t)[1..] + rest, c.(expression := Some(NormalTerm(t))))
  {
    TransformStepTerm(t, rest, c);
    TrailHead(t, rest);
  }

  lemma TransformLoopTerm(t: Term, rest: Nodes, c: ClaimTransform)
    requires FilledTerm(t) && WellNested(t) && !StopsEarly(t)
    ensures Complete(t)
    ensures TransformLoop(TermXml(t) + rest, c) == TransformLoop(rest, c.(expression := Some(NormalTerm(t))))
  {
    TransformLoopReadsTerm(t, rest, c);
    assert Trail(t)[1..] + rest == rest;
  }

  /** Neither a start tag of a term comes next, nor can one be reached. */
  predicate NoTermNext(r: Nodes) {
    var next := MoveToStart(r);
    |next| == 0 || !IsTermTag(next[0].tag)
  }

  /** When the root stops early its own end tag is taken for another expression. */
  lemma TransformLoopStopsEarly(t: Term, rest: Nodes, c: ClaimTransform)
    requires FilledTerm(t) && WellNested(t) && StopsEarly(t) && NoTermNext(rest)
    ensures Complete(t)
    ensures TransformLoop(TermXml(t) + rest, c).Err?
  {
    TransformLoopReadsTerm(t, rest, c);
    TrailIsEnds(t);
    assert |Trail(t)| >= 2;
    var next := Trail(t)[1..];
    assert (next + rest)[0] == next[0] == End(TermTag(t));
    SkipsToStart(next, rest);
    NoTermToLoad(next + rest, c.(expression := Some(NormalTerm(t))));
  }

  lemma NoTermToLoad(r: Nodes, c: ClaimTransform)
    requires |r| != 0 && r[0].End? && AtTermName(r) && NoTermNext(r)
    ensures TransformLoop(r, c).Err?
  {
  }

  lemma {:induction false} SkipsToStart(ends: Nodes, rest: Nodes)
    requires forall i :: 0 <= i < |ends| ==> ends[i].End?
    ensures MoveToStart(ends + rest) == MoveToStart(rest)
  {
    if |ends| == 0 {
      assert ends + rest == rest;
    } else {
      assert (ends + rest)[0] == ends[0];
      assert (ends + rest)[1..] == ends[1..] + rest;
      SkipsToStart(ends[1..], rest);
    }
  }

  /** A badly nested expression either stays wrong, or is replaced and its terms are lost. */
  lemma TransformLoopMisnested(t: Term, rest: Nodes, c: ClaimTransform)
    requires FilledTerm(t) && !WellNested(t)
    ensures Complete(t)
    ensures var r := TermXml(t) + rest; var res := TransformLoop(r, c);
            res.Ok? ==> res.value.0.expression != Some(NormalTerm(t))
                        || OptionalCount(res.value.0.expression) + TermStarts(res.value.1) < TermStarts(r)
  {
    MisloadsTerm(t, rest);
    TermXmlStart(t, rest);
    var r := TermXml(t) + rest;
    var read := TermFrom(r);
    if read.Ok? {
      var step := TransformStep(r, c);
      assert step == Ok((c.(expression := Some(read.value.0)), read.value.1));
      assert TermStarts(Advance(read.value.1)) <= TermStarts(read.value.1);
    }
  }

  /** What a transform's loop starts on, and the transform it starts from. */
  lemma TransformParts(c: ClaimTransform, post: Nodes)
    requires FilledTransform(c)
    ensures CompleteTransform(c)
    ensures TransformFrom(TransformXml(c) + post)
         == TransformLoop(MatchPart(c) + (TargetPart(c) + (ExpressionPart(c) + ([End(TransformTag)] + post))),
                          EmptyTransform(c))
  {
    FilledTransformIsComplete(c);
    var end := [End(TransformTag)] + post;
    ContentIsFilled(c);
    TransformStart(c, TransformContent(c), post);
    Concat(MatchPart(c) + TargetPart(c), ExpressionPart(c), end);
    Concat(MatchPart(c), TargetPart(c), ExpressionPart(c) + end);
  }

  lemma ContentIsFilled(c: ClaimTransform)
    requires FilledTransform(c) && CompleteTransform(c)
    ensures |TransformContent(c)| != 0
  {
    if c.matcher.Some? {
      ElementIsSome(MatchTag, MatchAttributes(c.matcher.value), TextNodes(c.matcher.value.value));
    } else if c.target.Some? {
      var target := c.target.value;
      ElementIsSome(TargetClaimTag, NoAttributes.(claimType := NullToEmpty(target.claimType)),
                    TextNodes(target.claimValue));
    } else {
      TermXmlStart(c.expression.value, []);
      assert TermXml(c.expression.value) + [] == TermXml(c.expression.value);
    }
  }

  lemma ElementIsSome(tag: Tag, attributes: Attributes, content: Nodes)
    ensures |Element(tag, attributes, content)| != 0
  {
  }

  lemma TransformStart(c: ClaimTransform, content: Nodes, post: Nodes)
    requires CompleteTransform(c) && content == TransformContent(c) && |content| != 0
    ensures TransformFrom(TransformXml(c) + post)
         == TransformLoop(content + ([End(TransformTag)] + post), EmptyTransform(c))
  {
    var attributes := NoAttributes.(transformId := AsText(c.transformId), typ := Some(c.transformType));
    ElementNodes(TransformTag, attributes, content, post);
  }

  /** The transform loop after the match and the target claim have been read. */
  lemma TransformToExpression(c: ClaimTransform, post: Nodes)
    requires FilledTransform(c)
    ensures CompleteTransform(c)
    ensures TransformFrom(TransformXml(c) + post)
         == if c.target.Some? && NullOrEmpty(c.target.value.claimType) then Err(SerializationFault)
            else TransformLoop(ExpressionPart(c) + ([End(TransformTag)] + post),
                               NormalTransform(c).(expression := None))
  {
    TransformParts(c, post);
    var target, expression := TargetPart(c), ExpressionPart(c);
    var rest := expression + ([End(TransformTag)] + post);
    var matched := EmptyTransform(c);
    if c.matcher.Some? {
      TransformLoopMatch(c.matcher.value, target + rest, matched);
      matched := matched.(matcher := Some(NormalMatch(c.matcher.value)));
    } else {
      assert [] + (target + rest) == target + rest;
    }
    if c.target.Some? {
      TransformLoopTarget(c.target.value, rest, matched);
    } else {
      assert target + rest == rest;
    }
  }

  lemma TransformLoopEnds(post: Nodes, c: ClaimTransform)
    ensures TransformLoop([End(TransformTag)] + post, c) == Ok((c, [End(TransformTag)] + post))
  {
  }

  lemma ReadsTransform(c: ClaimTransform, post: Nodes)
    requires FilledTransform(c) && ReloadableTransform(c)
    ensures CompleteTransform(c)
    ensures TransformFrom(TransformXml(c) + post) == Ok((NormalTransform(c), [End(TransformTag)] + post))
  {
    TransformToExpression(c, post);
    var end := [End(TransformTag)] + post;
    if c.expression.Some? {
      TransformLoopTerm(c.expression.value, end, NormalTransform(c).(expression := None));
    } else {
      assert [] + end == end;
    }
    TransformLoopEnds(post, NormalTransform(c));
  }

  /** The failures of a transform that is not reloadable. */
  lemma MisreadsTransform(c: ClaimTransform, post: Nodes)
    requires FilledTransform(c) && !ReloadableTransform(c) && NoTermNext(post)
    ensures CompleteTransform(c)
    ensures var r := TransformXml(c) + post; var res := TransformFrom(r);
            res.Ok? ==> res.value.0 != NormalTransform(c)
                        || OptionalCount(res.value.0.expression) + TermStarts(res.value.1) < TermStarts(r)
  {
    TransformToExpression(c, post);
    var end := [End(TransformTag)] + post;
    var partial := NormalTransform(c).(expression := None);
    if !(c.target.Some? && NullOrEmpty(c.target.value.claimType)) {
      var t := c.expression.value;
      assert NoTermNext(end) by { SkipsToStart([End(TransformTag)], post); }
      if WellNested(t) {
        TransformLoopStopsEarly(t, end, partial);
      } else {
        TransformLoopMisnested(t, end, partial);
        ExpressionStarts(c, post);
      }
    }
  }

  /** The term starts of a transform are those of its expression. */
  lemma ExpressionStarts(c: ClaimTransform, post: Nodes)
    requires FilledTransform(c)
    ensures CompleteTransform(c)
    ensures TermStarts(ExpressionPart(c) + ([End(TransformTag)] + post)) == TermStarts(TransformXml(c) + post)
    ensures TermStarts(TransformXml(c) + post) == OptionalCount(c.expression) + TermStarts(post)
  {
    FilledTransformIsComplete(c);
    var expression := ExpressionPart(c);
    var end := [End(TransformTag)] + post;
    StartsAdd(expression, end);
    StartsAdd([End(TransformTag)], post);
    StartsAdd(TransformXml(c), post);
    TransformXmlStarts(c);
    if c.expression.Some? {
      TermXmlStarts(c.expression.value);
    }
  }

  // ---- Counting term starts in what is written ----

  lemma {:induction false} StartsAdd(a: Nodes, b: Nodes)
    ensures TermStarts(a + b) == TermStarts(a) + TermStarts(b)
  {
    if |a| == 0 {
      assert a + b == b;
    } else {
      assert (a + b)[1..] == a[1..] + b;
      StartsAdd(a[1..], b);
    }
  }

  lemma ElementStarts(tag: Tag, attributes: Attributes, content: Nodes)
    ensures TermStarts(Element(tag, attributes, content))
         == (if IsTermTag(tag) then 1 else 0) + TermStarts(content)
  {
    ElementNodes(tag, attributes, content, []);
    var xml := Element(tag, attributes, content);
    assert xml + [] == xml;
    if |content| != 0 {
      assert [End(tag)] + [] == [End(tag)];
      StartsAdd(content, [End(tag)]);
    }
  }

  lemma MatchStarts(m: Match)
    ensures TermStarts(MatchXml(m)) == 0
  {
    ElementStarts(MatchTag, MatchAttributes(m), TextNodes(m.value));
  }

  lemma OperationStarts(o: Operation)
    ensures TermStarts(OperationXml(o)) == 0
  {
    ElementStarts(OperationTag, NoAttributes.(typ := Some(o.operationType)), TextNodes(o.claimValue));
  }

  lemma {:induction false} TermXmlStarts(t: Term)
    requires Complete(t)
    ensures TermStarts(TermXml(t)) == TermCount(t)
    decreases t, 1
  {
    match t
    case RuleTerm(r) =>
      var o, m := OperationXml(r.operation.value), MatchXml(r.matcher.value);
      ElementStarts(RuleTag, RuleAttributes(r), o + m);
      StartsAdd(o, m);
      OperationStarts(r.operation.value);
      MatchStarts(r.matcher.value);
    case Connective(k, _, _, ts) =>
      ElementStarts(KindTag(k), ConnectiveAttributes(t), TermsXml(ts));
      TermsXmlStarts(ts);
  }

  lemma {:induction false} TermsXmlStarts(ts: seq<Term>)
    requires forall c <- ts :: Complete(c)
    ensures TermStarts(TermsXml(ts)) == TermCounts(ts)
    decreases ts, 0
  {
    if |ts| != 0 {
      StartsAdd(TermXml(ts[0]), TermsXml(ts[1..]));
      TermXmlStarts(ts[0]);
      TermsXmlStarts(ts[1..]);
    }
  }

  lemma TransformXmlStarts(c: ClaimTransform)
    requires CompleteTransform(c) && (c.expression.Some? ==> FilledTerm(c.expression.value))
    ensures TermStarts(TransformXml(c)) == OptionalCount(c.expression)
  {
    var attributes := NoAttributes.(transformId := AsText(c.transformId), typ := Some(c.transformType));
    ElementStarts(TransformTag, attributes, TransformContent(c));
    StartsAdd(MatchPart(c) + TargetPart(c), ExpressionPart(c));
    StartsAdd(MatchPart(c), TargetPart(c));
    if c.matcher.Some? {
      MatchStarts(c.matcher.value);
    }
    if c.target.Some? {
      TargetStarts(c.target.value);
    }
    if c.expression.Some? {
      TermXmlStarts(c.expression.value);
    }
  }

  lemma TargetStarts(c: LiteralClaim)
    ensures TermStarts(TargetXml(c)) == 0
  {
    ElementStarts(TargetClaimTag, NoAttributes.(claimType := NullToEmpty(c.claimType)), TextNodes(c.claimValue));
  }

  lemma {:induction false} TransformsXmlStarts(cs: seq<ClaimTransform>)
    requires forall c <- cs :: FilledTransform(c) && CompleteTransform(c)
    ensures TermStarts(TransformsXml(cs)) == TransformCounts(cs)
  {
    if |cs| != 0 {
      StartsAdd(TransformXml(cs[0]), TransformsXml(cs[1..]));
      TransformXmlStarts(cs[0]);
      TransformsXmlStarts(cs[1..]);
    }
  }

  // ---- The transform collection ----

  /** No term follows a transform in its collection: the next start tag is a transform's. */
  lemma {:induction false} NoTermInTail(cs: seq<ClaimTransform>, post: Nodes)
    requires forall c <- cs :: CompleteTransform(c)
    requires NoTermNext(post)
    ensures NoTermNext(TransformsXml(cs) + ([End(TransformsTag)] + post))
  {
    var end := [End(TransformsTag)] + post;
    if |cs| == 0 {
      assert TransformsXml(cs) + end == end;
      SkipsToStart([End(TransformsTag)], post);
    } else {
      Concat(TransformXml(cs[0]), TransformsXml(cs[1..]), end);
      TransformXmlStart(cs[0], TransformsXml(cs[1..]) + end);
    }
  }

  lemma TransformXmlStart(c: ClaimTransform, post: Nodes)
    requires CompleteTransform(c)
    ensures AtStart(TransformXml(c) + post, TransformTag)
  {
    ElementNodes(TransformTag, NoAttributes.(transformId := AsText(c.transformId), typ := Some(c.transformType)),
                 TransformContent(c), post);
  }

  lemma {:induction false} ReadsTransforms(cs: seq<ClaimTransform>, acc: seq<ClaimTransform>, post: Nodes)
    requires forall c <- cs :: FilledTransform(c) && ReloadableTransform(c)
    ensures forall c <- cs :: CompleteTransform(c)
    ensures TransformsLoop(TransformsXml(cs) + ([End(TransformsTag)] + post), acc)
         == Ok((acc + NormalTransforms(cs), [End(TransformsTag)] + post))
  {
    FilledTransformsAreComplete(cs);
    var end := [End(TransformsTag)] + post;
    if |cs| == 0 {
      assert TransformsXml(cs) + end == end;
      assert acc + NormalTransforms(cs) == acc;
    } else {
      FirstTransform(cs, end, acc);
      var rest := TransformsXml(cs[1..]) + end;
      ReadsTransform(cs[0], rest);
      NextTransform(cs[0], rest, acc);
      ReadsTransforms(cs[1..], acc + [NormalTransform(cs[0])], post);
    }
  }

  lemma FilledTransformsAreComplete(cs: seq<ClaimTransform>)
    requires forall c <- cs :: FilledTransform(c)
    ensures forall c <- cs :: CompleteTransform(c)
  {
    forall c <- cs ensures CompleteTransform(c) { FilledTransformIsComplete(c); }
  }

  lemma FirstTransform(cs: seq<ClaimTransform>, end: Nodes, acc: seq<ClaimTransform>)
    requires |cs| != 0 && forall c <- cs :: CompleteTransform(c)
    ensures TransformsXml(cs) + end == TransformXml(cs[0]) + (TransformsXml(cs[1..]) + end)
    ensures acc + NormalTransforms(cs) == acc + [NormalTransform(cs[0])] + NormalTransforms(cs[1..])
  {
    Concat(TransformXml(cs[0]), TransformsXml(cs[1..]), end);
    AppendOne(acc, NormalTransform(cs[0]), NormalTransforms(cs[1..]));
  }

  /** A transform read up to its own end tag leaves the loop at the next one. */
  lemma NextTransform(c: ClaimTransform, rest: Nodes, acc: seq<ClaimTransform>)
    requires CompleteTransform(c)
    ensures var read := TransformFrom(TransformXml(c) + rest);
            read.Ok? && read.value.1 == [End(TransformTag)] + rest ==>
              TransformsLoop(TransformXml(c) + rest, acc) == TransformsLoop(rest, acc + [read.value.0])
  {
    TransformXmlStart(c, rest);
    var read := TransformFrom(TransformXml(c) + rest);
    if read.Ok? && read.value.1 == [End(TransformTag)] + rest {
      assert Advance([End(TransformTag)] + rest) == rest;
    }
  }

  lemma {:induction false} TransformsExtend(r: Nodes, acc: seq<ClaimTransform>)
    ensures var res := TransformsLoop(r, acc); res.Ok? ==> acc <= res.value.0
    decreases |r|
  {
    if |r| != 0 {
      var step := TransformsStep(r, acc);
      if step.Ok? && !AtEnd(step.value.1, TransformsTag) {
        TransformsExtend(Advance(step.value.1), step.value.0);
      }
    }
  }

  /** With one transform that is not reloadable, the collection read is no prefix of the
      right one, or a term has been lost on the way. */
  lemma {:induction false} MisreadsTransforms(cs: seq<ClaimTransform>, acc: seq<ClaimTransform>, post: Nodes)
    requires forall c <- cs :: FilledTransform(c)
    requires exists c :: c in cs && !ReloadableTransform(c)
    requires NoTermNext(post)
    ensures forall c <- cs :: CompleteTransform(c)
    ensures var r := TransformsXml(cs) + ([End(TransformsTag)] + post); var res := TransformsLoop(r, acc);
            res.Ok? ==> !(res.value.0 <= acc + NormalTransforms(cs))
                        || TransformCounts(res.value.0) + TermStarts(res.value.1) < TransformCounts(acc) + TermStarts(r)
  {
    FilledTransformsAreComplete(cs);
    var end := [End(TransformsTag)] + post;
    FirstTransform(cs, end, acc);
    var c, rest := cs[0], TransformsXml(cs[1..]) + end;
    if ReloadableTransform(c) {
      ReadsTransform(c, rest);
      NextTransform(c, rest, acc);
      MisreadsTransforms(cs[1..], acc + [NormalTransform(c)], post);
      TransformCountsAppend(acc, NormalTransform(c));
      ExpressionStarts(c, rest);
      NormalTransformCount(c);
    } else {
      NoTermInTail(cs[1..], post);
      MisreadsTransform(c, rest);
      MisreadsFirstTransform(c, rest, acc);
      assert (acc + NormalTransforms(cs))[|acc|] == NormalTransform(c);
    }
  }

  lemma MisreadsFirstTransform(c: ClaimTransform, rest: Nodes, acc: seq<ClaimTransform>)
    requires CompleteTransform(c)
    ensures var r := TransformXml(c) + rest; var read, res := TransformFrom(r), TransformsLoop(r, acc);
            res.Ok? ==> read.Ok? && acc + [read.value.0] <= res.value.0
                        && TransformCounts(res.value.0) + TermStarts(res.value.1)
                           <= TransformCounts(acc) + OptionalCount(read.value.0.expression) + TermStarts(read.value.1)
  {
    TransformXmlStart(c, rest);
    var r := TransformXml(c) + rest;
    var read := TransformFrom(r);
    if read.Ok? {
      var (c', r') := read.value;
      assert TransformsStep(r, acc) == Ok((acc + [c'], r'));
      TransformCountsAppend(acc, c');
      TransformsExtend(Advance(r'), acc + [c']);
      assert TermStarts(Advance(r')) <= TermStarts(r');
    }
  }

  // ---- The normal form keeps every term ----

  lemma {:induction false} NormalTermCount(t: Term)
    ensures TermCount(NormalTerm(t)) == TermCount(t)
    decreases t, 1
  {
    if t.Connective? {
      NormalTermCounts(t.terms);
    }
  }

  lemma {:induction false} NormalTermCounts(ts: seq<Term>)
    ensures TermCounts(NormalTerms(ts)) == TermCounts(ts)
    decreases ts, 0
  {
    if |ts| != 0 {
      NormalTermCount(ts[0]);
      NormalTermCounts(ts[1..]);
    }
  }

  lemma NormalTransformCount(c: ClaimTransform)
    ensures OptionalCount(NormalTransform(c).expression) == OptionalCount(c.expression)
  {
    if c.expression.Some? {
      NormalTermCount(c.expression.value);
    }
  }

  lemma {:induction false} NormalTransformCounts(cs: seq<ClaimTransform>)
    ensures TransformCounts(NormalTransforms(cs)) == TransformCounts(cs)
  {
    if |cs| != 0 {
      NormalTransformCount(cs[0]);
      NormalTransformCounts(cs[1..]);
    }
  }

  /** A written policy has one term start for each of its terms, and so has its normal form. */
  lemma PolicyStarts(p: Policy)
    requires FilledPolicy(p)
    ensures CompletePolicy(p)
    ensures TermStarts(Document(p)) == PolicyTerms(p) == PolicyTerms(NormalPolicy(p))
    ensures TermStarts(PolicyBody(p) + [End(PolicyTag)]) == PolicyTerms(p)
  {
    FilledPolicyIsComplete(p);
    NormalTermCount(p.expression.value);
    NormalTransformCounts(p.transforms);
    TermXmlStarts(p.expression.value);
    TransformsXmlStarts(p.transforms);
    var expression, section := TermXml(p.expression.value), TransformSection(p.transforms);
    if |p.transforms| != 0 {
      ElementStarts(TransformsTag, NoAttributes, TransformsXml(p.transforms));
    }
    StartsAdd(expression, section);
    ElementStarts(PolicyTag, PolicyAttributes(p), expression + section);
    StartsAdd(expression + section, [End(PolicyTag)]);
  }

  // ---- The policy ----

  function PolicyAttributes(p: Policy): Attributes {
    NoAttributes.(policyId := AsText(p.policyId), delegation := Some(BooleanText(p.delegation)))
  }

  function PolicyBody(p: Policy): Nodes
    requires CompletePolicy(p)
  {
    TermXml(p.expression.value) + TransformSection(p.transforms)
  }

  lemma PolicyXmlNodes(p: Policy)
    requires CompletePolicy(p)
    ensures |PolicyXml(p)| != 0 && PolicyXml(p)[0] == Start(PolicyTag, PolicyAttributes(p), false)
    ensures PolicyXml(p)[1..] == PolicyBody(p) + [End(PolicyTag)]
  {
    TermXmlStart(p.expression.value, TransformSection(p.transforms));
    PolicyElement(PolicyAttributes(p), PolicyBody(p));
  }

  lemma PolicyElement(attributes: Attributes, body: Nodes)
    requires |body| != 0
    ensures var xml := Element(PolicyTag, attributes, body);
            |xml| != 0 && xml[0] == Start(PolicyTag, attributes, false) && xml[1..] == body + [End(PolicyTag)]
  {
  }

  /** The policy's own attributes are read before the loop starts. */
  lemma PolicyFromHeader(xml: Nodes, body: Nodes, id: Option<Uri>, delegation: bool, attributes: Attributes)
    requires attributes.policyId == AsText(id) && attributes.delegation == Some(BooleanText(delegation))
    requires |xml| != 0 && xml[0] == Start(PolicyTag, attributes, false) && xml[1..] == body
    ensures id.None? ==> PolicyFrom([NoNode] + xml).Err?
    ensures id.Some? ==>
              var start := PolicyLoop(body, Policy(id, delegation, None, []));
              && (start.Err? ==> PolicyFrom([NoNode] + xml).Err?)
              && (start.Ok? ==> PolicyFrom([NoNode] + xml) == Ok(start.value.0))
  {
    assert ([NoNode] + xml)[1..] == xml;
    assert MoveTo([NoNode] + xml, PolicyTag) == Ok(xml);
  }

  /** Only the end tags of the expression separate it from the transforms. */
  lemma {:induction false} PolicySkipsEnds(ends: Nodes, r: Nodes, p: Policy)
    requires forall i :: 0 <= i < |ends| ==> ends[i].End? && IsTermTag(ends[i].tag)
    ensures PolicyLoop(ends + r, p) == PolicyLoop(r, p)
  {
    if |ends| == 0 {
      assert ends + r == r;
    } else {
      assert (ends + r)[0] == ends[0];
      assert (ends + r)[1..] == ends[1..] + r;
      assert PolicyStep(ends + r, p) == Ok((p, ends + r));
      PolicySkipsEnds(ends[1..], r, p);
    }
  }

  lemma PolicyReadsExpression(t: Term, rest: Nodes, p: Policy)
    requires FilledTerm(t) && WellNested(t)
    ensures Complete(t)
    ensures PolicyLoop(TermXml(t) + rest, p) == PolicyLoop(rest, p.(expression := Some(NormalTerm(t))))
  {
    LoadsTerm(t, rest);
    TermXmlStart(t, rest);
    TrailHead(t, rest);
    TrailIsEnds(t);
    var read := p.(expression := Some(NormalTerm(t)));
    assert PolicyStep(TermXml(t) + rest, p) == Ok((read, Trail(t) + rest));
    PolicySkipsEnds(Trail(t)[1..], rest, read);
  }

  /** A badly nested expression: the loaded one is wrong, and a later one cannot replace it
      without terms getting lost. */
  lemma PolicyMisreadsExpression(t: Term, rest: Nodes, p: Policy)
    requires FilledTerm(t) && !WellNested(t)
    ensures Complete(t)
    ensures var r := TermXml(t) + rest; var res := PolicyLoop(r, p);
            res.Ok? ==> res.value.0.expression != Some(NormalTerm(t))
                        || PolicyTerms(res.value.0) < TransformCounts(p.transforms) + TermStarts(r)
  {
    MisloadsTerm(t, rest);
    TermXmlStart(t, rest);
    var r := TermXml(t) + rest;
    var read, step := TermFrom(r), PolicyStep(r, p);
    if step.Ok? {
      var (p', r') := step.value;
      assert p'.expression == Some(read.value.0);
      assert TermStarts(Advance(r')) <= TermStarts(r');
      PolicyStepCount(r, p);
    }
  }

  lemma PolicyStepCount(r: Nodes, p: Policy)
    requires AtStart(r, AndTag) || AtStart(r, OrTag) || AtStart(r, RuleTag)
    ensures var step := PolicyStep(r, p);
            step.Ok? ==> PolicyTerms(step.value.0) + TermStarts(step.value.1)
                         <= TransformCounts(p.transforms) + TermStarts(r)
  {
  }

  /** What follows the expression: the transforms, when there are any, and the end tag. */
  lemma PolicyReadsTransforms(cs: seq<ClaimTransform>, p: Policy)
    requires forall c <- cs :: FilledTransform(c)
    requires p.transforms == []
    ensures forall c <- cs :: CompleteTransform(c)
    ensures (forall c <- cs :: ReloadableTransform(c)) ==>
              (PolicyLoop(TransformSection(cs) + [End(PolicyTag)], p)
               == Ok((p.(transforms := NormalTransforms(cs)), [End(PolicyTag)])))
    ensures !(forall c <- cs :: ReloadableTransform(c)) ==>
              var r := TransformSection(cs) + [End(PolicyTag)]; var res := PolicyLoop(r, p);
              res.Ok? ==> res.value.0.transforms != NormalTransforms(cs)
                          || PolicyTerms(res.value.0) < PolicyTerms(p) + TermStarts(r)
  {
    FilledTransformsAreComplete(cs);
    var end := [End(PolicyTag)];
    PolicyLoopEnds(p);
    if |cs| == 0 {
      assert TransformSection(cs) + end == end;
    } else if forall c <- cs :: ReloadableTransform(c) {
      PolicySection(cs, p);
      ReadsTransforms(cs, [], end);
      assert [] + NormalTransforms(cs) == NormalTransforms(cs);
      PolicyLoopEnds(p.(transforms := NormalTransforms(cs)));
    } else {
      PolicyMisreadsTransforms(cs, p);
    }
  }

  lemma PolicyLoopEnds(p: Policy)
    ensures PolicyLoop([End(PolicyTag)], p) == Ok((p, [End(PolicyTag)]))
  {
  }

  /** At the start of a section the loop hands over to the collection's reader. */
  lemma PolicySection(cs: seq<ClaimTransform>, p: Policy)
    requires |cs| != 0 && forall c <- cs :: CompleteTransform(c)
    ensures var body := TransformsXml(cs) + ([End(TransformsTag)] + [End(PolicyTag)]);
            var r := TransformSection(cs) + [End(PolicyTag)];
            var res := TransformsLoop(body, p.transforms);
            && TermStarts(r) == TermStarts(body)
            && (res.Err? ==> PolicyLoop(r, p).Err?)
            && (res.Ok? && !AtEnd(res.value.1, PolicyTag) ==>
                  PolicyLoop(r, p) == PolicyLoop(Advance(res.value.1), p.(transforms := res.value.0)))
            && (res.Ok? && AtEnd(res.value.1, PolicyTag) ==>
                  PolicyLoop(r, p) == Ok((p.(transforms := res.value.0), res.value.1)))
  {
    FirstTransform(cs, [], []);
    TransformXmlStart(cs[0], TransformsXml(cs[1..]) + []);
    assert TransformsXml(cs) + [] == TransformsXml(cs);
    ElementNodes(TransformsTag, NoAttributes, TransformsXml(cs), [End(PolicyTag)]);
  }

  lemma {:induction false} PolicyLoopExtends(r: Nodes, p: Policy)
    ensures var res := PolicyLoop(r, p); res.Ok? ==> p.transforms <= res.value.0.transforms
    decreases |r|
  {
    if |r| != 0 {
      var step := PolicyStep(r, p);
      PolicyStepExtends(r, p);
      if step.Ok? && !AtEnd(step.value.1, PolicyTag) {
        PolicyLoopExtends(Advance(step.value.1), step.value.0);
      }
    }
  }

  lemma PolicyStepExtends(r: Nodes, p: Policy)
    ensures var step := PolicyStep(r, p); step.Ok? ==> p.transforms <= step.value.0.transforms
  {
    var step := PolicyStep(r, p);
    if step.Ok? && step.value.0.transforms != p.transforms {
      var r1 := if AtStart(r, AndTag) || AtStart(r, OrTag) || AtStart(r, RuleTag) then TermFrom(r).value.1 else r;
      var s := MoveTo(r1, TransformsTag);
      TransformsExtend(s.value[1..], p.transforms);
    }
  }

  /** What the policy's loop still does after a collection has been read. */
  lemma AfterSection(r: Nodes, p: Policy)
    ensures var res := if AtEnd(r, PolicyTag) then Ok((p, r)) else PolicyLoop(Advance(r), p);
            res.Ok? ==> p.transforms <= res.value.0.transforms
                        && PolicyTerms(res.value.0) + TermStarts(res.value.1) <= PolicyTerms(p) + TermStarts(r)
  {
    PolicyLoopExtends(Advance(r), p);
    assert TermStarts(Advance(r)) <= TermStarts(r);
  }

  lemma PolicyMisreadsTransforms(cs: seq<ClaimTransform>, p: Policy)
    requires forall c <- cs :: FilledTransform(c)
    requires exists c :: c in cs && !ReloadableTransform(c)
    requires p.transforms == []
    ensures forall c <- cs :: CompleteTransform(c)
    ensures var r := TransformSection(cs) + [End(PolicyTag)]; var res := PolicyLoop(r, p);
            res.Ok? ==> res.value.0.transforms != NormalTransforms(cs)
                        || PolicyTerms(res.value.0) < PolicyTerms(p) + TermStarts(r)
  {
    FilledTransformsAreComplete(cs);
    PolicySection(cs, p);
    var body := TransformsXml(cs) + ([End(TransformsTag)] + [End(PolicyTag)]);
    var read := TransformsLoop(body, []);
    assert NoTermNext([End(PolicyTag)]);
    MisreadsTransforms(cs, [], [End(PolicyTag)]);
    assert [] + NormalTransforms(cs) == NormalTransforms(cs);
    if read.Ok? {
      AfterSection(read.value.1, p.(transforms := read.value.0));
    }
  }

  /** Storing a filled policy and loading it again gives its normal form exactly when the
      policy is reloadable. */
  lemma ReloadIffReloadable(p: Policy)
    requires FilledPolicy(p)
    ensures CompletePolicy(p)
    ensures PolicyFrom(Document(p)) == Ok(NormalPolicy(p)) <==> Reloadable(p)
  {
    FilledPolicyIsComplete(p);
    PolicyXmlNodes(p);
    PolicyFromHeader(PolicyXml(p), PolicyBody(p) + [End(PolicyTag)], p.policyId, p.delegation, PolicyAttributes(p));
    PolicyStarts(p);
    var t, rest := p.expression.value, TransformSection(p.transforms) + [End(PolicyTag)];
    var start := Policy(p.policyId, p.delegation, None, []);
    Concat(TermXml(t), TransformSection(p.transforms), [End(PolicyTag)]);
    StartsAdd(TermXml(t), rest);
    TermXmlStarts(t);
    if p.policyId.Some? {
      if WellNested(t) {
        PolicyReadsExpression(t, rest, start);
        NormalTermCount(t);
        PolicyReadsTransforms(p.transforms, start.(expression := Some(NormalTerm(t))));
      } else {
        PolicyMisreadsExpression(t, rest, start);
      }
    }
  }

  /** A reloadable policy comes back as it was exactly when it is plain. */
  lemma ReloadIsIdentityIffPlain(p: Policy)
    requires FilledPolicy(p) && Reloadable(p)
    ensures CompletePolicy(p)
    ensures PolicyFrom(Document(p)) == Ok(p) <==> PlainPolicy(p)
  {
    ReloadIffReloadable(p);
    NormalPolicyIffPlain(p);
  }

  /** Counterexample, for any nested connective in first position: the outer reader stops at
      the inner end tag, the policy's loop then takes the second operand for the whole
      expression, and the first operand is lost. */
  lemma FirstOperandIsDropped(id: Uri, k: Kind, inner: Term, b: Term)
    requires FilledTerm(inner) && WellNested(inner) && SameKind(k, inner)
    requires FilledTerm(b) && WellNested(b)
    ensures var p := Policy(Some(id), false, Some(Connective(k, None, true, [inner, b])), []);
            && FilledPolicy(p) && CompletePolicy(p) && !Reloadable(p)
            && PolicyFrom(Document(p)) == Ok(Policy(Some(id), false, Some(NormalTerm(b)), []))
  {
    var t := Connective(k, None, true, [inner, b]);
    var p, start := Policy(Some(id), false, Some(t), []), Policy(Some(id), false, None, []);
    var end := [End(PolicyTag)];
    PairIsFilled(t, inner, b);
    FilledPolicyIsComplete(p);
    PolicyXmlNodes(p);
    assert PolicyBody(p) == TermXml(t);
    PolicyFromHeader(PolicyXml(p), TermXml(t) + end, p.policyId, p.delegation, PolicyAttributes(p));
    PolicyTakesSecond(t, inner, b, start);
  }

  lemma PairIsFilled(t: Term, inner: Term, b: Term)
    requires t.Connective? && t.terms == [inner, b]
    requires FilledTerm(inner) && FilledTerm(b)
    ensures FilledTerm(t) && Complete(t)
    ensures SameKind(t.kind, inner) ==> !WellNested(t)
  {
    FilledTermIsComplete(inner);
    FilledTermIsComplete(b);
  }

  lemma PolicyTakesSecond(t: Term, inner: Term, b: Term, p: Policy)
    requires t.Connective? && t.terms == [inner, b] && SameKind(t.kind, inner)
    requires FilledTerm(inner) && WellNested(inner) && FilledTerm(b) && WellNested(b)
    ensures Complete(t)
    ensures PolicyLoop(TermXml(t) + [End(PolicyTag)], p)
         == Ok((p.(expression := Some(NormalTerm(b))), [End(PolicyTag)]))
  {
    PairIsFilled(t, inner, b);
    var end := [End(PolicyTag)];
    var rest := [End(KindTag(t.kind))] + end;
    var next := TermXml(b) + rest;
    ConnectiveStopsInside(t, inner, b, end);
    TermXmlStart(t, end);
    TrailHead(inner, next);
    TrailIsEnds(inner);
    LoadsConnective(t.kind, TermXml(t) + end);
    var read := p.(expression := Some(t.(terms := [NormalTerm(inner)])));
    assert PolicyStep(TermXml(t) + end, p) == Ok((read, Trail(inner) + next));
    PolicySkipsEnds(Trail(inner)[1..], next, read);
    PolicyReadsExpression(b, rest, read);
    PolicySkipsEnds([End(KindTag(t.kind))], end, p.(expression := Some(NormalTerm(b))));
    PolicyLoopEnds(p.(expression := Some(NormalTerm(b))));
  }

  lemma ConnectiveStopsInside(t: Term, inner: Term, b: Term, end: Nodes)
    requires t.Connective? && t.terms == [inner, b] && SameKind(t.kind, inner)
    requires FilledTerm(inner) && WellNested(inner) && FilledTerm(b)
    ensures Complete(t) && Complete(b)
    ensures ConnectiveFrom(t.kind, TermXml(t) + end)
         == Ok((t.(terms := [NormalTerm(inner)]),
                Trail(inner) + (TermXml(b) + ([End(KindTag(t.kind))] + end))))
  {
    PairIsFilled(t, inner, b);
    FilledTermIsComplete(b);
    var rest := [End(KindTag(t.kind))] + end;
    PairXml(inner, b, rest);
    FilledTermsXml(t.terms);
    ConnectiveStart(t, end);
    AfterOperand(t.kind, inner, [], TermXml(b) + rest);
    assert [] + [NormalTerm(inner)] == [NormalTerm(inner)];
  }

  lemma PairXml(inner: Term, b: Term, rest: Nodes)
    requires Complete(inner) && Complete(b)
    ensures TermsXml([inner, b]) + rest == TermXml(inner) + (TermXml(b) + rest)
  {
    var ts := [inner, b];
    assert ts[1..] == [b] && ts[1..][1..] == [];
    assert TermsXml(ts[1..]) == TermXml(b);
    Concat(TermXml(inner), TermXml(b), rest);
  }

  /** Counterexample for a policy that is not filled: an empty connective is written in the short form, and
      its reader, waiting for an end tag that never comes, takes in whatever follows it. */
  lemma EmptyConnectiveSwallowsTheNext(id: Uri, outer: Kind, k: Kind, b: Term)
    requires outer != k && FilledTerm(b) && WellNested(b) && !SameKind(k, b)
    ensures var t := Connective(outer, None, true, [Connective(k, None, true, []), b]);
            var p := Policy(Some(id), false, Some(t), []);
            var q := Connective(outer, None, true, [Connective(k, None, true, [NormalTerm(b)])]);
            CompletePolicy(p) && PolicyFrom(Document(p)) == Ok(Policy(Some(id), false, Some(q), []))
  {
    var e, end := Connective(k, None, true, []), [End(PolicyTag)];
    var t := Connective(outer, None, true, [e, b]);
    var p, start := Policy(Some(id), false, Some(t), []), Policy(Some(id), false, None, []);
    FilledTermIsComplete(b);
    PolicyXmlNodes(p);
    assert PolicyBody(p) == TermXml(t);
    PolicyFromHeader(PolicyXml(p), TermXml(t) + end, p.policyId, p.delegation, PolicyAttributes(p));
    OuterReadsSwallower(t, e, b);
    TermXmlStart(t, end);
    LoadsConnective(outer, TermXml(t) + end);
    var read := start.(expression := Some(t.(terms := [e.(terms := [NormalTerm(b)])])));
    assert PolicyStep(TermXml(t) + end, start) == Ok((read, []));
    assert PolicyLoop([], read) == Ok((read, []));
  }

  lemma EmptyReadsOn(e: Term, b: Term, outer: Kind)
    requires e.Connective? && e.terms == [] && outer != e.kind
    requires FilledTerm(b) && WellNested(b) && !SameKind(e.kind, b)
    ensures Complete(b)
    ensures ConnectiveFrom(e.kind, TermXml(e) + (TermXml(b) + [End(KindTag(outer)), End(PolicyTag)]))
         == Ok((e.(terms := [NormalTerm(b)]), []))
  {
    FilledTermIsComplete(b);
    var ends := [End(KindTag(outer)), End(PolicyTag)];
    AfterOperand(e.kind, b, [], ends);
    assert [] + [NormalTerm(b)] == [NormalTerm(b)];
    LoopRunsOut(e.kind, outer, [NormalTerm(b)]);
    EmptyStart(e, TermXml(b) + ends);
  }

  lemma EmptyStart(e: Term, post: Nodes)
    requires e.Connective? && e.terms == []
    ensures var loop := ConnectiveLoop(e.kind, post, []);
            ConnectiveFrom(e.kind, TermXml(e) + post) ==
            if loop.Err? then Err(loop.fault) else Ok((e.(terms := loop.value.0), loop.value.1))
  {
    assert TermXml(e) == Element(KindTag(e.kind), ConnectiveAttributes(e), []);
    ElementNodes(KindTag(e.kind), ConnectiveAttributes(e), [], post);
    ConnectiveHeader(e, TermXml(e) + post, post);
  }

  lemma LoopRunsOut(k: Kind, outer: Kind, acc: seq<Term>)
    requires k != outer
    ensures ConnectiveLoop(k, [End(KindTag(outer)), End(PolicyTag)], acc) == Ok((acc, []))
  {
    var last := [End(PolicyTag)];
    assert [End(KindTag(outer)), End(PolicyTag)] == [End(KindTag(outer))] + last;
    SkipsEnds(k, [End(KindTag(outer))], KindTag(outer), last, acc);
    SkipsEnds(k, last, PolicyTag, [], acc);
    assert last + [] == last;
  }

  lemma OuterReadsSwallower(t: Term, e: Term, b: Term)
    requires t.Connective? && t.terms == [e, b]
    requires e.Connective? && e.terms == [] && t.kind != e.kind
    requires FilledTerm(b) && WellNested(b) && !SameKind(e.kind, b)
    ensures Complete(t)
    ensures ConnectiveFrom(t.kind, TermXml(t) + [End(PolicyTag)])
         == Ok((t.(terms := [e.(terms := [NormalTerm(b)])]), []))
  {
    FilledTermIsComplete(b);
    var rest := [End(KindTag(t.kind))] + [End(PolicyTag)];
    assert rest == [End(KindTag(t.kind)), End(PolicyTag)];
    PairXml(e, b, rest);
    ConnectiveStart(t, [End(PolicyTag)]);
    EmptyReadsOn(e, b, t.kind);
    var r := TermXml(e) + (TermXml(b) + rest);
    TermXmlStart(e, TermXml(b) + rest);
    var read := [e.(terms := [NormalTerm(b)])];
    assert [] + read == read;
    assert ConnectiveStep(r, []) == Ok((read, []));
    assert ConnectiveLoop(t.kind, [], read) == Ok((read, []));
  }

  /** `AccessControl`: the policy is written to a buffer and parsed from it on every read. */
  method StoreAndLoad(p: Policy) returns (res: Result<Policy>)
    requires FilledPolicy(p)
    ensures res == Ok(NormalPolicy(p)) <==> Reloadable(p)
  {
    FilledPolicyIsComplete(p);
    var writer := new XmlWriter();
    writer.WritePolicy(p);
    assert writer.nodes == PolicyXml(p);
    var reader := new XmlReader(writer.nodes);
    res := LoadPolicy(reader);
    ReloadIffReloadable(p);
  }
}
