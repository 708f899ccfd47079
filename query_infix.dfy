/** From lexer tokens to an infix stream of predicates and operators, with an
    implicit AND between adjacent predicates (toInfix in filterproxy.cpp). */
module QueryInfix {
  import opened QtText
  import opened QueryLexer
  import opened QueryPredicates

  datatype OpKind = And | Or

  /** precedence: `&` binds tighter than `|`. */
  function Precedence(op: OpKind): (p: int)
    ensures op.And? ==> p == 2
    ensures op.Or? ==> p == 1
  {
    match op
    case And => 2
    case Or => 1
  }

  /** A predicate token or an operator token (ProgTok with isPred set or not). */
  datatype ProgTok = PredTok(pred: Predicate) | OpTok(op: OpKind)

  /** No two predicates stand next to each other. */
  predicate NoAdjacentPreds(s: seq<ProgTok>) {
    forall k :: 0 <= k < |s| - 1 ==> !(s[k].PredTok? && s[k + 1].PredTok?)
  }

  /** The AND toInfix inserts before a predicate that follows a predicate. */
  function ImplicitAnd(prevPred: bool): seq<ProgTok> {
    if prevPred then [OpTok(And)] else []
  }

  /** The infix stream of `ts`, given whether the stream built so far ends in
      a predicate. */
  function InfixFrom(ts: seq<Token>, prevPred: bool): (r: seq<ProgTok>)
    ensures NoAdjacentPreds(r)
    ensures prevPred && r != [] ==> r[0].OpTok?
    decreases |ts|
  {
    if ts == [] then []
    else match ts[0]
      case AndOp => [OpTok(And)] + InfixFrom(ts[1..], false)
      case OrOp => [OpTok(Or)] + InfixFrom(ts[1..], false)
      case Word(w) =>
        if |ts| > 2 && ts[1].CmpOp? && ts[2].Number? then
          // Word CmpOp Number is one field comparison
          PredStep(prevPred, MakeBinaryPredicate(w, ts[1].text, ts[2].value), InfixFrom(ts[3..], true))
        else
          PredStep(prevPred, MakeUnaryPredicate(w), InfixFrom(ts[1..], true))
      case Number(n) =>
        // numbers are text tokens too, spelled as QString::number spells them
        PredStep(prevPred, MakeUnaryPredicate(NumberText(n)), InfixFrom(ts[1..], true))
      case CmpOp(_) =>
        // a comparison operator outside Word CmpOp Number is ignored
        InfixFrom(ts[1..], prevPred)
  }

  /** A predicate, preceded by the implicit AND when needed, in front of a
      stream that starts with an operator (or is empty). */
  function PredStep(prevPred: bool, p: Predicate, rest: seq<ProgTok>): (r: seq<ProgTok>)
    requires NoAdjacentPreds(rest)
    requires rest != [] ==> rest[0].OpTok?
    ensures r == ImplicitAnd(prevPred) + [PredTok(p)] + rest
    ensures NoAdjacentPreds(r)
    ensures prevPred ==> r[0].OpTok?
  {
    var r := ImplicitAnd(prevPred) + [PredTok(p)] + rest;
    assert forall k :: 0 <= k < |r| - 1 ==> !(r[k].PredTok? && r[k + 1].PredTok?) by {
      forall k | 0 <= k < |r| - 1
        ensures !(r[k].PredTok? && r[k + 1].PredTok?)
      {
        var j := |ImplicitAnd(prevPred)|;
        if k >= j + 1 {
          assert r[k] == rest[k - j - 1] && r[k + 1] == rest[k - j];
        } else if k == j {
          assert r[k + 1] == rest[0];
        } else {
          assert r[k] == OpTok(And);
        }
      }
    }
    r
  }

  /** The infix stream of a whole token sequence. */
  function Infix(ts: seq<Token>): seq<ProgTok> {
    InfixFrom(ts, false)
  }

  predicate EndsInPred(s: seq<ProgTok>) {
    s != [] && s[|s| - 1].PredTok?
  }

  /** How many tokens toInfix consumes at the front of `ts`: three for a
      field comparison, one otherwise. */
  function StepLength(ts: seq<Token>): (n: nat)
    requires ts != []
    ensures 1 <= n <= |ts|
  {
    if ts[0].Word? && |ts| > 2 && ts[1].CmpOp? && ts[2].Number? then 3 else 1
  }

  /** What toInfix pushes for the tokens at the front of `ts`. */
  function StepEmits(ts: seq<Token>, prevPred: bool): seq<ProgTok>
    requires ts != []
  {
    match ts[0]
    case AndOp => [OpTok(And)]
    case OrOp => [OpTok(Or)]
    case Word(w) =>
      if |ts| > 2 && ts[1].CmpOp? && ts[2].Number? then
        ImplicitAnd(prevPred) + [PredTok(MakeBinaryPredicate(w, ts[1].text, ts[2].value))]
      else ImplicitAnd(prevPred) + [PredTok(MakeUnaryPredicate(w))]
    case Number(n) => ImplicitAnd(prevPred) + [PredTok(MakeUnaryPredicate(NumberText(n)))]
    case CmpOp(_) => []
  }

  lemma EndsInPredAppend(s: seq<ProgTok>, e: seq<ProgTok>)
    ensures EndsInPred(s + e) == if e == [] then EndsInPred(s) else e[|e| - 1].PredTok?
  {
    if e == [] {
      assert s + e == s;
    }
  }

  /** A predicate step, split into what it pushes and the stream after it. */
  lemma PredStepSplit(prevPred: bool, p: Predicate, rest: seq<ProgTok>)
    requires NoAdjacentPreds(rest)
    requires rest != [] ==> rest[0].OpTok?
    ensures PredStep(prevPred, p, rest) == (ImplicitAnd(prevPred) + [PredTok(p)]) + rest
    ensures EndsInPred([] + (ImplicitAnd(prevPred) + [PredTok(p)]))
  {
    var e := ImplicitAnd(prevPred) + [PredTok(p)];
    assert [] + e == e;
  }

  /** One step of toInfix: the stream of `ts` is what the first step pushes
      followed by the stream of the tokens after it. */
  lemma InfixFromStep(ts: seq<Token>, prevPred: bool)
    requires ts != []
    ensures InfixFrom(ts, prevPred) == StepEmits(ts, prevPred)
      + InfixFrom(ts[StepLength(ts)..], EndsInPred([] + StepEmits(ts, prevPred)) || (StepEmits(ts, prevPred) == [] && prevPred))
  {
    match ts[0]
    case AndOp =>
      assert [] + [OpTok(And)] == [OpTok(And)];
    case OrOp =>
      assert [] + [OpTok(Or)] == [OpTok(Or)];
    case CmpOp(_) =>
      var none: seq<ProgTok> := [];
      assert [] + none == none;
      AppendEmpty(InfixFrom(ts[1..], prevPred));
    case Word(w) =>
      if |ts| > 2 && ts[1].CmpOp? && ts[2].Number? {
        PredStepSplit(prevPred, MakeBinaryPredicate(w, ts[1].text, ts[2].value), InfixFrom(ts[3..], true));
      } else {
        PredStepSplit(prevPred, MakeUnaryPredicate(w), InfixFrom(ts[1..], true));
      }
    case Number(n) =>
      PredStepSplit(prevPred, MakeUnaryPredicate(NumberText(n)), InfixFrom(ts[1..], true));
  }

  /** The loop invariant of toInfix survives one step. */
  lemma InfixAdvance(ltoks: seq<Token>, i: nat, infix: seq<ProgTok>, emitted: seq<ProgTok>, next: nat)
    requires i < |ltoks| && infix + InfixFrom(ltoks[i..], EndsInPred(infix)) == Infix(ltoks)
    requires StepEmits(ltoks[i..], EndsInPred(infix)) == emitted && i + StepLength(ltoks[i..]) == next
    ensures next <= |ltoks|
    ensures (infix + emitted) + InfixFrom(ltoks[next..], EndsInPred(infix + emitted)) == Infix(ltoks)
  {
    var rest := ltoks[i..];
    InfixFromStep(rest, EndsInPred(infix));
    assert rest[StepLength(rest)..] == ltoks[next..];
    EndsInPredAppend(infix, emitted);
    EndsInPredAppend([], emitted);
    AppendAssoc(infix, emitted, InfixFrom(ltoks[next..], EndsInPred(infix + emitted)));
  }

  /** toInfix: one pass over the tokens, pushing operators and predicates. */
  method ToInfix(ltoks: seq<Token>) returns (infix: seq<ProgTok>)
    ensures infix == Infix(ltoks)
    ensures NoAdjacentPreds(infix)
  {
    infix := [];
    var i := 0;
    while i < |ltoks|
      invariant 0 <= i <= |ltoks|
      invariant infix + InfixFrom(ltoks[i..], EndsInPred(infix)) == Infix(ltoks)
      decreases |ltoks| - i
    {
      var t := ltoks[i];
      ghost var rest := ltoks[i..];
      assert rest[0] == t;
      var emitted: seq<ProgTok>;
      var next: nat;
      if t.AndOp? {
        emitted, next := [OpTok(And)], i + 1;
      } else if t.OrOp? {
        emitted, next := [OpTok(Or)], i + 1;
      } else if t.Word? && i + 2 < |ltoks| && ltoks[i + 1].CmpOp? && ltoks[i + 2].Number? {
        // Word CmpOp Number: one field comparison, then skip the two operands
        assert rest[1] == ltoks[i + 1] && rest[2] == ltoks[i + 2];
        var p := MakeBinaryPredicate(t.text, ltoks[i + 1].text, ltoks[i + 2].value);
        emitted := ImplicitAnd(EndsInPred(infix)) + [PredTok(p)];
        next := i + 3;
      } else if t.Word? {
        assert |rest| > 2 ==> rest[1] == ltoks[i + 1] && rest[2] == ltoks[i + 2];
        emitted := ImplicitAnd(EndsInPred(infix)) + [PredTok(MakeUnaryPredicate(t.text))];
        next := i + 1;
      } else if t.Number? {
        emitted := ImplicitAnd(EndsInPred(infix)) + [PredTok(MakeUnaryPredicate(NumberText(t.value)))];
        next := i + 1;
      } else {
        // a lone comparison operator is ignored
        emitted, next := [], i + 1;
      }
      InfixAdvance(ltoks, i, infix, emitted, next);
      infix := infix + emitted;
      i := next;
    }
    assert ltoks[i..] == [];
  }
}
