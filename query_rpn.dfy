/** Compilation of the infix stream to reverse Polish notation with the
    shunting-yard algorithm, the evaluability check, and evaluation on a
    stack of booleans (toRpn and evalRpn in filterproxy.cpp). */
module QueryRpn {
  import opened Wrappers
  import opened QtText
  import opened FileItems
  import opened QueryPredicates
  import opened QueryInfix

  // ---------- the shunting yard, as a function ----------

  function Top(ops: seq<OpKind>): OpKind
    requires ops != []
  {
    ops[|ops| - 1]
  }

  function Pop(ops: seq<OpKind>): seq<OpKind>
    requires ops != []
  {
    ops[..|ops| - 1]
  }

  /** The operator on top of the stack leaves it before `incoming` is pushed
      (left associativity: equal precedence pops too). */
  predicate PopsBefore(top: OpKind, incoming: OpKind) {
    Precedence(top) >= Precedence(incoming)
  }

  /** The operators popped to the output before `incoming` is pushed. */
  function Popped(ops: seq<OpKind>, incoming: OpKind): seq<ProgTok>
    decreases |ops|
  {
    if ops != [] && PopsBefore(Top(ops), incoming) then [OpTok(Top(ops))] + Popped(Pop(ops), incoming)
    else []
  }

  /** The stack left once those operators are popped. */
  function Remaining(ops: seq<OpKind>, incoming: OpKind): (r: seq<OpKind>)
    ensures r <= ops
    ensures r == [] || !PopsBefore(Top(r), incoming)
    decreases |ops|
  {
    if ops != [] && PopsBefore(Top(ops), incoming) then Remaining(Pop(ops), incoming)
    else ops
  }

  /** The final drain: every operator left, top first. */
  function Drained(ops: seq<OpKind>): seq<ProgTok>
    decreases |ops|
  {
    if ops == [] then [] else [OpTok(Top(ops))] + Drained(Pop(ops))
  }

  /** What the shunting yard emits for `infix` with `ops` on its stack. */
  function Shunt(infix: seq<ProgTok>, ops: seq<OpKind>): seq<ProgTok>
    decreases |infix|
  {
    if infix == [] then Drained(ops)
    else match infix[0]
      case PredTok(_) => [infix[0]] + Shunt(infix[1..], ops)
      case OpTok(o) => Popped(ops, o) + Shunt(infix[1..], Remaining(ops, o) + [o])
  }

  function Rpn(infix: seq<ProgTok>): seq<ProgTok> {
    Shunt(infix, [])
  }

  // ---------- evaluability ----------

  function CountPreds(s: seq<ProgTok>): nat
    decreases |s|
  {
    if s == [] then 0 else (if s[0].PredTok? then 1 else 0) + CountPreds(s[1..])
  }

  function CountOps(s: seq<ProgTok>): nat
    decreases |s|
  {
    if s == [] then 0 else (if s[0].OpTok? then 1 else 0) + CountOps(s[1..])
  }

  /** The stack depth after evaluating `s` from an empty stack, were no
      operator short of operands. */
  function Depth(s: seq<ProgTok>): int {
    CountPreds(s) - CountOps(s)
  }

  function Delta(t: ProgTok): int {
    if t.PredTok? then 1 else -1
  }

  /** Starting at stack depth `depth`, every operator finds two operands. */
  predicate NoUnderflow(rpn: seq<ProgTok>, depth: int)
    decreases |rpn|
  {
    rpn == [] || ((rpn[0].OpTok? ==> depth >= 2) && NoUnderflow(rpn[1..], depth + Delta(rpn[0])))
  }

  /** The sanity check of toRpn: evaluable, and a non-empty stream leaves
      exactly one value. */
  predicate RpnValid(rpn: seq<ProgTok>) {
    NoUnderflow(rpn, 0) && (rpn == [] || Depth(rpn) == 1)
  }

  // ---------- evaluation, as a function ----------

  function Apply(op: OpKind, a: bool, b: bool): bool {
    match op
    case And => a && b
    case Or => a || b
  }

  /** One token on the evaluation stack; None when an operator lacks operands. */
  function Step(t: ProgTok, st: seq<bool>, item: FileItem): (r: Option<seq<bool>>)
    ensures r.Some? <==> t.PredTok? || |st| >= 2
    ensures r.Some? ==> |r.value| == |st| + Delta(t)
  {
    match t
    case PredTok(p) => Some(st + [EvalPred(p, item)])
    case OpTok(o) =>
      if |st| < 2 then None
      else Some(st[..|st| - 2] + [Apply(o, st[|st| - 2], st[|st| - 1])])
  }

  function Run(rpn: seq<ProgTok>, st: seq<bool>, item: FileItem): Option<seq<bool>>
    decreases |rpn|
  {
    if rpn == [] then Some(st)
    else match Step(rpn[0], st, item)
      case None => None
      case Some(st') => Run(rpn[1..], st', item)
  }

  /** evalRpn's answer: true for the empty program, the single value left on
      the stack, or None (not ok). */
  function RpnValue(rpn: seq<ProgTok>, item: FileItem): Option<bool> {
    if rpn == [] then Some(true)
    else match Run(rpn, [], item)
      case None => None
      case Some(st) => if |st| == 1 then Some(st[0]) else None
  }

  // ---------- what an infix stream means ----------

  /** The groups of an infix stream between its OR operators. */
  function Terms(s: seq<ProgTok>): (r: seq<seq<ProgTok>>)
    ensures |r| >= 1
    decreases |s|
  {
    if s == [] then [[]]
    else if s[0] == OpTok(Or) then [[]] + Terms(s[1..])
    else var r := Terms(s[1..]); [[s[0]] + r[0]] + r[1..]
  }

  /** Every predicate of the group holds. */
  predicate TermHolds(term: seq<ProgTok>, item: FileItem)
    decreases |term|
  {
    term == [] || ((term[0].PredTok? ==> EvalPred(term[0].pred, item)) && TermHolds(term[1..], item))
  }

  predicate AnyTerm(terms: seq<seq<ProgTok>>, item: FileItem)
    decreases |terms|
  {
    terms != [] && (TermHolds(terms[0], item) || AnyTerm(terms[1..], item))
  }

  /** `&` binds tighter than `|`: an OR of AND-groups. */
  predicate InfixValue(infix: seq<ProgTok>, item: FileItem) {
    AnyTerm(Terms(infix), item)
  }

  /** Operator and predicate strictly alternating from the second token on. */
  predicate PairsForm(s: seq<ProgTok>)
    decreases |s|
  {
    s == [] || (|s| >= 2 && s[0].OpTok? && s[1].PredTok? && PairsForm(s[2..]))
  }

  /** A well-formed infix stream: pred (op pred)*. */
  predicate Alternating(s: seq<ProgTok>) {
    s != [] && s[0].PredTok? && PairsForm(s[1..])
  }

  // ---------- evaluation and validity agree ----------

  /** Running a concatenation runs the first part, then the second. */
  lemma {:induction false} RunAppend(a: seq<ProgTok>, b: seq<ProgTok>, st: seq<bool>, item: FileItem)
    ensures Run(a + b, st, item) == match Run(a, st, item) case None => None case Some(s) => Run(b, s, item)
    decreases |a|
  {
    if a == [] {
      assert a + b == b;
    } else {
      assert (a + b)[0] == a[0] && (a + b)[1..] == a[1..] + b;
      var s1 := Step(a[0], st, item);
      if s1.Some? {
        RunAppend(a[1..], b, s1.value, item);
      }
    }
  }

  /** Evaluation fails exactly on underflow, and otherwise leaves the
      predicted number of values. */
  lemma {:induction false} RunShape(rpn: seq<ProgTok>, st: seq<bool>, item: FileItem)
    ensures Run(rpn, st, item).Some? <==> NoUnderflow(rpn, |st|)
    ensures Run(rpn, st, item).Some? ==> |Run(rpn, st, item).value| == |st| + Depth(rpn)
    decreases |rpn|
  {
    if rpn != [] {
      var s1 := Step(rpn[0], st, item);
      if s1.Some? {
        RunShape(rpn[1..], s1.value, item);
      }
    }
  }

  /** evalRpn reports ok exactly when the sanity check of toRpn passes, for
      every item. */
  lemma EvalOkIffValid(rpn: seq<ProgTok>, item: FileItem)
    ensures RpnValue(rpn, item).Some? <==> RpnValid(rpn)
  {
    RunShape(rpn, [], item);
  }

  // ---------- the shunting yard keeps every token ----------

  lemma {:induction false} CountsAppend(a: seq<ProgTok>, b: seq<ProgTok>)
    ensures CountPreds(a + b) == CountPreds(a) + CountPreds(b)
    ensures CountOps(a + b) == CountOps(a) + CountOps(b)
    decreases |a|
  {
    if a == [] {
      assert a + b == b;
    } else {
      assert (a + b)[0] == a[0] && (a + b)[1..] == a[1..] + b;
      CountsAppend(a[1..], b);
    }
  }

  lemma {:induction false} PoppedCounts(ops: seq<OpKind>, o: OpKind)
    ensures CountPreds(Popped(ops, o)) == 0
    ensures CountOps(Popped(ops, o)) + |Remaining(ops, o)| == |ops|
    decreases |ops|
  {
    if ops != [] && PopsBefore(Top(ops), o) {
      PoppedCounts(Pop(ops), o);
      CountsAppend([OpTok(Top(ops))], Popped(Pop(ops), o));
    }
  }

  lemma {:induction false} DrainedCounts(ops: seq<OpKind>)
    ensures CountPreds(Drained(ops)) == 0 && CountOps(Drained(ops)) == |ops|
    decreases |ops|
  {
    if ops != [] {
      DrainedCounts(Pop(ops));
      CountsAppend([OpTok(Top(ops))], Drained(Pop(ops)));
    }
  }

  /** Every predicate of the infix stream reaches the output, and so does
      every operator, whether from the stream or already on the stack. */
  lemma {:induction false} ShuntCounts(infix: seq<ProgTok>, ops: seq<OpKind>)
    ensures CountPreds(Shunt(infix, ops)) == CountPreds(infix)
    ensures CountOps(Shunt(infix, ops)) == CountOps(infix) + |ops|
    decreases |infix|
  {
    if infix == [] {
      DrainedCounts(ops);
    } else {
      match infix[0]
      case PredTok(_) =>
        ShuntCounts(infix[1..], ops);
        CountsAppend([infix[0]], Shunt(infix[1..], ops));
      case OpTok(o) =>
        ShuntCounts(infix[1..], Remaining(ops, o) + [o]);
        PoppedCounts(ops, o);
        CountsAppend(Popped(ops, o), Shunt(infix[1..], Remaining(ops, o) + [o]));
    }
  }

  /** Without adjacent predicates, predicates outnumber operators by at most
      one, and by exactly one only in the form pred (op pred)*. */
  lemma {:induction false} CountingAlternation(s: seq<ProgTok>)
    requires NoAdjacentPreds(s)
    ensures (s == [] || s[0].OpTok?) ==>
      CountPreds(s) <= CountOps(s) && (CountPreds(s) == CountOps(s) ==> PairsForm(s))
    ensures (s != [] && s[0].PredTok?) ==>
      CountPreds(s) <= CountOps(s) + 1 && (CountPreds(s) == CountOps(s) + 1 ==> Alternating(s))
    decreases |s|
  {
    if s != [] {
      var r := s[1..];
      assert NoAdjacentPreds(r) by {
        forall k | 0 <= k < |r| - 1
          ensures !(r[k].PredTok? && r[k + 1].PredTok?)
        {
          assert r[k] == s[k + 1] && r[k + 1] == s[k + 2];
        }
      }
      CountingAlternation(r);
      if s[0].PredTok? {
        assert r != [] ==> r[0] == s[1];
      } else if r != [] && r[0].PredTok? {
        assert s[1] == r[0] && s[2..] == r[1..];
      }
    }
  }

  // ---------- the shunting yard computes the OR of AND-groups ----------

  /** The evaluation stack and the operator stack while a well-formed stream
      is compiled: `d` is the OR of the groups already closed, `c` the AND of
      the predicates of the open group. */
  predicate ShuntState(vals: seq<bool>, ops: seq<OpKind>, d: bool, c: bool) {
    (ops == [] && vals == [c] && !d)
    || (ops == [And] && |vals| == 2 && (vals[0] && vals[1]) == c && !d)
    || (ops == [Or] && vals == [d, c])
    || (ops == [Or, And] && |vals| == 3 && vals[0] == d && (vals[1] && vals[2]) == c)
  }

  lemma ShuntPairStep(o: OpKind, p: Predicate, rest: seq<ProgTok>, ops: seq<OpKind>)
    ensures Shunt([OpTok(o), PredTok(p)] + rest, ops)
      == (Popped(ops, o) + [PredTok(p)]) + Shunt(rest, Remaining(ops, o) + [o])
  {
    var s := [OpTok(o), PredTok(p)] + rest;
    assert s[0] == OpTok(o) && s[1..] == [PredTok(p)] + rest;
    var s1 := s[1..];
    assert s1[0] == PredTok(p) && s1[1..] == rest;
    AppendAssoc(Popped(ops, o), [PredTok(p)], Shunt(rest, Remaining(ops, o) + [o]));
  }

  lemma TermsPairStep(o: OpKind, p: Predicate, rest: seq<ProgTok>, item: FileItem)
    ensures o == And ==>
      TermHolds(Terms([OpTok(o), PredTok(p)] + rest)[0], item)
        == (EvalPred(p, item) && TermHolds(Terms(rest)[0], item))
      && Terms([OpTok(o), PredTok(p)] + rest)[1..] == Terms(rest)[1..]
    ensures o == Or ==>
      TermHolds(Terms([OpTok(o), PredTok(p)] + rest)[0], item)
      && (AnyTerm(Terms([OpTok(o), PredTok(p)] + rest)[1..], item)
          == ((EvalPred(p, item) && TermHolds(Terms(rest)[0], item)) || AnyTerm(Terms(rest)[1..], item)))
  {
    var s := [OpTok(o), PredTok(p)] + rest;
    assert s[0] == OpTok(o) && s[1..] == [PredTok(p)] + rest;
    var s1 := s[1..];
    assert s1[0] == PredTok(p) && s1[1..] == rest;
    var r := Terms(rest);
    var g := [PredTok(p)] + r[0];
    assert g[0] == PredTok(p) && g[1..] == r[0];
    assert Terms(s1) == [g] + r[1..];
    if o == And {
      var h := [OpTok(And)] + g;
      assert h[0] == OpTok(And) && h[1..] == g;
      assert Terms(s) == [h] + r[1..];
    } else {
      assert Terms(s) == [[]] + Terms(s1);
      assert Terms(s)[1..] == Terms(s1);
    }
  }

  lemma RunOne(t: ProgTok, st: seq<bool>, item: FileItem)
    ensures Run([t], st, item) == Step(t, st, item)
  {
    assert [t][1..] == [];
  }

  lemma RunTwo(t1: ProgTok, t2: ProgTok, st: seq<bool>, item: FileItem)
    ensures Run([t1, t2], st, item) == match Step(t1, st, item) case None => None case Some(s) => Step(t2, s, item)
  {
    assert [t1, t2] == [t1] + [t2];
    RunAppend([t1], [t2], st, item);
    RunOne(t1, st, item);
    var s := Step(t1, st, item);
    if s.Some? {
      RunOne(t2, s.value, item);
    }
  }

  /** An operator replaces the two values on top of the stack by its result. */
  lemma StepOp(o: OpKind, below: seq<bool>, x: bool, y: bool, item: FileItem)
    ensures Step(OpTok(o), below + [x, y], item) == Some(below + [Apply(o, x, y)])
  {
    var st := below + [x, y];
    assert st[..|st| - 2] == below && st[|st| - 2] == x && st[|st| - 1] == y;
  }

  /** What an incoming operator pops from each stack a well-formed stream
      can leave. */
  lemma PoppedAnd(o: OpKind)
    ensures Popped([And], o) == [OpTok(And)] && Remaining([And], o) == []
  {
    assert Pop([And]) == [];
  }

  lemma PoppedOr(o: OpKind)
    ensures Popped([Or], o) == (if o == And then [] else [OpTok(Or)])
    ensures Remaining([Or], o) == (if o == And then [Or] else [])
  {
    assert Pop([Or]) == [];
  }

  lemma PoppedOrAnd(o: OpKind)
    ensures Popped([Or, And], o) == (if o == And then [OpTok(And)] else [OpTok(And), OpTok(Or)])
    ensures Remaining([Or, And], o) == (if o == And then [Or] else [])
  {
    assert Top([Or, And]) == And && Pop([Or, And]) == [Or];
    PoppedOr(o);
  }

  /** Running one operator on a stack. */
  lemma RunOp(o: OpKind, below: seq<bool>, x: bool, y: bool, item: FileItem)
    ensures Run([OpTok(o)], below + [x, y], item) == Some(below + [Apply(o, x, y)])
  {
    RunOne(OpTok(o), below + [x, y], item);
    StepOp(o, below, x, y, item);
  }

  lemma RunPoppedOnAnd(vals: seq<bool>, c: bool, o: OpKind, item: FileItem)
    requires |vals| == 2 && (vals[0] && vals[1]) == c
    ensures Run(Popped([And], o), vals, item) == Some([c])
  {
    PoppedAnd(o);
    RunOp(And, [], vals[0], vals[1], item);
    assert [] + [vals[0], vals[1]] == vals;
    assert [] + [Apply(And, vals[0], vals[1])] == [c];
  }

  lemma RunPoppedOnOr(d: bool, c: bool, item: FileItem)
    ensures Run(Popped([Or], Or), [d, c], item) == Some([d || c])
  {
    PoppedOr(Or);
    RunOp(Or, [], d, c, item);
    assert [] + [d, c] == [d, c];
    assert [] + [Apply(Or, d, c)] == [d || c];
  }

  lemma RunPoppedOnOrAnd(vals: seq<bool>, d: bool, c: bool, o: OpKind, item: FileItem)
    requires |vals| == 3 && vals[0] == d && (vals[1] && vals[2]) == c
    ensures Run(Popped([Or, And], o), vals, item) == Some(if o == And then [d, c] else [d || c])
  {
    PoppedOrAnd(o);
    RunOp(And, [d], vals[1], vals[2], item);
    assert [d] + [vals[1], vals[2]] == vals;
    assert [d] + [Apply(And, vals[1], vals[2])] == [d, c];
    if o == Or {
      RunAppend([OpTok(And)], [OpTok(Or)], vals, item);
      assert [OpTok(And)] + [OpTok(Or)] == [OpTok(And), OpTok(Or)];
      RunOp(Or, [], d, c, item);
      assert [] + [d, c] == [d, c];
      assert [] + [Apply(Or, d, c)] == [d || c];
    } else {
      assert Popped([Or, And], o) == [OpTok(And)];
    }
  }

  /** The values left once the popped operators are applied. */
  lemma RunPopped(vals: seq<bool>, ops: seq<OpKind>, d: bool, c: bool, o: OpKind, item: FileItem)
    returns (left: seq<bool>)
    requires ShuntState(vals, ops, d, c)
    ensures Run(Popped(ops, o), vals, item) == Some(left)
    ensures o == Or ==> left == [d || c] && Remaining(ops, o) == []
    ensures o == And && (ops == [] || ops == [And]) ==> left == [c] && Remaining(ops, o) == []
    ensures o == And && (ops == [Or] || ops == [Or, And]) ==> left == [d, c] && Remaining(ops, o) == [Or]
  {
    if ops == [] {
      left := vals;
    } else if ops == [And] {
      PoppedAnd(o);
      RunPoppedOnAnd(vals, c, o, item);
      left := [c];
    } else if ops == [Or] {
      PoppedOr(o);
      if o == And {
        left := vals;
      } else {
        RunPoppedOnOr(d, c, item);
        left := [d || c];
      }
    } else {
      PoppedOrAnd(o);
      RunPoppedOnOrAnd(vals, d, c, o, item);
      left := if o == And then [d, c] else [d || c];
    }
  }

  /** One `op pred` pair: pop, push the operator, push the predicate's value. */
  lemma StackStep(vals: seq<bool>, ops: seq<OpKind>, d: bool, c: bool, o: OpKind, p: Predicate, item: FileItem)
    returns (vals': seq<bool>)
    requires ShuntState(vals, ops, d, c)
    ensures Run(Popped(ops, o) + [PredTok(p)], vals, item) == Some(vals')
    ensures ShuntState(vals', Remaining(ops, o) + [o],
                       if o == And then d else d || c,
                       if o == And then c && EvalPred(p, item) else EvalPred(p, item))
  {
    var left := RunPopped(vals, ops, d, c, o, item);
    RunAppend(Popped(ops, o), [PredTok(p)], vals, item);
    RunOne(PredTok(p), left, item);
    vals' := left + [EvalPred(p, item)];
  }

  /** An incoming `|` pops the whole stack, as the final drain does. */
  lemma {:induction false} DrainedIsPoppedByOr(ops: seq<OpKind>)
    ensures Drained(ops) == Popped(ops, Or) && Remaining(ops, Or) == []
    decreases |ops|
  {
    if ops != [] {
      DrainedIsPoppedByOr(Pop(ops));
    }
  }

  /** The final drain closes the last group. */
  lemma DrainStep(vals: seq<bool>, ops: seq<OpKind>, d: bool, c: bool, item: FileItem)
    requires ShuntState(vals, ops, d, c)
    ensures Run(Drained(ops), vals, item) == Some([d || c])
  {
    DrainedIsPoppedByOr(ops);
    var left := RunPopped(vals, ops, d, c, Or, item);
  }

  /** The value a well-formed tail adds to the groups closed so far (`d`) and
      the open group (`c`). */
  predicate PairsValue(rest: seq<ProgTok>, d: bool, c: bool, item: FileItem) {
    d || (c && TermHolds(Terms(rest)[0], item)) || AnyTerm(Terms(rest)[1..], item)
  }

  /** One `op pred` pair either extends the open group (`&`) or closes it (`|`). */
  lemma PairsValueStep(o: OpKind, p: Predicate, r: seq<ProgTok>, d: bool, c: bool, item: FileItem)
    ensures PairsValue([OpTok(o), PredTok(p)] + r, d, c, item)
      == PairsValue(r, if o == And then d else d || c,
                    if o == And then c && EvalPred(p, item) else EvalPred(p, item), item)
  {
    TermsPairStep(o, p, r, item);
  }

  /** The first pair of a well-formed tail, compiled and run: the state it
      leaves for the rest of the tail. */
  lemma ShuntPairRun(o: OpKind, p: Predicate, r: seq<ProgTok>, vals: seq<bool>, ops: seq<OpKind>, d: bool, c: bool, item: FileItem)
    returns (vals': seq<bool>)
    requires ShuntState(vals, ops, d, c)
    ensures Run(Shunt([OpTok(o), PredTok(p)] + r, ops), vals, item)
      == Run(Shunt(r, Remaining(ops, o) + [o]), vals', item)
    ensures ShuntState(vals', Remaining(ops, o) + [o],
                       if o == And then d else d || c,
                       if o == And then c && EvalPred(p, item) else EvalPred(p, item))
  {
    var head := Popped(ops, o) + [PredTok(p)];
    var ops' := Remaining(ops, o) + [o];
    ShuntPairStep(o, p, r, ops);
    vals' := StackStep(vals, ops, d, c, o, p, item);
    RunAppend(head, Shunt(r, ops'), vals, item);
  }

  /** Chaining the two equalities a pair step gives. */
  lemma PairsChain(whole: Option<seq<bool>>, tail: Option<seq<bool>>, v: bool, v': bool)
    requires whole == tail && tail == Some([v']) && v == v'
    ensures whole == Some([v])
  {
  }

  lemma {:induction false} ShuntPairs(rest: seq<ProgTok>, vals: seq<bool>, ops: seq<OpKind>, d: bool, c: bool, item: FileItem)
    requires PairsForm(rest) && ShuntState(vals, ops, d, c)
    ensures Run(Shunt(rest, ops), vals, item) == Some([PairsValue(rest, d, c, item)])
    decreases |rest|
  {
    if rest == [] {
      DrainStep(vals, ops, d, c, item);
    } else {
      var o := rest[0].op;
      var p := rest[1].pred;
      var r := rest[2..];
      assert rest == [OpTok(o), PredTok(p)] + r;
      var d' := if o == And then d else d || c;
      var c' := if o == And then c && EvalPred(p, item) else EvalPred(p, item);
      var vals' := ShuntPairRun(o, p, r, vals, ops, d, c, item);
      ShuntPairs(r, vals', Remaining(ops, o) + [o], d', c', item);
      PairsValueStep(o, p, r, d, c, item);
      PairsChain(Run(Shunt(rest, ops), vals, item), Run(Shunt(r, Remaining(ops, o) + [o]), vals', item),
                 PairsValue(rest, d, c, item), PairsValue(r, d', c', item));
    }
  }

  /** The value of a stream that starts with a predicate, in terms of the
      first group of the rest and the groups after it. */
  lemma InfixValueOfHead(p: Predicate, rest: seq<ProgTok>, item: FileItem)
    ensures InfixValue([PredTok(p)] + rest, item) == PairsValue(rest, false, EvalPred(p, item), item)
  {
    var infix := [PredTok(p)] + rest;
    assert infix[0] == PredTok(p) && infix[1..] == rest;
    var r := Terms(rest);
    var g := [PredTok(p)] + r[0];
    assert g[0] == PredTok(p) && g[1..] == r[0];
    assert Terms(infix) == [g] + r[1..];
    assert ([g] + r[1..])[1..] == r[1..];
  }

  /** For a well-formed stream, the compiled program evaluates to true exactly
      when some |-separated group has all its predicates true. */
  lemma RpnComputesInfixValue(infix: seq<ProgTok>, item: FileItem)
    requires Alternating(infix)
    ensures Run(Rpn(infix), [], item) == Some([InfixValue(infix, item)])
    ensures RpnValue(Rpn(infix), item) == Some(InfixValue(infix, item))
  {
    var p := infix[0].pred;
    var rest := infix[1..];
    assert infix == [PredTok(p)] + rest;
    var v := EvalPred(p, item);
    assert Rpn(infix) == [PredTok(p)] + Shunt(rest, []);
    RunAppend([PredTok(p)], Shunt(rest, []), [], item);
    RunOne(PredTok(p), [], item);
    assert [] + [v] == [v];
    ShuntPairs(rest, [v], [], false, v, item);
    assert ShuntState([v], [], false, v);
    InfixValueOfHead(p, rest, item);
  }

  lemma {:induction false} CountsCoverLength(s: seq<ProgTok>)
    ensures CountPreds(s) + CountOps(s) == |s|
    decreases |s|
  {
    if s != [] {
      CountsCoverLength(s[1..]);
    }
  }

  /** toRpn's sanity check accepts the compiled stream exactly when the infix
      stream is empty or of the form pred (op pred)*. */
  lemma CompiledValidIff(infix: seq<ProgTok>, item: FileItem)
    requires NoAdjacentPreds(infix)
    ensures RpnValid(Rpn(infix)) <==> infix == [] || Alternating(infix)
  {
    var rpn := Rpn(infix);
    if infix == [] {
      assert rpn == [];
    } else if Alternating(infix) {
      RpnComputesInfixValue(infix, item);
      EvalOkIffValid(rpn, item);
    } else {
      ShuntCounts(infix, []);
      CountsCoverLength(infix);
      CountsCoverLength(rpn);
      CountingAlternation(infix);
      assert |rpn| == |infix|;
    }
  }

  // ---------- toRpn and evalRpn, as loops ----------

  /** The shunting yard at position `i` of the infix stream. */
  lemma ShuntAt(infix: seq<ProgTok>, i: nat, ops: seq<OpKind>)
    requires i < |infix|
    ensures infix[i].PredTok? ==> Shunt(infix[i..], ops) == [infix[i]] + Shunt(infix[i + 1..], ops)
    ensures infix[i].OpTok? ==>
      Shunt(infix[i..], ops)
        == Popped(ops, infix[i].op) + Shunt(infix[i + 1..], Remaining(ops, infix[i].op) + [infix[i].op])
  {
    assert infix[i..][0] == infix[i] && infix[i..][1..] == infix[i + 1..];
  }

  /** The pop loop of toRpn: operators leave the stack while they bind at
      least as tightly as `o`. */
  method PopWhileTighter(output0: seq<ProgTok>, ops0: seq<OpKind>, o: OpKind)
    returns (output: seq<ProgTok>, ops: seq<OpKind>)
    ensures output == output0 + Popped(ops0, o)
    ensures ops == Remaining(ops0, o)
  {
    output, ops := output0, ops0;
    while ops != [] && PopsBefore(Top(ops), o)
      invariant output0 + Popped(ops0, o) == output + Popped(ops, o)
      invariant Remaining(ops0, o) == Remaining(ops, o)
      decreases |ops|
    {
      AppendAssoc(output, [OpTok(Top(ops))], Popped(Pop(ops), o));
      output := output + [OpTok(Top(ops))];
      ops := Pop(ops);
    }
    assert output + [] == output;
  }

  /** The final drain of toRpn. */
  method DrainAll(output0: seq<ProgTok>, ops0: seq<OpKind>) returns (output: seq<ProgTok>)
    ensures output == output0 + Drained(ops0)
  {
    output := output0;
    var ops := ops0;
    while ops != []
      invariant output0 + Drained(ops0) == output + Drained(ops)
      decreases |ops|
    {
      AppendAssoc(output, [OpTok(Top(ops))], Drained(Pop(ops)));
      output := output + [OpTok(Top(ops))];
      ops := Pop(ops);
    }
    assert output + [] == output;
  }

  lemma NoUnderflowAt(rpn: seq<ProgTok>, k: nat, depth: int)
    requires k < |rpn|
    ensures NoUnderflow(rpn[k..], depth)
      == ((rpn[k].OpTok? ==> depth >= 2) && NoUnderflow(rpn[k + 1..], depth + Delta(rpn[k])))
  {
    assert rpn[k..][0] == rpn[k] && rpn[k..][1..] == rpn[k + 1..];
  }

  lemma DepthPrefix(rpn: seq<ProgTok>, k: nat)
    requires k < |rpn|
    ensures Depth(rpn[..k + 1]) == Depth(rpn[..k]) + Delta(rpn[k])
  {
    assert rpn[..k + 1] == rpn[..k] + [rpn[k]];
    CountsAppend(rpn[..k], [rpn[k]]);
    assert [rpn[k]][1..] == [];
  }

  /** The sanity check of toRpn: a depth counter over the compiled stream. */
  method CheckRpn(output: seq<ProgTok>) returns (ok: bool)
    ensures ok == RpnValid(output)
  {
    ok := true;
    var depth := 0;
    var k := 0;
    while k < |output|
      invariant 0 <= k <= |output|
      invariant depth == Depth(output[..k])
      invariant NoUnderflow(output, 0) == NoUnderflow(output[k..], depth)
      decreases |output| - k
    {
      NoUnderflowAt(output, k, depth);
      DepthPrefix(output, k);
      if output[k].PredTok? {
        depth := depth + 1;
      } else {
        if depth < 2 {
          // a binary operator needs two operands
          ok := false;
          break;
        }
        depth := depth - 1;
      }
      k := k + 1;
    }
    if ok {
      assert output[k..] == [] && output[..k] == output;
    }
    if depth != 1 && output != [] {
      ok := false;
    }
  }

  /** toRpn: the shunting yard over the infix stream, then the sanity check. */
  method ToRpn(infix: seq<ProgTok>) returns (output: seq<ProgTok>, ok: bool)
    ensures output == Rpn(infix)
    ensures ok == RpnValid(output)
  {
    output := [];
    var ops: seq<OpKind> := [];
    var i := 0;
    while i < |infix|
      invariant 0 <= i <= |infix|
      invariant output + Shunt(infix[i..], ops) == Rpn(infix)
      decreases |infix| - i
    {
      var t := infix[i];
      ShuntAt(infix, i, ops);
      if t.PredTok? {
        AppendAssoc(output, [t], Shunt(infix[i + 1..], ops));
        output := output + [t];
      } else {
        ghost var output0, ops0 := output, ops;
        output, ops := PopWhileTighter(output, ops, t.op);
        AppendAssoc(output0, Popped(ops0, t.op), Shunt(infix[i + 1..], ops + [t.op]));
        ops := ops + [t.op];
      }
      i := i + 1;
    }
    assert infix[i..] == [];
    output := DrainAll(output, ops);
    ok := CheckRpn(output);
  }

  lemma RunAt(rpn: seq<ProgTok>, k: nat, st: seq<bool>, item: FileItem)
    requires k < |rpn|
    ensures Run(rpn[k..], st, item)
      == match Step(rpn[k], st, item) case None => None case Some(s) => Run(rpn[k + 1..], s, item)
  {
    assert rpn[k..][0] == rpn[k] && rpn[k..][1..] == rpn[k + 1..];
  }

  /** evalRpn: a stack of booleans; `ok` is false when an operator lacks
      operands or the stack does not end with exactly one value. */
  method EvalRpn(rpn: seq<ProgTok>, item: FileItem) returns (value: bool, ok: bool)
    ensures ok == RpnValue(rpn, item).Some?
    ensures value == (ok && RpnValue(rpn, item).value)
  {
    if rpn == [] {
      // the empty query matches everything
      return true, true;
    }
    var st: seq<bool> := [];
    ok := true;
    var k := 0;
    while k < |rpn|
      invariant 0 <= k <= |rpn|
      invariant ok ==> Run(rpn, [], item) == Run(rpn[k..], st, item)
      invariant !ok ==> Run(rpn, [], item) == None
      decreases |rpn| - k
    {
      var t := rpn[k];
      RunAt(rpn, k, st, item);
      if t.PredTok? {
        st := st + [EvalPred(t.pred, item)];
      } else {
        if |st| < 2 {
          ok := false;
          break;
        }
        var b := st[|st| - 1];
        var a := st[|st| - 2];
        StepOp(t.op, st[..|st| - 2], a, b, item);
        assert st == st[..|st| - 2] + [a, b];
        st := st[..|st| - 2] + [if t.op == And then a && b else a || b];
      }
      k := k + 1;
    }
    if ok {
      assert rpn[k..] == [];
    }
    if |st| != 1 {
      ok := false;
    }
    value := if ok then st[|st| - 1] else false;
  }
}
