/** The entry point of the query engine (QueryMatcher::matches in
    filterproxy.cpp) and the filter model that applies it to every row
    (FilterProxy::setNeedle and FilterProxy::filterAcceptsRow). */
module QueryMatcher {
  import opened QtText
  import opened FileItems
  import opened QueryLexer
  import opened QueryPredicates
  import opened QueryInfix
  import opened QueryRpn

  /** The infix stream a query compiles to. */
  function QueryInfixOf(query: string): (r: seq<ProgTok>)
    ensures NoAdjacentPreds(r)
  {
    Infix(Tokens(Trim(query)))
  }

  /** matches: the trimmed query is lexed, compiled and evaluated; when the
      compiled program fails its sanity check or its evaluation, the whole
      trimmed query is used as one unary term instead. */
  predicate Matching(item: FileItem, query: string) {
    var q := Trim(query);
    q == [] || CompiledMatch(item, q)
  }

  /** The answer for a non-empty trimmed query `q` (lex trims its input
      again, which leaves `q` unchanged). */
  predicate CompiledMatch(item: FileItem, q: string) {
    var rpn := Rpn(Infix(Tokens(q)));
    var value := RpnValue(rpn, item);
    if !RpnValid(rpn) || value.None? then EvalPred(MakeUnaryPredicate(q), item)
    else value.value
  }

  /** matches, as the source runs it: lex, toInfix, toRpn, evalRpn. */
  method Matches(item: FileItem, query: string) returns (result: bool)
    ensures result == Matching(item, query)
  {
    var q := Trim(query);
    if q == [] {
      return true;
    }
    result := MatchesTrimmed(item, q);
  }

  /** The part of matches after the empty-query test. */
  method MatchesTrimmed(item: FileItem, q: string) returns (result: bool)
    requires IsTrimmed(q)
    ensures result == CompiledMatch(item, q)
  {
    var lt := Lex(q);
    assert Trim(q) == q;
    var infix := ToInfix(lt);
    var rpn, okCompile := ToRpn(infix);
    var value, okEval := EvalRpn(rpn, item);
    if !okCompile || !okEval {
      // nonsense input: match the raw text as a single unary token
      return EvalPred(MakeUnaryPredicate(q), item);
    }
    result := value;
  }

  // ---------- what a query means ----------

  /** The whole behaviour of matches: an empty query, or one whose compiled
      stream is empty (only stray comparison operators), matches everything;
      a well-formed query `pred (op pred)*` is an OR of AND-groups (`&` binds
      tighter than `|`); any other query falls back to the raw-text term. */
  lemma MatchingMeaning(item: FileItem, query: string)
    ensures Trim(query) == [] ==> Matching(item, query)
    ensures QueryInfixOf(query) == [] ==> Matching(item, query)
    ensures Alternating(QueryInfixOf(query)) ==>
      Matching(item, query) == InfixValue(QueryInfixOf(query), item)
    ensures Trim(query) != [] && QueryInfixOf(query) != [] && !Alternating(QueryInfixOf(query)) ==>
      Matching(item, query) == EvalPred(MakeUnaryPredicate(Trim(query)), item)
  {
    var q := Trim(query);
    var infix := QueryInfixOf(query);
    var rpn := Rpn(infix);
    CompiledValidIff(infix, item);
    EvalOkIffValid(rpn, item);
    if infix == [] {
      assert rpn == [];
    } else if Alternating(infix) {
      RpnComputesInfixValue(infix, item);
    }
  }

  /** A query that is valid for one record is valid for all: the fallback is
      chosen by the text alone, never by the record. */
  lemma FallbackIndependentOfItem(a: FileItem, b: FileItem, query: string)
    ensures RpnValue(Rpn(QueryInfixOf(query)), a).Some? == RpnValue(Rpn(QueryInfixOf(query)), b).Some?
  {
    EvalOkIffValid(Rpn(QueryInfixOf(query)), a);
    EvalOkIffValid(Rpn(QueryInfixOf(query)), b);
  }

  // ---------- queries as the user types them ----------

  /** The predicate a single word or number token stands for. */
  function UnaryOf(w: string): Predicate {
    UnaryOfToken(Wordish(w))
  }

  lemma WordIsTrimmedQuery(w: string)
    requires w != [] && IsWordish(w)
    ensures IsTrimmed(w)
  {
    assert !IsDelim(w[0]) && !IsDelim(w[|w| - 1]);
  }

  /** The lexer on two words separated by a space. */
  lemma TokensOfSpacedWords(w1: string, w2: string)
    requires w1 != [] && IsWordish(w1) && w2 != [] && IsWordish(w2)
    ensures Tokens(w1 + " " + w2) == [Wordish(w1), Wordish(w2)]
  {
    assert w1 + " " + w2 == w1 + [' '] + w2;
    SpaceAsCons(w1, ' ', w2);
    TokensOfWordThenSpace(w1, w2);
    TokensOfWord(w2);
  }

  /** A word followed by a space lexes as the word, then the rest. */
  lemma TokensOfWordThenSpace(w: string, rest: string)
    requires w != [] && IsWordish(w)
    ensures Tokens(w + ([' '] + rest)) == [Wordish(w)] + Tokens(rest)
  {
    TokensOfWordRun(w, [' '] + rest);
    TokensAtHead(' ', rest);
    AppendEmpty(Tokens(rest));
  }

  /** A lone word lexes as one token. */
  lemma TokensOfWord(w: string)
    requires w != [] && IsWordish(w)
    ensures Tokens(w) == [Wordish(w)]
  {
    TokensOfWordRun(w, []);
    AppendEmpty(w);
    AppendEmpty([Wordish(w)]);
  }

  /** The lexer on two words with a spaced `&` or `|` between them. */
  lemma TokensOfOpBetween(w1: string, c: char, w2: string)
    requires w1 != [] && IsWordish(w1) && w2 != [] && IsWordish(w2)
    requires c == '&' || c == '|'
    ensures Tokens(w1 + [' ', c, ' '] + w2) == [Wordish(w1), if c == '&' then AndOp else OrOp, Wordish(w2)]
  {
    SpacedAsCons(w1, ' ', c, w2);
    TokensOfWordThenSpace(w1, [c] + ([' '] + w2));
    TokensAtHead(c, [' '] + w2);
    TokensAtHead(' ', w2);
    TokensOfWord(w2);
    ThreeAsCons(Wordish(w1), if c == '&' then AndOp else OrOp, Wordish(w2));
  }

  /** The predicate a word or number token stands for on its own. */
  function UnaryOfToken(t: Token): Predicate
    requires t.Word? || t.Number?
  {
    if t.Word? then MakeUnaryPredicate(t.text) else MakeUnaryPredicate(NumberText(t.value))
  }

  /** toInfix on a word or number not followed by a comparison operator. */
  lemma InfixWordStep(t: Token, rest: seq<Token>, prevPred: bool)
    requires t.Word? || t.Number?
    requires rest == [] || !rest[0].CmpOp?
    ensures InfixFrom([t] + rest, prevPred)
      == ImplicitAnd(prevPred) + [PredTok(UnaryOfToken(t))] + InfixFrom(rest, true)
  {
    var ts := [t] + rest;
    assert ts[0] == t && ts[1..] == rest;
    assert |ts| > 2 ==> ts[1] == rest[0];
  }

  lemma InfixOfLastWord(t: Token, prevPred: bool)
    requires t.Word? || t.Number?
    ensures InfixFrom([t], prevPred) == ImplicitAnd(prevPred) + [PredTok(UnaryOfToken(t))]
  {
    InfixWordStep(t, [], prevPred);
    assert [t] + [] == [t];
  }

  /** Two adjacent terms get an AND between them. */
  lemma InfixOfAdjacent(t1: Token, t2: Token)
    requires (t1.Word? || t1.Number?) && (t2.Word? || t2.Number?)
    ensures Infix([t1, t2]) == [PredTok(UnaryOfToken(t1)), OpTok(And), PredTok(UnaryOfToken(t2))]
  {
    var s := [t1, t2];
    assert s == [t1] + [t2];
    InfixWordStep(t1, [t2], false);
    InfixOfLastWord(t2, true);
    assert InfixFrom(s, false) == [] + [PredTok(UnaryOfToken(t1))] + ([OpTok(And)] + [PredTok(UnaryOfToken(t2))]);
  }

  /** toInfix on an explicit operator. */
  lemma InfixOpStep(op: Token, rest: seq<Token>, prevPred: bool)
    requires op.AndOp? || op.OrOp?
    ensures InfixFrom([op] + rest, prevPred) == [OpTok(if op.AndOp? then And else Or)] + InfixFrom(rest, false)
  {
    var ts := [op] + rest;
    assert ts[0] == op && ts[1..] == rest;
  }

  lemma InfixOfOpThenWord(op: Token, t: Token)
    requires (t.Word? || t.Number?) && (op.AndOp? || op.OrOp?)
    ensures InfixFrom([op, t], true) == [OpTok(if op.AndOp? then And else Or), PredTok(UnaryOfToken(t))]
  {
    var u := [PredTok(UnaryOfToken(t))];
    InfixOfLastWord(t, false);
    AppendEmpty(u);
    assert [op, t] == [op] + [t];
    InfixOpStep(op, [t], true);
  }

  /** An explicit operator between two terms is kept. */
  lemma InfixOfOperator(t1: Token, op: Token, t2: Token)
    requires (t1.Word? || t1.Number?) && (t2.Word? || t2.Number?) && (op.AndOp? || op.OrOp?)
    ensures Infix([t1, op, t2])
      == [PredTok(UnaryOfToken(t1)), OpTok(if op.AndOp? then And else Or), PredTok(UnaryOfToken(t2))]
  {
    var u := [PredTok(UnaryOfToken(t1))];
    var w := InfixFrom([op, t2], true);
    assert [t1, op, t2] == [t1] + [op, t2];
    InfixWordStep(t1, [op, t2], false);
    AppendEmpty(u);
    InfixOfOpThenWord(op, t2);
  }

  /** A word, a comparison operator and a number in a row are one field
      comparison: toInfix consumes all three and pushes a single predicate. */
  lemma InfixOfComparison(field: string, op: string, n: nat, rest: seq<Token>, prevPred: bool)
    ensures InfixFrom([Word(field), CmpOp(op), Number(n)] + rest, prevPred)
      == ImplicitAnd(prevPred) + [PredTok(MakeBinaryPredicate(field, op, n))] + InfixFrom(rest, true)
  {
    var ts := [Word(field), CmpOp(op), Number(n)] + rest;
    assert ts[0] == Word(field) && ts[1] == CmpOp(op) && ts[2] == Number(n) && ts[3..] == rest;
  }

  /** A comparison operator that does not sit between a word and a number
      is dropped: the stream is that of the tokens after it. */
  lemma InfixIgnoresStrayComparison(op: string, rest: seq<Token>, prevPred: bool)
    ensures InfixFrom([CmpOp(op)] + rest, prevPred) == InfixFrom(rest, prevPred)
  {
    var ts := [CmpOp(op)] + rest;
    assert ts[0] == CmpOp(op) && ts[1..] == rest;
  }

  /** The value of `p1 op p2`. */
  lemma InfixValueOfPair(p1: Predicate, o: OpKind, p2: Predicate, item: FileItem)
    ensures Alternating([PredTok(p1), OpTok(o), PredTok(p2)])
    ensures InfixValue([PredTok(p1), OpTok(o), PredTok(p2)], item)
      == Apply(o, EvalPred(p1, item), EvalPred(p2, item))
  {
    var rest := [OpTok(o), PredTok(p2)];
    assert [PredTok(p1)] + rest == [PredTok(p1), OpTok(o), PredTok(p2)];
    assert rest[2..] == [] && PairsForm(rest[2..]);
    InfixValueOfHead(p1, rest, item);
    AppendEmpty(rest);
    TermsPairStep(o, p2, [], item);
  }

  /** Two words side by side mean the same as the two joined by `&`. */
  lemma ImplicitAndMeansAnd(item: FileItem, w1: string, w2: string)
    requires w1 != [] && IsWordish(w1) && w2 != [] && IsWordish(w2)
    ensures Matching(item, w1 + " " + w2) == Matching(item, w1 + " & " + w2)
    ensures Matching(item, w1 + " " + w2) == (EvalPred(UnaryOf(w1), item) && EvalPred(UnaryOf(w2), item))
  {
    WordIsTrimmedQuery(w1);
    WordIsTrimmedQuery(w2);
    var s1 := w1 + " " + w2;
    var s2 := w1 + [' ', '&', ' '] + w2;
    assert s2 == w1 + " & " + w2;
    assert IsTrimmed(s1) && IsTrimmed(s2);
    TokensOfSpacedWords(w1, w2);
    TokensOfOpBetween(w1, '&', w2);
    InfixOfAdjacent(Wordish(w1), Wordish(w2));
    InfixOfOperator(Wordish(w1), AndOp, Wordish(w2));
    InfixValueOfPair(UnaryOf(w1), And, UnaryOf(w2), item);
    MatchingMeaning(item, s1);
    MatchingMeaning(item, s2);
  }

  /** `w1 | w2`: either word. */
  lemma OrMeansEither(item: FileItem, w1: string, w2: string)
    requires w1 != [] && IsWordish(w1) && w2 != [] && IsWordish(w2)
    ensures Matching(item, w1 + " | " + w2) == (EvalPred(UnaryOf(w1), item) || EvalPred(UnaryOf(w2), item))
  {
    WordIsTrimmedQuery(w1);
    WordIsTrimmedQuery(w2);
    var s := w1 + [' ', '|', ' '] + w2;
    assert s == w1 + " | " + w2;
    assert IsTrimmed(s);
    TokensOfOpBetween(w1, '|', w2);
    InfixOfOperator(Wordish(w1), OrOp, Wordish(w2));
    InfixValueOfPair(UnaryOf(w1), Or, UnaryOf(w2), item);
    MatchingMeaning(item, s);
  }

  /** The lexer on `& | <`. */
  lemma NonsenseTokens()
    ensures Tokens("& | <") == [AndOp] + ([OrOp] + [CmpOp("<")])
  {
    var s1 := ['<'];
    var s2 := [' '] + s1;
    var s3 := ['|'] + s2;
    var s4 := [' '] + s3;
    assert "& | <" == ['&'] + s4;
    TokensOfComparison('<', []);
    AppendEmpty(s1);
    AppendEmpty([CmpOp("<")]);
    TokensAtHead(' ', s1);
    TokensAtHead('|', s2);
    TokensAtHead(' ', s3);
    TokensAtHead('&', s4);
    AppendEmpty(Tokens(s1));
    AppendEmpty(Tokens(s3));
  }

  /** `& | <` has no surrounding space to trim. */
  lemma NonsenseTrimmed(s: string)
    requires s == "& | <"
    ensures Trim(s) == s
  {
    assert s[0] == '&' && s[|s| - 1] == '<';
    assert IsTrimmed(s);
  }

  /** `& | <` compiles to two operators and no predicate. */
  lemma NonsenseInfix(s: string)
    requires s == "& | <"
    ensures Trim(s) == s
    ensures QueryInfixOf(s) == [OpTok(And)] + ([OpTok(Or)] + [])
  {
    NonsenseTrimmed(s);
    NonsenseTokens();
    var cmp := [CmpOp("<")];
    InfixIgnoresStrayComparison("<", [], false);
    assert cmp + [] == cmp;
    InfixOpStep(OrOp, cmp, false);
    InfixOpStep(AndOp, [OrOp] + cmp, false);
  }

  /** A query whose compiled stream starts with an operator is not
      well-formed, so it is searched for as text. */
  lemma LeadingOperatorFallsBack(item: FileItem, query: string)
    requires QueryInfixOf(query) != [] && QueryInfixOf(query)[0].OpTok?
    ensures Trim(query) != []
    ensures Matching(item, query) == EvalPred(MakeUnaryPredicate(Trim(query)), item)
  {
    assert Tokens([]) == [];
    MatchingMeaning(item, query);
  }

  /** An instance of LeadingOperatorFallsBack: nonsense such as `& | <`
      does not compile to a valid program, so it is searched for as text. */
  lemma NonsenseFallsBackToText(item: FileItem, s: string)
    requires s == "& | <"
    ensures Matching(item, s) == EvalPred(TextOrTag(s), item)
  {
    NonsenseInfix(s);
    LeadingOperatorFallsBack(item, s);
    NonsenseIsText(s);
  }

  lemma NonsenseIsText(s: string)
    requires s == "& | <"
    ensures MakeUnaryPredicate(Trim(s)) == TextOrTag(s)
  {
    NonsenseInfix(s);
    assert Lower(s)[0] == '&';
  }

  /** A token stream made only of comparison operators compiles to
      nothing, whatever came before it. */
  lemma {:induction false} StrayComparisonsCompileToNothing(ts: seq<Token>, prevPred: bool)
    requires forall k :: 0 <= k < |ts| ==> ts[k].CmpOp?
    ensures InfixFrom(ts, prevPred) == []
    decreases |ts|
  {
    if ts != [] {
      assert [CmpOp(ts[0].text)] + ts[1..] == ts;
      InfixIgnoresStrayComparison(ts[0].text, ts[1..], prevPred);
      StrayComparisonsCompileToNothing(ts[1..], prevPred);
    }
  }

  /** A query whose tokens are all comparison operators compiles to nothing
      and therefore matches every record. */
  lemma OnlyComparisonsMatchAll(item: FileItem, query: string)
    requires forall k :: 0 <= k < |Tokens(Trim(query))| ==> Tokens(Trim(query))[k].CmpOp?
    ensures QueryInfixOf(query) == []
    ensures Matching(item, query)
  {
    StrayComparisonsCompileToNothing(Tokens(Trim(query)), false);
    MatchingMeaning(item, query);
  }

  /** An instance: the query `<` matches every record. */
  lemma LoneComparisonMatchesAll(item: FileItem)
    ensures Matching(item, "<")
  {
    TokensOfComparison('<', []);
    assert ['<'] + [] == "<";
    OnlyComparisonsMatchAll(item, "<");
  }

  // ---------- the filter model ----------

  /** The record filterAcceptsRow rebuilds from a row's data roles: file name,
      modification time, size, tags and kind (through its int value), on top
      of a default record. */
  function RoleItem(row: FileItem): (r: FileItem)
    ensures r.fileName == row.fileName && r.modified == row.modified
    ensures r.sizeBytes == row.sizeBytes && r.tags == row.tags && r.kind == row.kind
    ensures r.absolutePath == "" && r.thumbStatus == NotRequested && r.created == InvalidDateTime
  {
    KindOrdinalRoundTrip(row.kind);
    DefaultItem.(fileName := row.fileName, modified := row.modified, sizeBytes := row.sizeBytes,
                 tags := row.tags, kind := KindFromOrdinal(KindOrdinal(row.kind)))
  }

  /** Records that agree on what a query can read. */
  predicate SameSearchFields(a: FileItem, b: FileItem) {
    a.fileName == b.fileName && a.modified == b.modified && a.sizeBytes == b.sizeBytes
    && a.tags == b.tags && a.kind == b.kind
  }

  lemma {:induction false} RunSameFields(rpn: seq<ProgTok>, st: seq<bool>, a: FileItem, b: FileItem)
    requires SameSearchFields(a, b)
    ensures Run(rpn, st, a) == Run(rpn, st, b)
    decreases |rpn|
  {
    if rpn != [] {
      var s := Step(rpn[0], st, a);
      assert s == Step(rpn[0], st, b);
      if s.Some? {
        RunSameFields(rpn[1..], s.value, a, b);
      }
    }
  }

  /** Only the five fields the filter copies decide a match. */
  lemma MatchingReadsSearchFields(a: FileItem, b: FileItem, query: string)
    requires SameSearchFields(a, b)
    ensures Matching(a, query) == Matching(b, query)
  {
    var q := Trim(query);
    CompiledMatchReadsSearchFields(a, b, q);
  }

  lemma CompiledMatchReadsSearchFields(a: FileItem, b: FileItem, q: string)
    requires SameSearchFields(a, b)
    ensures CompiledMatch(a, q) == CompiledMatch(b, q)
  {
    var rpn := Rpn(Infix(Tokens(q)));
    RunSameFields(rpn, [], a, b);
    assert RpnValue(rpn, a) == RpnValue(rpn, b);
    assert EvalPred(MakeUnaryPredicate(q), a) == EvalPred(MakeUnaryPredicate(q), b);
  }

  class FilterProxy {
    /** m_needle: the trimmed search text. */
    var needle: string

    constructor()
      ensures needle == ""
    {
      needle := "";
    }

    /** setNeedle: stores the text trimmed (the re-filtering signal is not modelled). */
    method SetNeedle(text: string)
      modifies this
      ensures needle == Trim(text)
    {
      needle := Trim(text);
    }

    /** filterAcceptsRow on the record behind the row: every row passes an
        empty needle; otherwise the row passes exactly when its record
        matches the needle. */
    method FilterAcceptsRow(row: FileItem) returns (accept: bool)
      ensures needle == [] ==> accept
      ensures accept == Matching(row, needle)
    {
      if needle == [] {
        return true;
      }
      var item := RoleItem(row);
      accept := Matches(item, needle);
      MatchingReadsSearchFields(item, row, needle);
    }
  }
}
