/** The predicates a query is compiled into (QueryMatcher in filterproxy.cpp):
    a kind keyword, a text-or-tag test, a field comparison, or the predicate
    that never matches. The source builds closures; the model names each
    closure by a constructor and gives it meaning in `EvalPred`. */
module QueryPredicates {
  import opened QtText
  import opened FileItems

  datatype Field = YearField | SizeField

  datatype Predicate =
    | KindIs(kind: FileKind)                          // `picture`, `video`
    | TextOrTag(text: string)                         // any other unary token
    | FieldCmp(field: Field, op: string, value: int)  // `year >= 2020`, `size < 100`
    | Never                                           // a comparison on an unknown field

  /** ciEquals: equal up to letter case. */
  predicate CiEquals(a: string, b: string) {
    Lower(a) == Lower(b)
  }

  /** tagsContainCI: some tag equals the needle up to letter case. */
  predicate TagsContainCI(tags: seq<string>, needle: string) {
    exists k :: 0 <= k < |tags| && CiEquals(tags[k], needle)
  }

  /** QString::contains with Qt::CaseInsensitive. */
  predicate ContainsCI(hay: string, needle: string) {
    Contains(Lower(hay), Lower(needle))
  }

  /** makeUnaryPredicate: the trimmed token is a kind keyword (in any letter
      case) or else a text-or-tag test. */
  function MakeUnaryPredicate(rawToken: string): (p: Predicate)
    ensures p.KindIs? ==> p.kind == Picture || p.kind == Video
    ensures p.KindIs? <==> Lower(Trim(rawToken)) == "picture" || Lower(Trim(rawToken)) == "video"
    ensures p.TextOrTag? <==> !p.KindIs?
    ensures p.TextOrTag? ==> p.text == Trim(rawToken)
  {
    var tok := Trim(rawToken);
    var low := Lower(tok);
    if low == "picture" then KindIs(Picture)
    else if low == "video" then KindIs(Video)
    else TextOrTag(tok)
  }

  predicate IsKnownComparison(op: string) {
    op == "<" || op == "<=" || op == ">" || op == ">=" || op == "=="
  }

  /** evalCmp: the five comparison texts with their integer meaning; any
      other text fails closed. */
  function EvalCmp(left: int, op: string, right: int): (b: bool)
    ensures b ==> IsKnownComparison(op)
    ensures op == "<" ==> (b <==> left < right)
    ensures op == "<=" ==> (b <==> left <= right)
    ensures op == ">" ==> (b <==> left > right)
    ensures op == ">=" ==> (b <==> left >= right)
    ensures op == "==" ==> (b <==> left == right)
  {
    if op == "<" then left < right
    else if op == "<=" then left <= right
    else if op == ">" then left > right
    else if op == ">=" then left >= right
    else if op == "==" then left == right
    else false
  }

  /** makeBinaryPredicate: `year` and `size` (in any letter case) select a
      field; any other field name gives the predicate that never matches. */
  function MakeBinaryPredicate(fieldRaw: string, cmpOp: string, value: int): (p: Predicate)
    ensures p.Never? <==> Lower(fieldRaw) != "year" && Lower(fieldRaw) != "size"
    ensures p.FieldCmp? ==> p.op == cmpOp && p.value == value
    ensures p.FieldCmp? ==> (p.field == YearField <==> Lower(fieldRaw) == "year")
    ensures !p.KindIs? && !p.TextOrTag?
  {
    var field := Lower(fieldRaw);
    if field == "year" then FieldCmp(YearField, cmpOp, value)
    else if field == "size" then FieldCmp(SizeField, cmpOp, value)
    else Never
  }

  /** The year a `year` comparison reads: that of the modification time, or
      0 when it is invalid. */
  function YearOf(t: DateTime): int {
    if t.ValidDateTime? then t.year else 0
  }

  /** Calling the compiled closure on an item. */
  predicate EvalPred(p: Predicate, it: FileItem) {
    match p
    case KindIs(k) => it.kind == k
    case TextOrTag(tok) => ContainsCI(it.fileName, tok) || TagsContainCI(it.tags, tok)
    case FieldCmp(YearField, op, v) => EvalCmp(YearOf(it.modified), op, v)
    case FieldCmp(SizeField, op, v) => EvalCmp(it.sizeBytes, op, v)
    case Never => false
  }

  // ---------- properties ----------

  /** A single `=` is not a comparison evalCmp knows, so `year = 2021` and
      `size = 0` never match; equality is written `==`. */
  lemma SingleEqualsFailsClosed(left: int, right: int)
    ensures !EvalCmp(left, "=", right)
  {
  }

  /** `<` and `>=`, `>` and `<=` are complementary; exactly one of `<`,
      `==`, `>` holds. */
  lemma ComparisonsComplementary(left: int, right: int)
    ensures EvalCmp(left, "<", right) != EvalCmp(left, ">=", right)
    ensures EvalCmp(left, ">", right) != EvalCmp(left, "<=", right)
    ensures (EvalCmp(left, "<", right) || EvalCmp(left, "==", right) || EvalCmp(left, ">", right))
    ensures !(EvalCmp(left, "<", right) && EvalCmp(left, "==", right))
    ensures !(EvalCmp(left, "==", right) && EvalCmp(left, ">", right))
  {
  }

  /** A comparison on a field other than `year` or `size` rejects every item. */
  lemma UnknownFieldNeverMatches(fieldRaw: string, cmpOp: string, value: int, it: FileItem)
    requires Lower(fieldRaw) != "year" && Lower(fieldRaw) != "size"
    ensures !EvalPred(MakeBinaryPredicate(fieldRaw, cmpOp, value), it)
  {
  }

  /** What a `year`/`size` comparison tests, whatever the case of the field name. */
  lemma FieldComparisonMeaning(fieldRaw: string, cmpOp: string, value: int, it: FileItem)
    ensures Lower(fieldRaw) == "year" ==>
      EvalPred(MakeBinaryPredicate(fieldRaw, cmpOp, value), it) == EvalCmp(YearOf(it.modified), cmpOp, value)
    ensures Lower(fieldRaw) == "size" ==>
      EvalPred(MakeBinaryPredicate(fieldRaw, cmpOp, value), it) == EvalCmp(it.sizeBytes, cmpOp, value)
  {
  }

  /** An item without a valid modification time is in year 0 for `year`
      comparisons. */
  lemma InvalidTimeIsYearZero(cmpOp: string, value: int, it: FileItem)
    requires it.modified.InvalidDateTime?
    ensures EvalPred(MakeBinaryPredicate("year", cmpOp, value), it) == EvalCmp(0, cmpOp, value)
  {
    assert Lower("year") == "year";
  }

  /** A text token that is not a keyword matches exactly the items whose file
      name contains it, or that carry it as a tag, up to letter case. */
  lemma TextTokenMeaning(rawToken: string, it: FileItem)
    requires Lower(Trim(rawToken)) != "picture" && Lower(Trim(rawToken)) != "video"
    ensures EvalPred(MakeUnaryPredicate(rawToken), it) <==>
      ContainsCI(it.fileName, Trim(rawToken))
      || (exists k :: 0 <= k < |it.tags| && Lower(it.tags[k]) == Lower(Trim(rawToken)))
  {
  }

  /** A text token matches every item whose file name is that token, and every
      item carrying a tag equal to it. */
  lemma TextTokenMatchesOwnName(tok: string, it: FileItem, k: nat)
    requires IsTrimmed(tok) && Lower(tok) != "picture" && Lower(tok) != "video"
    requires it.fileName == tok || (k < |it.tags| && it.tags[k] == tok)
    ensures EvalPred(MakeUnaryPredicate(tok), it)
  {
    if it.fileName == tok {
      ContainsAt(Lower(tok), Lower(tok), 0);
    } else {
      assert CiEquals(it.tags[k], tok);
    }
  }

  /** The keywords are recognised in any letter case and test the kind only. */
  lemma KeywordMeaning(rawToken: string, it: FileItem)
    ensures Lower(Trim(rawToken)) == "picture" ==> (EvalPred(MakeUnaryPredicate(rawToken), it) <==> it.kind == Picture)
    ensures Lower(Trim(rawToken)) == "video" ==> (EvalPred(MakeUnaryPredicate(rawToken), it) <==> it.kind == Video)
  {
  }
}
