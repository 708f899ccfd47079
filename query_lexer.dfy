/** Lexing of a search query (QueryMatcher::lex in filterproxy.cpp): words,
    non-negative integers, comparison operators, `&` and `|`. */
module QueryLexer {
  import opened QtText

  datatype Token =
    | Word(text: string)
    | Number(value: nat)    // the lexer only ever produces non-negative values
    | CmpOp(text: string)
    | AndOp
    | OrOp

  /** isDelim: whitespace and the five operator characters end a word. */
  predicate IsDelim(c: char) {
    IsSpace(c) || c == '&' || c == '|' || c == '<' || c == '>' || c == '='
  }

  predicate StartsComparison(c: char) {
    c == '<' || c == '>' || c == '='
  }

  /** isAllDigits: a non-empty run of decimal digits. */
  predicate IsAllDigits(s: string) {
    s != [] && AllDigits(s)
  }

  /** The texts a comparison token can carry: `<`, `>`, `=`, `<=`, `>=`, `==`. */
  predicate IsComparisonText(o: string) {
    (|o| == 1 && StartsComparison(o[0]))
    || (|o| == 2 && StartsComparison(o[0]) && o[1] == '=')
  }

  /** A run of characters none of which is a delimiter. */
  predicate IsWordish(w: string) {
    forall k :: 0 <= k < |w| ==> !IsDelim(w[k])
  }

  /** What every token the lexer emits looks like. */
  predicate WellFormed(t: Token) {
    match t
    case Word(w) => w != [] && IsWordish(w) && !IsAllDigits(w)
    case Number(n) => n <= MaxInt64
    case CmpOp(o) => IsComparisonText(o)
    case _ => true
  }

  /** The length of the run of non-delimiters that starts `s`. */
  function RunLength(s: string): (n: nat)
    ensures n <= |s|
    ensures IsWordish(s[..n])
    ensures n < |s| ==> IsDelim(s[n])
    decreases |s|
  {
    if s == [] || IsDelim(s[0]) then 0 else 1 + RunLength(s[1..])
  }

  /** The token for a maximal run of non-delimiters. */
  function Wordish(w: string): Token {
    if IsAllDigits(w) then Number(ToLongLong(w)) else Word(w)
  }

  /** How many characters the token that starts `s` spans (whitespace counts
      as a one-character step that yields no token). */
  function HeadLength(s: string): (n: nat)
    requires s != []
    ensures 1 <= n <= |s|
  {
    if IsSpace(s[0]) || s[0] == '&' || s[0] == '|' then 1
    else if StartsComparison(s[0]) then
      // `<=`, `>=` and `==` are one token; every other `<`, `>`, `=` stands alone
      if |s| > 1 && s[1] == '=' then 2 else 1
    else RunLength(s)
  }

  /** The token (none for whitespace) that the first `HeadLength(s)`
      characters of `s` yield. */
  function HeadToken(s: string): (r: seq<Token>)
    requires s != []
    ensures |r| <= 1
    ensures r == [] <==> IsSpace(s[0])
  {
    if IsSpace(s[0]) then []
    else if s[0] == '&' then [AndOp]
    else if s[0] == '|' then [OrOp]
    else if StartsComparison(s[0]) then [CmpOp(s[..HeadLength(s)])]
    else [Wordish(s[..RunLength(s)])]
  }

  /** The token sequence of an (already trimmed) query. */
  function Tokens(s: string): (r: seq<Token>)
    ensures |r| <= |s|
    decreases |s|
  {
    if s == [] then [] else HeadToken(s) + Tokens(s[HeadLength(s)..])
  }

  /** One step of the scan: the tokens from position `i` are the token that
      starts there followed by the tokens from `next` on. */
  lemma TokensStep(s: string, i: nat, next: nat)
    requires i < |s| && next == i + HeadLength(s[i..])
    ensures next <= |s|
    ensures Tokens(s[i..]) == HeadToken(s[i..]) + Tokens(s[next..])
  {
    assert s[i..][HeadLength(s[i..])..] == s[next..];
  }

  /** The scan invariant survives emitting the token at position `i`. */
  lemma Advance(s: string, i: nat, out: seq<Token>, emitted: seq<Token>, next: nat)
    requires i < |s| && out + Tokens(s[i..]) == Tokens(s)
    requires HeadToken(s[i..]) == emitted && i + HeadLength(s[i..]) == next
    ensures next <= |s|
    ensures (out + emitted) + Tokens(s[next..]) == Tokens(s)
  {
    TokensStep(s, i, next);
    AppendAssoc(out, emitted, Tokens(s[next..]));
  }

  /** The inner loop of lex: advances over the run of non-delimiters that
      starts at `start`. */
  method ScanRun(s: string, start: nat) returns (i: nat)
    requires start < |s| && !IsDelim(s[start])
    ensures start < i <= |s|
    ensures HeadToken(s[start..]) == [Wordish(s[start..i])] && i == start + HeadLength(s[start..])
  {
    i := start;
    while i < |s| && !IsDelim(s[i])
      invariant start <= i <= |s|
      invariant RunLength(s[start..]) == (i - start) + RunLength(s[i..])
      decreases |s| - i
    {
      assert s[i..][0] == s[i] && s[i..][1..] == s[i + 1..];
      i := i + 1;
    }
    assert i < |s| ==> s[i..][0] == s[i];
    assert s[start..][0] == s[start];
    assert s[start..][..i - start] == s[start..i];
  }

  /** The comparison branch of lex: `<`, `>` or `=`, joined with a following
      `=` into `<=`, `>=` or `==`. */
  method ScanComparison(s: string, i: nat) returns (op: string, next: nat)
    requires i < |s| && StartsComparison(s[i])
    ensures HeadToken(s[i..]) == [CmpOp(op)] && next == i + HeadLength(s[i..])
  {
    var c := s[i];
    var rest := s[i..];
    assert rest[0] == c;
    op := [c];
    if (c == '<' || c == '>') && i + 1 < |s| && s[i + 1] == '=' {
      op := op + ['='];
      assert rest[1] == '=' && rest[..2] == op;
      next := i + 2;
    } else if c == '=' && i + 1 < |s| && s[i + 1] == '=' {
      op := "==";
      assert rest[1] == '=' && rest[..2] == op;
      next := i + 2;
    } else {
      assert |rest| > 1 ==> rest[1] == s[i + 1];
      assert rest[..1] == op;
      next := i + 1;
    }
  }

  /** lex: trims the input and scans it once, left to right; each step
      emits at most one token. */
  method Lex(input: string) returns (out: seq<Token>)
    ensures out == Tokens(Trim(input))
  {
    var s := Trim(input);
    out := [];
    var i := 0;
    while i < |s|
      invariant 0 <= i <= |s|
      invariant out + Tokens(s[i..]) == Tokens(s)
      decreases |s| - i
    {
      var c := s[i];
      assert s[i..][0] == c;
      var emitted: seq<Token>;
      var next: nat;
      if IsSpace(c) {
        emitted, next := [], i + 1;
      } else if c == '&' {
        emitted, next := [AndOp], i + 1;
      } else if c == '|' {
        emitted, next := [OrOp], i + 1;
      } else if c == '<' || c == '>' || c == '=' {
        var op;
        op, next := ScanComparison(s, i);
        emitted := [CmpOp(op)];
      } else {
        next := ScanRun(s, i);
        var token := s[i..next];
        if IsAllDigits(token) {
          emitted := [Number(ToLongLong(token))];
        } else {
          emitted := [Word(token)];
        }
        assert emitted == [Wordish(token)];
      }
      Advance(s, i, out, emitted, next);
      out := out + emitted;
      i := next;
    }
    assert s[i..] == [];
  }

  // ---------- properties of the token sequence ----------

  lemma {:induction false} RunLengthOfWord(w: string, rest: string)
    requires IsWordish(w)
    requires rest == [] || IsDelim(rest[0])
    ensures RunLength(w + rest) == |w|
    decreases |w|
  {
    if w == [] {
      assert w + rest == rest;
    } else {
      assert (w + rest)[1..] == w[1..] + rest;
      RunLengthOfWord(w[1..], rest);
    }
  }

  lemma {:induction false} RunLengthAppend(a: string, t: string)
    requires RunLength(a) < |a| || (t != [] && IsDelim(t[0]))
    ensures RunLength(a + t) == RunLength(a)
    decreases |a|
  {
    if a == [] {
      assert a + t == t;
    } else if !IsDelim(a[0]) {
      assert (a + t)[1..] == a[1..] + t;
      RunLengthAppend(a[1..], t);
    }
  }

  /** The token that starts a query is well formed. */
  lemma HeadTokenWellFormed(s: string)
    requires s != []
    ensures forall k :: 0 <= k < |HeadToken(s)| ==> WellFormed(HeadToken(s)[k])
  {
    if IsSpace(s[0]) || s[0] == '&' || s[0] == '|' {
    } else if StartsComparison(s[0]) {
      var o := s[..HeadLength(s)];
      assert o[0] == s[0];
      assert |o| == 2 ==> o[1] == s[1];
      assert IsComparisonText(o);
    } else {
      var w := s[..RunLength(s)];
      assert !IsDelim(s[0]);
      assert RunLength(s) >= 1;
      assert w != [] && IsWordish(w);
    }
  }

  /** Every token the lexer emits is well formed: a non-empty word that is
      not all digits, a number within qint64, or one of the six comparison
      texts. */
  lemma {:induction false} TokensWellFormed(s: string)
    ensures forall k :: 0 <= k < |Tokens(s)| ==> WellFormed(Tokens(s)[k])
    decreases |s|
  {
    if s != [] {
      HeadTokenWellFormed(s);
      TokensWellFormed(s[HeadLength(s)..]);
      var h := HeadToken(s);
      var t := Tokens(s[HeadLength(s)..]);
      assert Tokens(s) == h + t;
      forall k | 0 <= k < |h + t|
        ensures WellFormed((h + t)[k])
      {
        if k < |h| {
          assert (h + t)[k] == h[k];
        } else {
          assert (h + t)[k] == t[k - |h|];
        }
      }
    }
  }

  /** Every maximal run of non-delimiters becomes exactly one token: a Number
      when it is all digits, a Word otherwise. */
  lemma TokensOfWordRun(w: string, rest: string)
    requires w != [] && IsWordish(w)
    requires rest == [] || IsDelim(rest[0])
    ensures Tokens(w + rest) == [Wordish(w)] + Tokens(rest)
  {
    RunLengthOfWord(w, rest);
    var s := w + rest;
    assert !IsDelim(s[0]);
    assert s[..|w|] == w && s[|w|..] == rest;
  }

  /** Text after the first token of `a` never changes that token, provided
      it starts with a delimiter other than `=`. */
  lemma HeadAppend(a: string, t: string)
    requires a != [] && t != [] && IsDelim(t[0]) && t[0] != '='
    ensures HeadLength(a + t) == HeadLength(a)
    ensures HeadToken(a + t) == HeadToken(a)
  {
    var s := a + t;
    assert s[0] == a[0];
    if IsSpace(a[0]) || a[0] == '&' || a[0] == '|' {
    } else if StartsComparison(a[0]) {
      assert |a| > 1 ==> s[1] == a[1];
      assert |a| == 1 ==> s[1] == t[0];
      assert s[..HeadLength(a)] == a[..HeadLength(a)];
    } else {
      RunLengthAppend(a, t);
      assert s[..RunLength(a)] == a[..RunLength(a)];
    }
  }

  /** A delimiter other than `=` always ends what comes before it: the tokens
      of `a`, then the tokens of the rest. (`=` is excluded because it can
      complete a `<=`, `>=` or `==`.) */
  lemma {:induction false} TokensAfterDelim(a: string, c: char, b: string)
    requires IsDelim(c) && c != '='
    ensures Tokens(a + [c] + b) == Tokens(a) + Tokens([c] + b)
    decreases |a|
  {
    var t := [c] + b;
    AppendAssoc(a, [c], b);
    if a == [] {
      AppendEmpty(t);
      AppendEmpty(Tokens(t));
    } else {
      HeadAppend(a, t);
      var n := HeadLength(a);
      SliceAppend(a, t, n);
      AppendAssoc(a[n..], [c], b);
      TokensAfterDelim(a[n..], c, b);
      AppendAssoc(HeadToken(a), Tokens(a[n..]), Tokens(t));
    }
  }

  lemma TokensAtHead(c: char, b: string)
    requires IsSpace(c) || c == '&' || c == '|'
    ensures Tokens([c] + b) == (if IsSpace(c) then [] else if c == '&' then [AndOp] else [OrOp]) + Tokens(b)
  {
    var s := [c] + b;
    assert s[0] == c && s[1..] == b;
    assert HeadLength(s) == 1;
  }

  /** Whitespace separates without producing a token. */
  lemma TokensAtSpace(a: string, c: char, b: string)
    requires IsSpace(c)
    ensures Tokens(a + [c] + b) == Tokens(a) + Tokens(b)
  {
    TokensAfterDelim(a, c, b);
    TokensAtHead(c, b);
    assert [] + Tokens(b) == Tokens(b);
  }

  /** `&` and `|` give AndOp and OrOp wherever they stand. */
  lemma TokensAtBoolOp(a: string, c: char, b: string)
    requires c == '&' || c == '|'
    ensures Tokens(a + [c] + b) == Tokens(a) + [if c == '&' then AndOp else OrOp] + Tokens(b)
  {
    TokensAfterDelim(a, c, b);
    TokensAtHead(c, b);
    AppendAssoc(Tokens(a), [if c == '&' then AndOp else OrOp], Tokens(b));
  }

  /** `<=`, `>=` and `==` are one comparison token; a `<`, `>` or `=` that is
      not followed by `=` is a one-character comparison token, so a lone `=`
      never reads as `==`. */
  lemma TokensOfComparison(c: char, rest: string)
    requires StartsComparison(c)
    ensures Tokens([c, '='] + rest) == [CmpOp([c, '='])] + Tokens(rest)
    ensures rest == [] || rest[0] != '=' ==> Tokens([c] + rest) == [CmpOp([c])] + Tokens(rest)
  {
    assert !IsSpace(c) && c != '&' && c != '|';
    var s := [c, '='] + rest;
    assert s[0] == c && s[1] == '=';
    assert s[..2] == [c, '='] && s[2..] == rest;
    var u := [c] + rest;
    assert u[0] == c && u[..1] == [c] && u[1..] == rest;
  }
}
