/** The text of the emitted WHERE clause: what the format pass makes of it, and what SQL reads in it. */
module AuditText {
  import opened Wrappers
  import opened GoStrings
  import opened AuditQuery
  import opened Sql
  import Decimal

  // ------------------------------------------------------------ the format pass

  /** What stands before the number of the placeholder. */
  function Head(c: Condition): Bytes {
    match c
    case Equals(column) => ColumnName(column) + " = $"
    case PathLike => "path ilike '%' || $"
    case NotAuditAdmin => "(route is null or route <> $"
    case StartedSince => "started_at >= $"
    case StartedBefore => "started_at < $"
  }

  /** What stands behind it. */
  function Tail(c: Condition): Bytes {
    match c
    case PathLike => " || '%'"
    case NotAuditAdmin => ")"
    case _ => ""
  }

  lemma PlainByte(c: Byte, format: Bytes, n: nat)
    requires c != '%' && format != []
    ensures Sprintf([c] + format, n) == [c] + Sprintf(format, n)
  {
    assert ([c] + format)[1..] == format;
  }

  lemma {:induction false} PlainFormat(plain: Bytes, format: Bytes, n: nat)
    requires '%' !in plain && format != []
    ensures Sprintf(plain + format, n) == plain + Sprintf(format, n)
  {
    hide Sprintf;
    if plain == [] {
      assert plain + format == format;
    } else {
      var rest := plain[1..];
      assert plain == [plain[0]] + rest && plain[0] in plain;
      PlainFormat(rest, format, n);
      PlainByte(plain[0], rest + format, n);
      assert plain + format == [plain[0]] + (rest + format);
    }
  }

  lemma NumberFormat(format: Bytes, n: nat)
    ensures Sprintf("%d" + format, n) == Decimal.Itoa(n) + Sprintf(format, n)
  {
    var f: Bytes := "%d" + format;
    assert f[0] == '%' && f[1] == 'd' && f[2..] == format;
  }

  lemma PercentFormat(format: Bytes, n: nat)
    ensures Sprintf("%%" + format, n) == "%" + Sprintf(format, n)
  {
    var f: Bytes := "%%" + format;
    assert f[0] == '%' && f[1] == '%' && f[2..] == format;
  }

  lemma EqualsFormat(head: Bytes, n: nat)
    requires '%' !in head
    ensures Sprintf(head + "%d", n) == head + Decimal.Itoa(n)
  {
    PlainFormat(head, "%d", n);
    NumberFormat([], n);
    assert Sprintf([], n) == [];
    var d: Bytes := "%d";
    assert d + [] == d;
  }

  const PATH_LIKE: Bytes := "path ilike '"
  const THEN_NUMBER: Bytes := "' || $"
  const THEN_QUOTE: Bytes := " || '"
  const LAST_QUOTE: Bytes := "'"

  lemma PathPieces()
    ensures Template(PathLike) == PATH_LIKE + ("%%" + (THEN_NUMBER + ("%d" + (THEN_QUOTE + ("%%" + LAST_QUOTE)))))
    ensures Head(PathLike) == PATH_LIKE + ("%" + THEN_NUMBER)
    ensures Tail(PathLike) == THEN_QUOTE + ("%" + LAST_QUOTE)
    ensures '%' !in PATH_LIKE && '%' !in THEN_NUMBER && '%' !in THEN_QUOTE
  {
  }

  lemma QuoteFormat(n: nat)
    ensures Sprintf(LAST_QUOTE, n) == LAST_QUOTE
  {
  }

  lemma PathFormat(n: nat)
    ensures Sprintf(Template(PathLike), n) == Head(PathLike) + Decimal.Itoa(n) + Tail(PathLike)
  {
    hide Sprintf, Template, Head, Tail, Decimal.Itoa, LAST_QUOTE, PATH_LIKE, THEN_NUMBER, THEN_QUOTE;
    PathPieces();
    var last := "%%" + LAST_QUOTE;
    var number := "%d" + (THEN_QUOTE + last);
    QuoteFormat(n);
    PercentFormat(LAST_QUOTE, n);
    PlainFormat(THEN_QUOTE, last, n);
    NumberFormat(THEN_QUOTE + last, n);
    PlainFormat(THEN_NUMBER, number, n);
    PercentFormat(THEN_NUMBER + number, n);
    PlainFormat(PATH_LIKE, "%%" + (THEN_NUMBER + number), n);
  }

  const LAST_CLOSE: Bytes := ")"

  lemma RoutePieces()
    ensures Template(NotAuditAdmin) == Head(NotAuditAdmin) + ("%d" + LAST_CLOSE)
    ensures Tail(NotAuditAdmin) == LAST_CLOSE && '%' !in Head(NotAuditAdmin)
  {
  }

  lemma CloseFormat(n: nat)
    ensures Sprintf(LAST_CLOSE, n) == LAST_CLOSE
  {
  }

  lemma RouteFormat(n: nat)
    ensures Sprintf(Template(NotAuditAdmin), n) == Head(NotAuditAdmin) + Decimal.Itoa(n) + Tail(NotAuditAdmin)
  {
    hide Sprintf, Template, Head, Tail, Decimal.Itoa, LAST_CLOSE;
    RoutePieces();
    PlainFormat(Head(NotAuditAdmin), "%d" + LAST_CLOSE, n);
    NumberFormat(LAST_CLOSE, n);
    CloseFormat(n);
  }

  /** The format pass writes the placeholder number and leaves the percent signs of the pattern as they must be. */
  lemma FormatPass(c: Condition, n: nat)
    ensures Sprintf(Template(c), n) == Head(c) + Decimal.Itoa(n) + Tail(c)
  {
    match c
    case PathLike => PathFormat(n);
    case NotAuditAdmin => RouteFormat(n);
    case _ =>
      assert Template(c) == Head(c) + "%d";
      EqualsFormat(Head(c), n);
      assert Head(c) + Decimal.Itoa(n) + [] == Head(c) + Decimal.Itoa(n);
  }

  // ------------------------------------------------------------ the tokens of the text

  const PATH: Bytes := "path"
  const STARTED_AT: Bytes := "started_at"
  const ROUTE: Bytes := "route"

  /** The column a condition starts with. */
  function Subject(c: Condition): Bytes {
    match c
    case Equals(column) => ColumnName(column)
    case PathLike => PATH
    case NotAuditAdmin => ROUTE
    case _ => STARTED_AT
  }

  function Comparison(c: Condition): Bytes
    requires !c.PathLike? && !c.NotAuditAdmin?
  {
    match c
    case Equals(_) => "="
    case StartedSince => ">="
    case StartedBefore => "<"
  }

  /** The tokens of a condition with placeholder `n`. */
  function Tokens(c: Condition, n: nat): seq<Token> {
    match c
    case PathLike => [Word(PATH), ILIKE, Quoted("%"), Symbol("||"), Param(n), Symbol("||"), Quoted("%")]
    case NotAuditAdmin => [OPEN, Word(ROUTE), IS, NULL, OR, Word(ROUTE), Symbol("<>"), Param(n), CLOSE]
    case _ => [Word(Subject(c)), Symbol(Comparison(c)), Param(n)]
  }

  predicate IsWord(w: Bytes) {
    w != [] && IsLetter(w[0]) && forall i :: 0 <= i < |w| ==> IsWordByte(w[i])
  }

  lemma RunOf(front: Bytes, rest: Bytes, in_: Byte -> bool)
    requires (forall i :: 0 <= i < |front| ==> in_(front[i])) && (rest == [] || !in_(rest[0]))
    ensures Run(front + rest, in_) == |front|
  {
    var s := front + rest;
    assert rest != [] ==> s[|front|] == rest[0];
    assert forall i :: 0 <= i < |front| ==> s[i] == front[i];
  }

  lemma LexSpace(rest: Bytes)
    ensures Lex([SPACE] + rest) == Lex(rest)
  {
    assert ([SPACE] + rest)[1..] == rest;
  }

  lemma LexWord(w: Bytes, rest: Bytes)
    requires IsWord(w) && (rest == [] || rest[0] == SPACE)
    ensures Lex(w + rest) == Prepend([Word(w)], Lex(rest))
  {
    RunOf(w, rest, IsWordByte);
    assert (w + rest)[..|w|] == w && (w + rest)[|w|..] == rest;
  }

  lemma LexOperator(text: Bytes, rest: Bytes)
    requires text != [] && (forall i :: 0 <= i < |text| ==> IsOperatorByte(text[i])) && (rest == [] || rest[0] == SPACE)
    ensures Lex(text + rest) == Prepend([Symbol(text)], Lex(rest))
  {
    RunOf(text, rest, IsOperatorByte);
    assert (text + rest)[..|text|] == text && (text + rest)[|text|..] == rest;
  }

  lemma LexParam(n: nat, rest: Bytes)
    requires rest == [] || !Decimal.IsDigit(rest[0])
    ensures Lex([DOLLAR] + (Decimal.Itoa(n) + rest)) == Prepend([Param(n)], Lex(rest))
  {
    hide Decimal.Itoa, Decimal.Value;
    var digits := Decimal.Itoa(n);
    var s := [DOLLAR] + (digits + rest);
    assert s[1..] == digits + rest;
    RunOf(digits, rest, Decimal.IsDigit);
    Decimal.AtoiInvertsItoa(n);
    assert s[1..|digits| + 1] == digits && s[|digits| + 1..] == rest;
  }

  lemma LexParenthesis(c: Byte, rest: Bytes)
    requires IsParenthesis(c)
    ensures Lex([c] + rest) == Prepend([Symbol([c])], Lex(rest))
  {
    assert ([c] + rest)[1..] == rest && ([c] + rest)[..1] == [c];
  }

  const PERCENT_LITERAL: Bytes := "'%'"

  lemma LexPercent(rest: Bytes)
    requires rest == [] || rest[0] == SPACE
    ensures Lex(PERCENT_LITERAL + rest) == Prepend([Quoted("%")], Lex(rest))
  {
    var s := PERCENT_LITERAL + rest;
    assert s[0] == QUOTE && s[1] == '%' && s[2] == QUOTE && s[3..] == rest;
    var t := s[1..];
    assert t[1..][0] == QUOTE && (|t[1..]| > 1 ==> t[1..][1] == SPACE);
    assert Unquote(t[1..]) == Some(([], 1));
    var content: Bytes := "%";
    assert ['%'] + [] == content;
    assert Unquote(t) == Some((content, 2));
  }

  lemma PrependTwice(a: seq<Token>, b: seq<Token>, more: Option<seq<Token>>)
    ensures Prepend(a, Prepend(b, more)) == Prepend(a + b, more)
  {
    assert more.Some? ==> a + (b + more.value) == a + b + more.value;
  }

  /** A word and the space behind it. */
  lemma LexWordThen(w: Bytes, rest: Bytes)
    requires IsWord(w)
    ensures Lex(w + [SPACE] + rest) == Prepend([Word(w)], Lex(rest))
  {
    assert w + [SPACE] + rest == w + ([SPACE] + rest);
    LexWord(w, [SPACE] + rest);
    LexSpace(rest);
  }

  lemma LexOperatorThen(text: Bytes, rest: Bytes)
    requires text != [] && forall i :: 0 <= i < |text| ==> IsOperatorByte(text[i])
    ensures Lex(text + [SPACE] + rest) == Prepend([Symbol(text)], Lex(rest))
  {
    assert text + [SPACE] + rest == text + ([SPACE] + rest);
    LexOperator(text, [SPACE] + rest);
    LexSpace(rest);
  }

  lemma LexPercentThen(rest: Bytes)
    ensures Lex(PERCENT_LITERAL + [SPACE] + rest) == Prepend([Quoted("%")], Lex(rest))
  {
    assert PERCENT_LITERAL + [SPACE] + rest == PERCENT_LITERAL + ([SPACE] + rest);
    LexPercent([SPACE] + rest);
    LexSpace(rest);
  }

  lemma SubjectIsWord(c: Condition)
    ensures IsWord(Subject(c))
  {
  }

  lemma ComparisonPieces(c: Condition)
    requires !c.PathLike? && !c.NotAuditAdmin?
    ensures Head(c) == Subject(c) + [SPACE] + (Comparison(c) + [SPACE] + [DOLLAR]) && Tail(c) == []
    ensures Comparison(c) != [] && forall i :: 0 <= i < |Comparison(c)| ==> IsOperatorByte(Comparison(c)[i])
  {
  }

  lemma LexComparison(c: Condition, n: nat, rest: Bytes)
    requires !c.PathLike? && !c.NotAuditAdmin? && (rest == [] || rest[0] == SPACE)
    ensures Lex(Head(c) + Decimal.Itoa(n) + Tail(c) + rest) == Prepend(Tokens(c, n), Lex(rest))
  {
    hide Lex, Head, Tail, Subject, Comparison, Decimal.Itoa, IsWord;
    ComparisonPieces(c);
    SubjectIsWord(c);
    var (subject, comparison) := (Subject(c), Comparison(c));
    var number := [DOLLAR] + (Decimal.Itoa(n) + rest);
    assert Head(c) + Decimal.Itoa(n) + Tail(c) + rest == subject + [SPACE] + (comparison + [SPACE] + number);
    LexWordThen(subject, comparison + [SPACE] + number);
    LexOperatorThen(comparison, number);
    LexParam(n, rest);
    PrependTwice([Symbol(comparison)], [Param(n)], Lex(rest));
    PrependTwice([Word(subject)], [Symbol(comparison), Param(n)], Lex(rest));
    assert [Symbol(comparison)] + [Param(n)] == [Symbol(comparison), Param(n)];
    assert [Word(subject)] + [Symbol(comparison), Param(n)] == Tokens(c, n);
  }

  const CONCATENATION: Bytes := "||"
  const DIFFERENCE: Bytes := "<>"

  lemma PathTextPieces()
    ensures Head(PathLike) == PATH + [SPACE] +
        (ILIKE.name + [SPACE] + (PERCENT_LITERAL + [SPACE] + (CONCATENATION + [SPACE] + [DOLLAR])))
    ensures Tail(PathLike) == [SPACE] + (CONCATENATION + [SPACE] + PERCENT_LITERAL)
    ensures IsWord(PATH) && IsWord(ILIKE.name)
    ensures CONCATENATION != [] && forall i :: 0 <= i < |CONCATENATION| ==> IsOperatorByte(CONCATENATION[i])
  {
  }

  /** `|| '%'`, behind the number. */
  lemma LexPathTail(rest: Bytes)
    requires rest == [] || rest[0] == SPACE
    ensures Lex(Tail(PathLike) + rest) == Prepend([Symbol("||"), Quoted("%")], Lex(rest))
  {
    hide Lex, Tail, PERCENT_LITERAL;
    PathTextPieces();
    assert Tail(PathLike) + rest == [SPACE] + (CONCATENATION + [SPACE] + (PERCENT_LITERAL + rest));
    LexSpace(CONCATENATION + [SPACE] + (PERCENT_LITERAL + rest));
    LexOperatorThen(CONCATENATION, PERCENT_LITERAL + rest);
    LexPercent(rest);
    PrependTwice([Symbol("||")], [Quoted("%")], Lex(rest));
    assert [Symbol("||")] + [Quoted("%")] == [Symbol("||"), Quoted("%")];
  }

  /** `path ilike '%' ||`, before it. */
  lemma LexPathHead(rest: Bytes)
    ensures Lex(Head(PathLike) + rest) == Prepend([Word(PATH), ILIKE, Quoted("%"), Symbol("||")], Lex([DOLLAR] + rest))
  {
    hide Lex, Head, PERCENT_LITERAL, IsWord;
    PathTextPieces();
    var number := [DOLLAR] + rest;
    var operator := CONCATENATION + [SPACE] + number;
    var literal := PERCENT_LITERAL + [SPACE] + operator;
    assert Head(PathLike) + rest == PATH + [SPACE] + (ILIKE.name + [SPACE] + literal);
    LexWordThen(PATH, ILIKE.name + [SPACE] + literal);
    LexWordThen(ILIKE.name, literal);
    LexPercentThen(operator);
    LexOperatorThen(CONCATENATION, number);
    PrependTwice([Quoted("%")], [Symbol("||")], Lex(number));
    PrependTwice([ILIKE], [Quoted("%")] + [Symbol("||")], Lex(number));
    PrependTwice([Word(PATH)], [ILIKE] + ([Quoted("%")] + [Symbol("||")]), Lex(number));
    assert [Word(PATH)] + ([ILIKE] + ([Quoted("%")] + [Symbol("||")])) ==
        [Word(PATH), ILIKE, Quoted("%"), Symbol("||")];
  }

  lemma LexPath(n: nat, rest: Bytes)
    requires rest == [] || rest[0] == SPACE
    ensures Lex(Head(PathLike) + Decimal.Itoa(n) + Tail(PathLike) + rest) == Prepend(Tokens(PathLike, n), Lex(rest))
  {
    hide Lex, Head, Decimal.Itoa;
    var behind := Tail(PathLike) + rest;
    assert Head(PathLike) + Decimal.Itoa(n) + Tail(PathLike) + rest == Head(PathLike) + (Decimal.Itoa(n) + behind);
    LexPathHead(Decimal.Itoa(n) + behind);
    LexParam(n, behind);
    LexPathTail(rest);
    var head := [Word(PATH), ILIKE, Quoted("%"), Symbol("||")];
    PrependTwice([Param(n)], [Symbol("||"), Quoted("%")], Lex(rest));
    PrependTwice(head, [Param(n)] + [Symbol("||"), Quoted("%")], Lex(rest));
    assert head + ([Param(n)] + [Symbol("||"), Quoted("%")]) == Tokens(PathLike, n);
  }

  lemma RouteTextPieces()
    ensures Head(NotAuditAdmin)
            == ['('] + (ROUTE + [SPACE] + (IS.name + [SPACE] +
                (NULL.name + [SPACE] + (OR.name + [SPACE] + (ROUTE + [SPACE] + (DIFFERENCE + [SPACE] + [DOLLAR]))))))
    ensures Tail(NotAuditAdmin) == [')']
    ensures IsWord(ROUTE) && IsWord(IS.name) && IsWord(NULL.name) && IsWord(OR.name)
    ensures DIFFERENCE != [] && forall i :: 0 <= i < |DIFFERENCE| ==> IsOperatorByte(DIFFERENCE[i])
  {
  }

  lemma LexRoute(n: nat, rest: Bytes)
    ensures Lex(Head(NotAuditAdmin) + Decimal.Itoa(n) + Tail(NotAuditAdmin) + rest) ==
        Prepend(Tokens(NotAuditAdmin, n), Lex(rest))
  {
    hide Lex, Head, Tail, Decimal.Itoa, IsWord;
    RouteTextPieces();
    var number := [DOLLAR] + (Decimal.Itoa(n) + ([')'] + rest));
    var test := ROUTE + [SPACE] + (DIFFERENCE + [SPACE] + number);
    var words := ROUTE + [SPACE] + (IS.name + [SPACE] + (NULL.name + [SPACE] + (OR.name + [SPACE] + test)));
    assert Head(NotAuditAdmin) + Decimal.Itoa(n) + Tail(NotAuditAdmin) + rest == ['('] + words;
    LexParenthesis('(', words);
    LexRouteWords(test);
    LexWordThen(ROUTE, DIFFERENCE + [SPACE] + number);
    LexOperatorThen(DIFFERENCE, number);
    LexParam(n, [')'] + rest);
    LexParenthesis(')', rest);
    var words_ := [Word(ROUTE), IS, NULL, OR];
    PrependTwice([Param(n)], [CLOSE], Lex(rest));
    PrependTwice([Symbol("<>")], [Param(n)] + [CLOSE], Lex(rest));
    PrependTwice([Word(ROUTE)], [Symbol("<>")] + ([Param(n)] + [CLOSE]), Lex(rest));
    var test_ := [Word(ROUTE)] + ([Symbol("<>")] + ([Param(n)] + [CLOSE]));
    PrependTwice(words_, test_, Lex(rest));
    PrependTwice([OPEN], words_ + test_, Lex(rest));
    assert [OPEN] + (words_ + test_) == Tokens(NotAuditAdmin, n);
  }

  /** `route is null or`. */
  lemma LexRouteWords(rest: Bytes)
    ensures Lex(ROUTE + [SPACE] + (IS.name + [SPACE] + (NULL.name + [SPACE] + (OR.name + [SPACE] + rest))))
            == Prepend([Word(ROUTE), IS, NULL, OR], Lex(rest))
  {
    hide Lex, IsWord;
    RouteTextPieces();
    var or_ := OR.name + [SPACE] + rest;
    var null_ := NULL.name + [SPACE] + or_;
    LexWordThen(ROUTE, IS.name + [SPACE] + null_);
    LexWordThen(IS.name, null_);
    LexWordThen(NULL.name, or_);
    LexWordThen(OR.name, rest);
    PrependTwice([NULL], [OR], Lex(rest));
    PrependTwice([IS], [NULL] + [OR], Lex(rest));
    PrependTwice([Word(ROUTE)], [IS] + ([NULL] + [OR]), Lex(rest));
    assert [Word(ROUTE)] + ([IS] + ([NULL] + [OR])) == [Word(ROUTE), IS, NULL, OR];
  }

  /** A formatted condition is read token by token, whatever follows it behind a space. */
  lemma LexCondition(c: Condition, n: nat, rest: Bytes)
    requires rest == [] || rest[0] == SPACE
    ensures Lex(Sprintf(Template(c), n) + rest) == Prepend(Tokens(c, n), Lex(rest))
  {
    hide Lex, Template, Sprintf, Head, Tail, Decimal.Itoa, Tokens;
    FormatPass(c, n);
    match c
    case PathLike => LexPath(n, rest);
    case NotAuditAdmin => LexRoute(n, rest);
    case _ => LexComparison(c, n, rest);
  }

  /** Everything behind the first condition. */
  function AndTokens(terms: seq<Term>, from: nat): seq<Token> {
    if terms == [] then [] else [AND] + Tokens(terms[0].condition, from) + AndTokens(terms[1..], from + 1)
  }

  function AndText(terms: seq<Term>, from: nat): Bytes {
    if terms == [] then []
    else SEPARATOR + (Sprintf(Template(terms[0].condition), from) + AndText(terms[1..], from + 1))
  }

  lemma {:induction false} LexAnd(terms: seq<Term>, from: nat)
    ensures Lex(AndText(terms, from)) == Some(AndTokens(terms, from))
    ensures AndText(terms, from) == [] || AndText(terms, from)[0] == SPACE
    decreases |terms|
  {
    hide Lex, Sprintf, Template, Tokens, IsWord;
    if terms == [] {
      assert Lex([]) == Some([]) by {
        LexNothing();
      }
    } else {
      var more, rest := AndText(terms[1..], from + 1), AndTokens(terms[1..], from + 1);
      var condition := Sprintf(Template(terms[0].condition), from) + more;
      LexAnd(terms[1..], from + 1);
      LexCondition(terms[0].condition, from, more);
      SeparatorPieces();
      assert SEPARATOR + condition == [SPACE] + (AND.name + [SPACE] + condition);
      LexSpace(AND.name + [SPACE] + condition);
      LexWordThen(AND.name, condition);
      assert [AND] + (Tokens(terms[0].condition, from) + rest) == [AND] + Tokens(terms[0].condition, from) + rest;
    }
  }

  lemma LexNothing()
    ensures Lex([]) == Some([])
  {
  }

  lemma SeparatorPieces()
    ensures SEPARATOR == [SPACE] + (AND.name + [SPACE]) && IsWord(AND.name)
    ensures WHERE == WHERE_WORD + [SPACE] && IsWord(WHERE_WORD)
  {
  }

  const WHERE_WORD: Bytes := "where"

  function TextsFrom(terms: seq<Term>, from: nat): seq<Bytes> {
    seq(|terms|, i requires 0 <= i < |terms| => Sprintf(Template(terms[i].condition), from + i))
  }

  lemma {:induction false} JoinedText(terms: seq<Term>, from: nat)
    requires terms != []
    ensures Join(TextsFrom(terms, from), SEPARATOR) ==
        Sprintf(Template(terms[0].condition), from) + AndText(terms[1..], from + 1)
    decreases |terms|
  {
    hide Sprintf, Template;
    var texts := TextsFrom(terms, from);
    if |terms| == 1 {
      assert texts[0] + [] == texts[0];
    } else {
      assert texts[1..] == TextsFrom(terms[1..], from + 1);
      JoinedText(terms[1..], from + 1);
      var (first, second, more) := (texts[0], texts[1], AndText(terms[2..], from + 2));
      assert terms[1..][1..] == terms[2..];
      assert first + SEPARATOR + (second + more) == first + (SEPARATOR + (second + more));
    }
  }

  /** The tokens of a whole clause: the k-th condition on placeholder k, for every combination of filters. */
  lemma LexClause(terms: seq<Term>)
    requires terms != []
    ensures Lex(ClauseText(terms)) == Some([Word(WHERE_WORD)] + Tokens(terms[0].condition, 1) +
        AndTokens(terms[1..], 2))
  {
    hide Lex, Sprintf, Template, Tokens, Join, IsWord;
    assert Texts(terms) == TextsFrom(terms, 1);
    JoinedText(terms, 1);
    var more := AndText(terms[1..], 2);
    var text := Sprintf(Template(terms[0].condition), 1) + more;
    LexAnd(terms[1..], 2);
    LexCondition(terms[0].condition, 1, more);
    SeparatorPieces();
    assert ClauseText(terms) == WHERE_WORD + [SPACE] + text;
    LexWordThen(WHERE_WORD, text);
    var first, rest := Tokens(terms[0].condition, 1), AndTokens(terms[1..], 2);
    assert [Word(WHERE_WORD)] + (first + rest) == [Word(WHERE_WORD)] + first + rest;
  }

  // ------------------------------------------------------------ the expression the tokens are read as

  function Meaning(c: Condition, n: nat): Expr {
    match c
    case PathLike =>
      Binary(ILike, ColumnRef(PATH),
             Binary(Concatenated, Binary(Concatenated, Literal("%"), Placeholder(n)), Literal("%")))
    case NotAuditAdmin =>
      Binary(Or, IsNull(ColumnRef(ROUTE)), Binary(Different, ColumnRef(ROUTE), Placeholder(n)))
    case _ => Binary(OperatorOf(Symbol(Comparison(c))).value, ColumnRef(Subject(c)), Placeholder(n))
  }

  /** What may follow a condition: nothing, or another one. */
  predicate Follows(rest: seq<Token>) {
    rest == [] || rest[0] == AND
  }

  lemma Powers()
    ensures Power(AND) == 2 && Power(OR) == 1 && Power(IS) == IS_BINDING && Power(ILIKE) == 6
    ensures Power(Symbol("||")) == 7 && Power(Symbol("<>")) == 5 && Power(CLOSE) == 0
    ensures OperatorOf(ILIKE) == Some(ILike) && OperatorOf(Symbol("||")) == Some(Concatenated)
    ensures OperatorOf(Symbol("<>")) == Some(Different) && OperatorOf(OR) == Some(Or) && OperatorOf(AND) == Some(And)
    ensures AND != IS && OR != IS && ILIKE != IS
  {
  }

  lemma ComparisonPower(c: Condition)
    requires !c.PathLike? && !c.NotAuditAdmin?
    ensures var operator := OperatorOf(Symbol(Comparison(c)));
            operator.Some? && Binding(operator.value) == 5 && !Chains(operator.value) &&
                Power(Symbol(Comparison(c))) == 5
  {
  }

  lemma SubjectIsColumn(c: Condition, rest: seq<Token>)
    ensures Primary([Word(Subject(c))] + rest) == Some((ColumnRef(Subject(c)), rest))
  {
    assert ([Word(Subject(c))] + rest)[1..] == rest;
  }

  lemma ParamIsPlaceholder(n: nat, rest: seq<Token>)
    ensures Primary([Param(n)] + rest) == Some((Placeholder(n), rest))
  {
    assert ([Param(n)] + rest)[1..] == rest;
  }

  /** Reading stops before a token that binds less tightly, or not at all. */
  lemma ContinueStops(left: Expr, rest: seq<Token>, power: nat)
    requires rest == [] || Power(rest[0]) == 0 || Power(rest[0]) < power
    ensures Continue(left, rest, power) == Some((left, rest))
  {
  }

  /**
   * Reading goes on over an operator that binds tightly enough and its right operand, when something weaker follows
   * that.
   */
  lemma ContinueOver(left: Expr, token: Token, tokens: seq<Token>, right: Expr, rest: seq<Token>, power: nat)
    requires token != IS && OperatorOf(token).Some? && power <= Power(token)
    requires Parse(tokens, Power(token) + 1) == Some((right, rest))
    requires Chains(OperatorOf(token).value) || rest == [] || Power(rest[0]) != Power(token)
    ensures Continue(left, [token] + tokens, power) ==
        Continue(Binary(OperatorOf(token).value, left, right), rest, power)
  {
    hide Parse, OperatorOf;
    assert ([token] + tokens)[1..] == tokens;
    assert Power(token) > 0;
  }

  /** A placeholder is read as such before whatever binds less tightly. */
  lemma ParseParam(n: nat, rest: seq<Token>, power: nat)
    requires rest == [] || Power(rest[0]) == 0 || Power(rest[0]) < power
    ensures Parse([Param(n)] + rest, power) == Some((Placeholder(n), rest))
  {
    hide Primary, Continue;
    ParamIsPlaceholder(n, rest);
    ContinueStops(Placeholder(n), rest, power);
  }

  lemma ParseComparison(c: Condition, n: nat, rest: seq<Token>, power: nat)
    requires !c.PathLike? && !c.NotAuditAdmin? && power <= 3 && Follows(rest)
    ensures Parse(Tokens(c, n) + rest, power) == Continue(Meaning(c, n), rest, power)
  {
    hide Primary, Continue, Subject, Comparison, OperatorOf, Power;
    Powers();
    ComparisonPower(c);
    var operator := Symbol(Comparison(c));
    assert Tokens(c, n) + rest == [Word(Subject(c))] + ([operator] + ([Param(n)] + rest));
    SubjectIsColumn(c, [operator] + ([Param(n)] + rest));
    ParseParam(n, rest, 6);
    ContinueOver(ColumnRef(Subject(c)), operator, [Param(n)] + rest, Placeholder(n), rest, power);
  }

  lemma LiteralIsRead(rest: seq<Token>)
    ensures Primary([Quoted("%")] + rest) == Some((Literal("%"), rest))
  {
    assert ([Quoted("%")] + rest)[1..] == rest;
  }

  /** `'%' || $n || '%'` is one operand of `ilike`. */
  lemma ParsePattern(n: nat, rest: seq<Token>)
    requires Follows(rest)
    ensures Parse([Quoted("%"), Symbol("||"), Param(n), Symbol("||"), Quoted("%")] + rest, 7)
            == Some((Binary(Concatenated, Binary(Concatenated, Literal("%"), Placeholder(n)), Literal("%")), rest))
  {
    hide Primary, Continue, OperatorOf, Power;
    Powers();
    var cat := Symbol("||");
    var last := [Quoted("%")] + rest;
    var number := [Param(n)] + ([cat] + last);
    assert [Quoted("%"), cat, Param(n), cat, Quoted("%")] + rest == [Quoted("%")] + ([cat] + number);
    LiteralIsRead([cat] + number);
    ParseParam(n, [cat] + last, 8);
    var first := Binary(Concatenated, Literal("%"), Placeholder(n));
    ContinueOver(Literal("%"), cat, number, Placeholder(n), [cat] + last, 7);
    LiteralIsRead(rest);
    ContinueStops(Literal("%"), rest, 8);
    ContinueOver(first, cat, last, Literal("%"), rest, 7);
    ContinueStops(Binary(Concatenated, first, Literal("%")), rest, 7);
  }

  lemma ParsePath(n: nat, rest: seq<Token>, power: nat)
    requires power <= 3 && Follows(rest)
    ensures Parse(Tokens(PathLike, n) + rest, power) == Continue(Meaning(PathLike, n), rest, power)
  {
    hide Primary, Continue, OperatorOf, Power;
    Powers();
    var pattern := [Quoted("%"), Symbol("||"), Param(n), Symbol("||"), Quoted("%")] + rest;
    assert Tokens(PathLike, n) + rest == [Word(PATH)] + ([ILIKE] + pattern);
    SubjectIsColumn(PathLike, [ILIKE] + pattern);
    ParsePattern(n, rest);
    var right := Binary(Concatenated, Binary(Concatenated, Literal("%"), Placeholder(n)), Literal("%"));
    hide Parse;
    ParseByPrimary([Word(PATH)] + ([ILIKE] + pattern), power, ColumnRef(PATH), [ILIKE] + pattern);
    ContinueOver(ColumnRef(PATH), ILIKE, pattern, right, rest, power);
  }

  lemma ParseByPrimary(tokens: seq<Token>, power: nat, left: Expr, rest: seq<Token>)
    requires Primary(tokens) == Some((left, rest))
    ensures Parse(tokens, power) == Continue(left, rest, power)
  {
  }

  /** `route <> $n`, up to the closing parenthesis. */
  lemma ParseRouteTest(n: nat, rest: seq<Token>)
    ensures Parse([Word(ROUTE), Symbol("<>"), Param(n), CLOSE] + rest, 2)
            == Some((Binary(Different, ColumnRef(ROUTE), Placeholder(n)), [CLOSE] + rest))
  {
    hide Primary, Continue, OperatorOf, Power;
    Powers();
    var behind := [CLOSE] + rest;
    var number := [Param(n)] + behind;
    var tokens := [Word(ROUTE)] + ([Symbol("<>")] + number);
    assert [Word(ROUTE), Symbol("<>"), Param(n), CLOSE] + rest == tokens;
    SubjectIsColumn(NotAuditAdmin, [Symbol("<>")] + number);
    ParseParam(n, behind, 6);
    ContinueOver(ColumnRef(ROUTE), Symbol("<>"), number, Placeholder(n), behind, 2);
    ContinueStops(Binary(Different, ColumnRef(ROUTE), Placeholder(n)), behind, 2);
  }

  lemma ContinueIsNull(left: Expr, rest: seq<Token>, power: nat)
    requires power <= IS_BINDING
    ensures Continue(left, [IS, NULL] + rest, power) == Continue(IsNull(left), rest, power)
  {
    Powers();
    assert ([IS, NULL] + rest)[2..] == rest;
  }

  /** What stands between the parentheses. */
  lemma ParseRouteTests(n: nat, rest: seq<Token>)
    ensures Parse([Word(ROUTE), IS, NULL, OR, Word(ROUTE), Symbol("<>"), Param(n), CLOSE] + rest, LOOSEST)
            == Some((Meaning(NotAuditAdmin, n), [CLOSE] + rest))
  {
    hide Primary, Continue, Parse, OperatorOf, Power;
    Powers();
    var test := [Word(ROUTE), Symbol("<>"), Param(n), CLOSE] + rest;
    var right := Binary(Different, ColumnRef(ROUTE), Placeholder(n));
    var tokens := [Word(ROUTE)] + ([IS, NULL] + ([OR] + test));
    assert [Word(ROUTE), IS, NULL, OR, Word(ROUTE), Symbol("<>"), Param(n), CLOSE] + rest == tokens;
    SubjectIsColumn(NotAuditAdmin, [IS, NULL] + ([OR] + test));
    ParseByPrimary(tokens, LOOSEST, ColumnRef(ROUTE), [IS, NULL] + ([OR] + test));
    ContinueIsNull(ColumnRef(ROUTE), [OR] + test, LOOSEST);
    ParseRouteTest(n, rest);
    ContinueOver(IsNull(ColumnRef(ROUTE)), OR, test, right, [CLOSE] + rest, LOOSEST);
    ContinueStops(Binary(Or, IsNull(ColumnRef(ROUTE)), right), [CLOSE] + rest, LOOSEST);
  }

  lemma ParseRoute(n: nat, rest: seq<Token>, power: nat)
    ensures Parse(Tokens(NotAuditAdmin, n) + rest, power) == Continue(Meaning(NotAuditAdmin, n), rest, power)
  {
    hide Continue, Parse;
    var inner := [Word(ROUTE), IS, NULL, OR, Word(ROUTE), Symbol("<>"), Param(n), CLOSE] + rest;
    var tokens := Tokens(NotAuditAdmin, n) + rest;
    assert tokens == [OPEN] + inner && tokens[1..] == inner;
    ParseRouteTests(n, rest);
    assert ([CLOSE] + rest)[1..] == rest;
    ParseByPrimary(tokens, power, Meaning(NotAuditAdmin, n), rest);
  }

  lemma ParseCondition(c: Condition, n: nat, rest: seq<Token>, power: nat)
    requires power <= 3 && Follows(rest)
    ensures Parse(Tokens(c, n) + rest, power) == Continue(Meaning(c, n), rest, power)
  {
    hide Parse, Continue, Tokens, Meaning;
    match c
    case PathLike => ParsePath(n, rest, power);
    case NotAuditAdmin => ParseRoute(n, rest, power);
    case _ => ParseComparison(c, n, rest, power);
  }

  /** Without its parentheses the test of the route would swallow the condition behind it into its right half. */
  lemma ParenthesesMatter(n: nat, c: Condition, m: nat)
    ensures Parse([Word(ROUTE), IS, NULL, OR, Word(ROUTE), Symbol("<>"), Param(n), AND] + Tokens(c, m), LOOSEST)
            == Some((Binary(Or, IsNull(ColumnRef(ROUTE)),
                            Binary(And, Binary(Different, ColumnRef(ROUTE), Placeholder(n)), Meaning(c, m))), []))
  {
    hide Primary, Continue, Parse, OperatorOf, Power, Tokens, Meaning;
    Powers();
    var more := Tokens(c, m);
    var number := [Param(n)] + ([AND] + more);
    var test := [Word(ROUTE)] + ([Symbol("<>")] + number);
    var tokens := [Word(ROUTE)] + ([IS, NULL] + ([OR] + test));
    assert [Word(ROUTE), IS, NULL, OR, Word(ROUTE), Symbol("<>"), Param(n), AND] + more == tokens;
    assert more + [] == more;
    ParseCondition(c, m, [], 3);
    ContinueStops(Meaning(c, m), [], 3);
    SubjectIsColumn(NotAuditAdmin, [Symbol("<>")] + number);
    ParseByPrimary(test, 2, ColumnRef(ROUTE), [Symbol("<>")] + number);
    ParseParam(n, [AND] + more, 6);
    var different := Binary(Different, ColumnRef(ROUTE), Placeholder(n));
    ContinueOver(ColumnRef(ROUTE), Symbol("<>"), number, Placeholder(n), [AND] + more, 2);
    ContinueOver(different, AND, more, Meaning(c, m), [], 2);
    ContinueStops(Binary(And, different, Meaning(c, m)), [], 2);
    SubjectIsColumn(NotAuditAdmin, [IS, NULL] + ([OR] + test));
    ParseByPrimary(tokens, LOOSEST, ColumnRef(ROUTE), [IS, NULL] + ([OR] + test));
    ContinueIsNull(ColumnRef(ROUTE), [OR] + test, LOOSEST);
    ContinueOver(IsNull(ColumnRef(ROUTE)), OR, test, Binary(And, different, Meaning(c, m)), [], LOOSEST);
    ContinueStops(Binary(Or, IsNull(ColumnRef(ROUTE)), Binary(And, different, Meaning(c, m))), [], LOOSEST);
  }

  /** A conjunction, read from the left. */
  function Conjoined(left: Expr, terms: seq<Term>, from: nat): Expr
    decreases |terms|
  {
    if terms == [] then left
    else Conjoined(Binary(And, left, Meaning(terms[0].condition, from)), terms[1..], from + 1)
  }

  lemma {:induction false} ContinueAnd(left: Expr, terms: seq<Term>, from: nat)
    ensures Continue(left, AndTokens(terms, from), LOOSEST) == Some((Conjoined(left, terms, from), []))
    decreases |terms|
  {
    hide Parse, Tokens, Meaning, OperatorOf, Power, Continue;
    Powers();
    if terms == [] {
      ContinueStops(left, [], LOOSEST);
    } else {
      var c, rest := terms[0].condition, AndTokens(terms[1..], from + 1);
      assert Follows(rest);
      assert AndTokens(terms, from) == [AND] + (Tokens(c, from) + rest);
      ParseCondition(c, from, rest, 3);
      ContinueStops(Meaning(c, from), rest, 3);
      ContinueOver(left, AND, Tokens(c, from) + rest, Meaning(c, from), rest, LOOSEST);
      ContinueAnd(Binary(And, left, Meaning(c, from)), terms[1..], from + 1);
    }
  }

  /**
   * What SQL reads in the emitted text, for every combination of filters: the conjunction of the conditions, the k-th
   * on placeholder k. No operator of one condition captures an operand of another.
   */
  lemma ClauseRoundTrip(terms: seq<Term>)
    ensures ReadClause(ClauseText(terms))
            == if terms == [] then Absent else Where(Conjoined(Meaning(terms[0].condition, 1), terms[1..], 2))
  {
    hide Lex, Parse, Tokens, Meaning, AndTokens, Conjoined, ReadClause, ClauseText;
    if terms == [] {
      ClauseOfNone();
    } else {
      LexClause(terms);
      ParseConjunction(terms);
      var first, rest := Tokens(terms[0].condition, 1), AndTokens(terms[1..], 2);
      assert [Word(WHERE_WORD)] + first + rest == [Word(WHERE_WORD)] + (first + rest);
      ReadWhere(ClauseText(terms), first + rest, Conjoined(Meaning(terms[0].condition, 1), terms[1..], 2));
    }
  }

  lemma ReadWhere(text: Bytes, condition: seq<Token>, e: Expr)
    requires Lex(text) == Some([Word(WHERE_WORD)] + condition) && Parse(condition, LOOSEST) == Some((e, []))
    ensures ReadClause(text) == Where(e)
  {
    hide Lex, Parse;
    assert ([Word(WHERE_WORD)] + condition)[1..] == condition;
  }

  lemma ClauseOfNone()
    ensures ReadClause(ClauseText([])) == Absent
  {
    hide Lex, Parse;
    LexNothing();
  }

  lemma ParseConjunction(terms: seq<Term>)
    requires terms != []
    ensures Parse(Tokens(terms[0].condition, 1) + AndTokens(terms[1..], 2), LOOSEST)
            == Some((Conjoined(Meaning(terms[0].condition, 1), terms[1..], 2), []))
  {
    hide Parse, Tokens, Meaning, Continue, Conjoined;
    var c, rest := terms[0].condition, AndTokens(terms[1..], 2);
    assert Follows(rest);
    ParseCondition(c, 1, rest, LOOSEST);
    ContinueAnd(Meaning(c, 1), terms[1..], 2);
  }
}
