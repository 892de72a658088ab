/**
 * The part of SQL that conditions are written in: a lexer, a parser that knows how tightly each operator binds, and
 * evaluation in three-valued logic.
 */
module Sql {
  import opened Wrappers
  import opened GoStrings
  import Decimal
  import Ilike

  // ------------------------------------------------------------ tokens

  datatype Token = Word(name: Bytes) | Symbol(text: Bytes) | Param(number: nat) | Quoted(content: Bytes)

  const QUOTE: Byte := '\''
  const DOLLAR: Byte := '$'
  const SPACE: Byte := ' '

  predicate IsLetter(c: Byte) {
    'a' <= c <= 'z' || 'A' <= c <= 'Z' || c == '_'
  }

  predicate IsWordByte(c: Byte) {
    IsLetter(c) || Decimal.IsDigit(c)
  }

  predicate IsOperatorByte(c: Byte) {
    c == '=' || c == '<' || c == '>' || c == '|' || c == '!' || c == '+' || c == '-' || c == '*' || c == '/' ||
        c == '%' || c == '~'
  }

  predicate IsParenthesis(c: Byte) {
    c == '(' || c == ')'
  }

  /** How many bytes at the front of `s` are in a class. */
  function Run(s: Bytes, in_: Byte -> bool): (n: nat)
    ensures n <= |s| && forall i :: 0 <= i < n ==> in_(s[i])
    ensures n < |s| ==> !in_(s[n])
  {
    if s == [] || !in_(s[0]) then 0 else 1 + Run(s[1..], in_)
  }

  /** The content of a literal whose opening quote has been read, and where it ends; a doubled quote stands for one. */
  function Unquote(s: Bytes): (r: Option<(Bytes, nat)>)
    ensures r.Some? ==> 0 < r.value.1 <= |s|
  {
    if s == [] then None
    else if s[0] != QUOTE then
      match Unquote(s[1..])
      case None => None
      case Some((content, n)) => Some(([s[0]] + content, n + 1))
    else if |s| > 1 && s[1] == QUOTE then
      match Unquote(s[2..])
      case None => None
      case Some((content, n)) => Some(([QUOTE] + content, n + 2))
    else Some(([], 1))
  }

  /** The token `s` starts with, and its length: always the longest one. */
  function FirstToken(s: Bytes): (r: Option<(Token, nat)>)
    requires s != []
    ensures r.Some? ==> 0 < r.value.1 <= |s|
  {
    if IsLetter(s[0]) then
      var n := Run(s, IsWordByte);
      Some((Word(s[..n]), n))
    else if s[0] == DOLLAR then
      var n := Run(s[1..], Decimal.IsDigit);
      if n == 0 then None else Some((Param(Decimal.Value(s[1..n + 1])), n + 1))
    else if s[0] == QUOTE then
      match Unquote(s[1..])
      case None => None
      case Some((content, n)) => Some((Quoted(content), n + 1))
    else if IsParenthesis(s[0]) then Some((Symbol(s[..1]), 1))
    else if IsOperatorByte(s[0]) then
      var n := Run(s, IsOperatorByte);
      Some((Symbol(s[..n]), n))
    else None
  }

  function Prepend(tokens: seq<Token>, more: Option<seq<Token>>): Option<seq<Token>> {
    if more.Some? then Some(tokens + more.value) else None
  }

  function Lex(s: Bytes): Option<seq<Token>>
    decreases |s|
  {
    if s == [] then Some([])
    else if s[0] == SPACE then Lex(s[1..])
    else
      match FirstToken(s)
      case None => None
      case Some((token, n)) => Prepend([token], Lex(s[n..]))
  }

  // ------------------------------------------------------------ expressions

  datatype Operator = Or | And | Equal | Different | Less | AtMost | Greater | AtLeast | ILike | Concatenated

  datatype Expr =
    | ColumnRef(name: Bytes)
    | Literal(text: Bytes)
    | Placeholder(number: nat)
    | IsNull(operand: Expr)
    | Binary(operator: Operator, left: Expr, right: Expr)

  const OR := Word("or")
  const AND := Word("and")
  const IS := Word("is")
  const NULL := Word("null")
  const ILIKE := Word("ilike")
  const OPEN := Symbol("(")
  const CLOSE := Symbol(")")

  predicate IsKeyword(token: Token) {
    token == OR || token == AND || token == IS || token == NULL || token == ILIKE || token == Word("not") ||
        token == Word("where")
  }

  function OperatorOf(token: Token): Option<Operator> {
    if token == OR then Some(Or)
    else if token == AND then Some(And)
    else if token == Symbol("=") then Some(Equal)
    else if token == Symbol("<>") then Some(Different)
    else if token == Symbol("<") then Some(Less)
    else if token == Symbol("<=") then Some(AtMost)
    else if token == Symbol(">") then Some(Greater)
    else if token == Symbol(">=") then Some(AtLeast)
    else if token == ILIKE then Some(ILike)
    else if token == Symbol("||") then Some(Concatenated)
    else None
  }

  /**
   * How tightly an operator binds, as the manual of Postgres has it; between `and` and `is` comes `not`, which is not
   * read.
   */
  function Binding(operator: Operator): nat {
    match operator
    case Or => 1
    case And => 2
    case Equal | Different | Less | AtMost | Greater | AtLeast => 5
    case ILike => 6
    case Concatenated => 7
  }

  const LOOSEST: nat := 1
  const IS_BINDING: nat := 4

  /** How tightly a token binds what stands before it; zero when it is no operator. */
  function Power(token: Token): nat {
    if token == IS then IS_BINDING
    else match OperatorOf(token) case Some(operator) => Binding(operator) case None => 0
  }

  predicate Chains(operator: Operator) {
    operator == Or || operator == And || operator == Concatenated
  }

  /**
   * Reads an expression all of whose outer operators bind at least as tightly as `power`, and returns what follows
   * it.
   */
  function Parse(tokens: seq<Token>, power: nat): (r: Option<(Expr, seq<Token>)>)
    ensures r.Some? ==> |r.value.1| < |tokens|
    decreases |tokens|, 2
  {
    match Primary(tokens)
    case None => None
    case Some((left, rest)) => Continue(left, rest, power)
  }

  function Primary(tokens: seq<Token>): (r: Option<(Expr, seq<Token>)>)
    ensures r.Some? ==> |r.value.1| < |tokens|
    decreases |tokens|, 1
  {
    if tokens == [] then None else
      match tokens[0]
      case Word(name) => if IsKeyword(tokens[0]) then None else Some((ColumnRef(name), tokens[1..]))
      case Param(number) => Some((Placeholder(number), tokens[1..]))
      case Quoted(content) => Some((Literal(content), tokens[1..]))
      case Symbol(_) =>
        if tokens[0] != OPEN then None else
          match Parse(tokens[1..], LOOSEST)
          case None => None
          case Some((inner, rest)) => if rest != [] && rest[0] == CLOSE then Some((inner, rest[1..])) else None
  }

  /** Goes on behind `left` for as long as operators bind tightly enough. A comparison is not followed by another. */
  function Continue(left: Expr, tokens: seq<Token>, power: nat): (r: Option<(Expr, seq<Token>)>)
    ensures r.Some? ==> |r.value.1| <= |tokens|
    decreases |tokens|, 0
  {
    if tokens == [] || Power(tokens[0]) == 0 || Power(tokens[0]) < power then Some((left, tokens))
    else if tokens[0] == IS then
      if |tokens| > 1 && tokens[1] == NULL then Continue(IsNull(left), tokens[2..], power) else None
    else
      var operator := OperatorOf(tokens[0]).value;
      match Parse(tokens[1..], Binding(operator) + 1)
      case None => None
      case Some((right, rest)) =>
        if rest != [] && !Chains(operator) && Power(rest[0]) == Binding(operator) then None
        else Continue(Binary(operator, left, right), rest, power)
  }

  /** A condition clause: absent, a condition, or not SQL of this kind at all. */
  datatype Clause = Malformed | Absent | Where(condition: Expr)

  function ReadClause(text: Bytes): Clause {
    match Lex(text)
    case None => Malformed
    case Some(tokens) =>
      if tokens == [] then Absent
      else if tokens[0] != Word("where") then Malformed
      else
        match Parse(tokens[1..], LOOSEST)
        case None => Malformed
        case Some((condition, rest)) => if rest == [] then Where(condition) else Malformed
  }

  // ------------------------------------------------------------ evaluation

  /** Ids, statuses and times are numbers here; only equality and order matter. */
  datatype Value = Id(id: nat) | Text(text: Bytes) | Number(number: int) | Time(time: int)

  /** The value of an expression; as a truth value, `Null` is unknown. `Failed` aborts the whole statement. */
  datatype Datum = Null | Bool(truth: bool) | Val(value: Value) | Failed

  predicate IsTruth(d: Datum) {
    d.Null? || d.Bool?
  }

  function Conjunction(a: Datum, b: Datum): Datum {
    if !IsTruth(a) || !IsTruth(b) then Failed
    else if a == Bool(false) || b == Bool(false) then Bool(false)
    else if a.Null? || b.Null? then Null
    else Bool(true)
  }

  function Disjunction(a: Datum, b: Datum): Datum {
    if !IsTruth(a) || !IsTruth(b) then Failed
    else if a == Bool(true) || b == Bool(true) then Bool(true)
    else if a.Null? || b.Null? then Null
    else Bool(false)
  }

  predicate SameType(a: Value, b: Value) {
    a.Id? == b.Id? && a.Text? == b.Text? && a.Number? == b.Number?
  }

  /** Only numbers and times are put in order: the order of texts is a matter of collation. */
  function Before(a: Value, b: Value): Option<bool> {
    match (a, b)
    case (Number(m), Number(n)) => Some(m < n)
    case (Time(s), Time(t)) => Some(s < t)
    case _ => None
  }

  function Compare(operator: Operator, a: Value, b: Value): Datum {
    if !SameType(a, b) then Failed else
      match operator
      case Equal => Bool(a == b)
      case Different => Bool(a != b)
      case Less => if Before(a, b).Some? then Bool(Before(a, b).value) else Failed
      case Greater => if Before(b, a).Some? then Bool(Before(b, a).value) else Failed
      case AtMost => if Before(b, a).Some? then Bool(!Before(b, a).value) else Failed
      case AtLeast => if Before(a, b).Some? then Bool(!Before(a, b).value) else Failed
      case ILike => if a.Text? then Bool(Ilike.Matches(a.text, b.text)) else Failed
      case Concatenated => if a.Text? then Val(Text(a.text + b.text)) else Failed
      case _ => Failed
  }

  /** What an operator makes of its operands: a null operand makes the result null, but for the connectives. */
  function Apply(operator: Operator, a: Datum, b: Datum): Datum {
    if operator == Or then Disjunction(a, b)
    else if operator == And then Conjunction(a, b)
    else if a.Failed? || b.Failed? || a.Bool? || b.Bool? then Failed
    else if a.Null? || b.Null? then Null
    else Compare(operator, a.value, b.value)
  }

  function Eval(e: Expr, cell: Bytes -> Datum, args: seq<Value>): Datum {
    match e
    case ColumnRef(name) => cell(name)
    case Literal(text) => Val(Text(text))
    case Placeholder(number) => if 1 <= number <= |args| then Val(args[number - 1]) else Failed
    case IsNull(operand) =>
      var d := Eval(operand, cell, args);
      if d.Failed? then Failed else Bool(d.Null?)
    case Binary(operator, left, right) => Apply(operator, Eval(left, cell, args), Eval(right, cell, args))
  }
}
