/** The expression grammar of the C-like language: nine levels of left-associative operators over unary and
    primary expressions, on a token list. */
module Parsing {
  import opened Wrappers
  import opened Ast

  /** Tokens; operators keep the text that the lexer matched. */
  datatype Token =
    | Number(value: nat)
    | Ident(name: string)
    | StrLit(text: string)
    | Keyword(word: string)
    | Op1(sym: char)
    | Op2(pair: string)
    | AssignOp(text: string)
    | Semi | Comma | LParen | RParen | LBrace | RBrace | LBracket | RBracket

  const UNARY := 10
  const PRIMARY := 11

  // ---- Operators and their levels

  function Level(op: BinaryOp): (n: nat)
    ensures 1 <= n <= 9
  {
    match op
    case LogicalOr => 1
    case LogicalAnd => 2
    case BitOr => 3
    case BitXor => 4
    case BitAnd => 5
    case Equal => 6
    case NotEqual => 6
    case Less => 6
    case Greater => 6
    case LessEqual => 6
    case GreaterEqual => 6
    case ShiftLeft => 7
    case ShiftRight => 7
    case Plus => 8
    case Minus => 8
    case Times => 9
    case Divide => 9
    case Modulo => 9
  }

  function Spelling(op: BinaryOp): Token {
    match op
    case LogicalOr => Op2("||")
    case LogicalAnd => Op2("&&")
    case BitOr => Op1('|')
    case BitXor => Op1('^')
    case BitAnd => Op1('&')
    case Equal => Op2("==")
    case NotEqual => Op2("!=")
    case Less => Op1('<')
    case Greater => Op1('>')
    case LessEqual => Op2("<=")
    case GreaterEqual => Op2(">=")
    case ShiftLeft => Op2("<<")
    case ShiftRight => Op2(">>")
    case Plus => Op1('+')
    case Minus => Op1('-')
    case Times => Op1('*')
    case Divide => Op1('/')
    case Modulo => Op1('%')
  }

  /** The binary operator that a token stands for between operands. */
  function Infix(t: Token): (r: Option<BinaryOp>)
    ensures r.Some? ==> Spelling(r.value) == t
    ensures forall op :: Spelling(op) == t ==> r == Some(op)
  {
    match t
    case Op1(c) =>
      if c == '|' then Some(BitOr) else if c == '^' then Some(BitXor) else if c == '&' then Some(BitAnd)
      else if c == '<' then Some(Less) else if c == '>' then Some(Greater)
      else if c == '+' then Some(Plus) else if c == '-' then Some(Minus)
      else if c == '*' then Some(Times) else if c == '/' then Some(Divide) else if c == '%' then Some(Modulo)
      else None
    case Op2(s) =>
      if s == "||" then Some(LogicalOr) else if s == "&&" then Some(LogicalAnd)
      else if s == "==" then Some(Equal) else if s == "!=" then Some(NotEqual)
      else if s == "<=" then Some(LessEqual) else if s == ">=" then Some(GreaterEqual)
      else if s == "<<" then Some(ShiftLeft) else if s == ">>" then Some(ShiftRight)
      else None
    case _ => None
  }

  function Prefix(t: Token): Option<UnaryOp> {
    match t
    case Op1(c) => if c == '-' then Some(Negate) else if c == '~' then Some(Complement) else if c == '!'
        then Some(LogicalNot) else None
    case _ => None
  }

  function PrefixSpelling(op: UnaryOp): Token {
    match op
    case Negate => Op1('-')
    case Complement => Op1('~')
    case LogicalNot => Op1('!')
  }

  /** The next token is a binary operator of this level. */
  predicate Continues(ts: seq<Token>, level: nat) {
    ts != [] && Infix(ts[0]).Some? && Level(Infix(ts[0]).value) == level
  }

  predicate Starts(ts: seq<Token>, t: Token) { ts != [] && ts[0] == t }

  predicate IsTypeWord(t: Token) { t.Keyword? && t.word in ["int", "void", "char", "unsigned"] }

  // ---- The parser: an expression and the tokens behind it, or a syntax error

  type Parsed = Option<(Expr, seq<Token>)>

  function Expect(ts: seq<Token>, t: Token): (r: Option<seq<Token>>)
    ensures r.Some? ==> |r.value| < |ts|
  {
    if Starts(ts, t) then Some(ts[1..]) else None
  }

  /** Level 1 to 9: operands of the next level, joined from the left; level 10: unary. */
  function ParseLevel(level: nat, ts: seq<Token>): (r: Parsed)
    requires 1 <= level <= UNARY
    ensures r.Some? ==> |r.value.1| < |ts|
    decreases |ts|, UNARY - level, 2
  {
    if level == UNARY then ParseUnary(ts)
    else
      var (left, rest) :- ParseLevel(level + 1, ts);
      ParseRest(level, left, rest)
  }

  function ParseRest(level: nat, left: Expr, ts: seq<Token>): (r: Parsed)
    requires 1 <= level < UNARY
    ensures r.Some? ==> |r.value.1| <= |ts|
    decreases |ts|, UNARY - level, 0
  {
    if !Continues(ts, level) then Some((left, ts))
    else
      var (right, rest) :- ParseLevel(level + 1, ts[1..]);
      ParseRest(level, Binary(Infix(ts[0]).value, left, right), rest)
  }

  function ParseExpr(ts: seq<Token>): (r: Parsed)
    ensures r.Some? ==> |r.value.1| < |ts|
    decreases |ts|, UNARY
  {
    ParseLevel(1, ts)
  }

  function ParseUnary(ts: seq<Token>): (r: Parsed)
    ensures r.Some? ==> |r.value.1| < |ts|
    decreases |ts|, 0, 1
  {
    if ts == [] then None
    else if Prefix(ts[0]).Some? then
      var (x, rest) :- ParseUnary(ts[1..]);
      Some((Unary(Prefix(ts[0]).value, x), rest))
    else if ts[0] == Op1('*') then
      var (x, rest) :- ParseUnary(ts[1..]);
      Some((Deref(x), rest))
    else if ts[0] == Op1('&') then
      if |ts| < 2 || !ts[1].Ident? then None
      else if Starts(ts[2..], LBracket) then
        var (index, rest) :- ParseExpr(ts[3..]);
        var after :- Expect(rest, RBracket);
        Some((AddrOfElement(ts[1].name, index), after))
      else Some((AddrOf(ts[1].name), ts[2..]))
    else ParsePrimary(ts)
  }

  /** The tokens behind a cast to a type, when there is one right here. */
  function SkipCast(ts: seq<Token>): (r: Option<seq<Token>>)
    ensures r.Some? ==> |r.value| < |ts|
  {
    if ts != [] && IsTypeWord(ts[0]) then
      var rest := SkipStars(ts[1..]);
      if Starts(rest, RParen) then Some(rest[1..]) else None
    else None
  }

  function SkipStars(ts: seq<Token>): (r: seq<Token>)
    ensures |r| <= |ts|
  {
    if Starts(ts, Op1('*')) then SkipStars(ts[1..]) else ts
  }

  function ParsePrimary(ts: seq<Token>): (r: Parsed)
    requires ts != []
    ensures r.Some? ==> |r.value.1| < |ts|
    decreases |ts|, 0, 0
  {
    match ts[0]
    case Number(v) => Some((IntLiteral(v), ts[1..]))
    case StrLit(text) => Some((StringLit(text), ts[1..]))
    case Ident(n) =>
      if Starts(ts[1..], LParen) then
        var (args, rest) :- ParseArgs(ts[2..]);
        Some((FuncCall(n, args), rest))
      else if Starts(ts[1..], LBracket) then
        var (index, rest) :- ParseExpr(ts[2..]);
        var after :- Expect(rest, RBracket);
        Some((ArrayRef(n, index), after))
      else Some((VarRef(n), ts[1..]))
    case LParen =>
      var cast := SkipCast(ts[1..]);
      if cast.Some? then ParseUnary(cast.value)
      else
        var (e, rest) :- ParseExpr(ts[1..]);
        var after :- Expect(rest, RParen);
        Some((e, after))
    case _ => None
  }

  /** Arguments up to and with the closing parenthesis; a comma may follow each. */
  function ParseArgs(ts: seq<Token>): (r: Option<(seq<Expr>, seq<Token>)>)
    ensures r.Some? ==> |r.value.1| < |ts|
    decreases |ts|, UNARY + 1
  {
    if ts == [] then None
    else if ts[0] == RParen then Some(([], ts[1..]))
    else
      var (e, rest) :- ParseExpr(ts);
      var (more, after) :- ParseArgs(if Starts(rest, Comma) then rest[1..] else rest);
      Some(([e] + more, after))
  }

  // ---- The printer: as few parentheses as the levels allow

  function Prec(e: Expr): nat {
    match e
    case Binary(op, _, _) => Level(op)
    case Unary(_, _) => UNARY
    case Deref(_) => UNARY
    case AddrOf(_) => UNARY
    case AddrOfElement(_, _) => UNARY
    case _ => PRIMARY
  }

  /** Literals are not negative: a minus sign is an operator. */
  predicate Printable(e: Expr) {
    match e
    case IntLiteral(v) => v >= 0
    case Binary(_, l, r) => Printable(l) && Printable(r)
    case Unary(_, x) => Printable(x)
    case ArrayRef(_, i) => Printable(i)
    case AddrOfElement(_, i) => Printable(i)
    case Deref(p) => Printable(p)
    case FuncCall(_, args) => forall a :: a in args ==> Printable(a)
    case _ => true
  }

  function Print(e: Expr, level: nat): seq<Token>
    requires Printable(e)
    decreases e, 1
  {
    if Prec(e) < level then [LParen] + Bare(e) + [RParen] else Bare(e)
  }

  function Bare(e: Expr): seq<Token>
    requires Printable(e)
    decreases e, 0
  {
    match e
    case IntLiteral(v) => [Number(v)]
    case VarRef(n) => [Ident(n)]
    case StringLit(text) => [StrLit(text)]
    case Binary(op, l, r) => Print(l, Level(op)) + [Spelling(op)] + Print(r, Level(op) + 1)
    case Unary(op, x) => [PrefixSpelling(op)] + Print(x, UNARY)
    case Deref(p) => [Op1('*')] + Print(p, UNARY)
    case AddrOf(n) => [Op1('&'), Ident(n)]
    case AddrOfElement(n, i) => [Op1('&'), Ident(n), LBracket] + Print(i, 1) + [RBracket]
    case ArrayRef(n, i) => [Ident(n), LBracket] + Print(i, 1) + [RBracket]
    case FuncCall(n, args) => [Ident(n), LParen] + PrintArgs(args) + [RParen]
  }

  function PrintArgs(args: seq<Expr>): seq<Token>
    requires forall a :: a in args ==> Printable(a)
    decreases args
  {
    if args == [] then []
    else if |args| == 1 then Print(args[0], 1)
    else Print(args[0], 1) + [Comma] + PrintArgs(args[1..])
  }

  // ---- Parsing undoes printing

  /** What follows does not carry an expression of this level further: no operator that binds tighter than
      `level`, no bracket or parenthesis. */
  predicate Stops(ts: seq<Token>, level: nat) {
    ts == [] || (ts[0] != LParen && ts[0] != LBracket && (Infix(ts[0]).Some? ==> Level(Infix(ts[0]).value) <= level))
  }

  lemma DoneAtLevel(level: nat, e: Expr, rest: seq<Token>)
    requires 1 <= level < UNARY && Stops(rest, level - 1)
    ensures ParseRest(level, e, rest) == Some((e, rest))
  {
  }

  /** An operand that the unary level reads whole passes through the levels above it. */
  lemma {:induction false} Descend(level: nat, ts: seq<Token>, e: Expr, rest: seq<Token>)
    requires 1 <= level < UNARY && ParseUnary(ts) == Some((e, rest)) && Stops(rest, level)
    ensures ParseLevel(level, ts) == ParseRest(level, e, rest)
    decreases UNARY - level
  {
    hide ParseUnary, ParseRest;
    if level + 1 < UNARY {
      Descend(level + 1, ts, e, rest);
      DoneAtLevel(level + 1, e, rest);
    }
  }

  lemma StopsUp(rest: seq<Token>, low: nat, high: nat)
    requires Stops(rest, low) && low <= high
    ensures Stops(rest, high)
  {
  }

  lemma SamePrint(e: Expr, level: nat)
    requires Printable(e) && (Prec(e) < level <= UNARY || Prec(e) >= UNARY >= level)
    ensures Print(e, level) == Print(e, UNARY)
  {
  }

  /** Behind a printed operand the parser is where it would be had it read the operand whole. */
  lemma {:induction false} ParsePrinted(e: Expr, level: nat, rest: seq<Token>)
    requires Printable(e) && 1 <= level < UNARY && Stops(rest, level)
    ensures ParseLevel(level, Print(e, level) + rest) == ParseRest(level, e, rest)
    decreases e, if Prec(e) < level then 100 else 50 - level
  {
    hide ParseUnary, ParseRest, Print, Stops;
    StopsUp(rest, level, 9);
    if Prec(e) < level || (Prec(e) >= UNARY && level == 9) {
      SamePrint(e, level);
      UnaryPrinted(e, rest);
      Descend(level, Print(e, level) + rest, e, rest);
    } else if Prec(e) == level {
      BinaryPrinted(e, rest);
    } else {
      StopsUp(rest, level, level + 1);
      ParsePrinted(e, level + 1, rest);
      DoneAtLevel(level + 1, e, rest);
      NextPrint(e, level);
    }
  }

  lemma NextPrint(e: Expr, level: nat)
    requires Printable(e) && Prec(e) > level
    ensures Print(e, level) == Print(e, level + 1)
  {
  }

  lemma BinaryPrinted(e: Expr, rest: seq<Token>)
    requires Printable(e) && e.Binary? && Stops(rest, Level(e.op))
    ensures ParseLevel(Level(e.op), Print(e, Level(e.op)) + rest) == ParseRest(Level(e.op), e, rest)
    decreases e, 0
  {
    hide ParseUnary, ParseLevel, Print;
    var level, op := Level(e.op), Spelling(e.op);
    var tail := [op] + (Print(e.right, level + 1) + rest);
    BinaryPrint(e);
    assert Print(e, level) + rest == Print(e.left, level) + tail;
    assert Infix(op) == Some(e.op);
    OperatorStops(e.op, tail);
    ParsePrinted(e.left, level, tail);
    assert tail[1..] == Print(e.right, level + 1) + rest;
    OperandPrinted(e.right, level + 1, rest);
  }

  lemma OperatorStops(op: BinaryOp, tail: seq<Token>)
    requires tail != [] && tail[0] == Spelling(op)
    ensures Stops(tail, Level(op))
  {
    assert Infix(tail[0]) == Some(op);
  }

  lemma BinaryPrint(e: Expr)
    requires Printable(e) && e.Binary?
    ensures Print(e, Level(e.op)) == Print(e.left, Level(e.op)) + [Spelling(e.op)] + Print(e.right, Level(e.op) + 1)
  {
  }

  lemma OperandPrinted(e: Expr, level: nat, rest: seq<Token>)
    requires Printable(e) && 1 < level <= UNARY && Stops(rest, level - 1)
    ensures ParseLevel(level, Print(e, level) + rest) == Some((e, rest))
    decreases e, 200
  {
    hide ParseUnary, Print, Stops, ParseRest;
    if level == UNARY {
      UnaryPrinted(e, rest);
    } else {
      StopsUp(rest, level - 1, level);
      ParsePrinted(e, level, rest);
      DoneAtLevel(level, e, rest);
    }
  }

  /** A token that ends every expression. */
  predicate Ends(t: Token) { t == RParen || t == RBracket || t == Comma || t == Semi }

  /** A whole expression in front of a token that ends it. */
  lemma ExprPrinted(e: Expr, t: Token, rest: seq<Token>)
    requires Printable(e) && Ends(t)
    ensures ParseExpr(Print(e, 1) + ([t] + rest)) == Some((e, [t] + rest))
    decreases e, 55
  {
    hide ParseLevel, Print, ParseRest;
    var tail := [t] + rest;
    assert Stops(tail, 1) && Stops(tail, 0);
    ParsePrinted(e, 1, tail);
    DoneAtLevel(1, e, tail);
  }

  /** No printed expression starts with a type word or a closing parenthesis. */
  lemma {:induction false} FirstToken(e: Expr, level: nat)
    requires Printable(e)
    ensures Print(e, level) != [] && !Print(e, level)[0].Keyword? && Print(e, level)[0] != RParen
    decreases e, 1
  {
    if Prec(e) >= level && e.Binary? { FirstToken(e.left, Level(e.op)); }
  }

  /** A printed operand of the unary level. */
  lemma {:induction false} UnaryPrinted(e: Expr, rest: seq<Token>)
    requires Printable(e) && Stops(rest, 9)
    ensures ParseUnary(Print(e, UNARY) + rest) == Some((e, rest))
    decreases e, if Prec(e) < UNARY then 60 else 1
  {
    hide ParseUnary, Print, Stops;
    match e
    case Binary(_, _, _) => ParenPrinted(e, rest);
    case Unary(op, x) =>
      UnaryPrinted(x, rest);
      PrefixPrinted(op, x, rest);
    case Deref(x) =>
      UnaryPrinted(x, rest);
      StarPrinted(x, rest);
    case AddrOf(_) => AddressPrinted(e, rest);
    case AddrOfElement(_, index) =>
      ExprPrinted(index, RBracket, rest);
      AddressPrinted(e, rest);
    case ArrayRef(_, index) =>
      ExprPrinted(index, RBracket, rest);
      PrimaryPrinted(e, rest);
    case FuncCall(_, args) =>
      ArgsPrinted(args, rest);
      PrimaryPrinted(e, rest);
    case _ => PrimaryPrinted(e, rest);
  }

  lemma PrefixPrinted(op: UnaryOp, x: Expr, rest: seq<Token>)
    requires Printable(x) && ParseUnary(Print(x, UNARY) + rest) == Some((x, rest))
    ensures ParseUnary(Print(Unary(op, x), UNARY) + rest) == Some((Unary(op, x), rest))
  {
    hide Print, ParsePrimary;
    PrintIsBare(Unary(op, x));
    var ts := Print(Unary(op, x), UNARY) + rest;
    assert ts[0] == PrefixSpelling(op) && ts[1..] == Print(x, UNARY) + rest;
    assert Prefix(PrefixSpelling(op)) == Some(op);
  }

  lemma StarPrinted(x: Expr, rest: seq<Token>)
    requires Printable(x) && ParseUnary(Print(x, UNARY) + rest) == Some((x, rest))
    ensures ParseUnary(Print(Deref(x), UNARY) + rest) == Some((Deref(x), rest))
  {
    hide Print, ParsePrimary;
    PrintIsBare(Deref(x));
    var ts := Print(Deref(x), UNARY) + rest;
    assert ts[0] == Op1('*') && ts[1..] == Print(x, UNARY) + rest;
  }

  lemma AddressPrinted(e: Expr, rest: seq<Token>)
    requires Printable(e) && Stops(rest, 9) && (e.AddrOf? || e.AddrOfElement?)
    requires e.AddrOfElement? ==>
             ParseExpr(Print(e.index, 1) + ([RBracket] + rest)) == Some((e.index, [RBracket] + rest))
    ensures ParseUnary(Print(e, UNARY) + rest) == Some((e, rest))
  {
    hide ParseExpr, Print, ParsePrimary, Infix;
    PrintIsBare(e);
    var ts := Print(e, UNARY) + rest;
    assert ts[0] == Op1('&') && ts[1] == Ident(e.target);
    if e.AddrOf? {
      assert ts[2..] == rest;
    } else {
      assert ts[2..][0] == LBracket && ts[3..] == Print(e.index, 1) + ([RBracket] + rest);
      assert ([RBracket] + rest)[1..] == rest;
    }
  }

  lemma IndexPrinted(n: string, index: Expr, rest: seq<Token>)
    requires Printable(index) && ParseExpr(Print(index, 1) + ([RBracket] + rest)) == Some((index, [RBracket] + rest))
    ensures ParseUnary([Ident(n), LBracket] + Print(index, 1) + [RBracket] + rest) == Some((ArrayRef(n, index), rest))
  {
    hide ParseExpr, Print, ParseArgs;
    var ts := [Ident(n), LBracket] + Print(index, 1) + [RBracket] + rest;
    assert ts[1..][0] == LBracket && ts[2..] == Print(index, 1) + ([RBracket] + rest);
    assert ([RBracket] + rest)[1..] == rest;
  }

  lemma CallPrinted(n: string, args: seq<Expr>, rest: seq<Token>)
    requires (forall a :: a in args ==> Printable(a))
             && ParseArgs(PrintArgs(args) + ([RParen] + rest)) == Some((args, rest))
    ensures ParseUnary([Ident(n), LParen] + PrintArgs(args) + [RParen] + rest) == Some((FuncCall(n, args), rest))
  {
    hide ParseExpr, PrintArgs, ParseArgs;
    var ts := [Ident(n), LParen] + PrintArgs(args) + [RParen] + rest;
    assert ts[1..][0] == LParen && ts[2..] == PrintArgs(args) + ([RParen] + rest);
  }

  lemma PrimaryPrinted(e: Expr, rest: seq<Token>)
    requires Printable(e) && Stops(rest, 9) && Prec(e) == PRIMARY
    requires e.ArrayRef? ==> ParseExpr(Print(e.index, 1) + ([RBracket] + rest)) == Some((e.index, [RBracket] + rest))
    requires e.FuncCall? ==> ParseArgs(PrintArgs(e.args) + ([RParen] + rest)) == Some((e.args, rest))
    ensures ParseUnary(Print(e, UNARY) + rest) == Some((e, rest))
  {
    hide ParseExpr, Print, ParseArgs, PrintArgs, Infix;
    PrintIsBare(e);
    match e
    case ArrayRef(n, index) => IndexPrinted(n, index, rest);
    case FuncCall(n, args) => CallPrinted(n, args, rest);
    case IntLiteral(_) => assert (Print(e, UNARY) + rest)[1..] == rest;
    case VarRef(_) => assert (Print(e, UNARY) + rest)[1..] == rest;
    case StringLit(_) => assert (Print(e, UNARY) + rest)[1..] == rest;
  }

  lemma PrintIsBare(e: Expr)
    requires Printable(e) && !e.Binary?
    ensures Print(e, UNARY) == Bare(e)
  {
  }

  lemma ParenPrinted(e: Expr, rest: seq<Token>)
    requires Printable(e) && e.Binary?
    ensures ParseUnary(Print(e, UNARY) + rest) == Some((e, rest))
    decreases e, 58
  {
    hide ParseLevel, ParseRest, ParseExpr, ParseArgs, Infix, SkipStars;
    var ts := Print(e, UNARY) + rest;
    assert Print(e, UNARY) == [LParen] + Print(e, 1) + [RParen];
    FirstToken(e, 1);
    ExprPrinted(e, RParen, rest);
    hide Print;
    assert ts[0] == LParen && ts[1..] == Print(e, 1) + ([RParen] + rest);
    assert ([RParen] + rest)[1..] == rest;
  }

  lemma {:induction false} ArgsPrinted(args: seq<Expr>, rest: seq<Token>)
    requires forall a :: a in args ==> Printable(a)
    ensures ParseArgs(PrintArgs(args) + ([RParen] + rest)) == Some((args, rest))
    decreases args, 0
  {
    hide ParseExpr, Print;
    var tail := [RParen] + rest;
    assert tail[1..] == rest;
    if args == [] {
      assert PrintArgs(args) + tail == tail;
    } else {
      FirstToken(args[0], 1);
      assert args == [args[0]] + args[1..];
      if |args| == 1 {
        ExprPrinted(args[0], RParen, rest);
        assert ParseArgs(tail) == Some(([], rest));
      } else {
        var more := PrintArgs(args[1..]) + tail;
        assert PrintArgs(args) + tail == Print(args[0], 1) + ([Comma] + more);
        ExprPrinted(args[0], Comma, more);
        ArgsPrinted(args[1..], rest);
        assert ([Comma] + more)[1..] == more;
      }
    }
  }

  /** Parsing a printed expression gives the expression back and leaves exactly what stood behind it. */
  lemma PrintThenParse(e: Expr, rest: seq<Token>)
    requires Printable(e) && Stops(rest, 0)
    ensures ParseExpr(Print(e, 1) + rest) == Some((e, rest))
  {
    StopsUp(rest, 0, 1);
    ParsePrinted(e, 1, rest);
    DoneAtLevel(1, e, rest);
  }

  /** So no token list is the print of two expressions. */
  lemma PrintInjective(e: Expr, f: Expr)
    requires Printable(e) && Printable(f) && Print(e, 1) == Print(f, 1)
    ensures e == f
  {
    hide ParseExpr, Print;
    PrintThenParse(e, []);
    PrintThenParse(f, []);
  }

  // ---- Casts and precedence

  function Stars(n: nat): seq<Token> { if n == 0 then [] else [Op1('*')] + Stars(n - 1) }

  lemma {:induction false} StarsSkipped(n: nat, rest: seq<Token>)
    requires !Starts(rest, Op1('*'))
    ensures SkipStars(Stars(n) + rest) == rest
    decreases n
  {
    if n == 0 {
      assert Stars(0) + rest == rest;
    } else {
      var ts := Stars(n) + rest;
      assert ts[1..] == Stars(n - 1) + rest;
      StarsSkipped(n - 1, rest);
    }
  }

  /** A cast to a type with any number of stars is skipped: the operand behind it is the result. */
  lemma CastIgnored(word: string, n: nat, e: Expr, rest: seq<Token>)
    requires word in ["int", "void", "char", "unsigned"] && Printable(e) && Stops(rest, 9)
    ensures ParseUnary([LParen, Keyword(word)] + Stars(n) + [RParen] + Print(e, UNARY) + rest) == Some((e, rest))
  {
    UnaryPrinted(e, rest);
    hide Print, ParseUnary, SkipCast, SkipStars, Stops, Printable;
    var operand, cast := Print(e, UNARY) + rest, [Keyword(word)] + Stars(n) + [RParen];
    var ts := [LParen, Keyword(word)] + Stars(n) + [RParen] + Print(e, UNARY) + rest;
    assert ts == [LParen] + (cast + operand);
    CastSkipped(word, n, operand);
    CastParsed(cast + operand, operand);
  }

  lemma CastSkipped(word: string, n: nat, operand: seq<Token>)
    requires word in ["int", "void", "char", "unsigned"]
    ensures SkipCast([Keyword(word)] + Stars(n) + [RParen] + operand) == Some(operand)
  {
    var behind := [RParen] + operand;
    var ts := [Keyword(word)] + Stars(n) + [RParen] + operand;
    assert ts[1..] == Stars(n) + behind;
    StarsSkipped(n, behind);
    assert behind[1..] == operand;
    hide SkipStars;
  }

  lemma CastParsed(ts: seq<Token>, operand: seq<Token>)
    requires SkipCast(ts) == Some(operand)
    ensures ParseUnary([LParen] + ts) == ParseUnary(operand)
  {
    assert ([LParen] + ts)[1..] == ts;
    hide SkipCast, ParseExpr, ParseArgs;
  }

  /** The binary operators and how they are written, from the loosest to the tightest group. */
  const GROUPS: seq<map<BinaryOp, Token>> := [
    map[LogicalOr := Op2("||")], map[LogicalAnd := Op2("&&")], map[BitOr := Op1('|')], map[BitXor := Op1('^')],
    map[BitAnd := Op1('&')],
    map[Equal := Op2("=="), NotEqual := Op2("!="), Less := Op1('<'), Greater := Op1('>'), LessEqual := Op2("<="),
        GreaterEqual := Op2(">=")],
    map[ShiftLeft := Op2("<<"), ShiftRight := Op2(">>")], map[Plus := Op1('+'), Minus := Op1('-')],
    map[Times := Op1('*'), Divide := Op1('/'), Modulo := Op1('%')]]

  /** Of two operators the one of the tighter group binds first, and within a group the left one. */
  lemma GroupsByPrecedence(i: nat, j: nat, op: BinaryOp, op': BinaryOp, a: string, b: string, c: string)
    requires i < |GROUPS| && j < |GROUPS| && op in GROUPS[i] && op' in GROUPS[j]
    ensures var x, y, z := VarRef(a), VarRef(b), VarRef(c);
            ParseExpr([Ident(a), GROUPS[i][op], Ident(b), GROUPS[j][op'], Ident(c)])
            == Some((if j > i then Binary(op, x, Binary(op', y, z)) else Binary(op', Binary(op, x, y), z), []))
  {
    GroupLevel(i, op);
    GroupLevel(j, op');
    PairParsed(op, op', a, b, c);
  }

  lemma PairParsed(op: BinaryOp, op': BinaryOp, a: string, b: string, c: string)
    ensures var x, y, z := VarRef(a), VarRef(b), VarRef(c);
            ParseExpr([Ident(a), Spelling(op), Ident(b), Spelling(op'), Ident(c)])
            == Some((if Level(op') > Level(op) then Binary(op, x, Binary(op', y, z))
                     else Binary(op', Binary(op, x, y), z), []))
  {
    var x, y, z := VarRef(a), VarRef(b), VarRef(c);
    var e := if Level(op') > Level(op) then Binary(op, x, Binary(op', y, z)) else Binary(op', Binary(op, x, y), z);
    hide ParseExpr, Level, Spelling, Print, Bare;
    PrintThenParse(e, []);
    PairPrinted(op, a, b);
    PairPrinted(op', b, c);
    NamePrinted(a, Level(op));
    NamePrinted(c, Level(op') + 1);
    if Level(op') > Level(op) {
      BarePrinted(op, x, Binary(op', y, z), 1);
      assert Prec(Binary(op', y, z)) == Level(op');
      Unparenthesised(Binary(op', y, z), Level(op) + 1);
    } else {
      BarePrinted(op', Binary(op, x, y), z, 1);
      Unparenthesised(Binary(op, x, y), Level(op'));
    }
    assert Print(e, 1) + [] == [Ident(a), Spelling(op), Ident(b), Spelling(op'), Ident(c)];
  }

  lemma NamePrinted(n: string, level: nat)
    requires level <= PRIMARY
    ensures Print(VarRef(n), level) == [Ident(n)]
  {
  }

  lemma Unparenthesised(e: Expr, level: nat)
    requires Printable(e) && Prec(e) >= level
    ensures Print(e, level) == Bare(e)
  {
  }

  lemma BarePrinted(op: BinaryOp, l: Expr, r: Expr, level: nat)
    requires Printable(l) && Printable(r) && level <= Level(op)
    ensures Print(Binary(op, l, r), level) == Print(l, Level(op)) + [Spelling(op)] + Print(r, Level(op) + 1)
  {
  }

  lemma PairPrinted(op: BinaryOp, a: string, b: string)
    ensures Bare(Binary(op, VarRef(a), VarRef(b))) == [Ident(a), Spelling(op), Ident(b)]
  {
    NamePrinted(a, Level(op));
    NamePrinted(b, Level(op) + 1);
    hide Level, Spelling;
  }

  lemma GroupLevel(i: nat, op: BinaryOp)
    requires i < |GROUPS| && op in GROUPS[i]
    ensures Level(op) == i + 1 && Spelling(op) == GROUPS[i][op]
  {
  }

  /** The prefix operators; the texts of a product and of a bitwise and mean something else in front of an operand. */
  lemma PrefixOperators(op: UnaryOp, a: string)
    ensures var sign := match op case Negate => '-' case Complement => '~' case LogicalNot => '!';
            ParseExpr([Op1(sign), Ident(a)]) == Some((Unary(op, VarRef(a)), []))
    ensures ParseExpr([Op1('*'), Ident(a)]) == Some((Deref(VarRef(a)), []))
    ensures ParseExpr([Op1('&'), Ident(a)]) == Some((AddrOf(a), []))
  {
    NamePrinted(a, UNARY);
    PrintedPrefix(Unary(op, VarRef(a)), PrefixSpelling(op), a);
    PrintedPrefix(Deref(VarRef(a)), Op1('*'), a);
    PrintedPrefix(AddrOf(a), Op1('&'), a);
  }

  lemma PrintedPrefix(e: Expr, t: Token, a: string)
    requires Printable(e) && Prec(e) == UNARY && Bare(e) == [t, Ident(a)]
    ensures ParseExpr([t, Ident(a)]) == Some((e, []))
  {
    hide ParseExpr, Prec, Bare;
    PrintThenParse(e, []);
    assert Print(e, 1) + [] == [t, Ident(a)];
  }
}
