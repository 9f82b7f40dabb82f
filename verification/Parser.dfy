/** The recursive-descent parser as the source writes it: a token list and a position that moves forward. */
module Parser {
  import opened Wrappers
  import opened Ast
  import opened Parsing

  class ExprParser {
    const toks: seq<Token>
    var pos: nat

    constructor (tokens: seq<Token>)
      ensures toks == tokens && pos == 0 && Valid()
    {
      toks := tokens;
      pos := 0;
    }

    ghost predicate Valid()
      reads this
    {
      pos <= |toks|
    }

    /** The tokens that are still to be read. */
    ghost function Rest(): seq<Token>
      requires Valid()
      reads this
    {
      toks[pos..]
    }

    /** e was read, and the position is where the grammar function leaves the rest; or both report an error. */
    ghost predicate Agrees(r: Parsed, e: Option<Expr>)
      requires Valid()
      reads this
    {
      e.Some? == r.Some? && (e.Some? ==> e.value == r.value.0 && Rest() == r.value.1)
    }

    /** `_match(t)`. */
    predicate Match(t: Token)
      requires Valid()
      reads this
    {
      pos < |toks| && toks[pos] == t
    }

    method ExpectToken(t: Token) returns (ok: bool)
      requires Valid()
      modifies this
      ensures Valid() && pos >= old(pos)
      ensures ok == Expect(old(Rest()), t).Some?
      ensures ok ==> Rest() == Expect(old(Rest()), t).value
    {
      ok := Match(t);
      if ok {
        pos := pos + 1;
      }
    }

    method Expression() returns (e: Option<Expr>)
      requires Valid()
      modifies this
      ensures Valid() && pos >= old(pos) && Agrees(ParseExpr(old(Rest())), e)
      ensures e.Some? ==> pos > old(pos)
      decreases |toks| - pos, UNARY
    {
      e := LevelExpr(1);
    }

    /** The nine methods from `_parse_logical_or` to `_parse_multiplicative`, which differ in their operators only. */
    method LevelExpr(level: nat) returns (e: Option<Expr>)
      requires Valid() && 1 <= level <= UNARY
      modifies this
      ensures Valid() && pos >= old(pos) && Agrees(ParseLevel(level, old(Rest())), e)
      ensures e.Some? ==> pos > old(pos)
      decreases |toks| - pos, UNARY - level, 2
    {
      if level == UNARY {
        e := UnaryExpr();
        return;
      }
      ghost var start := Rest();
      e := LevelExpr(level + 1);
      if e.None? {
        return;
      }
      var left := e.value;
      while pos < |toks| && Infix(toks[pos]).Some? && Level(Infix(toks[pos]).value) == level
        invariant Valid() && pos > old(pos)
        invariant ParseLevel(level, start) == ParseRest(level, left, Rest())
        decreases |toks| - pos
      {
        var op := Infix(toks[pos]).value;
        ghost var before := Rest();
        pos := pos + 1;
        assert before[1..] == Rest() && before[0] == toks[pos - 1];
        var right := LevelExpr(level + 1);
        if right.None? {
          return None;
        }
        left := Binary(op, left, right.value);
      }
      assert !Continues(Rest(), level);
      e := Some(left);
    }

    method UnaryExpr() returns (e: Option<Expr>)
      requires Valid()
      modifies this
      ensures Valid() && pos >= old(pos) && Agrees(ParseUnary(old(Rest())), e)
      ensures e.Some? ==> pos > old(pos)
      decreases |toks| - pos, 0, 1
    {
      ghost var ts := Rest();
      if pos == |toks| {
        return None;
      }
      var t := toks[pos];
      if Prefix(t).Some? {
        pos := pos + 1;
        assert Rest() == ts[1..];
        e := UnaryExpr();
        if e.Some? {
          e := Some(Unary(Prefix(t).value, e.value));
        }
      } else if t == Op1('*') {
        pos := pos + 1;
        assert Rest() == ts[1..];
        e := UnaryExpr();
        if e.Some? {
          e := Some(Deref(e.value));
        }
      } else if t == Op1('&') {
        e := AddressExpr();
      } else {
        e := PrimaryExpr();
      }
    }

    /** `&name` and `&name[index]`. */
    method AddressExpr() returns (e: Option<Expr>)
      requires Valid() && pos < |toks| && toks[pos] == Op1('&')
      modifies this
      ensures Valid() && pos >= old(pos) && Agrees(ParseUnary(old(Rest())), e)
      ensures e.Some? ==> pos > old(pos)
      decreases |toks| - pos, 0, 0
    {
      ghost var ts := Rest();
      pos := pos + 1;
      if pos == |toks| || !toks[pos].Ident? {
        return None;
      }
      var name := toks[pos].name;
      pos := pos + 1;
      assert ts[1] == toks[pos - 1] && ts[2..] == Rest();
      if !Match(LBracket) {
        return Some(AddrOf(name));
      }
      pos := pos + 1;
      assert Rest() == ts[3..];
      e := Expression();
      if e.None? {
        return;
      }
      var ok := ExpectToken(RBracket);
      e := if ok then Some(AddrOfElement(name, e.value)) else None;
    }

    method PrimaryExpr() returns (e: Option<Expr>)
      requires Valid() && pos < |toks|
      modifies this
      ensures Valid() && pos >= old(pos) && Agrees(ParsePrimary(old(Rest())), e)
      ensures e.Some? ==> pos > old(pos)
      decreases |toks| - pos, 0, 0
    {
      hide ParseExpr, ParseArgs, ParseUnary, SkipCast;
      ghost var ts := Rest();
      var t := toks[pos];
      pos := pos + 1;
      assert Rest() == ts[1..];
      if t.Number? {
        e := Some(IntLiteral(t.value));
      } else if t.StrLit? {
        e := Some(StringLit(t.text));
      } else if t.Ident? {
        if Match(LParen) {
          pos := pos + 1;
          assert Rest() == ts[2..];
          var args := Arguments();
          e := if args.Some? then Some(FuncCall(t.name, args.value)) else None;
        } else if Match(LBracket) {
          pos := pos + 1;
          assert Rest() == ts[2..];
          var index := Expression();
          if index.None? {
            return None;
          }
          var ok := ExpectToken(RBracket);
          e := if ok then Some(ArrayRef(t.name, index.value)) else None;
        } else {
          e := Some(VarRef(t.name));
        }
      } else if t == LParen {
        var cast := Cast();
        if cast {
          e := UnaryExpr();
        } else {
          e := Expression();
          if e.Some? {
            var ok := ExpectToken(RParen);
            e := if ok then e else None;
          }
        }
      } else {
        e := None;
      }
    }

    /** Moves past a cast's type and closing parenthesis, or stays where it is. */
    method Cast() returns (found: bool)
      requires Valid()
      modifies this
      ensures Valid() && found == SkipCast(old(Rest())).Some?
      ensures if found then pos > old(pos) && Rest() == SkipCast(old(Rest())).value else pos == old(pos)
    {
      if pos == |toks| || !IsTypeWord(toks[pos]) {
        return false;
      }
      var saved := pos;
      ghost var ts := Rest();
      pos := pos + 1;
      assert Rest() == ts[1..];
      while Match(Op1('*'))
        invariant Valid() && pos > saved && SkipStars(ts[1..]) == SkipStars(Rest())
        decreases |toks| - pos
      {
        assert Rest()[1..] == toks[pos + 1..];
        pos := pos + 1;
      }
      found := Match(RParen);
      if found {
        assert Rest()[1..] == toks[pos + 1..];
        pos := pos + 1;
      } else {
        pos := saved;
      }
    }

    method Arguments() returns (args: Option<seq<Expr>>)
      requires Valid()
      modifies this
      ensures Valid() && pos >= old(pos) && args.Some? == ParseArgs(old(Rest())).Some?
      ensures args.Some? ==>
                pos > old(pos) && args.value == ParseArgs(old(Rest())).value.0
                && Rest() == ParseArgs(old(Rest())).value.1
      decreases |toks| - pos, UNARY + 1
    {
      hide ParseExpr;
      var read: seq<Expr> := [];
      ghost var all := ParseArgs(Rest());
      while !Match(RParen)
        invariant Valid() && pos >= old(pos)
        invariant var more := ParseArgs(Rest());
                  all.Some? == more.Some? && (all.Some? ==>
                    all.value.0 == read + more.value.0 && all.value.1 == more.value.1)
        decreases |toks| - pos
      {
        ghost var ts := Rest();
        if pos == |toks| {
          return None;
        }
        var e := Expression();
        if e.None? {
          return None;
        }
        if Match(Comma) {
          assert Rest()[1..] == toks[pos + 1..];
          pos := pos + 1;
        }
        ghost var more := ParseArgs(Rest());
        assert more.Some? ==> read + ([e.value] + more.value.0) == read + [e.value] + more.value.0;
        read := read + [e.value];
      }
      assert Rest()[1..] == toks[pos + 1..];
      pos := pos + 1;
      args := Some(read);
    }
  }
}
