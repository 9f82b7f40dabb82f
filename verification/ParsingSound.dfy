/** The parser accepts nothing but expressions: what it has read is a text of the tree that it returns. */
module ParsingSound {
  import opened Wrappers
  import opened Ast
  import opened Parsing

  // ---- The texts of a tree, with any redundant parentheses and casts

  /** A type word, stars and the closing parenthesis. */
  predicate IsCast(ts: seq<Token>) {
    |ts| >= 2 && IsTypeWord(ts[0]) && ts[|ts| - 1] == RParen && forall i :: 0 < i < |ts| - 1 ==> ts[i] == Op1('*')
  }

  /** ts is a text of e at this level: a single operand of the next level, or two joined by an operator of this one. */
  ghost predicate Reads(level: nat, e: Expr, ts: seq<Token>)
    requires 1 <= level <= UNARY
    decreases |ts|, UNARY - level, 4
  {
    if level == UNARY then ReadsUnary(e, ts)
    else
      || Reads(level + 1, e, ts)
      || (e.Binary? && Level(e.op) == level && exists i :: 0 < i < |ts| - 1 && Joins(level, e, ts, i))
  }

  ghost predicate Joins(level: nat, e: Expr, ts: seq<Token>, i: nat)
    requires 1 <= level < UNARY && e.Binary? && 0 < i < |ts| - 1
    decreases |ts|, UNARY - level, 3
  {
    ts[i] == Spelling(e.op) && Reads(level, e.left, ts[..i]) && Reads(level + 1, e.right, ts[i + 1..])
  }

  ghost predicate ReadsUnary(e: Expr, ts: seq<Token>)
    decreases |ts|, 0, 2
  {
    && ts != []
    && (|| ReadsBare(e, ts)
        || (|ts| > 2 && ts[0] == LParen && ts[|ts| - 1] == RParen && Reads(1, e, ts[1..|ts| - 1]))
        || (ts[0] == LParen && exists k :: 1 <= k < |ts| && IsCast(ts[1..k]) && ReadsUnary(e, ts[k..])))
  }

  /** `front`, then a text of e, then the closing token. */
  ghost predicate Encloses(front: seq<Token>, e: Expr, close: Token, ts: seq<Token>)
    decreases |ts|, 0, 0
  {
    |ts| > |front| + 1 && |front| > 0 && ts[..|front|] == front && ts[|ts| - 1] == close
        && Reads(1, e, ts[|front|..|ts| - 1])
  }

  ghost predicate ReadsBare(e: Expr, ts: seq<Token>)
    requires ts != []
    decreases |ts|, 0, 1
  {
    match e
    case IntLiteral(v) => v >= 0 && ts == [Number(v)]
    case VarRef(n) => ts == [Ident(n)]
    case StringLit(text) => ts == [StrLit(text)]
    case Unary(op, x) => ts[0] == PrefixSpelling(op) && ReadsUnary(x, ts[1..])
    case Deref(p) => ts[0] == Op1('*') && ReadsUnary(p, ts[1..])
    case AddrOf(n) => ts == [Op1('&'), Ident(n)]
    case AddrOfElement(n, i) => Encloses([Op1('&'), Ident(n), LBracket], i, RBracket, ts)
    case ArrayRef(n, i) => Encloses([Ident(n), LBracket], i, RBracket, ts)
    case FuncCall(n, args) =>
      |ts| >= 3 && ts[..2] == [Ident(n), LParen] && ts[|ts| - 1] == RParen && ReadsArgs(args, ts[2..|ts| - 1])
    case Binary(_, _, _) => false
  }

  /** Arguments one after the other; a comma may follow each. */
  ghost predicate ReadsArgs(args: seq<Expr>, ts: seq<Token>)
    decreases |ts|, UNARY + 1, 0
  {
    if args == [] then ts == []
    else exists i :: 0 < i <= |ts| && Reads(1, args[0], ts[..i]) && ReadsArgs(args[1..], AfterComma(ts[i..]))
  }

  function AfterComma(ts: seq<Token>): (r: seq<Token>)
    ensures |r| <= |ts|
  {
    if Starts(ts, Comma) then ts[1..] else ts
  }

  // ---- What the parser has read

  /** The result is a text of the tree in front of the tokens that are left. */
  ghost predicate Sound(level: nat, ts: seq<Token>, r: Parsed)
    requires 1 <= level <= UNARY
  {
    r.Some? ==>
      var n := |ts| - |r.value.1|;
      0 < n <= |ts| && r.value.1 == ts[n..] && Reads(level, r.value.0, ts[..n])
  }

  lemma LevelSound(level: nat, ts: seq<Token>)
    requires 1 <= level <= UNARY
    ensures Sound(level, ts, ParseLevel(level, ts))
    decreases |ts|, UNARY - level, 2
  {
    hide ParseUnary, ParseRest;
    if level == UNARY {
      UnarySound(ts);
    } else {
      LevelSound(level + 1, ts);
      if ParseLevel(level + 1, ts).Some? {
        var (left, rest) := ParseLevel(level + 1, ts).value;
        var n := |ts| - |rest|;
        RestSound(level, left, ts[..n], rest);
        var r := ParseRest(level, left, rest);
        if r.Some? { Prefixed(ts, n, |rest| - |r.value.1|); }
      }
    }
  }

  lemma Prefixed(ts: seq<Token>, n: nat, k: nat)
    requires n + k <= |ts|
    ensures ts[..n] + ts[n..][..k] == ts[..n + k] && ts[n..][k..] == ts[n + k..]
  {
  }

  lemma Rejoined(pre: seq<Token>, ts: seq<Token>, m: nat, k: nat)
    requires m + k <= |ts|
    ensures pre + ts[..m] + ts[m..][..k] == pre + ts[..m + k] && ts[m..][k..] == ts[m + k..]
  {
  }

  /** The operator in front, and what is left behind its operand. */
  lemma RestIs(level: nat, left: Expr, ts: seq<Token>)
    requires 1 <= level < UNARY
    ensures ParseRest(level, left, ts) ==
              if !Continues(ts, level) then Some((left, ts))
              else
                var r := ParseLevel(level + 1, ts[1..]);
                if r.None? then None else ParseRest(level, Binary(Infix(ts[0]).value, left, r.value.0), r.value.1)
    ensures Continues(ts, level) ==>
              ts != [] && Infix(ts[0]).Some? && Level(Infix(ts[0]).value) == level
              && Spelling(Infix(ts[0]).value) == ts[0]
  {
    hide ParseLevel;
  }

  /** From a left operand whose text is pre, e is read up to `rest`. */
  ghost predicate Onward(level: nat, e: Expr, pre: seq<Token>, ts: seq<Token>, rest: seq<Token>)
    requires 1 <= level <= UNARY
  {
    |rest| <= |ts| && rest == ts[|ts| - |rest|..] && Reads(level, e, pre + ts[..|ts| - |rest|])
  }

  lemma RestSound(level: nat, left: Expr, pre: seq<Token>, ts: seq<Token>)
    requires 1 <= level < UNARY && pre != [] && Reads(level, left, pre)
    ensures var r := ParseRest(level, left, ts); r.Some? ==> Onward(level, r.value.0, pre, ts, r.value.1)
    decreases |ts|, UNARY - level, 0
  {
    hide ParseLevel, ParseRest, Reads, Continues, Infix, Sound, Onward;
    RestIs(level, left, ts);
    if !Continues(ts, level) {
      NothingRead(level, left, pre, ts);
    } else {
      LevelSound(level + 1, ts[1..]);
      if ParseLevel(level + 1, ts[1..]).Some? {
        var (right, rest) := ParseLevel(level + 1, ts[1..]).value;
        var e := Binary(Infix(ts[0]).value, left, right);
        OperandRead(level, e, pre, ts, rest);
        RestSound(level, e, pre + ts[..|ts| - |rest|], rest);
        var r := ParseRest(level, e, rest);
        if r.Some? { ReadOn(level, r.value.0, pre, ts, rest, r.value.1); }
      }
    }
  }

  lemma NothingRead(level: nat, e: Expr, pre: seq<Token>, ts: seq<Token>)
    requires 1 <= level <= UNARY && Reads(level, e, pre)
    ensures Onward(level, e, pre, ts, ts)
  {
    hide Reads;
    assert pre + ts[..0] == pre;
  }

  lemma OperandRead(level: nat, e: Expr, pre: seq<Token>, ts: seq<Token>, rest: seq<Token>)
    requires 1 <= level < UNARY && e.Binary? && Level(e.op) == level && pre != [] && ts != [] && ts[0] == Spelling(e.op)
    requires Reads(level, e.left, pre) && Sound(level + 1, ts[1..], Some((e.right, rest)))
    ensures |rest| < |ts| && rest == ts[|ts| - |rest|..] && Reads(level, e, pre + ts[..|ts| - |rest|])
  {
    hide Reads;
    var m := |ts| - |rest|;
    Prefixed(ts, 1, m - 1);
    Joined(level, e, pre, ts, m);
  }

  lemma ReadOn(level: nat, e: Expr, pre: seq<Token>, ts: seq<Token>, rest: seq<Token>, after: seq<Token>)
    requires 1 <= level <= UNARY && |rest| <= |ts| && rest == ts[|ts| - |rest|..]
    requires Onward(level, e, pre + ts[..|ts| - |rest|], rest, after)
    ensures Onward(level, e, pre, ts, after)
  {
    hide Reads;
    Rejoined(pre, ts, |ts| - |rest|, |rest| - |after|);
  }

  lemma Joined(level: nat, e: Expr, pre: seq<Token>, ts: seq<Token>, m: nat)
    requires 1 <= level < UNARY && e.Binary? && Level(e.op) == level && pre != [] && 1 < m <= |ts|
    requires ts[0] == Spelling(e.op) && Reads(level, e.left, pre) && Reads(level + 1, e.right, ts[1..][..m - 1])
    ensures Reads(level, e, pre + ts[..m])
  {
    var all, i := pre + ts[..m], |pre|;
    assert all[..i] == pre && all[i + 1..] == ts[1..][..m - 1] && all[i] == ts[0];
    assert Joins(level, e, all, i);
  }

  lemma ExprSound(ts: seq<Token>)
    ensures Sound(1, ts, ParseExpr(ts))
    decreases |ts|, UNARY
  {
    LevelSound(1, ts);
  }

  lemma UnarySound(ts: seq<Token>)
    ensures Sound(UNARY, ts, ParseUnary(ts))
    decreases |ts|, 0, 1
  {
    hide ParsePrimary, ParseExpr, Reads;
    if ts != [] {
      if Prefix(ts[0]).Some? || ts[0] == Op1('*') {
        UnarySound(ts[1..]);
        PrefixSound(ts);
      } else if ts[0] == Op1('&') {
        if |ts| >= 2 && ts[1].Ident? && Starts(ts[2..], LBracket) { ExprSound(ts[3..]); }
        AddressSound(ts);
      } else {
        PrimarySound(ts);
      }
    }
  }

  lemma IsUnary(e: Expr, ts: seq<Token>)
    ensures Reads(UNARY, e, ts) == ReadsUnary(e, ts)
  {
  }

  lemma PrefixSound(ts: seq<Token>)
    requires ts != [] && (Prefix(ts[0]).Some? || ts[0] == Op1('*')) && Sound(UNARY, ts[1..], ParseUnary(ts[1..]))
    ensures Sound(UNARY, ts, ParseUnary(ts))
  {
    hide ParsePrimary, ParseExpr, Reads;
    if ParseUnary(ts[1..]).Some? {
      var (x, rest) := ParseUnary(ts[1..]).value;
      var n := |ts| - |rest|;
      Prefixed(ts, 1, n - 1);
      var e := ParseUnary(ts).value.0;
      IsUnary(x, ts[1..][..n - 1]);
      IsUnary(e, ts[..n]);
      assert ts[..n][1..] == ts[1..][..n - 1];
      assert ReadsBare(e, ts[..n]);
    }
  }

  /** A text of e inside `front` and a closing token. */
  lemma Enclosed(front: seq<Token>, ts: seq<Token>, e: Expr, rest: seq<Token>, close: Token)
    requires 0 < |front| <= |ts| && ts[..|front|] == front
    requires Sound(1, ts[|front|..], Some((e, rest))) && Starts(rest, close)
    ensures var n := |ts| - |rest| + 1; 0 < n <= |ts| && rest[1..] == ts[n..] && Encloses(front, e, close, ts[..n])
  {
    hide Reads, Sound, Encloses;
    var inner := SoundText(1, ts[|front|..], e, rest);
    var after := rest[1..];
    assert ts == front + ts[|front|..] && rest == [close] + after;
    assert ts == front + inner + [close] + after;
    EnclosedText(front, e, close, inner, after);
  }

  lemma SoundText(level: nat, ts: seq<Token>, e: Expr, rest: seq<Token>) returns (text: seq<Token>)
    requires 1 <= level <= UNARY && Sound(level, ts, Some((e, rest)))
    ensures text != [] && ts == text + rest && Reads(level, e, text)
  {
    hide Reads;
    text := ts[..|ts| - |rest|];
  }

  lemma EnclosedText(front: seq<Token>, e: Expr, close: Token, inner: seq<Token>, after: seq<Token>)
    requires 0 < |front| && inner != [] && Reads(1, e, inner)
    ensures var ts, n := front + inner + [close] + after, |front| + |inner| + 1;
            after == ts[n..] && Encloses(front, e, close, ts[..n])
  {
    hide Reads, Encloses;
    var all := front + inner + [close];
    FirstPart(all, after);
    assert |all| == |front| + |inner| + 1;
    MiddlePart(front, inner, close);
    EnclosesIs(front, e, close, all, inner);
  }

  lemma FirstPart(x: seq<Token>, y: seq<Token>)
    ensures (x + y)[..|x|] == x && (x + y)[|x|..] == y
  {
  }

  lemma MiddlePart(front: seq<Token>, inner: seq<Token>, close: Token)
    ensures var all := front + inner + [close];
            all[..|front|] == front && all[|front|..|all| - 1] == inner && all[|all| - 1] == close
  {
  }

  lemma EnclosesIs(front: seq<Token>, e: Expr, close: Token, all: seq<Token>, inner: seq<Token>)
    requires 0 < |front| && inner != [] && Reads(1, e, inner) && |all| == |front| + |inner| + 1
    requires all[..|front|] == front && all[|front|..|all| - 1] == inner && all[|all| - 1] == close
    ensures Encloses(front, e, close, all)
  {
    hide Reads;
  }

  lemma AddressSound(ts: seq<Token>)
    requires ts != [] && ts[0] == Op1('&')
    requires |ts| >= 2 && ts[1].Ident? && Starts(ts[2..], LBracket) ==> Sound(1, ts[3..], ParseExpr(ts[3..]))
    ensures Sound(UNARY, ts, ParseUnary(ts))
  {
    hide ParseUnary, ParseExpr, Reads;
    AddressIs(ts);
    if ParseUnary(ts).Some? {
      if Starts(ts[2..], LBracket) {
        ElementRead(ts, ParseExpr(ts[3..]).value.0, ParseExpr(ts[3..]).value.1);
      } else {
        AddressRead(ts);
      }
    }
  }

  lemma AddressIs(ts: seq<Token>)
    requires ts != [] && ts[0] == Op1('&')
    ensures ParseUnary(ts).Some? ==> |ts| >= 2 && ts[1].Ident?
    ensures ParseUnary(ts).Some? && Starts(ts[2..], LBracket) ==>
              var r := ParseExpr(ts[3..]);
              && r.Some? && Starts(r.value.1, RBracket)
              && ParseUnary(ts) == Some((AddrOfElement(ts[1].name, r.value.0), r.value.1[1..]))
    ensures ParseUnary(ts).Some? && !Starts(ts[2..], LBracket) ==> ParseUnary(ts) == Some((AddrOf(ts[1].name), ts[2..]))
  {
    hide ParseExpr, ParsePrimary;
  }

  lemma ElementRead(ts: seq<Token>, e: Expr, rest: seq<Token>)
    requires |ts| >= 3 && ts[0] == Op1('&') && ts[1].Ident? && ts[2] == LBracket
    requires Sound(1, ts[3..], Some((e, rest))) && Starts(rest, RBracket)
    ensures Sound(UNARY, ts, Some((AddrOfElement(ts[1].name, e), rest[1..])))
  {
    hide Reads, Encloses;
    var front := [Op1('&'), ts[1], LBracket];
    assert ts[..3] == front;
    Enclosed(front, ts, e, rest, RBracket);
    ElementText(ts[1].name, e, ts[..|ts| - |rest| + 1]);
  }

  lemma AddressRead(ts: seq<Token>)
    requires |ts| >= 2 && ts[0] == Op1('&') && ts[1].Ident?
    ensures Sound(UNARY, ts, Some((AddrOf(ts[1].name), ts[2..])))
  {
    hide Reads;
    assert ts[..2] == [Op1('&'), ts[1]];
    AddressText(ts[1].name, ts[..2]);
  }

  lemma ElementText(n: string, index: Expr, ts: seq<Token>)
    requires Encloses([Op1('&'), Ident(n), LBracket], index, RBracket, ts)
    ensures Reads(UNARY, AddrOfElement(n, index), ts)
  {
    IsUnary(AddrOfElement(n, index), ts);
    hide Reads, Encloses;
    EnclosedSome([Op1('&'), Ident(n), LBracket], index, RBracket, ts);
    assert ReadsBare(AddrOfElement(n, index), ts);
  }

  lemma EnclosedSome(front: seq<Token>, e: Expr, close: Token, ts: seq<Token>)
    requires Encloses(front, e, close, ts)
    ensures ts != []
  {
  }

  lemma AddressText(n: string, ts: seq<Token>)
    requires ts == [Op1('&'), Ident(n)]
    ensures Reads(UNARY, AddrOf(n), ts)
  {
    IsUnary(AddrOf(n), ts);
    hide Reads;
    assert ReadsBare(AddrOf(n), ts);
  }

  lemma PrimarySound(ts: seq<Token>)
    requires ts != []
    ensures Sound(UNARY, ts, ParsePrimary(ts))
    decreases |ts|, 0, 0
  {
    hide ParseUnary, ParseExpr, ParseArgs, Reads, SkipCast;
    match ts[0]
    case Ident(n) =>
      if Starts(ts[1..], LParen) {
        ArgsSound(ts[2..]);
        CallSound(ts);
      } else {
        if Starts(ts[1..], LBracket) { ExprSound(ts[2..]); }
        NameSound(ts);
      }
    case LParen =>
      var cast := SkipCast(ts[1..]);
      if cast.Some? {
        UnarySound(cast.value);
        CastSound(ts);
      } else {
        ExprSound(ts[1..]);
        ParenSound(ts);
      }
    case _ => LiteralSound(ts);
  }

  lemma LiteralSound(ts: seq<Token>)
    requires ts != [] && !ts[0].Ident? && !ts[0].LParen?
    ensures Sound(UNARY, ts, ParsePrimary(ts))
  {
    hide Reads;
    if ParsePrimary(ts).Some? {
      var e := ParsePrimary(ts).value.0;
      IsUnary(e, ts[..1]);
      assert ts[..1] == [ts[0]];
      assert ReadsBare(e, ts[..1]);
    }
  }

  lemma NameSound(ts: seq<Token>)
    requires ts != [] && ts[0].Ident? && !Starts(ts[1..], LParen)
    requires Starts(ts[1..], LBracket) ==> Sound(1, ts[2..], ParseExpr(ts[2..]))
    ensures Sound(UNARY, ts, ParsePrimary(ts))
  {
    hide ParseExpr, ParseUnary, ParseArgs, Reads;
    if ParsePrimary(ts).Some? {
      var (e, rest) := ParsePrimary(ts).value;
      var n := |ts| - |rest|;
      IsUnary(e, ts[..n]);
      if Starts(ts[1..], LBracket) {
        var front := [ts[0], LBracket];
        assert ts[..2] == front;
        Enclosed(front, ts, ParseExpr(ts[2..]).value.0, ParseExpr(ts[2..]).value.1, RBracket);
      } else {
        assert ts[..1] == [ts[0]];
      }
      assert ReadsBare(e, ts[..n]);
    }
  }

  lemma ParenSound(ts: seq<Token>)
    requires ts != [] && ts[0] == LParen && SkipCast(ts[1..]).None? && Sound(1, ts[1..], ParseExpr(ts[1..]))
    ensures Sound(UNARY, ts, ParsePrimary(ts))
  {
    hide ParseExpr, ParseUnary, ParseArgs, Reads, SkipCast;
    if ParsePrimary(ts).Some? {
      var (e, rest) := ParsePrimary(ts).value;
      var n := |ts| - |rest|;
      IsUnary(e, ts[..n]);
      assert ts[..1] == [LParen];
      Enclosed([LParen], ts, e, ParseExpr(ts[1..]).value.1, RParen);
      assert Reads(1, e, ts[..n][1..|ts[..n]| - 1]);
    }
  }

  lemma {:induction false} StarsBefore(ts: seq<Token>) returns (k: nat)
    ensures k <= |ts| && SkipStars(ts) == ts[k..] && forall i :: 0 <= i < k ==> ts[i] == Op1('*')
    decreases |ts|
  {
    k := 0;
    if Starts(ts, Op1('*')) {
      k := StarsBefore(ts[1..]);
      assert ts[1..][k..] == ts[k + 1..];
      assert forall i :: 0 <= i < k ==> ts[1..][i] == ts[i + 1];
      k := k + 1;
    }
  }

  lemma CastText(ts: seq<Token>, stars: nat, n: nat)
    requires stars + 3 <= n <= |ts| && IsTypeWord(ts[1]) && ts[stars + 2] == RParen
    requires forall i :: 2 <= i < stars + 2 ==> ts[i] == Op1('*')
    ensures IsCast(ts[..n][1..stars + 3])
  {
  }

  lemma CastSound(ts: seq<Token>)
    requires ts != [] && ts[0] == LParen && SkipCast(ts[1..]).Some?
    requires Sound(UNARY, SkipCast(ts[1..]).value, ParseUnary(SkipCast(ts[1..]).value))
    ensures Sound(UNARY, ts, ParsePrimary(ts))
  {
    hide ParseExpr, ParseUnary, ParseArgs, Reads, SkipStars;
    var stars := StarsBefore(ts[1..][1..]);
    CastCut(ts, stars);
    if ParsePrimary(ts).Some? {
      var (e, rest) := ParsePrimary(ts).value;
      CastRead(ts, stars, e, rest);
    }
  }

  lemma CastCut(ts: seq<Token>, stars: nat)
    requires |ts| > 2 && stars <= |ts| - 2 && SkipStars(ts[1..][1..]) == ts[1..][1..][stars..]
    requires forall i :: 0 <= i < stars ==> ts[1..][1..][i] == Op1('*')
    ensures ts[1..][1..][stars..] == ts[stars + 2..]
    ensures forall i :: 2 <= i < stars + 2 ==> ts[i] == Op1('*')
  {
    assert forall i :: 2 <= i < stars + 2 ==> ts[i] == ts[1..][1..][i - 2];
  }

  lemma CastRead(ts: seq<Token>, stars: nat, e: Expr, rest: seq<Token>)
    requires stars + 3 <= |ts| && ts[0] == LParen && IsTypeWord(ts[1]) && ts[stars + 2] == RParen
    requires forall i :: 2 <= i < stars + 2 ==> ts[i] == Op1('*')
    requires Sound(UNARY, ts[stars + 3..], Some((e, rest)))
    ensures Sound(UNARY, ts, Some((e, rest)))
  {
    hide Reads;
    var k, n := stars + 3, |ts| - |rest|;
    CastText(ts, stars, n);
    Prefixed(ts, k, n - k);
    assert ts[..n][k..] == ts[k..][..n - k];
    IsUnary(e, ts[..n]);
    IsUnary(e, ts[..n][k..]);
  }

  /** A text of the arguments, and the closing parenthesis. */
  ghost predicate Closed(args: seq<Expr>, ts: seq<Token>, rest: seq<Token>) {
    var n := |ts| - |rest|;
    0 < n <= |ts| && rest == ts[n..] && ts[n - 1] == RParen && ReadsArgs(args, ts[..n - 1])
  }

  lemma ArgsSound(ts: seq<Token>)
    ensures var r := ParseArgs(ts); r.Some? ==> Closed(r.value.0, ts, r.value.1)
    decreases |ts|, UNARY + 1
  {
    hide ParseExpr, Reads, Sound, Closed;
    if ts != [] && ts[0] == RParen {
      NoArgs(ts);
    } else if ts != [] {
      ExprSound(ts);
      if ParseExpr(ts).Some? {
        var (e, rest) := ParseExpr(ts).value;
        ArgsSound(AfterComma(rest));
        var r := ParseArgs(AfterComma(rest));
        if r.Some? { MoreArgs(ts, e, rest, r.value.0, r.value.1); }
      }
    }
  }

  lemma NoArgs(ts: seq<Token>)
    requires ts != [] && ts[0] == RParen
    ensures Closed([], ts, ts[1..])
  {
    assert ts[..0] == [];
  }

  lemma MoreArgs(ts: seq<Token>, e: Expr, rest: seq<Token>, more: seq<Expr>, after: seq<Token>)
    requires Sound(1, ts, Some((e, rest))) && Closed(more, AfterComma(rest), after)
    ensures Closed([e] + more, ts, after)
  {
    hide Reads, ReadsArgs, AfterComma;
    var i, j, n := |ts| - |rest|, |ts| - |AfterComma(rest)|, |ts| - |after|;
    AfterCommaIs(ts, i);
    Prefixed(ts, j, n - j);
    CommaCut(ts, i, n - 1);
    CutTwice(ts, j, n);
    assert ts[..n - 1][..i] == ts[..i];
    ArgText(e, more, ts[..n - 1], i);
  }

  lemma AfterCommaIs(ts: seq<Token>, i: nat)
    requires i <= |ts|
    ensures var j := |ts| - |AfterComma(ts[i..])|; i <= j <= |ts| && AfterComma(ts[i..]) == ts[j..]
  {
  }

  lemma CutTwice(ts: seq<Token>, j: nat, n: nat)
    requires j < n <= |ts|
    ensures ts[j..][n - j - 1] == ts[n - 1] && ts[j..][..n - j - 1] == ts[j..n - 1]
  {
  }

  /** A comma behind the first argument is behind it in the text as well. */
  lemma CommaCut(ts: seq<Token>, i: nat, n: nat)
    requires i <= |ts| && |ts| - |AfterComma(ts[i..])| <= n < |ts| && ts[n] == RParen
    ensures i <= n && AfterComma(ts[..n][i..]) == AfterComma(ts[i..])[..n - (|ts| - |AfterComma(ts[i..])|)]
  {
    assert ts[..n][i..] == ts[i..n];
  }

  lemma ArgText(e: Expr, more: seq<Expr>, all: seq<Token>, i: nat)
    requires 0 < i <= |all| && Reads(1, e, all[..i]) && ReadsArgs(more, AfterComma(all[i..]))
    ensures ReadsArgs([e] + more, all)
  {
    assert ([e] + more)[1..] == more;
    hide Reads;
  }

  lemma CallSound(ts: seq<Token>)
    requires ts != [] && ts[0].Ident? && Starts(ts[1..], LParen)
    requires var r := ParseArgs(ts[2..]); r.Some? ==> Closed(r.value.0, ts[2..], r.value.1)
    ensures Sound(UNARY, ts, ParsePrimary(ts))
  {
    hide ParseExpr, ParseUnary, ParseArgs, Reads, ReadsArgs, Closed;
    if ParsePrimary(ts).Some? { CallRead(ts, ParseArgs(ts[2..]).value.0, ParseArgs(ts[2..]).value.1); }
  }

  lemma CallRead(ts: seq<Token>, args: seq<Expr>, rest: seq<Token>)
    requires |ts| >= 2 && ts[0].Ident? && ts[1] == LParen && Closed(args, ts[2..], rest)
    ensures Sound(UNARY, ts, Some((FuncCall(ts[0].name, args), rest)))
  {
    hide Reads, ReadsArgs;
    var e, n := FuncCall(ts[0].name, args), |ts| - |rest|;
    Prefixed(ts, 2, n - 2);
    IsUnary(e, ts[..n]);
    CallText(ts, n);
    assert ReadsBare(e, ts[..n]);
  }

  lemma CallText(ts: seq<Token>, n: nat)
    requires 3 <= n <= |ts|
    ensures ts[..n][..2] == [ts[0], ts[1]] && ts[..n][2..n - 1] == ts[2..][..n - 3]
  {
  }

  /** Whatever the parser accepts as an expression is a text of the tree that it returns, and the rest is untouched. */
  lemma ParseIsSound(ts: seq<Token>)
    ensures var r := ParseExpr(ts);
            r.Some? ==> var n := |ts| - |r.value.1|;
              0 < n <= |ts| && ts == ts[..n] + r.value.1 && Reads(1, r.value.0, ts[..n])
  {
    hide ParseExpr, Reads;
    ExprSound(ts);
  }
}
