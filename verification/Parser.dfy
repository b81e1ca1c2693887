/**
 The expression grammar of the Cypher subset: OR over AND over NOT over
 comparison over primary, with nested call arguments. Trees, their printing to
 tokens, the recursive-descent parser, and the two directions between them.
 A literal keeps its token text; strconv is not part of this model.
 */
module Parser {
  import opened Types

  datatype CompOp = Eq | Neq | Lt | Gt | Lte | Gte

  datatype Literal = StrLit(text: Str) | IntLit(text: Str) | FloatLit(text: Str) | TrueLit | FalseLit | NullLit

  datatype Token =
    | Ident(text: Str)
    | TypeWord(text: Str)
    | ParamTok(text: Str)
    | LitTok(lit: Literal)
    | OpTok(op: CompOp)
    | AndTok | OrTok | NotTok
    | LParen | RParen | Comma | Dot
    | Eof
    | OtherTok(kind: nat)

  datatype Expr =
    | Lit(lit: Literal)
    | Var(name: Str)
    | Prop(obj: Str, prop: Str)
    | Call(func: Str, args: seq<Expr>)
    | Comp(left: Expr, op: CompOp, right: Expr)
    | Chain(level: Level, operands: seq<Expr>)
    | Not(inner: Expr)
    | Param(pname: Str)

  /** ExprOr and ExprAnd differ only in operator and operand grammar. */
  datatype Level = OrLevel | AndLevel

  function Operator(l: Level): Token {
    if l == OrLevel then OrTok else AndTok
  }

  // ---- lexing of words -------------------------------------------------------------------

  function Upper(b: byte): byte {
    if 97 <= b <= 122 then b - 32 else b
  }

  /** The lexer turns the word "type", in any case, into its own token kind. */
  predicate IsTypeWord(w: Str) {
    |w| == 4 && Upper(w[0]) == 84 && Upper(w[1]) == 89 && Upper(w[2]) == 80 && Upper(w[3]) == 69
  }

  function Word(w: Str): Token {
    if IsTypeWord(w) then TypeWord(w) else Ident(w)
  }

  ghost predicate WellLexed(ts: seq<Token>) {
    forall t :: t in ts ==> (t.Ident? ==> !IsTypeWord(t.text)) && (t.TypeWord? ==> IsTypeWord(t.text))
  }

  // ---- the grammar: which trees are canonical, and how they are written ----------------------

  ghost predicate CanonPrimary(e: Expr)
    decreases e, 0
  {
    match e
    case Lit(_) => true
    case Var(_) => true
    case Param(_) => true
    case Prop(_, p) => !IsTypeWord(p)
    case Call(_, args) => forall a :: a in args ==> CanonChain(OrLevel, a)
    case _ => false
  }

  ghost predicate CanonComparison(e: Expr)
    decreases e, 1
  {
    if e.Comp? then CanonPrimary(e.left) && CanonPrimary(e.right) else CanonPrimary(e)
  }

  ghost predicate CanonNot(e: Expr)
    decreases e, 2
  {
    if e.Not? then CanonComparison(e.inner) else CanonComparison(e)
  }

  ghost predicate CanonOperand(l: Level, e: Expr)
    decreases e, if l == OrLevel then 5 else 3
  {
    if l == OrLevel then CanonChain(AndLevel, e) else CanonNot(e)
  }

  ghost predicate CanonChain(l: Level, e: Expr)
    decreases e, if l == OrLevel then 6 else 4
  {
    if e.Chain? && e.level == l then |e.operands| >= 2 && forall o :: o in e.operands ==> CanonOperand(l, o)
    else CanonOperand(l, e)
  }

  ghost function PrintPrimary(e: Expr): seq<Token>
    decreases e, 0
  {
    match e
    case Lit(l) => [LitTok(l)]
    case Var(n) => [Word(n)]
    case Param(n) => [ParamTok(n)]
    case Prop(o, p) => [Word(o), Dot, Ident(p)]
    case Call(f, args) => [Word(f), LParen] + PrintArgs(args) + [RParen]
    case _ => []
  }

  ghost function PrintArgs(args: seq<Expr>): seq<Token>
    decreases args, 10
  {
    if args == [] then [] else PrintChain(OrLevel, args[0]) + PrintMoreArgs(args[1..])
  }

  ghost function PrintMoreArgs(args: seq<Expr>): seq<Token>
    decreases args, 9
  {
    if args == [] then [] else [Comma] + PrintChain(OrLevel, args[0]) + PrintMoreArgs(args[1..])
  }

  ghost function PrintComparison(e: Expr): seq<Token>
    decreases e, 1
  {
    if e.Comp? then PrintPrimary(e.left) + [OpTok(e.op)] + PrintPrimary(e.right) else PrintPrimary(e)
  }

  ghost function PrintNot(e: Expr): seq<Token>
    decreases e, 2
  {
    if e.Not? then [NotTok] + PrintComparison(e.inner) else PrintComparison(e)
  }

  ghost function PrintOperand(l: Level, e: Expr): seq<Token>
    decreases e, if l == OrLevel then 5 else 3
  {
    if l == OrLevel then PrintChain(AndLevel, e) else PrintNot(e)
  }

  ghost function PrintRest(l: Level, es: seq<Expr>): seq<Token>
    decreases es, 8
  {
    if es == [] then [] else [Operator(l)] + PrintOperand(l, es[0]) + PrintRest(l, es[1..])
  }

  ghost function PrintChain(l: Level, e: Expr): seq<Token>
    decreases e, if l == OrLevel then 6 else 4
  {
    if e.Chain? && e.level == l && e.operands != [] then
      PrintOperand(l, e.operands[0]) + PrintRest(l, e.operands[1..])
    else PrintOperand(l, e)
  }

  // ---- the parser as functions ---------------------------------------------------------------

  datatype Parsed<+T> = Ok(value: T, next: nat) | Err

  function Cur(ts: seq<Token>, i: nat): Token {
    if i >= |ts| then Eof else ts[i]
  }

  function ParseChain(l: Level, ts: seq<Token>, i: nat): (r: Parsed<Expr>)
    ensures r.Ok? ==> i < r.next <= |ts|
    decreases |ts| - i, if l == OrLevel then 6 else 4
  {
    match ParseOperand(l, ts, i)
    case Err => Err
    case Ok(first, j) =>
      if Cur(ts, j) != Operator(l) then Ok(first, j)
      else
        match ParseRest(l, ts, j)
        case Err => Err
        case Ok(more, k) => Ok(Chain(l, [first] + more), k)
  }

  function ParseOperand(l: Level, ts: seq<Token>, i: nat): (r: Parsed<Expr>)
    ensures r.Ok? ==> i < r.next <= |ts|
    decreases |ts| - i, if l == OrLevel then 5 else 3
  {
    if l == OrLevel then ParseChain(AndLevel, ts, i) else ParseNot(ts, i)
  }

  /** (op operand)* */
  function ParseRest(l: Level, ts: seq<Token>, i: nat): (r: Parsed<seq<Expr>>)
    ensures r.Ok? ==> i <= r.next && (i <= |ts| ==> r.next <= |ts|)
    ensures r.Ok? && Cur(ts, i) == Operator(l) ==> r.value != []
    decreases |ts| - i, 8
  {
    if Cur(ts, i) != Operator(l) then Ok([], i)
    else
      match ParseOperand(l, ts, i + 1)
      case Err => Err
      case Ok(e, j) =>
        match ParseRest(l, ts, j)
        case Err => Err
        case Ok(es, k) => Ok([e] + es, k)
  }

  function ParseNot(ts: seq<Token>, i: nat): (r: Parsed<Expr>)
    ensures r.Ok? ==> i < r.next <= |ts|
    decreases |ts| - i, 2
  {
    if Cur(ts, i) == NotTok then
      match ParseComparison(ts, i + 1)
      case Err => Err
      case Ok(e, j) => Ok(Not(e), j)
    else ParseComparison(ts, i)
  }

  function ParseComparison(ts: seq<Token>, i: nat): (r: Parsed<Expr>)
    ensures r.Ok? ==> i < r.next <= |ts|
    decreases |ts| - i, 1
  {
    match ParsePrimary(ts, i)
    case Err => Err
    case Ok(left, j) =>
      if !Cur(ts, j).OpTok? then Ok(left, j)
      else
        match ParsePrimary(ts, j + 1)
        case Err => Err
        case Ok(right, k) => Ok(Comp(left, Cur(ts, j).op, right), k)
  }

  function ParsePrimary(ts: seq<Token>, i: nat): (r: Parsed<Expr>)
    ensures r.Ok? ==> i < r.next <= |ts|
    decreases |ts| - i, 0
  {
    match Cur(ts, i)
    case Ident(name) => ParseNamed(name, ts, i + 1)
    case TypeWord(name) => ParseNamed(name, ts, i + 1)
    case ParamTok(name) => Ok(Param(name), i + 1)
    case LitTok(l) => Ok(Lit(l), i + 1)
    case _ => Err
  }

  /** What follows a name: a property, a call, or nothing. */
  function ParseNamed(name: Str, ts: seq<Token>, i: nat): (r: Parsed<Expr>)
    requires i <= |ts|
    ensures r.Ok? ==> i <= r.next <= |ts|
    decreases |ts| - i, 10
  {
    if Cur(ts, i) == Dot then
      (if Cur(ts, i + 1).Ident? then Ok(Prop(name, ts[i + 1].text), i + 2) else Err)
    else if Cur(ts, i) == LParen then
      match ParseArgs(ts, i + 1)
      case Err => Err
      case Ok(args, j) => if Cur(ts, j) == RParen then Ok(Call(name, args), j + 1) else Err
    else Ok(Var(name), i)
  }

  function ParseArgs(ts: seq<Token>, i: nat): (r: Parsed<seq<Expr>>)
    ensures r.Ok? ==> i <= r.next && (i <= |ts| ==> r.next <= |ts|)
    decreases |ts| - i, 9
  {
    if Cur(ts, i) == RParen then Ok([], i)
    else
      match ParseChain(OrLevel, ts, i)
      case Err => Err
      case Ok(a, j) =>
        match ParseMoreArgs(ts, j)
        case Err => Err
        case Ok(more, k) => Ok([a] + more, k)
  }

  function ParseMoreArgs(ts: seq<Token>, i: nat): (r: Parsed<seq<Expr>>)
    ensures r.Ok? ==> i <= r.next && (i <= |ts| ==> r.next <= |ts|)
    decreases |ts| - i, 8
  {
    if Cur(ts, i) != Comma then Ok([], i)
    else
      match ParseChain(OrLevel, ts, i + 1)
      case Err => Err
      case Ok(a, j) =>
        match ParseMoreArgs(ts, j)
        case Err => Err
        case Ok(more, k) => Ok([a] + more, k)
  }

  // ---- printing then parsing -------------------------------------------------------------------

  ghost predicate At(ts: seq<Token>, i: nat, s: seq<Token>) {
    i + |s| <= |ts| && ts[i..i + |s|] == s
  }

  lemma AtSplit(ts: seq<Token>, i: nat, a: seq<Token>, b: seq<Token>)
    ensures At(ts, i, a + b) <==> At(ts, i, a) && At(ts, i + |a|, b)
  {
    if At(ts, i, a + b) {
      assert ts[i..i + |a|] == (a + b)[..|a|] && ts[i + |a|..i + |a| + |b|] == (a + b)[|a|..];
    }
    if At(ts, i, a) && At(ts, i + |a|, b) {
      assert ts[i..i + |a| + |b|] == ts[i..i + |a|] + ts[i + |a|..i + |a| + |b|];
    }
  }

  lemma SplitStep(ts: seq<Token>, i: nat, t: Token, first: seq<Token>, more: seq<Token>)
    ensures At(ts, i, [t] + first + more) <==>
              i < |ts| && ts[i] == t && At(ts, i + 1, first) && At(ts, i + 1 + |first|, more)
  {
    AtSplit(ts, i, [t] + first, more);
    AtSplit(ts, i, [t], first);
    AtOne(ts, i, t);
  }

  lemma AtOne(ts: seq<Token>, i: nat, t: Token)
    ensures At(ts, i, [t]) <==> i < |ts| && ts[i] == t
  {
  }

  lemma RestStep(l: Level, ts: seq<Token>, i: nat, e: Expr, j: nat, es: seq<Expr>, k: nat)
    requires Cur(ts, i) == Operator(l) && ParseOperand(l, ts, i + 1) == Ok(e, j) && ParseRest(l, ts, j) == Ok(es, k)
    ensures ParseRest(l, ts, i) == Ok([e] + es, k)
  {
  }

  lemma MoreArgsStep(ts: seq<Token>, i: nat, a: Expr, j: nat, more: seq<Expr>, k: nat)
    requires Cur(ts, i) == Comma && ParseChain(OrLevel, ts, i + 1) == Ok(a, j) && ParseMoreArgs(ts, j) == Ok(more, k)
    ensures ParseMoreArgs(ts, i) == Ok([a] + more, k)
  {
  }

  /** What may follow without being taken into the expression. */
  predicate EndsPrimary(t: Token) {
    t != Dot && t != LParen
  }

  predicate EndsComparison(t: Token) {
    EndsPrimary(t) && !t.OpTok?
  }

  predicate EndsOperand(l: Level, t: Token) {
    EndsComparison(t) && (l == OrLevel ==> t != AndTok)
  }

  predicate EndsChain(l: Level, t: Token) {
    EndsOperand(l, t) && t != Operator(l)
  }

  /** Canonical printings start with a name, a parameter, a literal, or (above comparisons) NOT. */
  lemma {:induction false} StartsPrimary(e: Expr)
    requires CanonPrimary(e)
    ensures var s := PrintPrimary(e); s != [] && (s[0].Ident? || s[0].TypeWord? || s[0].ParamTok? || s[0].LitTok?)
  {
  }

  lemma {:induction false} StartsChain(l: Level, e: Expr)
    requires CanonChain(l, e)
    ensures var s := PrintChain(l, e);
            s != [] && (s[0].Ident? || s[0].TypeWord? || s[0].ParamTok? || s[0].LitTok? || s[0] == NotTok)
    decreases e, if l == OrLevel then 6 else 4
  {
    if e.Chain? && e.level == l {
      assert e.operands[0] in e.operands;
      StartsOperand(l, e.operands[0]);
    } else {
      StartsOperand(l, e);
    }
  }

  lemma {:induction false} StartsOperand(l: Level, e: Expr)
    requires CanonOperand(l, e)
    ensures var s := PrintOperand(l, e);
            s != [] && (s[0].Ident? || s[0].TypeWord? || s[0].ParamTok? || s[0].LitTok? || s[0] == NotTok)
    decreases e, if l == OrLevel then 5 else 3
  {
    if l == OrLevel {
      StartsChain(AndLevel, e);
    } else {
      assert CanonNot(e) && PrintOperand(l, e) == PrintNot(e);
      if !e.Not? {
        assert CanonComparison(e) && PrintNot(e) == PrintComparison(e);
        StartsPrimary(if e.Comp? then e.left else e);
      }
    }
  }

  lemma {:induction false} ReadPrimary(ts: seq<Token>, i: nat, e: Expr)
    requires CanonPrimary(e) && At(ts, i, PrintPrimary(e)) && EndsPrimary(Cur(ts, i + |PrintPrimary(e)|))
    ensures ParsePrimary(ts, i) == Ok(e, i + |PrintPrimary(e)|)
    decreases e, 0
  {
    match e
    case Lit(_) =>
    case Var(_) =>
    case Param(_) =>
    case Prop(o, p) =>
      assert ts[i..i + 3][1] == Dot && ts[i..i + 3][2] == Ident(p);
    case Call(f, args) =>
      AtSplit(ts, i, [Word(f), LParen] + PrintArgs(args), [RParen]);
      AtSplit(ts, i, [Word(f), LParen], PrintArgs(args));
      assert ts[i..i + 2][0] == Word(f) && ts[i..i + 2][1] == LParen;
      AtOne(ts, i + 2 + |PrintArgs(args)|, RParen);
      ReadArgs(ts, i + 2, args);
  }

  lemma {:induction false} ReadArgs(ts: seq<Token>, i: nat, args: seq<Expr>)
    requires (forall a :: a in args ==> CanonChain(OrLevel, a)) && At(ts, i, PrintArgs(args))
    requires Cur(ts, i + |PrintArgs(args)|) == RParen
    ensures ParseArgs(ts, i) == Ok(args, i + |PrintArgs(args)|)
    decreases args, 10
  {
    if args != [] {
      var first, more := PrintChain(OrLevel, args[0]), PrintMoreArgs(args[1..]);
      var j := i + |first|;
      AtSplit(ts, i, first, more);
      assert PrintArgs(args) == first + more;
      StartsChain(OrLevel, args[0]);
      assert ts[i] == ts[i..j][0] == first[0];
      ReadMoreArgs(ts, j, args[1..]);
      FollowsArg(ts, j, args[1..]);
      ReadChain(OrLevel, ts, i, args[0]);
      assert args == [args[0]] + args[1..];
    }
  }

  /** After an argument comes a comma or the closing parenthesis. */
  lemma FollowsArg(ts: seq<Token>, i: nat, more: seq<Expr>)
    requires At(ts, i, PrintMoreArgs(more)) && Cur(ts, i + |PrintMoreArgs(more)|) == RParen
    ensures EndsChain(OrLevel, Cur(ts, i))
  {
    if more != [] {
      assert ts[i] == ts[i..i + |PrintMoreArgs(more)|][0] == Comma;
    }
  }

  lemma {:induction false} ReadMoreArgs(ts: seq<Token>, i: nat, args: seq<Expr>)
    requires (forall a :: a in args ==> CanonChain(OrLevel, a)) && At(ts, i, PrintMoreArgs(args))
    requires Cur(ts, i + |PrintMoreArgs(args)|) == RParen
    ensures ParseMoreArgs(ts, i) == Ok(args, i + |PrintMoreArgs(args)|)
    decreases args, 9
  {
    if args != [] {
      var first, more := PrintChain(OrLevel, args[0]), PrintMoreArgs(args[1..]);
      var j := i + 1 + |first|;
      SplitStep(ts, i, Comma, first, more);
      assert PrintMoreArgs(args) == [Comma] + first + more;
      ReadMoreArgs(ts, j, args[1..]);
      FollowsArg(ts, j, args[1..]);
      ReadChain(OrLevel, ts, i + 1, args[0]);
      MoreArgsStep(ts, i, args[0], j, args[1..], j + |more|);
      assert args == [args[0]] + args[1..];
    }
  }

  /** Two primaries with an operator between them make the comparison. */
  lemma ComparisonStep(ts: seq<Token>, i: nat, left: Expr, j: nat, op: CompOp, right: Expr, end: nat)
    requires ParsePrimary(ts, i) == Ok(left, j) && Cur(ts, j) == OpTok(op) && ParsePrimary(ts, j + 1) == Ok(right, end)
    ensures ParseComparison(ts, i) == Ok(Comp(left, op, right), end)
  {
  }

  lemma {:induction false} ReadComparison(ts: seq<Token>, i: nat, e: Expr)
    requires CanonComparison(e) && At(ts, i, PrintComparison(e)) && EndsComparison(Cur(ts, i + |PrintComparison(e)|))
    ensures ParseComparison(ts, i) == Ok(e, i + |PrintComparison(e)|)
    decreases e, 1
  {
    if e.Comp? {
      var l, r := PrintPrimary(e.left), PrintPrimary(e.right);
      AtSplit(ts, i, l + [OpTok(e.op)], r);
      AtSplit(ts, i, l, [OpTok(e.op)]);
      AtOne(ts, i + |l|, OpTok(e.op));
      ReadPrimary(ts, i, e.left);
      ReadPrimary(ts, i + |l| + 1, e.right);
      ComparisonStep(ts, i, e.left, i + |l|, e.op, e.right, i + |l| + 1 + |r|);
    } else {
      ReadPrimary(ts, i, e);
    }
  }

  lemma {:induction false} ReadNot(ts: seq<Token>, i: nat, e: Expr)
    requires CanonNot(e) && At(ts, i, PrintNot(e)) && EndsComparison(Cur(ts, i + |PrintNot(e)|))
    ensures ParseNot(ts, i) == Ok(e, i + |PrintNot(e)|)
    decreases e, 2
  {
    if e.Not? {
      AtSplit(ts, i, [NotTok], PrintComparison(e.inner));
      AtOne(ts, i, NotTok);
      ReadComparison(ts, i + 1, e.inner);
    } else {
      var first := if e.Comp? then e.left else e;
      assert CanonComparison(e);
      StartsPrimary(first);
      assert PrintNot(e) == PrintComparison(e);
      assert PrintPrimary(first) <= PrintComparison(e);
      assert PrintNot(e)[0] == PrintPrimary(first)[0];
      assert ts[i] == ts[i..i + |PrintNot(e)|][0];
      ReadComparison(ts, i, e);
    }
  }

  lemma {:induction false} ReadOperand(l: Level, ts: seq<Token>, i: nat, e: Expr)
    requires CanonOperand(l, e) && At(ts, i, PrintOperand(l, e)) && EndsOperand(l, Cur(ts, i + |PrintOperand(l, e)|))
    ensures ParseOperand(l, ts, i) == Ok(e, i + |PrintOperand(l, e)|)
    decreases e, if l == OrLevel then 5 else 3
  {
    if l == OrLevel {
      ReadChain(AndLevel, ts, i, e);
    } else {
      ReadNot(ts, i, e);
    }
  }

  lemma FollowsOperand(l: Level, ts: seq<Token>, i: nat, more: seq<Expr>)
    requires At(ts, i, PrintRest(l, more)) && EndsChain(l, Cur(ts, i + |PrintRest(l, more)|))
    ensures EndsOperand(l, Cur(ts, i))
  {
    if more != [] {
      assert ts[i] == ts[i..i + |PrintRest(l, more)|][0] == Operator(l);
    }
  }

  lemma {:induction false} ReadRest(l: Level, ts: seq<Token>, i: nat, es: seq<Expr>)
    requires (forall o :: o in es ==> CanonOperand(l, o)) && At(ts, i, PrintRest(l, es))
    requires EndsChain(l, Cur(ts, i + |PrintRest(l, es)|))
    ensures ParseRest(l, ts, i) == Ok(es, i + |PrintRest(l, es)|)
    decreases es, 8
  {
    if es != [] {
      var first, more := PrintOperand(l, es[0]), PrintRest(l, es[1..]);
      var j := i + 1 + |first|;
      SplitStep(ts, i, Operator(l), first, more);
      assert PrintRest(l, es) == [Operator(l)] + first + more;
      ReadRest(l, ts, j, es[1..]);
      FollowsOperand(l, ts, j, es[1..]);
      ReadOperand(l, ts, i + 1, es[0]);
      RestStep(l, ts, i, es[0], j, es[1..], j + |more|);
      assert es == [es[0]] + es[1..];
    }
  }

  lemma RestStarts(l: Level, ts: seq<Token>, i: nat, es: seq<Expr>)
    requires es != [] && (forall e :: e in es ==> CanonOperand(l, e)) && At(ts, i, PrintRest(l, es))
    ensures Cur(ts, i) == Operator(l)
  {
    var rest := PrintRest(l, es);
    assert rest[0] == Operator(l);
    assert ts[i] == ts[i..i + |rest|][0];
  }

  /** A first operand and a non-empty rest make the chain. */
  lemma ChainStep(l: Level, ts: seq<Token>, i: nat, e: Expr, j: nat, es: seq<Expr>, end: nat)
    requires ParseOperand(l, ts, i) == Ok(e, j) && Cur(ts, j) == Operator(l) && j <= |ts| &&
             ParseRest(l, ts, j) == Ok(es, end)
    ensures ParseChain(l, ts, i) == Ok(Chain(l, [e] + es), end)
  {
  }

  /**
   Parsing the printing of a canonical tree, wherever it stands and whatever
   follows that could not continue it, returns the tree and consumes exactly
   those tokens.
   */
  lemma {:induction false} ReadChain(l: Level, ts: seq<Token>, i: nat, e: Expr)
    requires CanonChain(l, e) && At(ts, i, PrintChain(l, e)) && EndsChain(l, Cur(ts, i + |PrintChain(l, e)|))
    ensures ParseChain(l, ts, i) == Ok(e, i + |PrintChain(l, e)|)
    decreases e, if l == OrLevel then 6 else 4
  {
    if e.Chain? && e.level == l {
      ReadOperands(l, ts, i, e.operands);
    } else {
      ReadOperand(l, ts, i, e);
    }
  }

  lemma {:induction false} ReadOperands(l: Level, ts: seq<Token>, i: nat, es: seq<Expr>)
    requires |es| >= 2 && (forall o :: o in es ==> CanonOperand(l, o))
    requires At(ts, i, PrintOperand(l, es[0]) + PrintRest(l, es[1..]))
    requires EndsChain(l, Cur(ts, i + |PrintOperand(l, es[0]) + PrintRest(l, es[1..])|))
    ensures ParseChain(l, ts, i) == Ok(Chain(l, es), i + |PrintOperand(l, es[0]) + PrintRest(l, es[1..])|)
    decreases es, 9
  {
    var first, rest := PrintOperand(l, es[0]), PrintRest(l, es[1..]);
    var j := i + |first|;
    AtSplit(ts, i, first, rest);
    FollowsOperand(l, ts, j, es[1..]);
    ReadOperand(l, ts, i, es[0]);
    ReadRest(l, ts, j, es[1..]);
    RestStarts(l, ts, j, es[1..]);
    ChainStep(l, ts, i, es[0], j, es[1..], j + |rest|);
    assert es == [es[0]] + es[1..];
  }

  // ---- parsing then printing -------------------------------------------------------------------

  lemma OperandIsNotChain(l: Level, e: Expr)
    requires CanonOperand(l, e)
    ensures !(e.Chain? && e.level == l)
  {
    if e.Chain? && e.level == l {
      if l == OrLevel {
        assert CanonChain(AndLevel, e) && CanonOperand(AndLevel, e);
      }
      assert CanonNot(e) && CanonComparison(e) && CanonPrimary(e);
    }
  }

  lemma {:induction false} PrimaryIsPrinted(ts: seq<Token>, i: nat)
    requires WellLexed(ts) && ParsePrimary(ts, i).Ok?
    ensures var r := ParsePrimary(ts, i);
            CanonPrimary(r.value) && At(ts, i, PrintPrimary(r.value)) && r.next == i + |PrintPrimary(r.value)|
    decreases |ts| - i, 0
  {
    var t := Cur(ts, i);
    assert t in ts;
    if t.Ident? || t.TypeWord? {
      assert Word(t.text) == t;
      NamedIsPrinted(t.text, ts, i);
    }
  }

  lemma {:induction false} NamedIsPrinted(name: Str, ts: seq<Token>, i: nat)
    requires WellLexed(ts) && i < |ts| && ts[i] == Word(name) && ParseNamed(name, ts, i + 1).Ok?
    ensures var r := ParseNamed(name, ts, i + 1);
            CanonPrimary(r.value) && At(ts, i, PrintPrimary(r.value)) && r.next == i + |PrintPrimary(r.value)|
    decreases |ts| - i, 0, 0
  {
    if Cur(ts, i + 1) == Dot {
      PropertyIsPrinted(name, ts, i);
    } else if Cur(ts, i + 1) == LParen {
      ArgsArePrinted(ts, i + 2);
      CallIsPrinted(name, ts, i, ParseArgs(ts, i + 2).value);
    }
  }

  lemma PropertyIsPrinted(name: Str, ts: seq<Token>, i: nat)
    requires WellLexed(ts) && i + 2 < |ts| && ts[i] == Word(name) && ts[i + 1] == Dot && ts[i + 2].Ident?
    ensures CanonPrimary(Prop(name, ts[i + 2].text)) && At(ts, i, PrintPrimary(Prop(name, ts[i + 2].text)))
  {
    assert ts[i + 2] in ts;
    assert ts[i..i + 3] == [Word(name), Dot, ts[i + 2]];
  }

  lemma CallIsPrinted(name: Str, ts: seq<Token>, i: nat, args: seq<Expr>)
    requires i + 1 < |ts| && ts[i] == Word(name) && ts[i + 1] == LParen && At(ts, i + 2, PrintArgs(args))
    requires Cur(ts, i + 2 + |PrintArgs(args)|) == RParen
    ensures At(ts, i, PrintPrimary(Call(name, args)))
    ensures |PrintPrimary(Call(name, args))| == |PrintArgs(args)| + 3
  {
    assert PrintPrimary(Call(name, args)) == [Word(name), LParen] + PrintArgs(args) + [RParen];
    AtSplit(ts, i, [Word(name), LParen] + PrintArgs(args), [RParen]);
    AtSplit(ts, i, [Word(name), LParen], PrintArgs(args));
    AtOne(ts, i + 2 + |PrintArgs(args)|, RParen);
    assert ts[i..i + 2] == [Word(name), LParen];
  }

  lemma {:induction false} ArgsArePrinted(ts: seq<Token>, i: nat)
    requires WellLexed(ts) && i <= |ts| && ParseArgs(ts, i).Ok?
    ensures var r := ParseArgs(ts, i);
            (forall a :: a in r.value ==> CanonChain(OrLevel, a)) && At(ts, i, PrintArgs(r.value)) &&
                r.next == i + |PrintArgs(r.value)|
    decreases |ts| - i, 9
  {
    if Cur(ts, i) != RParen {
      var a := ParseChain(OrLevel, ts, i);
      ChainIsPrinted(OrLevel, ts, i);
      MoreArgsArePrinted(ts, a.next);
      var more := ParseMoreArgs(ts, a.next).value;
      AtSplit(ts, i, PrintChain(OrLevel, a.value), PrintMoreArgs(more));
      assert ([a.value] + more)[1..] == more;
    }
  }

  lemma {:induction false} MoreArgsArePrinted(ts: seq<Token>, i: nat)
    requires WellLexed(ts) && i <= |ts| && ParseMoreArgs(ts, i).Ok?
    ensures var r := ParseMoreArgs(ts, i);
            (forall a :: a in r.value ==> CanonChain(OrLevel, a)) && At(ts, i, PrintMoreArgs(r.value)) &&
                r.next == i + |PrintMoreArgs(r.value)|
    decreases |ts| - i, 8
  {
    if Cur(ts, i) == Comma {
      var a := ParseChain(OrLevel, ts, i + 1);
      ChainIsPrinted(OrLevel, ts, i + 1);
      MoreArgsArePrinted(ts, a.next);
      var more := ParseMoreArgs(ts, a.next).value;
      SplitStep(ts, i, Comma, PrintChain(OrLevel, a.value), PrintMoreArgs(more));
      assert ([a.value] + more)[1..] == more;
    }
  }

  lemma {:induction false} ComparisonIsPrinted(ts: seq<Token>, i: nat)
    requires WellLexed(ts) && ParseComparison(ts, i).Ok?
    ensures var r := ParseComparison(ts, i);
            CanonComparison(r.value) && At(ts, i, PrintComparison(r.value)) && r.next == i + |PrintComparison(r.value)|
    decreases |ts| - i, 1
  {
    var left := ParsePrimary(ts, i);
    PrimaryIsPrinted(ts, i);
    if Cur(ts, left.next).OpTok? {
      var right := ParsePrimary(ts, left.next + 1);
      PrimaryIsPrinted(ts, left.next + 1);
      var op := ts[left.next];
      AtOne(ts, left.next, op);
      AtSplit(ts, i, PrintPrimary(left.value), [op]);
      AtSplit(ts, i, PrintPrimary(left.value) + [op], PrintPrimary(right.value));
    }
  }

  lemma {:induction false} NotIsPrinted(ts: seq<Token>, i: nat)
    requires WellLexed(ts) && ParseNot(ts, i).Ok?
    ensures var r := ParseNot(ts, i);
            CanonNot(r.value) && At(ts, i, PrintNot(r.value)) && r.next == i + |PrintNot(r.value)|
    decreases |ts| - i, 2
  {
    if Cur(ts, i) == NotTok {
      ComparisonIsPrinted(ts, i + 1);
      AtSplit(ts, i, [NotTok], PrintComparison(ParseComparison(ts, i + 1).value));
    } else {
      ComparisonIsPrinted(ts, i);
    }
  }

  lemma {:induction false} OperandIsPrinted(l: Level, ts: seq<Token>, i: nat)
    requires WellLexed(ts) && ParseOperand(l, ts, i).Ok?
    ensures var r := ParseOperand(l, ts, i);
            CanonOperand(l, r.value) && At(ts, i, PrintOperand(l, r.value)) && r.next == i + |PrintOperand(l, r.value)|
    decreases |ts| - i, if l == OrLevel then 5 else 3
  {
    if l == OrLevel {
      ChainIsPrinted(AndLevel, ts, i);
    } else {
      NotIsPrinted(ts, i);
    }
  }

  lemma {:induction false} RestIsPrinted(l: Level, ts: seq<Token>, i: nat)
    requires WellLexed(ts) && i <= |ts| && ParseRest(l, ts, i).Ok?
    ensures var r := ParseRest(l, ts, i);
            (forall o :: o in r.value ==> CanonOperand(l, o)) && At(ts, i, PrintRest(l, r.value)) &&
                r.next == i + |PrintRest(l, r.value)|
    decreases |ts| - i, 8
  {
    if Cur(ts, i) == Operator(l) {
      var e := ParseOperand(l, ts, i + 1);
      OperandIsPrinted(l, ts, i + 1);
      RestIsPrinted(l, ts, e.next);
      var es := ParseRest(l, ts, e.next).value;
      SplitStep(ts, i, Operator(l), PrintOperand(l, e.value), PrintRest(l, es));
      RestPrints(l, e.value, es);
      RestStep(l, ts, i, e.value, e.next, es, ParseRest(l, ts, e.next).next);
    }
  }

  lemma RestPrints(l: Level, e: Expr, es: seq<Expr>)
    ensures PrintRest(l, [e] + es) == [Operator(l)] + PrintOperand(l, e) + PrintRest(l, es)
    ensures CanonOperand(l, e) && (forall o :: o in es ==> CanonOperand(l, o)) ==>
              forall o :: o in [e] + es ==> CanonOperand(l, o)
  {
    assert ([e] + es)[1..] == es;
  }

  /** Whatever the parser accepts is the printing of the canonical tree it returns. */
  lemma {:induction false} ChainIsPrinted(l: Level, ts: seq<Token>, i: nat)
    requires WellLexed(ts) && ParseChain(l, ts, i).Ok?
    ensures var r := ParseChain(l, ts, i);
            CanonChain(l, r.value) && At(ts, i, PrintChain(l, r.value)) && r.next == i + |PrintChain(l, r.value)|
    decreases |ts| - i, if l == OrLevel then 6 else 4
  {
    var first := ParseOperand(l, ts, i);
    OperandIsPrinted(l, ts, i);
    OperandIsNotChain(l, first.value);
    if Cur(ts, first.next) == Operator(l) {
      RestIsPrinted(l, ts, first.next);
      var more := ParseRest(l, ts, first.next).value;
      AtSplit(ts, i, PrintOperand(l, first.value), PrintRest(l, more));
      assert ([first.value] + more)[1..] == more;
    }
  }

  /** A chain of two operands prints as both with the operator between them. */
  lemma LinkOf(l: Level, a: Expr, b: Expr)
    ensures PrintChain(l, Chain(l, [a, b])) == PrintOperand(l, a) + [Operator(l)] + PrintOperand(l, b)
  {
    assert [a, b][1..] == [b] && [b][1..] == [];
    assert PrintRest(l, [b]) == [Operator(l)] + PrintOperand(l, b) + PrintRest(l, []);
  }

  lemma NameOperand(a: Str)
    ensures forall l :: CanonOperand(l, Var(a)) && PrintOperand(l, Var(a)) == [Word(a)]
  {
    var v := Var(a);
    assert CanonPrimary(v) && PrintPrimary(v) == [Word(a)];
    assert CanonComparison(v) && PrintComparison(v) == [Word(a)];
    assert CanonNot(v) && PrintNot(v) == [Word(a)];
    assert CanonOperand(AndLevel, v) && PrintOperand(AndLevel, v) == [Word(a)];
    assert CanonChain(AndLevel, v) && PrintChain(AndLevel, v) == [Word(a)];
    assert CanonOperand(OrLevel, v) && PrintOperand(OrLevel, v) == [Word(a)];
  }

  lemma NegatedOperand(c: Str, op: CompOp, d: Str)
    ensures var n := Not(Comp(Var(c), op, Var(d)));
            CanonOperand(AndLevel, n) && PrintOperand(AndLevel, n) == [NotTok, Word(c), OpTok(op), Word(d)]
  {
    var e := Comp(Var(c), op, Var(d));
    assert CanonPrimary(e.left) && PrintPrimary(e.left) == [Word(c)];
    assert CanonPrimary(e.right) && PrintPrimary(e.right) == [Word(d)];
    assert CanonComparison(e) && PrintComparison(e) == [Word(c), OpTok(op), Word(d)];
    assert CanonNot(Not(e)) && PrintNot(Not(e)) == [NotTok] + PrintComparison(e);
  }

  /** a OR b AND NOT c op d: the comparison first, then NOT, then AND, then OR. */
  lemma LevelsNest(a: Str, b: Str, c: Str, op: CompOp, d: Str)
    ensures ParseChain(OrLevel, [Word(a), OrTok, Word(b), AndTok, NotTok, Word(c), OpTok(op), Word(d)], 0) ==
              Ok(Chain(OrLevel, [Var(a), Chain(AndLevel, [Var(b), Not(Comp(Var(c), op, Var(d)))])]), 8)
  {
    var ts := [Word(a), OrTok, Word(b), AndTok, NotTok, Word(c), OpTok(op), Word(d)];
    var n := Not(Comp(Var(c), op, Var(d)));
    var both := Chain(AndLevel, [Var(b), n]);
    var e := Chain(OrLevel, [Var(a), both]);
    LinkOf(AndLevel, Var(b), n);
    LinkOf(OrLevel, Var(a), both);
    NegatedOperand(c, op, d);
    NameOperand(b);
    NameOperand(a);
    assert forall o :: o in [Var(b), n] ==> o == Var(b) || o == n;
    assert CanonChain(AndLevel, both) && CanonOperand(OrLevel, both);
    assert forall o :: o in [Var(a), both] ==> o == Var(a) || o == both;
    assert PrintChain(OrLevel, e) == ts;
    ReadChain(OrLevel, ts, 0, e);
  }

  /** Two canonical trees with the same printing are the same tree. */
  lemma PrintingIsInjective(a: Expr, b: Expr)
    requires CanonChain(OrLevel, a) && CanonChain(OrLevel, b) && PrintChain(OrLevel, a) == PrintChain(OrLevel, b)
    ensures a == b
  {
    var ts := PrintChain(OrLevel, a);
    assert ts[0..0 + |ts|] == ts;
    ReadChain(OrLevel, ts, 0, a);
    ReadChain(OrLevel, ts, 0, b);
  }

  // ---- the parser as the source runs it: methods over a moving position ----------------------------

  /** A method's result and new position agree with the parsing function. */
  ghost predicate Agrees<T>(r: Option<T>, pos: nat, p: Parsed<T>) {
    match p
    case Err => r.None?
    case Ok(v, n) => r == Some(v) && pos == n
  }

  /** Items gathered so far in a loop, with what parsing the rest would add. */
  ghost function Prepend<T>(done: seq<T>, p: Parsed<seq<T>>): Parsed<seq<T>> {
    match p
    case Err => Err
    case Ok(v, n) => Ok(done + v, n)
  }

  class TokenParser {
    const tokens: seq<Token>
    var pos: nat

    constructor (tokens: seq<Token>)
      ensures this.tokens == tokens && pos == 0
    {
      this.tokens := tokens;
      pos := 0;
    }

    function Current(): Token
      reads this
    {
      Cur(tokens, pos)
    }

    /** match: consume the token if it is the expected one. */
    method Match(t: Token) returns (ok: bool)
      modifies this
      ensures ok == (old(Current()) == t) && pos == if ok then old(pos) + 1 else old(pos)
    {
      ok := Current() == t;
      if ok {
        pos := pos + 1;
      }
    }

    /** parseExpr. */
    method ParseExpr() returns (r: Option<Expr>)
      modifies this
      ensures Agrees(r, pos, ParseChain(OrLevel, tokens, old(pos)))
      decreases |tokens| - pos, 7
    {
      r := ParseLevel(OrLevel);
    }

    /** parseOrExpr and parseAndExpr: an operand, then a loop gathering more while the operator matches. */
    method ParseLevel(l: Level) returns (r: Option<Expr>)
      modifies this
      ensures Agrees(r, pos, ParseChain(l, tokens, old(pos)))
      decreases |tokens| - pos, if l == OrLevel then 6 else 4
    {
      var first := ParseLevelOperand(l);
      if first.None? {
        return None;
      }
      if Current() != Operator(l) {
        return first;
      }
      var operands := [first.value];
      ghost var start := pos;
      var more := Match(Operator(l));
      assert operands[1..] == [];
      PrependNothing(ParseRest(l, tokens, start));
      while more
        invariant old(pos) < start <= pos && operands != [] && operands[0] == first.value
        invariant more ==> pos > 0 && Cur(tokens, pos - 1) == Operator(l)
        invariant more ==> ParseRest(l, tokens, start) == Prepend(operands[1..], ParseRest(l, tokens, pos - 1))
        invariant !more ==> ParseRest(l, tokens, start) == Ok(operands[1..], pos)
        decreases if more then 1 else 0, |tokens| - pos
      {
        assert pos <= |tokens|;
        ghost var before := pos - 1;
        var right := ParseLevelOperand(l);
        if right.None? {
          return None;
        }
        ghost var tail := ParseRest(l, tokens, pos);
        assert Prepend(operands[1..], ParseRest(l, tokens, before)) ==
                 Prepend((operands + [right.value])[1..], tail) by {
          assert (operands + [right.value])[1..] == operands[1..] + [right.value];
          GatherOne(operands[1..], right.value, tail);
        }
        operands := operands + [right.value];
        more := Match(Operator(l));
        assert operands[1..] + [] == operands[1..];
      }
      assert operands == [first.value] + operands[1..];
      r := Some(Chain(l, operands));
    }

    method ParseLevelOperand(l: Level) returns (r: Option<Expr>)
      modifies this
      ensures Agrees(r, pos, ParseOperand(l, tokens, old(pos)))
      decreases |tokens| - pos, if l == OrLevel then 5 else 3
    {
      if l == OrLevel {
        r := ParseLevel(AndLevel);
      } else {
        r := ParseNotExpr();
      }
    }

    /** parseNotExpr. */
    method ParseNotExpr() returns (r: Option<Expr>)
      modifies this
      ensures Agrees(r, pos, ParseNot(tokens, old(pos)))
      decreases |tokens| - pos, 2
    {
      var negated := Match(NotTok);
      if negated {
        var inner := ParseComparisonExpr();
        return if inner.None? then None else Some(Not(inner.value));
      }
      r := ParseComparisonExpr();
    }

    /** parseComparison. */
    method ParseComparisonExpr() returns (r: Option<Expr>)
      modifies this
      ensures Agrees(r, pos, ParseComparison(tokens, old(pos)))
      decreases |tokens| - pos, 1
    {
      var left := ParsePrimaryExpr();
      if left.None? {
        return None;
      }
      if !Current().OpTok? {
        return left;
      }
      var op := Current().op;
      pos := pos + 1;
      var right := ParsePrimaryExpr();
      r := if right.None? then None else Some(Comp(left.value, op, right.value));
    }

    /** parsePrimary. */
    method ParsePrimaryExpr() returns (r: Option<Expr>)
      modifies this
      ensures Agrees(r, pos, ParsePrimary(tokens, old(pos)))
      decreases |tokens| - pos, 0
    {
      var t := Current();
      if t.Ident? || t.TypeWord? {
        var name := t.text;
        pos := pos + 1;
        assert ParsePrimary(tokens, old(pos)) == ParseNamed(name, tokens, pos);
        if Current() == Dot {
          pos := pos + 1;
          if !Current().Ident? {
            return None;
          }
          r := Some(Prop(name, Current().text));
          pos := pos + 1;
        } else if Current() == LParen {
          pos := pos + 1;
          var args := ParseCallArgs();
          if args.None? {
            return None;
          }
          var closed := Match(RParen);
          r := if closed then Some(Call(name, args.value)) else None;
        } else {
          r := Some(Var(name));
        }
      } else if t.ParamTok? {
        pos := pos + 1;
        r := Some(Param(t.text));
      } else if t.LitTok? {
        pos := pos + 1;
        r := Some(Lit(t.lit));
      } else {
        r := None;
      }
    }

    /** The argument loop of a call. */
    method ParseCallArgs() returns (r: Option<seq<Expr>>)
      requires pos <= |tokens|
      modifies this
      ensures Agrees(r, pos, ParseArgs(tokens, old(pos)))
      decreases |tokens| - pos, 9
    {
      if Current() == RParen {
        return Some([]);
      }
      var arg := ParseExpr();
      if arg.None? {
        return None;
      }
      var args := [arg.value];
      ghost var start := pos;
      var more := Match(Comma);
      assert args[1..] == [];
      PrependNothing(ParseMoreArgs(tokens, start));
      while more
        invariant old(pos) < start <= pos && args != [] && args[0] == arg.value
        invariant more ==> pos > 0 && Cur(tokens, pos - 1) == Comma
        invariant more ==> ParseMoreArgs(tokens, start) == Prepend(args[1..], ParseMoreArgs(tokens, pos - 1))
        invariant !more ==> ParseMoreArgs(tokens, start) == Ok(args[1..], pos)
        decreases if more then 1 else 0, |tokens| - pos
      {
        ghost var before := pos - 1;
        var next := ParseExpr();
        if next.None? {
          return None;
        }
        ghost var tail := ParseMoreArgs(tokens, pos);
        assert Prepend(args[1..], ParseMoreArgs(tokens, before)) == Prepend((args + [next.value])[1..], tail) by {
          assert (args + [next.value])[1..] == args[1..] + [next.value];
          GatherOne(args[1..], next.value, tail);
        }
        args := args + [next.value];
        more := Match(Comma);
        assert args[1..] + [] == args[1..];
      }
      assert args == [arg.value] + args[1..];
      r := Some(args);
    }
  }

  lemma PrependNothing<T>(p: Parsed<seq<T>>)
    ensures Prepend([], p) == p
  {
    if p.Ok? {
      assert [] + p.value == p.value;
    }
  }

  lemma GatherOne<T>(done: seq<T>, x: T, tail: Parsed<seq<T>>)
    ensures Prepend(done, Prepend([x], tail)) == Prepend(done + [x], tail)
  {
    if tail.Ok? {
      assert done + ([x] + tail.value) == done + [x] + tail.value;
    }
  }
}
