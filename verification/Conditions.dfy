/**
 WHERE: its evaluation on a bound node, the equality an index can answer, and what its
 comparisons, NOT, AND and OR say about the values stored on the node.
 */
module Conditions {
  import opened Types
  import opened Values
  import opened Store
  import P = Parser

  /** fmt.Sprint of values and of whole nodes, and the value of a literal token. */
  datatype Env = Env(r: Render, show: Node -> Str, lit: P.Literal -> Value)

  /** What an expression can evaluate to when one node is bound. */
  datatype Cell = Val(v: Value) | NodeCell(n: Node)

  function Print(env: Env, c: Cell): Str {
    match c
    case Val(v) => env.r(v)
    case NodeCell(n) => env.show(n)
  }

  /** compareValues, on nodes too: they are neither nil, number, string nor bool. */
  function CompareCells(env: Env, a: Cell, b: Cell): int {
    if a.Val? && b.Val? then Compare(env.r, a.v, b.v)
    else if a == Val(Nil) then -1
    else if b == Val(Nil) then 1
    else CompareStr(Print(env, a), Print(env, b))
  }

  function Holds(op: P.CompOp, c: int): bool {
    match op
    case Eq => c == 0
    case Neq => c != 0
    case Lt => c < 0
    case Gt => c > 0
    case Lte => c <= 0
    case Gte => c >= 0
  }

  function Truth(c: Cell): bool {
    match c
    case Val(v) => ToBool(v)
    case NodeCell(_) => true
  }

  predicate IsIdWord(w: Str) {
    |w| == 2 && P.Upper(w[0]) == 73 && P.Upper(w[1]) == 68
  }

  /** int64 of a uint64. */
  function Signed(id: uint64): real {
    if id < TWO64 / 2 then id as real else (id - TWO64) as real
  }

  /** evalExpr with `x` bound to node `n`; None is an error. */
  function Eval(env: Env, x: Str, n: Node, e: P.Expr): Option<Cell>
    decreases e, if e.Chain? then |e.operands| + 1 else 0
  {
    match e
    case Lit(l) => Some(Val(env.lit(l)))
    case Var(y) => if y == x then Some(NodeCell(n)) else None
    case Prop(y, p) => if y != x then None else Some(Val(if p in n.props then n.props[p] else Nil))
    case Call(f, args) =>
      if !P.IsTypeWord(f) && !IsIdWord(f) then None
      else if |args| != 1 then None
      else
        (match Eval(env, x, n, args[0])
         case None => None
         case Some(Val(_)) => Some(Val(Nil))
         case Some(NodeCell(m)) => Some(Val(if P.IsTypeWord(f) then Nil else Num(Int64, Signed(m.id)))))
    case Comp(l, op, r) =>
      var a := Eval(env, x, n, l);
      if a.None? then None
      else
        var b := Eval(env, x, n, r);
        if b.None? then None else Some(Val(Bool(Holds(op, CompareCells(env, a.value, b.value)))))
    case Chain(_, _) => EvalFrom(env, x, n, e, 0)
    case Not(i) =>
      var v := Eval(env, x, n, i);
      if v.None? then None else Some(Val(Bool(!Truth(v.value))))
    case Param(_) => None
  }

  /** AND stops at the first false operand, OR at the first true one. */
  function EvalFrom(env: Env, x: Str, n: Node, e: P.Expr, k: nat): Option<Cell>
    requires e.Chain? && k <= |e.operands|
    decreases e, |e.operands| - k
  {
    if k == |e.operands| then Some(Val(Bool(e.level == P.AndLevel)))
    else
      var v := Eval(env, x, n, e.operands[k]);
      if v.None? then None
      else if Truth(v.value) == (e.level == P.OrLevel) then Some(Val(Bool(e.level == P.OrLevel)))
      else EvalFrom(env, x, n, e, k + 1)
  }

  // ---- which parts of a node an expression sees ------------------------------------------------------

  /** No comparison has the whole node as an operand. */
  predicate ValuesOnly(e: P.Expr) {
    match e
    case Comp(l, _, r) => !l.Var? && !r.Var? && ValuesOnly(l) && ValuesOnly(r)
    case Call(_, args) => forall i :: 0 <= i < |args| ==> ValuesOnly(args[i])
    case Chain(_, ops) => forall i :: 0 <= i < |ops| ==> ValuesOnly(ops[i])
    case Not(i) => ValuesOnly(i)
    case _ => true
  }

  /** The same value, or both the node. */
  predicate Alike(a: Option<Cell>, b: Option<Cell>) {
    a == b || (a.Some? && b.Some? && a.value.NodeCell? && b.value.NodeCell? && a.value.n.id == b.value.n.id)
  }

  lemma OnlyVarIsNode(env: Env, x: Str, n: Node, e: P.Expr)
    requires !e.Var? && Eval(env, x, n, e).Some?
    ensures Eval(env, x, n, e).value.Val?
  {
    if e.Chain? {
      ChainIsValue(env, x, n, e, 0);
    }
  }

  lemma {:induction false} ChainIsValue(env: Env, x: Str, n: Node, e: P.Expr, k: nat)
    requires e.Chain? && k <= |e.operands| && EvalFrom(env, x, n, e, k).Some?
    ensures EvalFrom(env, x, n, e, k).value.Val?
    decreases |e.operands| - k
  {
    if k < |e.operands| && EvalFrom(env, x, n, e, k) == EvalFrom(env, x, n, e, k + 1) {
      ChainIsValue(env, x, n, e, k + 1);
    }
  }

  /** Labels do not matter: index lookups return nodes without them. */
  lemma {:induction false} LabelsUnseen(env: Env, x: Str, n: Node, names: seq<Str>, e: P.Expr)
    requires ValuesOnly(e)
    ensures Alike(Eval(env, x, n, e), Eval(env, x, n.(labels := names), e))
    decreases e, if e.Chain? then |e.operands| + 1 else 0
  {
    var m := n.(labels := names);
    match e
    case Lit(_) =>
    case Var(_) =>
    case Prop(_, _) =>
    case Param(_) =>
    case Not(i) => LabelsUnseen(env, x, n, names, i);
    case Chain(_, _) => LabelsUnseenFrom(env, x, n, names, e, 0);
    case Call(f, args) =>
      if |args| == 1 {
        LabelsUnseen(env, x, n, names, args[0]);
      }
    case Comp(l, op, r) =>
      LabelsUnseen(env, x, n, names, l);
      LabelsUnseen(env, x, n, names, r);
      if Eval(env, x, n, l).Some? && Eval(env, x, n, r).Some? {
        OnlyVarIsNode(env, x, n, l);
        OnlyVarIsNode(env, x, n, r);
      }
  }

  lemma {:induction false} LabelsUnseenFrom(env: Env, x: Str, n: Node, names: seq<Str>, e: P.Expr, k: nat)
    requires e.Chain? && ValuesOnly(e) && k <= |e.operands|
    ensures Alike(EvalFrom(env, x, n, e, k), EvalFrom(env, x, n.(labels := names), e, k))
    decreases e, |e.operands| - k
  {
    if k < |e.operands| {
      LabelsUnseen(env, x, n, names, e.operands[k]);
      LabelsUnseenFrom(env, x, n, names, e, k + 1);
    }
  }

  // ---- equalities that WHERE implies -----------------------------------------------------------------

  /** extractWhereEquality: the first `x.p = literal`, on either side, at the top or under AND. */
  function Extract(env: Env, x: Str, e: P.Expr): Option<(Str, Value)>
    decreases e, if e.Chain? then |e.operands| + 1 else 0
  {
    match e
    case Comp(l, op, r) =>
      if op != P.Eq then None
      else if l.Prop? && l.obj == x && r.Lit? then Some((l.prop, env.lit(r.lit)))
      else if r.Prop? && r.obj == x && l.Lit? then Some((r.prop, env.lit(l.lit)))
      else None
    case Chain(level, _) => if level == P.AndLevel then ExtractFrom(env, x, e, 0) else None
    case _ => None
  }

  function ExtractFrom(env: Env, x: Str, e: P.Expr, k: nat): Option<(Str, Value)>
    requires e.Chain? && k <= |e.operands|
    decreases e, |e.operands| - k
  {
    if k == |e.operands| then None
    else
      var first := Extract(env, x, e.operands[k]);
      if first.Some? then first else ExtractFrom(env, x, e, k + 1)
  }

  /** If WHERE holds of a node, so does the extracted equality; a non-null literal makes the property present. */
  lemma {:induction false} ExtractSound(env: Env, x: Str, n: Node, e: P.Expr)
    requires Extract(env, x, e).Some? && Eval(env, x, n, e).Some? && Truth(Eval(env, x, n, e).value)
    ensures var (p, v) := Extract(env, x, e).value; Compare(env.r, if p in n.props then n.props[p] else Nil, v) == 0
    decreases e, if e.Chain? then |e.operands| + 1 else 0
  {
    match e
    case Comp(l, op, r) =>
      var (p, v) := Extract(env, x, e).value;
      var w := if p in n.props then n.props[p] else Nil;
      CompareAntisymmetric(env.r, w, v);
    case Chain(_, _) => ExtractFromSound(env, x, n, e, 0);
  }

  lemma {:induction false} ExtractFromSound(env: Env, x: Str, n: Node, e: P.Expr, k: nat)
    requires e.Chain? && e.level == P.AndLevel && k <= |e.operands| && ExtractFrom(env, x, e, k).Some?
    requires EvalFrom(env, x, n, e, k).Some? && Truth(EvalFrom(env, x, n, e, k).value)
    ensures var (p, v) := ExtractFrom(env, x, e, k).value;
            Compare(env.r, if p in n.props then n.props[p] else Nil, v) == 0
    decreases e, |e.operands| - k
  {
    if Extract(env, x, e.operands[k]).Some? {
      ExtractSound(env, x, n, e.operands[k]);
    } else {
      ExtractFromSound(env, x, n, e, k + 1);
    }
  }

  // ---- what a condition says about the stored values ---------------------------------------------------

  /** "id" and "type", in upper or lower case. */
  ghost predicate SpellsId(f: Str) {
    |f| == 2 && f[0] in {73, 105} && f[1] in {68, 100}
  }

  ghost predicate SpellsType(f: Str) {
    |f| == 4 && f[0] in {84, 116} && f[1] in {89, 121} && f[2] in {80, 112} && f[3] in {69, 101}
  }

  /** A literal, a property of the bound node, or id() or type() of it. */
  ghost predicate IsOperand(x: Str, e: P.Expr) {
    match e
    case Lit(_) => true
    case Prop(y, _) => y == x
    case Call(f, args) => (SpellsId(f) || SpellsType(f)) && args == [P.Var(x)]
    case _ => false
  }

  /** Comparisons of operands, or operands alone, under NOT, AND and OR. */
  ghost predicate Plain(x: Str, e: P.Expr) {
    match e
    case Comp(l, _, r) => IsOperand(x, l) && IsOperand(x, r)
    case Not(i) => Plain(x, i)
    case Chain(_, ops) => forall i :: 0 <= i < |ops| ==> Plain(x, ops[i])
    case _ => IsOperand(x, e)
  }

  /** A missing property is null, an ID is read as a signed 64-bit number, a node has no type. */
  ghost function Operand(env: Env, x: Str, n: Node, e: P.Expr): Value
    requires IsOperand(x, e)
  {
    match e
    case Lit(l) => env.lit(l)
    case Prop(_, p) => if p in n.props then n.props[p] else Nil
    case Call(f, _) =>
      if SpellsType(f) then Nil
      else Num(Int64, if n.id < 0x8000_0000_0000_0000 then n.id as real else n.id as real - TWO64 as real)
  }

  /**
   The six operators by value, NOT as negation, AND as "all", OR as "some"; an operand on its
   own is false if it is null, false, the empty string, or zero as int64 or float64.
   */
  ghost predicate Says(env: Env, x: Str, n: Node, e: P.Expr)
    requires Plain(x, e)
  {
    match e
    case Comp(l, op, r) =>
      var a, b := Operand(env, x, n, l), Operand(env, x, n, r);
      (match op
       case Eq => Equals(env.r, a, b)
       case Neq => !Equals(env.r, a, b)
       case Lt => Smaller(env.r, a, b)
       case Gt => Smaller(env.r, b, a)
       case Lte => Smaller(env.r, a, b) || Equals(env.r, a, b)
       case Gte => Smaller(env.r, b, a) || Equals(env.r, a, b))
    case Not(i) => !Says(env, x, n, i)
    case Chain(level, ops) =>
      if level == P.AndLevel then forall i :: 0 <= i < |ops| ==> Says(env, x, n, ops[i])
      else exists i :: 0 <= i < |ops| && Says(env, x, n, ops[i])
    case _ => Operand(env, x, n, e) !in {Nil, Bool(false), Text([]), Num(Int64, 0.0), Num(Float64, 0.0)}
  }

  lemma OperandMeans(env: Env, x: Str, n: Node, e: P.Expr)
    requires IsOperand(x, e)
    ensures Eval(env, x, n, e) == Some(Val(Operand(env, x, n, e)))
  {
    if e.Call? {
      assert Eval(env, x, n, e.args[0]) == Some(NodeCell(n));
    }
  }

  /** WHERE never errs on a plain condition, and is true of a node exactly when the condition says so. */
  lemma {:induction false} PlainMeans(env: Env, x: Str, n: Node, e: P.Expr)
    requires Plain(x, e)
    ensures Eval(env, x, n, e).Some? && Eval(env, x, n, e).value.Val?
    ensures Truth(Eval(env, x, n, e).value) <==> Says(env, x, n, e)
  {
    match e
    case Comp(l, op, r) =>
      OperandMeans(env, x, n, l);
      OperandMeans(env, x, n, r);
      CompareMeans(env.r, Operand(env, x, n, l), Operand(env, x, n, r));
    case Not(i) => PlainMeans(env, x, n, i);
    case Chain(_, ops) =>
      forall i | 0 <= i < |ops|
        ensures Eval(env, x, n, ops[i]).Some? && (Truth(Eval(env, x, n, ops[i]).value) <==> Says(env, x, n, ops[i]))
      {
        PlainMeans(env, x, n, ops[i]);
      }
      var i := ChainSettles(env, x, n, e, 0);
      if i == |ops| {
        forall j | 0 <= j < |ops| ensures Says(env, x, n, ops[j]) <==> e.level == P.AndLevel {
          assert GoesOn(env, x, n, e, j);
        }
      }
    case _ => OperandMeans(env, x, n, e);
  }

  /** Operand `i` of the chain neither errs nor settles it. */
  ghost predicate GoesOn(env: Env, x: Str, n: Node, e: P.Expr, i: nat)
    requires e.Chain? && i < |e.operands|
  {
    var v := Eval(env, x, n, e.operands[i]);
    v.Some? && (Truth(v.value) <==> e.level == P.AndLevel)
  }

  ghost predicate Reaches(env: Env, x: Str, n: Node, e: P.Expr, i: nat)
    requires e.Chain? && i < |e.operands|
  {
    forall j {:trigger GoesOn(env, x, n, e, j)} :: 0 <= j < i ==> GoesOn(env, x, n, e, j)
  }

  /**
   OR is true exactly when an operand is true and none before it errs or is true, AND is
   false exactly when one is false and none before it errs or is false; either errs exactly
   when an operand errs that is reached in this way.
   */
  lemma ChainMeans(env: Env, x: Str, n: Node, e: P.Expr)
    requires e.Chain?
    ensures Eval(env, x, n, e).None? <==>
              exists i {:trigger Reaches(env, x, n, e, i)} ::
                0 <= i < |e.operands| && Reaches(env, x, n, e, i) && Eval(env, x, n, e.operands[i]).None?
    ensures Eval(env, x, n, e) == Some(Val(Bool(e.level == P.OrLevel))) <==>
              exists i {:trigger Reaches(env, x, n, e, i)} ::
                0 <= i < |e.operands| && Reaches(env, x, n, e, i) && Eval(env, x, n, e.operands[i]).Some?
                && (Truth(Eval(env, x, n, e.operands[i]).value) <==> e.level == P.OrLevel)
    ensures Eval(env, x, n, e) == Some(Val(Bool(e.level == P.AndLevel))) <==>
              forall i {:trigger GoesOn(env, x, n, e, i)} :: 0 <= i < |e.operands| ==> GoesOn(env, x, n, e, i)
  {
    var i := ChainSettles(env, x, n, e, 0);
    forall j | 0 <= j < |e.operands| && Reaches(env, x, n, e, j) ensures j == i || GoesOn(env, x, n, e, j) {
      if i < |e.operands| && !GoesOn(env, x, n, e, j) {
        OneSettles(env, x, n, e, i, j);
      }
    }
  }

  lemma OneSettles(env: Env, x: Str, n: Node, e: P.Expr, i: nat, j: nat)
    requires e.Chain? && i < |e.operands| && j < |e.operands|
    requires Reaches(env, x, n, e, i) && !GoesOn(env, x, n, e, i)
    requires Reaches(env, x, n, e, j) && !GoesOn(env, x, n, e, j)
    ensures i == j
  {
  }

  /** The first operand that errs or settles the chain, or the end of the chain. */
  lemma {:induction false} ChainSettles(env: Env, x: Str, n: Node, e: P.Expr, k: nat) returns (i: nat)
    requires e.Chain? && k <= |e.operands| && forall j :: 0 <= j < k ==> GoesOn(env, x, n, e, j)
    ensures k <= i <= |e.operands| && forall j :: 0 <= j < i ==> GoesOn(env, x, n, e, j)
    ensures i < |e.operands| ==> Reaches(env, x, n, e, i) && !GoesOn(env, x, n, e, i)
    ensures i == |e.operands| ==> EvalFrom(env, x, n, e, k) == Some(Val(Bool(e.level == P.AndLevel)))
    ensures i < |e.operands| ==>
              EvalFrom(env, x, n, e, k) ==
                if Eval(env, x, n, e.operands[i]).None? then None else Some(Val(Bool(e.level == P.OrLevel)))
    decreases |e.operands| - k
  {
    if k == |e.operands| || !GoesOn(env, x, n, e, k) {
      i := k;
    } else {
      i := ChainSettles(env, x, n, e, k + 1);
    }
  }

  /** A call errs exactly if it is neither id nor type, has other than one argument, or its argument errs. */
  lemma CallErrsExactly(env: Env, x: Str, n: Node, f: Str, args: seq<P.Expr>)
    ensures Eval(env, x, n, P.Call(f, args)).None? <==>
              (!SpellsId(f) && !SpellsType(f)) || |args| != 1 || Eval(env, x, n, args[0]).None?
  {
    var e := P.Call(f, args);
    assert e.args == args;
    assert IsIdWord(f) <==> SpellsId(f);
    assert P.IsTypeWord(f) <==> SpellsType(f);
  }

  /** `x.p op b` with a stored number a: the comparison of the real numbers a and b. */
  lemma NumbersCompare(env: Env, x: Str, n: Node, p: Str, op: P.CompOp, l: P.Literal)
    requires p in n.props && n.props[p].Num? && env.lit(l).Num?
    ensures var a, b := n.props[p].num, env.lit(l).num;
            var v := Eval(env, x, n, P.Comp(P.Prop(x, p), op, P.Lit(l)));
            && v.Some? && v.value.Val? && v.value.v.Bool?
            && (op == P.Lt ==> (v.value.v.flag <==> a < b)) && (op == P.Gt ==> (v.value.v.flag <==> a > b))
            && (op == P.Lte ==> (v.value.v.flag <==> a <= b)) && (op == P.Gte ==> (v.value.v.flag <==> a >= b))
            && (op == P.Eq ==> (v.value.v.flag <==> a == b)) && (op == P.Neq ==> (v.value.v.flag <==> a != b))
  {
    PlainMeans(env, x, n, P.Comp(P.Prop(x, p), op, P.Lit(l)));
  }

  lemma {:induction false} PlainSeesValues(x: Str, e: P.Expr)
    requires Plain(x, e)
    ensures ValuesOnly(e)
  {
    match e
    case Not(i) => PlainSeesValues(x, i);
    case Chain(_, ops) =>
      forall i | 0 <= i < |ops| ensures ValuesOnly(ops[i]) {
        PlainSeesValues(x, ops[i]);
      }
    case _ =>
  }
}
