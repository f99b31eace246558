/** The arithmetic behind the 24-point game: expression trees over integers,
    their exact value, the tree Python's grammar gives an unbracketed
    expression, and the five ways to bracket four numbers. */
module Arith24 {
  import opened Optional

  datatype Op = Add | Sub | Mul | Div

  datatype Expr = Num(n: int) | Bin(op: Op, left: Expr, right: Expr)

  predicate Multiplicative(op: Op) {
    op == Mul || op == Div
  }

  // ---------------------------------------------------------------- evaluation

  /** One operator on exact rationals; dividing by zero is the only failure. */
  function Apply(op: Op, x: real, y: real): (r: Option<real>)
    ensures r.None? <==> op == Div && y == 0.0
    ensures r.Some? && op == Div ==> r.value * y == x
  {
    match op
    case Add => Some(x + y)
    case Sub => Some(x - y)
    case Mul => Some(x * y)
    case Div => if y == 0.0 then None else Some(x / y)
  }

  /** The exact value of an expression, None when some division has a zero divisor
      (Python raises ZeroDivisionError there). */
  function Eval(e: Expr): Option<real> {
    match e
    case Num(n) => Some(n as real)
    case Bin(op, l, r) =>
      var x, y := Eval(l), Eval(r);
      if x.Some? && y.Some? then Apply(op, x.value, y.value) else None
  }

  /** Some division inside e has a divisor whose value is zero. */
  predicate DividesByZero(e: Expr) {
    match e
    case Num(_) => false
    case Bin(op, l, r) => DividesByZero(l) || DividesByZero(r) || (op == Div && Eval(r) == Some(0.0))
  }

  /** An expression has no value exactly when it divides by zero somewhere. */
  lemma {:induction false} EvalFailsIffDividesByZero(e: Expr)
    ensures Eval(e).None? <==> DividesByZero(e)
  {
    match e
    case Num(_) =>
    case Bin(op, l, r) =>
      EvalFailsIffDividesByZero(l);
      EvalFailsIffDividesByZero(r);
  }

  // ---------------------------------------------------------------- reading an expression left to right

  /** The numbers of e, left to right. */
  function Leaves(e: Expr): (ns: seq<int>)
    ensures |ns| >= 1
  {
    match e
    case Num(n) => [n]
    case Bin(_, l, r) => Leaves(l) + Leaves(r)
  }

  /** The operators of e, left to right: one fewer than its numbers. */
  function Ops(e: Expr): (ops: seq<Op>)
    ensures |ops| + 1 == |Leaves(e)|
  {
    match e
    case Num(_) => []
    case Bin(op, l, r) => Ops(l) + [op] + Ops(r)
  }

  // ---------------------------------------------------------------- Python's precedence

  /** A product: numbers joined by * and /, grouped to the left. */
  predicate IsTerm(e: Expr) {
    match e
    case Num(_) => true
    case Bin(op, l, r) => Multiplicative(op) && IsTerm(l) && r.Num?
  }

  /** A sum of products: products joined by + and -, grouped to the left; the
      shape Python's grammar gives an expression without brackets. */
  predicate IsSum(e: Expr) {
    IsTerm(e) || (e.Bin? && !Multiplicative(e.op) && IsSum(e.left) && IsTerm(e.right))
  }

  /** The left-grouped product of ns under the operators ops. */
  function Term(ns: seq<int>, ops: seq<Op>): Expr
    requires |ns| == |ops| + 1
    decreases |ops|
  {
    if ops == [] then Num(ns[0])
    else Bin(ops[|ops| - 1], Term(ns[..|ns| - 1], ops[..|ops| - 1]), Num(ns[|ns| - 1]))
  }

  /** The position of the last + or -, or -1. */
  function LastAdditive(ops: seq<Op>): (k: int)
    ensures -1 <= k < |ops|
    ensures k >= 0 ==> !Multiplicative(ops[k])
    ensures forall j :: k < j < |ops| ==> Multiplicative(ops[j])
  {
    if ops == [] then -1
    else if !Multiplicative(ops[|ops| - 1]) then |ops| - 1
    else LastAdditive(ops[..|ops| - 1])
  }

  /** The tree of the unbracketed text n0 o0 n1 o1 ... : the last + or - is the
      root, everything before it is again a sum and everything after it a product. */
  function FlatExpr(ns: seq<int>, ops: seq<Op>): Expr
    requires |ns| == |ops| + 1
    decreases |ops|
  {
    var k := LastAdditive(ops);
    if k < 0 then Term(ns, ops)
    else Bin(ops[k], FlatExpr(ns[..k + 1], ops[..k]), Term(ns[k + 1..], ops[k + 1..]))
  }

  lemma {:induction false} TermShape(ns: seq<int>, ops: seq<Op>)
    requires |ns| == |ops| + 1
    requires forall j :: 0 <= j < |ops| ==> Multiplicative(ops[j])
    ensures IsTerm(Term(ns, ops)) && Leaves(Term(ns, ops)) == ns && Ops(Term(ns, ops)) == ops
    decreases |ops|
  {
    if ops != [] {
      TermShape(ns[..|ns| - 1], ops[..|ops| - 1]);
      assert ns[..|ns| - 1] + [ns[|ns| - 1]] == ns;
      assert ops[..|ops| - 1] + [ops[|ops| - 1]] + [] == ops;
    }
  }

  /** The unbracketed tree keeps the numbers and operators in order and has
      Python's precedence shape. */
  lemma {:induction false} FlatShape(ns: seq<int>, ops: seq<Op>)
    requires |ns| == |ops| + 1
    ensures IsSum(FlatExpr(ns, ops))
    ensures Leaves(FlatExpr(ns, ops)) == ns && Ops(FlatExpr(ns, ops)) == ops
    decreases |ops|
  {
    var k := LastAdditive(ops);
    if k < 0 {
      TermShape(ns, ops);
    } else {
      FlatShape(ns[..k + 1], ops[..k]);
      TermShape(ns[k + 1..], ops[k + 1..]);
      SplitAt(ns, k + 1);
      Around(ops, k);
    }
  }

  lemma SplitAt<T>(s: seq<T>, k: int)
    requires 0 <= k <= |s|
    ensures s[..k] + s[k..] == s
  {
  }

  lemma Around<T>(s: seq<T>, k: int)
    requires 0 <= k < |s|
    ensures s[..k] + [s[k]] + s[k + 1..] == s
  {
    assert s[..k + 1] == s[..k] + [s[k]];
  }

  lemma {:induction false} TermUnique(e: Expr)
    requires IsTerm(e)
    ensures forall j :: 0 <= j < |Ops(e)| ==> Multiplicative(Ops(e)[j])
    ensures e == Term(Leaves(e), Ops(e))
  {
    match e
    case Num(_) =>
    case Bin(op, l, r) =>
      TermUnique(l);
      var ns, ops := Leaves(e), Ops(e);
      assert ns == Leaves(l) + [r.n] && ops == Ops(l) + [op];
      assert ns[..|ns| - 1] == Leaves(l) && ops[..|ops| - 1] == Ops(l);
  }

  lemma {:induction false} LastAdditiveOf(a: seq<Op>, op: Op, b: seq<Op>)
    requires !Multiplicative(op)
    requires forall j :: 0 <= j < |b| ==> Multiplicative(b[j])
    ensures LastAdditive(a + [op] + b) == |a|
  {
    var ops := a + [op] + b;
    if b != [] {
      assert ops[..|ops| - 1] == a + [op] + b[..|b| - 1];
      LastAdditiveOf(a, op, b[..|b| - 1]);
    }
  }

  /** Python's grammar is unambiguous: a tree of the precedence shape is the one
      FlatExpr builds from its numbers and operators. */
  lemma {:induction false} FlatUnique(e: Expr)
    requires IsSum(e)
    ensures e == FlatExpr(Leaves(e), Ops(e))
  {
    if IsTerm(e) {
      TermUnique(e);
    } else {
      var op, l, r := e.op, e.left, e.right;
      FlatUnique(l);
      TermUnique(r);
      LastAdditiveOf(Ops(l), op, Ops(r));
      var ns, ops := Leaves(e), Ops(e);
      var k := |Ops(l)|;
      assert ns[..k + 1] == Leaves(l) && ns[k + 1..] == Leaves(r);
      assert ops[..k] == Ops(l) && ops[k] == op && ops[k + 1..] == Ops(r);
    }
  }

  // ---------------------------------------------------------------- the five bracketings

  /** The five bracket patterns over a b c d, in the order the solver tries them:
      ((a.b).c).d, (a.(b.c)).d, (a.b).(c.d), a.((b.c).d), a.(b.(c.d)). */
  function Bracketed(k: nat, ns: seq<int>, o1: Op, o2: Op, o3: Op): Expr
    requires k < 5 && |ns| == 4
  {
    var a, b, c, d := Num(ns[0]), Num(ns[1]), Num(ns[2]), Num(ns[3]);
    if k == 0 then Bin(o3, Bin(o2, Bin(o1, a, b), c), d)
    else if k == 1 then Bin(o3, Bin(o1, a, Bin(o2, b, c)), d)
    else if k == 2 then Bin(o2, Bin(o1, a, b), Bin(o3, c, d))
    else if k == 3 then Bin(o1, a, Bin(o3, Bin(o2, b, c), d))
    else Bin(o1, a, Bin(o2, b, Bin(o3, c, d)))
  }

  /** Every pattern keeps the numbers and the operators in their given order. */
  lemma BracketedKeepsOrder(k: nat, ns: seq<int>, o1: Op, o2: Op, o3: Op)
    requires k < 5 && |ns| == 4
    ensures Leaves(Bracketed(k, ns, o1, o2, o3)) == ns
    ensures Ops(Bracketed(k, ns, o1, o2, o3)) == [o1, o2, o3]
  {
    var a, b, c, d := Num(ns[0]), Num(ns[1]), Num(ns[2]), Num(ns[3]);
    var e := Bracketed(k, ns, o1, o2, o3);
    Cuts(ns);
    if k == 0 || k == 1 {
      var l := if k == 0 then Bin(o2, Bin(o1, a, b), c) else Bin(o1, a, Bin(o2, b, c));
      Triple(o1, o2, a, b, c, k == 0);
      assert e == Bin(o3, l, d);
      assert Leaves(e) == [ns[0], ns[1], ns[2]] + [ns[3]];
      assert Ops(e) == [o1, o2] + [o3] + [];
    } else if k == 2 {
      Pair(o1, a, b);
      Pair(o3, c, d);
      assert Leaves(e) == [ns[0], ns[1]] + [ns[2], ns[3]];
      assert Ops(e) == [o1] + [o2] + [o3];
    } else {
      var r := if k == 3 then Bin(o3, Bin(o2, b, c), d) else Bin(o2, b, Bin(o3, c, d));
      Triple(o2, o3, b, c, d, k == 3);
      assert e == Bin(o1, a, r);
      assert Leaves(e) == [ns[0]] + [ns[1], ns[2], ns[3]];
      assert Ops(e) == [] + [o1] + [o2, o3];
    }
  }

  lemma Cuts(ns: seq<int>)
    requires |ns| == 4
    ensures ns == [ns[0], ns[1], ns[2]] + [ns[3]] == [ns[0], ns[1]] + [ns[2], ns[3]] == [ns[0]] + [ns[1], ns[2], ns[3]]
  {
  }

  /** Both groupings of three numbers keep their order. */
  lemma Triple(p: Op, q: Op, x: Expr, y: Expr, z: Expr, left: bool)
    requires x.Num? && y.Num? && z.Num?
    ensures var e := if left then Bin(q, Bin(p, x, y), z) else Bin(p, x, Bin(q, y, z));
      Leaves(e) == [x.n, y.n, z.n] && Ops(e) == [p, q]
  {
    Pair(p, x, y);
    Pair(q, y, z);
  }

  lemma Pair(p: Op, x: Expr, y: Expr)
    requires x.Num? && y.Num?
    ensures Leaves(Bin(p, x, y)) == [x.n, y.n] && Ops(Bin(p, x, y)) == [p]
  {
  }

  lemma OneLeaf(e: Expr)
    requires |Leaves(e)| == 1
    ensures e == Num(Leaves(e)[0])
  {
  }

  lemma TwoLeaves(e: Expr)
    requires |Leaves(e)| == 2
    ensures e == Bin(Ops(e)[0], Num(Leaves(e)[0]), Num(Leaves(e)[1]))
  {
    match e
    case Num(_) =>
    case Bin(_, l, r) =>
      OneLeaf(l);
      OneLeaf(r);
  }

  /** Every expression over four numbers is one of the five bracketings of its
      numbers and operators, so trying the five patterns tries every expression. */
  lemma EveryBracketing(e: Expr)
    requires |Leaves(e)| == 4
    ensures exists k :: 0 <= k < 5 && e == Bracketed(k, Leaves(e), Ops(e)[0], Ops(e)[1], Ops(e)[2])
  {
    var ns, ops := Leaves(e), Ops(e);
    var l, r := e.left, e.right;
    if |Leaves(l)| == 1 {
      OneLeaf(l);
      var rl, rr := r.left, r.right;
      if |Leaves(rl)| == 1 {
        OneLeaf(rl);
        TwoLeaves(rr);
        assert Ops(rr) == [rr.op] && Ops(r) == [r.op] + Ops(rr);
        assert ops == [e.op, r.op, rr.op];
        assert e == Bracketed(4, ns, ops[0], ops[1], ops[2]);
      } else {
        TwoLeaves(rl);
        OneLeaf(rr);
        assert ops == [e.op, rl.op, r.op];
        assert e == Bracketed(3, ns, ops[0], ops[1], ops[2]);
      }
    } else if |Leaves(l)| == 2 {
      TwoLeaves(l);
      TwoLeaves(r);
      assert ops == [l.op, e.op, r.op];
      assert e == Bracketed(2, ns, ops[0], ops[1], ops[2]);
    } else {
      OneLeaf(r);
      var ll, lr := l.left, l.right;
      if |Leaves(ll)| == 1 {
        OneLeaf(ll);
        TwoLeaves(lr);
        assert ops == [l.op, lr.op, e.op];
        assert e == Bracketed(1, ns, ops[0], ops[1], ops[2]);
      } else {
        TwoLeaves(ll);
        OneLeaf(lr);
        assert ops == [ll.op, l.op, e.op];
        assert e == Bracketed(0, ns, ops[0], ops[1], ops[2]);
      }
    }
  }
}
