/** The 24-point engine: deal four numbers, search every ordering, operator
    triple and bracketing for an expression worth 24, classify a combination
    as solvable, and read the plain-text list of solvable combinations. */
module Game24 {
  import opened Optional
  import opened Text
  import opened Arith24

  /** The mode in which expressions are written without brackets. */
  const FLAT := "without_parentheses"
  const NO_SOLUTION := "无解"
  const NO_NUMBERS := "请先生成数字"

  /** self.operations, indexed by the operator loops. */
  const OPS: seq<Op> := [Add, Sub, Mul, Div]

  function OpText(op: Op): string {
    match op
    case Add => "+"
    case Sub => "-"
    case Mul => "*"
    case Div => "/"
  }

  // ---------------------------------------------------------------- orderings of the four numbers

  /** An ordering of the positions 0..3. */
  predicate IsPerm4(p: seq<int>) {
    && |p| == 4
    && (forall i :: 0 <= i < 4 ==> 0 <= p[i] < 4)
    && (forall i, j :: 0 <= i < j < 4 ==> p[i] != p[j])
  }

  /** permutations(range(4), 4), lexicographically. */
  const PERMS: seq<seq<int>> := [
    [0, 1, 2, 3], [0, 1, 3, 2], [0, 2, 1, 3], [0, 2, 3, 1], [0, 3, 1, 2], [0, 3, 2, 1],
    [1, 0, 2, 3], [1, 0, 3, 2], [1, 2, 0, 3], [1, 2, 3, 0], [1, 3, 0, 2], [1, 3, 2, 0],
    [2, 0, 1, 3], [2, 0, 3, 1], [2, 1, 0, 3], [2, 1, 3, 0], [2, 3, 0, 1], [2, 3, 1, 0],
    [3, 0, 1, 2], [3, 0, 2, 1], [3, 1, 0, 2], [3, 1, 2, 0], [3, 2, 0, 1], [3, 2, 1, 0]]

  /** The table holds orderings only. */
  lemma PermsAreOrderings()
    ensures |PERMS| == 24 && forall i :: 0 <= i < |PERMS| ==> IsPerm4(PERMS[i])
  {
  }

  /** The table holds orderings only, and every ordering is in it. */
  lemma PermsComplete(p: seq<int>)
    ensures |PERMS| == 24 && forall i :: 0 <= i < |PERMS| ==> IsPerm4(PERMS[i])
    ensures IsPerm4(p) <==> p in PERMS
  {
    PermsAreOrderings();
    if IsPerm4(p) {
      assert p == [p[0], p[1], p[2], p[3]];
    }
  }

  /** The numbers at the positions of an ordering: nums[a], nums[b], nums[c], nums[d]. */
  function Arrange(nums: seq<int>, p: seq<int>): (ns: seq<int>)
    requires |nums| >= 4 && IsPerm4(p)
    ensures |ns| == 4
  {
    [nums[p[0]], nums[p[1]], nums[p[2]], nums[p[3]]]
  }

  /** The first ordering of the table leaves the numbers where they are. */
  lemma ArrangeFirst(nums: seq<int>)
    requires |nums| == 4
    ensures IsPerm4(PERMS[0]) && Arrange(nums, PERMS[0]) == nums
  {
    assert PERMS[0] == [0, 1, 2, 3];
  }

  /** Taking ordering q and then ordering p is taking one ordering. */
  lemma ArrangeTwice(nums: seq<int>, q: seq<int>, p: seq<int>)
    requires |nums| >= 4 && IsPerm4(q) && IsPerm4(p)
    ensures var qp := [q[p[0]], q[p[1]], q[p[2]], q[p[3]]];
      IsPerm4(qp) && Arrange(Arrange(nums, q), p) == Arrange(nums, qp)
  {
    ComposePerm(q, p);
    ArrangeAt(nums, q, p[0]);
    ArrangeAt(nums, q, p[1]);
    ArrangeAt(nums, q, p[2]);
    ArrangeAt(nums, q, p[3]);
  }

  lemma ArrangeAt(nums: seq<int>, q: seq<int>, j: int)
    requires |nums| >= 4 && IsPerm4(q) && 0 <= j < 4
    ensures Arrange(nums, q)[j] == nums[q[j]]
  {
  }

  lemma ComposePerm(q: seq<int>, p: seq<int>)
    requires IsPerm4(q) && IsPerm4(p)
    ensures IsPerm4([q[p[0]], q[p[1]], q[p[2]], q[p[3]]])
  {
    var qp := [q[p[0]], q[p[1]], q[p[2]], q[p[3]]];
    forall i, j | 0 <= i < j < 4
      ensures qp[i] != qp[j]
    {
      if p[i] < p[j] {
        assert q[p[i]] != q[p[j]];
      } else {
        assert q[p[j]] != q[p[i]];
      }
    }
  }

  // ---------------------------------------------------------------- the search space

  /** One point of the search: an ordering, three operators and a bracketing. */
  datatype Choice = Choice(perm: nat, op1: nat, op2: nat, op3: nat, shape: nat)

  predicate IsChoice(mode: string, c: Choice) {
    c.perm < 24 && c.op1 < 4 && c.op2 < 4 && c.op3 < 4 && c.shape < (if mode == FLAT then 1 else 5)
  }

  /** The expression tried at a point: the unbracketed text in the flat mode,
      one of the five bracket patterns otherwise. */
  function Candidate(nums: seq<int>, mode: string, c: Choice): Expr
    requires |nums| >= 4 && IsChoice(mode, c)
  {
    PermsAreOrderings();
    var ns := Arrange(nums, PERMS[c.perm]);
    if mode == FLAT then FlatExpr(ns, [OPS[c.op1], OPS[c.op2], OPS[c.op3]])
    else Bracketed(c.shape, ns, OPS[c.op1], OPS[c.op2], OPS[c.op3])
  }

  predicate Solves(nums: seq<int>, mode: string, c: Choice)
    requires |nums| >= 4 && IsChoice(mode, c)
  {
    Eval(Candidate(nums, mode, c)) == Some(24.0)
  }

  /** Some point of the search space reaches 24. */
  ghost predicate Solvable(nums: seq<int>, mode: string)
    requires |nums| >= 4
  {
    exists c :: IsChoice(mode, c) && Solves(nums, mode, c)
  }

  /** The position of a point in the order the loops visit it. */
  function Rank(c: Choice): int {
    c.perm * 320 + c.op1 * 80 + c.op2 * 20 + c.op3 * 5 + c.shape
  }

  /** No point visited before position r reaches 24. */
  ghost predicate NoneBelow(nums: seq<int>, mode: string, r: int)
    requires |nums| >= 4
  {
    forall c :: IsChoice(mode, c) && Rank(c) < r ==> !Solves(nums, mode, c)
  }

  lemma RankBlock(c: Choice, d: Choice)
    requires c.op1 < 4 && c.op2 < 4 && c.op3 < 4 && c.shape < 5
    requires d.op1 < 4 && d.op2 < 4 && d.op3 < 4 && d.shape < 5
    requires Rank(c) - c.shape <= Rank(d) < Rank(c) - c.shape + 5
    ensures d.perm == c.perm && d.op1 == c.op1 && d.op2 == c.op2 && d.op3 == c.op3
  {
    var bc := c.perm * 64 + c.op1 * 16 + c.op2 * 4 + c.op3;
    var bd := d.perm * 64 + d.op1 * 16 + d.op2 * 4 + d.op3;
    assert bd == bc;
    assert d.perm * 16 + d.op1 * 4 + d.op2 == c.perm * 16 + c.op1 * 4 + c.op2;
    assert d.perm * 4 + d.op1 == c.perm * 4 + c.op1;
  }

  /** Moving past a point that fails. */
  lemma PassChoice(nums: seq<int>, mode: string, c: Choice)
    requires |nums| >= 4 && IsChoice(mode, c)
    requires NoneBelow(nums, mode, Rank(c)) && !Solves(nums, mode, c)
    ensures NoneBelow(nums, mode, Rank(c) + 1)
  {
    forall d | IsChoice(mode, d) && Rank(d) < Rank(c) + 1
      ensures !Solves(nums, mode, d)
    {
      if Rank(d) == Rank(c) {
        RankBlock(c, d);
      }
    }
  }

  /** In the flat mode a point is the only one of its block of five. */
  lemma PassFlatChoice(nums: seq<int>, mode: string, c: Choice)
    requires |nums| >= 4 && mode == FLAT && IsChoice(mode, c)
    requires NoneBelow(nums, mode, Rank(c)) && !Solves(nums, mode, c)
    ensures NoneBelow(nums, mode, Rank(c) + 5)
  {
    forall d | IsChoice(mode, d) && Rank(d) < Rank(c) + 5
      ensures !Solves(nums, mode, d)
    {
      if Rank(d) >= Rank(c) {
        RankBlock(c, d);
      }
    }
  }

  lemma NoneBelowAll(nums: seq<int>, mode: string)
    requires |nums| >= 4 && NoneBelow(nums, mode, 24 * 320)
    ensures !Solvable(nums, mode)
  {
  }

  /** Whether a combination can be solved does not depend on its order. */
  lemma SolvableRearranged(nums: seq<int>, mode: string, q: seq<int>)
    requires |nums| >= 4 && IsPerm4(q)
    ensures Solvable(Arrange(nums, q), mode) ==> Solvable(nums, mode)
  {
    if Solvable(Arrange(nums, q), mode) {
      var c :| IsChoice(mode, c) && Solves(Arrange(nums, q), mode, c);
      var p := PERMS[c.perm];
      PermsComplete(p);
      var qp := [q[p[0]], q[p[1]], q[p[2]], q[p[3]]];
      ArrangeTwice(nums, q, p);
      PermsComplete(qp);
      var i :| 0 <= i < 24 && PERMS[i] == qp;
      var c' := c.(perm := i);
      assert Candidate(nums, mode, c') == Candidate(Arrange(nums, q), mode, c);
      assert IsChoice(mode, c') && Solves(nums, mode, c');
    }
  }

  /** The numbers in the j-th ordering of the table reach 24. */
  ghost predicate SolvedInOrder(nums: seq<int>, mode: string, j: int)
    requires |nums| >= 4 && 0 <= j < 24
  {
    PermsAreOrderings();
    Solvable(Arrange(nums, PERMS[j]), mode)
  }

  /** Some of the first i orderings in the table makes the numbers reach 24. */
  ghost predicate SolvedBefore(nums: seq<int>, mode: string, i: int)
    requires |nums| >= 4 && 0 <= i <= 24
  {
    exists j :: 0 <= j < i && SolvedInOrder(nums, mode, j)
  }

  lemma SolvedBeforeStep(nums: seq<int>, mode: string, i: int)
    requires |nums| >= 4 && 0 <= i < 24 && IsPerm4(PERMS[i])
    ensures SolvedBefore(nums, mode, i + 1) <==>
      SolvedBefore(nums, mode, i) || Solvable(Arrange(nums, PERMS[i]), mode)
  {
    if SolvedInOrder(nums, mode, i) {
      assert 0 <= i < i + 1 && SolvedInOrder(nums, mode, i);
    }
  }

  /** Trying all 24 orderings finds a solution exactly when there is one. */
  lemma SolvedInSomeOrder(nums: seq<int>, mode: string)
    requires |nums| == 4
    ensures SolvedBefore(nums, mode, 24) <==> Solvable(nums, mode)
  {
    PermsAreOrderings();
    if SolvedBefore(nums, mode, 24) {
      var j :| 0 <= j < 24 && SolvedInOrder(nums, mode, j);
      SolvableRearranged(nums, mode, PERMS[j]);
    }
    if Solvable(nums, mode) {
      ArrangeFirst(nums);
      assert SolvedInOrder(nums, mode, 0);
    }
  }

  // ---------------------------------------------------------------- what the search covers

  /** e uses each of the four numbers exactly once, in the order p, and is worth 24. */
  ghost predicate Reaches24(nums: seq<int>, e: Expr, p: seq<int>)
    requires |nums| >= 4
  {
    IsPerm4(p) && Leaves(e) == Arrange(nums, p) && Eval(e) == Some(24.0)
  }

  function OpIndex(op: Op): (i: nat)
    ensures i < 4 && OPS[i] == op
  {
    match op
    case Add => 0
    case Sub => 1
    case Mul => 2
    case Div => 3
  }

  /** With brackets, the search finds 24 exactly when some expression over the
      four numbers, each used once, is worth 24. */
  lemma BracketedSearchComplete(nums: seq<int>, mode: string)
    requires |nums| >= 4 && mode != FLAT
    ensures Solvable(nums, mode) <==> exists e, p :: Reaches24(nums, e, p)
  {
    if Solvable(nums, mode) {
      var c :| IsChoice(mode, c) && Solves(nums, mode, c);
      BracketedCandidateReaches(nums, mode, c);
    }
    if exists e, p :: Reaches24(nums, e, p) {
      var e, p :| Reaches24(nums, e, p);
      BracketedExprIsCandidate(nums, mode, e, p);
    }
  }

  lemma BracketedCandidateReaches(nums: seq<int>, mode: string, c: Choice)
    requires |nums| >= 4 && mode != FLAT && IsChoice(mode, c) && Solves(nums, mode, c)
    ensures Reaches24(nums, Candidate(nums, mode, c), PERMS[c.perm])
  {
    var p := PERMS[c.perm];
    PermsAreOrderings();
    BracketedKeepsOrder(c.shape, Arrange(nums, p), OPS[c.op1], OPS[c.op2], OPS[c.op3]);
  }

  lemma BracketedExprIsCandidate(nums: seq<int>, mode: string, e: Expr, p: seq<int>)
    requires |nums| >= 4 && mode != FLAT && Reaches24(nums, e, p)
    ensures Solvable(nums, mode)
  {
    PermsComplete(p);
    var i :| 0 <= i < 24 && PERMS[i] == p;
    EveryBracketing(e);
    var ops := Ops(e);
    var k :| 0 <= k < 5 && e == Bracketed(k, Leaves(e), ops[0], ops[1], ops[2]);
    var c := Choice(i, OpIndex(ops[0]), OpIndex(ops[1]), OpIndex(ops[2]), k);
    assert Candidate(nums, mode, c) == e;
    assert IsChoice(mode, c) && Solves(nums, mode, c);
  }



  /** Without brackets, the search finds 24 exactly when some expression of
      Python's precedence shape over the four numbers, each used once, is worth 24. */
  lemma FlatSearchComplete(nums: seq<int>, mode: string)
    requires |nums| >= 4 && mode == FLAT
    ensures Solvable(nums, mode) <==> exists e, p :: IsSum(e) && Reaches24(nums, e, p)
  {
    if Solvable(nums, mode) {
      var c :| IsChoice(mode, c) && Solves(nums, mode, c);
      FlatCandidateReaches(nums, mode, c);
    }
    if exists e, p :: IsSum(e) && Reaches24(nums, e, p) {
      var e, p :| IsSum(e) && Reaches24(nums, e, p);
      FlatExprIsCandidate(nums, mode, e, p);
    }
  }

  lemma FlatCandidateReaches(nums: seq<int>, mode: string, c: Choice)
    requires |nums| >= 4 && mode == FLAT && IsChoice(mode, c) && Solves(nums, mode, c)
    ensures IsSum(Candidate(nums, mode, c)) && Reaches24(nums, Candidate(nums, mode, c), PERMS[c.perm])
  {
    PermsComplete(PERMS[c.perm]);
    FlatShape(Arrange(nums, PERMS[c.perm]), [OPS[c.op1], OPS[c.op2], OPS[c.op3]]);
  }

  lemma FlatExprIsCandidate(nums: seq<int>, mode: string, e: Expr, p: seq<int>)
    requires |nums| >= 4 && mode == FLAT && IsSum(e) && Reaches24(nums, e, p)
    ensures Solvable(nums, mode)
  {
    PermsComplete(p);
    var i :| 0 <= i < 24 && PERMS[i] == p;
    FlatUnique(e);
    var ops := Ops(e);
    assert ops == [ops[0], ops[1], ops[2]];
    var c := Choice(i, OpIndex(ops[0]), OpIndex(ops[1]), OpIndex(ops[2]), 0);
    assert [OPS[c.op1], OPS[c.op2], OPS[c.op3]] == ops;
    assert Candidate(nums, mode, c) == FlatExpr(Leaves(e), ops);
    assert IsChoice(mode, c) && Solves(nums, mode, c);
  }

  // ---------------------------------------------------------------- the text of a solution

  function IntText(n: int): string {
    IntToString(n)
  }

  /** The bracket patterns as text: every operand that is itself an operation is
      put in brackets, the outermost operation is not. */
  function Show(e: Expr): string {
    match e
    case Num(n) => IntText(n)
    case Bin(op, l, r) =>
      (if l.Num? then Show(l) else "(" + Show(l) + ")") + OpText(op)
      + (if r.Num? then Show(r) else "(" + Show(r) + ")")
  }

  /** n0 o0 n1 o1 ... without brackets. */
  function FlatText(ns: seq<int>, ops: seq<Op>): string
    requires |ns| == |ops| + 1
    decreases |ops|
  {
    if ops == [] then IntText(ns[0])
    else FlatText(ns[..|ns| - 1], ops[..|ops| - 1]) + OpText(ops[|ops| - 1]) + IntText(ns[|ns| - 1])
  }

  /** The text of the expression tried at a point. */
  function Render(nums: seq<int>, mode: string, c: Choice): string
    requires |nums| >= 4 && IsChoice(mode, c)
  {
    PermsComplete(PERMS[c.perm]);
    var ns := Arrange(nums, PERMS[c.perm]);
    if mode == FLAT then FlatText(ns, [OPS[c.op1], OPS[c.op2], OPS[c.op3]])
    else Show(Candidate(nums, mode, c))
  }

  // ---------------------------------------------------------------- sorted tuples

  predicate IsSorted(s: seq<int>) {
    forall i, j :: 0 <= i < j < |s| ==> s[i] <= s[j]
  }

  function Insert(x: int, s: seq<int>): (r: seq<int>)
    requires IsSorted(s)
    ensures IsSorted(r) && multiset(r) == multiset{x} + multiset(s)
  {
    if s == [] || x <= s[0] then
      Prepend(x, s);
      [x] + s
    else
      var t := Insert(x, s[1..]);
      AtLeast(s[0], t, x, s[1..]);
      Prepend(s[0], t);
      DropHead(s);
      [s[0]] + t
  }

  /** A number no larger than any of a sorted sequence can go in front. */
  lemma Prepend(x: int, s: seq<int>)
    requires IsSorted(s) && forall k :: 0 <= k < |s| ==> x <= s[k]
    ensures IsSorted([x] + s) && multiset([x] + s) == multiset{x} + multiset(s)
  {
  }

  /** What holds x and the numbers of u is bounded below as they are. */
  lemma AtLeast(lo: int, t: seq<int>, x: int, u: seq<int>)
    requires lo <= x && (forall i :: 0 <= i < |u| ==> lo <= u[i])
    requires multiset(t) == multiset{x} + multiset(u)
    ensures forall k :: 0 <= k < |t| ==> lo <= t[k]
  {
    forall k | 0 <= k < |t|
      ensures lo <= t[k]
    {
      assert t[k] in multiset(t);
      if t[k] != x {
        assert t[k] in multiset(u);
      }
    }
  }

  /** sorted(s): the ascending arrangement of the same numbers. */
  function Sorted(s: seq<int>): (r: seq<int>)
    ensures IsSorted(r) && multiset(r) == multiset(s)
  {
    if s == [] then []
    else
      assert s == [s[0]] + s[1..];
      Insert(s[0], Sorted(s[1..]))
  }

  /** Only one ascending sequence holds given numbers. */
  lemma {:induction false} SortedUnique(a: seq<int>, b: seq<int>)
    requires IsSorted(a) && IsSorted(b) && multiset(a) == multiset(b)
    ensures a == b
  {
    if a != [] {
      assert a[0] in multiset(b);
      SortedHead(a, b);
      SortedHead(b, a);
      DropHead(a);
      DropHead(b);
      SortedUnique(a[1..], b[1..]);
      assert a == [a[0]] + a[1..] && b == [b[0]] + b[1..];
    }
  }

  /** The first of an ascending sequence is its least number. */
  lemma SortedHead(a: seq<int>, b: seq<int>)
    requires IsSorted(a) && IsSorted(b) && multiset(a) == multiset(b) && a != [] && b != []
    ensures a[0] <= b[0]
  {
    assert b[0] in multiset(a);
  }

  lemma DropHead(a: seq<int>)
    requires a != []
    ensures multiset(a[1..]) == multiset(a) - multiset{a[0]}
  {
    assert a == [a[0]] + a[1..];
  }

  lemma SortedArrange(nums: seq<int>, q: seq<int>)
    requires |nums| == 4 && IsPerm4(q)
    ensures Sorted(Arrange(nums, q)) == Sorted(nums)
  {
    ArrangeMultiset(nums, q);
    SortedUnique(Sorted(Arrange(nums, q)), Sorted(nums));
  }

  /** An ordering rearranges the numbers without adding or losing any. */
  lemma ArrangeMultiset(nums: seq<int>, q: seq<int>)
    requires |nums| == 4 && IsPerm4(q)
    ensures multiset(Arrange(nums, q)) == multiset(nums)
  {
    var a, b, c, d := nums[0], nums[1], nums[2], nums[3];
    assert nums == [a, b, c, d];
    MultisetOfFour(a, b, c, d);
    var w, x, y, z := nums[q[0]], nums[q[1]], nums[q[2]], nums[q[3]];
    MultisetOfFour(w, x, y, z);
    assert multiset(Arrange(nums, q)) == Four(w, x, y, z);
    var i, j, k, l := q[0], q[1], q[2], q[3];
    assert 0 <= i < 4 && 0 <= j < 4 && 0 <= k < 4 && 0 <= l < 4;
    assert i != j && i != k && i != l && j != k && j != l && k != l;
    FourPermuted(nums, i, j, k, l);
  }

  /** Four distinct positions of four numbers hold those four numbers. */
  lemma FourPermuted(v: seq<int>, i: int, j: int, k: int, l: int)
    requires |v| == 4 && 0 <= i < 4 && 0 <= j < 4 && 0 <= k < 4 && 0 <= l < 4
    requires i != j && i != k && i != l && j != k && j != l && k != l
    ensures Four(v[i], v[j], v[k], v[l]) == Four(v[0], v[1], v[2], v[3])
  {
    if i == 0 {
      FourPermutedFrom0(v, j, k, l);
    } else if i == 1 {
      FourPermutedFrom1(v, j, k, l);
    } else if i == 2 {
      FourPermutedFrom2(v, j, k, l);
    } else {
      FourPermutedFrom3(v, j, k, l);
    }
  }

  lemma FourPermutedFrom0(v: seq<int>, j: int, k: int, l: int)
    requires |v| == 4 && j in {1, 2, 3} && k in {1, 2, 3} && l in {1, 2, 3} && j != k && j != l && k != l
    ensures Four(v[0], v[j], v[k], v[l]) == Four(v[0], v[1], v[2], v[3])
  {
    if j == 1 && k == 2 {
    } else if j == 1 && k == 3 {
      FourSwap(v[0], v[1], v[3], v[2], 2);
    } else if j == 2 && k == 1 {
      FourSwap(v[0], v[2], v[1], v[3], 1);
    } else if j == 2 && k == 3 {
      FourSwap(v[0], v[2], v[3], v[1], 2);
      FourSwap(v[0], v[2], v[1], v[3], 1);
    } else if j == 3 && k == 1 {
      FourSwap(v[0], v[3], v[1], v[2], 1);
      FourSwap(v[0], v[1], v[3], v[2], 2);
    } else {
      FourSwap(v[0], v[3], v[2], v[1], 1);
      FourSwap(v[0], v[2], v[3], v[1], 2);
      FourSwap(v[0], v[2], v[1], v[3], 1);
    }
  }

  lemma FourPermutedFrom1(v: seq<int>, j: int, k: int, l: int)
    requires |v| == 4 && j in {0, 2, 3} && k in {0, 2, 3} && l in {0, 2, 3} && j != k && j != l && k != l
    ensures Four(v[1], v[j], v[k], v[l]) == Four(v[0], v[1], v[2], v[3])
  {
    if j == 0 && k == 2 {
      FourSwap(v[1], v[0], v[2], v[3], 0);
    } else if j == 0 && k == 3 {
      FourSwap(v[1], v[0], v[3], v[2], 0);
      FourSwap(v[0], v[1], v[3], v[2], 2);
    } else if j == 2 && k == 0 {
      FourSwap(v[1], v[2], v[0], v[3], 1);
      FourSwap(v[1], v[0], v[2], v[3], 0);
    } else if j == 2 && k == 3 {
      FourSwap(v[1], v[2], v[3], v[0], 2);
      FourSwap(v[1], v[2], v[0], v[3], 1);
      FourSwap(v[1], v[0], v[2], v[3], 0);
    } else if j == 3 && k == 0 {
      FourSwap(v[1], v[3], v[0], v[2], 1);
      FourSwap(v[1], v[0], v[3], v[2], 2);
      FourSwap(v[1], v[0], v[2], v[3], 0);
    } else {
      FourSwap(v[1], v[3], v[2], v[0], 1);
      FourSwap(v[1], v[2], v[3], v[0], 2);
      FourSwap(v[1], v[2], v[0], v[3], 1);
      FourSwap(v[1], v[0], v[2], v[3], 0);
    }
  }

  lemma FourPermutedFrom2(v: seq<int>, j: int, k: int, l: int)
    requires |v| == 4 && j in {0, 1, 3} && k in {0, 1, 3} && l in {0, 1, 3} && j != k && j != l && k != l
    ensures Four(v[2], v[j], v[k], v[l]) == Four(v[0], v[1], v[2], v[3])
  {
    if j == 0 && k == 1 {
      FourSwap(v[2], v[0], v[1], v[3], 0);
      FourSwap(v[0], v[2], v[1], v[3], 1);
    } else if j == 0 && k == 3 {
      FourSwap(v[2], v[0], v[3], v[1], 0);
      FourSwap(v[0], v[2], v[3], v[1], 2);
      FourSwap(v[0], v[2], v[1], v[3], 1);
    } else if j == 1 && k == 0 {
      FourSwap(v[2], v[1], v[0], v[3], 0);
      FourSwap(v[1], v[2], v[0], v[3], 1);
      FourSwap(v[1], v[0], v[2], v[3], 0);
    } else if j == 1 && k == 3 {
      FourSwap(v[2], v[1], v[3], v[0], 0);
      FourSwap(v[1], v[2], v[3], v[0], 2);
      FourSwap(v[1], v[2], v[0], v[3], 1);
      FourSwap(v[1], v[0], v[2], v[3], 0);
    } else if j == 3 && k == 0 {
      FourSwap(v[2], v[3], v[0], v[1], 1);
      FourSwap(v[2], v[0], v[3], v[1], 2);
      FourSwap(v[2], v[0], v[1], v[3], 0);
      FourSwap(v[0], v[2], v[1], v[3], 1);
    } else {
      FourSwap(v[2], v[3], v[1], v[0], 1);
      FourSwap(v[2], v[1], v[3], v[0], 2);
      FourSwap(v[2], v[1], v[0], v[3], 0);
      FourSwap(v[1], v[2], v[0], v[3], 1);
      FourSwap(v[1], v[0], v[2], v[3], 0);
    }
  }

  lemma FourPermutedFrom3(v: seq<int>, j: int, k: int, l: int)
    requires |v| == 4 && j in {0, 1, 2} && k in {0, 1, 2} && l in {0, 1, 2} && j != k && j != l && k != l
    ensures Four(v[3], v[j], v[k], v[l]) == Four(v[0], v[1], v[2], v[3])
  {
    if j == 0 && k == 1 {
      FourSwap(v[3], v[0], v[1], v[2], 0);
      FourSwap(v[0], v[3], v[1], v[2], 1);
      FourSwap(v[0], v[1], v[3], v[2], 2);
    } else if j == 0 && k == 2 {
      FourSwap(v[3], v[0], v[2], v[1], 0);
      FourSwap(v[0], v[3], v[2], v[1], 1);
      FourSwap(v[0], v[2], v[3], v[1], 2);
      FourSwap(v[0], v[2], v[1], v[3], 1);
    } else if j == 1 && k == 0 {
      FourSwap(v[3], v[1], v[0], v[2], 0);
      FourSwap(v[1], v[3], v[0], v[2], 1);
      FourSwap(v[1], v[0], v[3], v[2], 2);
      FourSwap(v[1], v[0], v[2], v[3], 0);
    } else if j == 1 && k == 2 {
      FourSwap(v[3], v[1], v[2], v[0], 0);
      FourSwap(v[1], v[3], v[2], v[0], 1);
      FourSwap(v[1], v[2], v[3], v[0], 2);
      FourSwap(v[1], v[2], v[0], v[3], 1);
      FourSwap(v[1], v[0], v[2], v[3], 0);
    } else if j == 2 && k == 0 {
      FourSwap(v[3], v[2], v[0], v[1], 0);
      FourSwap(v[2], v[3], v[0], v[1], 1);
      FourSwap(v[2], v[0], v[3], v[1], 2);
      FourSwap(v[2], v[0], v[1], v[3], 0);
      FourSwap(v[0], v[2], v[1], v[3], 1);
    } else {
      FourSwap(v[3], v[2], v[1], v[0], 0);
      FourSwap(v[2], v[3], v[1], v[0], 1);
      FourSwap(v[2], v[1], v[3], v[0], 2);
      FourSwap(v[2], v[1], v[0], v[3], 0);
      FourSwap(v[1], v[2], v[0], v[3], 1);
      FourSwap(v[1], v[0], v[2], v[3], 0);
    }
  }

  function Four(a: int, b: int, c: int, d: int): multiset<int> {
    multiset{a} + multiset{b} + multiset{c} + multiset{d}
  }

  /** Exchanging two neighbours (at t and t + 1) keeps the four numbers. */
  lemma FourSwap(a: int, b: int, c: int, d: int, t: int)
    requires 0 <= t < 3
    ensures t == 0 ==> Four(a, b, c, d) == Four(b, a, c, d)
    ensures t == 1 ==> Four(a, b, c, d) == Four(a, c, b, d)
    ensures t == 2 ==> Four(a, b, c, d) == Four(a, b, d, c)
  {
  }

  lemma MultisetOfFour(a: int, b: int, c: int, d: int)
    ensures multiset([a, b, c, d]) == Four(a, b, c, d)
  {
    assert multiset([a, b, c, d]) == multiset{a, b, c, d};
  }

  // ---------------------------------------------------------------- the old list format

  /** list(map(int, tokens)): None when some token is not an integer. */
  function ParseAll(tokens: seq<string>): (r: Option<seq<int>>)
    ensures r.Some? ==> |r.value| == |tokens| && forall i :: 0 <= i < |tokens| ==> ParseInt(tokens[i]) == Some(r.value[i])
    ensures r.None? ==> exists i :: 0 <= i < |tokens| && ParseInt(tokens[i]).None?
  {
    if tokens == [] then Some([])
    else
      var head, tail := ParseInt(tokens[0]), ParseAll(tokens[1..]);
      if head.Some? && tail.Some? then Some([head.value] + tail.value)
      else
        assert tail.None? ==> exists i :: 0 <= i < |tokens| && ParseInt(tokens[i]).None? by {
          if tail.None? {
            var i :| 0 <= i < |tokens| - 1 && ParseInt(tokens[1..][i]).None?;
            assert ParseInt(tokens[i + 1]).None?;
          }
        }
        None
  }

  /** What one line contributes: the four integers of a stripped, non-blank line
      of exactly four integer tokens, nothing for any other line. */
  function LineEntry(line: string): seq<seq<int>> {
    var t := Strip(line);
    if t == [] then []
    else
      var nums := ParseAll(Split(t));
      if nums.Some? && |nums.value| == 4 then [nums.value] else []
  }

  lemma ParseAllFirstFails(tokens: seq<string>)
    requires tokens != [] && ParseInt(tokens[0]).None?
    ensures ParseAll(tokens).None?
  {
  }

  /** The combinations read from lines, in order. */
  function OldFormat(lines: seq<string>): (combos: seq<seq<int>>)
    ensures |combos| <= |lines|
    ensures forall i :: 0 <= i < |combos| ==> |combos[i]| == 4
  {
    if lines == [] then []
    else OldFormat(lines[..|lines| - 1]) + LineEntry(lines[|lines| - 1])
  }

  /** Reading one more line adds what that line holds. */
  lemma OldFormatStep(lines: seq<string>, i: int)
    requires 0 <= i < |lines|
    ensures OldFormat(lines[..i + 1]) == OldFormat(lines[..i]) + LineEntry(lines[i])
  {
    assert lines[..i + 1][..i] == lines[..i];
  }

  lemma {:induction false} OldFormatAppend(a: seq<string>, b: seq<string>)
    ensures OldFormat(a + b) == OldFormat(a) + OldFormat(b)
    decreases |b|
  {
    if b != [] {
      var b' := b[..|b| - 1];
      assert (a + b)[..|a + b| - 1] == a + b';
      OldFormatAppend(a, b');
    } else {
      assert a + b == a;
    }
  }

  /** The text of one combination: its numbers separated by blanks. */
  function Words(ns: seq<int>): (ws: seq<string>)
    ensures |ws| == |ns| && forall i :: 0 <= i < |ns| ==> ws[i] == IntText(ns[i])
  {
    seq(|ns|, i requires 0 <= i < |ns| => IntText(ns[i]))
  }

  function LineOf(ns: seq<int>): string {
    Join(Words(ns), " ")
  }

  /** The text of a list of combinations: one line each. */
  function Lines(combos: seq<seq<int>>): (ls: seq<string>)
    ensures |ls| == |combos| && forall i :: 0 <= i < |combos| ==> ls[i] == LineOf(combos[i])
  {
    seq(|combos|, i requires 0 <= i < |combos| => LineOf(combos[i]))
  }

  lemma {:induction false} ParseAllWords(ns: seq<int>)
    ensures ParseAll(Words(ns)) == Some(ns)
  {
    if ns != [] {
      assert Words(ns)[1..] == Words(ns[1..]);
      ParseAllWords(ns[1..]);
      ParseIntToString(ns[0]);
      assert [ns[0]] + ns[1..] == ns;
    }
  }

  lemma LineOfFacts(ns: seq<int>)
    requires ns != []
    ensures LineOf(ns) != []
    ensures forall i :: 0 <= i < |LineOf(ns)| ==> !IsLineBreak(LineOf(ns)[i])
    ensures !IsSpace(LineOf(ns)[0]) && !IsSpace(LineOf(ns)[|LineOf(ns)| - 1])
  {
    var ws := Words(ns);
    forall i | 0 <= i < |ws| ensures IsWord(ws[i]) && forall k :: 0 <= k < |ws[i]| ==> !IsLineBreak(ws[i][k]) {
      IntToStringWord(ns[i]);
    }
    JoinNoLineBreak(ws, " ");
    JoinEnds(ws, " ");
    var last := ws[|ws| - 1];
    assert IsWord(ws[0]) && IsWord(last);
  }

  /** A line written from four integers is read back as those integers. */
  lemma LineEntryOfLine(ns: seq<int>)
    requires |ns| == 4
    ensures LineEntry(LineOf(ns)) == [ns]
  {
    LineOfFacts(ns);
    StripTrimmed(LineOf(ns));
    forall i | 0 <= i < |Words(ns)| ensures IsWord(Words(ns)[i]) {
      IntToStringWord(ns[i]);
    }
    SplitJoin(Words(ns));
    ParseAllWords(ns);
  }

  lemma {:induction false} OldFormatOfLines(combos: seq<seq<int>>)
    requires forall i :: 0 <= i < |combos| ==> |combos[i]| == 4
    ensures OldFormat(Lines(combos)) == combos
  {
    if combos != [] {
      var n := |combos|;
      var ls := Lines(combos);
      assert ls[..n - 1] == Lines(combos[..n - 1]);
      assert OldFormat(ls) == OldFormat(ls[..n - 1]) + LineEntry(ls[n - 1]);
      OldFormatOfLines(combos[..n - 1]);
      LineEntryOfLine(combos[n - 1]);
      DropLast(combos);
    }
  }

  lemma DropLast<T>(s: seq<T>)
    requires s != []
    ensures s[..|s| - 1] + [s[|s| - 1]] == s
  {
  }

  /** Combinations written one per line, numbers separated by blanks, are read
      back unchanged and in order. */
  lemma OldFormatRoundTrip(combos: seq<seq<int>>)
    requires forall i :: 0 <= i < |combos| ==> |combos[i]| == 4
    ensures OldFormat(SplitLines(Join(Lines(combos), "\n"))) == combos
  {
    var ls := Lines(combos);
    forall j | 0 <= j < |ls| ensures forall i :: 0 <= i < |ls[j]| ==> !IsLineBreak(ls[j][i]) {
      LineOfFacts(combos[j]);
    }
    if combos != [] {
      LineOfFacts(combos[|combos| - 1]);
    }
    SplitLinesJoin(ls);
    OldFormatOfLines(combos);
  }

  // ---------------------------------------------------------------- the header comment

  /** content.find(c): the first position of c, or -1. */
  function Find(s: string, c: char): (k: int)
    ensures -1 <= k < |s|
    ensures k >= 0 ==> s[k] == c && c !in s[..k]
    ensures k < 0 <==> c !in s
  {
    if s == [] then -1
    else if s[0] == c then 0
    else
      var k := Find(s[1..], c);
      assert s == [s[0]] + s[1..];
      if k < 0 then -1
      else
        assert s[..k + 1] == [s[0]] + s[1..][..k];
        k + 1
  }

  /** The header trim as written: once the text holds a '#', it is cut to start at
      the first '['; with no '[' the position is -1 and the slice keeps only the
      last character. */
  function CutHeaderAsWritten(content: string): string {
    if '#' in content then
      var k := Find(content, '[');
      if k >= 0 then content[k..] else content[|content| - 1..]
    else content
  }

  /** The header trim as intended: cut only when there is a '[' to cut to. */
  function CutHeader(content: string): (r: string)
    ensures '[' !in content ==> r == content
    ensures |r| <= |content| && r == content[|content| - |r|..]
    ensures '[' in content && '#' in content ==> r != [] && r[0] == '['
  {
    if '#' in content && '[' in content then content[Find(content, '[')..] else content
  }

  /** As written, a list in the old format under a '#' header loses every
      combination: what is left is at most one character. */
  lemma CutHeaderAsWrittenLosesList(content: string)
    requires '#' in content && '[' !in content
    ensures |CutHeaderAsWritten(content)| == 1
    ensures OldFormat(SplitLines(CutHeaderAsWritten(content))) == []
  {
    var t := CutHeaderAsWritten(content);
    if IsLineBreak(t[0]) {
      assert LineLength(t) == 0;
      assert SplitLines(t) == [[]] + SplitLines([]);
      assert OldFormat([[]]) == OldFormat([]) + LineEntry([]);
    } else {
      assert LineLength(t) == 1;
      assert SplitLines(t) == [t];
      assert OldFormat([t]) == OldFormat([]) + LineEntry(t);
      var s := Strip(t);
      if s != [] {
        assert s == t;
        var words := Split(s);
        if ParseAll(words).Some? {
          SplitOneChar(t);
        }
      }
    }
  }

  lemma SplitOneChar(t: string)
    requires |t| == 1 && !IsSpace(t[0])
    ensures |Split(t)| == 1
  {
    SplitWordThen(t, []);
  }

  /** With the intended trim, a headed list in the old format keeps every
      combination: the header line is not four integers and is skipped. */
  lemma CutHeaderKeepsList(header: string, combos: seq<seq<int>>)
    requires '#' in header && header != [] && header[0] == '#'
    requires forall i :: 0 <= i < |header| ==> !IsLineBreak(header[i]) && header[i] != '['
    requires forall i :: 0 <= i < |combos| ==> |combos[i]| == 4
    ensures var content := Join([header] + Lines(combos), "\n");
      OldFormat(SplitLines(CutHeader(content))) == combos
  {
    var ls := [header] + Lines(combos);
    var content := Join(ls, "\n");
    forall j | 0 <= j < |ls| ensures forall i :: 0 <= i < |ls[j]| ==> !IsLineBreak(ls[j][i]) {
      if j > 0 {
        LineOfFacts(combos[j - 1]);
      }
    }
    if combos != [] {
      LineOfFacts(combos[|combos| - 1]);
    }
    assert '[' !in content by {
      forall j | 0 <= j < |ls| ensures '[' !in ls[j] {
        if j > 0 {
          LineOfBrackets(combos[j - 1]);
        }
      }
      JoinAvoids(ls, "\n", '[');
    }
    SplitLinesJoin(ls);
    OldFormatAppend([header], Lines(combos));
    OldFormatOfLines(combos);
    assert OldFormat([header]) == OldFormat([]) + LineEntry(header);
    HeaderLineSkipped(header);
  }

  lemma HeaderLineSkipped(header: string)
    requires header != [] && header[0] == '#'
    ensures LineEntry(header) == []
  {
    var t := Strip(header);
    StripKeepsFirst(header);
    SplitFirstWord(t);
    var ws := Split(t);
    ParseIntRejects(ws[0]);
    ParseAllFirstFails(ws);
  }

  lemma SplitFirstWord(t: string)
    requires t != [] && !IsSpace(t[0])
    ensures Split(t) != [] && Split(t)[0] != [] && Split(t)[0][0] == t[0]
  {
    var k := WordLength(t);
    SplitWordThen(t[..k], t[k..]);
    assert t[..k] + t[k..] == t;
  }

  lemma LineOfBrackets(ns: seq<int>)
    ensures '[' !in LineOf(ns)
  {
    var ws := Words(ns);
    forall j | 0 <= j < |ws| ensures '[' !in ws[j] {
      IntToStringWord(ns[j]);
      IntTextAvoids(ns[j]);
    }
    JoinAvoids(ws, " ", '[');
  }

  lemma IntTextAvoids(n: int)
    ensures '[' !in IntText(n)
  {
    if n < 0 {
      var d := NatToString(-n);
      assert forall i :: 0 <= i < |d| ==> IsDigit(d[i]);
      assert IntText(n) == "-" + d;
    } else {
      var d := NatToString(n);
      assert forall i :: 0 <= i < |d| ==> IsDigit(d[i]);
    }
  }

  lemma {:induction false} JoinAvoids(parts: seq<string>, sep: string, c: char)
    requires forall j :: 0 <= j < |parts| ==> c !in parts[j]
    requires c !in sep
    ensures c !in Join(parts, sep)
  {
    if |parts| > 1 {
      JoinAvoids(parts[1..], sep, c);
      assert Join(parts, sep) == parts[0] + sep + Join(parts[1..], sep);
    }
  }

  // ---------------------------------------------------------------- the engine

  class Game24Logic {
    var numbers: seq<int>
    var solution: string
    var mode: string
    var solvableCombinations: seq<seq<int>>

    /** A fresh engine in the bracketed mode; the list of solvable combinations
        is the one the loader read (reading the file is not modelled). */
    constructor (loaded: seq<seq<int>>)
      ensures numbers == [] && solution == "" && mode == "with_parentheses"
      ensures solvableCombinations == loaded
    {
      numbers := [];
      solution := "";
      mode := "with_parentheses";
      solvableCombinations := loaded;
    }

    /** generate_numbers: one of the solvable combinations when asked for one and
        the list is not empty, otherwise four numbers in 1..13. */
    method GenerateNumbers(mustSolvable: bool) returns (nums: seq<int>)
      modifies this`numbers
      ensures numbers == nums
      ensures mustSolvable && solvableCombinations != [] ==> nums in solvableCombinations
      ensures !(mustSolvable && solvableCombinations != []) ==>
        |nums| == 4 && forall i :: 0 <= i < 4 ==> 1 <= nums[i] <= 13
    {
      if mustSolvable && solvableCombinations != [] {
        assert solvableCombinations[0] in solvableCombinations;
        nums :| nums in solvableCombinations;
      } else {
        nums := [];
        for i := 0 to 4
          invariant |nums| == i && forall k :: 0 <= k < i ==> 1 <= nums[k] <= 13
        {
          var n :| 1 <= n <= 13;
          nums := nums + [n];
        }
      }
      numbers := nums;
    }

    /** calculate_solution: search every ordering, operator triple and
        bracketing; return the first expression worth 24 followed by " = 24", or
        "无解" when there is none. */
    method CalculateSolution() returns (result: string)
      requires |numbers| == 0 || |numbers| >= 4
      modifies this`solution
      ensures numbers == [] ==> result == NO_NUMBERS && solution == old(solution)
      ensures numbers != [] ==> solution == result
      ensures numbers != [] ==> (result == NO_SOLUTION <==> !Solvable(numbers, mode))
      ensures numbers != [] && result != NO_SOLUTION ==>
        exists c :: IsChoice(mode, c) && Solves(numbers, mode, c) && result == Render(numbers, mode, c) + " = 24"
    {
      if numbers == [] {
        return NO_NUMBERS;
      }
      var nums := numbers;
      for a := 0 to 24
        invariant NoneBelow(nums, mode, a * 320)
      {
        PermsAreOrderings();
        var ns := Arrange(nums, PERMS[a]);
        for op1 := 0 to 4
          invariant NoneBelow(nums, mode, a * 320 + op1 * 80)
        {
          for op2 := 0 to 4
            invariant NoneBelow(nums, mode, a * 320 + op1 * 80 + op2 * 20)
          {
            for op3 := 0 to 4
              invariant NoneBelow(nums, mode, a * 320 + op1 * 80 + op2 * 20 + op3 * 5)
            {
              if mode == FLAT {
                var c := Choice(a, op1, op2, op3, 0);
                var e := FlatExpr(ns, [OPS[op1], OPS[op2], OPS[op3]]);
                if Eval(e) == Some(24.0) {
                  solution := FlatText(ns, [OPS[op1], OPS[op2], OPS[op3]]) + " = 24";
                  assert Solves(nums, mode, c) && solution == Render(nums, mode, c) + " = 24";
                  return solution;
                }
                PassFlatChoice(nums, mode, c);
              } else {
                for shape := 0 to 5
                  invariant NoneBelow(nums, mode, a * 320 + op1 * 80 + op2 * 20 + op3 * 5 + shape)
                {
                  var c := Choice(a, op1, op2, op3, shape);
                  var e := Bracketed(shape, ns, OPS[op1], OPS[op2], OPS[op3]);
                  if Eval(e) == Some(24.0) {
                    solution := Show(e) + " = 24";
                    assert Solves(nums, mode, c) && solution == Render(nums, mode, c) + " = 24";
                    return solution;
                  }
                  PassChoice(nums, mode, c);
                }
              }
            }
          }
        }
      }
      NoneBelowAll(nums, mode);
      solution := NO_SOLUTION;
      return solution;
    }

    /** process_combination: solve every ordering of a four-number combination on
        a fresh engine and collect the sorted combination for each ordering that
        has a solution. */
    static method ProcessCombination(comb: seq<int>, mode: string) returns (found: set<seq<int>>)
      requires |comb| == 4
      ensures found == if Solvable(comb, mode) then {Sorted(comb)} else {}
    {
      found := {};
      for i := 0 to 24
        invariant found <= {Sorted(comb)}
        invariant Sorted(comb) in found <==> SolvedBefore(comb, mode, i)
      {
        PermsAreOrderings();
        var nums := Arrange(comb, PERMS[i]);
        var solvable := SolveOn(nums, mode);
        SolvedBeforeStep(comb, mode, i);
        if solvable {
          SortedArrange(comb, PERMS[i]);
          found := found + {Sorted(nums)};
        }
      }
      SolvedInSomeOrder(comb, mode);
    }

    /** One ordering in process_combination: a fresh engine with these numbers
        and this mode, asked for a solution. */
    static method SolveOn(nums: seq<int>, mode: string) returns (solvable: bool)
      requires |nums| == 4
      ensures solvable == Solvable(nums, mode)
    {
      var game := new Game24Logic([]);
      game.numbers := nums;
      game.mode := mode;
      var r := game.CalculateSolution();
      solvable := r != NO_SOLUTION;
    }

    /** The line loop of load_solvable_combinations for a file in the old format:
        every stripped, non-blank line of four integers, in file order. */
    static method ParseOldFormat(content: string) returns (combinations: seq<seq<int>>)
      ensures combinations == OldFormat(SplitLines(content))
    {
      combinations := [];
      var lines := SplitLines(content);
      for i := 0 to |lines|
        invariant combinations == OldFormat(lines[..i])
      {
        OldFormatStep(lines, i);
        var line := Strip(lines[i]);
        if line != [] {
          var nums := ParseAll(Split(line));
          if nums.Some? && |nums.value| == 4 {
            combinations := combinations + [nums.value];
          }
        }
      }
      assert lines[..|lines|] == lines;
    }

    /** load_solvable_combinations on the text of the file: strip it, trim a
        header comment as the code does, and read it in the old format unless it
        is a bracketed list (that branch hands the text to Python's literal
        parser, which is not modelled, and gives None here). */
    static method LoadCombinations(raw: string) returns (r: Option<seq<seq<int>>>)
      ensures var content := CutHeaderAsWritten(Strip(raw));
        r == if content != [] && content[0] == '[' && content[|content| - 1] == ']' then None
             else Some(OldFormat(SplitLines(content)))
    {
      var content := CutHeaderAsWritten(Strip(raw));
      if content != [] && content[0] == '[' && content[|content| - 1] == ']' {
        return None;
      }
      var combinations := ParseOldFormat(content);
      return Some(combinations);
    }
  }
}
