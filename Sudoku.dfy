/** The sudoku engine: a 9x9 board of ints (0 = empty), a backtracking solver that
    fills the board in place, puzzle generation by blanking cells of a solved board,
    and the answer and keystroke checks. */
module Sudoku {
  import opened Text

  /** A board as a value: 9 rows of 9 cells, 0 standing for an empty cell. */
  type Grid = seq<seq<int>>

  predicate IsGrid(g: Grid) {
    |g| == 9 && forall r :: 0 <= r < 9 ==> |g[r]| == 9
  }

  predicate InRange(i: int) {
    0 <= i < 9
  }

  /** Row-major position of a cell; the solver visits cells in this order. */
  function Pos(r: int, c: int): int {
    r * 9 + c
  }

  /** Cells (r1, c1) and (r2, c2) share a row, a column or a 3x3 box. */
  predicate SameUnit(r1: int, c1: int, r2: int, c2: int) {
    r1 == r2 || c1 == c2 || (r1 / 3 == r2 / 3 && c1 / 3 == c2 / 3)
  }

  /** Cells (r1, c1) and (r2, c2), when distinct cells of one unit, do not repeat a non-zero value. */
  ghost predicate NoClash(g: Grid, r1: int, c1: int, r2: int, c2: int)
    requires IsGrid(g)
  {
    InRange(r1) && InRange(c1) && InRange(r2) && InRange(c2) &&
    (r1 != r2 || c1 != c2) && SameUnit(r1, c1, r2, c2) && g[r1][c1] != 0
    ==> g[r1][c1] != g[r2][c2]
  }

  /** No two distinct cells of one row, column or box hold the same non-zero value. */
  ghost predicate Consistent(g: Grid)
    requires IsGrid(g)
  {
    forall r1, c1, r2, c2 :: NoClash(g, r1, c1, r2, c2)
  }

  /** num occurs in no cell of the row, the column or the box of (row, col). */
  ghost predicate Placeable(g: Grid, row: int, col: int, num: int)
    requires IsGrid(g)
  {
    forall r, c :: InRange(r) && InRange(c) && SameUnit(row, col, r, c) ==> g[r][c] != num
  }

  /** Cell (r, c) of g agrees with b when it comes before position p or is filled
      in b, and holds a digit 1..9 otherwise. */
  ghost predicate ExtendsAt(g: Grid, b: Grid, p: int, r: int, c: int)
    requires IsGrid(g) && IsGrid(b)
  {
    InRange(r) && InRange(c) ==>
      if Pos(r, c) < p || b[r][c] != 0 then g[r][c] == b[r][c] else 1 <= g[r][c] <= 9
  }

  /** g agrees with b before position p and on every non-zero cell of b, and
      holds a digit 1..9 in every cell from p on that is empty in b. */
  ghost predicate Extends(g: Grid, b: Grid, p: int)
    requires IsGrid(g) && IsGrid(b)
  {
    forall r, c :: ExtendsAt(g, b, p, r, c)
  }

  /** g is a consistent filling of every empty cell of b from position p on. */
  ghost predicate Completes(g: Grid, b: Grid, p: int)
    requires IsGrid(b)
  {
    IsGrid(g) && Consistent(g) && Extends(g, b, p)
  }

  /** No consistent filling of b from position p on exists. */
  ghost predicate Unsolvable(b: Grid, p: int)
    requires IsGrid(b)
  {
    forall g :: !Completes(g, b, p)
  }

  /** A fully solved sudoku: every cell a digit 1..9, no repeats in any unit. */
  ghost predicate Solved(g: Grid)
    requires IsGrid(g)
  {
    Consistent(g) && forall r, c :: InRange(r) && InRange(c) ==> 1 <= g[r][c] <= 9
  }

  /** The digits 1..9, each exactly once. */
  predicate IsDigitPermutation(s: seq<int>) {
    && |s| == 9
    && (forall i :: 0 <= i < |s| ==> 1 <= s[i] <= 9)
    && (forall v :: 1 <= v <= 9 ==> v in s)
    && (forall i, j :: 0 <= i < j < |s| ==> s[i] != s[j])
  }

  /** The nine cells of the 3x3 block whose top-left corner is (row, col), row by row. */
  function Block(g: Grid, row: int, col: int): (s: seq<int>)
    requires IsGrid(g) && 0 <= row <= 6 && 0 <= col <= 6
    ensures |s| == 9
    ensures forall k :: 0 <= k < 9 ==> s[k] == g[row + k / 3][col + k % 3]
  {
    seq(9, k requires 0 <= k < 9 => g[row + k / 3][col + k % 3])
  }

  /** g with cell (r, c) set to v. */
  function Set(g: Grid, r: int, c: int, v: int): (h: Grid)
    requires IsGrid(g) && InRange(r) && InRange(c)
    ensures IsGrid(h)
    ensures forall i, j {:trigger h[i][j]} :: InRange(i) && InRange(j) ==> h[i][j] == if i == r && j == c then v else g[i][j]
  {
    g[r := g[r][c := v]]
  }

  /** Number of empty cells at positions before p. */
  function ZerosBefore(g: Grid, p: nat): (n: nat)
    requires IsGrid(g) && p <= 81
    ensures n <= p
  {
    if p == 0 then 0
    else ZerosBefore(g, p - 1) + (if g[(p - 1) / 9][(p - 1) % 9] == 0 then 1 else 0)
  }

  function CountZeros(g: Grid): nat
    requires IsGrid(g)
  {
    ZerosBefore(g, 81)
  }

  /** How many cells generate_board blanks for a difficulty. */
  function ToRemove(difficulty: string): nat {
    if difficulty == "easy" then 30
    else if difficulty == "hard" then 55
    else 45
  }

  function Min(a: int, b: int): int {
    if a <= b then a else b
  }

  // ---------------------------------------------------------------- the keystroke check

  /** SudokuUI._validate_input: the empty string, or a digit string whose value is 1..9. */
  function ValidateInput(s: string): bool {
    s == "" || (IsDigits(s) && 1 <= DigitsValue(s) <= 9)
  }

  /** The accepted keystroke texts are exactly "" and one non-zero digit after any number of '0's. */
  lemma ValidateInputAccepts(s: string)
    ensures ValidateInput(s) <==>
      s == "" || ((forall i :: 0 <= i < |s| - 1 ==> s[i] == '0') && '1' <= s[|s| - 1] <= '9')
  {
    if s != [] {
      var front := s[..|s| - 1];
      if IsDigits(s) {
        assert DigitsValue(s) == DigitsValue(front) * 10 + DigitValue(s[|s| - 1]);
        DigitsValueZero(front);
      }
      if (forall i :: 0 <= i < |s| - 1 ==> s[i] == '0') && '1' <= s[|s| - 1] <= '9' {
        assert IsDigits(s);
        DigitsValueZero(front);
      }
    }
  }

  // ---------------------------------------------------------------- lemmas for the solver

  /** Writing a placeable value into a cell keeps the board consistent. */
  lemma PlaceKeepsConsistent(g: Grid, r: int, c: int, num: int)
    requires IsGrid(g) && InRange(r) && InRange(c) && Consistent(g)
    requires Placeable(g, r, c, num)
    ensures Consistent(Set(g, r, c, num))
  {
    var h := Set(g, r, c, num);
    forall r1, c1, r2, c2 ensures NoClash(h, r1, c1, r2, c2) {
      if InRange(r1) && InRange(c1) && InRange(r2) && InRange(c2) &&
         (r1 != r2 || c1 != c2) && SameUnit(r1, c1, r2, c2) && h[r1][c1] != 0
      {
        assert NoClash(g, r1, c1, r2, c2);
        if r1 == r && c1 == c {
          assert g[r2][c2] != num;
        } else if r2 == r && c2 == c {
          assert SameUnit(r, c, r1, c1);
          assert g[r1][c1] != num;
        }
      }
    }
  }

  /** Writing a cell and then writing its old value back restores the board. */
  lemma SetUndo(g: Grid, r: int, c: int, v: int)
    requires IsGrid(g) && InRange(r) && InRange(c)
    ensures Set(Set(g, r, c, v), r, c, g[r][c]) == g
  {
    var h := Set(Set(g, r, c, v), r, c, g[r][c]);
    assert forall i :: 0 <= i < 9 ==> h[i] == g[i];
  }

  /** A value that is not placeable at an empty cell is excluded from every completion. */
  lemma NotPlaceableExcluded(g: Grid, b: Grid, p: int, r: int, c: int, num: int)
    requires IsGrid(b) && InRange(r) && InRange(c) && Pos(r, c) == p && b[r][c] == 0
    requires num != 0 && !Placeable(b, r, c, num)
    requires Completes(g, b, p)
    ensures g[r][c] != num
  {
    var r2, c2 :| InRange(r2) && InRange(c2) && SameUnit(r, c, r2, c2) && b[r2][c2] == num;
    assert ExtendsAt(g, b, p, r2, c2);
    assert r2 != r || c2 != c;
    assert NoClash(g, r2, c2, r, c);
  }

  /** A completion that puts num at the current empty cell completes the board with num placed. */
  lemma CompletionThroughCell(g: Grid, b: Grid, p: int, r: int, c: int, num: int)
    requires IsGrid(b) && InRange(r) && InRange(c) && Pos(r, c) == p && b[r][c] == 0
    requires Completes(g, b, p) && g[r][c] == num
    ensures Completes(g, Set(b, r, c, num), p + 1)
  {
    var b', q := Set(b, r, c, num), p + 1;
    forall i, j ensures ExtendsAt(g, b', q, i, j) {
      if InRange(i) && InRange(j) {
        assert ExtendsAt(g, b, p, i, j);
        if i == r && j == c {
        } else if Pos(i, j) < p + 1 {
          assert Pos(i, j) < p;
        }
      }
    }
  }

  /** What the recursive call on the next cell establishes, seen from the current cell. */
  lemma ExtendsThroughCell(g: Grid, b: Grid, p: int, r: int, c: int, num: int)
    requires IsGrid(g) && IsGrid(b) && InRange(r) && InRange(c) && Pos(r, c) == p && b[r][c] == 0
    requires 1 <= num <= 9
    requires Extends(g, Set(b, r, c, num), p + 1)
    ensures Extends(g, b, p)
  {
    var b', q := Set(b, r, c, num), p + 1;
    forall i, j ensures ExtendsAt(g, b, p, i, j) {
      if InRange(i) && InRange(j) {
        assert ExtendsAt(g, b', q, i, j);
        if i == r && j == c {
          assert g[i][j] == b'[i][j];
        } else {
          assert b'[i][j] == b[i][j];
        }
      }
    }
  }

  /** At a filled cell, completing from p and from p + 1 are the same thing. */
  lemma SkipFilledCell(g: Grid, b: Grid, p: int, r: int, c: int)
    requires IsGrid(g) && IsGrid(b) && InRange(r) && InRange(c) && Pos(r, c) == p && b[r][c] != 0
    ensures Extends(g, b, p) <==> Extends(g, b, p + 1)
  {
    var q := p + 1;
    forall i, j ensures ExtendsAt(g, b, p, i, j) <==> ExtendsAt(g, b, q, i, j) {
      if InRange(i) && InRange(j) && Pos(i, j) == p {
        assert i == r && j == c;
      }
    }
  }

  /** Every completion of b from p leaves num out of the empty cell (r, c) at p. */
  ghost predicate Excluded(b: Grid, p: int, r: int, c: int, num: int)
    requires IsGrid(b) && InRange(r) && InRange(c)
  {
    forall g {:trigger Completes(g, b, p)} :: Completes(g, b, p) ==> g[r][c] != num
  }

  /** When nothing completes the board with num placed, num is excluded. */
  lemma FailureExcludes(b: Grid, p: int, r: int, c: int, num: int)
    requires IsGrid(b) && InRange(r) && InRange(c) && Pos(r, c) == p && b[r][c] == 0
    requires Unsolvable(Set(b, r, c, num), p + 1)
    ensures Excluded(b, p, r, c, num)
  {
    forall g | Completes(g, b, p) ensures g[r][c] != num {
      if g[r][c] == num {
        CompletionThroughCell(g, b, p, r, c, num);
      }
    }
  }

  /** A value already present in the cell's units is excluded. */
  lemma NotPlaceableExcludes(b: Grid, p: int, r: int, c: int, num: int)
    requires IsGrid(b) && InRange(r) && InRange(c) && Pos(r, c) == p && b[r][c] == 0
    requires num != 0 && !Placeable(b, r, c, num)
    ensures Excluded(b, p, r, c, num)
  {
    forall g | Completes(g, b, p) ensures g[r][c] != num {
      NotPlaceableExcluded(g, b, p, r, c, num);
    }
  }

  /** A completion puts a digit in the empty cell at its starting position. */
  lemma EmptyCellDigit(g: Grid, b: Grid, p: int, r: int, c: int)
    requires IsGrid(g) && IsGrid(b) && InRange(r) && InRange(c) && Pos(r, c) == p && b[r][c] == 0
    requires Extends(g, b, p)
    ensures 1 <= g[r][c] <= 9
  {
    assert ExtendsAt(g, b, p, r, c);
  }

  /** When every digit is excluded from an empty cell, the board has no completion. */
  lemma AllExcluded(b: Grid, p: int, r: int, c: int, order: seq<int>)
    requires IsGrid(b) && InRange(r) && InRange(c) && Pos(r, c) == p && b[r][c] == 0
    requires IsDigitPermutation(order)
    requires forall i :: 0 <= i < 9 ==> Excluded(b, p, r, c, order[i])
    ensures Unsolvable(b, p)
  {
    forall g | Completes(g, b, p) ensures 1 <= g[r][c] <= 9 && g[r][c] !in order {
      EmptyCellDigit(g, b, p, r, c);
      forall i | 0 <= i < 9 ensures g[r][c] != order[i] {
        assert Excluded(b, p, r, c, order[i]);
      }
    }
  }

  /** At a filled cell, no completion from p + 1 means none from p. */
  lemma SkipFilledUnsolvable(b: Grid, p: int, r: int, c: int)
    requires IsGrid(b) && InRange(r) && InRange(c) && Pos(r, c) == p && b[r][c] != 0
    requires Unsolvable(b, p + 1)
    ensures Unsolvable(b, p)
  {
    forall g | IsGrid(g) ensures !Completes(g, b, p) {
      SkipFilledCell(g, b, p, r, c);
      assert !Completes(g, b, p + 1);
    }
  }

  /** Every board is extended by itself from position 81 on. */
  lemma ExtendsAtEnd(g: Grid)
    requires IsGrid(g)
    ensures Extends(g, g, 81)
  {
  }

  /** The cell (r, c), if it is empty in b and at position p or later, holds in g a
      digit that occurs in no other cell of its row, column or box. */
  ghost predicate PlacedAt(g: Grid, b: Grid, p: int, r: int, c: int)
    requires IsGrid(g) && IsGrid(b)
  {
    InRange(r) && InRange(c) && Pos(r, c) >= p && b[r][c] == 0 ==>
      Placeable(Set(g, r, c, 0), r, c, g[r][c])
  }

  /** Every digit g holds in a cell that b leaves empty from position p on passes
      the unit check against the rest of g. */
  ghost predicate Placed(g: Grid, b: Grid, p: int)
    requires IsGrid(g) && IsGrid(b)
  {
    forall r, c :: PlacedAt(g, b, p, r, c)
  }

  lemma PlacedAtEnd(g: Grid, b: Grid)
    requires IsGrid(g) && IsGrid(b)
    ensures Placed(g, b, 81)
  {
  }

  /** A filled cell places no digit. */
  lemma SkipFilledPlaced(g: Grid, b: Grid, p: int, r: int, c: int)
    requires IsGrid(g) && IsGrid(b) && InRange(r) && InRange(c) && Pos(r, c) == p && b[r][c] != 0
    requires Placed(g, b, p + 1)
    ensures Placed(g, b, p)
  {
    forall i, j ensures PlacedAt(g, b, p, i, j) {
      if InRange(i) && InRange(j) && Pos(i, j) >= p && b[i][j] == 0 {
        assert i != r || j != c;
        assert Pos(i, j) >= p + 1;
        assert PlacedAt(g, b, p + 1, i, j);
      }
    }
  }

  /** A digit that passed the unit check when it was written still clashes with
      no cell once the later empty cells are filled by digits that passed it too. */
  lemma PlacedThroughCell(g: Grid, b: Grid, p: int, r: int, c: int, num: int)
    requires IsGrid(g) && IsGrid(b) && InRange(r) && InRange(c) && Pos(r, c) == p && b[r][c] == 0
    requires 1 <= num <= 9 && Placeable(b, r, c, num)
    requires Extends(g, Set(b, r, c, num), p + 1) && Placed(g, Set(b, r, c, num), p + 1)
    ensures Placed(g, b, p)
  {
    var b1 := Set(b, r, c, num);
    assert g[r][c] == num by {
      assert ExtendsAt(g, b1, p + 1, r, c);
    }
    forall i, j ensures PlacedAt(g, b, p, i, j) {
      if InRange(i) && InRange(j) && Pos(i, j) >= p && b[i][j] == 0 {
        if i == r && j == c {
          var h := Set(g, r, c, 0);
          forall i2, j2 | InRange(i2) && InRange(j2) && SameUnit(r, c, i2, j2) ensures h[i2][j2] != num {
            if i2 != r || j2 != c {
              assert ExtendsAt(g, b1, p + 1, i2, j2);
              if Pos(i2, j2) < p + 1 || b1[i2][j2] != 0 {
                assert b[i2][j2] != num;
              } else {
                assert PlacedAt(g, b1, p + 1, i2, j2);
                assert SameUnit(i2, j2, r, c);
                assert Set(g, i2, j2, 0)[r][c] == num;
              }
            }
          }
        } else {
          assert PlacedAt(g, b1, p + 1, i, j);
        }
      }
    }
  }

  /** A digit written at the empty cell (r, c) of b, after which the rest of the
      board b1 was solved into g, leaves g extending b with every digit placed by
      the unit check, and keeps a consistent board consistent. */
  lemma SolvedThroughCell(g: Grid, b: Grid, b1: Grid, p: int, q: int, r: int, c: int, num: int)
    requires IsGrid(g) && IsGrid(b) && InRange(r) && InRange(c) && Pos(r, c) == p && b[r][c] == 0
    requires 1 <= num <= 9 && Placeable(b, r, c, num) && b1 == Set(b, r, c, num) && q == p + 1
    requires Extends(g, b1, q) && Placed(g, b1, q) && (Consistent(b1) ==> Consistent(g))
    ensures Extends(g, b, p) && Placed(g, b, p) && (Consistent(b) ==> Consistent(g))
  {
    ExtendsThroughCell(g, b, p, r, c, num);
    PlacedThroughCell(g, b, p, r, c, num);
    if Consistent(b) {
      PlaceKeepsConsistent(b, r, c, num);
    }
  }

  // ---------------------------------------------------------------- lemmas for generation

  /** Blanking one non-empty cell adds one empty cell before every later position. */
  lemma {:induction false} BlankOneCell(g: Grid, r: int, c: int, p: nat)
    requires IsGrid(g) && InRange(r) && InRange(c) && g[r][c] != 0 && p <= 81
    ensures ZerosBefore(Set(g, r, c, 0), p) == ZerosBefore(g, p) + (if Pos(r, c) < p then 1 else 0)
  {
    if p > 0 {
      BlankOneCell(g, r, c, p - 1);
      var q := p - 1;
      assert (q / 9 == r && q % 9 == c) <==> Pos(r, c) == q;
    }
  }

  /** Every cell before p is empty exactly when all p of them are counted. */
  lemma {:induction false} AllZerosBefore(g: Grid, p: nat)
    requires IsGrid(g) && p <= 81
    ensures ZerosBefore(g, p) == p <==> forall q :: 0 <= q < p ==> g[q / 9][q % 9] == 0
  {
    if p > 0 {
      AllZerosBefore(g, p - 1);
    }
  }

  /** A board with no non-empty cell has all 81 cells counted as empty. */
  lemma EmptyBoardCount(g: Grid)
    requires IsGrid(g)
    ensures CountZeros(g) == 81 <==> forall r, c :: InRange(r) && InRange(c) ==> g[r][c] == 0
  {
    AllZerosBefore(g, 81);
    if forall r, c :: InRange(r) && InRange(c) ==> g[r][c] == 0 {
      forall q | 0 <= q < 81 ensures g[q / 9][q % 9] == 0 {
        assert InRange(q / 9) && InRange(q % 9);
      }
    }
    if forall q :: 0 <= q < 81 ==> g[q / 9][q % 9] == 0 {
      forall r, c | InRange(r) && InRange(c) ensures g[r][c] == 0 {
        var q := Pos(r, c);
        assert q / 9 == r && q % 9 == c;
      }
    }
  }

  /** A solved board has no empty cell. */
  lemma {:induction false} SolvedHasNoZeros(g: Grid, p: nat := 81)
    requires IsGrid(g) && Solved(g) && p <= 81
    ensures ZerosBefore(g, p) == 0
  {
    if p > 0 {
      SolvedHasNoZeros(g, p - 1);
      assert InRange((p - 1) / 9) && InRange((p - 1) % 9);
    }
  }

  /** The board of _generate_solution before solving: three shuffled diagonal
      boxes and every other cell empty. */
  ghost predicate DiagonalStart(g: Grid)
    requires IsGrid(g)
  {
    && IsDigitPermutation(Block(g, 0, 0))
    && IsDigitPermutation(Block(g, 3, 3))
    && IsDigitPermutation(Block(g, 6, 6))
    && forall r, c :: InRange(r) && InRange(c) && r / 3 != c / 3 ==> g[r][c] == 0
  }

  /** g and h agree outside the 3x3 block whose top-left corner is (row, col). */
  ghost predicate SameOutside(g: Grid, h: Grid, row: int, col: int)
    requires IsGrid(g) && IsGrid(h)
  {
    forall r, c :: InRange(r) && InRange(c) && !(row <= r < row + 3 && col <= c < col + 3) ==> h[r][c] == g[r][c]
  }

  /** The first n cells of the block at (row, col), in row-major order, hold sh
      read from its end (the order in which list.pop() hands them out); every other
      cell of h is as in g. */
  ghost predicate PoppedInto(h: Grid, g: Grid, row: int, col: int, sh: seq<int>, n: int)
    requires IsGrid(h) && IsGrid(g) && |sh| == 9 && 0 <= n <= 9
  {
    forall r, c :: PoppedAt(h, g, row, col, sh, n, r, c)
  }

  /** PoppedInto at the cell (r, c). */
  ghost predicate PoppedAt(h: Grid, g: Grid, row: int, col: int, sh: seq<int>, n: int, r: int, c: int)
    requires IsGrid(h) && IsGrid(g) && |sh| == 9 && 0 <= n <= 9
  {
    InRange(r) && InRange(c) ==>
      h[r][c] == if row <= r < row + 3 && col <= c < col + 3 && 3 * (r - row) + (c - col) < n
                 then sh[8 - (3 * (r - row) + (c - col))] else g[r][c]
  }

  /** Popping the next value into the next cell (row + i, col + j) of the block. */
  lemma PopStep(h: Grid, g: Grid, row: int, col: int, sh: seq<int>, i: int, j: int)
    requires IsGrid(h) && IsGrid(g) && |sh| == 9 && 0 <= i < 3 && 0 <= j < 3 && 0 <= row <= 6 && 0 <= col <= 6
    requires PoppedInto(h, g, row, col, sh, 3 * i + j)
    ensures PoppedInto(Set(h, row + i, col + j, sh[8 - (3 * i + j)]), g, row, col, sh, 3 * i + j + 1)
  {
    var h' := Set(h, row + i, col + j, sh[8 - (3 * i + j)]);
    var n1 := 3 * i + j + 1;
    forall r, c ensures PoppedAt(h', g, row, col, sh, n1, r, c) {
      if InRange(r) && InRange(c) {
        PopCell(h, g, row, col, sh, i, j, r, c);
      }
    }
  }

  /** PopStep, one cell at a time. */
  lemma PopCell(h: Grid, g: Grid, row: int, col: int, sh: seq<int>, i: int, j: int, r: int, c: int)
    requires IsGrid(h) && IsGrid(g) && |sh| == 9 && 0 <= i < 3 && 0 <= j < 3 && 0 <= row <= 6 && 0 <= col <= 6
    requires PoppedInto(h, g, row, col, sh, 3 * i + j) && InRange(r) && InRange(c)
    ensures PoppedAt(Set(h, row + i, col + j, sh[8 - (3 * i + j)]), g, row, col, sh, 3 * i + j + 1, r, c)
  {
    var n := 3 * i + j;
    assert PoppedAt(h, g, row, col, sh, n, r, c);
    var inBlock, k := row <= r < row + 3 && col <= c < col + 3, 3 * (r - row) + (c - col);
    if r == row + i && c == col + j {
      assert inBlock && k == n;
    } else {
      assert inBlock ==> k != n;
    }
  }

  /** The popped cells of h do not depend on the grid the rest is compared with. */
  lemma PoppedSelf(h: Grid, g: Grid, row: int, col: int, sh: seq<int>, n: int)
    requires IsGrid(h) && IsGrid(g) && |sh| == 9 && 0 <= n <= 9
    requires PoppedInto(h, g, row, col, sh, n)
    ensures PoppedInto(h, h, row, col, sh, n)
  {
    forall r, c ensures PoppedAt(h, h, row, col, sh, n, r, c) {
      assert PoppedAt(h, g, row, col, sh, n, r, c);
    }
  }

  /** Popping n2 values over a grid m that already had the first n popped over g. */
  lemma PoppedThrough(h: Grid, m: Grid, g: Grid, row: int, col: int, sh: seq<int>, n: int, n2: int)
    requires IsGrid(h) && IsGrid(m) && IsGrid(g) && |sh| == 9 && 0 <= n <= n2 <= 9
    requires PoppedInto(m, g, row, col, sh, n) && PoppedInto(h, m, row, col, sh, n2)
    ensures PoppedInto(h, g, row, col, sh, n2)
  {
    forall r, c ensures PoppedAt(h, g, row, col, sh, n2, r, c) {
      assert PoppedAt(m, g, row, col, sh, n, r, c) && PoppedAt(h, m, row, col, sh, n2, r, c);
    }
  }

  /** With all nine values popped, the block holds the permutation and nothing else changed. */
  lemma PoppedAll(h: Grid, g: Grid, row: int, col: int, sh: seq<int>)
    requires IsGrid(h) && IsGrid(g) && 0 <= row <= 6 && 0 <= col <= 6 && IsDigitPermutation(sh)
    requires PoppedInto(h, g, row, col, sh, 9)
    ensures IsDigitPermutation(Block(h, row, col)) && SameOutside(g, h, row, col)
  {
    var s := Block(h, row, col);
    forall k | 0 <= k < 9 ensures s[k] == sh[8 - k] {
      PoppedCell(h, g, row, col, sh, k);
    }
    ReversedPermutation(s, sh);
    forall r, c | InRange(r) && InRange(c) && !(row <= r < row + 3 && col <= c < col + 3)
      ensures h[r][c] == g[r][c]
    {
      assert PoppedAt(h, g, row, col, sh, 9, r, c);
    }
  }

  /** The k-th cell of the block holds the k-th value popped. */
  lemma PoppedCell(h: Grid, g: Grid, row: int, col: int, sh: seq<int>, k: int)
    requires IsGrid(h) && IsGrid(g) && 0 <= row <= 6 && 0 <= col <= 6 && |sh| == 9 && 0 <= k < 9
    requires PoppedInto(h, g, row, col, sh, 9)
    ensures h[row + k / 3][col + k % 3] == sh[8 - k]
  {
    var i := if k < 3 then 0 else if k < 6 then 1 else 2;
    var j := k - 3 * i;
    assert k / 3 == i && k % 3 == j;
    var r, c := row + i, col + j;
    assert InRange(r) && InRange(c) && 3 * (r - row) + (c - col) == k;
    assert PoppedAt(h, g, row, col, sh, 9, r, c);
  }

  /** 1..9 read backwards is again a permutation of 1..9. */
  lemma ReversedPermutation(s: seq<int>, sh: seq<int>)
    requires IsDigitPermutation(sh) && |s| == 9
    requires forall k :: 0 <= k < 9 ==> s[k] == sh[8 - k]
    ensures IsDigitPermutation(s)
  {
    forall v | 1 <= v <= 9 ensures v in s {
      assert v in sh;
      var k :| 0 <= k < 9 && sh[k] == v;
      assert s[8 - k] == v;
    }
    forall i, j | 0 <= i < j < 9 ensures s[i] != s[j] {
      assert sh[8 - j] != sh[8 - i];
    }
  }

  /** Filling the three diagonal blocks of an empty board one after the other gives the diagonal start. */
  lemma DiagonalBoxesFilled(z: Grid, g0: Grid, g1: Grid, g2: Grid)
    requires IsGrid(z) && IsGrid(g0) && IsGrid(g1) && IsGrid(g2)
    requires forall r, c :: InRange(r) && InRange(c) ==> z[r][c] == 0
    requires SameOutside(z, g0, 0, 0) && IsDigitPermutation(Block(g0, 0, 0))
    requires SameOutside(g0, g1, 3, 3) && IsDigitPermutation(Block(g1, 3, 3))
    requires SameOutside(g1, g2, 6, 6) && IsDigitPermutation(Block(g2, 6, 6))
    ensures DiagonalStart(g2)
  {
    assert Block(g2, 0, 0) == Block(g0, 0, 0) by {
      forall k | 0 <= k < 9 ensures Block(g2, 0, 0)[k] == Block(g0, 0, 0)[k] {
        var r, c := k / 3, k % 3;
        assert InRange(r) && InRange(c) && g2[r][c] == g1[r][c] == g0[r][c];
      }
    }
    assert Block(g2, 3, 3) == Block(g1, 3, 3) by {
      forall k | 0 <= k < 9 ensures Block(g2, 3, 3)[k] == Block(g1, 3, 3)[k] {
        var r, c := 3 + k / 3, 3 + k % 3;
        assert InRange(r) && InRange(c) && g2[r][c] == g1[r][c];
      }
    }
    forall r, c | InRange(r) && InRange(c) && r / 3 != c / 3 ensures g2[r][c] == 0 {
      assert !(0 <= r < 3 && 0 <= c < 3) && !(3 <= r < 6 && 3 <= c < 6) && !(6 <= r < 9 && 6 <= c < 9);
      assert g2[r][c] == g1[r][c] == g0[r][c] == z[r][c];
    }
  }

  /** Every cell of the diagonal start is empty or a digit. */
  lemma DiagonalStartDigits(g: Grid)
    requires IsGrid(g) && DiagonalStart(g)
    ensures forall r, c :: InRange(r) && InRange(c) ==> 0 <= g[r][c] <= 9
  {
    forall r, c | InRange(r) && InRange(c) && r / 3 == c / 3 ensures 1 <= g[r][c] <= 9 {
      var b := r / 3 * 3;
      assert b in {0, 3, 6};
      var k := 3 * (r - b) + (c - b);
      assert 0 <= k < 9 && Block(g, b, b)[k] == g[r][c];
    }
  }

  /** A completion from position 0 of a board of digits and blanks is fully solved. */
  lemma CompletedFromStart(g: Grid, b: Grid)
    requires IsGrid(g) && IsGrid(b) && Consistent(g) && Extends(g, b, 0)
    requires forall r, c :: InRange(r) && InRange(c) ==> 0 <= b[r][c] <= 9
    ensures Solved(g)
  {
    forall r, c | InRange(r) && InRange(c) ensures 1 <= g[r][c] <= 9 {
      assert ExtendsAt(g, b, 0, r, c);
    }
  }

  /** Two cells of one box hold different values when the box holds a permutation. */
  lemma BlockDistinct(g: Grid, b: int, r1: int, c1: int, r2: int, c2: int)
    requires IsGrid(g) && b in {0, 3, 6} && IsDigitPermutation(Block(g, b, b))
    requires b <= r1 < b + 3 && b <= c1 < b + 3 && b <= r2 < b + 3 && b <= c2 < b + 3
    requires r1 != r2 || c1 != c2
    ensures g[r1][c1] != g[r2][c2]
  {
    var s := Block(g, b, b);
    var k1, k2 := 3 * (r1 - b) + (c1 - b), 3 * (r2 - b) + (c2 - b);
    assert s[k1] == g[r1][c1] && s[k2] == g[r2][c2];
    if k1 < k2 {
      assert s[k1] != s[k2];
    } else {
      assert s[k2] != s[k1];
    }
  }

  /** The diagonal-box start position never breaks a sudoku rule. */
  lemma DiagonalStartConsistent(g: Grid)
    requires IsGrid(g) && DiagonalStart(g)
    ensures Consistent(g)
  {
    forall r1, c1, r2, c2 |
      InRange(r1) && InRange(c1) && InRange(r2) && InRange(c2) &&
      (r1 != r2 || c1 != c2) && SameUnit(r1, c1, r2, c2) && g[r1][c1] != 0
      ensures g[r1][c1] != g[r2][c2]
    {
      if g[r2][c2] != 0 {
        assert r1 / 3 == c1 / 3 && r2 / 3 == c2 / 3;
        var b := r1 / 3 * 3;
        assert r2 / 3 * 3 == b;
        BlockDistinct(g, b, r1, c1, r2, c2);
      }
    }
  }

  /** num is absent from the row, the column and the box of (row, col), scanned
      the way _is_valid scans them. */
  ghost predicate UnitsFree(g: Grid, row: int, col: int, num: int)
    requires IsGrid(g) && InRange(row) && InRange(col)
  {
    var br, bc := row / 3 * 3, col / 3 * 3;
    && (forall j :: 0 <= j < 9 ==> g[row][j] != num)
    && (forall i :: 0 <= i < 9 ==> g[i][col] != num)
    && (forall i, j :: br <= i < br + 3 && bc <= j < bc + 3 ==> g[i][j] != num)
  }

  /** Scanning the row, the column and the box is the same as checking every cell of a shared unit. */
  lemma PlaceableByUnits(g: Grid, row: int, col: int, num: int)
    requires IsGrid(g) && InRange(row) && InRange(col)
    ensures Placeable(g, row, col, num) <==> UnitsFree(g, row, col, num)
  {
    var br, bc := row / 3 * 3, col / 3 * 3;
    if UnitsFree(g, row, col, num) {
      forall r, c | InRange(r) && InRange(c) && SameUnit(row, col, r, c) ensures g[r][c] != num {
        if r != row && c != col {
          assert br <= r < br + 3 && bc <= c < bc + 3;
        }
      }
    }
    if Placeable(g, row, col, num) {
      forall j | 0 <= j < 9 ensures g[row][j] != num {
        assert InRange(j) && SameUnit(row, col, row, j);
      }
      forall i | 0 <= i < 9 ensures g[i][col] != num {
        assert InRange(i) && SameUnit(row, col, i, col);
      }
      forall i, j | br <= i < br + 3 && bc <= j < bc + 3 ensures g[i][j] != num {
        assert InRange(i) && InRange(j) && SameUnit(row, col, i, j);
      }
    }
  }

  /** An array mirroring a grid passes the scans of _is_valid exactly when num is placeable. */
  lemma MirrorUnits(a: array2<int>, g: Grid, row: int, col: int, num: int)
    requires a.Length0 == 9 && a.Length1 == 9 && IsGrid(g) && InRange(row) && InRange(col)
    requires forall r, c {:trigger a[r, c]} :: InRange(r) && InRange(c) ==> a[r, c] == g[r][c]
    ensures var br, bc := row / 3 * 3, col / 3 * 3;
      ((forall j :: 0 <= j < 9 ==> a[row, j] != num)
       && (forall i :: 0 <= i < 9 ==> a[i, col] != num)
       && (forall i, j :: br <= i < br + 3 && bc <= j < bc + 3 ==> a[i, j] != num))
      <==> Placeable(g, row, col, num)
  {
    PlaceableByUnits(g, row, col, num);
    var br, bc := row / 3 * 3, col / 3 * 3;
    assert (forall j :: 0 <= j < 9 ==> a[row, j] != num) <==> (forall j :: 0 <= j < 9 ==> g[row][j] != num) by {
      forall j | 0 <= j < 9 ensures a[row, j] == g[row][j] {
      }
    }
    assert (forall i :: 0 <= i < 9 ==> a[i, col] != num) <==> (forall i :: 0 <= i < 9 ==> g[i][col] != num) by {
      forall i | 0 <= i < 9 ensures a[i, col] == g[i][col] {
      }
    }
    assert (forall i, j :: br <= i < br + 3 && bc <= j < bc + 3 ==> a[i, j] != num)
       <==> (forall i, j :: br <= i < br + 3 && bc <= j < bc + 3 ==> g[i][j] != num) by {
      forall i, j | br <= i < br + 3 && bc <= j < bc + 3 ensures a[i, j] == g[i][j] {
        assert InRange(i) && InRange(j);
      }
    }
  }

  // ---------------------------------------------------------------- the engine

  class SudokuLogic {
    var board: array2<int>
    var solution: array2<int>
    var difficulty: string
    /** The value held by `board` and by `solution`. */
    ghost var cells: Grid
    ghost var solved: Grid

    ghost predicate Valid()
      reads this, board, solution
    {
      && board.Length0 == 9 && board.Length1 == 9
      && solution.Length0 == 9 && solution.Length1 == 9
      && board != solution
      && IsGrid(cells) && IsGrid(solved)
      && (forall r, c {:trigger board[r, c]} :: InRange(r) && InRange(c) ==> board[r, c] == cells[r][c])
      && (forall r, c {:trigger solution[r, c]} :: InRange(r) && InRange(c) ==> solution[r, c] == solved[r][c])
    }

    /** An empty board and solution, difficulty "medium". */
    constructor ()
      ensures Valid() && fresh(board) && fresh(solution)
      ensures CountZeros(cells) == 81 && CountZeros(solved) == 81
      ensures difficulty == "medium"
    {
      board := new int[9, 9]((r, c) => 0);
      solution := new int[9, 9]((r, c) => 0);
      difficulty := "medium";
      cells := seq(9, r => seq(9, c => 0));
      solved := seq(9, r => seq(9, c => 0));
      new;
      EmptyBoardCount(cells);
      EmptyBoardCount(solved);
    }

    /** set_difficulty. */
    method SetDifficulty(d: string)
      modifies this`difficulty
      ensures difficulty == d
    {
      difficulty := d;
    }

    /** One in-place write to the board, kept in step with `cells`. */
    method SetCell(r: int, c: int, v: int)
      requires Valid() && InRange(r) && InRange(c)
      modifies board, this`cells
      ensures Valid() && cells == Set(old(cells), r, c, v)
    {
      board[r, c] := v;
      cells := Set(cells, r, c, v);
    }

    /** _is_valid: num is in neither the row, the column nor the 3x3 box of (row, col). */
    predicate IsValid(row: int, col: int, num: int)
      reads this, board, solution
      requires Valid() && InRange(row) && InRange(col)
      ensures IsValid(row, col, num) <==> Placeable(cells, row, col, num)
    {
      var br, bc := row / 3 * 3, col / 3 * 3;
      MirrorUnits(board, cells, row, col, num);
      && (forall j :: 0 <= j < 9 ==> board[row, j] != num)
      && (forall i :: 0 <= i < 9 ==> board[i, col] != num)
      && (forall i, j :: br <= i < br + 3 && bc <= j < bc + 3 ==> board[i, j] != num)
    }

    /** _solve_partial: fill the empty cells from (row, col) on, in row-major
        order, trying the digits of each cell in a random order and undoing a
        tentative digit when the rest cannot be filled. */
    method SolvePartial(row: int, col: int) returns (ok: bool)
      requires Valid()
      requires (InRange(row) && InRange(col)) || (row == 9 && col == 0)
      modifies board, this`cells
      decreases 81 - Pos(row, col), 1
      ensures Valid()
      ensures ok ==> Extends(cells, old(cells), Pos(row, col))
      ensures ok ==> Placed(cells, old(cells), Pos(row, col))
      ensures ok && Consistent(old(cells)) ==> Consistent(cells)
      ensures !ok ==> cells == old(cells) && Unsolvable(cells, Pos(row, col))
    {
      if row == 9 {
        ExtendsAtEnd(cells);
        PlacedAtEnd(cells, cells);
        return true;
      }
      var p := Pos(row, col);
      var nextRow, nextCol := if col < 8 then row else row + 1, if col < 8 then col + 1 else 0;
      assert Pos(nextRow, nextCol) == p + 1;

      if board[row, col] != 0 {
        ghost var b := cells;
        ok := SolvePartial(nextRow, nextCol);
        if ok {
          assert Extends(cells, b, p + 1);
          SkipFilledCell(cells, b, p, row, col);
          SkipFilledPlaced(cells, b, p, row, col);
        } else {
          SkipFilledUnsolvable(b, p, row, col);
        }
        return;
      }

      ghost var b := cells;
      assert IsDigitPermutation([1, 2, 3, 4, 5, 6, 7, 8, 9]);
      var order: seq<int> :| IsDigitPermutation(order);
      assert IsDigitPermutation(order);
      var k := 0;
      while k < 9
        invariant 0 <= k <= 9
        invariant Valid() && cells == b
        invariant forall i :: 0 <= i < k ==> Excluded(b, p, row, col, order[i])
      {
        ok := TryDigit(row, col, order[k]);
        if ok {
          return;
        }
        k := k + 1;
      }
      AllExcluded(b, p, row, col, order);
      return false;
    }

    /** Try the digit num at the empty cell (row, col), one turn of the digit loop
        of _solve_partial: if num passes the unit check, write it and solve the
        rest of the board, writing 0 back when that fails. */
    method TryDigit(row: int, col: int, num: int) returns (ok: bool)
      requires Valid() && InRange(row) && InRange(col) && cells[row][col] == 0 && 1 <= num <= 9
      modifies board, this`cells
      decreases 81 - Pos(row, col), 0
      ensures Valid()
      ensures ok ==> Extends(cells, old(cells), Pos(row, col))
      ensures ok ==> Placed(cells, old(cells), Pos(row, col))
      ensures ok && Consistent(old(cells)) ==> Consistent(cells)
      ensures !ok ==> cells == old(cells) && Excluded(cells, Pos(row, col), row, col, num)
    {
      var p := Pos(row, col);
      var nextRow, nextCol := if col < 8 then row else row + 1, if col < 8 then col + 1 else 0;
      assert Pos(nextRow, nextCol) == p + 1;
      ghost var b := cells;
      if !IsValid(row, col, num) {
        NotPlaceableExcludes(b, p, row, col, num);
        return false;
      }
      SetCell(row, col, num);
      ghost var b1 := cells;
      ok := SolvePartial(nextRow, nextCol);
      if ok {
        SolvedThroughCell(cells, b, b1, p, Pos(nextRow, nextCol), row, col, num);
        return;
      }
      FailureExcludes(b, p, row, col, num);
      SetCell(row, col, 0);
      SetUndo(b, row, col, num);
    }

    /** _fill_box: shuffle 1..9 and pop the shuffled list into the 3x3 block at (row, col). */
    method FillBox(row: int, col: int)
      requires Valid() && 0 <= row <= 6 && 0 <= col <= 6
      modifies board, this`cells
      ensures Valid()
      ensures IsDigitPermutation(Block(cells, row, col))
      ensures SameOutside(old(cells), cells, row, col)
    {
      assert IsDigitPermutation([1, 2, 3, 4, 5, 6, 7, 8, 9]);
      var shuffled: seq<int> :| IsDigitPermutation(shuffled);
      assert IsDigitPermutation(shuffled);
      ghost var g := cells;
      var nums := shuffled;
      for i := 0 to 3
        invariant Valid() && nums == shuffled[..9 - 3 * i]
        invariant PoppedInto(cells, g, row, col, shuffled, 3 * i)
      {
        ghost var m := cells;
        PoppedSelf(cells, g, row, col, shuffled, 3 * i);
        nums := FillBoxRow(row, col, i, nums, shuffled);
        PoppedThrough(cells, m, g, row, col, shuffled, 3 * i, 3 * i + 3);
      }
      PoppedAll(cells, g, row, col, shuffled);
    }

    /** Row i of the block in _fill_box: pop three values of nums into its cells,
        the first 3 * i cells of the block holding theirs already. */
    method FillBoxRow(row: int, col: int, i: int, nums0: seq<int>, shuffled: seq<int>)
      returns (nums: seq<int>)
      requires Valid() && 0 <= row <= 6 && 0 <= col <= 6 && 0 <= i < 3
      requires |shuffled| == 9 && nums0 == shuffled[..9 - 3 * i]
      requires PoppedInto(cells, cells, row, col, shuffled, 3 * i)
      modifies board, this`cells
      ensures Valid() && nums == shuffled[..6 - 3 * i]
      ensures PoppedInto(cells, old(cells), row, col, shuffled, 3 * i + 3)
    {
      ghost var g := cells;
      nums := nums0;
      for j := 0 to 3
        invariant Valid() && nums == shuffled[..9 - 3 * i - j]
        invariant PoppedInto(cells, g, row, col, shuffled, 3 * i + j)
      {
        PopStep(cells, g, row, col, shuffled, i, j);
        assert nums[|nums| - 1] == shuffled[8 - (3 * i + j)];
        SetCell(row + i, col + j, nums[|nums| - 1]);
        nums := nums[..|nums| - 1];
      }
    }

    /** _generate_solution: a fresh empty board, the three diagonal boxes filled,
        then the solver run from the top-left cell.  Its verdict is ignored, so the
        board is either solved or, when the solver found no completion, left as
        the diagonal start. */
    method GenerateSolution()
      requires Valid()
      modifies this`board, this`cells
      ensures Valid() && fresh(board)
      ensures Consistent(cells)
      ensures Solved(cells) || (DiagonalStart(cells) && Unsolvable(cells, 0))
    {
      board := new int[9, 9]((r, c) => 0);
      cells := seq(9, r => seq(9, c => 0));
      ghost var z := cells;
      FillBox(0, 0);
      ghost var c0 := cells;
      FillBox(3, 3);
      ghost var c1 := cells;
      FillBox(6, 6);
      DiagonalBoxesFilled(z, c0, c1, cells);
      DiagonalStartConsistent(cells);
      ghost var start := cells;
      var ok := SolvePartial(0, 0);
      if ok {
        DiagonalStartDigits(start);
        CompletedFromStart(cells, start);
      }
    }

    /** generate_board: a solution, copied into `solution`, then as many distinct
        non-empty cells blanked as the difficulty asks for.  Returns the board. */
    method GenerateBoard() returns (result: array2<int>)
      requires Valid()
      modifies this`board, this`solution, this`cells, this`solved
      ensures Valid() && result == board && fresh(board) && fresh(solution)
      ensures Consistent(solved)
      ensures Solved(solved) || (DiagonalStart(solved) && Unsolvable(solved, 0))
      ensures forall r, c :: InRange(r) && InRange(c) ==> cells[r][c] == solved[r][c] || cells[r][c] == 0
      ensures CountZeros(cells) == CountZeros(solved) + Min(ToRemove(difficulty), 81 - CountZeros(solved))
      ensures Solved(solved) ==> CountZeros(cells) == ToRemove(difficulty)
    {
      GenerateSolution();
      var b := board;
      solution := new int[9, 9]((r, c) reads b => if 0 <= r < 9 && 0 <= c < 9 then b[r, c] else 0);
      solved := cells;
      var toRemove := ToRemove(difficulty);
      var removed := 0;
      while removed < toRemove && exists r, c :: 0 <= r < 9 && 0 <= c < 9 && board[r, c] != 0
        invariant Valid() && fresh(board) && fresh(solution)
        invariant 0 <= removed <= toRemove
        invariant forall r, c :: InRange(r) && InRange(c) ==> cells[r][c] == solved[r][c] || cells[r][c] == 0
        invariant CountZeros(cells) == CountZeros(solved) + removed
        modifies board, this`cells
        decreases toRemove - removed
      {
        var row, col :| 0 <= row < 9 && 0 <= col < 9 && board[row, col] != 0;
        BlankOneCell(cells, row, col, 81);
        SetCell(row, col, 0);
        removed := removed + 1;
      }
      if removed < toRemove {
        forall r, c | InRange(r) && InRange(c) ensures cells[r][c] == 0 {
          assert board[r, c] == 0;
        }
        EmptyBoardCount(cells);
      }
      assert CountZeros(cells) <= 81;
      if Solved(solved) {
        SolvedHasNoZeros(solved);
      }
      result := board;
    }

    /** check_solution: the user's board matches the stored solution cell by cell. */
    method CheckSolution(user: Grid) returns (ok: bool)
      requires Valid() && IsGrid(user)
      ensures ok <==> user == solved
    {
      for i := 0 to 9
        invariant forall r :: 0 <= r < i ==> user[r] == solved[r]
      {
        for j := 0 to 9
          invariant forall c :: 0 <= c < j ==> user[i][c] == solved[i][c]
        {
          if user[i][j] != solution[i, j] {
            return false;
          }
        }
        assert user[i] == solved[i];
      }
      return true;
    }
  }
}
