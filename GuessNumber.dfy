/** The guess-the-number engine: a classic higher/lower game on 1..100 and the
    1A2B game, whose feedback marks each digit of a guess as right in place (√),
    present elsewhere (乄) or absent (×). */
module GuessNumber {
  import opened Optional
  import opened Text

  // ---------------------------------------------------------------- feedback marks

  datatype Mark = Exact | Present | Absent

  /** The symbol shown for a mark. */
  function Symbol(m: Mark): (s: string)
    ensures |s| == 1 && IsWord(s)
  {
    match m
    case Exact => "√"
    case Present => "乄"
    case Absent => "×"
  }

  function Symbols(marks: seq<Mark>): (syms: seq<string>)
    ensures |syms| == |marks|
    ensures forall i :: 0 <= i < |marks| ==> syms[i] == Symbol(marks[i])
  {
    seq(|marks|, i requires 0 <= i < |marks| => Symbol(marks[i]))
  }

  /** list.count(m). */
  function Count(marks: seq<Mark>, m: Mark): (n: nat)
    ensures n <= |marks|
  {
    if marks == [] then 0 else (if marks[0] == m then 1 else 0) + Count(marks[1..], m)
  }

  // ---------------------------------------------------------------- the two passes as functions

  /** The first pass: √ where the digits agree, × elsewhere. */
  function Pass1(g: string, t: string): (marks: seq<Mark>)
    requires |g| <= |t|
    ensures |marks| == |g|
    ensures forall i :: 0 <= i < |g| ==> marks[i] == if g[i] == t[i] then Exact else Absent
  {
    if g == [] then [] else [if g[0] == t[0] then Exact else Absent] + Pass1(g[1..], t[1..])
  }

  /** list(t) with every position matched in the first pass set to None. */
  function Pass1Pool(g: string, t: string): (tl: seq<Option<char>>)
    requires |g| <= |t|
    ensures |tl| == |t|
    ensures forall i :: 0 <= i < |t| ==> tl[i] == if i < |g| && g[i] == t[i] then None else Some(t[i])
  {
    if t == [] then []
    else if g == [] then [Some(t[0])] + Pass1Pool(g, t[1..])
    else [if g[0] == t[0] then None else Some(t[0])] + Pass1Pool(g[1..], t[1..])
  }

  /** list.index(x): the first position holding x. */
  function FirstIndex(tl: seq<Option<char>>, x: char): (j: nat)
    requires Some(x) in tl
    ensures j < |tl| && tl[j] == Some(x)
    ensures forall k :: 0 <= k < j ==> tl[k] != Some(x)
  {
    if tl[0] == Some(x) then 0
    else
      assert Some(x) in tl[1..] by {
        var k :| 0 <= k < |tl| && tl[k] == Some(x);
        assert tl[1..][k - 1] == Some(x);
      }
      1 + FirstIndex(tl[1..], x)
  }

  /** The second pass from position i on: a position not marked √ whose digit is
      still in the pool is marked 乄, and the first pool entry holding that digit
      is used up. */
  function Pass2(g: string, marks: seq<Mark>, tl: seq<Option<char>>, i: nat): seq<Mark>
    requires |marks| == |g| && i <= |g|
    decreases |g| - i
  {
    if i == |g| then marks
    else if marks[i] != Exact && Some(g[i]) in tl then
      Pass2(g, marks[i := Present], tl[FirstIndex(tl, g[i]) := None], i + 1)
    else Pass2(g, marks, tl, i + 1)
  }

  /** The marks the 1A2B game shows for guess g against target t. */
  function Feedback(g: string, t: string): seq<Mark>
    requires |g| <= |t|
  {
    Pass2(g, Pass1(g, t), Pass1Pool(g, t), 0)
  }

  // ---------------------------------------------------------------- what the marks mean

  /** The guess digits at positions where guess and target differ. */
  function Unmatched(g: string, t: string): seq<char>
    requires |g| <= |t|
  {
    if g == [] then [] else (if g[0] == t[0] then [] else [g[0]]) + Unmatched(g[1..], t[1..])
  }

  /** The target digits not matched in place: those at differing positions and
      those past the end of the guess. */
  function Leftover(g: string, t: string): seq<char>
    requires |g| <= |t|
  {
    if g == [] then t else (if g[0] == t[0] then [] else [t[0]]) + Leftover(g[1..], t[1..])
  }

  /** The digits still in a pool list. */
  function Pool(tl: seq<Option<char>>): multiset<char> {
    if tl == [] then multiset{} else (if tl[0].Some? then multiset{tl[0].value} else multiset{}) + Pool(tl[1..])
  }

  /** The digits of g at positions marked ×. */
  function Pending(g: string, marks: seq<Mark>): multiset<char>
    requires |marks| == |g|
  {
    if g == [] then multiset{} else (if marks[0] == Absent then multiset{g[0]} else multiset{}) + Pending(g[1..], marks[1..])
  }

  lemma {:induction false} CountUpdate(marks: seq<Mark>, i: int, x: Mark, m: Mark)
    requires 0 <= i < |marks|
    ensures Count(marks[i := x], m) == Count(marks, m) - (if marks[i] == m then 1 else 0) + (if x == m then 1 else 0)
  {
    if i == 0 {
      assert marks[i := x][1..] == marks[1..];
    } else {
      assert marks[i := x][1..] == marks[1..][i - 1 := x];
      CountUpdate(marks[1..], i - 1, x, m);
    }
  }

  /** The three counts add up to the number of marks. */
  lemma {:induction false} CountTotal(marks: seq<Mark>)
    ensures Count(marks, Exact) + Count(marks, Present) + Count(marks, Absent) == |marks|
  {
    if marks != [] {
      CountTotal(marks[1..]);
    }
  }

  /** A mark that is missing somewhere is counted fewer times than there are marks. */
  lemma {:induction false} CountBelow(marks: seq<Mark>, m: Mark, i: int)
    requires 0 <= i < |marks| && marks[i] != m
    ensures Count(marks, m) < |marks|
  {
    if i > 0 {
      CountBelow(marks[1..], m, i - 1);
    }
  }

  lemma {:induction false} PoolHas(tl: seq<Option<char>>, x: char)
    ensures x in Pool(tl) <==> Some(x) in tl
  {
    if tl != [] {
      PoolHas(tl[1..], x);
      assert tl == [tl[0]] + tl[1..];
    }
  }

  /** Using up one pool entry takes one copy of its digit out of the pool. */
  lemma {:induction false} PoolRemove(tl: seq<Option<char>>, j: int)
    requires 0 <= j < |tl| && tl[j].Some?
    ensures Pool(tl[j := None]) == Pool(tl) - multiset{tl[j].value}
  {
    if j == 0 {
      assert tl[j := None][1..] == tl[1..];
    } else {
      assert tl[j := None][1..] == tl[1..][j - 1 := None];
      PoolRemove(tl[1..], j - 1);
      PoolHas(tl[1..], tl[j].value);
      assert tl[1..][j - 1] == tl[j];
    }
  }

  /** Greedy matching of one guess digit against a pool, as a multiset identity. */
  lemma IntersectStep(c: char, a: multiset<char>, p: multiset<char>)
    ensures c in p ==> |(multiset{c} + a) * p| == 1 + |a * (p - multiset{c})|
    ensures c !in p ==> |(multiset{c} + a) * p| == |a * p|
  {
    if c in p {
      assert (multiset{c} + a) * p == multiset{c} + a * (p - multiset{c}) by {
        forall x ensures ((multiset{c} + a) * p)[x] == (multiset{c} + a * (p - multiset{c}))[x] {
        }
      }
    } else {
      assert (multiset{c} + a) * p == a * p by {
        forall x ensures ((multiset{c} + a) * p)[x] == (a * p)[x] {
        }
      }
    }
  }

  /** The second pass changes only × marks, and only into 乄. */
  lemma {:induction false} Pass2Keeps(g: string, marks: seq<Mark>, tl: seq<Option<char>>, i: nat)
    requires |marks| == |g| && i <= |g|
    ensures |Pass2(g, marks, tl, i)| == |g|
    ensures forall k :: 0 <= k < |g| ==> (Pass2(g, marks, tl, i)[k] == Exact <==> marks[k] == Exact)
    ensures forall k :: 0 <= k < i ==> Pass2(g, marks, tl, i)[k] == marks[k]
    decreases |g| - i
  {
    if i < |g| {
      if marks[i] != Exact && Some(g[i]) in tl {
        Pass2Keeps(g, marks[i := Present], tl[FirstIndex(tl, g[i]) := None], i + 1);
      } else {
        Pass2Keeps(g, marks, tl, i + 1);
      }
    }
  }

  /** The second pass from i on adds as many 乄 marks as the pending × digits
      have in common with the pool. */
  lemma PendingStep(g: string, marks: seq<Mark>, i: nat)
    requires |marks| == |g| && i < |g|
    ensures Pending(g[i..], marks[i..]) ==
      (if marks[i] == Absent then multiset{g[i]} else multiset{}) + Pending(g[i + 1..], marks[i + 1..])
  {
    assert g[i..][1..] == g[i + 1..] && marks[i..][1..] == marks[i + 1..];
  }

  lemma {:induction false} Pass2Count(g: string, marks: seq<Mark>, tl: seq<Option<char>>, i: nat)
    requires |marks| == |g| && i <= |g|
    requires forall k :: i <= k < |g| ==> marks[k] != Present
    ensures Count(Pass2(g, marks, tl, i), Present) == Count(marks, Present) + |Pending(g[i..], marks[i..]) * Pool(tl)|
    decreases |g| - i
  {
    if i < |g| {
      var c := g[i];
      var rest := Pending(g[i + 1..], marks[i + 1..]);
      PendingStep(g, marks, i);
      PoolHas(tl, c);
      if marks[i] != Exact && Some(c) in tl {
        var j := FirstIndex(tl, c);
        var marks' := marks[i := Present];
        Pass2Count(g, marks', tl[j := None], i + 1);
        assert marks'[i + 1..] == marks[i + 1..];
        CountUpdate(marks, i, Present, Present);
        PoolRemove(tl, j);
        IntersectStep(c, rest, Pool(tl));
      } else if marks[i] == Exact {
        assert Pending(g[i..], marks[i..]) == rest;
        assert Pass2(g, marks, tl, i) == Pass2(g, marks, tl, i + 1);
        Pass2Count(g, marks, tl, i + 1);
      } else {
        assert Pass2(g, marks, tl, i) == Pass2(g, marks, tl, i + 1);
        Pass2Count(g, marks, tl, i + 1);
        assert c !in Pool(tl);
        IntersectStep(c, rest, Pool(tl));
        assert |(multiset{c} + rest) * Pool(tl)| == |rest * Pool(tl)|;
      }
    }
  }

  lemma {:induction false} PendingPass1(g: string, t: string)
    requires |g| <= |t|
    ensures Pending(g, Pass1(g, t)) == multiset(Unmatched(g, t))
  {
    if g != [] {
      assert Pass1(g, t)[1..] == Pass1(g[1..], t[1..]);
      PendingPass1(g[1..], t[1..]);
    }
  }

  lemma {:induction false} PoolPass1(g: string, t: string)
    requires |g| <= |t|
    ensures Pool(Pass1Pool(g, t)) == multiset(Leftover(g, t))
  {
    if t != [] {
      assert Pass1Pool(g, t)[1..] == Pass1Pool(if g == [] then g else g[1..], t[1..]);
      if g == [] {
        PoolPass1(g, t[1..]);
        assert t == [t[0]] + t[1..];
      } else {
        PoolPass1(g[1..], t[1..]);
      }
    }
  }

  /** What the 1A2B marks say: √ exactly where guess and target agree, and as many
      乄 as the unmatched guess digits have in common (with multiplicity) with the
      unmatched target digits. */
  lemma FeedbackMeaning(g: string, t: string)
    requires |g| <= |t|
    ensures |Feedback(g, t)| == |g|
    ensures forall i :: 0 <= i < |g| ==> (Feedback(g, t)[i] == Exact <==> g[i] == t[i])
    ensures Count(Feedback(g, t), Present) == |multiset(Unmatched(g, t)) * multiset(Leftover(g, t))|
  {
    Pass2Keeps(g, Pass1(g, t), Pass1Pool(g, t), 0);
    Pass2Count(g, Pass1(g, t), Pass1Pool(g, t), 0);
    assert g[0..] == g && Pass1(g, t)[0..] == Pass1(g, t);
    PendingPass1(g, t);
    PoolPass1(g, t);
    NoPresentInPass1(g, t);
  }

  lemma {:induction false} NoPresentInPass1(g: string, t: string)
    requires |g| <= |t|
    ensures Count(Pass1(g, t), Present) == 0
  {
    if g != [] {
      assert Pass1(g, t)[1..] == Pass1(g[1..], t[1..]);
      NoPresentInPass1(g[1..], t[1..]);
    }
  }

  // ---------------------------------------------------------------- the two passes as loops

  /** target_list.index(x): scan for the first entry holding x. */
  method IndexOf(tl: seq<Option<char>>, x: char) returns (j: nat)
    requires Some(x) in tl
    ensures j == FirstIndex(tl, x)
  {
    ghost var first := FirstIndex(tl, x);
    j := 0;
    while tl[j] != Some(x)
      invariant j <= first
      invariant forall k :: 0 <= k < j ==> tl[k] != Some(x)
      decreases first - j
    {
      j := j + 1;
    }
  }

  /** The first feedback loop of make_guess: mark the digits in place and strike
      them from the target list. */
  method FirstPass(g: string, t: string, n: nat) returns (marks: seq<Mark>, tl: seq<Option<char>>)
    requires |g| == n && |t| >= n
    ensures marks == Pass1(g, t) && tl == Pass1Pool(g, t)
  {
    marks := [];
    tl := seq(|t|, k requires 0 <= k < |t| => Some(t[k]));
    for i := 0 to n
      invariant |marks| == i
      invariant forall k :: 0 <= k < i ==> marks[k] == if g[k] == t[k] then Exact else Absent
      invariant |tl| == |t|
      invariant forall k :: 0 <= k < |t| ==> tl[k] == if k < i && g[k] == t[k] then None else Some(t[k])
    {
      if g[i] == t[i] {
        marks := marks + [Exact];
        tl := tl[i := None];
      } else {
        marks := marks + [Absent];
      }
    }
  }

  /** The second feedback loop of make_guess: a digit not yet marked √ that is
      still in the target list is marked 乄 and its first occurrence struck. */
  method SecondPass(g: string, marks0: seq<Mark>, tl0: seq<Option<char>>, n: nat) returns (marks: seq<Mark>)
    requires |g| == n && |marks0| == n
    ensures marks == Pass2(g, marks0, tl0, 0)
  {
    marks := marks0;
    var tl := tl0;
    for i := 0 to n
      invariant |marks| == n
      invariant Pass2(g, marks, tl, i) == Pass2(g, marks0, tl0, 0)
    {
      if marks[i] != Exact && Some(g[i]) in tl {
        marks := marks[i := Present];
        var j := IndexOf(tl, g[i]);
        tl := tl[j := None];
      }
    }
  }

  /** Both feedback loops of make_guess over an n-digit guess g and a target
      string t of at least n digits. */
  method Score(g: string, t: string, n: nat) returns (marks: seq<Mark>)
    requires |g| == n && |t| >= n
    ensures marks == Feedback(g, t)
    ensures |marks| == n
    ensures forall i :: 0 <= i < n ==> (marks[i] == Exact <==> g[i] == t[i])
    ensures Count(marks, Present) == |multiset(Unmatched(g, t)) * multiset(Leftover(g, t))|
  {
    var marks1, tl := FirstPass(g, t, n);
    marks := SecondPass(g, marks1, tl, n);
    FeedbackMeaning(g, t);
  }

  // ---------------------------------------------------------------- replies

  datatype Reply =
    | NotStarted
    | Correct(tries: int)
    | TooSmall
    | TooLarge
    | NeedDigits(digits: int)
    | NeedRange
    | Hint(marks: seq<Mark>)

  /** The feedback line: the symbols separated by single blanks. */
  function FeedbackLine(marks: seq<Mark>): string {
    Join(Symbols(marks), " ")
  }

  /** The text make_guess returns for each reply. */
  function Message(r: Reply): string {
    match r
    case NotStarted => "请先开始新游戏"
    case Correct(n) => "正确！你用了" + IntToString(n) + "次猜中"
    case TooSmall => "太小了"
    case TooLarge => "太大了"
    case NeedDigits(d) => "请输入一个" + IntToString(d) + "位数"
    case NeedRange => "请输入1-100之间的整数"
    case Hint(marks) =>
      FeedbackLine(marks)
      + "\n√:数字和位置正确(" + IntToString(Count(marks, Exact))
      + ")\n乄:数字正确但位置错误(" + IntToString(Count(marks, Present)) + ")"
  }

  /** The feedback line splits back into one symbol per mark. */
  lemma FeedbackLineSplits(marks: seq<Mark>)
    ensures Split(FeedbackLine(marks)) == Symbols(marks)
  {
    SplitJoin(Symbols(marks));
  }

  /** The reply to a guess that parsed as the integer v, on the tries-th counted
      guess: higher/lower in classic mode; in 1A2B mode both numbers are
      zero-filled to the digit count and compared digit by digit. */
  function Judge(mode: string, digits: int, target: int, tries: int, v: int): Reply {
    if mode == "classic" then
      if v == target then Correct(tries) else if v < target then TooSmall else TooLarge
    else
      var ts, gs := ZFill(IntToString(target), digits), ZFill(IntToString(v), digits);
      if |gs| != digits then NeedDigits(digits)
      else if gs == ts then Correct(tries)
      else Hint(Feedback(gs, ts))
  }

  /** A 1A2B target has exactly `digits` digits. */
  lemma TargetWidth(d: int, n: int)
    requires 1 <= d && Pow10(d - 1) <= n < Pow10(d)
    ensures |IntToString(n)| == d
  {
    NatToStringLength(n, d);
    if d > 1 {
      NatToStringLength(n, d - 1);
    }
  }

  /** In 1A2B mode a non-negative guess is refused for its length exactly when it
      has more than `digits` digits. */
  lemma LengthCheck(mode: string, d: int, target: int, tries: int, v: int)
    requires mode != "classic" && 1 <= d && 0 <= v
    ensures Judge(mode, d, target, tries, v).NeedDigits? <==> v >= Pow10(d)
  {
    NatToStringLength(v, d);
  }

  /** In 1A2B mode, with a target of the right width, the guess wins exactly when
      it equals the target. */
  lemma WinIffEqual(mode: string, d: int, target: int, tries: int, v: int)
    requires mode != "classic" && 1 <= d && Pow10(d - 1) <= target < Pow10(d)
    ensures Judge(mode, d, target, tries, v) == Correct(tries) <==> v == target
  {
    TargetWidth(d, target);
    ZFillValue(target, d);
    ZFillValue(v, d);
  }

  /** A place where two different texts of one length differ. */
  function Mismatch(a: string, b: string): (i: nat)
    requires |a| == |b| && a != b
    ensures i < |a| && a[i] != b[i]
  {
    if a[0] != b[0] then 0
    else
      assert a == [a[0]] + a[1..] && b == [b[0]] + b[1..];
      1 + Mismatch(a[1..], b[1..])
  }

  /** A 1A2B hint has one mark per digit, never all √ when the target has the
      right width, and its √ and 乄 counts never exceed the digit count. */
  lemma HintShape(mode: string, d: int, target: int, tries: int, v: int)
    requires mode != "classic" && 1 <= d && Pow10(d - 1) <= target < Pow10(d)
    requires Judge(mode, d, target, tries, v).Hint?
    ensures var marks := Judge(mode, d, target, tries, v).marks;
      |marks| == d && Count(marks, Exact) < d && Count(marks, Exact) + Count(marks, Present) <= d
  {
    TargetWidth(d, target);
    var ts, gs := ZFill(IntToString(target), d), ZFill(IntToString(v), d);
    assert |gs| == d && |ts| == d && gs != ts;
    var marks := Feedback(gs, ts);
    assert Judge(mode, d, target, tries, v).marks == marks;
    FeedbackMeaning(gs, ts);
    var i := Mismatch(gs, ts);
    CountBelow(marks, Exact, i);
    CountTotal(marks);
  }

  // ---------------------------------------------------------------- the engine

  class GuessNumberLogic {
    var targetNumber: int
    var guesses: int
    var gameStarted: bool
    var digits: int
    var gameMode: string

    ghost predicate Valid()
      reads this
    {
      1 <= digits <= 9 && guesses >= 0
    }

    /** A stopped classic game with four digits preset. */
    constructor ()
      ensures Valid()
      ensures targetNumber == 0 && guesses == 0 && !gameStarted && digits == 4 && gameMode == "classic"
    {
      targetNumber := 0;
      guesses := 0;
      gameStarted := false;
      digits := 4;
      gameMode := "classic";
    }

    /** set_digits: counts outside 1..9 are ignored. */
    method SetDigits(d: int)
      requires Valid()
      modifies this`digits
      ensures Valid()
      ensures digits == if 1 <= d <= 9 then d else old(digits)
    {
      if 1 <= d <= 9 {
        digits := d;
      }
    }

    /** set_game_mode. */
    method SetGameMode(mode: string)
      modifies this`gameMode
      ensures gameMode == mode
    {
      gameMode := mode;
    }

    /** start_new_game: draw a target (1..100 in classic mode, a number of exactly
        `digits` digits otherwise), reset the count and start. */
    method StartNewGame() returns (target: int)
      requires Valid()
      modifies this`targetNumber, this`guesses, this`gameStarted
      ensures Valid() && target == targetNumber && guesses == 0 && gameStarted
      ensures gameMode == "classic" ==> 1 <= target <= 100
      ensures gameMode != "classic" ==> Pow10(digits - 1) <= target <= Pow10(digits) - 1
      ensures gameMode != "classic" ==> |IntToString(target)| == digits
    {
      if gameMode == "classic" {
        target :| 1 <= target <= 100;
      } else {
        var lo := Pow10(digits - 1);
        assert Pow10(digits) == 10 * lo;
        target :| lo <= target <= Pow10(digits) - 1;
        TargetWidth(digits, target);
      }
      targetNumber := target;
      guesses := 0;
      gameStarted := true;
    }

    /** make_guess: refuse before a game starts; a guess int() cannot read is
        refused without being counted; any other guess is counted and judged. */
    method MakeGuess(guess: string) returns (msg: string)
      requires Valid()
      modifies this`guesses
      ensures Valid()
      ensures !gameStarted ==> guesses == old(guesses) && msg == Message(NotStarted)
      ensures gameStarted && ParseInt(Strip(guess)).None? ==>
        guesses == old(guesses) && msg == Message(if gameMode == "classic" then NeedRange else NeedDigits(digits))
      ensures gameStarted && ParseInt(Strip(guess)).Some? ==>
        guesses == old(guesses) + 1 &&
        msg == Message(Judge(gameMode, digits, targetNumber, guesses, ParseInt(Strip(guess)).value))
    {
      if !gameStarted {
        return Message(NotStarted);
      }
      var parsed := ParseInt(Strip(guess));
      if parsed.None? {
        if gameMode == "classic" {
          return Message(NeedRange);
        }
        return Message(NeedDigits(digits));
      }
      var v := parsed.value;
      guesses := guesses + 1;
      if gameMode == "classic" {
        if v == targetNumber {
          return Message(Correct(guesses));
        } else if v < targetNumber {
          return Message(TooSmall);
        }
        return Message(TooLarge);
      }
      var targetStr := ZFill(IntToString(targetNumber), digits);
      var guessStr := ZFill(IntToString(v), digits);
      if |guessStr| != digits {
        return Message(NeedDigits(digits));
      }
      if guessStr == targetStr {
        return Message(Correct(guesses));
      }
      var marks := Score(guessStr, targetStr, digits);
      msg := Message(Hint(marks));
    }
  }
}
