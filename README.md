# Mini-game engines of snow-toolbox, modelled and verified in Dafny

This project models the logic classes of three games in the toolbox's
`Mini-games` folder and proves what they promise.

- **Sudoku** (`Sudoku.dfy`). `SudokuLogic` is a class over two `array2<int>`
  boards, with 0 standing for an empty cell. A ghost grid mirrors each array.
  The model covers:
  - the backtracking solver `_solve_partial`;
  - the unit check `_is_valid`;
  - `_fill_box` and `_generate_solution`;
  - the blanking loop of `generate_board`;
  - `check_solution` and `set_difficulty`;
  - the keystroke check `SudokuUI._validate_input`.
- **Guess the number** (`GuessNumber.dfy`). `GuessNumberLogic` is a class
  whose fields the methods update. It covers the classic higher/lower game and
  the 1A2B game. In 1A2B each digit of a guess is marked √ (right place),
  乄 (elsewhere in the target) or × (absent). The two marking loops are
  methods proved against a functional specification. A lemma says what the
  marks mean in terms of multisets.
- **24 points**:
  - `Arith24.dfy` holds expressions over integers with their exact value.
    It also holds the tree Python's precedence gives an unbracketed
    expression, and the five bracket patterns.
  - `Game24.dfy` holds `Game24Logic`, the exhaustive solver, the
    per-combination classifier, and the reader for the plain-text list of
    solvable combinations.
- **Shared helpers**:
  - `Text.dfy` models the parts of Python's `str`/`int` that the engines
    rely on: `strip`, `split`, `splitlines`, `int()`, `str()`, `zfill` and
    `join`.
  - `Optional.dfy` holds the `Option` type.

Random choices become nondeterministic choices (`:|`). Each contract holds
for every value the random call could have produced.

## Model

| member | source | states |
|---|---|---|
| Sudoku.SudokuLogic.constructor | Mini-games/sudoku_game.py:8-11 | both boards start with all 81 cells empty; the difficulty starts as "medium" |
| Sudoku.SudokuLogic.SetDifficulty | Mini-games/sudoku_game.py:103-105 | the difficulty becomes the given text; nothing else changes |
| Sudoku.SudokuLogic.IsValid | Mini-games/sudoku_game.py:76-93 | the row, column and box scans succeed exactly when the digit occurs in no cell sharing a unit with (row, col) |
| Sudoku.PlaceableByUnits | Mini-games/sudoku_game.py:76-93 | "absent from every same-unit cell" is the same as "absent from the row, the column and the 3x3 box" |
| Sudoku.SudokuLogic.SolvePartial | Mini-games/sudoku_game.py:57-74 | on success: every empty cell from (row, col) on now holds a digit 1..9, and the earlier and filled cells are unchanged. Every digit written occurs in no other cell of its row, column or box, whatever the starting board (a user's board may already clash), and a consistent board stays consistent. On failure: the board is restored and no consistent filling of those cells exists. |
| Sudoku.SudokuLogic.TryDigit | Mini-games/sudoku_game.py:67-72 | one digit of the loop. Success is as for the solver, the written digits included. On failure the cell is written back to 0, and no completion of the board puts that digit in the cell. |
| Sudoku.PlacedThroughCell | Mini-games/sudoku_game.py:68-71 | a digit that passed the unit check when written still clashes with no cell after the later empty cells are filled by digits that passed it too |
| Sudoku.SolvedThroughCell | Mini-games/sudoku_game.py:68-71 | a digit written at an empty cell, followed by a solved rest of the board, gives a board that keeps every filled cell, whose written digits all pass the unit check, and that stays consistent when the start was |
| Sudoku.SkipFilledPlaced | Mini-games/sudoku_game.py:64-65 | skipping a filled cell writes no digit there, so the written digits from the next cell on are all there is to check |
| Sudoku.PlaceKeepsConsistent | Mini-games/sudoku_game.py:68-69 | writing a digit that passes the unit check keeps the board free of repeats in every row, column and box |
| Sudoku.SetUndo | Mini-games/sudoku_game.py:69-72 | writing a digit and then writing 0 back restores the board exactly |
| Sudoku.CompletionThroughCell | Mini-games/sudoku_game.py:68-71 | a completion with num in the current cell is a completion of the board with num written there, from the next cell on |
| Sudoku.FailureExcludes | Mini-games/sudoku_game.py:70-72 | if the rest cannot be filled after writing num, no completion has num in the cell |
| Sudoku.AllExcluded | Mini-games/sudoku_game.py:67-74 | when all nine digits of the shuffled order are excluded, the board has no completion (so returning False is right) |
| Sudoku.SkipFilledUnsolvable | Mini-games/sudoku_game.py:64-65 | skipping a filled cell: if the rest is unsolvable, so is the board from this cell |
| Sudoku.SudokuLogic.FillBox | Mini-games/sudoku_game.py:48-55 | the 3x3 block at (row, col) holds each digit 1..9 exactly once; every cell outside it is unchanged |
| Sudoku.SudokuLogic.FillBoxRow | Mini-games/sudoku_game.py:54-55 | one row of the block loop: with the first 3i cells of the block already filled, three more values popped from the end of the shuffled list land in row i of the block, and nothing else changes |
| Sudoku.PoppedAll | Mini-games/sudoku_game.py:50-55 | popping a shuffled 1..9 into the nine cells fills the block with a permutation of 1..9 |
| Sudoku.DiagonalStartConsistent | Mini-games/sudoku_game.py:41-43 | three diagonal boxes, each filled with a permutation and all else empty, form a board with no repeats |
| Sudoku.SudokuLogic.GenerateSolution | Mini-games/sudoku_game.py:36-46 | the board is consistent. It is either fully solved, or (when the solver fails) it is still the diagonal start and provably has no completion. |
| Sudoku.CompletedFromStart | Mini-games/sudoku_game.py:46 | a consistent board that extends the diagonal start everywhere is a solved sudoku |
| Sudoku.SudokuLogic.GenerateBoard | Mini-games/sudoku_game.py:13-34 | the difficulty is left as the caller set it. The solution is the generated board; every board cell equals the solution or is 0. The number of blanked cells is that difficulty's 30/45/55, capped by the filled cells available; for a solved solution it is exactly 30/45/55. |
| Sudoku.BlankOneCell | Mini-games/sudoku_game.py:30-32 | blanking a filled cell adds exactly one empty cell |
| Sudoku.EmptyBoardCount | Mini-games/sudoku_game.py:9-10 | a board has 81 empty cells exactly when every cell is 0 |
| Sudoku.SolvedHasNoZeros | Mini-games/sudoku_game.py:16-17 | a solved board has no empty cell |
| Sudoku.SudokuLogic.CheckSolution | Mini-games/sudoku_game.py:95-101 | returns True exactly when the user's board equals the stored solution, cell by cell |
| Sudoku.ValidateInput | Mini-games/sudoku_game.py:215-217 | the keystroke check: the empty text, or an all-digit text whose value is 1..9 (ASCII digits only) |
| Sudoku.ValidateInputAccepts | Mini-games/sudoku_game.py:215-217 | over ASCII texts, the accepted keystrokes are exactly the empty text and any run of '0's followed by one digit 1..9 |
| GuessNumber.GuessNumberLogic.constructor | Mini-games/guess_number_game.py:9-14 | a stopped classic game with target 0, no guesses and four digits |
| GuessNumber.GuessNumberLogic.SetDigits | Mini-games/guess_number_game.py:16-19 | the digit count becomes d when 1 <= d <= 9; otherwise it is left as it was |
| GuessNumber.GuessNumberLogic.SetGameMode | Mini-games/guess_number_game.py:21-23 | the mode becomes the given text |
| GuessNumber.GuessNumberLogic.StartNewGame | Mini-games/guess_number_game.py:25-36 | the game is started with a count of 0. The target is in 1..100 in classic mode; otherwise it is in 10^(d-1)..10^d-1, so its numeral has exactly d digits. |
| GuessNumber.TargetWidth | Mini-games/guess_number_game.py:30-32 | a number in 10^(d-1)..10^d-1 has a numeral of exactly d digits |
| GuessNumber.Judge | Mini-games/guess_number_game.py:47-90 | the reply to a parsed guess: higher/lower or correct in classic mode; in 1A2B mode a too-long zero-filled guess is refused, an equal one wins, and any other gets the feedback marks. Its meaning is proved by LengthCheck, WinIffEqual and HintShape. |
| GuessNumber.Message | Mini-games/guess_number_game.py:41-96 | the text returned for each reply, with the tries, the digit count and the √/乄 counts written in |
| GuessNumber.GuessNumberLogic.MakeGuess | Mini-games/guess_number_game.py:38-96 | before a start, the guess is refused and not counted. A guess int() rejects gets the mode's error text and is not counted. Any other guess is counted and answered with the judged reply's text. |
| GuessNumber.LengthCheck | Mini-games/guess_number_game.py:55-59 | in 1A2B mode a non-negative guess is refused for its length exactly when it is at least 10^digits |
| GuessNumber.WinIffEqual | Mini-games/guess_number_game.py:55-62 | in 1A2B mode, with a target of the right width, the reply is "correct" exactly when the guess equals the target |
| GuessNumber.HintShape | Mini-games/guess_number_game.py:64-90 | a hint has one mark per digit and fewer √ than digits. Its √ and 乄 counts add up to at most the digit count. |
| GuessNumber.Score | Mini-games/guess_number_game.py:64-88 | the two loops compute the specified feedback. There is one mark per digit, √ exactly where the digits agree, and as many 乄 as the multiset intersection of unmatched guess digits and unmatched target digits. |
| GuessNumber.FirstPass | Mini-games/guess_number_game.py:69-75 | the first loop marks √ where the digits agree and × elsewhere, and strikes exactly the matched positions from the target list |
| GuessNumber.SecondPass | Mini-games/guess_number_game.py:77-81 | the second loop computes the specified second pass |
| GuessNumber.IndexOf | Mini-games/guess_number_game.py:81 | list.index returns the first position holding the digit |
| GuessNumber.FirstIndex | Mini-games/guess_number_game.py:81 | the position holds the digit and no earlier position does |
| GuessNumber.Pass1 | Mini-games/guess_number_game.py:69-75 | one mark per guess digit: √ exactly where the digits agree, × elsewhere |
| GuessNumber.Pass2 | Mini-games/guess_number_game.py:77-81 | the second pass as a function of the marks and the target list; its effect is given by Pass2Keeps and Pass2Count |
| GuessNumber.Feedback | Mini-games/guess_number_game.py:64-81 | the marks of both passes; their meaning is FeedbackMeaning |
| GuessNumber.FeedbackMeaning | Mini-games/guess_number_game.py:64-88 | one mark per digit; √ exactly where guess and target agree; the 乄 count is the size of the multiset intersection of unmatched guess digits and unmatched target digits |
| GuessNumber.Pass2Count | Mini-games/guess_number_game.py:77-81 | the second pass adds as many 乄 as the × digits share with the pool of unstruck target digits |
| GuessNumber.Pass2Keeps | Mini-games/guess_number_game.py:77-81 | the second pass never adds or removes a √ and never changes a mark it has passed |
| GuessNumber.PoolRemove | Mini-games/guess_number_game.py:81 | striking one entry of the target list removes one copy of its digit from the pool |
| GuessNumber.NoPresentInPass1 | Mini-games/guess_number_game.py:69-75 | the first pass writes no 乄 |
| GuessNumber.FeedbackLineSplits | Mini-games/guess_number_game.py:84 | the feedback line splits back into one symbol per mark, in order |
| Text.ParseInt | Mini-games/guess_number_game.py:44 | int() on a token: an optional sign and one or more ASCII digits give their value, anything else gives None (ValueError); a value comes only from a non-empty token |
| Text.IntToString | Mini-games/guess_number_game.py:55-56 | str(n): a minus sign for negative n, then the digits without leading zeros; ParseIntToString is its inverse |
| Text.ZFill | Mini-games/guess_number_game.py:55-56 | str.zfill: the length is the larger of the text's length and the width; ZFillValue gives its value |
| Text.ParseIntToString | Mini-games/guess_number_game.py:44 | int(str(n)) == n for every integer |
| Text.ZFillValue | Mini-games/guess_number_game.py:55-56 | zero-padding a numeral keeps its value: int(str(n).zfill(w)) == n, negative numbers included |
| Text.NatToStringLength | Mini-games/guess_number_game.py:58 | the numeral of n has at most k digits exactly when n < 10^k |
| Text.Strip | Mini-games/24dian_game.py:47 | the result is empty exactly when the text is blank; otherwise it starts and ends with a non-space |
| Text.StripIsTrim | Mini-games/24dian_game.py:47 | the stripped text is the input with a run of leading and a run of trailing whitespace cut off |
| Text.Split | Mini-games/24dian_game.py:50 | str.split(): every token is non-empty and free of whitespace; SplitJoin is its inverse |
| Text.SplitJoin | Mini-games/24dian_game.py:50 | splitting words joined by single blanks gives the words back |
| Text.SplitLines | Mini-games/24dian_game.py:46 | str.splitlines(): no line holds a line break; SplitLinesJoin is its inverse |
| Text.SplitLinesJoin | Mini-games/24dian_game.py:46 | lines without line breaks, joined with "\n", split back into the same lines |
| Arith24.Eval | Mini-games/24dian_game.py:95 | eval of an expression in exact arithmetic, None where Python raises ZeroDivisionError; EvalFailsIffDividesByZero gives when that is |
| Arith24.Apply | Mini-games/24dian_game.py:95 | an operator fails only for division by zero; a quotient times the divisor gives back the dividend |
| Arith24.EvalFailsIffDividesByZero | Mini-games/24dian_game.py:114-120 | an expression has no value exactly when some division in it has a zero divisor (Python's ZeroDivisionError) |
| Arith24.FlatExpr | Mini-games/24dian_game.py:94-95 | the tree Python builds for the unbracketed text: the last + or - is the root; FlatShape and FlatUnique state its meaning |
| Arith24.FlatShape | Mini-games/24dian_game.py:94-95 | the tree read from the unbracketed text has Python's precedence shape and keeps the numbers and operators in order |
| Arith24.FlatUnique | Mini-games/24dian_game.py:94-95 | every tree of that shape is the one read from its own numbers and operators, so the reading is unambiguous |
| Arith24.Bracketed | Mini-games/24dian_game.py:106-112 | the five bracket patterns over n1..n4, in the order they are tried |
| Arith24.BracketedKeepsOrder | Mini-games/24dian_game.py:106-112 | each of the five patterns uses n1..n4 and op1..op3 in the given order |
| Arith24.EveryBracketing | Mini-games/24dian_game.py:106-112 | every expression over four numbers is one of the five patterns over its numbers and operators |
| Game24.PermsComplete | Mini-games/24dian_game.py:82 | the ordering table holds exactly the 24 orderings of positions 0..3 |
| Game24.ArrangeMultiset | Mini-games/24dian_game.py:84-85 | an ordering rearranges the numbers without adding or losing any |
| Game24.Candidate | Mini-games/24dian_game.py:84-112 | the expression tried for an ordering, an operator triple and a pattern: the unbracketed text in the flat mode, a bracket pattern otherwise |
| Game24.Show | Mini-games/24dian_game.py:106-112 | the text of a bracket pattern: every operand that is itself an operation is bracketed, the outermost operation is not |
| Game24.FlatText | Mini-games/24dian_game.py:94 | the unbracketed text n1 op1 n2 op2 n3 op3 n4 |
| Game24.BracketedSearchComplete | Mini-games/24dian_game.py:104-120 | with brackets, the search space reaches 24 exactly when some expression using each of the four numbers once is worth 24 |
| Game24.FlatSearchComplete | Mini-games/24dian_game.py:91-102 | without brackets, the search space reaches 24 exactly when some precedence-shaped expression using each number once is worth 24 |
| Game24.Game24Logic.constructor | Mini-games/24dian_game.py:13-19 | no numbers, an empty solution and the bracketed mode; the list of solvable combinations is the one loaded |
| Game24.Game24Logic.GenerateNumbers | Mini-games/24dian_game.py:65-71 | when a solvable deal is asked for and the list is not empty, the numbers are one of its combinations; otherwise they are four numbers in 1..13 |
| Game24.Game24Logic.CalculateSolution | Mini-games/24dian_game.py:73-123 | "请先生成数字" without numbers. Otherwise it returns "无解" exactly when no point of the search reaches 24. Any other answer is the text of a point worth 24 followed by " = 24", and it is stored as the solution. |
| Game24.SolvableRearranged | Mini-games/24dian_game.py:129-133 | if some rearrangement of a combination has a solution, so does the combination |
| Game24.SolvedInSomeOrder | Mini-games/24dian_game.py:129-133 | trying all 24 orderings finds a solution exactly when the combination has one |
| Game24.Game24Logic.SolveOn | Mini-games/24dian_game.py:130-133 | a fresh engine reports a solution exactly when the numbers are solvable in that mode |
| Game24.Game24Logic.ProcessCombination | Mini-games/24dian_game.py:125-135 | the result is the sorted combination when it is solvable, and empty otherwise |
| Game24.Sorted | Mini-games/24dian_game.py:134 | sorted() gives an ascending arrangement of the same numbers |
| Game24.SortedUnique | Mini-games/24dian_game.py:134 | there is only one ascending arrangement of given numbers |
| Game24.SortedArrange | Mini-games/24dian_game.py:129-134 | every ordering of a combination sorts to the same tuple |
| Game24.ParseAll | Mini-games/24dian_game.py:50 | when every token is an integer, the tokens' values in order; otherwise None, and some token is not an integer |
| Game24.LineEntry | Mini-games/24dian_game.py:47-54 | what one line contributes: its four integers when the stripped line is four integer tokens, nothing otherwise |
| Game24.OldFormat | Mini-games/24dian_game.py:44-56 | the combinations read from the lines in order: at most one per line, each of four numbers |
| Game24.Game24Logic.ParseOldFormat | Mini-games/24dian_game.py:44-56 | the loop collects what the line-by-line reading of the old format specifies |
| Game24.OldFormatRoundTrip | Mini-games/24dian_game.py:44-56 | combinations written one per line, numbers separated by blanks, are read back unchanged and in order |
| Game24.LineEntryOfLine | Mini-games/24dian_game.py:47-52 | a line written from four integers is read back as those four integers |
| Game24.HeaderLineSkipped | Mini-games/24dian_game.py:47-54 | a line starting with '#' contributes no combination |
| Game24.HashTokenRejected | Mini-games/24dian_game.py:47-54 | a line whose first word starts with '#' does not read as integers |
| Game24.Game24Logic.LoadCombinations | Mini-games/24dian_game.py:32-56 | the stripped text, trimmed at the header as the code does, gives None when it is bracketed (the literal parser is not modelled); otherwise it gives the old-format reading |
| Game24.Find | Mini-games/24dian_game.py:35 | str.find: the first position of the character, or -1 exactly when it is absent |
| Game24.CutHeaderAsWritten | Mini-games/24dian_game.py:33-35 | the header trim as written: with a '#', cut at the first '[' or, when there is none, keep only the last character |
| Game24.CutHeaderAsWrittenLosesList | Mini-games/24dian_game.py:33-35 | as written, a text with a '#' and no '[' is cut to a single character, and no combination is left |
| Game24.CutHeader | Mini-games/24dian_game.py:33-35 | the intended trim: text without '[' is kept whole; otherwise a suffix starting at '[' is kept |
| Game24.CutHeaderKeepsList | Mini-games/24dian_game.py:33-35 | with the intended trim, an old-format list under a '#' header line is read back complete |

## Left out

- The Tk user interfaces are not modelled: windows, buttons, message boxes, timers and help text. `SudokuUI._validate_input` is the one exception.
- The randomness of `random.randint`, `random.shuffle`, `random.sample` and `random.choice` is replaced by nondeterministic choice. Each contract holds for every possible draw; their distributions are not modelled.
- Sudoku.SudokuLogic.GenerateBoard draws only among filled cells, because a draw of an empty cell changes nothing. It also stops when no filled cell is left, where the Python loop would spin forever. That can only happen when the solver has failed.
- File reading in `load_solvable_combinations` is not modelled: the choice of file by mode, the existence check, the encoding, and the printed progress messages. The constructor takes the loaded list as a parameter. `LoadCombinations` takes the file's text.
- Game24.Game24Logic.LoadCombinations returns None for a bracketed list instead of running `ast.literal_eval` on it: Python's literal parser is not part of this model.
- `generate_all_solvable`, `save_results` and the process pool around `process_combination` are not modelled. They are batch drivers over the modelled operations, with file output.
- The floating-point arithmetic of `eval` and the `isclose(…, abs_tol=1e-6)` test are modelled as exact rational arithmetic compared with 24 exactly. A float rounding that lands within 1e-6 of 24 without being exactly 24 is not captured.
- Game24.Game24Logic.CalculateSolution requires zero numbers or at least four. With one to three numbers the Python code raises IndexError; that error is not modelled.
- The order in which `set(permutations(range(4), 4))` is iterated is not specified in Python. The model uses the lexicographic table. The contracts therefore say "some point worth 24", not which expression is reported first.
- Text.ParseInt accepts only ASCII digits with an optional sign. Python's `int()` also accepts underscores between digits and non-ASCII decimal digits.
- Sudoku.ValidateInput and Sudoku.ValidateInputAccepts know only ASCII digits. Python's `isdigit()` and `int()` also accept full-width digits such as '５', and `isdigit()` accepts '²', on which `int()` raises ValueError.
- GuessNumber.GuessNumberLogic.MakeGuess takes the guess as text, as the entry field supplies it. An int passed directly to `make_guess` is not modelled.

## Findings

| source | as written | input that shows it | evidently intended | confidence | as-written member | corrected member |
|---|---|---|---|---|---|---|
| Mini-games/24dian_game.py:33-35 | when the text contains '#', it is cut at `content.find('[')`. With no '[' that is -1, so only the last character is kept. | a file in the old format with a header comment, e.g. "#\n1 2 3 4" | cut at '[' only when there is one; otherwise keep the text and let the line reader skip the header | not executed | Game24.CutHeaderAsWrittenLosesList | Game24.CutHeaderKeepsList |
