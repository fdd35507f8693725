# Kernel-tree tools: a verified model

This project models the shell that is bundled with the kernel tree (`bin/bash`) and the
dependency scanner (`scripts/fixdep.c`), and proves what their central algorithms promise.
The shell is the build this tree configures: a 32-bit `intmax_t` and single-byte
characters.

| part | files | what is proved |
|---|---|---|
| Arithmetic | `IntMax`, `ArithSpec`, `ArithEvaluator`, `ArithMeaning`, `ArithReading`, `ArithCorrect`, `ArithNesting`, `ArithPrecedence`, `ArithOperators`, `ArithConstants` | The evaluator, on characters, agrees with the meaning of expression trees |
| Commands | `CommandMeaning`, `CommandExecutor`, `CommandContexts`, `CommandJumps`, `CommandRuns`, `CommandPolls`, `CommandLaws`, `CommandCopy` | Flags in the tree and global counters give the contextual rule for `set -e` and structured `break` and `continue` |
| Braces | `Braces`, `BraceCorrect`, `BraceLaws`, `BraceCompress`, `BraceSequence` | Expansion is a product; completion and expansion undo each other |
| Arrays | `ArrayContents`, `SparseArrays` | A ring with a roving pointer is a map |
| Dependencies | `FixdepScan`, `Fixdep` | A four-byte stride with a hash table is a byte search with a set |

In each part the code that updates state is a class or a loop (`ArithEvaluator`,
`CommandExecutor`, `CommandCopy`, `Braces`, `BraceCompress`, `BraceSequence`,
`SparseArrays`, `Fixdep`), proved to do what a function on values says; the theorems are
about that function, against a reference defined apart from it.

`Options`, `CText` and `Folding` are shared.  Five facts that many proofs pass on without
looking into them are kept folded, by one mechanism (`Folding`); a lemma beside each opens it.

## What the proofs found

- A negative exponent is an error even where the operand is discarded: `0 && 1 ** -1` fails
  (expr.c:971-972). Where the language promises a value, the evaluator gives it if and only if
  every operand discarded on the way is free of such exponents, all variables reading as 0.
- An arithmetic `for` whose initialisation fails keeps its loop level
  (execute_cmd.c:3071-3076). A later `break 2` in a lone loop then stays pending, and may even
  leave a function and break a loop of its caller. The level comes back to zero if and only if
  no initialisation failed. A jump is left pending if and only if some break or continue names
  more loops than there are around it inside the command; outside all loops that takes a kept
  level.
- `{0..-2147483648}` passes the overflow checks of `mkseq`, because the subtraction check does
  nothing when `start` is 0; the terms are right, but the count made from the wrapped distance
  is negative. With any increment but INTMAX_MIN it is counted wrong, and nothing else is.
- Brace completion gives the names back if and only if in every run of names that share a prefix
  all share what the first and the last do: always when they are sorted by character codes, but
  not always in the order of a locale (`abX`, `aBx`, `abY`).
- `array_slice` of nothing records 0, not -1, as its largest index.
- `fixdep` does not see an option in the first byte of a file, nor `CONFIG_MODULE`, nor a name
  that the file ends in. The line of a first-byte option is missing if and only if no other place
  names an option that is the same in lower case.
- `fixdep` prints one line for each spelling of a name, though lines are in lower case: it
  repeats a line if and only if two names found differ only in case.
- The comment on `array_insert`'s last return calls it a problem; it is never reached.

## Model

| member | source | states |
|---|---|---|
| `ArithCorrect.EvaluatorAgrees` | bin/bash/expr.c:487-1110 | For every expression tree with any parentheses in it, every text that writes it (any blanks before, between and behind the tokens, or none where two do not run together) and every map of integer-valued variables: evaluating the text, character by character, gives exactly the value, final variables or error (and variables at the error) of the tree evaluated left to right |
| `ArithCorrect.EvaluatorAgreesSkipping` | bin/bash/expr.c:598-722 | The same against the meaning in which a discarded operand of &&, &#124;&#124; or ?: is not evaluated at all, for every expression in which no operand that can be discarded has an exponent below 0 when variables read as 0 |
| `ArithCorrect.EvaluatorKeeps` | bin/bash/expr.c:541-722 | Where that meaning gives a value, evaluating a text of the expression gives this value and these variables if and only if every operand discarded on the way is silent; the condition follows the run, arms of ?: included |
| `ArithPrecedence.Precedence` | bin/bash/expr.c:667-976 | For any two infix operators op and op2 and any values: x op y op2 z gives y to the tighter of the two in the table of the manual, of equals to the first, but for ** to the second |
| `ArithPrecedence.SignFirst` | bin/bash/expr.c:977-1011 | A sign takes the variable behind it before any infix operator does |
| `ArithPrecedence.ConditionAfter` | bin/bash/expr.c:620-665 | In x op y ? z : w every operator but the comma takes its operands before the condition is asked |
| `ArithPrecedence.ConditionBefore` | bin/bash/expr.c:620-665 | and in x ? y : z op w within its last arm |
| `ArithPrecedence.AssignmentLast` | bin/bash/expr.c:502-617 | x = y op z and x op2= y op z assign all that is behind the sign but for a comma |
| `ArithPrecedence.AssignedCondition` | bin/bash/expr.c:502-617 | x = y ? z : w assigns what the condition gives |
| `ArithOperators.Sums` | bin/bash/expr.c:862-939 | For all values of x and y: x+y, x-y and x*y are a + b, a - b and a * b, wrapped to 32 bits |
| `ArithOperators.Orders` | bin/bash/expr.c:803-831 | x<y, x>y, x<=y and x>=y are 1 if the integers are so ordered, else 0 |
| `ArithOperators.Equalities` | bin/bash/expr.c:781-801 | x==y and x!=y likewise |
| `ArithOperators.Logic` | bin/bash/expr.c:667-722 | x&&y and x&#124;&#124;y as truth values, and x,y |
| `ArithOperators.Division` | bin/bash/expr.c:880-939 | x/y and x%y recompose a, the remainder being smaller than b and of the sign of a; by 0 they are errors, and INTMAX_MIN by -1 gives INTMAX_MIN and 0 |
| `ArithOperators.Powers` | bin/bash/expr.c:958-976 | x**y is the mathematical power wrapped, an error for a negative exponent |
| `ArithOperators.Shifts` | bin/bash/expr.c:833-856 | x<<y is a product with a power of two, wrapped; x>>y a quotient by one, rounded down |
| `ArithOperators.Bits` | bin/bash/expr.c:725-780 | x&y, x&#124;y and x^y have each of their 32 bits from the bits of a and b |
| `ArithOperators.Signs` | bin/bash/expr.c:977-1011 | !x, ~x, -x and +x |
| `ArithOperators.Assignments` | bin/bash/expr.c:502-617 | x=y leaves b in x and is b; x op= y leaves and is what x op y is |
| `ArithOperators.Increments` | bin/bash/expr.c:1022-1110 | x++ and x-- are the old value, ++x and --x the new one, which x then holds |
| `ArithOperators.Choice` | bin/bash/expr.c:620-665 | x ? y : z is y unless x is 0 |
| `ArithOperators.SumOfProduct` | bin/bash/expr.c:862-905 | x+y*z is a + b * c, wrapped |
| `ArithOperators.DifferenceTwice` | bin/bash/expr.c:862-905 | x-y-z is a - b - c, wrapped |
| `ArithOperators.AddedAndTaken` | bin/bash/expr.c:862-905 | x+y-z is a again when z holds what y does, whatever overflows |
| `ArithConstants.BaseConstant` | bin/bash/expr.c:1532-1607 | base#digits, for every base from 2 to 64 and any digits in it, is the number they stand for, wrapped |
| `ArithConstants.PrefixedConstant` | bin/bash/expr.c:1542-1562 | 0 and octal digits, 0x or 0X and hexadecimal ones |
| `ArithConstants.DigitTooGreat` | bin/bash/expr.c:1584-1600 | A digit that is not below its base is an error |
| `ArithConstants.OneCharacter` | bin/bash/expr.c:1302-1502 | Every character on its own: blank, digit, the name of an unset variable, or an error |
| `ArithConstants.AnyName` | bin/bash/expr.c:1328-1400 | Every word of letters, digits and underscores that does not begin with a digit is a variable |
| `ArithConstants.BlanksBefore` | bin/bash/expr.c:1311-1316 | Spaces, tabs and newlines in front of a text change nothing |
| `ArithCorrect.RenderWrites` | bin/bash/expr.c:1302-1502 | Every expression has a text: one blank before each token writes it |
| `ArithCorrect.TightRenderWrites` | bin/bash/expr.c:1302-1502 | So does the text with a blank only where two tokens would run together |
| `ArithCorrect.Parses` | bin/bash/expr.c:487-1110 | The induction behind it: a sub-expression printed where level k expects it is read by level k to its value, with the token behind it current and suppression, text and context as before |
| `ArithCorrect.InfixGives` | bin/bash/expr.c:667-976 | An infix operator of any level, its operands having come to their outcomes: the level goes on with the combined value, with left association as the loops give it and right association for ** |
| `ArithCorrect.ArmsCase` | bin/bash/expr.c:620-665 | The two arms of ?: , each suppressed when it is not chosen, give the chosen value and the effects of the chosen arm only |
| `ArithCorrect.AssignDone` | bin/bash/expr.c:502-617 | An assignment, plain or with an operator, binds the variable named before it once, unless suppressed, and comes to the value stored |
| `ArithCorrect.PostCase` | bin/bash/expr.c:1061-1110 | name++ and name--, found by reading one token ahead, come to the old value and leave the new one |
| `ArithCorrect.PreCase` | bin/bash/expr.c:1022-1050 | ++name and --name come to the new value |
| `ArithMeaning.QuietMeansSkipped` | bin/bash/expr.c:541-617 | Evaluating with suppression and not evaluating are the same, whatever the variables hold, when every operand that can be discarded is silent |
| `ArithMeaning.KeptOrFault` | bin/bash/expr.c:541-722 | For every expression and environment: if every operand discarded on the way is silent the two meanings agree, errors included; otherwise evaluation reports a negative exponent |
| `ArithMeaning.KeptExactly` | bin/bash/expr.c:541-722 | So a promised value is given if and only if every operand discarded on the way is silent |
| `ArithMeaning.QuietEval` | bin/bash/expr.c:903-916 | Under suppression an expression binds nothing and ignores the variables; it fails, on a negative exponent, if and only if some ** in it has a right operand whose value with all variables 0 is below 0 |
| `ArithMeaning.DiscardedOperand` | bin/bash/expr.c:667-722 | The discarded right operand of one && or &#124;&#124; does nothing if and only if it is silent |
| `ArithMeaning.DiscardedArm` | bin/bash/expr.c:620-665 | The arm of ?: that is not chosen does nothing if and only if it is silent |
| `ArithMeaning.DiscardedExponentFails` | bin/bash/expr.c:971-972 | 0 && 1 ** -1 is an error although its right operand is discarded |
| `ArithNesting.CircularReference` | bin/bash/expr.c:257-275 | For every set of variables whose values are names in the set: evaluating one of them ends, from any depth, in the recursion error after 1024 contexts |
| `ArithNesting.SelfReference` | bin/bash/expr.c:257-275 | In particular for a variable that names itself |
| `ArithNesting.NestingExactly` | bin/bash/expr.c:257-275 | A chain of variables, each holding the name of the next, comes to its last value if and only if the contexts stay below 1024, and else to the recursion error |
| `ArithReading.DigitsReadBack` | bin/bash/expr.c:1532-1607 | A decimal number written out reads back as its low 32 bits |
| `ArithReading.OperatorReadBack` | bin/bash/expr.c:1417-1502 | The text of every operator token, with what may stand behind it, is read as that token |
| `ArithReading.IntegerText` | bin/bash/expr.c:1138-1238 | A variable whose text is an integer evaluates to that integer |
| `ArithReading.Descend` | bin/bash/expr.c:487-1110 | An operand read at one level is what the next looser level reads first, if the token behind it does not continue the tighter one |
| `ArithSpec.SubExpr` | bin/bash/expr.c:449-485 | A nested evaluation that succeeds gives the caller its whole token state back: only variables and the pending assignment operator may differ |
| `ArithSpec.ReadTok` | bin/bash/expr.c:1302-1502 | Reading a token leaves text and suppression alone and moves forward; under suppression it binds nothing and cannot divide by zero |
| `ArithSpec.ExpComma` | bin/bash/expr.c:487-500 | The outermost level restores suppression, and under suppression binds nothing and raises no division error |
| `ArithSpec.ExpCond` | bin/bash/expr.c:620-666 | The same for ?: |
| `ArithSpec.Exp0` | bin/bash/expr.c:1013-1110 | The same for operands, including ++ and -- |
| `ArithEvaluator.Evaluator.EvalExp` | bin/bash/expr.c:403-447 | The evaluator over its global token state and context stack computes the function EvalExp, and unwinds its stack on errors |
| `ArithEvaluator.Evaluator.SubExpr` | bin/bash/expr.c:449-485 | Pushing a context, evaluating and popping it computes SubExpr; the stack is as it was |
| `ArithEvaluator.Evaluator.ReadTok` | bin/bash/expr.c:1302-1502 | The tokenizer on its mutable state computes ReadTok |
| `ArithEvaluator.Evaluator.StrEval` | bin/bash/expr.c:1138-1238 | The value of a variable, evaluated as text unless suppressed |
| `ArithEvaluator.Evaluator.ExpAssign` | bin/bash/expr.c:502-617 | Assignment on the mutable state |
| `ArithEvaluator.Evaluator.ExpCond` | bin/bash/expr.c:620-665 | ?: with its suppression counter on the mutable state |
| `ArithEvaluator.Evaluator.ExpBinary` | bin/bash/expr.c:724-939 | The nine loops from &#124; to * on the mutable state |
| `ArithEvaluator.Evaluator.ExpPower` | bin/bash/expr.c:958-976 | ** on the mutable state |
| `ArithEvaluator.Evaluator.Variable` | bin/bash/expr.c:1061-1110 | A variable, with ++ and -- recognised ahead, on the mutable state |
| `ArithEvaluator.Evaluator.StrLong` | bin/bash/expr.c:1532-1607 | Constants in any base, digit by digit with wrap-around |
| `IntMax.IPow` | bin/bash/expr.c:941-956 | Exponentiation by squaring, wrapping at each step, equals the mathematical power wrapped once |
| `IntMax.WrapKeepsLowBits` | bin/bash/expr.c:941-956 | Wrapping changes a value by a multiple of 2^32 only |
| `IntMax.DivisionIdentity` | bin/bash/expr.c:903-935 | Quotient and remainder truncate toward zero and recompose the dividend |
| `IntMax.QuotientFits` | bin/bash/expr.c:903-921 | The quotient is in range except for INTMAX_MIN / -1 |
| `CommandMeaning.Run` | bin/bash/execute_cmd.c:555-600 | Carrying the "failure ignored" context: an ignored failure never ends the shell, only a failure does; a jump in flight names between one and all enclosing loops; the loop level comes back but for one per failed initialisation of an arithmetic for |
| `CommandMeaning.WhileLoop` | bin/bash/execute_cmd.c:3622-3684 | while and until keep the same, a jump raised by the test counting against the loop |
| `CommandMeaning.ForLoop` | bin/bash/execute_cmd.c:2820-2973 | for keeps the same |
| `CommandMeaning.ArithLoop` | bin/bash/execute_cmd.c:3041-3128 | for ((;;)) keeps the same after its initialisation |
| `CommandMeaning.RunJump` | bin/bash/builtins/break.c:63-144 | break and continue keep the same: the jump they start names between one and all enclosing loops, and outside loops there is none |
| `CommandPolls.RunMore` | bin/bash/quit.h:26-43 | A run that is not interrupted has the same outcome, level, trace and oracle with any number of polls more |
| `CommandMeaning.RunMatched` | bin/bash/execute_cmd.c:3473-3594 | Clauses of a case with ;; ;& and ;;& keep the same |
| `CommandLaws.Negation` | bin/bash/execute_cmd.c:580-600 | ! makes failure with status 1 of success and success of every failure |
| `CommandLaws.TestDecides` | bin/bash/execute_cmd.c:3635-3682 | A while executes its body after a test with status 0, an until after any other; if the first test says no it comes to 0 |
| `CommandLaws.NothingToDo` | bin/bash/execute_cmd.c:2820-2973 | An empty group, an if without the branch asked for and a for without words come to 0 |
| `CommandLaws.NothingMatched` | bin/bash/execute_cmd.c:3473-3594 | A case that matches nothing comes to 0 and executes nothing |
| `CommandLaws.LoopErrors` | bin/bash/execute_cmd.c:2865-3128 | A for whose variable cannot be bound, or with an error in an expression, comes to 1 |
| `CommandExecutor.Shell.Execute` | bin/bash/execute_cmd.c:555-600 | The executor, setting sticky CMD_IGNORE_RETURN flags in the tree and steering by the counters breaking, continuing and loop_level, comes to the status or exit, counters, level, trace and world of the contextual meaning; the flags it leaves are again ones that the next run may start from |
| `CommandExecutor.Shell.ExecuteParts` | bin/bash/execute_cmd.c:828-1076 | The switch on the command type, each part flagged before it is executed |
| `CommandExecutor.Shell.ExecuteSimple` | bin/bash/execute_cmd.c:828-960 | With set -e a simple command that fails where failure is not ignored exits |
| `CommandExecutor.Shell.ExecuteJump` | bin/bash/builtins/break.c:63-144 | The builtins on the counters |
| `CommandExecutor.Shell.ExecuteIf` | bin/bash/execute_cmd.c:3685-3718 | The test is flagged, the branches inherit |
| `CommandExecutor.Shell.ExecuteConnection` | bin/bash/execute_cmd.c:2642-2805 | The left side of && and &#124;&#124; is flagged, the right side inherits |
| `CommandExecutor.Shell.ExecuteWhile` | bin/bash/execute_cmd.c:3622-3684 | The level goes up and comes down again unless the shell is left |
| `CommandExecutor.Shell.WhileOrUntil` | bin/bash/execute_cmd.c:3635-3682 | The loop itself |
| `CommandExecutor.Shell.Turn` | bin/bash/execute_cmd.c:2933-2951 | One turn of any loop takes one loop off a pending jump and goes round again exactly when no break and no outer continue is pending |
| `CommandExecutor.Shell.ForWords` | bin/bash/execute_cmd.c:2865-2960 | The loop over the words |
| `CommandExecutor.Shell.ExecuteArithFor` | bin/bash/execute_cmd.c:3041-3128 | A failed initialisation returns without giving its level back; otherwise the level is restored |
| `CommandExecutor.Shell.ArithTurns` | bin/bash/execute_cmd.c:3077-3122 | The loop of an arithmetic for |
| `CommandExecutor.Shell.ExecuteClauses` | bin/bash/execute_cmd.c:3500-3590 | Clauses not yet matched, also behind a pending jump |
| `CommandExecutor.Shell.ExecuteMatched` | bin/bash/execute_cmd.c:3520-3580 | A matched clause, with fall-through |
| `CommandContexts.RunIsAfter` | bin/bash/execute_cmd.c:555-600 | A command executed at any place inside another (a side of a connection, a part of an if, a group, a clause, the body or test of any loop at any turn, with whatever ran before it): the whole comes to what that place does next with the command's result |
| `CommandContexts.PathTo` | bin/bash/execute_cmd.c:555-600 | Such places reach every simple command executed: each entry of a run's trace is written by the simple command at the end of some path of them |
| `CommandJumps.JumpPath` | bin/bash/execute_cmd.c:2933-2951 | They reach the origin of every jump: a command that comes to break or continue has a path to one written inside it, and the loops on the path are what its count, min(n, loops there), has lost |
| `CommandJumps.JumpRuns` | bin/bash/builtins/break.c:63-144 | break n and continue n inside loops come to a jump over min(n, loops) loops with status 0; a count below 1, where failure is ignored, to a break out of all of them with status 1; anything else to no jump |
| `CommandJumps.ExitExactly` | bin/bash/execute_cmd.c:828-960 | The law of set -e: a run ends in Exit(s) if and only if some simple command in it is executed where failure is not ignored and its status s is not 0, or a break or continue in a loop there has a count below 1; and that is the last thing the run does |
| `CommandRuns.JumpLeaves` | bin/bash/execute_cmd.c:2933-2951 | break n and continue n at the end of any path with fewer than min(n, loops there) loops on it: no command between is executed, and the whole comes to the same jump with one loop less for each passed, and the level lower by as many |
| `CommandRuns.BreakLeaves` | bin/bash/execute_cmd.c:2933-2951 | With exactly that many loops on the path, the outermost included: break n ends that loop, whatever is left of it, with status 0, and no command between is executed |
| `CommandRuns.ContinueResumes` | bin/bash/execute_cmd.c:2939-2951 | continue n in the same place, tests included: the loops inside are left and the n-th goes on with its next word, its step or its test; raised in the n-th loop's own test, it goes round unless its status is one that ends the loop |
| `CommandRuns.PendingExactly` | bin/bash/execute_cmd.c:2933-2951 | For every run that returns: a jump is pending if and only if some break or continue was executed in it at the end of a path with fewer loops than it names |
| `CommandRuns.NothingPending` | bin/bash/execute_cmd.c:3071-3124 | Outside all loops: no jump is pending if and only if no break or continue inside names more loops than it has around it there; the level is back at 0 if and only if no arithmetic for failed in its initialisation, and then no jump is pending |
| `CommandRuns.FailedInitialisationLeaks` | bin/bash/execute_cmd.c:3071-3076 | A concrete list in which a failed initialisation lets break 2 in a lone loop swallow the next command |
| `CommandCopy.CopyCommand` | bin/bash/copy_cmd.c:365-459 | The copy is the same tree with the same flags at every node, in wholly new memory |
| `CommandCopy.CopyCase` | bin/bash/copy_cmd.c:249-261 | A case is copied clause by clause |
| `CommandCopy.CopyClauses` | bin/bash/copy_cmd.c:101-114 | The clauses of a case |
| `CommandCopy.CopyIf` | bin/bash/copy_cmd.c:276-288 | An if and its three parts |
| `CommandCopy.CopySound` | bin/bash/copy_cmd.c:365-459 | Flags that are right for a stored tree are right for its copy, wherever failure is ignored on top |
| `CommandCopy.CallFunction` | bin/bash/execute_cmd.c:4928-5145 | Calling a function executes a fresh copy outside the caller's loops: it means what the body means, the caller's level is kept and the stored body is not touched |
| `CommandCopy.CallContainsJumps` | bin/bash/execute_cmd.c:4928-5145 | A jump leaves a call if and only if a break or continue in the body names more loops than the body has around it; none does unless an arithmetic for inside failed in its initialisation |
| `CommandCopy.CallLeaks` | bin/bash/execute_cmd.c:3071-3076 | A call that does leave one pending, to break a loop of the caller |
| `CommandCopy.ExecuteTimes` | bin/bash/execute_cmd.c:555-600 | One tree executed again and again: flags left behind change nothing |
| `BraceCorrect.ExpansionIsProduct` | bin/bash/braces.c:103-352 | For every brace word with at least two alternatives per group, any nesting, empty alternatives, backslashed characters, quoted pieces of all three kinds with any braces and commas inside, ${...} and substitutions: expansion of its text is the product of its meaning, leftmost part slowest, quoted and substituted pieces standing for themselves |
| `BraceCorrect.Expansion` | bin/bash/braces.c:103-278 | The induction behind it |
| `BraceCorrect.Alternatives` | bin/bash/braces.c:284-352 | Splitting between braces and expanding each slot gives the alternatives' meanings one after the other |
| `BraceCorrect.FirstGroup` | bin/bash/braces.c:593-724 | The scanner finds the first group's own braces, past everything nested |
| `BraceCorrect.SkipWord` | bin/bash/braces.c:593-724 | The scanner passes over a whole word, nested groups included, and comes out at the same level |
| `BraceCorrect.SkipUnit` | bin/bash/braces.c:593-724 | The scanner passes over a quoted piece, ${...} or a substitution at the same level, whatever it has inside |
| `BraceLaws.UnitStays` | bin/bash/braces.c:666-671 | Such a piece on its own expands to itself |
| `BraceLaws.SequenceExpands` | bin/bash/braces.c:200-240 | {lo..hi} in front of any text: the terms it is given, or itself, times what the text behind expands to |
| `BraceLaws.NothingToExpand` | bin/bash/braces.c:593-724 | A text expands to itself if it has no close brace, no comma or .. that counts, or only open braces that stand alone |
| `BraceLaws.LeadingBraces` | bin/bash/braces.c:688-703 | {} in front of a word is two ordinary characters |
| `Braces.BraceGobbler` | bin/bash/braces.c:593-724 | The scanning loop with its quote, level, comma and pass-next variables computes the scanner function |
| `Braces.ArrayConcat` | bin/bash/braces.c:731-781 | Every string of the first vector with every string of the second, also on the two short cuts |
| `Braces.ProductSize` | bin/bash/braces.c:726-745 | The result has as many strings as the two lengths multiplied |
| `Braces.ProductAt` | bin/bash/braces.c:731-781 | Which pair stands where in a product |
| `Braces.ProductAssociates` | bin/bash/braces.c:260-277 | Tacking amble and postamble on in turn is one product |
| `Braces.ExpandText` | bin/bash/braces.c:103-278 | The expander over its vectors computes BraceExpand and terminates on the length of the text |
| `Braces.ExpandAlternatives` | bin/bash/braces.c:284-352 | The splitting loop computes ExpandAmble |
| `Braces.ExpandBraces` | bin/bash/braces.c:103-278 | brace_expand computes BraceExpand, for every text |
| `BraceCompress.CompletionRoundTrip` | bin/bash/bracecomp.c:165-185 | For every sorted list of two or more names: expanding the completed word gives the names back in order: as they are if none needs quoting, otherwise with backslashes that quoting put there and that can be taken out |
| `BraceCompress.HackBracesCompletion` | bin/bash/bracecomp.c:165-185 | The word offered for the names after the first, or the first one quoted if it is alone, for every list, in any order, in which no name is read past its end |
| `BraceCompress.RoundTrip` | bin/bash/bracecomp.c:65-150 | For every such list: the expansion has as many strings as there are names, each one its own name or what its run's prefix makes of it; all the names come back, in order, if and only if in every run all share what the first and the last share |
| `BraceCompress.BackExactly` | bin/bash/bracecomp.c:85-145 | The induction behind it, over runs and the runs inside them |
| `BraceCompress.OtherOrderFails` | bin/bash/bracecomp.c:87-100 | abX, aBx, abY, in an order that disregards case: aBx comes back as abx |
| `BraceCompress.PlainRoundTrip` | bin/bash/bracecomp.c:65-150 | Names that need no quoting come back exactly, on the same condition |
| `BraceCompress.TopStands` | bin/bash/bracecomp.c:65-150 | The word is one with at least two members in every group |
| `BraceCompress.MungeBraces` | bin/bash/bracecomp.c:65-150 | The compressing loops and their recursion build exactly the text of that word |
| `BraceCompress.MungeRuns` | bin/bash/bracecomp.c:85-145 | The outer loop: run after run, an opening brace at top level when there is no common prefix |
| `BraceCompress.FindRun` | bin/bash/bracecomp.c:87-100 | The inner loop finds the longest run that shares more than the given prefix, and what it shares |
| `BraceCompress.StringGcd` | bin/bash/bracecomp.c:47-63 | The common prefix of two strings |
| `BraceCompress.GcdLongest` | bin/bash/bracecomp.c:47-63 | It is the longest one |
| `BraceCompress.SortedShares` | bin/bash/bracecomp.c:165-185 | In a list sorted by character codes every run shares what its first and last name share |
| `BraceCompress.BackslashQuote` | bin/bash/lib/sh/shquote.c:261-312 | Quoting puts a backslash before each special character and before a leading # |
| `BraceCompress.CompletionGuarded` | bin/bash/lib/sh/shquote.c:50-63 | No metacharacter of the shell stands bare in the word that is offered |
| `BraceCompress.QuotedGuarded` | bin/bash/lib/sh/shquote.c:261-312 | Nor in a quoted name, which begins with a backslash if it begins with one of them, a brace, a comma, a backslash or a # |
| `BraceSequence.MkSeq` | bin/bash/braces.c:359-469 | When a sequence is refused, exactly; otherwise its terms are start, start + step, ... to their exact number; and the vector is as long as it must be if and only if the sequence is not {0..INTMAX_MIN} with an increment above INTMAX_MIN, where its length is 3 less the number of terms |
| `BraceSequence.MiscountedGetThrough` | bin/bash/braces.c:359-420 | {0..INTMAX_MIN} with any other increment is not refused |
| `BraceSequence.MiscountedByFar` | bin/bash/braces.c:380-420 | {0..INTMAX_MIN}, counted in ones: 2^31 + 1 terms, and fewer than no slots |
| `BraceSequence.NeverPassesEnd` | bin/bash/braces.c:415-465 | Every term lies between start and end and one more would pass end |
| `BraceSequence.RefusedExactly` | bin/bash/braces.c:359-420 | Refused are the most negative increment where it would have to be negated and distances of 2^31 - 2 and more, or one less counted in ones; the distance of 2^31 from 0 is not |
| `BraceSequence.OrdinarySequence` | bin/bash/braces.c:359-420 | No sequence between ends of moderate size is refused, whatever the sign of its increment |
| `SparseArrays.SparseArray.Insert` | bin/bash/array.c:553-636 | From any roving pointer, in either direction: the list stays a sorted ring, its entries are the old ones with the value stored, and the "problem" return is never taken |
| `SparseArrays.SparseArray.Place` | bin/bash/array.c:588-632 | The two-way search ends at the element or at the gap, never at the head |
| `SparseArrays.SparseArray.Remove` | bin/bash/array.c:642-694 | The entry is gone, the element returned is the one that had the index, bookkeeping and roving pointer stay right |
| `SparseArrays.SparseArray.Reference` | bin/bash/array.c:699-748 | Lookup gives the value at the index; only the roving pointer moves, to a live element |
| `SparseArrays.SparseArray.Seek` | bin/bash/array.c:654-692 | The search that removal and lookup share |
| `SparseArrays.SparseArray.Shift` | bin/bash/array.c:203-256 | The first n entries are cut out as a null-terminated chain and the rest renumbered |
| `SparseArrays.SparseArray.Rshift` | bin/bash/array.c:263-297 | All entries renumbered, a value put at 0 if given, the count returned |
| `SparseArrays.SparseArray.Flush` | bin/bash/array.c:97-114 | Empty, with its head |
| `SparseArrays.SparseArray.constructor` | bin/bash/array.c:80-95 | Empty |
| `SparseArrays.SparseArray.Copy` | bin/bash/array.c:127-147 | Fresh, with the same entries and bookkeeping |
| `SparseArrays.SparseArray.Slice` | bin/bash/array.c:153-174 | Fresh, with the entries between; a proper array if and only if there are any |
| `SparseArrays.SparseArray.CallFrame` | bin/bash/execute_cmd.c:4879-4887 | What a function call pushes on its stacks it pops, bookkeeping included |
| `ArrayContents.PutIsUpdate` | bin/bash/array.c:553-636 | Storing is updating the map |
| `ArrayContents.DropIsDelete` | bin/bash/array.c:642-694 | Removing is deleting from the map |
| `ArrayContents.FindIsLookup` | bin/bash/array.c:699-748 | Looking up is looking up in the map |
| `ArrayContents.IndexAtLeast` | bin/bash/array.c:203-256 | The k-th index is at least k |
| `ArrayContents.ShiftedOrdered` | bin/bash/array.c:234-243 | So shifting never makes an index negative, and order is kept |
| `ArrayContents.ShiftIsLookup` | bin/bash/array.c:203-256 | Shifting out n keeps the values that have n or more indices in use below them, n places further down, and no others |
| `ArrayContents.BelowIsCount` | bin/bash/array.c:203-256 | which counts the keys of the map |
| `ArrayContents.RshiftIsLookup` | bin/bash/array.c:263-297 | Shifting in by n moves every value n places up and may put one at 0 |
| `ArrayContents.PushPop` | bin/bash/array.h:110-114 | Pushing and popping at the front is the identity |
| `Fixdep.Scanner.ParseConfigFile` | scripts/fixdep.c:286-317 | The four-byte scan uses exactly the names a byte search finds from the second byte on, in order, whatever lies behind the end of the file |
| `Fixdep.Pass` | scripts/fixdep.c:288-300 | One stride passes four positions, of which only the candidate can hold a name |
| `Fixdep.Covers` | scripts/fixdep.c:294-298 | A CONFIG_ is covered by the word at one stride only |
| `Fixdep.ReadName` | scripts/fixdep.c:304-315 | The name behind a CONFIG_, without _MODULE; none if the file ends in it |
| `Fixdep.Scanner.Use` | scripts/fixdep.c:270-284 | A name is printed the first time it is used |
| `Fixdep.Scanner.IsDefined` | scripts/fixdep.c:220-230 | The bucket search answers membership |
| `Fixdep.Scanner.Define` | scripts/fixdep.c:235-248 | A new name is added to its bucket |
| `Fixdep.Scanner.Clear` | scripts/fixdep.c:253-265 | All buckets emptied |
| `Fixdep.StrHash` | scripts/fixdep.c:207-215 | The hash loop computes its fold |
| `Fixdep.Scanner.ParsePrerequisites` | scripts/fixdep.c:397-434 | Over all prerequisite files the names printed are the distinct names found, in order of first appearance |
| `FixdepScan.MergeOnce` | scripts/fixdep.c:270-284 | Each name once, and no other |
| `FixdepScan.HereExactly` | scripts/fixdep.c:302-316 | A name is found at a place if and only if CONFIG_ stands there and letters, digits and underscores behind it are ended by something else; it is these, without a _MODULE at their end |
| `FixdepScan.DigitsInNames` | scripts/fixdep.c:279-307 | A file that names CONFIG_I2C, and the line printed for it |
| `FixdepScan.LowerLetters` | scripts/fixdep.c:279-283 | Capitals become small letters and nothing else changes |
| `FixdepScan.LinesClash` | scripts/fixdep.c:279-283 | Two names have the same line if and only if they differ at most in case |
| `FixdepScan.LinesOnce` | scripts/fixdep.c:279-283 | A run prints every line once if and only if no two different names found agree in lower case |
| `FixdepScan.LineTwice` | scripts/fixdep.c:279-283 | A file for which one line is printed twice |
| `FixdepScan.FirstByteMissed` | scripts/fixdep.c:288-292 | A file whose option, named in its first byte, is missed, and found behind a blank |
| `FixdepScan.FirstByteLost` | scripts/fixdep.c:288-292 | For every file: the names found are those of a search from its first byte if and only if no option is named there |
| `FixdepScan.FirstByteLineLost` | scripts/fixdep.c:279-292 | The line of an option named in a first byte is missing if and only if no other place in the files names an option that is the same in lower case |
| `FixdepScan.FirstByteLineKept` | scripts/fixdep.c:279-292 | A file whose first-byte option is missed and its line printed all the same |
| `FixdepScan.LinePrinted` | scripts/fixdep.c:279-283 | A name's line is printed if and only if some name found is the same in lower case |
| `FixdepScan.NameLost` | scripts/fixdep.c:304-314 | A CONFIG_ found yields no name if and only if the file ends in its name or the name is MODULE |

## Left out

- hashlib.c is not modelled: rehashing and the bound on its load are shown nowhere, as the scanner's own table never grows.
- alias.c: a text transformation whose scanner is of the kind proved for braces.
- dispose_cmd.c and the freeing of list nodes: memory is not given back in the model.
- Array subscripts, associative arrays, namerefs and unset-variable errors in arithmetic: `name[` is an error of its own in the model.
- Text of error messages, and which lexical error is reported, beyond division by zero, negative exponent, nesting and syntax.
- Undefined behaviour in arithmetic: signed overflow is modelled as wrap-around, and shift counts are taken modulo 32.
- ArithCorrect.EvaluatorAgrees: integer constants are written in decimal, and two equal signs in a row with a blank between (`1 + +2`), as without it they may be read as one token; both are modelled in the evaluator.
- Subshells, pipes, redirections, asynchronous lists, traps, `select`, `time`, coprocesses and job control: commands are run in the foreground with `set -e` on throughout.
- CommandExecutor.Shell.Execute: simple commands, word lists, patterns and arithmetic inside `for` draw their results from an arbitrary script; an interrupt may arrive at any poll, and a run that goes on for ever is seen as all its interrupted beginnings.
- `return`, positional parameters and variable contexts of functions; function calls are not among the simple commands of a tree.
- CommandCopy.CopyCommand: words, redirections and line numbers are not part of the trees copied.
- CommandCopy.CopyCase: nor are the word matched and the patterns.
- CommandCopy.CopyClauses: nor pattern lists; and it copies the clauses by recursion where the source copies them in reverse and reverses the list.
- CommandCopy.CallFunction: `return`, arguments and the variable context of the function are absent.
- CommandMeaning.Run: a group has no flags of its own in the source; the model sets one that nothing reads.
- BraceCompress.HackBracesCompletion: lists in which a name shorter than its run's prefix would be read past its end are excluded, since C does not define what is read. The order in which readline delivers the list (by `strcoll`, lib/readline/complete.c:1268 and util.c:424) is not modelled: the list may be in any order.
- Braces.ExpandBraces: what `{a..b}` expands to and where `$(...)` ends are arbitrary functions given to it; words with substitutions are those whose end it finds.
- BraceSequence.MkSeq: the printing of the terms (zero padding, characters) and interrupts.
- Multibyte characters, memory exhaustion, and NUL inside strings.
- SparseArrays.SparseArray.Rshift: indices are unbounded integers; renumbering past the largest index is not modelled.
- SparseArrays.SparseArray.Insert: values are never null, and the index is not negative, as its callers see to.
- Conversions of arrays to and from words and strings, and walking an array with a function.
- Fixdep.Scanner.ParsePrerequisites: the prerequisites to be scanned are given; splitting the dependency text, the filter on `autoconf.h` and the other lines printed are absent.
- Fixdep.StrHash: characters above 127 are hashed as unsigned bytes; names contain none.
