# Models of gwsh

gwsh is a POSIX shell in C. This project models the algorithms at its core in Dafny, in the form the C code has
them, and proves what they are for. `dafny verify dfyconfig.toml` checks everything. The build that is modelled is the
one without `WITH_LOCALE` and without `ENABLE_INTERNAL_COMPLETION`: one character is one byte.

Code that works by changing things is a method, with a loop where the C code has a loop, or a class whose fields are
the globals and structures of the C code; each is proved against a function or predicate on values, and the main
results are lemmas about those.

| area | files |
|---|---|
| pattern matching and its five modes | `Glob.dfy`, `GlobLaws.dfy` |
| quoting marks in expanded text | `Escape.dfy` |
| field splitting, sorting of file names | `Fields.dfy`, `FieldLaws.dfy`, `Msort.dfy` |
| nested backquotes | `Backquote.dfy`, `BackquoteLaws.dfy`, `Input.dfy`, `Nesting.dfy` |
| printing a quoted string and reading it | `Words.dfy`, `Quote.dfy`, `QuoteRoundTrip.dfy`, `WordLaws.dfy` |
| arithmetic | `Numbers.dfy`, `Intmax.dfy`, `Arith.dfy`, `ArithParser.dfy`, `ArithNoeval.dfy`, `ArithMeaning.dfy`, `ArithLexer.dfy`, `ArithLaws.dfy` |
| variables and local scopes | `Vars.dfy`, `VarState.dfy`, `VarScopes.dfy`, `VarStack.dfy`, `VarEval.dfy`, `VarLaws.dfy` |
| redirections | `Redir.dfy`, `RedirStack.dfy`, `RedirEval.dfy`, `RedirLaws.dfy` |
| loops, `break`, `continue`, `return`, functions | `Control.dfy`, `ControlFlags.dfy`, `ControlLaws.dfy` |
| the stack allocator | `Arena.dfy` |
| the command table | `Commands.dfy`, `CommandLaws.dfy` |
| aliases, jobs, the current directory | `Aliases.dfy`, `Jobs.dfy`, `Cd.dfy`, `CdLaws.dfy` |

Those functions in turn are tied to what a user sees by the files named `...Laws.dfy`: what a pattern, an expression, a
quoted word, an assignment, a redirection, a loop or a directory does is said there by its text and its effect, without
the names of the functions that the code is proved against.

What the proofs found about the code, with the exact condition of each:

- `find_command` can give a stale answer. When PATH ends in a colon and a command was found through the empty entry
  behind it, a search from another directory may stop one entry earlier; the first directory of FPATH, if it is
  absolute, then has the number of the remembered entry and is taken for it (src/exec.c:395-404, src/exec.c:447-450).
  `Commands.StaleHappens` is an example, `Commands.AnswerIsFresh` says exactly when it happens, and
  `Commands.NoColonIsFresh` that it never does while PATH does not end in a colon.
- The empty entry at the end of PATH is searched only when the entry before it has a file of that name, and an empty
  PATH is not searched at all (src/exec.c:393-413). `Commands.CutShortHappens` is an example; `Commands.SearchIsWhole`
  says that the search finds what searching all entries finds exactly when PATH is not cut short like this.
- `local a-b` in a function puts a record into the scope before `setvar` rejects the name, and the record then never
  gets its variable, which `poplocalvars` reads (src/var.c:552-568). `local a-b=1` enters the variable without a look
  at its name; when the scope is left, the variable is to be unset, `setvar` rejects the name in the middle of
  `poplocalvars`, and all older records of the scope are lost (src/var.c:599-634, src/var.c:713-715).
  `Vars.BreakingName` has both inputs, `VarEval.LeavesHalf` shows what is left behind the second. The scopes stay sound,
  and restore everything, exactly if no `local`, with or without a value, comes to a variable that does not exist and
  whose name is rejected: `VarEval.Toplevel` with `Vars.BreaksIsMeets`.
- `shell_quote` prints a digit without quotes, and in front of `<` or `>` that is not a word but the number of a
  descriptor (src/parser.c:1276-1282). `QuoteRoundTrip.DigitIsDescriptor` is an example; `QuoteRoundTrip.QuoteRoundTrip`
  says that this is the only case.
- From a directory whose name begins with two slashes, `cd ..` loses one of them when it leaves the last name
  (src/cd.c:269-273). `Cd.SlashIsLost` is an example, `Cd.RelativeLeads` the exact condition.
- From `/`, a directory `//x` is passed to `chdir` as `/x` (src/cd.c:186-193). `Cd.ShortenedMisleads` is the example;
  `Cd.ShortenedLeads` says that this is the only case in which the shorter name leads elsewhere.
- `pgetc` deletes a whole run of backslashes in front of a newline, which is not what one pass per level does.
  `Backquote.ContinuationDiffers` is an example; `Backquote.PassIsLevels` says that this is the only difference.
- With a limit on the number of fields, `ifsbreakup` makes no field of what is left for the last one when that is
  empty; `Fields.FieldsMaxSize` says exactly when this makes a difference.
- Redefining an alias can lose its old text: `Aliases.LossHappens` is an example, `Aliases.SetLoses` says exactly when,
  and `Aliases.LostForGood` that it is never freed after that.

## Model

| member | source | states |
|---|---|---|
| Glob.PMatch | src/expand.c:1566-1706 | for every pattern with closed brackets, subject and mode: None exactly when no position has a match, else the end of the shortest or longest matching prefix, the start of the shortest or longest matching suffix, or the end of the subject |
| Glob.Turn | src/expand.c:1586-1705 | one turn of the loop answers, or keeps the search invariant and lowers the rank (start of the suffix, last star, where it began, element at hand) |
| Glob.MatchBracket | src/expand.c:1625-1682 | the bracket loop decides membership of the bracket as the syntax defines it, and ends behind it |
| Glob.MatchItem | src/expand.c:1645-1677 | one item of a bracket (character, range or class) is read and tested |
| Glob.CcMatch | src/expand.c:1500-1564 | a class name in a bracket is found, and tested against the character, or is no class |
| Glob.MatchOne | src/expand.c:1608-1692 | one element that is not a star eats exactly one character and fits it, or fails |
| Glob.PatternEnd | src/expand.c:1588-1607 | the end of the pattern gives the answer, starts again behind the start of the suffix, or records an end and goes back |
| Glob.ForgetStar | src/expand.c:1619-1624 | a new star makes all earlier ones irrelevant: whatever matches from an earlier place matches from the latest |
| Glob.FallBack | src/expand.c:1695-1702 | going back to the last star loses no match |
| Glob.GiveUp | src/expand.c:1695-1704 | when the last star has nowhere to go, no match is left |
| Glob.SuffixFound | src/expand.c:1597-1605 | the start that a suffix search returns is that of the shortest or longest matching suffix |
| Glob.PrefixFound | src/expand.c:1590-1595 | the end that a prefix search returns is that of the shortest matching prefix |
| GlobLaws.BracketOne | src/expand.c:1625-1682 | `[c]` matches `c` and nothing else |
| GlobLaws.BracketNot | src/expand.c:1625-1682 | `[!c]` matches every single character but `c` |
| GlobLaws.BracketTwo | src/expand.c:1645-1677 | `[cd]` matches both and nothing else |
| GlobLaws.BracketRange | src/expand.c:1659-1675 | `[lo-hi]` matches the characters from the one to the other, both included |
| GlobLaws.BracketClass | src/expand.c:1500-1564 | `[[:name:]]` matches exactly the characters of the class, which is given by character codes for all twelve |
| GlobLaws.QuestionMark | src/expand.c:1613-1618 | `?` matches every text of one character and no other |
| GlobLaws.PlainOne | src/expand.c:1683-1692 | a character that is not special matches itself only |
| GlobLaws.BackslashOne | src/expand.c:1608-1692 | so does any character behind a backslash |
| GlobLaws.StarAll | src/expand.c:1619-1624 | `*` matches every text |
| GlobLaws.FirstThenStar | src/expand.c:1619-1624 | `c*` matches what begins with `c`, and `*c` what ends in it |
| GlobLaws.StarBest | src/expand.c:1586-1607 | the shortest and the longest that `*` takes away at either end |
| Escape.RmEscapesInPlace | src/expand.c:1716-1738 | the string, compacted where it is, becomes the text without its marks, with CTLESC kept where a pattern may need it, for text with a CTLESC at its end too |
| Escape.MemToDest | src/expand.c:709-739 | appends the text with CTLESC in front of what quoting must protect; NUL characters are dropped or kept |
| Escape.ProtectThenRemove | src/expand.c:709-739 | for every text without NUL, `_rmescapes` after `memtodest` is the identity |
| Escape.QuotedMatchesItself | src/expand.c:1493-1497 | quoted text, copied and prepared as a pattern, matches this text and no other |
| WordLaws.CopiedShown | src/expand.c:709-739 | quoted text is copied with nothing in it left active, and text that is not quoted stays active |
| Fields.IfsBreakup | src/expand.c:903-1053 | for every IFS, text and region: the fields of the text, with or without a limit on their number |
| Fields.LastOne | src/expand.c:987-1046 | where the last field ends that there is room for: behind the only field left, or in front of the white space at the end |
| Fields.FieldsAreParts | src/expand.c:934-1036 | the fields are the parts of the text between maximal separators, each IFS white space or one other IFS character with white space around it; only the last field may lack one, and is then not empty |
| Fields.FieldsMaxSize | src/expand.c:1013-1048 | at most `max` fields; when all fit, they are the fields without a limit unless the last of `max` is empty, which is then missing |
| Fields.FieldsMaxMany | src/expand.c:966-1048 | with more fields than `max`, the first `max - 1` are those of the text, and the last is all that is left from there on, separators included, but for IFS white space at the end |
| Fields.OneDivision | src/expand.c:942-1036 | a text has only one division into fields and separators |
| FieldLaws.SpaceEnds | src/expand.c:960-1036 | IFS white space behind a field ends it, however much there is |
| FieldLaws.SignEnds | src/expand.c:960-1036 | another IFS character ends a field, also an empty one, together with the white space around it |
| FieldLaws.LeadingSpace | src/expand.c:1016-1021 | white space in front makes no field |
| FieldLaws.OneField | src/expand.c:1041-1053 | text without separators is one field, and the empty text none |
| FieldLaws.TwoSeparators | src/expand.c:960-1036 | between two equal separators there is an empty field exactly if they are not white space |
| FieldLaws.NotSplit | src/expand.c:934-940 | what is not to be split is one field |
| Msort.Lists.Merge | src/expand.c:1463-1485 | merging two strictly increasing lists in place gives one with all their texts, each once |
| Msort.Lists.Msort | src/expand.c:1444-1486 | relinks exactly the given nodes into a strictly increasing list that holds the same set of texts |
| Msort.Lists.ExpSort | src/expand.c:1431-1441 | counts the list and sorts it |
| Msort.SortedIsUnique | src/expand.c:1463-1485 | there is only one strictly increasing list with given members |
| Msort.LessIs | src/expand.c:1470-1479 | the order is that of the first bytes that differ, and the end comes before every byte |
| Backquote.PassIsLevels | src/input.c:195-258 | for every number of levels and every text: one pass with a counter and a mask delivers what unescaping once per level delivers, exactly when no run of backslashes stands in front of a newline where it is deleted; it is never longer |
| Backquote.ContinuationDiffers | src/input.c:238-241 | a backslash and a newline, with one level open: the levels deliver them, the pass deletes them |
| BackquoteLaws.PassReads | src/input.c:195-258 | a line written for any number of nested backquotes, with a backslash for each level in front of `$`, backquote and backslash, is delivered as it was before, up to the backquote that closes it |
| BackquoteLaws.NestedReads | src/input.c:195-258 | unescaping once per level reads it back too, whatever is in it |
| BackquoteLaws.OthersStay | src/input.c:242-256 | a backslash in front of a double quote goes exactly inside double quotes, and in front of anything else it stays |
| Nesting.CloseResumes | src/parser.c:1593-1615 | a backquote that ends the innermost level is one of the next outer level, which goes on with the input left |
| Input.ParseFile.Rounds | src/input.c:214-257 | the rounds of the loop in `pgetc` up to the one that delivers or fails |
| Input.ParseFile.Pgetc | src/input.c:195-258 | the next character is that of the pass over the rest of the text; what was pushed back comes first |
| Input.ReadToEnd | src/input.c:195-258 | reading to the end delivers what unescaping once per level delivers, exactly when no run of backslashes stands in front of a newline where it is deleted |
| Input.ParseFile.Pungetc | src/input.c:445-449 | the last character will be read again |
| Input.ParseFile.OpenBackquote | src/parser.c:1593-1600 | one level more: the counter doubles, and the mask takes the level's double quote bit |
| Input.ParseFile.CloseBackquote | src/parser.c:1611-1615 | one level less, with the outer levels as they were |
| Input.ParseFile.PushString | src/input.c:455-484 | a pushed string is read outside all levels, and the levels outside are kept |
| Input.ParseFile.PopString | src/input.c:486-518 | levels opened in a pushed string stay open behind it, inside the outer ones |
| Words.StringLoop | src/parser.c:956-1248 | the loop inside `'...'` and `$'...'`: marks, escapes, control characters, and a NUL that cuts the text short |
| Words.WordLoop | src/parser.c:956-1260 | the loop outside quotes: where the word ends, which marks it gets, and whether anything is quoted |
| Words.ReadToken1 | src/parser.c:932-1300 | the token: a word, or a redirection with at most a digit in front of its sign |
| Quote.ShellQuote | src/mystring.c:211-396 | the loop with its restart prints nothing extra, `'...'` or `$'...'`, whichever the text needs |
| Quote.DollarPlain | src/mystring.c:262-273 | what was copied before `$'...'` was chosen is right for it when it has no backslash |
| QuoteRoundTrip.ReadSingle | src/parser.c:977-1025 | reading the inside of `'...'` and removing the marks gives the text |
| QuoteRoundTrip.ReadDollar | src/parser.c:1026-1118 | reading the inside of `$'...'` and removing the marks gives the text |
| QuoteRoundTrip.QuoteRoundTrip | src/mystring.c:211-396 | for every C string and style, and whatever ends it: the output of `shell_quote` is read as one word, to its end, that is the string once its quotes are removed, exactly unless it is a bare digit in front of `<` or `>` |
| QuoteRoundTrip.DigitIsDescriptor | src/parser.c:1276-1282 | `2` in front of `>x` |
| WordLaws.SingleIsLiteral | src/parser.c:983-1012 | for every text without `'`, the word `'...'` is read whole, stands for the text, matches as a pattern this text and no other, and has each of `!*?[=~:/-]` and the backslash in it behind CTLESC |
| WordLaws.DollarIsLiteral | src/parser.c:1026-1118 | so does every text in the form `$'...'` |
| WordLaws.AnyDollarIsLiteral | src/parser.c:983-1118 | and every `$'...'` that is read at all, however it is written |
| WordLaws.ShownBehind | src/parser.c:990-1006 | the character in front of every active one is CTLESC |
| WordLaws.PlainStaysActive | src/parser.c:990-1006 | a pattern character that is not quoted has no CTLESC in front of it |
| WordLaws.BackslashIsLiteral | src/parser.c:1028-1043 | a character behind a backslash stands for itself only |
| WordLaws.ContinuationGone | src/parser.c:892-911 | outside quotes a backslash and a newline are deleted, wherever in a word |
| WordLaws.EscapeLetters | src/parser.c:1057-1063 | the letters for control characters in `$'...'` |
| WordLaws.EscapeOctal | src/parser.c:1064-1105 | three octal digits stand for the character with that code |
| WordLaws.EscapeHex | src/parser.c:1071-1105 | so do `x` and two hexadecimal digits |
| WordLaws.EscapeControl | src/parser.c:1013-1018 | `c` and a letter stand for a control character |
| WordLaws.BareIsSafe | src/mystring.c:233-394 | `shell_quote` prints a text as it is exactly if it is not empty and has only printing characters that need no quotes |
| IntmaxArith.DoBinopMeaning | src/arith_yacc.c:107-154 | for every operator and all operands, the unsigned C code gives exact arithmetic modulo 2^64, truncating division, and right shifts that round down |
| IntmaxArith.ShiftRight | src/arith_yacc.c:130-134 | complementing, shifting and complementing again is division rounding down |
| ArithLaws.SumsAre | src/arith_yacc.c:112-118 | sums, differences and products are exact but for a multiple of 2^64 |
| ArithLaws.DivisionIs | src/arith_yacc.c:119-127 | quotient and remainder give back the dividend, rounded towards zero; zero is an error |
| ArithLaws.ShiftsAre | src/arith_yacc.c:128-136 | shifts multiply and divide by powers of two, rounding down |
| ArithLaws.ComparisonsAre | src/arith_yacc.c:137-147 | comparisons are 1 or 0 |
| ArithLaws.BitwiseIs | src/arith_yacc.c:148-153 | the bitwise operators work on every bit of two's complement |
| Numbers.BitwiseBit | src/arith_yacc.c:147-152 | every bit of a bitwise operation comes from the same bits of its operands, for negative numbers too |
| ArithParser.Parser.Primary | src/arith_yacc.c:158-194 | unary operators, parentheses, numbers and names, as the evaluator functions say |
| ArithParser.Parser.Binop2 | src/arith_yacc.c:196-225 | precedence climbing, as the evaluator functions say |
| ArithParser.Parser.And | src/arith_yacc.c:239-255 | the logical and, with its right side skipped over when the left side is zero |
| ArithParser.Parser.Or | src/arith_yacc.c:257-273 | the logical or, with its right side skipped over when the left side is not zero |
| ArithParser.Parser.Cond | src/arith_yacc.c:275-296 | the conditional operator, with one of its branches skipped over |
| ArithParser.Parser.Assignment | src/arith_yacc.c:298-318 | assignments, simple and compound; a compound one reads its target behind its right side |
| ArithParser.Parser.Run | src/arith_yacc.c:320-333 | value and variables, or the error, that the evaluator functions give for the whole list of tokens |
| ArithMeaning.RunIsSem | src/arith_yacc.c:158-333 | the value and store of the evaluating mode are those of a left-to-right semantics of expression trees |
| ArithMeaning.EvaluatePrinted | src/arith_yacc.c:158-333 | for every expression tree and store: evaluating its printed tokens gives its meaning, with C's precedence and associativity |
| ArithLaws.Precedence | src/arith_yacc.c:65-104 | for any operands and any two binary operators, `a op1 b op2 c` means `(a op1 b) op2 c` if op1 is in the class of op2 or an earlier one in C's list, which is written out, and else `a op1 (b op2 c)` |
| ArithLaws.LoosePrecedence | src/arith_yacc.c:239-318 | `||` binds less than `&&`, that less than every binary operator, and `?:` less than both |
| ArithLaws.ShortCuts | src/arith_yacc.c:239-273 | `&&` and `||` run their right sides only if needed, and are 1 or 0 |
| ArithLaws.OneBranch | src/arith_yacc.c:275-296 | `?:` runs one of its branches |
| ArithLaws.UnaryIs | src/arith_yacc.c:158-194 | the unary operators |
| ArithLaws.AssignmentIs | src/arith_yacc.c:298-318 | an assignment gives its value, which the variable has from then on, and a read-only variable refuses |
| ArithLaws.VariableIs | src/arith_yacc.c:158-194 | a variable that does not exist is 0, or an error under `set -u` |
| ArithLaws.CompoundIs | src/arith_yacc.c:298-318 | `x op= a` is `x = x op a` |
| ArithLexer.Lexer.Yylex | src/arith_yylex.c:60-237 | the next token, the longest there is, and where the next one is looked for |
| ArithLexer.Lexer.Operator | src/arith_yylex.c:148-231 | the branches that add 14 for a following `=` give the longest operator of the table and its token |
| ArithLexer.OperatorEnds | src/arith_yylex.c:148-231 | an operator is read as such exactly when the character behind it does not make it a longer one |
| ArithLaws.OperatorTexts | src/arith_yylex.c:148-231 | the binary operators as C writes them |
| ArithLaws.CompoundTexts | src/arith_yylex.c:148-231 | the assignments are the arithmetic operators with `=` behind them |
| ArithLaws.HexNumber | src/arith_yylex.c:76-87 | `0x` and hexadecimal digits |
| ArithLaws.OctalNumber | src/arith_yylex.c:76-87 | `0` and octal digits |
| ArithLaws.DecimalNumber | src/arith_yylex.c:76-87 | decimal digits |
| ArithLexer.LexText | src/arith_yylex.c:60-237 | however tokens are written (decimal, octal or hexadecimal, with blanks or, where they do not join, without), they are what is read |
| ArithLexer.TextMeaning | src/arith_yacc.c:320-333 | `arith` on any text of the tokens of any expression gives the meaning of the expression |
| ArithLexer.SpacedMeaning | src/arith_yacc.c:320-333 | and every expression whose numbers are not negative has such a text |
| ArithNoeval.AssignmentAlongside | src/arith_yacc.c:298-318 | on any tokens, the mode that does not evaluate takes the same tokens as the evaluating one, leaves the store alone, and fails for syntax only |
| ArithNoeval.EvaluateSame | src/arith_yacc.c:158-318 | the placeholder values of the mode that does not evaluate never affect the outcome, whatever the tokens |
| VarStack.Shell.SetVarEq | src/var.c:273-337 | one table entry changes as an assignment means, its old text is freed once and its new one is its own; a read-only variable changes nothing |
| VarStack.Shell.SetVar | src/var.c:209-241 | setting or unsetting a variable, in a local scope or outside all; a name that is none is an error, a read-only variable refuses |
| VarStack.Shell.MarkVar | src/var.c:480-490 | `export` and `readonly` without a value, in a local scope or outside all |
| VarStack.Shell.MkLocal | src/var.c:526-583 | a variable becomes local once per scope; what is restored is what it was then; an assignment may still be refused; a rejected name leaves a record without its variable |
| VarStack.Shell.PopBack | src/var.c:630-646 | one record is put back: existence, flags, text, and who owns the text; or the error when a variable with a rejected name is to be unset |
| VarStack.Shell.PopKeep | src/var.c:609-625 | one record is given up: the variable keeps its value, and goes if nothing is left of it; or the same error |
| VarState.StoredGood | src/var.c:317-331 | a new text for an entry leaves every text with one owner and every saved text allocated |
| VarState.DroppedGood | src/var.c:303-311 | so does taking an entry out of the table |
| VarScopes.NotingGood | src/var.c:570-576 | so does making an existing variable local, which moves its text to the record |
| VarScopes.FoundingGood | src/var.c:561-569 | so does making a variable local that did not exist |
| VarScopes.LeavingGood | src/var.c:605-647 | so does every way in which a variable leaves a scope |
| VarEval.PushLocalVars | src/var.c:655-668 | a new scope restores nothing yet and shows what was visible |
| VarEval.PopLocalVars | src/var.c:591-649 | behind a scope every variable local to it is as it was, or as the scope left it when changes are kept; it fails exactly when a variable to be unset has a rejected name, and then loses the records behind that |
| VarEval.UnwindLocalVars | src/var.c:671-676 | leaving several scopes, undoing them or keeping their changes, shows what leaving them one by one means, exactly unless one of them cannot be left |
| VarEval.LeavesHalf | src/var.c:599-634 | behind `local x=1; local a-b=1` both variables are still there, and `x` is local to a scope that is gone |
| VarEval.Eval | src/eval.c:715-898 | commands in nested scopes mean what scoped assignments mean, also when an error leaves scopes behind or is caught; or the scopes break, exactly where `Vars.Breaks` says |
| VarEval.Toplevel | src/eval.c:715-898 | a run keeps the scopes sound exactly if they do not break; then no scope is left, ended or failed, variables are what the command means, local ones restored, and every allocated text belongs to one variable |
| Vars.LocalRestored | src/var.c:591-649 | a variable made local anywhere in a scope that does not break has behind the scope the existence, value and flags that it had just then, whatever the scope does |
| Vars.NamedNeverBreaks | src/var.c:216-222 | commands whose `local` operands all are names never break the scopes |
| Vars.BreaksIsMeets | src/var.c:526-649 | a scope breaks exactly if a `local` in it, with or without a value, comes to a variable that does not exist and whose name is rejected |
| Vars.BreakingName | src/var.c:552-634 | `local a-b`, and `local x=1; local a-b=1`, break a scope exactly if there is no `a-b` |
| Vars.SavedStays | src/var.c:546-549 | what a scope will restore of a variable never changes again |
| Vars.OnlyAssigns | src/var.c:273-337 | a command changes no variable that it does not name |
| VarLaws.ExportMarks | src/var.c:475-490 | `export` fails exactly at a new name that is none; otherwise the variable is there and exported, one that was there has all its other flags and its value, and a new one is not read-only |
| VarLaws.ReadonlyMarks | src/var.c:475-490 | so with `readonly`, which does not export |
| VarLaws.ReadonlyRefuses | src/var.c:285-293 | behind `readonly` every assignment and `unset` fail and change nothing |
| VarLaws.ExportedTakes | src/var.c:475-490 | behind `export` they fail only at a variable that was read-only, and a value set is exported |
| VarLaws.SetFails | src/var.c:209-293 | an assignment fails exactly at a rejected name or a read-only variable, and then changes nothing |
| VarLaws.SetGives | src/var.c:273-337 | otherwise the variable has the value, is exported exactly if it was or with `set -a`, and nothing else changes |
| VarLaws.UnsetTakes | src/var.c:301-314 | `unset` takes the variable away, or leaves a fixed one without value and not exported |
| VarLaws.UnsetUndoes | src/var.c:273-337 | `export`, an assignment and `unset` of a new variable leave no trace |
| VarLaws.LocalGives | src/var.c:552-583 | `local x=v` shows the value, and the variable stays exported if it was |
| VarLaws.LocalShows | src/var.c:552-583 | `local x` leaves an existing variable as it is and makes one without a value |
| VarLaws.KeptStays | src/var.c:609-625 | an assignment in front of a special builtin stays behind it, as if made without the builtin |
| VarLaws.ScopeForgets | src/var.c:630-646 | in front of another command it is gone behind it |
| Redir.Restores | src/redir.c:288-314 | commands without `exec` leave descriptors 0 to 9 as they were, however they end |
| RedirStack.LowestFree | src/redir.c:132-204 | the descriptor that an open takes: free, and the lowest such |
| RedirStack.Shell.SaveFd | src/redir.c:340-363 | a copy from 10 on, CLOSED for a descriptor that is not open, an error when there is no room |
| RedirStack.Shell.OpenRedirect | src/redir.c:132-204 | files, here-documents and descriptors to duplicate: the descriptor to take from, or an error that changes nothing |
| RedirStack.Shell.Install | src/redir.c:113-124 | behind one redirection its descriptor shows the new file and nothing else has changed, also when the file was opened there at once |
| RedirStack.Shell.Redirect | src/redir.c:95-129 | a list of redirections up to the first that fails; nothing leaks, and undoing any number of frames gives what it gave before |
| RedirStack.Shell.PushRedir | src/redir.c:395-414 | a frame that has saved nothing |
| RedirStack.Shell.PopRedir | src/redir.c:288-314 | every descriptor that the frame saved is back, or kept as it is when `drop`, and in both cases no saved copy is left |
| RedirStack.Shell.UnwindRedir | src/redir.c:387-392 | the same for all frames above one |
| RedirEval.EvalRedirected | src/eval.c:245-255 | a compound command with redirections |
| RedirEval.EvalBuiltin | src/eval.c:761-897 | a builtin with redirections, which may fail before it, in it or behind it, and catch its errors or not |
| RedirEval.EvalExec | src/eval.c:869-896 | `exec` keeps its redirections, unless one failed and the error is fatal |
| RedirEval.Eval | src/eval.c:207-329 | any nesting of commands with redirections means the scopes it should, also with frames left behind by an error |
| RedirEval.Toplevel | src/redir.c:324-329 | behind any command no frame and no saved descriptor is left; without `exec` the whole descriptor table is as it was |
| RedirLaws.FileOpens | src/redir.c:132-181 | behind `fd>file` this descriptor is the file that was opened, and no other has changed |
| RedirLaws.HereOpens | src/redir.c:193-196 | behind a here-document it is the end of the pipe to read from |
| RedirLaws.CopyOpens | src/redir.c:182-187 | behind `fd>&n` both show the same; one that is not open cannot be copied |
| RedirLaws.CloseCloses | src/redir.c:182-187 | `fd>&-` closes one descriptor |
| RedirLaws.LeftToRight | src/redir.c:95-129 | `>file 2>&1` and `2>&1 >file`, for any two descriptors |
| RedirLaws.FailureSkips | src/eval.c:245-255 | when a redirection fails nothing changes and the command is not run; the error is raised exactly for special builtins |
| RedirLaws.BodySees | src/eval.c:245-255 | a command sees its redirections, and only those are undone behind it |
| RedirLaws.InnerExecUndone | src/redir.c:288-314 | an `exec` inside a redirection of the same descriptor is undone with it |
| Control.AlwaysPending | src/eval.c:1052-1059 | a `break` or `continue` on its way out always has 1 to `depth` loops to leave, and none at a function or at the top |
| Control.BreakLeaves | src/eval.c:1042-1061 | `break n` leaves exactly n loops of any kind, or all there are, and nothing behind it in them is run |
| Control.BreakPasses | src/eval.c:284-291 | a `break` on its way passes through lists and `if`, and ends one loop |
| Control.MoreFuel | src/eval.c:362-391 | a command that ends does the same with more fuel |
| Control.CallContains | src/eval.c:962-979 | a function call has the same outcome inside any number of loops, and never ends in a `break`, `continue` or `return` on its way |
| ControlLaws.SkipInFunction | src/eval.c:962-979 | with `f() { break k; }` or `continue k`, `for i in ...; do f; done` assigns every word, in any number of loops |
| ControlLaws.ContinueRuns | src/eval.c:395-423 | `for i in ...; do continue; rest; done` assigns every word and never runs the rest |
| ControlLaws.ContinueTwo | src/eval.c:338-423 | `continue 2` goes on with the next word of the outer loop, and nothing behind it in either is run |
| ControlLaws.SkipOutside | src/eval.c:1042-1061 | outside all loops `break` and `continue` do nothing |
| ControlLaws.SkipNumber | src/eval.c:1042-1061 | a number that is not positive is an error |
| ControlLaws.ReturnLeaves | src/eval.c:950-988 | `return` leaves all loops of its function and nothing else: the command behind the call is run |
| ControlLaws.ReadCommands | src/eval.c:163-198 | a file read by `.` ends a `return`, `eval` does not, and a `break` leaves the loops around both |
| ControlLaws.LoopRuns | src/eval.c:362-391 | for any number of turns: `while` goes on while its test succeeds, `until` while it fails, and the status is that of the last body |
| ControlLaws.ListRuns | src/eval.c:278-293 | `&&`, `||` and `;` run the second command as they should, for every status |
| ControlLaws.IfRuns | src/eval.c:294-307 | `if` runs one branch by the status of its test |
| ControlLaws.NotRuns | src/eval.c:238-244 | `!` turns the status |
| ControlLaws.CaseRuns | src/eval.c:427-463 | the clause chosen runs, and those that it falls through to, for any number of clauses |
| ControlLaws.DefineThenCall | src/eval.c:308-313 | a call runs the body defined last |
| ControlLaws.RaiseEnds | src/eval.c:207-329 | an error leaves all loops, functions and lists |
| ControlFlags.Evaluator.SkipLoop | src/eval.c:338-359 | the flag and the counter at the end of a loop show what is left of the outcome |
| ControlFlags.Evaluator.BreakCmd | src/eval.c:1042-1061 | `break` and `continue`, with the number cut to the loops there are, and their error |
| ControlFlags.Evaluator.ReturnCmd | src/eval.c:1068-1090 | `return`, with and without a value |
| ControlFlags.Evaluator.LoopTree | src/eval.c:362-391 | `while` and `until` with flags and counters do what the outcomes mean |
| ControlFlags.Evaluator.ForTree | src/eval.c:395-423 | so does `for` |
| ControlFlags.Evaluator.CaseTree | src/eval.c:427-463 | so does `case`, with clauses that fall through |
| ControlFlags.Evaluator.CallFunction | src/eval.c:950-988 | a function starts outside all loops, ends a `return`, and gives the loops back; behind it nothing is to be skipped |
| ControlFlags.Evaluator.EvalString | src/eval.c:163-198 | commands read one after the other stop at the first that something is to be skipped behind |
| ControlFlags.Evaluator.EvalTree | src/eval.c:207-329 | for every command, state and fuel, the evaluator with its flags refines the meaning by outcomes |
| ControlFlags.Evaluator.TopLevel | src/main.c:254-264 | behind a command of the main loop nothing is left to skip and no loop is open |
| Arena.GrowGood | src/memalloc.c:210-246 | growing keeps the free space's contents at its start, makes more of it, and keeps the end where the sizes say |
| Arena.MakeSpaceGood | src/memalloc.c:278-294 | the room asked for is there, and so is the string |
| Arena.StepKeeps | src/memalloc.c:117-295 | no operation moves or changes what is below the floor |
| Arena.StallocTakes | src/memalloc.c:117-148 | what is taken is aligned, long enough, in the last block, and between the old and the new start of the free space, so it meets nothing taken before; a new block is used exactly if there is no room |
| Arena.MarkedRestores | src/memalloc.c:166-197 | whatever happens between setting a mark and popping it, nested marks included, the marked block stays, bytes below are unchanged, and the allocator ends as it began |
| Arena.Allocator.Alloc | src/memalloc.c:117-148 | aligned space at the old free space or in a new block |
| Arena.Allocator.Unalloc | src/memalloc.c:151-163 | giving back down to an aligned pointer into the last block |
| Arena.Allocator.GrowBlock | src/memalloc.c:210-246 | a block that nothing is taken from is moved, else the free space is copied to a new block |
| Arena.Allocator.MakeStrSpace | src/memalloc.c:278-294 | the loop that grows until there is room |
| Arena.Allocator.SetStackMark | src/memalloc.c:166-179 | the mark, and the guard that keeps its block in place |
| Arena.Allocator.PopStackMark | src/memalloc.c:182-197 | back to the block of the mark |
| Commands.SkipsRight | src/exec.c:384-404 | absolute entries in front of the remembered one need not be searched again, from any directory; the search may only stop one entry early, when PATH ends in a colon |
| Commands.SearchIsWhole | src/exec.c:393-446 | the search finds what searching every entry finds, exactly when PATH is not empty or cut short at a colon in its end while the command is in the current directory |
| Commands.CutShortHappens | src/exec.c:393-413 | PATH `bin:`, with the command in the current directory and no `bin/c` |
| Commands.AnswerIsFresh | src/exec.c:305-477 | a lookup that may use the table answers like one that may not, exactly when it is not the stale case |
| Commands.StaysConsistent | src/exec.c:305-477 | a lookup that is not stale leaves a table that gives right answers |
| Commands.RunIsFresh | src/exec.c:305-477 | in every run of lookups, cds, changes of PATH and FPATH and function definitions, all answers are fresh exactly when none is stale |
| Commands.NoColonIsFresh | src/exec.c:384-450 | which is so in every run whose PATH never ends in a colon |
| Commands.StaleHappens | src/exec.c:393-404 | a run of three steps with a wrong answer |
| Commands.FunctionStays | src/exec.c:667-677 | a function that has been defined is found behind any run of lookups, cds and changes of PATH and FPATH that does not redefine it |
| CommandLaws.FindsFirst | src/exec.c:393-446 | for every PATH given by its directories: what is neither function nor builtin is found in the first directory that has it as an executable file, by the number of the directory, unless PATH is cut short, and that is remembered |
| CommandLaws.FindsFunction | src/exec.c:393-450 | and else the first file of FPATH with its name defines the function, or it is an error |
| CommandLaws.FunctionFirst | src/exec.c:351-376 | a function comes before everything else |
| CommandLaws.BuiltinNext | src/exec.c:370-383 | a builtin comes next, and is found when functions are not wanted |
| CommandLaws.Remembers | src/exec.c:351-376 | an answer is given again without a look at the files |
| CommandLaws.OtherPath | src/exec.c:347-446 | a lookup on another path uses and leaves nothing in the table |
| CommandLaws.FreshIs | src/exec.c:305-477 | the answer that others are compared with depends on nothing in the table but functions |
| CommandLaws.ColonsEntries | src/exec.c:202-238 | PATH stands for the directories between its colons |
| Commands.Table.TryPath | src/exec.c:393-446 | the loop over PATH |
| Commands.Table.TryFpath | src/exec.c:393-450 | the loop over FPATH |
| Commands.Table.FindCommand | src/exec.c:305-477 | answer and table behind a lookup |
| Commands.Table.HashCd | src/exec.c:504-518 | behind a change of directory every remembered place is to be looked at again |
| Commands.Table.ChangePath | src/exec.c:527-559 | behind a change of PATH only functions are left |
| Aliases.NeverFreed | src/alias.c:60-84 | a text that is being read is allocated, and its alias is in use |
| Aliases.SetGood | src/alias.c:60-84 | redefining an alias, in use or not, keeps every alias flagged exactly while it has one user |
| Aliases.SetLoses | src/alias.c:60-84 | the old text is lost exactly when the alias is in use but no string is read from it any more |
| Aliases.LostForGood | src/alias.c:60-222 | a text that is lost stays allocated behind every run |
| Aliases.LossHappens | src/alias.c:60-84 | an alias redefined twice while its first text is read |
| Aliases.DefinedIs | src/alias.c:60-84 | an alias has the text it was defined with last, and no other alias changes |
| Aliases.ExpandedIs | src/parser.c:754-761 | a word that is an alias not in use is replaced by this text, and not again while that is read |
| Aliases.RemovedIs | src/alias.c:188-201 | an alias removed is gone at once, or when it is released |
| Aliases.TextStays | src/alias.c:60-222 | a text does not change while it is being read, whatever becomes of its alias |
| Aliases.RunGood | src/alias.c:60-222 | in every run, an alias is flagged exactly while one string is read from it or it waits to be released, and no text that is being read has been freed |
| Aliases.UnaliasGood | src/alias.c:188-201 | so does removing one |
| Aliases.PushGood | src/input.c:455-484 | so does starting to read one |
| Aliases.PopGood | src/input.c:486-518 | so does finishing one, which moves it to the done list |
| Aliases.EndUseFrees | src/alias.c:210-222 | behind `endaliasuse` the aliases that waited are free to be used, and the dead ones are gone |
| Aliases.Shell.SetAlias | src/alias.c:60-84 | `setalias`, never freeing a text that is being read |
| Aliases.Shell.UnaliasName | src/alias.c:88-103 | `unalias`, at once or when the alias is released |
| Aliases.Shell.PushString | src/input.c:455-484 | an alias is marked while it is read |
| Aliases.Shell.ExpandAlias | src/parser.c:754-761 | a word that is an alias not in use is replaced by its text |
| Aliases.Shell.PopItem | src/input.c:486-518 | a text that the alias no longer has is freed by its reader |
| Aliases.Shell.PopFile | src/input.c:617-632 | taking a file off releases all its strings |
| Aliases.Shell.EndAliasUse | src/alias.c:210-222 | the loop over the done list |
| Jobs.JobTable.SetCurJob | src/jobs.c:119-161 | the linked list holds the same jobs, with one moved to the front, behind all stopped jobs, or out |
| Jobs.JobTable.MakeJob | src/jobs.c:756-793 | a new job is the current one and runs; only a job that is done and waited for makes room |
| Jobs.JobTable.FreeJob | src/jobs.c:583-599 | a job leaves the list and the table |
| Jobs.JobTable.ForkParent | src/jobs.c:892-920 | a process more, and a background job goes behind the stopped ones; the table keeps fitting exactly if the job still ran |
| Jobs.ForkFits | src/jobs.c:912-915 | another process leaves the state of a job right exactly when the job still runs |
| Jobs.JobTable.RestartJob | src/jobs.c:404-431 | what was stopped runs, unless the job is done |
| Jobs.Visit | src/jobs.c:1030-1047 | the loop over the processes finds the one, and the state that the job then has |
| Jobs.JobTable.DoWait | src/jobs.c:1009-1070 | the job that has the process gets its new state, a job that stops becomes the current one, and no other job changes |
| Jobs.Run | src/jobs.c:404-1070 | in every run of pipelines started, processes that stop or end, jobs that go on and jobs freed, the list names exactly the jobs in use and each has the state of its processes |
| Jobs.GetStatus | src/jobs.c:1466-1497 | with pipefail the rightmost value that is not zero, else that of the last process |
| Jobs.StatusOfTwo | src/jobs.c:1466-1497 | exit codes as they are, signals from 128 on, with and without pipefail |
| Jobs.StateIs | src/jobs.c:1030-1047 | one running process makes a job run, else one stopped process makes it stopped, and an ended one does not matter |
| Jobs.TellsOne | src/jobs.c:1030-1047 | what is known of a process is what the last wait event for it said |
| Jobs.ReorderedIs | src/jobs.c:119-161 | a job that stops is first, one that runs right behind the stopped ones, and one that goes in the list no more; the others keep their order |
| Cd.UpdatePwd | src/cd.c:215-289 | the loop gives the fold of the components that drops `.` and takes back on `..`, from one slash or two, and never needs more bytes than were set aside |
| Cd.TakeBack | src/cd.c:267-274 | the inner loop takes back exactly one component, and of the root at most one of two slashes |
| Cd.MovedCanonical | src/cd.c:215-289 | the new name is canonical |
| Cd.CanonicalStays | src/cd.c:215-289 | a canonical name leads to itself, from anywhere |
| Cd.ShortenedLeads | src/cd.c:186-193 | the shorter name that is passed to chdir leads to the same place, exactly unless the directory is `/` and the name begins with two slashes |
| Cd.ShortenedMisleads | src/cd.c:186-193 | from `/`, `//x` is left for `/x` |
| Cd.RelativeLeads | src/cd.c:222-230 | a relative operand leads where the name from the root leads, exactly unless the directory begins with two slashes and `..` leaves its last name, or both are errors |
| Cd.SlashIsLost | src/cd.c:267-273 | `..` from `//a` is `/`, where `//a/..` is `//` |
| CdLaws.NameEnters | src/cd.c:255-289 | a name leads into the directory of that name, and `.` nowhere |
| CdLaws.DotsLeave | src/cd.c:259-276 | `..` leads to the directory around, if the current one is there; at the top one of two slashes is lost |
| CdLaws.ThereAndBack | src/cd.c:255-289 | entering and leaving leads back |
| CdLaws.StepByStep | src/cd.c:255-289 | a path is followed one part after the other |
| CdLaws.DotFirst | src/cd.c:275-276 | `./` in front of a path changes nothing |
| CdLaws.SlashesAreOne | src/cd.c:255-289 | several slashes inside a path are one |
| CdLaws.AbsoluteAnywhere | src/cd.c:233-250 | an absolute path leads to the same place from everywhere, and exactly two slashes in front are kept |

## Left out

- Locale and multibyte code, tab completion and line editing.
- Number parsing by the C library is written out as a function, `ArithLexer.Number`; the texts of variables as numbers are given.
- ArithLexer.TextMeaning: the evaluator takes its tokens from a list and not one by one from the text, so for a text with several errors it does not say which is reported.
- Glob.PMatch: patterns whose brackets run past their end are outside its precondition; walking directories is file-system work.
- Input.ParseFile.Pgetc: a newline behind a run of backslashes is modelled as the code has it, but the claim of equality leaves it out; the history for looking back is not carried over the end of a pushed string, and the counter of levels does not overflow.
- Words.WordLoop: double quotes, `$` outside `$'`, backquotes and here-documents are left to other branches of the tokenizer; whether a word is a keyword or an alias is found by what reads it.
- Quote.ShellQuote: the string is built as a value, not in stack space.
- Fields.IfsBreakup: one region that is split, no region that is split at NUL only, and no NUL outside the region; fields are values, not ends written into the text.
- Recording regions of an expansion.
- VarStack.Shell.SetVarEq: hash chains are a map; callbacks of special variables, LINENO and texts on the stack are not modelled, and the text that `setvar` allocates is allocated where it is stored.
- VarStack.Shell.MkLocal: the options that `local -` saves are not modelled.
- VarEval.Eval: once the scopes are broken a run is not followed any further; behind a record without its variable, `poplocalvars` reads memory that no one has set.
- RedirStack.Shell.Install: duplicating an open descriptor to one below 10 does not fail; a here-document too long for a pipe is written by a child whose work is not modelled.
- RedirEval.EvalBuiltin: commands are seen only as far as they change descriptors; subshells have tables of their own.
- ControlFlags.Evaluator.EvalTree: statuses of programs and the choice of a `case` clause are inputs; traps, `set -e`, pipelines and subshells are left out, and fuel bounds loops and calls (`Control.MoreFuel` says that it matters to nothing that ends).
- Arena.Allocator.Unalloc: pointers given back are aligned, as all pointers from `stalloc` are; sizes do not overflow and memory does not run out.
- Commands.Table.FindCommand: type and place of a command only; the error number for the message may differ when entries are skipped, and checking names with a slash is left out. Files do not change, and a file read for a function defines that function or none.
- Aliases.Shell.SetAlias: termination of expansion is not claimed.
- Jobs.JobTable.MakeJob: jobs inherited by a subshell, terminals, signals and messages are left out.
- Jobs.JobTable.DoWait: every job in the list has a process, as it has when nothing is waited for before the first fork.
- Cd.UpdatePwd: which directories exist is given, and the current directory is canonical when it is used.
- `printf`, `test`, `ulimit`, `umask`, option tables and other finite tables: they would only add easy members.
