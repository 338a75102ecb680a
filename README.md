# PSeInt to JavaScript, modelled in Dafny

This project models the core of a teaching tool written in TypeScript. The
tool reads PSeInt pseudocode (Spanish keywords: `Algoritmo`, `Definir`, `Leer`,
`Escribir`, `Si … Entonces`, `Mientras … Hacer`, `Para … Hasta … Hacer`,
`Repetir … Hasta Que`, `Funcion … FinFuncion`) and produces three things:

* JavaScript source, together with errors and warnings;
* a flowchart as a list of placed, linked nodes;
* integer statistics of a vector.

The model follows the source file by file:

| file | module | form |
|---|---|---|
| `text.dfy` | `Text` | The string primitives the source gets from JavaScript: case folding, `\s`, `\w`, `trim`, `split`, `indexOf`, first and global `replace` of a literal, and decimal printing. |
| `helpers.dfy` | `Helpers` | `getIndent` and `replaceBooleans`. |
| `expressions.dfy` | `Expressions` | `convertCondition` and `convertExpression`. Each regular expression is written out as a left-to-right scan. |
| `statements.dfy` | `Statements` | `convertDefinir`, `convertDimension`, `convertLeer`, `convertEscribir` and `convertAsignacion`. The `declaredVars` set the source mutates is the class `DeclaredVars`. Each converter is a method that updates it and is proved equal to a pure function returning `Emitted(text, declared)`. |
| `structures.dfy` | `Structures` | `convertSi`, `convertMientras`, `convertPara` and `convertFuncion`, which are pure. |
| `converter.dfy` | `Converter` | `convertLine` and the two passes `convertAlgorithm` and `convertFunctions`. These are methods with loops over a `DeclaredVars` and a `WarningLog` (the `warnings` array). Each is proved equal to a fold (`MainPass`, `FuncPass`) over one-line step functions. |
| `index.dfy` | `Entry` | `convertPseintToJS` and the `ErrorDetail` / `ConversionResult` records. `LineResult` lives in `Converter`. |
| `flowchart.dfy` | `Flowchart` | `generateFlowchart`, a loop that pushes nodes and links the previous node to each new one. It is proved equal to `Chart`, a closed-form description of the nodes. |
| `vector.dfy` | `VectorStats` | The integer statistics of `vectorProcessor.ts`. Each is a loop proved against `Sum`, `Count` and `SumWhere`. |

Deliberate simplifications:

* Letter case is folded for ASCII only, which is exact for the all-ASCII patterns and keywords of the source.
* Keyword tests such as `lineLower.startsWith('leer')` compare the line character by character under that folding. `Text.StartsWithLower` and `Text.EqualsLower` show that this agrees with lower-casing first.

## Model

| member | source | states |
|---|---|---|
| Helpers.GetIndent | src/utils/pseint/helpers.ts:15-18 | A negative level gives no indentation; otherwise exactly two blanks per level, and nothing but blanks. |
| Helpers.ReplaceBooleansLeavesNoLiteral | src/utils/pseint/helpers.ts:6-10 | After the substitution no `verdadero` and no `falso` remains, in any letter case. |
| Helpers.ReplaceBooleansIdempotent | src/utils/pseint/helpers.ts:6-10 | Applying the substitution twice gives the same text as applying it once. |
| Helpers.ReplaceBooleansInsideWord | src/utils/pseint/helpers.ts:8-9 | The substitution has no word boundary: for every text `w`, `w + "falso"` becomes the rewrite of `w` followed by `false`, so the tail of an identifier such as `esFalso` is replaced. |
| Expressions.ReplaceWordNoMatch | src/utils/pseint/expressions.ts:16-18 | A whole-word rewrite changes nothing where the word never stands alone. |
| Expressions.ReplaceWordUpTo | src/utils/pseint/expressions.ts:16-18 | Text before the first whole-word occurrence is copied, and the replacement follows it. |
| Expressions.StandaloneWordReplaced | src/utils/pseint/expressions.ts:16-25 | A word (`MOD`, `Y`, `O`, `NO`) that stands alone once is replaced there, and the text around it is kept. |
| Expressions.PromoteEqualsKeepsOperators | src/utils/pseint/expressions.ts:22 | Text whose every `=` is part of `<=`, `>=`, `!=`, `==` or sits at an end comes out of the `=` promotion unchanged. |
| Expressions.PromoteEqualsOnlyAddsEquals | src/utils/pseint/expressions.ts:22 | The promotion only inserts `=` signs: with every `=` removed, input and output agree, and the output is never shorter. |
| Expressions.WithoutEqualsAppend | src/utils/pseint/expressions.ts:22 | Removing `=` signs distributes over concatenation. |
| Expressions.LazyGroupEnd | src/utils/pseint/expressions.ts:50 | The lazy group of `azar(…)` ends before a `\s*)`, without crossing a line terminator. |
| Expressions.AzarGroup | src/utils/pseint/expressions.ts:50 | The group found lies after the opening parenthesis and is followed by the closing one. |
| Expressions.AzarAt | src/utils/pseint/expressions.ts:50 | A match of `azar(…)` at `i` has its group and its end strictly inside the text, in order. |
| Expressions.AzarGroupEnds | src/utils/pseint/expressions.ts:50 | For `azar(e)`, with `e` free of `)` and line breaks, the lazy group ends exactly where `e` ends. |
| Expressions.AzarMatch | src/utils/pseint/expressions.ts:50 | `azar(e)` matches at 0, with `e` as its group and the match ending after `)`. |
| Expressions.AzarRewritten | src/utils/pseint/expressions.ts:50 | `azar(e)` becomes `Math.floor(Math.random() * (e))`. |
| Expressions.RewriteAzarNoMatch | src/utils/pseint/expressions.ts:50 | Text without `azar` is left unchanged by that step. |
| Expressions.ExpressionLeavesNoCaret | src/utils/pseint/expressions.ts:53 | No `^` survives `convertExpression`: every one became `**`. |
| Expressions.LaterRewritesKeep | src/utils/pseint/expressions.ts:42-53 | Text without `o`, `n`, `v`, `f`, `a` and `^` passes every step after `Y` unchanged. |
| Expressions.LoneYReplaced | src/utils/pseint/expressions.ts:38-41 | In `x + y` no `MOD` is found, and the lone `y` is rewritten to `&&`. |
| Expressions.LoneYBecomesAnd | src/utils/pseint/expressions.ts:34-56 | A variable named `y` is taken for the conjunction: `x + y` becomes `x + &&`. |
| Expressions.WordAbsent | src/utils/pseint/expressions.ts:38-47 | A whole-word rewrite whose first letter never occurs changes nothing. |
| Expressions.ConditionWordsKeep | src/utils/pseint/expressions.ts:13-18 | Text with no `verdadero` or `falso` in any letter case and no standalone `y`, `o` or `no` passes the boolean and logical steps of a condition unchanged. |
| Expressions.LoneEqualsPromoted | src/utils/pseint/expressions.ts:22 | For every text whose only `=` stands inside it, not after `!`, `<` or `>`: that `=` becomes `==`, and the text on either side is kept. |
| Expressions.NotEqualKept | src/utils/pseint/expressions.ts:21-22 | For every text without `=`: the `!=` signs made from `<>` are left alone by the `=` promotion. |
| Expressions.NotEqualSameWords | src/utils/pseint/expressions.ts:21 | The `<>` step keeps the length and every word character in place: only symbols become other symbols. |
| Expressions.ConditionNotEqual | src/utils/pseint/expressions.ts:9-28 | For every condition without `=`, without `verdadero`/`falso` anywhere and without standalone `y`, `o`, `no`, `mod` (so `n <> 0` and `contador <> limite` qualify): `convertCondition` only turns each `<>` into `!=`, and no `<>` is left. |
| Expressions.ConditionEquals | src/utils/pseint/expressions.ts:9-28 | For every condition without `<>` whose only `=` is a lone comparison, under the same word conditions (so `contador = 5` qualifies): `convertCondition` doubles that `=` and changes nothing else. |
| Expressions.IdentifierWordsKept | src/utils/pseint/expressions.ts:38-47 | No whole-word rewrite touches a single identifier unless it is, in some letter case, `mod`, `y`, `o`, `no`, `verdadero` or `falso` itself. |
| Expressions.WholeWordOnly | src/utils/pseint/expressions.ts:38-47 | A `\b`-bounded rewrite of `w` changes a `\w+` token only when the token is `w`. |
| Expressions.IdentifierSymbolsKept | src/utils/pseint/expressions.ts:50-53 | The `azar(...)` and `^` rewrites leave every identifier unchanged. |
| Expressions.RewriteAzarNoParen | src/utils/pseint/expressions.ts:50 | Text without `(` holds no `azar(...)` call and is copied by that rewrite. |
| Expressions.IdentifierKept | src/utils/pseint/expressions.ts:34-56 | Every identifier other than the six rewritten words passes `convertExpression` unchanged. |
| Expressions.FalsoInsideIdentifier | src/utils/pseint/expressions.ts:34-56 | For every identifier `w`, `convertExpression` keeps `w + "falso"` while `replaceBooleans` turns its tail into `false`: only the expression rewrite respects word boundaries. |
| Structures.SpelledAt | src/utils/pseint/structures.ts:10 | A keyword spelled in any case is found case-insensitively where it was written. |
| Structures.OpeningKeywordRemoved | src/utils/pseint/structures.ts:10 | Removing the first keyword of `Kw + rest` leaves `rest`. |
| Structures.ClosingKeywordRemoved | src/utils/pseint/structures.ts:10 | When the condition does not contain the closing keyword, the keyword at the end is the one removed. |
| Structures.StripKeywordsReadsBack | src/utils/pseint/structures.ts:10-24 | From `K1 cond K2`, the opening and closing keywords are removed and the trimmed condition is recovered. |
| Structures.SiBooleansOnce | src/utils/pseint/structures.ts:9-17 | `convertSi` emits `if (` + the converted condition + `) {`. The second boolean pass is a no-op. |
| Structures.SiReadsBack | src/utils/pseint/structures.ts:9-17 | `Si cond Entonces` gives `if (convertCondition(cond)) {`. |
| Structures.MientrasReadsBack | src/utils/pseint/structures.ts:22-27 | `Mientras cond Hacer` gives `while (convertCondition(cond)) {`. |
| Structures.SpacedKeyword | src/utils/pseint/structures.ts:40 | The keyword found after a run of blanks is matched there. |
| Structures.StepEnd | src/utils/pseint/structures.ts:40 | The lazy step group ends before a spaced `hacer`. |
| Structures.StepGroup | src/utils/pseint/structures.ts:40 | The step group lies in bounds and is followed by a spaced `hacer`. |
| Structures.StepClause | src/utils/pseint/structures.ts:40 | A `con paso` clause is followed by a spaced `hacer`. |
| Structures.ParaTail | src/utils/pseint/structures.ts:40 | The optional `con paso` clause is tried first; a step it captures is a non-empty span lying after `w` and inside the line. Otherwise the tail is `\s+hacer` alone. |
| Structures.FinEnd | src/utils/pseint/structures.ts:40 | The end group is followed by a matching tail. |
| Structures.FinGroup | src/utils/pseint/structures.ts:40 | The end group lies in bounds and is followed by a matching tail. |
| Structures.HastaClause | src/utils/pseint/structures.ts:40 | `hasta` is followed by an end group and a matching tail. |
| Structures.IniEnd | src/utils/pseint/structures.ts:40 | The start group ends before a matching `hasta` clause. |
| Structures.IniGroup | src/utils/pseint/structures.ts:40 | The start group lies in bounds and is followed by a matching `hasta` clause. |
| Structures.AssignArrow | src/utils/pseint/structures.ts:40 | `<-` or `=` after the loop variable is consumed within the text. |
| Structures.ParaHead | src/utils/pseint/structures.ts:40 | The `para\s+(\w+)\s*(?:<-\|=)` head: a non-empty variable after `para` and a blank, then the arrow, all in bounds. |
| Structures.ParaTailNeedsHacer | src/utils/pseint/structures.ts:40 | Both tails end in `\s+hacer`, so neither matches without a `hacer`. |
| Structures.ParaAtNeedsHacer | src/utils/pseint/structures.ts:39-41 | Without `hacer`, the `Para` pattern does not match at any position. |
| Structures.FirstParaNeedsHacer | src/utils/pseint/structures.ts:39-41 | Without `hacer`, the `Para` pattern does not match anywhere in the line. |
| Structures.ParaLayout | src/utils/pseint/structures.ts:39-41 | A header laid out as `Para v <- a Hasta b [Con Paso st] Hacer`, with values that hold no keyword ending them early, matches with exactly those captures. |
| Structures.ParaReadsBack | src/utils/pseint/structures.ts:39-55 | For every word `v` and one-line trimmed values `a` (no `hasta`) and `b` (no `con`, no `hacer`): `Para v <- a Hasta b Hacer` matches with captures `v`, `a`, `b` and no step, and converts to the `for` header of those parts with step `1`. |
| Structures.ParaStepReadsBack | src/utils/pseint/structures.ts:39-55 | The same with `Con Paso st` (`st` without `hacer`): the step `st` is captured and used in the header. |
| Structures.ForHeaderLetOnlyWhenNew | src/utils/pseint/structures.ts:53-55 | The declared set changes only one thing: `let ` appears before the loop variable exactly when it is undeclared. |
| Structures.ParaUnmatchedIsComment | src/utils/pseint/structures.ts:43-45 | A header the pattern rejects comes back starting with `//`. |
| Structures.ParaMatchedIsLoop | src/utils/pseint/structures.ts:47-55 | A header the pattern accepts, as every header of `ParaReadsBack` is, never comes back starting with `//`. |
| Structures.ParaStepDefaultsToOne | src/utils/pseint/structures.ts:51 | A header without `Con Paso` steps by `1`. |
| Structures.ParaCommentIffNoMatch | src/utils/pseint/structures.ts:43-45 | The result starts with `//` exactly when the pattern failed, whatever the declared set. |
| Structures.ParaNeedsHacer | src/utils/pseint/structures.ts:43-45 | A header without `hacer` yields `// Para no convertido: line`. |
| Structures.CloseParen | src/utils/pseint/structures.ts:63 | The lazy parameter group ends at a `)`. |
| Structures.ColonReturn | src/utils/pseint/structures.ts:70 | The `: ret` part of the second format is matched in bounds. |
| Structures.ColonParams | src/utils/pseint/structures.ts:70 | The parameters of the second format end before the colon part. |
| Structures.TightArrowIsArrow | src/utils/pseint/structures.ts:63-77 | Wherever format 3 matches, format 1 matches with the same captures. |
| Structures.TightArrowUnreachable | src/utils/pseint/structures.ts:63-81 | Whenever format 3 would match somewhere, format 1 already matches: format 3 is dead. |
| Structures.FuncionTwoFormats | src/utils/pseint/structures.ts:61-84 | `convertFuncion` is decided by formats 1 and 2 alone, then the `// Función no convertida` fallback. |
| Structures.FuncionArrowReadsBack | src/utils/pseint/structures.ts:61-67 | For all words `r`, `f` and parameters `p` without `)` or line break: `Funcion r <- f(p)` gives `function f(p) {` and `let r;`. |
| Structures.FuncionColonReadsBack | src/utils/pseint/structures.ts:61-74 | For the same `r`, `f` and `p`, when `p` also holds no `<`: `Funcion f(p): r` gives the same header through format 2. |
| Statements.DeclaredVars.constructor | src/utils/pseint/converter.ts:140 | A new set is empty. |
| Statements.DeclaredVars.Add | src/utils/pseint/statements.ts:18 | Adds one name and nothing else. |
| Statements.DeclaredVars.Clear | src/utils/pseint/converter.ts:205 | Empties the set. |
| Statements.BeforeComo | src/utils/pseint/statements.ts:10 | The part before `Como` is a prefix of the line. |
| Statements.Undeclared | src/utils/pseint/statements.ts:15 | Keeps exactly the listed names that are not declared. |
| Statements.Dedup | src/utils/pseint/statements.ts:21 | Holds no duplicate, and exactly the names of the list not already seen. |
| Statements.DefinirDeclaresOnlyNew | src/utils/pseint/statements.ts:9-22 | Names in `let` are distinct and exactly the undeclared ones. All listed names become declared. The text is empty iff every name was already declared. |
| Statements.DefinirTwice | src/utils/pseint/statements.ts:15-21 | Repeating a `Definir` line emits nothing and declares nothing new. |
| Statements.ConvertDefinir | src/utils/pseint/statements.ts:9-22 | The method returns `Definir`'s text and leaves the set as `Definir` says. |
| Statements.DimensionAt | src/utils/pseint/statements.ts:30 | A match has a non-empty name and a non-empty size. |
| Statements.DimensionReadsBack | src/utils/pseint/statements.ts:30-39 | `Dimension name[size]` yields `let name = new Array(size);` and declares `name` if it was new, or `name = new Array(size);` if it was already declared. |
| Statements.ConvertDimension | src/utils/pseint/statements.ts:27-42 | The method agrees with `Dimension`; a non-matching line yields `// line` with the set unchanged. |
| Statements.LeerTargets | src/utils/pseint/statements.ts:50 | A `Leer` line has at least one target, as `split` always returns one piece. |
| Statements.LastBracket | src/utils/pseint/statements.ts:57 | Finds the last `]` in range, where the greedy `.+` gives back to `\]`; none means no `]` there. |
| Statements.IndexedAt | src/utils/pseint/statements.ts:57 | An indexed target has a word name and a non-empty index. |
| Statements.LeerEachFrom | src/utils/pseint/statements.ts:69-75 | One prompt line per target. |
| Statements.LeerEachFromFirstUse | src/utils/pseint/statements.ts:69-75 | Every target becomes declared. The k-th prompt carries `let` exactly when that target was neither declared before nor listed earlier. |
| Statements.LeerEachDeclaresFirstUse | src/utils/pseint/statements.ts:68-76 | The same for the whole multi-target `Leer`. |
| Statements.LeerSingleNeverDeclares | src/utils/pseint/statements.ts:63-67 | With one plain target, the text does not depend on the declared set (the computed `let` is unused), yet the name is added. |
| Statements.LeerIndexedDeclaresNothing | src/utils/pseint/statements.ts:57-61 | A single `a[i]` target leaves the declared set unchanged. |
| Statements.ConvertLeer | src/utils/pseint/statements.ts:47-77 | The method agrees with `Leer`. |
| Statements.PromptEach | src/utils/pseint/statements.ts:69-75 | The `map` loop yields the prompt lines of `LeerEach` and leaves the set as `LeerEach` says. |
| Statements.EscribirKeyword | src/utils/pseint/statements.ts:84 | Removing the first `escribir` of `Escribir args` leaves ` args`. |
| Statements.EscribirKeepsArguments | src/utils/pseint/statements.ts:82-86 | `Escribir args` gives `console.log(args);` with the argument text unchanged. |
| Statements.AsignacionDeclaresOnce | src/utils/pseint/statements.ts:102-109 | After one assignment to a plain target, a second assignment to it declares nothing new. |
| Statements.ArrowAfter | src/utils/pseint/statements.ts:97 | The first `<-` after arrow-free text is right after it. |
| Statements.PartsAfterArrow | src/utils/pseint/statements.ts:97 | `a <- t` splits into the trimmed `a` and `t`. |
| Statements.SecondArrowIgnored | src/utils/pseint/statements.ts:97 | Splitting on `<-` drops everything after a second arrow. |
| Statements.AsignacionDropsAfterSecondArrow | src/utils/pseint/statements.ts:92-112 | An assignment with a second arrow converts as if the text from that arrow on were absent. |
| Statements.ConvertAsignacion | src/utils/pseint/statements.ts:92-112 | The method agrees with `Asignacion`. |
| Converter.WarningLog.constructor | src/utils/pseint/index.ts:12 | A new log is empty. |
| Converter.WarningLog.Push | src/utils/pseint/converter.ts:48 | Appends one warning and changes nothing else. |
| Converter.Classify | src/utils/pseint/converter.ts:35-131 | The first-match dispatch of `convertLine`. The assignment branch is taken only for a line holding `<-`. |
| Converter.ParaBeforeArrow | src/utils/pseint/converter.ts:93-124 | A `para ` line is a loop header even though it contains `<-`. |
| Converter.SinoIsElse | src/utils/pseint/converter.ts:59-71 | `Sino` takes the else branch, not the `si ` branch. |
| Converter.Outdent | src/utils/pseint/converter.ts:67 | `max(0, level - 1)` is non-negative and at least `level - 1`. |
| Converter.HastaQueAt | src/utils/pseint/converter.ts:118 | A `hasta\s+que` match ends inside the text. |
| Converter.HastaQueReadsBack | src/utils/pseint/converter.ts:115-120 | For every trimmed condition `c`: `Hasta Que c` is classified as the close of a `Repetir`, its condition reads back as `c`, and the branch emits `} while (!(convertCondition(c)));` one level out. |
| Converter.HastaQueText | src/utils/pseint/converter.ts:118 | Removing `hasta\s+que` from `Hasta Que c` and trimming gives `c`. |
| Converter.HastaQueCode | src/utils/pseint/converter.ts:117-120 | Once the condition is known to be `c`, the branch emits `} while (!(convertCondition(c)));` at `max(0, level - 1)`. |
| Converter.HastaQueKind | src/utils/pseint/converter.ts:35-116 | A line opening with `Hasta Que` passes none of the earlier keyword tests. |
| Converter.StepLevelNonNegative | src/utils/pseint/converter.ts:32-131 | From a non-negative level, every branch returns a non-negative level. |
| Converter.StepWarningsCite | src/utils/pseint/converter.ts:48-130 | A line pushes one warning exactly when it is a `Leer`, unrecognised, or a failed `Para`, and none otherwise. Each warning starts with `Línea n:` for its own line. |
| Converter.StepDeclaresOnly | src/utils/pseint/converter.ts:35-127 | The declared set only grows. Only `Definir`, `Dimension`, `Leer` and assignment lines change it; a `Para` header never does. |
| Converter.ConvertLine | src/utils/pseint/converter.ts:23-132 | Code, new level, new declared set and new warnings are those of the classified branch. The level is unchanged for statements, +1 for openers, `max(0, level-1)` for closers, and that plus 1 for `Sino`. |
| Converter.ConvertBranch | src/utils/pseint/converter.ts:35-131 | Each branch agrees with the step functions for its kind. |
| Converter.DefinirBranch | src/utils/pseint/converter.ts:35-38 | The `Definir` branch agrees with the step functions. |
| Converter.DimensionBranch | src/utils/pseint/converter.ts:41-44 | The `Dimension` branch agrees with the step functions. |
| Converter.LeerBranch | src/utils/pseint/converter.ts:47-50 | The `Leer` branch pushes its warning and agrees with the step functions. |
| Converter.AssignBranch | src/utils/pseint/converter.ts:124-127 | The assignment branch agrees with the step functions. |
| Converter.ParaBranch | src/utils/pseint/converter.ts:93-100 | The `Para` branch agrees with the step functions. |
| Converter.ParaStepCode | src/utils/pseint/converter.ts:94-99 | The `Para` branch emits the indented `convertPara` result. |
| Converter.ParaStepState | src/utils/pseint/converter.ts:93-100 | The `Para` branch opens a level, even when the header failed. It declares nothing and warns exactly when the pattern failed. |
| Converter.ParaHeader | src/utils/pseint/converter.ts:94-99 | Emits the header one level in, warning exactly when the pattern failed. |
| Converter.UnknownBranch | src/utils/pseint/converter.ts:130-131 | An unrecognised line is emitted as `// line` with one warning citing `lineNumber+1`. |
| Converter.LayoutBranch | src/utils/pseint/converter.ts:53-121 | The layout branches agree with the step functions. |
| Converter.NextSpace | src/utils/pseint/converter.ts:155 | The end of a non-blank run. |
| Converter.AlgorithmNameReadsBack | src/utils/pseint/converter.ts:155 | `Algoritmo Name` is named `Name`; a bare `Algoritmo` is named `programa`. |
| Converter.NextSpaceRun | src/utils/pseint/converter.ts:155 | A non-blank run that stops at `j` ends at `j`. |
| Converter.MainLineLevel | src/utils/pseint/converter.ts:143-173 | One main-pass line keeps the level non-negative. |
| Converter.MainLineGrows | src/utils/pseint/converter.ts:143-173 | One main-pass line only adds declared names. |
| Converter.MainPrefixLevel | src/utils/pseint/converter.ts:137-176 | The level never goes negative over the main pass. |
| Converter.MainPrefixGrows | src/utils/pseint/converter.ts:137-176 | The declared set only grows from line to line. |
| Converter.MainWarningsCount | src/utils/pseint/converter.ts:170 | One warning per warning line, each citing one of the pass's own lines. |
| Converter.MainStep | src/utils/pseint/converter.ts:143-173 | One turn of the main loop moves code, level, declared set and warnings to those of the fold over one more line. |
| Converter.ConvertAlgorithm | src/utils/pseint/converter.ts:137-176 | The loop's code and warnings are those of the `MainPass` fold, with a fresh declared set. |
| Converter.AlgorithmLine | src/utils/pseint/converter.ts:144-172 | One iteration does what `MainLine` says. Comments and empty lines are copied. `Algoritmo` sets level 1 and emits the function header. `FinAlgoritmo` closes. Anything else goes to `convertLine`. |
| Converter.ArrowHeaderReturn | src/utils/pseint/converter.ts:208-210 | Where header format 1 matches, the return variable is its `retorno`. |
| Converter.FuncWarningsCite | src/utils/pseint/converter.ts:181-246 | Every warning of the functions pass cites one of that pass's own lines. |
| Converter.FuncLineWarnings | src/utils/pseint/converter.ts:188-242 | One line adds only warnings that cite it. |
| Converter.OutsideFunctionIgnored | src/utils/pseint/converter.ts:237 | Outside a function, a line that is not a header or `FinFuncion` changes nothing. |
| Converter.FunctionScopes | src/utils/pseint/converter.ts:195-235 | A header enters a function at level 1 with a fresh set holding at most its return variable. `FinFuncion` emits `return ret;` before `}`, leaves the function and clears the return variable. |
| Converter.OpenFunction | src/utils/pseint/converter.ts:195-222 | Converts the header, warns iff it became a comment, and leaves only the return variable declared. |
| Converter.ConvertFunctions | src/utils/pseint/converter.ts:181-246 | The loop's code and warnings are those of the `FuncPass` fold. |
| Entry.ClosesWhenTrimmed | src/utils/pseint/index.ts:22-48 | On a trimmed line, the `trim() === 'finalgoritmo'` check and the `=== 'finalgoritmo'` cut agree. |
| Entry.FirstIndex | src/utils/pseint/index.ts:48 | The first index whose line satisfies the test; none iff no line does. |
| Entry.AnyIffFound | src/utils/pseint/index.ts:21-70 | `some` holds exactly when `find` finds a line. |
| Entry.Any | src/utils/pseint/index.ts:21-24 | The loop answers `some`. |
| Entry.FindIndex | src/utils/pseint/index.ts:48 | `findIndex`: the first satisfying index, or -1 when there is none. |
| Entry.ConvertLines | src/utils/pseint/index.ts:18-82 | `success` iff there are no errors, iff an `Algoritmo` and a `FinAlgoritmo` line exist. There is at most one error, with one matching `structure` detail. |
| Entry.NoAlgorithmFails | src/utils/pseint/index.ts:26-35 | Without `Algoritmo`: failure, empty code, no warnings, and one `structure` error at line 0. |
| Entry.PartitionAtFirstFin | src/utils/pseint/index.ts:48-50 | Main part + function part is the input. The main part ends with the first `FinAlgoritmo` and holds no earlier one. Without one, main is everything. |
| Entry.MarkerIffCut | src/utils/pseint/index.ts:22-48 | On the trimmed lines, the marker check and the cut see the same lines. |
| Entry.MissingFinStillConverts | src/utils/pseint/index.ts:37-50 | A missing `FinAlgoritmo` gives one `structure` error at the last line. Conversion continues on all lines, with no function part. |
| Entry.OutputOrder | src/utils/pseint/index.ts:53-74 | The code is the banner, then the functions, then the main pass, then the call of the first `Algoritmo` line's name. |
| Entry.WarningsByPart | src/utils/pseint/index.ts:57-66 | Warnings from the functions come first, then those from the main program. Each cites a line of its own part, numbered from 0 there. |
| Entry.SplitAtFin | src/utils/pseint/index.ts:48-50 | Cuts the lines into the main and function parts. |
| Entry.LaunchFor | src/utils/pseint/index.ts:70-74 | Builds the call for the first `Algoritmo` line. |
| Entry.EmitFunctions | src/utils/pseint/index.ts:56-63 | The function part adds `FunctionsCode` (the pass's code, and a newline when it is not empty) and pushes that pass's warnings. |
| Entry.EmitCode | src/utils/pseint/index.ts:53-74 | The code built and the warnings pushed are `Translation` and `PassWarnings`. |
| Entry.ConvertPseintToJS | src/utils/pseint/index.ts:10-98 | The method's result is `PseintToJS` of the input. |
| Entry.Convert | src/utils/pseint/index.ts:18-82 | The method's result is `ConvertLines` of the lines. |
| Entry.Convertible | src/utils/pseint/index.ts:37-82 | Once `Algoritmo` is known to be present, the result is `ConvertLines`. |
| Text.NonBlankLinesTrimmed | src/utils/pseint/index.ts:18 | Every line kept is trimmed and non-empty. |
| Text.Trim | src/utils/pseint/statements.ts:84 | `trim` never lengthens the text, and what it returns neither starts nor ends with `\s`. |
| Text.TrimIsSlice | src/utils/pseint/statements.ts:84 | `trim` returns a slice of its argument: only blanks are cut before and after it. |
| Text.TrimKeepsTrimmed | src/utils/pseint/statements.ts:84 | Text that neither starts nor ends with a blank is left alone. |
| Text.SkippedAreSpaces | src/utils/pseint/structures.ts:40 | Everything a greedy `\s*` passes over is blank. |
| Text.PassedAreWordChars | src/utils/pseint/structures.ts:40 | Everything a greedy `\w*` passes over is a word character. |
| Text.RemoveFirstAtStart | src/utils/pseint/statements.ts:84 | Removing a keyword found at the start leaves the rest of the line. |
| Text.StartsWithLower | src/utils/pseint/converter.ts:35 | Comparing case-folded characters agrees with `toLowerCase().startsWith`. |
| Text.EqualsLower | src/utils/pseint/converter.ts:66 | The same for `toLowerCase() ===`. |
| Text.ReplaceAllLeavesNone | src/utils/pseint/helpers.ts:8 | A global replace leaves no occurrence, as long as the replacement cannot create one. |
| Text.ReplaceAllSplit | src/utils/pseint/helpers.ts:8-9 | When no occurrence straddles the seam, a global replace on `a + b` is the replace on `a` followed by the replace on `b`. |
| Text.DecimalInjective | src/utils/flowchartGenerator.ts:29 | Distinct numbers print differently. |
| Flowchart.NodeIdsDistinct | src/utils/flowchartGenerator.ts:29 | `node-a` and `node-b` differ for a ≠ b. |
| Flowchart.Shapes | src/utils/flowchartGenerator.ts:46-209 | At most one node per line. |
| Flowchart.FindNode | src/utils/flowchartGenerator.ts:161 | `find` returns the first node with the id, or nothing iff there is none. |
| Flowchart.Link | src/utils/flowchartGenerator.ts:59-75 | Pushing a node and linking the previous one gives the chain one shape longer. |
| Flowchart.ChainGrows | src/utils/flowchartGenerator.ts:59-75 | A longer chain is the old one plus the new node, with only the old last node relinked. |
| Flowchart.Visit | src/utils/flowchartGenerator.ts:46-208 | One turn of the loop over the lines adds the line's node to the chain, if it draws one. Node counter, row and previous id move with it. |
| Flowchart.ChartOfSteps | src/utils/flowchartGenerator.ts:211-229 | Closing the chain of the drawn lines with `Fin` gives `Chart`, with height 100 below the last row. |
| Flowchart.BuildChart | src/utils/flowchartGenerator.ts:21-229 | The loop's nodes, width and height are those of `Chart`. |
| Flowchart.GenerateFlowchart | src/utils/flowchartGenerator.ts:20-230 | The result is `Chart` of the trimmed, non-blank lines. |
| Flowchart.ChainLaidOut | src/utils/flowchartGenerator.ts:24-229 | The chain of shapes puts node `k` at id `node-k`, x 400 and y `50+120k`, with its shape's kind and text, linked to the next node only. |
| Flowchart.ChartLayout | src/utils/flowchartGenerator.ts:24-229 | `Inicio` first at y 50, `Fin` last. Ids `node-k` and rows `50+120k` run in order on x 400. Each node links to the next only. Width 800, height 100 below the last row. |
| Flowchart.IdsUnique | src/utils/flowchartGenerator.ts:29 | No two nodes share an id. |
| Flowchart.LineAddsOneNode | src/utils/flowchartGenerator.ts:46-209 | A drawn line adds one node where `Fin` stood and moves `Fin` down a row (height +120). Any other line leaves the chart unchanged. |
| Flowchart.ChainInsert | src/utils/flowchartGenerator.ts:46-223 | Inserting before the last shape relinks only the node before it. |
| Flowchart.ShapesStep | src/utils/flowchartGenerator.ts:46-209 | The shapes of one more line extend the earlier ones. |
| Flowchart.IgnoredLines | src/utils/flowchartGenerator.ts:51-146 | `Algoritmo`, `FinAlgoritmo`, `Definir`, `Dimension`, `Sino` and `FinSi` draw nothing. |
| Flowchart.DrawnIffRecognised | src/utils/flowchartGenerator.ts:46-209 | A line is drawn exactly when one of the drawing branches recognises it. |
| Flowchart.ArrowLinesAreProcesses | src/utils/flowchartGenerator.ts:99-170 | A `Para` or `Funcion` line with `<-` becomes a process box with the first `<-` shown as `=`, not a loop. |
| Flowchart.InputLabel | src/utils/flowchartGenerator.ts:57-75 | A `Leer` line is an input box labelled `Leer ` + its trimmed targets. |
| Flowchart.OutputLabel | src/utils/flowchartGenerator.ts:78-96 | An `Escribir` line is an output box labelled `Escribir ` + its trimmed arguments. |
| Flowchart.DecisionLabel | src/utils/flowchartGenerator.ts:119-140 | A `Si` line without `<-` is a decision labelled with its condition, with branches `Sí` / `No`. |
| Flowchart.WhileLabel | src/utils/flowchartGenerator.ts:149-167 | A `Mientras` line without `<-` is a loop box labelled `Mientras ` + its condition. |
| Flowchart.KeywordLineOnly | src/utils/flowchartGenerator.ts:51-54 | A line starting with one drawing keyword is not skipped and starts with no other of them. |
| VectorStats.Count | src/utils/vectorProcessor.ts:96-149 | A count never exceeds the length. |
| VectorStats.FirstPos | src/utils/vectorProcessor.ts:152-170 | The first position of a value. |
| VectorStats.SumAppend | src/utils/vectorProcessor.ts:46-54 | The sum splits over concatenation. |
| VectorStats.CountComplement | src/utils/vectorProcessor.ts:96-116 | Two complementary tests count every element once: `positivos + negativos == |v|`. |
| VectorStats.SumComplement | src/utils/vectorProcessor.ts:96-116 | `sumaPositivos + sumaNegativos == calcularSuma(v)`. |
| VectorStats.CountExtremes | src/utils/vectorProcessor.ts:140-149 | A count is 0 iff no element passes, and `|v|` iff all do. |
| VectorStats.ParityPartition | src/utils/vectorProcessor.ts:119-137 | `pares + impares + ceros == |v|`. |
| VectorStats.ZerosOnlyInCeros | src/utils/vectorProcessor.ts:119-137 | `ceros` is the number of zeros, and zero is never even or odd here. |
| VectorStats.ValidateVector | src/utils/vectorProcessor.ts:34-43 | Valid iff the vector is non-empty. |
| VectorStats.CalcularSuma | src/utils/vectorProcessor.ts:46-54 | Returns the sum of all elements. |
| VectorStats.CalcularMaximoMinimo | src/utils/vectorProcessor.ts:71-93 | For a non-empty vector, the maximum and minimum bound every element and sit at `posMax` / `posMin`, the first such positions. Empty gives nothing. |
| VectorStats.ClasificarPositivosNegativos | src/utils/vectorProcessor.ts:96-116 | Counts and sums of the elements ≥ 0 and < 0, zero counted as positive. |
| VectorStats.ContarParImparCeros | src/utils/vectorProcessor.ts:119-137 | Counts of the non-zero even, non-zero odd and zero elements. |
| VectorStats.ContarEntre10y50 | src/utils/vectorProcessor.ts:140-149 | Counts the elements with 10 ≤ x ≤ 50. |
| VectorStats.CalcularModa | src/utils/vectorProcessor.ts:152-170 | `IsModa`: nothing iff no value occurs twice; otherwise a value of maximal frequency (≥ 2), ties going to the earliest first occurrence. |
| VectorStats.ModeOfTable | src/utils/vectorProcessor.ts:160-169 | The scan of the frequency table, read back on the vector, gives the mode properties above. |
| VectorStats.Frequencies | src/utils/vectorProcessor.ts:155-158 | The table maps each value of the vector to its multiplicity, with keys in order of first occurrence. |
| VectorStats.CountStep | src/utils/vectorProcessor.ts:157 | Counting one more element keeps every count right. |
| VectorStats.KeyStep | src/utils/vectorProcessor.ts:157 | A value seen for the first time goes to the end of the keys. |
| VectorStats.ProcesarVector | src/utils/vectorProcessor.ts:173-230 | Nothing exactly for the empty vector. Otherwise every field is what its own operation gives: the sum; the extremes at their first positions, bounding every element; positive and negative counts and sums (`Count`/`SumWhere`), the counts adding to the length and the sums to the total; even, odd and zero counts adding to the length, zeros being the multiplicity of 0; the 10 to 50 count; and `moda` satisfying `IsModa`. |

## Left out

- Unicode: letter case is folded for ASCII only, and strings are sequences of `char` rather than UTF-16 code units.
- The `catch` branch of `convertPseintToJS` (index.ts 84-97) is not modelled. No step of the model can fail on any input, so that branch is never reached.
- `getExampleConversion` (index.ts 104-118) runs the converter on a fixed program. It is not modelled as a member. Its `suma <- x + y` line is the subject of `Expressions.LoneYBecomesAnd`.
- Floating point: `calcularPromedio`, `promedioPositivos` and `promedioNegativos` divide sums, and the vector is modelled as integers only. JavaScript numbers are doubles, exact only up to 2^53; the model's sums are unbounded `int`, so it does not capture rounding of larger sums.
- Non-integer elements, and JavaScript's `%` on them, are not modelled.
- `generarVectorAleatorio` is not modelled because it uses randomness.
- The `console.log` calls of `validateVector` are not modelled (output only).
- The canvas drawing of flowchartGenerator.ts (`drawFlowchart` and its helpers) is not modelled, because it is graphics output.
- Regular expressions in general are not modelled. Only the fixed patterns of the source are written out.
- VectorStats.CalcularMaximoMinimo: on an empty vector the source yields `undefined` fields, and the model returns `None`.
- Statements.ConvertAsignacion: requires a line holding `<-`. Its only caller tests for that (converter.ts 124). Without an arrow, `right` would be `undefined` and `convertExpression(undefined)` would throw at `jsExpr.replace` (expressions.ts 38).
- Flowchart.ChartLayout, Flowchart.ChainLaidOut, Flowchart.ChartOfSteps and Structures.ParaStepDefaultsToOne follow from the definitions without further proof. They state the layout, the closing `Fin` node and the default step for the reader.
- Converter.StepWarningsCite: states the `Línea n:` prefix of each warning, not its full wording. The full texts are fixed by `ConvertLine` through `StepWarnings`.
- Structures.FuncionColonReadsBack: covers parameters without `<` only. Format 1 looks for `<-` anywhere in the line, so a `<-` inside the parameters could let it match first.
