/** The line-by-line translation (src/utils/pseint/converter.ts).

    `convertLine` dispatches one trimmed line on its lower-case prefix,
    updates the pass's declared set and pushes warnings onto a shared list.
    `convertAlgorithm` and `convertFunctions` run it over the main program
    and over the functions that follow it. The `Step` functions, `MainPrefix`
    and `FuncPrefix` state what those do; the methods do it on shared objects. */
module Converter {
  import opened Text
  import opened Helpers
  import opened Expressions
  import opened Statements
  import opened Structures

  /** The `warnings` array the passes push onto. */
  class WarningLog {
    var items: seq<string>

    constructor ()
      ensures items == []
    {
      items := [];
    }

    method Push(w: string)
      modifies this
      ensures items == old(items) + [w]
    {
      items := items + [w];
    }
  }

  datatype LineResult = LineResult(code: string, newIndentLevel: int)

  /** The branch of `convertLine` a line takes, in the order they are tested. */
  datatype LineKind =
    | DefinirLine | DimensionLine | LeerLine | EscribirLine
    | SiLine | SinoLine | FinSiLine
    | MientrasLine | FinMientrasLine
    | ParaLine | FinParaLine
    | RepetirLine | HastaQueLine
    | AssignLine | UnknownLine

  function Classify(line: string): (k: LineKind)
    ensures k == AssignLine ==> Contains(line, "<-")
  {
    if StartsWithCI(line, "definir") then DefinirLine
    else if StartsWithCI(line, "dimension") then DimensionLine
    else if StartsWithCI(line, "leer") then LeerLine
    else if StartsWithCI(line, "escribir") then EscribirLine
    else if StartsWithCI(line, "si ") then SiLine
    else if EqualsCI(line, "sino") then SinoLine
    else if EqualsCI(line, "finsi") then FinSiLine
    else if StartsWithCI(line, "mientras") then MientrasLine
    else if EqualsCI(line, "finmientras") then FinMientrasLine
    else if StartsWithCI(line, "para ") then ParaLine
    else if EqualsCI(line, "finpara") then FinParaLine
    else if EqualsCI(line, "repetir") then RepetirLine
    else if StartsWithCI(line, "hasta que") then HastaQueLine
    else if Contains(line, "<-") then AssignLine
    else UnknownLine
  }

  /** The keyword tests come before the arrow test: a `Para` header is a
      loop even though it holds `<-`. */
  lemma ParaBeforeArrow(line: string)
    requires StartsWithCI(line, "para ")
    ensures Classify(line) == ParaLine
  {
    KeywordsExclusive(line, "para ", "definir", 0);
    KeywordsExclusive(line, "para ", "dimension", 0);
    KeywordsExclusive(line, "para ", "leer", 0);
    KeywordsExclusive(line, "para ", "escribir", 0);
    KeywordsExclusive(line, "para ", "si ", 0);
    KeywordsExclusive(line, "para ", "sino", 0);
    KeywordsExclusive(line, "para ", "finsi", 0);
    KeywordsExclusive(line, "para ", "mientras", 0);
    KeywordsExclusive(line, "para ", "finmientras", 0);
  }

  /** `Sino` is not taken for an `if`: the `si ` test needs the blank. */
  lemma SinoIsElse(line: string)
    requires EqualsCI(line, "sino")
    ensures Classify(line) == SinoLine
  {
    KeywordsExclusive(line, "sino", "definir", 0);
    KeywordsExclusive(line, "sino", "dimension", 0);
    KeywordsExclusive(line, "sino", "leer", 0);
    KeywordsExclusive(line, "sino", "escribir", 1);
    KeywordsExclusive(line, "sino", "si ", 2);
  }

  /** `Math.max(0, level - 1)`. */
  function Outdent(level: int): (r: int)
    ensures r >= 0 && r >= level - 1
  {
    if level - 1 < 0 then 0 else level - 1
  }

  // ------------------------------------------------------------ warnings

  function LineTag(lineNumber: nat): string {
    "L\U{ED}nea " + Decimal(lineNumber + 1) + ":"
  }

  function LeerWarning(lineNumber: nat): string {
    LineTag(lineNumber) + " 'Leer' convertido a prompt()"
  }

  function ParaWarning(lineNumber: nat): string {
    LineTag(lineNumber) + " Estructura Para requiere revisi\U{F3}n manual"
  }

  function UnknownWarning(lineNumber: nat, line: string): string {
    LineTag(lineNumber) + " \"" + line + "\" - requiere revisi\U{F3}n manual"
  }

  function FunctionWarning(lineNumber: nat): string {
    "Funci\U{F3}n en l\U{ED}nea " + Decimal(lineNumber + 1) + ": No se pudo convertir completamente"
  }

  // ----------------------------------------------------------- Hasta que

  /** `hasta\s+que` (i) at `i`: where the match ends. */
  function HastaQueAt(s: string, i: nat): (r: Option<nat>)
    ensures r.Some? ==> i < r.value <= |s|
  {
    if !HasAtCI(s, i, "hasta") then None
    else
      var j := SkipSpaces(s, i + 5);
      if j > i + 5 && HasAtCI(s, j, "que") then Some(j + 3) else None
  }

  /** `line.replace(/hasta\s+que/i, '').trim()`. */
  function HastaQueCondition(s: string, i: nat): string
    requires i <= |s|
    decreases |s| - i
  {
    if i >= |s| then Trim(s)
    else match HastaQueAt(s, i)
      case Some(e) => Trim(s[..i] + s[e..])
      case None => HastaQueCondition(s, i + 1)
  }

  /** `Hasta Que c` reads back as the loop's closing condition `c`: the line
      is classified as the close of a `Repetir` block, which one level out
      emits `} while (!(c'));` for the converted condition `c'`. */
  lemma HastaQueReadsBack(c: string, level: int, declared: set<string>)
    requires Trimmed(c)
    ensures HastaQueCondition("Hasta Que " + c, 0) == c
    ensures Classify("Hasta Que " + c) == HastaQueLine
    ensures StepCode(HastaQueLine, "Hasta Que " + c, level, declared)
      == GetIndent(Outdent(level)) + "} while (!(" + ConvertCondition(c) + "));\n"
  {
    HastaQueText(c);
    HastaQueKind(c);
    HastaQueCode("Hasta Que " + c, c, level, declared);
  }

  /** The code of the `Hasta Que` branch, once its condition is known. */
  lemma HastaQueCode(line: string, c: string, level: int, declared: set<string>)
    requires HastaQueCondition(line, 0) == c
    ensures StepCode(HastaQueLine, line, level, declared)
      == GetIndent(Outdent(level)) + "} while (!(" + ConvertCondition(c) + "));\n"
  {
  }

  /** The condition after `Hasta Que`, trimmed. */
  lemma HastaQueText(c: string)
    requires Trimmed(c)
    ensures HastaQueCondition("Hasta Que " + c, 0) == c
  {
    var s := "Hasta Que " + c;
    assert HasAtCI(s, 0, "hasta");
    SkipSpacesRun(s, 5, 6);
    assert HasAtCI(s, 6, "que");
    assert HastaQueAt(s, 0) == Some(9);
    assert s[..0] + s[9..] == " " + c;
    TrimAfterBlank(c);
  }

  /** A line opening with `Hasta Que` starts with no other keyword. */
  lemma HastaQueKind(c: string)
    ensures Classify("Hasta Que " + c) == HastaQueLine
  {
    var s := "Hasta Que " + c;
    KeywordsExclusive(s, "hasta que", "definir", 0);
    KeywordsExclusive(s, "hasta que", "dimension", 0);
    KeywordsExclusive(s, "hasta que", "leer", 0);
    KeywordsExclusive(s, "hasta que", "escribir", 0);
    KeywordsExclusive(s, "hasta que", "si ", 0);
    KeywordsExclusive(s, "hasta que", "sino", 0);
    KeywordsExclusive(s, "hasta que", "finsi", 0);
    KeywordsExclusive(s, "hasta que", "mientras", 0);
    KeywordsExclusive(s, "hasta que", "finmientras", 0);
    KeywordsExclusive(s, "hasta que", "para ", 0);
    KeywordsExclusive(s, "hasta que", "finpara", 0);
    KeywordsExclusive(s, "hasta que", "repetir", 0);
  }

  // --------------------------------------------------------- convertLine

  predicate Opens(k: LineKind) {
    k == SiLine || k == MientrasLine || k == ParaLine || k == RepetirLine
  }

  predicate Closes(k: LineKind) {
    k == FinSiLine || k == FinMientrasLine || k == FinParaLine || k == HastaQueLine
  }

  /** A line of output: `getIndent(level) + text + '\n'`. */
  function Indented(level: int, text: string): string {
    GetIndent(level) + text + "\n"
  }

  /** The only fact about the line a branch relies on: an assignment line
      holds an arrow. `Classify` always yields a kind that fits its line. */
  predicate Fits(k: LineKind, line: string) {
    k == AssignLine ==> Contains(line, "<-")
  }

  /** The code `convertLine` returns from branch `k`. */
  function StepCode(k: LineKind, line: string, level: int, declared: set<string>): string
    requires Fits(k, line)
  {
    match k
    case DefinirLine => Indented(level, Definir(line, declared).text)
    case DimensionLine => Indented(level, Dimension(line, declared).text)
    case LeerLine => Leer(line, level, declared).text
    case EscribirLine => Indented(level, Escribir(line))
    case SiLine => Indented(level, ConvertSi(line))
    case SinoLine => Indented(Outdent(level), "} else {")
    case FinSiLine => Indented(Outdent(level), "}")
    case MientrasLine => Indented(level, ConvertMientras(line))
    case FinMientrasLine => Indented(Outdent(level), "}")
    case ParaLine => Indented(level, ConvertPara(line, declared))
    case FinParaLine => Indented(Outdent(level), "}")
    case RepetirLine => Indented(level, "do {")
    case HastaQueLine => Indented(Outdent(level), "} while (!(" + ConvertCondition(HastaQueCondition(line, 0)) + "));")
    case AssignLine => Indented(level, Asignacion(line, declared, false).text)
    case UnknownLine => Indented(level, "// " + line)
  }

  /** The `newIndentLevel` it returns: it depends only on the branch taken. */
  function StepLevel(k: LineKind, level: int): int {
    if Opens(k) then level + 1
    else if Closes(k) then Outdent(level)
    else if k == SinoLine then Outdent(level) + 1
    else level
  }

  /** The declared set after it. */
  function StepDeclared(k: LineKind, line: string, level: int, declared: set<string>): set<string>
    requires Fits(k, line)
  {
    match k
    case DefinirLine => Definir(line, declared).declared
    case DimensionLine => Dimension(line, declared).declared
    case LeerLine => Leer(line, level, declared).declared
    case AssignLine => Asignacion(line, declared, false).declared
    case _ => declared
  }

  /** The warnings it pushes. The source tests the converted `Para` header
      for its comment prefix; `ParaCommentIffNoMatch` shows that test is
      whether the header pattern failed, whatever the declared set. */
  function StepWarnings(k: LineKind, line: string, lineNumber: nat): seq<string> {
    match k
    case LeerLine => [LeerWarning(lineNumber)]
    case ParaLine => if MatchPara(line).None? then [ParaWarning(lineNumber)] else []
    case UnknownLine => [UnknownWarning(lineNumber, line)]
    case _ => []
  }

  /** A nesting level never goes below zero. */
  lemma StepLevelNonNegative(k: LineKind, level: int)
    requires level >= 0
    ensures StepLevel(k, level) >= 0
  {
  }

  /** Whether branch `k` pushes a warning for this line. */
  predicate WarnsOn(k: LineKind, line: string) {
    k == LeerLine || k == UnknownLine || (k == ParaLine && MatchPara(line).None?)
  }

  /** A line pushes at most one warning, exactly when `WarnsOn` holds, and
      the warning names the line by its 1-based number. */
  lemma StepWarningsCite(k: LineKind, line: string, lineNumber: nat)
    ensures |StepWarnings(k, line, lineNumber)| == if WarnsOn(k, line) then 1 else 0
    ensures forall w :: w in StepWarnings(k, line, lineNumber) ==> StartsWith(w, LineTag(lineNumber))
  {
    var tag := LineTag(lineNumber);
    var ws := StepWarnings(k, line, lineNumber);
    match k
    case LeerLine =>
      assert ws[0][..|tag|] == tag;
    case UnknownLine =>
      assert ws[0][..|tag|] == tag;
    case ParaLine =>
      if MatchPara(line).None? {
        assert ws[0][..|tag|] == tag;
      }
    case _ =>
  }

  /** Only declarations, reads and assignments add names; a `Para` header
      never declares its loop variable. */
  lemma StepDeclaresOnly(k: LineKind, line: string, level: int, declared: set<string>)
    requires Fits(k, line)
    ensures declared <= StepDeclared(k, line, level, declared)
    ensures StepDeclared(k, line, level, declared) != declared ==>
      k in {DefinirLine, DimensionLine, LeerLine, AssignLine}
  {
    match k
    case DefinirLine => DefinirDeclaresOnlyNew(line, declared);
    case LeerLine =>
      var targets := LeerTargets(line);
      if |targets| != 1 {
        LeerEachDeclaresFirstUse(targets, GetIndent(level), declared);
      }
    case _ =>
  }

  /** `convertLine`: the `if` chain on the lower-cased line picks the
      branch (`Classify`), and the branch runs on the shared objects. */
  method ConvertLine(line: string, level: int, vars: DeclaredVars, log: WarningLog, lineNumber: nat)
    returns (r: LineResult)
    modifies vars, log
    ensures r.code == StepCode(Classify(line), line, level, old(vars.names))
    ensures r.newIndentLevel == StepLevel(Classify(line), level)
    ensures vars.names == StepDeclared(Classify(line), line, level, old(vars.names))
    ensures log.items == old(log.items) + StepWarnings(Classify(line), line, lineNumber)
  {
    var kind := Classify(line);
    r := ConvertBranch(kind, line, level, vars, log, lineNumber);
  }

  /** One branch of `convertLine`. */
  method ConvertBranch(k: LineKind, line: string, level: int, vars: DeclaredVars, log: WarningLog,
                       lineNumber: nat) returns (r: LineResult)
    requires Fits(k, line)
    modifies vars, log
    ensures r.code == StepCode(k, line, level, old(vars.names))
    ensures r.newIndentLevel == StepLevel(k, level)
    ensures vars.names == StepDeclared(k, line, level, old(vars.names))
    ensures log.items == old(log.items) + StepWarnings(k, line, lineNumber)
  {
    match k {
      case DefinirLine => r := DefinirBranch(line, level, vars, log, lineNumber);
      case DimensionLine => r := DimensionBranch(line, level, vars, log, lineNumber);
      case LeerLine => r := LeerBranch(line, level, vars, log, lineNumber);
      case AssignLine => r := AssignBranch(line, level, vars, log, lineNumber);
      case ParaLine => r := ParaBranch(line, level, vars, log, lineNumber);
      case UnknownLine => r := UnknownBranch(line, level, vars, log, lineNumber);
      case _ =>
        r := LayoutBranch(k, line, level);
        assert log.items + StepWarnings(k, line, lineNumber) == log.items;
    }
  }

  /** The `Definir` branch. */
  method DefinirBranch(line: string, level: int, vars: DeclaredVars, log: WarningLog,
                  lineNumber: nat) returns (r: LineResult)
    modifies vars, log
    ensures r.code == StepCode(DefinirLine, line, level, old(vars.names))
    ensures r.newIndentLevel == StepLevel(DefinirLine, level)
    ensures vars.names == StepDeclared(DefinirLine, line, level, old(vars.names))
    ensures log.items == old(log.items) + StepWarnings(DefinirLine, line, lineNumber)
  {
    var converted := ConvertDefinir(line, vars);
    r := LineResult(Indented(level, converted), level);
    assert log.items + [] == log.items;
  }

  /** The `Dimension` branch. */
  method DimensionBranch(line: string, level: int, vars: DeclaredVars, log: WarningLog,
                  lineNumber: nat) returns (r: LineResult)
    modifies vars, log
    ensures r.code == StepCode(DimensionLine, line, level, old(vars.names))
    ensures r.newIndentLevel == StepLevel(DimensionLine, level)
    ensures vars.names == StepDeclared(DimensionLine, line, level, old(vars.names))
    ensures log.items == old(log.items) + StepWarnings(DimensionLine, line, lineNumber)
  {
    var converted := ConvertDimension(line, vars);
    r := LineResult(Indented(level, converted), level);
    assert log.items + [] == log.items;
  }

  /** The `Leer` branch: the warning goes out before the prompts are built. */
  method LeerBranch(line: string, level: int, vars: DeclaredVars, log: WarningLog,
                  lineNumber: nat) returns (r: LineResult)
    modifies vars, log
    ensures r.code == StepCode(LeerLine, line, level, old(vars.names))
    ensures r.newIndentLevel == StepLevel(LeerLine, level)
    ensures vars.names == StepDeclared(LeerLine, line, level, old(vars.names))
    ensures log.items == old(log.items) + StepWarnings(LeerLine, line, lineNumber)
  {
    log.Push(LeerWarning(lineNumber));
    var converted := ConvertLeer(line, level, vars);
    r := LineResult(converted, level);
  }

  /** The assignment branch, taken for any other line holding `<-`. */
  method AssignBranch(line: string, level: int, vars: DeclaredVars, log: WarningLog,
                  lineNumber: nat) returns (r: LineResult)
    requires Contains(line, "<-")
    modifies vars, log
    ensures r.code == StepCode(AssignLine, line, level, old(vars.names))
    ensures r.newIndentLevel == StepLevel(AssignLine, level)
    ensures vars.names == StepDeclared(AssignLine, line, level, old(vars.names))
    ensures log.items == old(log.items) + StepWarnings(AssignLine, line, lineNumber)
  {
    var converted := ConvertAsignacion(line, vars, false);
    r := LineResult(Indented(level, converted), level);
    assert log.items + [] == log.items;
  }

  /** The `Para` branch: a header it cannot read is kept as a comment and
      reported. */
  method ParaBranch(line: string, level: int, vars: DeclaredVars, log: WarningLog,
                  lineNumber: nat) returns (r: LineResult)
    modifies vars, log
    ensures r.code == StepCode(ParaLine, line, level, old(vars.names))
    ensures r.newIndentLevel == StepLevel(ParaLine, level)
    ensures vars.names == StepDeclared(ParaLine, line, level, old(vars.names))
    ensures log.items == old(log.items) + StepWarnings(ParaLine, line, lineNumber)
  {
    r := ParaHeader(line, level, vars.names, log, lineNumber);
    ParaStepCode(line, level, old(vars.names));
    ParaStepState(line, level, old(vars.names), lineNumber);
  }

  lemma ParaStepCode(line: string, level: int, declared: set<string>)
    ensures StepCode(ParaLine, line, level, declared) == Indented(level, ConvertPara(line, declared))
  {
  }

  lemma ParaStepState(line: string, level: int, declared: set<string>, lineNumber: nat)
    ensures StepLevel(ParaLine, level) == level + 1
    ensures StepDeclared(ParaLine, line, level, declared) == declared
    ensures StepWarnings(ParaLine, line, lineNumber) == if MatchPara(line).None? then [ParaWarning(lineNumber)] else []
  {
  }

  /** The header itself, and the warning when its comment prefix shows it was
      not recognised. */
  method ParaHeader(line: string, level: int, declared: set<string>, log: WarningLog,
                    lineNumber: nat) returns (r: LineResult)
    modifies log
    ensures r == LineResult(Indented(level, ConvertPara(line, declared)), level + 1)
    ensures log.items == old(log.items) + (if MatchPara(line).None? then [ParaWarning(lineNumber)] else [])
  {
    var converted := ConvertPara(line, declared);
    ParaCommentIffNoMatch(line, declared);
    if StartsWith(converted, "//") {
      log.Push(ParaWarning(lineNumber));
    } else {
      assert log.items + [] == log.items;
    }
    r := LineResult(Indented(level, converted), level + 1);
  }

  /** Any line no branch recognises is kept as a comment and reported. */
  method UnknownBranch(line: string, level: int, vars: DeclaredVars, log: WarningLog,
                  lineNumber: nat) returns (r: LineResult)
    modifies vars, log
    ensures r.code == StepCode(UnknownLine, line, level, old(vars.names))
    ensures r.newIndentLevel == StepLevel(UnknownLine, level)
    ensures vars.names == StepDeclared(UnknownLine, line, level, old(vars.names))
    ensures log.items == old(log.items) + StepWarnings(UnknownLine, line, lineNumber)
  {
    log.Push(UnknownWarning(lineNumber, line));
    r := LineResult(Indented(level, "// " + line), level);
  }

  /** The branches that only emit code and move the level. */
  method LayoutBranch(k: LineKind, line: string, level: int) returns (r: LineResult)
    requires k !in {DefinirLine, DimensionLine, LeerLine, AssignLine, ParaLine, UnknownLine}
    ensures r.code == StepCode(k, line, level, {})
    ensures r.newIndentLevel == StepLevel(k, level)
  {
    match k {
      case EscribirLine =>
        r := LineResult(Indented(level, Escribir(line)), level);
      case SiLine =>
        r := LineResult(Indented(level, ConvertSi(line)), level + 1);
      case SinoLine =>
        var closed := Outdent(level);
        r := LineResult(Indented(closed, "} else {"), closed + 1);
      case FinSiLine =>
        var closed := Outdent(level);
        r := LineResult(Indented(closed, "}"), closed);
      case MientrasLine =>
        r := LineResult(Indented(level, ConvertMientras(line)), level + 1);
      case FinMientrasLine =>
        var closed := Outdent(level);
        r := LineResult(Indented(closed, "}"), closed);
      case FinParaLine =>
        var closed := Outdent(level);
        r := LineResult(Indented(closed, "}"), closed);
      case RepetirLine =>
        r := LineResult(Indented(level, "do {"), level + 1);
      case HastaQueLine =>
        var closed := Outdent(level);
        var condition := HastaQueCondition(line, 0);
        r := LineResult(Indented(closed, "} while (!(" + ConvertCondition(condition) + "));"), closed);
    }
  }

  // ---------------------------------------------------- convertAlgorithm

  /** The end of the non-blank run starting at `i`. */
  function NextSpace(s: string, i: nat): (r: nat)
    requires i <= |s|
    decreases |s| - i
    ensures i <= r <= |s|
    ensures forall k :: i <= k < r ==> !IsSpace(s[k])
    ensures r < |s| ==> IsSpace(s[r])
  {
    if i < |s| && !IsSpace(s[i]) then NextSpace(s, i + 1) else i
  }

  /** `line.split(/\s+/)[1] || 'programa'`. */
  function AlgorithmName(line: string): string {
    var i := NextSpace(line, 0);
    var field := if i == |line| then "" else
      var j := SkipSpaces(line, i);
      line[j..NextSpace(line, j)];
    if field == "" then "programa" else field
  }

  /** `Algoritmo Name` names the program `Name`; a bare `Algoritmo` names
      it `programa`. */
  lemma AlgorithmNameReadsBack(keyword: string, name: string)
    requires |keyword| > 0 && forall k :: 0 <= k < |keyword| ==> !IsSpace(keyword[k])
    requires forall k :: 0 <= k < |name| ==> !IsSpace(name[k])
    ensures AlgorithmName(keyword + " " + name) == if name == "" then "programa" else name
    ensures AlgorithmName(keyword) == "programa"
  {
    var s := keyword + " " + name;
    assert NextSpace(s, 0) == |keyword| by {
      NextSpaceRun(s, 0, |keyword|);
    }
    assert SkipSpaces(s, |keyword|) == |keyword| + 1 by {
      SkipSpacesRun(s, |keyword|, |keyword| + 1);
    }
    assert NextSpace(s, |keyword| + 1) == |s| by {
      NextSpaceRun(s, |keyword| + 1, |s|);
    }
    assert s[|keyword| + 1..] == name;
    NextSpaceRun(keyword, 0, |keyword|);
  }

  lemma {:induction false} NextSpaceRun(s: string, i: nat, j: nat)
    requires i <= j <= |s|
    requires forall k :: i <= k < j ==> !IsSpace(s[k])
    requires j < |s| ==> IsSpace(s[j])
    ensures NextSpace(s, i) == j
    decreases j - i
  {
    if i < j {
      NextSpaceRun(s, i + 1, j);
    }
  }

  /** The state of the main pass between lines, apart from the warnings. */
  datatype MainState = MainState(code: string, level: int, declared: set<string>)

  /** A line the main pass hands to `convertLine`. */
  predicate MainStatement(line: string) {
    line != "" && !StartsWith(line, "//") && !StartsWithCI(line, "algoritmo")
    && !EqualsCI(line, "finalgoritmo")
  }

  /** One iteration of the main loop. */
  function MainLine(st: MainState, line: string): MainState {
    if line == "" || StartsWith(line, "//") then
      st.(code := st.code + line + "\n")
    else if StartsWithCI(line, "algoritmo") then
      var name := AlgorithmName(line);
      st.(code := st.code + "// Algoritmo: " + name + "\n" + "function " + name + "() {\n", level := 1)
    else if EqualsCI(line, "finalgoritmo") then
      st.(code := st.code + GetIndent(Outdent(st.level)) + "}\n\n", level := Outdent(st.level))
    else
      var k := Classify(line);
      MainState(st.code + StepCode(k, line, st.level, st.declared), StepLevel(k, st.level),
                StepDeclared(k, line, st.level, st.declared))
  }

  /** The main pass over the first `n` lines. */
  function MainPrefix(lines: seq<string>, n: nat): MainState
    requires n <= |lines|
  {
    if n == 0 then MainState("", 0, {})
    else MainLine(MainPrefix(lines, n - 1), lines[n - 1])
  }

  function MainPass(lines: seq<string>): MainState {
    MainPrefix(lines, |lines|)
  }

  /** The warnings one line of the main pass pushes: only the statements it
      hands to `convertLine` push any. */
  function MainLineWarnings(line: string, i: nat): seq<string> {
    if MainStatement(line) then StepWarnings(Classify(line), line, i) else []
  }

  /** The warnings the main pass pushes for the first `n` lines. */
  function MainWarnings(lines: seq<string>, n: nat): seq<string>
    requires n <= |lines|
  {
    if n == 0 then [] else MainWarnings(lines, n - 1) + MainLineWarnings(lines[n - 1], n - 1)
  }

  /** Lines of the main program that push a warning, among the first `n`. */
  function MainWarned(lines: seq<string>, n: nat): nat
    requires n <= |lines|
  {
    if n == 0 then 0
    else MainWarned(lines, n - 1) + if MainStatement(lines[n - 1]) && WarnsOn(Classify(lines[n - 1]), lines[n - 1]) then 1 else 0
  }

  /** One line of the main pass keeps the level non-negative... */
  lemma MainLineLevel(st: MainState, line: string)
    requires st.level >= 0
    ensures MainLine(st, line).level >= 0
  {
    if MainStatement(line) {
      StepLevelNonNegative(Classify(line), st.level);
    }
  }

  /** ... and only adds names. */
  lemma MainLineGrows(st: MainState, line: string)
    ensures st.declared <= MainLine(st, line).declared
  {
    if MainStatement(line) {
      StepDeclaresOnly(Classify(line), line, st.level, st.declared);
    }
  }

  /** Over the main program the level never goes negative. */
  lemma {:induction false} MainPrefixLevel(lines: seq<string>, n: nat)
    requires n <= |lines|
    ensures MainPrefix(lines, n).level >= 0
  {
    if n > 0 {
      MainPrefixLevel(lines, n - 1);
      MainLineLevel(MainPrefix(lines, n - 1), lines[n - 1]);
    }
  }

  /** The declared set only grows from one line to the next. */
  lemma MainPrefixGrows(lines: seq<string>, n: nat)
    requires 0 < n <= |lines|
    ensures MainPrefix(lines, n - 1).declared <= MainPrefix(lines, n).declared
  {
    MainLineGrows(MainPrefix(lines, n - 1), lines[n - 1]);
  }

  /** One warning is pushed per line of the main program that warns, and
      each names the 1-based number of its line. */
  lemma {:induction false} MainWarningsCount(lines: seq<string>, n: nat)
    requires n <= |lines|
    ensures |MainWarnings(lines, n)| == MainWarned(lines, n)
    ensures forall w :: w in MainWarnings(lines, n) ==> exists j :: 0 <= j < n && StartsWith(w, LineTag(j))
  {
    if n > 0 {
      MainWarningsCount(lines, n - 1);
      if MainStatement(lines[n - 1]) {
        StepWarningsCite(Classify(lines[n - 1]), lines[n - 1], n - 1);
      }
    }
  }

  method ConvertAlgorithm(lines: seq<string>, log: WarningLog) returns (code: string)
    modifies log
    ensures code == MainPass(lines).code
    ensures log.items == old(log.items) + MainWarnings(lines, |lines|)
  {
    code := "";
    var level := 0;
    var vars := new DeclaredVars();
    var i := 0;
    while i < |lines|
      invariant 0 <= i <= |lines|
      invariant fresh(vars)
      invariant MainState(code, level, vars.names) == MainPrefix(lines, i)
      invariant log.items == old(log.items) + MainWarnings(lines, i)
    {
      code, level := MainStep(lines, i, code, level, vars, log, old(log.items));
      i := i + 1;
    }
  }

  /** One turn of the main loop, stated on the pass over the lines so far. */
  method MainStep(lines: seq<string>, i: nat, code: string, level: int, vars: DeclaredVars, log: WarningLog,
                  ghost before: seq<string>)
    returns (code': string, level': int)
    requires i < |lines| && MainState(code, level, vars.names) == MainPrefix(lines, i)
    requires log.items == before + MainWarnings(lines, i)
    modifies vars, log
    ensures MainState(code', level', vars.names) == MainPrefix(lines, i + 1)
    ensures log.items == before + MainWarnings(lines, i + 1)
  {
    AppendAssoc(before, MainWarnings(lines, i), MainLineWarnings(lines[i], i));
    code', level' := AlgorithmLine(lines[i], i, code, level, vars, log);
  }

  /** The body of the main loop for line `i`: comments and blank lines are
      copied, the header opens the function, its end closes it, and every
      other line goes through `convertLine`. */
  method AlgorithmLine(line: string, i: nat, code: string, level: int, vars: DeclaredVars, log: WarningLog)
    returns (code': string, level': int)
    modifies vars, log
    ensures code' == MainLine(MainState(code, level, old(vars.names)), line).code
    ensures level' == MainLine(MainState(code, level, old(vars.names)), line).level
    ensures vars.names == MainLine(MainState(code, level, old(vars.names)), line).declared
    ensures log.items == old(log.items) + MainLineWarnings(line, i)
  {
    code', level' := code, level;
    if line == "" || StartsWith(line, "//") {
      code' := code + line + "\n";
    } else if StartsWithCI(line, "algoritmo") {
      var name := AlgorithmName(line);
      code' := code + "// Algoritmo: " + name + "\n" + "function " + name + "() {\n";
      level' := 1;
    } else if EqualsCI(line, "finalgoritmo") {
      level' := Outdent(level);
      code' := code + GetIndent(level') + "}\n\n";
    } else {
      var r := ConvertLine(line, level, vars, log, i);
      code' := code + r.code;
      level' := r.newIndentLevel;
    }
  }

  // ---------------------------------------------------- convertFunctions

  /** `funcion\s+(\w+)\s*<-` (i) at `i`: the return variable. */
  function ReturnArrowAt(s: string, i: nat): Option<string> {
    if !HasAtCI(s, i, "funcion") then None
    else
      var a := SkipSpaces(s, i + 7);
      var e := WordEnd(s, a);
      if a == i + 7 || e == a || !HasAt(s, SkipSpaces(s, e), "<-") then None
      else Some(s[a..e])
  }

  function FirstReturnArrow(s: string, i: nat): Option<string>
    decreases |s| - i
  {
    if i >= |s| then None
    else match ReturnArrowAt(s, i)
      case Some(v) => Some(v)
      case None => FirstReturnArrow(s, i + 1)
  }

  /** The return variable of a header: the arrow form first, then the
      `: retorno` form. */
  function ReturnVariable(line: string): Option<string> {
    match FirstReturnArrow(line, 0)
    case Some(v) => Some(v)
    case None =>
      match FirstFormat(line, 0, Colon)
      case Some(sig) => Some(sig.retorno)
      case None => None
  }

  /** Where the arrow header matches, the return variable is the one it
      declares. */
  lemma ArrowHeaderReturn(s: string, i: nat)
    ensures FormatAt(s, i, Arrow).Some? ==> ReturnArrowAt(s, i) == Some(FormatAt(s, i, Arrow).value.retorno)
  {
  }

  /** The state of the functions pass between lines. */
  datatype FuncState = FuncState(code: string, level: int, declared: set<string>, inFunction: bool,
                                 returnVar: string, warnings: seq<string>)

  function FuncLine(st: FuncState, line: string, i: nat): FuncState {
    if line == "" || StartsWith(line, "//") then st
    else if StartsWithCI(line, "funcion") then
      var header := ConvertFuncion(line);
      var warned := st.warnings + if StartsWith(header, "//") then [FunctionWarning(i)] else [];
      match ReturnVariable(line)
      case Some(v) => FuncState(st.code + header + "\n", 1, {v}, true, v, warned)
      case None => FuncState(st.code + header + "\n", 1, {}, true, st.returnVar, warned)
    else if EqualsCI(line, "finfuncion") then
      var returned := if st.returnVar != "" then st.code + GetIndent(st.level) + "return " + st.returnVar + ";\n"
                      else st.code;
      FuncState(returned + GetIndent(Outdent(st.level)) + "}\n\n", Outdent(st.level), st.declared,
                false, "", st.warnings)
    else if !st.inFunction then st
    else
      var k := Classify(line);
      st.(code := st.code + StepCode(k, line, st.level, st.declared), level := StepLevel(k, st.level),
          declared := StepDeclared(k, line, st.level, st.declared),
          warnings := st.warnings + StepWarnings(k, line, i))
  }

  function FuncPrefix(lines: seq<string>, n: nat): FuncState
    requires n <= |lines|
  {
    if n == 0 then FuncState("", 0, {}, false, "", [])
    else FuncLine(FuncPrefix(lines, n - 1), lines[n - 1], n - 1)
  }

  function FuncPass(lines: seq<string>): FuncState {
    FuncPrefix(lines, |lines|)
  }

  /** A warning that names line `j` of the list it was pushed for: the
      header warning or the tag of a statement's warning. */
  predicate CitesLine(w: string, j: nat) {
    w == FunctionWarning(j) || StartsWith(w, LineTag(j))
  }

  /** Every warning of the functions pass names one of its own lines,
      counted from 0 in the list that pass was given. */
  lemma {:induction false} FuncWarningsCite(lines: seq<string>, n: nat)
    requires n <= |lines|
    ensures forall w :: w in FuncPrefix(lines, n).warnings ==> exists j :: 0 <= j < n && CitesLine(w, j)
  {
    if n > 0 {
      FuncWarningsCite(lines, n - 1);
      FuncLineWarnings(FuncPrefix(lines, n - 1), lines[n - 1], n - 1);
    }
  }

  /** One line of the functions pass adds only warnings that cite it. */
  lemma FuncLineWarnings(st: FuncState, line: string, i: nat)
    ensures forall w :: w in FuncLine(st, line, i).warnings ==> w in st.warnings || CitesLine(w, i)
  {
    StepWarningsCite(Classify(line), line, i);
  }

  /** Outside a function every line other than a header is skipped: no code,
      no warning, no declaration. */
  lemma OutsideFunctionIgnored(st: FuncState, line: string, i: nat)
    requires !st.inFunction && !StartsWithCI(line, "funcion") && !EqualsCI(line, "finfuncion")
    ensures FuncLine(st, line, i) == st
  {
  }

  /** Each function starts with a fresh declared set holding at most its
      return variable, so names never leak from one function to the next;
      `FinFuncion` returns that variable and closes the body. */
  lemma FunctionScopes(st: FuncState, line: string, i: nat)
    ensures StartsWithCI(line, "funcion") && line != "" && !StartsWith(line, "//") ==>
      && FuncLine(st, line, i).inFunction
      && FuncLine(st, line, i).level == 1
      && FuncLine(st, line, i).declared == (match ReturnVariable(line) case Some(v) => {v} case None => {})
    ensures EqualsCI(line, "finfuncion") && st.returnVar != "" && !StartsWith(line, "//") ==>
      && !FuncLine(st, line, i).inFunction
      && FuncLine(st, line, i).returnVar == ""
      && StartsWith(FuncLine(st, line, i).code, st.code + GetIndent(st.level) + "return " + st.returnVar + ";\n")
  {
    if EqualsCI(line, "finfuncion") && st.returnVar != "" && !StartsWith(line, "//") {
      assert !StartsWithCI(line, "funcion") by {
        assert Fold(line[0 + 1], true) == "finfuncion"[1] != "funcion"[1];
      }
      var pre := st.code + GetIndent(st.level) + "return " + st.returnVar + ";\n";
      assert FuncLine(st, line, i).code[..|pre|] == pre;
    }
  }

  /** A function header: its conversion, a warning when it was not
      recognised, and a declared set holding only the return variable. */
  method OpenFunction(line: string, i: nat, vars: DeclaredVars, log: WarningLog)
    returns (header: string, ret: Option<string>)
    modifies vars, log
    ensures header == ConvertFuncion(line) && ret == ReturnVariable(line)
    ensures vars.names == if ret.Some? then {ret.value} else {}
    ensures log.items == old(log.items) + if StartsWith(header, "//") then [FunctionWarning(i)] else []
  {
    header := ConvertFuncion(line);
    if StartsWith(header, "//") {
      log.Push(FunctionWarning(i));
    }
    vars.Clear();
    ret := ReturnVariable(line);
    if ret.Some? {
      vars.Add(ret.value);
    }
  }

  method ConvertFunctions(lines: seq<string>, log: WarningLog) returns (code: string)
    modifies log
    ensures code == FuncPass(lines).code
    ensures log.items == old(log.items) + FuncPass(lines).warnings
  {
    code := "";
    var level := 0;
    var vars := new DeclaredVars();
    var inFunction := false;
    var returnVar := "";
    var i := 0;
    ghost var st := FuncPrefix(lines, 0);
    while i < |lines|
      invariant 0 <= i <= |lines|
      invariant fresh(vars)
      invariant st == FuncPrefix(lines, i)
      invariant st.code == code && st.level == level && st.declared == vars.names
      invariant st.inFunction == inFunction && st.returnVar == returnVar
      invariant log.items == old(log.items) + st.warnings
    {
      var line := lines[i];
      if line == "" || StartsWith(line, "//") {
      } else if StartsWithCI(line, "funcion") {
        var header, ret := OpenFunction(line, i, vars, log);
        AppendAssoc(old(log.items), st.warnings, if StartsWith(header, "//") then [FunctionWarning(i)] else []);
        code := code + header + "\n";
        level := 1;
        inFunction := true;
        if ret.Some? {
          returnVar := ret.value;
        }
      } else if EqualsCI(line, "finfuncion") {
        if returnVar != "" {
          code := code + GetIndent(level) + "return " + returnVar + ";\n";
        }
        level := Outdent(level);
        code := code + GetIndent(level) + "}\n\n";
        inFunction := false;
        returnVar := "";
      } else if inFunction {
        var r := ConvertLine(line, level, vars, log, i);
        AppendAssoc(old(log.items), st.warnings, StepWarnings(Classify(line), line, i));
        code := code + r.code;
        level := r.newIndentLevel;
      }
      st := FuncLine(st, line, i);
      i := i + 1;
    }
  }
}
