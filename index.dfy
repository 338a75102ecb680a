/** The entry point (src/utils/pseint/index.ts) and the records it returns
    (src/utils/pseint/types.ts).

    `convertPseintToJS` trims the text into non-blank lines, checks for the
    `Algoritmo` and `FinAlgoritmo` markers, cuts the lines at the first
    `FinAlgoritmo`, runs the functions pass on what follows it and the main
    pass on the rest, and appends a call to the program. `PseintToJS` states
    the result; `ConvertPseintToJS` builds it the way the source does. */
module Entry {
  import opened Text
  import opened Converter

  datatype ErrorType = Syntax | Structure | Conversion | Warning

  datatype ErrorDetail = ErrorDetail(line: int, code: string, message: string, kind: ErrorType,
                                     suggestion: Option<string>)

  datatype ConversionResult = ConversionResult(success: bool, javascript: string, errors: seq<string>,
                                               warnings: seq<string>, detailedErrors: seq<ErrorDetail>)

  const MissingAlgorithm := "Falta la declaraci\U{F3}n 'Algoritmo nombre'"
  const MissingFin := "Falta 'FinAlgoritmo' al final"

  /** The two comment lines every conversion starts with. */
  const Heading := "// C\U{F3}digo convertido de PSeInt a JavaScript\n"
  const IndexNote := "// Nota: Los \U{ED}ndices de arrays se ajustan de PSeInt (1-N) a JavaScript (0-N-1)\n\n"
  const Banner := Heading + IndexNote

  // ------------------------------------------------------------- markers

  /** `line.toLowerCase().startsWith('algoritmo')`. */
  predicate OpensAlgorithm(line: string) {
    StartsWithCI(line, "algoritmo")
  }

  /** `line.toLowerCase().trim() === 'finalgoritmo'`, the test for the marker. */
  predicate ClosesAlgorithm(line: string) {
    Trim(Lower(line)) == "finalgoritmo"
  }

  /** `line.toLowerCase() === 'finalgoritmo'`, the test that cuts the lines. */
  predicate IsFinLine(line: string) {
    EqualsCI(line, "finalgoritmo")
  }

  /** On a trimmed line the two `FinAlgoritmo` tests agree. */
  lemma ClosesWhenTrimmed(line: string)
    requires Trim(line) == line
    ensures ClosesAlgorithm(line) <==> IsFinLine(line)
  {
    var low := Lower(line);
    if |line| > 0 {
      assert !IsSpace(line[0]) && !IsSpace(line[|line| - 1]);
      assert !IsSpace(low[0]) && !IsSpace(low[|low| - 1]);
    }
    TrimKeepsTrimmed(low);
    EqualsLower(line, "finalgoritmo");
  }

  // ---------------------------------------------- some, findIndex, find

  /** `lines.some(p)`. */
  predicate AnyLine(lines: seq<string>, p: string -> bool) {
    exists k :: 0 <= k < |lines| && p(lines[k])
  }

  /** The first position from `i` on whose line satisfies `p`. */
  function FirstIndex(lines: seq<string>, p: string -> bool, i: nat): (r: Option<nat>)
    requires i <= |lines|
    decreases |lines| - i
    ensures r.Some? ==> i <= r.value < |lines| && p(lines[r.value])
    ensures r.Some? ==> forall k :: i <= k < r.value ==> !p(lines[k])
    ensures r.None? <==> forall k :: i <= k < |lines| ==> !p(lines[k])
  {
    if i == |lines| then None else if p(lines[i]) then Some(i) else FirstIndex(lines, p, i + 1)
  }

  /** `some` finds a line exactly when `findIndex` does. */
  lemma AnyIffFound(lines: seq<string>, p: string -> bool)
    ensures AnyLine(lines, p) <==> FirstIndex(lines, p, 0).Some?
  {
  }

  method Any(lines: seq<string>, p: string -> bool) returns (found: bool)
    ensures found <==> AnyLine(lines, p)
  {
    found := false;
    var i := 0;
    while i < |lines| && !found
      invariant 0 <= i <= |lines|
      invariant found ==> 0 < i && p(lines[i - 1])
      invariant !found ==> forall k :: 0 <= k < i ==> !p(lines[k])
    {
      found := p(lines[i]);
      i := i + 1;
    }
  }

  /** `lines.findIndex(p)`: -1 when no line satisfies `p`. */
  method FindIndex(lines: seq<string>, p: string -> bool) returns (index: int)
    ensures -1 <= index < |lines|
    ensures index >= 0 ==> p(lines[index])
    ensures forall k :: 0 <= k < |lines| && (index < 0 || k < index) ==> !p(lines[k])
  {
    index := -1;
    var i := 0;
    while i < |lines| && index < 0
      invariant 0 <= i <= |lines|
      invariant index < 0 ==> index == -1 && forall k :: 0 <= k < i ==> !p(lines[k])
      invariant index >= 0 ==> index == i - 1 && p(lines[index]) && forall k :: 0 <= k < index ==> !p(lines[k])
    {
      if p(lines[i]) {
        index := i;
      }
      i := i + 1;
    }
  }

  // ----------------------------------------------------------- the parts

  /** The main program: up to and including the first `FinAlgoritmo`, or
      every line when there is none. */
  function MainPart(lines: seq<string>): seq<string> {
    match FirstIndex(lines, IsFinLine, 0)
    case Some(f) => lines[..f + 1]
    case None => lines
  }

  /** The functions: whatever follows the first `FinAlgoritmo`. */
  function FunctionPart(lines: seq<string>): seq<string> {
    match FirstIndex(lines, IsFinLine, 0)
    case Some(f) => lines[f + 1..]
    case None => []
  }

  /** The functions pass's code, followed by a blank line when it produced any. */
  function FunctionsCode(funcs: seq<string>): string {
    if |funcs| > 0 then
      var c := FuncPass(funcs).code;
      c + if c != "" then "\n" else ""
    else ""
  }

  function FunctionsWarnings(funcs: seq<string>): seq<string> {
    if |funcs| > 0 then FuncPass(funcs).warnings else []
  }

  function Launch(name: string): string {
    "\n// Ejecutar el algoritmo\n" + name + "();\n"
  }

  /** The call appended for the first line that opens the algorithm. The
      line `find` returns is never empty, so it is always taken. */
  function LaunchCode(lines: seq<string>): string {
    match FirstIndex(lines, OpensAlgorithm, 0)
    case Some(a) => Launch(AlgorithmName(lines[a]))
    case None => ""
  }

  // --------------------------------------------------------- the result

  /** The code: banner, functions, main program, call. */
  function Translation(lines: seq<string>): string {
    Banner + FunctionsCode(FunctionPart(lines)) + MainPass(MainPart(lines)).code + LaunchCode(lines)
  }

  /** The warnings: those of the functions pass, then those of the main pass. */
  function PassWarnings(lines: seq<string>): seq<string> {
    FunctionsWarnings(FunctionPart(lines)) + MainWarnings(MainPart(lines), |MainPart(lines)|)
  }

  function NoAlgorithmResult(): ConversionResult {
    ConversionResult(false, "", [MissingAlgorithm], [],
                     [ErrorDetail(0, "Algoritmo nombre", MissingAlgorithm, Structure, None)])
  }

  /** The result for the trimmed, non-blank lines of the input. */
  function ConvertLines(lines: seq<string>): (r: ConversionResult)
    ensures r.success <==> r.errors == []
    ensures r.success <==> AnyLine(lines, OpensAlgorithm) && AnyLine(lines, ClosesAlgorithm)
    ensures |r.errors| <= 1 && |r.detailedErrors| == |r.errors|
    ensures forall d :: d in r.detailedErrors ==> d.kind == Structure && d.line >= 0
  {
    if !AnyLine(lines, OpensAlgorithm) then NoAlgorithmResult()
    else
      var missing := !AnyLine(lines, ClosesAlgorithm);
      var errors := if missing then [MissingFin] else [];
      var details := if missing then [ErrorDetail(|lines| - 1, "Finalgoritmo", MissingFin, Structure, None)]
                     else [];
      ConversionResult(errors == [], Translation(lines), errors, PassWarnings(lines), details)
  }

  /** What `convertPseintToJS(pseudocode)` returns. */
  function PseintToJS(pseudocode: string): ConversionResult {
    ConvertLines(NonBlankLines(pseudocode))
  }

  /** Without an `Algoritmo` line nothing is converted: one `structure`
      error at line 0, no code and no warnings. */
  lemma NoAlgorithmFails(pseudocode: string)
    requires !AnyLine(NonBlankLines(pseudocode), OpensAlgorithm)
    ensures var r := PseintToJS(pseudocode);
      && !r.success && r.javascript == "" && r.warnings == []
      && r.errors == [MissingAlgorithm]
      && r.detailedErrors == [ErrorDetail(0, "Algoritmo nombre", MissingAlgorithm, Structure, None)]
  {
  }

  /** The lines are cut at the first `FinAlgoritmo`: the main program ends
      with it, holds no earlier one, and the functions are the rest. */
  lemma PartitionAtFirstFin(lines: seq<string>)
    ensures MainPart(lines) + FunctionPart(lines) == lines
    ensures FirstIndex(lines, IsFinLine, 0).Some? ==>
      && |MainPart(lines)| > 0 && IsFinLine(MainPart(lines)[|MainPart(lines)| - 1])
      && forall k :: 0 <= k < |MainPart(lines)| - 1 ==> !IsFinLine(MainPart(lines)[k])
    ensures FirstIndex(lines, IsFinLine, 0).None? ==> MainPart(lines) == lines && FunctionPart(lines) == []
  {
    match FirstIndex(lines, IsFinLine, 0)
    case Some(f) =>
      assert lines[..f + 1] + lines[f + 1..] == lines;
    case None =>
  }

  /** On the trimmed lines the marker check and the cut agree: the marker
      is found exactly when there is a place to cut. */
  lemma MarkerIffCut(pseudocode: string)
    ensures var lines := NonBlankLines(pseudocode);
      AnyLine(lines, ClosesAlgorithm) <==> FirstIndex(lines, IsFinLine, 0).Some?
  {
    var lines := NonBlankLines(pseudocode);
    NonBlankLinesTrimmed(pseudocode);
    forall k | 0 <= k < |lines|
      ensures ClosesAlgorithm(lines[k]) <==> IsFinLine(lines[k])
    {
      ClosesWhenTrimmed(lines[k]);
    }
    AnyIffFound(lines, ClosesAlgorithm);
    AnyIffFound(lines, IsFinLine);
  }

  /** A missing `FinAlgoritmo` is reported against the last line, but the
      conversion goes on with every line as the main program and no
      functions. */
  lemma MissingFinStillConverts(pseudocode: string)
    requires AnyLine(NonBlankLines(pseudocode), OpensAlgorithm)
    requires !AnyLine(NonBlankLines(pseudocode), ClosesAlgorithm)
    ensures var lines := NonBlankLines(pseudocode);
      var r := PseintToJS(pseudocode);
      && MainPart(lines) == lines && FunctionPart(lines) == []
      && !r.success && r.errors == [MissingFin]
      && r.detailedErrors == [ErrorDetail(|lines| - 1, "Finalgoritmo", MissingFin, Structure, None)]
      && r.javascript == Banner + MainPass(lines).code + LaunchCode(lines)
      && r.warnings == MainWarnings(lines, |lines|)
  {
    var lines := NonBlankLines(pseudocode);
    MarkerIffCut(pseudocode);
    assert FunctionsCode([]) == "";
    assert Banner + "" == Banner;
    assert [] + MainWarnings(lines, |lines|) == MainWarnings(lines, |lines|);
  }

  /** The output is the banner, the functions, the main program and the
      call to the program named on the first `Algoritmo` line, in that
      order. */
  lemma OutputOrder(pseudocode: string)
    requires AnyLine(NonBlankLines(pseudocode), OpensAlgorithm)
    ensures var lines := NonBlankLines(pseudocode);
      && FirstIndex(lines, OpensAlgorithm, 0).Some?
      && PseintToJS(pseudocode).javascript
         == Banner + FunctionsCode(FunctionPart(lines)) + MainPass(MainPart(lines)).code
            + Launch(AlgorithmName(lines[FirstIndex(lines, OpensAlgorithm, 0).value]))
  {
    AnyIffFound(NonBlankLines(pseudocode), OpensAlgorithm);
  }

  /** Warnings come from the functions pass first, then from the main
      pass; each names a line of its own part, counted from 0 there, so
      the numbering starts over for the functions. */
  lemma WarningsByPart(pseudocode: string)
    requires AnyLine(NonBlankLines(pseudocode), OpensAlgorithm)
    ensures var lines := NonBlankLines(pseudocode);
      var main := MainPart(lines);
      var funcs := FunctionPart(lines);
      && PseintToJS(pseudocode).warnings == FunctionsWarnings(funcs) + MainWarnings(main, |main|)
      && (forall w :: w in FunctionsWarnings(funcs) ==> exists j :: 0 <= j < |funcs| && CitesLine(w, j))
      && (forall w :: w in MainWarnings(main, |main|) ==>
            exists j :: 0 <= j < |main| && StartsWith(w, LineTag(j)) && main[j] == lines[j])
  {
    var lines := NonBlankLines(pseudocode);
    var main := MainPart(lines);
    var funcs := FunctionPart(lines);
    FuncWarningsCite(funcs, |funcs|);
    MainWarningsCount(main, |main|);
    PartitionAtFirstFin(lines);
    forall j | 0 <= j < |main|
      ensures main[j] == lines[j]
    {
      assert (main + funcs)[j] == main[j];
    }
  }

  // -------------------------------------------------------- the methods

  /** Cuts the lines after the first `FinAlgoritmo`, if there is one. */
  method SplitAtFin(lines: seq<string>) returns (mainLines: seq<string>, functionLines: seq<string>)
    ensures mainLines == MainPart(lines) && functionLines == FunctionPart(lines)
  {
    var finIndex := FindIndex(lines, IsFinLine);
    assert finIndex >= 0 ==> FirstIndex(lines, IsFinLine, 0) == Some(finIndex);
    assert finIndex < 0 ==> FirstIndex(lines, IsFinLine, 0) == None;
    mainLines := if finIndex >= 0 then lines[..finIndex + 1] else lines;
    functionLines := if finIndex >= 0 then lines[finIndex + 1..] else [];
  }

  /** The call to the program named on the first `Algoritmo` line. */
  method LaunchFor(lines: seq<string>) returns (call: string)
    ensures call == LaunchCode(lines)
  {
    call := "";
    var nameIndex := FindIndex(lines, OpensAlgorithm);
    assert nameIndex >= 0 ==> FirstIndex(lines, OpensAlgorithm, 0) == Some(nameIndex);
    assert nameIndex < 0 ==> FirstIndex(lines, OpensAlgorithm, 0) == None;
    if nameIndex >= 0 {
      var name := AlgorithmName(lines[nameIndex]);
      call := "\n// Ejecutar el algoritmo\n" + name + "();\n";
    }
  }

  /** The functions pass, when there are lines after `FinAlgoritmo`: its
      code and a line break after it when it is not empty. */
  method EmitFunctions(functionLines: seq<string>, log: WarningLog) returns (code: string)
    modifies log
    ensures code == FunctionsCode(functionLines)
    ensures log.items == old(log.items) + FunctionsWarnings(functionLines)
  {
    code := "";
    if |functionLines| > 0 {
      var functionsResult := ConvertFunctions(functionLines, log);
      code := functionsResult;
      if functionsResult != "" {
        code := code + "\n";
      }
    }
  }

  /** The conversion proper, once the markers have been checked: cut the
      lines, run both passes onto the shared warnings and append the call. */
  method EmitCode(lines: seq<string>, log: WarningLog) returns (jsCode: string)
    modifies log
    ensures jsCode == Translation(lines)
    ensures log.items == old(log.items) + PassWarnings(lines)
  {
    jsCode := "";
    var mainLines, functionLines := SplitAtFin(lines);

    jsCode := jsCode + Heading;
    jsCode := jsCode + IndexNote;
    assert jsCode == Banner;

    var functionsCode := EmitFunctions(functionLines, log);
    jsCode := jsCode + functionsCode;

    var mainResult := ConvertAlgorithm(mainLines, log);
    jsCode := jsCode + mainResult;

    var call := LaunchFor(lines);
    jsCode := jsCode + call;
    AppendAssoc(old(log.items), FunctionsWarnings(functionLines), MainWarnings(mainLines, |mainLines|));
  }

  method ConvertPseintToJS(pseudocode: string) returns (r: ConversionResult)
    ensures r == PseintToJS(pseudocode)
  {
    var lines := NonBlankLines(pseudocode);
    r := Convert(lines);
  }

  /** The body of `convertPseintToJS` once the input has been cut into lines. */
  method Convert(lines: seq<string>) returns (r: ConversionResult)
    ensures r == ConvertLines(lines)
  {
    var errors: seq<string> := [];
    var detailedErrors: seq<ErrorDetail> := [];
    var log := new WarningLog();

    var hasAlgoritmo := Any(lines, OpensAlgorithm);
    var hasFinAlgoritmo := Any(lines, ClosesAlgorithm);

    if !hasAlgoritmo {
      errors := errors + [MissingAlgorithm];
      detailedErrors := detailedErrors + [ErrorDetail(0, "Algoritmo nombre", MissingAlgorithm, Structure, None)];
      return ConversionResult(false, "", errors, log.items, detailedErrors);
    }

    if !hasFinAlgoritmo {
      errors := errors + [MissingFin];
      detailedErrors := detailedErrors
                        + [ErrorDetail(|lines| - 1, "Finalgoritmo", MissingFin, Structure, None)];
    }
    r := Convertible(lines, errors, detailedErrors, log);
  }

  /** Once an `Algoritmo` line is known to be there: the code and the
      warnings, with the marker errors gathered so far. */
  method Convertible(lines: seq<string>, errors: seq<string>, detailedErrors: seq<ErrorDetail>, log: WarningLog)
    returns (r: ConversionResult)
    requires AnyLine(lines, OpensAlgorithm) && log.items == []
    requires errors == (if AnyLine(lines, ClosesAlgorithm) then [] else [MissingFin])
    requires detailedErrors == if AnyLine(lines, ClosesAlgorithm) then []
                               else [ErrorDetail(|lines| - 1, "Finalgoritmo", MissingFin, Structure, None)]
    modifies log
    ensures r == ConvertLines(lines)
  {
    var jsCode := "";
    jsCode := EmitCode(lines, log);
    assert [] + PassWarnings(lines) == PassWarnings(lines);
    return ConversionResult(|errors| == 0, jsCode, errors, log.items, detailedErrors);
  }
}
