/** Conversion of the simple statements (src/utils/pseint/statements.ts).

    Every converter reads one trimmed source line and the `declaredVars` set
    of the pass it belongs to, and may add names to that set. The pure
    functions below say what each converter returns and what the set holds
    afterwards; the methods do the same work on a shared `DeclaredVars`
    object, in the order the source does it, and are proved to agree. */
module Statements {
  import opened Text
  import opened Helpers
  import opened Expressions

  /** The set of names already declared with `let` in the current pass. */
  class DeclaredVars {
    var names: set<string>

    constructor ()
      ensures names == {}
    {
      names := {};
    }

    method Add(name: string)
      modifies this
      ensures names == old(names) + {name}
    {
      names := names + {name};
    }

    method Clear()
      modifies this
      ensures names == {}
    {
      names := {};
    }
  }

  /** What a converter produces: its text and the declared set after it. */
  datatype Emitted = Emitted(text: string, declared: set<string>)

  function Elems(xs: seq<string>): set<string> {
    set x | x in xs
  }

  predicate NoDup(xs: seq<string>) {
    forall a, b :: 0 <= a < b < |xs| ==> xs[a] != xs[b]
  }

  // ------------------------------------------------------------- Definir

  /** `\s+Como\s+` (i) matches at `i`. */
  predicate ComoAt(s: string, i: nat) {
    && i < |s|
    && IsSpace(s[i])
    && var j := SkipSpaces(s, i);
       HasAtCI(s, j, "como") && j + 4 < |s| && IsSpace(s[j + 4])
  }

  /** `line.split(/\s+Como\s+/i)[0]`: the text before the first match. */
  function BeforeComo(s: string, i: nat): (r: string)
    requires i <= |s|
    decreases |s| - i
    ensures |r| <= |s| && r == s[..|r|]
  {
    if i >= |s| then s
    else if ComoAt(s, i) then s[..i]
    else BeforeComo(s, i + 1)
  }

  /** The trimmed, non-empty names of a `Definir` line, in source order. */
  function DefinirNames(line: string): seq<string> {
    DropEmpty(MapTrim(Split(Trim(RemoveFirstCI(BeforeComo(line, 0), "definir")), ',')))
  }

  /** `names.filter(v => !declared.has(v))`. */
  function Undeclared(names: seq<string>, declared: set<string>): (r: seq<string>)
    ensures forall x :: x in r <==> x in names && x !in declared
  {
    if |names| == 0 then []
    else (if names[0] in declared then [] else [names[0]]) + Undeclared(names[1..], declared)
  }

  /** `[...new Set(xs)]` minus `seen`: first occurrences, in order. */
  function Dedup(xs: seq<string>, seen: set<string>): (r: seq<string>)
    ensures NoDup(r)
    ensures forall x :: x in r <==> x in xs && x !in seen
  {
    if |xs| == 0 then []
    else if xs[0] in seen then Dedup(xs[1..], seen)
    else [xs[0]] + Dedup(xs[1..], seen + {xs[0]})
  }

  /** The names a `Definir` line declares with `let`. */
  function DefinirNew(line: string, declared: set<string>): seq<string> {
    Dedup(Undeclared(DefinirNames(line), declared), {})
  }

  /** `convertDefinir`. */
  function Definir(line: string, declared: set<string>): Emitted {
    var newNames := DefinirNew(line, declared);
    Emitted(if |newNames| == 0 then "" else "let " + Join(newNames, ", ") + ";",
            declared + Elems(DefinirNames(line)))
  }

  /** A `Definir` line declares each of its names at most once, only the
      names not yet declared, and afterwards every one of its names is
      declared; it emits nothing when there is nothing new. */
  lemma DefinirDeclaresOnlyNew(line: string, declared: set<string>)
    ensures NoDup(DefinirNew(line, declared))
    ensures Elems(DefinirNew(line, declared)) == Elems(DefinirNames(line)) - declared
    ensures Definir(line, declared).declared == declared + Elems(DefinirNames(line))
    ensures Definir(line, declared).text == "" <==> Elems(DefinirNames(line)) <= declared
  {
    var newNames := DefinirNew(line, declared);
    if |newNames| > 0 {
      assert newNames[0] in Elems(newNames);
    }
  }

  /** Repeating a `Definir` line emits nothing the second time. */
  lemma DefinirTwice(line: string, declared: set<string>)
    ensures Definir(line, Definir(line, declared).declared).text == ""
    ensures Definir(line, Definir(line, declared).declared).declared == Definir(line, declared).declared
  {
    DefinirDeclaresOnlyNew(line, Definir(line, declared).declared);
  }

  method ConvertDefinir(line: string, vars: DeclaredVars) returns (text: string)
    modifies vars
    ensures Emitted(text, vars.names) == Definir(line, old(vars.names))
  {
    var names := DefinirNames(line);
    var newNames := Dedup(Undeclared(names, vars.names), {});
    var i := 0;
    while i < |names|
      invariant 0 <= i <= |names|
      invariant vars.names == old(vars.names) + Elems(names[..i])
    {
      assert names[..i + 1] == names[..i] + [names[i]];
      vars.Add(names[i]);
      i := i + 1;
    }
    assert names[..i] == names;
    text := if |newNames| == 0 then "" else "let " + Join(newNames, ", ") + ";";
  }

  // ----------------------------------------------------------- Dimension

  /** `dimension\s+(\w+)\[(\d+)\]` (i) at `i`: the name and the size. */
  function DimensionAt(s: string, i: nat): (r: Option<(string, string)>)
    ensures r.Some? ==> |r.value.0| > 0 && |r.value.1| > 0
  {
    if !HasAtCI(s, i, "dimension") then None
    else
      var b := SkipSpaces(s, i + 9);
      var e := WordEnd(s, b);
      if b == i + 9 || e == b || e >= |s| || s[e] != '[' then None
      else
        var d := DigitEnd(s, e + 1);
        if d == e + 1 || d >= |s| || s[d] != ']' then None
        else Some((s[b..e], s[e + 1..d]))
  }

  function FirstDimension(s: string, i: nat): Option<(string, string)>
    decreases |s| - i
  {
    if i >= |s| then None
    else match DimensionAt(s, i)
      case Some(m) => Some(m)
      case None => FirstDimension(s, i + 1)
  }

  /** `convertDimension`. */
  function Dimension(line: string, declared: set<string>): Emitted {
    match FirstDimension(line, 0)
    case None => Emitted("// " + line, declared)
    case Some((name, size)) =>
      if name in declared then Emitted(name + " = new Array(" + size + ");", declared)
      else Emitted("let " + name + " = new Array(" + size + ");", declared + {name})
  }

  predicate IsNumeral(w: string) {
    |w| > 0 && forall k :: 0 <= k < |w| ==> IsDigit(w[k])
  }

  /** `Dimension name[size]` reads back the name and the size it was written
      with, and declares the name with `let` only the first time. */
  lemma DimensionReadsBack(name: string, size: string, declared: set<string>)
    requires IsWord(name) && IsNumeral(size)
    ensures Dimension("Dimension " + name + "[" + size + "]", declared)
      == if name in declared then Emitted(name + " = new Array(" + size + ");", declared)
         else Emitted("let " + name + " = new Array(" + size + ");", declared + {name})
  {
    var s := "Dimension " + name + "[" + size + "]";
    assert HasAtCI(s, 0, "dimension") by {
      forall k | 0 <= k < 9 ensures Fold(s[0 + k], true) == "dimension"[k] {
        assert s[k] == "Dimension"[k];
      }
    }
    var e := 10 + |name|;
    var d := e + 1 + |size|;
    assert s[9] == ' ' && s[e] == '[' && s[d] == ']' && |s| == d + 1;
    assert s[10..e] == name by {
      forall k | 0 <= k < |name| ensures s[10..e][k] == name[k] {
        assert s[10 + k] == name[k];
      }
    }
    assert s[e + 1..d] == size by {
      forall k | 0 <= k < |size| ensures s[e + 1..d][k] == size[k] {
        assert s[e + 1 + k] == size[k];
      }
    }
    SkipSpacesRun(s, 9, 10) by {
      assert s[10] == name[0];
    }
    WordEndRun(s, 10, e) by {
      forall k | 10 <= k < e ensures IsWordChar(s[k]) {
        assert s[k] == name[k - 10];
      }
    }
    DigitEndRun(s, e + 1, d) by {
      forall k | e + 1 <= k < d ensures IsDigit(s[k]) {
        assert s[k] == size[k - e - 1];
      }
    }
    assert DimensionAt(s, 0) == Some((name, size));
  }

  method ConvertDimension(line: string, vars: DeclaredVars) returns (text: string)
    modifies vars
    ensures Emitted(text, vars.names) == Dimension(line, old(vars.names))
  {
    match FirstDimension(line, 0)
    case None =>
      text := "// " + line;
    case Some((name, size)) =>
      if name in vars.names {
        text := name + " = new Array(" + size + ");";
      } else {
        vars.Add(name);
        text := "let " + name + " = new Array(" + size + ");";
      }
  }

  // ---------------------------------------------------------------- Leer

  /** The targets of a `Leer` line: split on commas and trimmed, empty ones
      kept. */
  function LeerTargets(line: string): (r: seq<string>)
    ensures |r| >= 1
  {
    MapTrim(Split(Trim(RemoveFirstCI(line, "leer")), ','))
  }

  /** The last `]` in `s[lo..hi]`: where a greedy `.+` gives back to `\]`. */
  function LastBracket(s: string, lo: nat, hi: nat): (r: Option<nat>)
    requires lo <= hi <= |s|
    decreases hi - lo
    ensures r.Some? ==> lo <= r.value < hi && s[r.value] == ']'
    ensures r.Some? ==> forall k :: r.value < k < hi ==> s[k] != ']'
    ensures r.None? ==> forall k :: lo <= k < hi ==> s[k] != ']'
  {
    if hi == lo then None
    else if s[hi - 1] == ']' then Some(hi - 1)
    else LastBracket(s, lo, hi - 1)
  }

  /** `(\w+)\[(.+)\]` at `i`: the array name and the index text. */
  function IndexedAt(s: string, i: nat): (r: Option<(string, string)>)
    ensures r.Some? ==> IsWord(r.value.0) && |r.value.1| > 0
  {
    if i >= |s| || !IsWordChar(s[i]) then None
    else
      var e := WordEnd(s, i);
      PassedAreWordChars(s, i);
      if e >= |s| || s[e] != '[' then None
      else
        var m := LineEnd(s, e + 1);
        if m < e + 2 then None
        else match LastBracket(s, e + 2, m)
          case None => None
          case Some(k) => Some((s[i..e], s[e + 1..k]))
  }

  function FirstIndexed(s: string, i: nat): Option<(string, string)>
    decreases |s| - i
  {
    if i >= |s| then None
    else match IndexedAt(s, i)
      case Some(m) => Some(m)
      case None => FirstIndexed(s, i + 1)
  }

  /** One prompt assignment, with or without `let`. */
  function PromptFor(indent: string, decl: string, v: string): string {
    indent + decl + v + " = parseFloat(prompt(\"Ingresa " + v + ":\"));"
  }

  /** The `map` over several targets, from position `i` on: each is declared
      with `let` when it is not yet declared, and is declared afterwards. */
  function LeerEachFrom(targets: seq<string>, i: nat, indent: string, declared: set<string>)
    : (r: (seq<string>, set<string>))
    requires i <= |targets|
    ensures |r.0| == |targets| - i
    decreases |targets| - i
  {
    if i == |targets| then ([], declared)
    else
      var v := targets[i];
      var rest := LeerEachFrom(targets, i + 1, indent, declared + {v});
      ([PromptFor(indent, if v in declared then "" else "let ", v)] + rest.0, rest.1)
  }

  function LeerEach(targets: seq<string>, indent: string, declared: set<string>): (seq<string>, set<string>) {
    LeerEachFrom(targets, 0, indent, declared)
  }

  /** `convertLeer`. */
  function Leer(line: string, level: int, declared: set<string>): Emitted {
    var targets := LeerTargets(line);
    var indent := GetIndent(level);
    if |targets| == 1 then
      match FirstIndexed(targets[0], 0)
      case Some((arr, index)) =>
        Emitted(indent + arr + "[" + index + "] = parseFloat(prompt(\"Ingresa valor:\"));\n", declared)
      case None =>
        Emitted(PromptFor(indent, "", targets[0]) + "\n", declared + {targets[0]})
    else
      var each := LeerEach(targets, indent, declared);
      Emitted(Join(each.0, "\n") + "\n", each.1)
  }

  /** The targets at positions `lo` up to, not including, `hi`. */
  function Among(targets: seq<string>, lo: nat, hi: nat): set<string>
    requires lo <= hi <= |targets|
  {
    set j | lo <= j < hi :: targets[j]
  }

  /** `LeerEachFrom` prompts for the k-th target with `let` exactly when it is
      neither declared on entry nor among the targets between `i` and `k`. */
  lemma {:induction false} LeerEachFromFirstUse(targets: seq<string>, i: nat, indent: string, declared: set<string>)
    requires i <= |targets|
    ensures LeerEachFrom(targets, i, indent, declared).1 == declared + Among(targets, i, |targets|)
    ensures forall k :: i <= k < |targets| ==>
      LeerEachFrom(targets, i, indent, declared).0[k - i]
        == PromptFor(indent, if targets[k] in declared + Among(targets, i, k) then "" else "let ", targets[k])
    decreases |targets| - i
  {
    if i < |targets| {
      var v := targets[i];
      LeerEachFromFirstUse(targets, i + 1, indent, declared + {v});
      assert Among(targets, i, |targets|) == {v} + Among(targets, i + 1, |targets|);
      var r := LeerEachFrom(targets, i, indent, declared);
      forall k | i < k < |targets|
        ensures r.0[k - i] == PromptFor(indent, if targets[k] in declared + Among(targets, i, k) then "" else "let ", targets[k])
      {
        assert Among(targets, i, k) == {v} + Among(targets, i + 1, k);
      }
    }
  }

  /** With several targets, the k-th is declared with `let` exactly when it
      is neither declared before the line nor among the targets before it,
      and all targets are declared afterwards. */
  lemma LeerEachDeclaresFirstUse(targets: seq<string>, indent: string, declared: set<string>)
    ensures LeerEach(targets, indent, declared).1 == declared + Among(targets, 0, |targets|)
    ensures forall k :: 0 <= k < |targets| ==>
      LeerEach(targets, indent, declared).0[k]
        == PromptFor(indent, if targets[k] in declared + Among(targets, 0, k) then "" else "let ", targets[k])
  {
    LeerEachFromFirstUse(targets, 0, indent, declared);
    var r := LeerEachFrom(targets, 0, indent, declared);
    forall k | 0 <= k < |targets|
      ensures r.0[k] == PromptFor(indent, if targets[k] in declared + Among(targets, 0, k) then "" else "let ", targets[k])
    {
      assert r.0[k - 0] == r.0[k];
    }
  }

  /** With a single plain target, the text does not depend on whether the
      target was declared: no `let` is ever emitted, yet the target counts as
      declared afterwards. */
  lemma LeerSingleNeverDeclares(line: string, level: int, d1: set<string>, d2: set<string>)
    requires |LeerTargets(line)| == 1 && FirstIndexed(LeerTargets(line)[0], 0).None?
    ensures Leer(line, level, d1).text == Leer(line, level, d2).text
    ensures Leer(line, level, d1).declared == d1 + {LeerTargets(line)[0]}
  {
  }

  /** A single indexed target, `a[i]`, declares nothing. */
  lemma LeerIndexedDeclaresNothing(line: string, level: int, declared: set<string>)
    requires |LeerTargets(line)| == 1 && FirstIndexed(LeerTargets(line)[0], 0).Some?
    ensures Leer(line, level, declared).declared == declared
  {
  }

  method ConvertLeer(line: string, level: int, vars: DeclaredVars) returns (text: string)
    modifies vars
    ensures Emitted(text, vars.names) == Leer(line, level, old(vars.names))
  {
    var targets := LeerTargets(line);
    var indent := GetIndent(level);
    if |targets| == 1 {
      match FirstIndexed(targets[0], 0)
      case Some((arr, index)) =>
        text := indent + arr + "[" + index + "] = parseFloat(prompt(\"Ingresa valor:\"));\n";
      case None =>
        vars.Add(targets[0]);
        text := PromptFor(indent, "", targets[0]) + "\n";
    } else {
      var lines := PromptEach(targets, indent, vars);
      text := Join(lines, "\n") + "\n";
    }
  }

  /** The `map` over several targets, adding each to the set as it goes. */
  method PromptEach(targets: seq<string>, indent: string, vars: DeclaredVars) returns (lines: seq<string>)
    modifies vars
    ensures lines == LeerEach(targets, indent, old(vars.names)).0
    ensures vars.names == LeerEach(targets, indent, old(vars.names)).1
  {
    lines := [];
    var i := 0;
    while i < |targets|
      invariant 0 <= i <= |targets|
      invariant LeerEach(targets, indent, old(vars.names)).0 == lines + LeerEachFrom(targets, i, indent, vars.names).0
      invariant LeerEach(targets, indent, old(vars.names)).1 == LeerEachFrom(targets, i, indent, vars.names).1
    {
      var v := targets[i];
      var decl := if v in vars.names then "" else "let ";
      ghost var rest := LeerEachFrom(targets, i + 1, indent, vars.names + {v});
      AppendAssoc(lines, [PromptFor(indent, decl, v)], rest.0);
      vars.Add(v);
      lines := lines + [PromptFor(indent, decl, v)];
      i := i + 1;
    }
  }

  // ------------------------------------------------------------ Escribir

  /** `convertEscribir`: the argument text is passed through unchanged. */
  function Escribir(line: string): string {
    "console.log(" + Trim(RemoveFirstCI(line, "escribir")) + ");"
  }

  /** `Escribir args` prints `args` verbatim: no operator or literal in the
      arguments is rewritten. */
  lemma EscribirKeepsArguments(args: string)
    requires args == [] || (!IsSpace(args[0]) && !IsSpace(args[|args| - 1]))
    ensures Escribir("Escribir " + args) == "console.log(" + args + ");"
  {
    EscribirKeyword(args);
    TrimAfterBlank(args);
  }

  /** The keyword of `Escribir args` is removed, the blank after it kept. */
  lemma EscribirKeyword(args: string)
    ensures RemoveFirstCI("Escribir " + args, "escribir") == " " + args
  {
    var s := "Escribir " + args;
    assert MatchAt(s, 0, "escribir", true) by {
      forall k | 0 <= k < 8 ensures Fold(s[0 + k], true) == "escribir"[k] {
        assert s[k] == "Escribir"[k];
      }
    }
    RemoveFirstAtStart(s, "escribir");
    assert s[8..] == " " + args;
  }

  // ---------------------------------------------------------- Asignacion

  /** `line.split('<-')` trimmed: the target and the text up to a second
      arrow, if any. */
  function AssignParts(line: string): (string, string)
    requires Contains(line, "<-")
  {
    var p := IndexOf(line, "<-", false, 0).value;
    var rest := line[p + 2..];
    var right := match IndexOf(rest, "<-", false, 0)
      case None => rest
      case Some(q) => rest[..q];
    (Trim(line[..p]), Trim(right))
  }

  function AssignText(decl: string, left: string, jsRight: string): string {
    decl + left + " = " + jsRight + ";"
  }

  /** `convertAsignacion`. */
  function Asignacion(line: string, declared: set<string>, forceDeclareOutside: bool): Emitted
    requires Contains(line, "<-")
  {
    var (left, right) := AssignParts(line);
    var jsRight := ReplaceBooleans(ConvertExpression(right));
    if '[' !in left && left !in declared then
      Emitted(AssignText(if forceDeclareOutside then "" else "let ", left, jsRight), declared + {left})
    else
      Emitted(AssignText("", left, jsRight), declared)
  }

  /** After an assignment its target is declared, unless it is indexed; a
      later assignment to the same target emits no `let`. */
  lemma AsignacionDeclaresOnce(line1: string, line2: string, declared: set<string>, force: bool)
    requires Contains(line1, "<-") && Contains(line2, "<-")
    requires AssignParts(line1).0 == AssignParts(line2).0
    ensures Asignacion(line1, declared, force).declared
      == if '[' in AssignParts(line1).0 then declared else declared + {AssignParts(line1).0}
    ensures Asignacion(line2, Asignacion(line1, declared, force).declared, force)
      == Emitted(AssignText("", AssignParts(line2).0, ReplaceBooleans(ConvertExpression(AssignParts(line2).1))),
                 Asignacion(line1, declared, force).declared)
  {
  }

  /** The first arrow after arrow-free text is found right after it. */
  lemma ArrowAfter(a: string, t: string)
    requires !Contains(a, "<-")
    ensures IndexOf(a + "<-" + t, "<-", false, 0) == Some(|a|)
  {
    var s := a + "<-" + t;
    assert MatchAt(s, |a|, "<-", false) by {
      assert s[|a| + 0] == '<' && s[|a| + 1] == '-';
    }
    assert NoMatchFrom(a, 0, "<-", false);
    forall j: nat | j < |a| ensures !MatchAt(s, j, "<-", false) {
      if MatchAt(s, j, "<-", false) {
        assert Fold(s[j + 0], false) == "<-"[0] && Fold(s[j + 1], false) == "<-"[1];
        if j + 2 <= |a| {
          assert a[j + 0] == '<' && a[j + 1] == '-';
          assert MatchAt(a, j, "<-", false);
        }
        assert false;
      }
    }
    var r := IndexOf(s, "<-", false, 0);
    assert !NoMatchFrom(s, 0, "<-", false);
    assert r.Some? && r.value == |a|;
  }

  /** Everything after a second arrow is dropped. */
  lemma AsignacionDropsAfterSecondArrow(a: string, b: string, c: string, declared: set<string>, force: bool)
    requires !Contains(a, "<-") && !Contains(b, "<-")
    ensures Contains(a + "<-" + b + "<-" + c, "<-") && Contains(a + "<-" + b, "<-")
    ensures Asignacion(a + "<-" + b + "<-" + c, declared, force) == Asignacion(a + "<-" + b, declared, force)
  {
    SecondArrowIgnored(a, b, c);
  }

  /** The parts of `a <- t` for arrow-free `a`. */
  lemma PartsAfterArrow(a: string, t: string)
    requires !Contains(a, "<-")
    ensures Contains(a + "<-" + t, "<-")
    ensures AssignParts(a + "<-" + t)
      == (Trim(a), Trim(match IndexOf(t, "<-", false, 0) case None => t case Some(q) => t[..q]))
  {
    var s := a + "<-" + t;
    ArrowAfter(a, t);
    assert s[..|a|] == a;
    assert s[|a| + 2..] == t;
  }

  lemma SecondArrowIgnored(a: string, b: string, c: string)
    requires !Contains(a, "<-") && !Contains(b, "<-")
    ensures Contains(a + "<-" + b + "<-" + c, "<-") && Contains(a + "<-" + b, "<-")
    ensures AssignParts(a + "<-" + b + "<-" + c) == AssignParts(a + "<-" + b)
  {
    assert a + "<-" + b + "<-" + c == a + "<-" + (b + "<-" + c);
    PartsAfterArrow(a, b + "<-" + c);
    PartsAfterArrow(a, b);
    ArrowAfter(b, c);
    assert (b + "<-" + c)[..|b|] == b;
  }

  method ConvertAsignacion(line: string, vars: DeclaredVars, forceDeclareOutside: bool) returns (text: string)
    requires Contains(line, "<-")
    modifies vars
    ensures Emitted(text, vars.names) == Asignacion(line, old(vars.names), forceDeclareOutside)
  {
    var (left, right) := AssignParts(line);
    var jsRight := ReplaceBooleans(ConvertExpression(right));
    var decl := "";
    if '[' !in left && left !in vars.names {
      vars.Add(left);
      decl := if forceDeclareOutside then "" else "let ";
    }
    text := AssignText(decl, left, jsRight);
  }
}
