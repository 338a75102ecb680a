/** Conversion of the control-structure headers (src/utils/pseint/structures.ts).

    `Si` and `Mientras` strip their keywords and rewrite the condition. `Para`
    and `Funcion` are recognised by regular expressions with lazy groups; the
    matchers below follow the order in which a backtracking engine tries the
    alternatives, so they capture what the source's patterns capture. */
module Structures {
  import opened Text
  import opened Helpers
  import opened Expressions

  /** `line.replace(/k1/i, '').replace(/k2/i, '').trim()`. */
  function StripKeywords(line: string, k1: string, k2: string): string {
    Trim(RemoveFirstCI(RemoveFirstCI(line, k1), k2))
  }

  /** `Kw` is the keyword `kw` written in any letter case. */
  predicate Spells(Kw: string, kw: string) {
    |Kw| == |kw| && forall k :: 0 <= k < |kw| ==> LowerChar(Kw[k]) == kw[k]
  }

  /** A condition that starts and ends with a non-blank. */
  predicate Trimmed(t: string) {
    t == [] || (!IsSpace(t[0]) && !IsSpace(t[|t| - 1]))
  }

  /** A keyword spelled in any case matches where it is written. */
  lemma SpelledAt(a: string, Kw: string, kw: string, b: string)
    requires Spells(Kw, kw)
    ensures HasAtCI(a + Kw + b, |a|, kw)
  {
    var s := a + Kw + b;
    forall k | 0 <= k < |kw| ensures Fold(s[|a| + k], true) == kw[k] {
      assert s[|a| + k] == Kw[k];
    }
  }

  /** The opening keyword, written in any case, is the first one removed. */
  lemma OpeningKeywordRemoved(K1: string, k1: string, rest: string)
    requires Spells(K1, k1)
    ensures RemoveFirstCI(K1 + rest, k1) == rest
  {
    var s := K1 + rest;
    SpelledAt([], K1, k1, rest);
    assert [] + K1 + rest == s;
    RemoveFirstAtStart(s, k1);
    assert s[|k1|..] == rest;
  }

  /** The closing keyword is found after the condition when the condition
      does not contain it. */
  lemma ClosingKeywordRemoved(cond: string, K2: string, k2: string)
    requires Spells(K2, k2) && |k2| > 0
    requires forall k :: 0 <= k < |k2| ==> k2[k] != ' '
    requires NoMatchFrom(cond, 0, k2, true)
    ensures RemoveFirstCI(" " + cond + " " + K2, k2) == " " + cond + " "
  {
    var pre := " " + cond + " ";
    var x := pre + K2;
    NoMatchInPadded(cond, K2, k2, true);
    SpelledAt(pre, K2, k2, []);
    assert pre + K2 + [] == x;
    FirstMatchAt(x, |pre|, k2, true);
    assert x[..|pre|] == pre;
    assert x[|pre| + |k2|..] == [];
  }

  /** `K1 cond K2` gives back `cond`, provided the closing keyword does not
      occur inside the condition. */
  lemma StripKeywordsReadsBack(K1: string, k1: string, cond: string, K2: string, k2: string)
    requires Spells(K1, k1) && Spells(K2, k2) && |k2| > 0
    requires forall k :: 0 <= k < |k2| ==> k2[k] != ' '
    requires Trimmed(cond) && NoMatchFrom(cond, 0, k2, true)
    ensures StripKeywords(K1 + " " + cond + " " + K2, k1, k2) == cond
  {
    assert K1 + " " + cond + " " + K2 == K1 + (" " + cond + " " + K2);
    OpeningKeywordRemoved(K1, k1, " " + cond + " " + K2);
    ClosingKeywordRemoved(cond, K2, k2);
    TrimBetweenBlanks(cond);
  }

  // ------------------------------------------------------------------ Si

  function SiCondition(line: string): string {
    StripKeywords(line, "si", "entonces")
  }

  /** `convertSi`: booleans are replaced before the condition rewrite, which
      replaces them again. */
  function ConvertSi(line: string): string {
    "if (" + ConvertCondition(ReplaceBooleans(SiCondition(line))) + ") {"
  }

  /** The extra boolean pass changes nothing. */
  lemma SiBooleansOnce(line: string)
    ensures ConvertSi(line) == "if (" + ConvertCondition(SiCondition(line)) + ") {"
  {
    ReplaceBooleansIdempotent(SiCondition(line));
  }

  /** `Si cond Entonces` becomes `if (<cond rewritten>) {`. */
  lemma SiReadsBack(cond: string)
    requires Trimmed(cond) && NoMatchFrom(cond, 0, "entonces", true)
    ensures ConvertSi("Si " + cond + " Entonces") == "if (" + ConvertCondition(cond) + ") {"
  {
    assert "Si " + cond + " Entonces" == "Si" + " " + cond + " " + "Entonces";
    StripKeywordsReadsBack("Si", "si", cond, "Entonces", "entonces");
    SiBooleansOnce("Si " + cond + " Entonces");
  }

  // ------------------------------------------------------------ Mientras

  /** `convertMientras`. */
  function ConvertMientras(line: string): string {
    "while (" + ConvertCondition(StripKeywords(line, "mientras", "hacer")) + ") {"
  }

  /** `Mientras cond Hacer` becomes `while (<cond rewritten>) {`. */
  lemma MientrasReadsBack(cond: string)
    requires Trimmed(cond) && NoMatchFrom(cond, 0, "hacer", true)
    ensures ConvertMientras("Mientras " + cond + " Hacer") == "while (" + ConvertCondition(cond) + ") {"
  {
    assert "Mientras " + cond + " Hacer" == "Mientras" + " " + cond + " " + "Hacer";
    StripKeywordsReadsBack("Mientras", "mientras", cond, "Hacer", "hacer");
  }

  // ---------------------------------------------------------------- Para

  /** The captures of the `Para` pattern. */
  datatype ParaParts = ParaParts(variable: string, inicio: string, fin: string, paso: Option<string>)

  /** `\s+kw` (i) at `t`: where the keyword starts. */
  function SpacedKeyword(s: string, t: nat, kw: string): (r: Option<nat>)
    requires t <= |s|
    ensures r.Some? ==> t < r.value && HasAtCI(s, r.value, kw)
  {
    var h := SkipSpaces(s, t);
    if h > t && HasAtCI(s, h, kw) then Some(h) else None
  }

  /** The lazy step group from `z`: its shortest end followed by `\s+hacer`. */
  function StepEnd(s: string, z: nat, k: nat): (r: Option<nat>)
    requires z < k
    decreases |s| - k
    ensures r.Some? ==> k <= r.value <= |s| && SpacedKeyword(s, r.value, "hacer").Some?
  {
    if k > |s| || IsLineTerminator(s[k - 1]) then None
    else if SpacedKeyword(s, k, "hacer").Some? then Some(k)
    else StepEnd(s, z, k + 1)
  }

  /** The greedy blanks before the step give back one at a time. */
  function StepGroup(s: string, lo: nat, z: nat): (r: Option<(nat, nat)>)
    requires lo <= z <= |s|
    decreases z - lo
    ensures r.Some? ==> lo <= r.value.0 < r.value.1 <= |s| && SpacedKeyword(s, r.value.1, "hacer").Some?
  {
    match (if z < |s| then StepEnd(s, z, z + 1) else None)
    case Some(k) => Some((z, k))
    case None => if z > lo then StepGroup(s, lo, z - 1) else None
  }

  /** `\s+con\s+paso\s+(.+?)\s+hacer` at `w`: the bounds of the step. */
  function StepClause(s: string, w: nat): (r: Option<(nat, nat)>)
    requires w <= |s|
    ensures r.Some? ==> w < r.value.0 < r.value.1 <= |s| && SpacedKeyword(s, r.value.1, "hacer").Some?
  {
    match SpacedKeyword(s, w, "con")
    case None => None
    case Some(x) =>
      match SpacedKeyword(s, x + 3, "paso")
      case None => None
      case Some(y) =>
        var z := SkipSpaces(s, y + 4);
        if z == y + 4 then None else StepGroup(s, y + 5, z)
  }

  /** What may follow the final value at `w`: the optional step clause,
      tried first, else `\s+hacer` alone (`Some(None)`). */
  function ParaTail(s: string, w: nat): (r: Option<Option<(nat, nat)>>)
    requires w <= |s|
    ensures r.Some? && r.value.Some? ==> w < r.value.value.0 < r.value.value.1 <= |s|
  {
    match StepClause(s, w)
    case Some(p) => Some(Some(p))
    case None => if SpacedKeyword(s, w, "hacer").Some? then Some(None) else None
  }

  /** The lazy final value from `v`: its end and the tail after it. */
  function FinEnd(s: string, v: nat, w: nat): (r: Option<(nat, Option<(nat, nat)>)>)
    requires v < w
    decreases |s| - w
    ensures r.Some? ==> w <= r.value.0 <= |s| && ParaTail(s, r.value.0) == Some(r.value.1)
  {
    if w > |s| || IsLineTerminator(s[w - 1]) then None
    else match ParaTail(s, w)
      case Some(tail) => Some((w, tail))
      case None => FinEnd(s, v, w + 1)
  }

  function FinGroup(s: string, lo: nat, v: nat): (r: Option<(nat, nat, Option<(nat, nat)>)>)
    requires lo <= v <= |s|
    decreases v - lo
    ensures r.Some? ==> lo <= r.value.0 < r.value.1 <= |s| && ParaTail(s, r.value.1) == Some(r.value.2)
  {
    match (if v < |s| then FinEnd(s, v, v + 1) else None)
    case Some((w, tail)) => Some((v, w, tail))
    case None => if v > lo then FinGroup(s, lo, v - 1) else None
  }

  /** `\s+hasta\s+(.+?)` and the tail, at `t`. */
  function HastaClause(s: string, t: nat): (r: Option<(nat, nat, Option<(nat, nat)>)>)
    requires t <= |s|
    ensures r.Some? ==> t < r.value.0 < r.value.1 <= |s| && ParaTail(s, r.value.1) == Some(r.value.2)
  {
    match SpacedKeyword(s, t, "hasta")
    case None => None
    case Some(h) =>
      var u := SkipSpaces(s, h + 5);
      if u == h + 5 then None else FinGroup(s, h + 6, u)
  }

  /** The lazy initial value from `g`. */
  function IniEnd(s: string, g: nat, t: nat): (r: Option<(nat, (nat, nat, Option<(nat, nat)>))>)
    requires g < t
    decreases |s| - t
    ensures r.Some? ==> t <= r.value.0 <= |s| && HastaClause(s, r.value.0) == Some(r.value.1)
  {
    if t > |s| || IsLineTerminator(s[t - 1]) then None
    else match HastaClause(s, t)
      case Some(rest) => Some((t, rest))
      case None => IniEnd(s, g, t + 1)
  }

  function IniGroup(s: string, lo: nat, g: nat): (r: Option<(nat, nat, (nat, nat, Option<(nat, nat)>))>)
    requires lo <= g <= |s|
    decreases g - lo
    ensures r.Some? ==> lo <= r.value.0 < r.value.1 <= |s| && HastaClause(s, r.value.1) == Some(r.value.2)
  {
    match (if g < |s| then IniEnd(s, g, g + 1) else None)
    case Some((t, rest)) => Some((g, t, rest))
    case None => if g > lo then IniGroup(s, lo, g - 1) else None
  }

  /** `\s*(.+?)\s+hasta...` after the arrow ending at `c`: the greedy blanks
      first, giving back one at a time. */
  function IniFrom(s: string, c: nat): (r: Option<(nat, nat, (nat, nat, Option<(nat, nat)>))>)
    requires c <= |s|
    ensures r.Some? ==> c <= r.value.0 < r.value.1 <= |s| && HastaClause(s, r.value.1) == Some(r.value.2)
  {
    IniGroup(s, c, SkipSpaces(s, c))
  }

  /** Where `\s*(?:<-|=)` ends after `e`, if it matches. */
  function AssignArrow(s: string, e: nat): (r: Option<nat>)
    requires e <= |s|
    ensures r.Some? ==> e < r.value <= |s|
  {
    var b := SkipSpaces(s, e);
    if HasAt(s, b, "<-") then Some(b + 2)
    else if b < |s| && s[b] == '=' then Some(b + 1)
    else None
  }

  /** `para\s+(\w+)\s*(?:<-|=)` (i) at `i`: where the variable starts and
      ends, and where the arrow ends. */
  function ParaHead(s: string, i: nat): (r: Option<(nat, nat, nat)>)
    ensures r.Some? ==> i + 4 < r.value.0 < r.value.1 < r.value.2 <= |s|
  {
    if !HasAtCI(s, i, "para") then None
    else
      var a := SkipSpaces(s, i + 4);
      var e := WordEnd(s, a);
      if a == i + 4 || e == a then None
      else match AssignArrow(s, e)
        case None => None
        case Some(c) => Some((a, e, c))
  }

  /** `para\s+(\w+)\s*(?:<-|=)\s*(.+?)\s+hasta\s+(.+?)(?:\s+con\s+paso\s+(.+?))?\s+hacer`
      (i) at `i`. */
  function ParaAt(s: string, i: nat): (r: Option<ParaParts>)
  {
    match ParaHead(s, i)
    case None => None
    case Some((a, e, c)) =>
      match IniFrom(s, c)
      case None => None
      case Some((g, t, (v, w, tail))) =>
        Some(ParaParts(s[a..e], s[g..t], s[v..w],
                       match tail case None => None case Some((z, k)) => Some(s[z..k])))
  }

  /** The leftmost match at or after `i`. */
  function FirstPara(s: string, i: nat): (r: Option<ParaParts>)
    decreases |s| - i
  {
    if i >= |s| then None
    else match ParaAt(s, i)
      case Some(p) => Some(p)
      case None => FirstPara(s, i + 1)
  }

  /** The first match in the line, as `line.match` finds it. */
  function MatchPara(line: string): Option<ParaParts> {
    FirstPara(line, 0)
  }

  /** The loop header for matched parts, after `for (` and the optional `let `. */
  function LoopControl(p: ParaParts): string {
    var inicio := ConvertExpression(Trim(p.inicio));
    var fin := ConvertExpression(Trim(p.fin));
    var paso := ConvertExpression(Trim(match p.paso case None => "1" case Some(x) => x));
    p.variable + " = " + inicio + "; " + p.variable + " <= " + fin + "; " + p.variable + " += " + paso + ") {"
  }

  function ForHeader(p: ParaParts, declared: set<string>): string {
    "for (" + (if p.variable in declared then "" else "let ") + LoopControl(p)
  }

  /** `convertPara`. The declared set is read, never extended. */
  function ConvertPara(line: string, declared: set<string>): string {
    match MatchPara(line)
    case None => "// Para no convertido: " + line
    case Some(p) => ForHeader(p, declared)
  }

  /** A converted header always opens with `for (`. */
  lemma ForHeaderOpensLoop(p: ParaParts, declared: set<string>)
    ensures ForHeader(p, declared)[0] == 'f'
  {
  }

  /** The declared set decides one thing only: whether `let ` is written
      in front of the loop variable. */
  lemma ForHeaderLetOnlyWhenNew(p: ParaParts, d1: set<string>, d2: set<string>)
    requires p.variable !in d1 && p.variable in d2
    ensures ForHeader(p, d1) == "for (let " + ForHeader(p, d2)[5..]
  {
    var control := LoopControl(p);
    assert ForHeader(p, d2) == "for (" + control;
    assert ("for (" + control)[5..] == control;
  }

  /** A header without `Con Paso` steps by one. */
  lemma ParaStepDefaultsToOne(p: ParaParts, declared: set<string>)
    requires p.paso.None?
    ensures ForHeader(p, declared) == ForHeader(p.(paso := Some("1")), declared)
  {
  }

  /** A header the pattern rejects comes back as a comment. */
  lemma ParaUnmatchedIsComment(line: string, declared: set<string>)
    requires MatchPara(line).None?
    ensures StartsWith(ConvertPara(line, declared), "//")
  {
    var r := ConvertPara(line, declared);
    assert r == "// Para no convertido: " + line;
    assert r[..2] == "//";
  }

  /** A header the pattern accepts comes back as a loop, not a comment. */
  lemma ParaMatchedIsLoop(line: string, declared: set<string>)
    requires MatchPara(line).Some?
    ensures !StartsWith(ConvertPara(line, declared), "//")
  {
    var p := MatchPara(line).value;
    ForHeaderOpensLoop(p, declared);
    var r := ConvertPara(line, declared);
    assert r == ForHeader(p, declared);
    assert |r| >= 2 ==> r[..2][0] == 'f';
  }

  /** The caller detects a failed header by its comment prefix; that prefix
      appears exactly when no match was found. */
  lemma ParaCommentIffNoMatch(line: string, declared: set<string>)
    ensures StartsWith(ConvertPara(line, declared), "//") <==> MatchPara(line).None?
  {
    if MatchPara(line).Some? {
      ParaMatchedIsLoop(line, declared);
    } else {
      ParaUnmatchedIsComment(line, declared);
    }
  }

  /** Both tails end in `\s+hacer`, so neither is found without one. */
  lemma ParaTailNeedsHacer(s: string, w: nat)
    requires w <= |s| && NoMatchFrom(s, 0, "hacer", true)
    ensures ParaTail(s, w).None?
  {
  }

  /** The pattern cannot match at `i` without a `hacer` in the line. */
  lemma ParaAtNeedsHacer(s: string, i: nat)
    requires NoMatchFrom(s, 0, "hacer", true)
    ensures ParaAt(s, i).None?
  {
    if ParaHead(s, i).Some? {
      var found := IniFrom(s, ParaHead(s, i).value.2);
      if found.Some? {
        ParaTailNeedsHacer(s, found.value.2.1);
      }
    }
  }

  /** Nor anywhere from `i` on. */
  lemma {:induction false} FirstParaNeedsHacer(s: string, i: nat)
    requires NoMatchFrom(s, 0, "hacer", true)
    ensures FirstPara(s, i).None?
    decreases |s| - i
  {
    if i < |s| {
      ParaAtNeedsHacer(s, i);
      FirstParaNeedsHacer(s, i + 1);
    }
  }

  /** Without a `hacer` anywhere, the header is not converted. */
  lemma ParaNeedsHacer(line: string, declared: set<string>)
    requires NoMatchFrom(line, 0, "hacer", true)
    ensures ConvertPara(line, declared) == "// Para no convertido: " + line
  {
    FirstParaNeedsHacer(line, 0);
    assert MatchPara(line).None?;
  }

  // ------------------------------------------------- Para, read back

  /** A keyword cannot start inside a stretch `s[lo..hi]` that does not hold
      it, when the stretch is closed by a blank. */
  lemma KeywordNotInside(s: string, lo: nat, hi: nat, kw: string, p: nat)
    requires lo <= p < hi < |s| && s[hi] == ' '
    requires forall k :: 0 <= k < |kw| ==> kw[k] != ' '
    requires NoMatchFrom(s[lo..hi], 0, kw, true)
    ensures !HasAtCI(s, p, kw)
  {
    if p + |kw| <= hi {
      assert !MatchAt(s[lo..hi], p - lo, kw, true);
      var k :| 0 <= k < |kw| && Fold(s[lo..hi][p - lo + k], true) != kw[k];
      assert s[lo..hi][p - lo + k] == s[p + k];
    } else if p + |kw| <= |s| {
      assert Fold(s[p + (hi - p)], true) != kw[hi - p];
    }
  }

  /** Hence no `\s+kw` is found from inside such a stretch when it ends in a
      non-blank. */
  lemma SpacedKeywordNotInside(s: string, lo: nat, hi: nat, kw: string, q: nat)
    requires lo <= q < hi < |s| && s[hi] == ' ' && !IsSpace(s[hi - 1])
    requires forall k :: 0 <= k < |kw| ==> kw[k] != ' '
    requires NoMatchFrom(s[lo..hi], 0, kw, true)
    ensures SpacedKeyword(s, q, kw).None?
  {
    var h := SkipSpaces(s, q);
    SkippedAreSpaces(s, q);
    assert h < hi;
    KeywordNotInside(s, lo, hi, kw, h);
  }

  /** From `t` up to `t1` every end of a lazy group lies on the line and
      is not followed by `\s+kw`, so the group passes over all of them. */
  predicate KeywordFree(s: string, t: nat, t1: nat, kw: string)
    decreases t1 - t
  {
    || t >= t1
    || (&& 0 < t < |s| && !IsLineTerminator(s[t - 1]) && SpacedKeyword(s, t, kw).None?
        && KeywordFree(s, t + 1, t1, kw))
  }

  /** A value `s[lo..hi]` as the loop patterns capture it: not empty, on one
      line, with no blank at either end. */
  predicate Stretch(s: string, lo: nat, hi: nat) {
    && lo < hi < |s| && s[hi] == ' '
    && !IsSpace(s[lo]) && !IsSpace(s[hi - 1])
    && forall k {:trigger IsLineTerminator(s[k])} :: lo <= k < hi ==> !IsLineTerminator(s[k])
  }

  /** A trimmed one-line value written before a blank is a stretch. */
  lemma ValueStretch(s: string, lo: nat, hi: nat, t: string)
    requires lo < hi < |s| && s[hi] == ' ' && s[lo..hi] == t
    requires Trimmed(t) && OneLine(t)
    ensures Stretch(s, lo, hi)
  {
    forall k | lo <= k < hi ensures !IsLineTerminator(s[k]) {
      assert s[k] == t[k - lo];
    }
  }

  /** Inside a stretch that does not hold `kw`, every end is free of it. */
  lemma {:induction false} StretchKeywordFree(s: string, lo: nat, t: nat, hi: nat, kw: string)
    requires Stretch(s, lo, hi) && lo < t <= hi
    requires forall k :: 0 <= k < |kw| ==> kw[k] != ' '
    requires NoMatchFrom(s[lo..hi], 0, kw, true)
    ensures KeywordFree(s, t, hi, kw)
    decreases hi - t
  {
    if t < hi {
      SpacedKeywordNotInside(s, lo, hi, kw, t);
      StretchKeywordFree(s, lo, t + 1, hi, kw);
    }
  }

  /** The lazy step group stops at the first end followed by `\s+hacer`. */
  lemma {:induction false} StepEndRun(s: string, z: nat, k: nat, k1: nat)
    requires z < k <= k1 <= |s| && KeywordFree(s, k, k1, "hacer")
    requires !IsLineTerminator(s[k1 - 1]) && SpacedKeyword(s, k1, "hacer").Some?
    ensures StepEnd(s, z, k) == Some(k1)
    decreases k1 - k
  {
    if k < k1 {
      StepEndStep(s, z, k);
      StepEndRun(s, z, k + 1, k1);
    }
  }

  /** One end free of `hacer` is passed over. */
  lemma StepEndStep(s: string, z: nat, k: nat)
    requires z < k < |s| && !IsLineTerminator(s[k - 1]) && SpacedKeyword(s, k, "hacer").None?
    ensures StepEnd(s, z, k) == StepEnd(s, z, k + 1)
  {
  }

  /** The lazy final value passes over every end free of `con` and `hacer`... */
  lemma {:induction false} FinEndSkips(s: string, v: nat, w: nat, w1: nat)
    requires v < w <= w1 && KeywordFree(s, w, w1, "con") && KeywordFree(s, w, w1, "hacer")
    ensures FinEnd(s, v, w) == FinEnd(s, v, w1)
    decreases w1 - w
  {
    if w < w1 {
      FinEndStep(s, v, w);
      FinEndSkips(s, v, w + 1, w1);
    }
  }

  /** One end free of `con` and `hacer` is passed over. */
  lemma FinEndStep(s: string, v: nat, w: nat)
    requires v < w < |s| && !IsLineTerminator(s[w - 1])
    requires SpacedKeyword(s, w, "con").None? && SpacedKeyword(s, w, "hacer").None?
    ensures FinEnd(s, v, w) == FinEnd(s, v, w + 1)
  {
  }

  /** The lazy initial value passes over every end free of `hasta`... */
  lemma {:induction false} IniEndSkips(s: string, g: nat, t: nat, t1: nat)
    requires g < t <= t1 && KeywordFree(s, t, t1, "hasta")
    ensures IniEnd(s, g, t) == IniEnd(s, g, t1)
    decreases t1 - t
  {
    if t < t1 {
      IniEndStep(s, g, t);
      IniEndSkips(s, g, t + 1, t1);
    }
  }

  /** One end free of `hasta` is passed over. */
  lemma IniEndStep(s: string, g: nat, t: nat)
    requires g < t < |s| && !IsLineTerminator(s[t - 1]) && SpacedKeyword(s, t, "hasta").None?
    ensures IniEnd(s, g, t) == IniEnd(s, g, t + 1)
  {
  }

  /** ` kw` at `w`, for a keyword that starts with a letter. */
  lemma KeywordAt(s: string, w: nat, kw: string)
    requires w + 1 + |kw| <= |s| && s[w] == ' ' && HasAtCI(s, w + 1, kw)
    requires |kw| > 0 && 'a' <= kw[0] <= 'z'
    ensures SpacedKeyword(s, w, kw) == Some(w + 1)
  {
    KeywordLetter(s, w + 1, kw);
    SkipSpacesRun(s, w, w + 1);
  }

  /** A tail the pattern accepts, laid out after the final value at `w`:
      ` hacer`, or ` con paso st hacer` with the step at `z..k`. */
  ghost predicate TailLaid(s: string, w: nat, tail: Option<(nat, nat)>) {
    match tail
    case None => w + 6 <= |s| && s[w] == ' ' && HasAtCI(s, w + 1, "hacer")
    case Some((z, k)) =>
      && z == w + 10 && k + 6 <= |s| && Stretch(s, z, k)
      && s[w] == ' ' && HasAtCI(s, w + 1, "con") && s[w + 4] == ' '
      && HasAtCI(s, w + 5, "paso") && s[w + 9] == ' '
      && HasAtCI(s, k + 1, "hacer") && NoMatchFrom(s[z..k], 0, "hacer", true)
  }

  /** ` hacer` at `w` ends the header without a step. */
  lemma TailWithoutStep(s: string, w: nat)
    requires w + 6 <= |s| && s[w] == ' ' && HasAtCI(s, w + 1, "hacer")
    ensures ParaTail(s, w) == Some(None)
  {
    KeywordAt(s, w, "hacer");
    assert Fold(s[w + 1 + 0], true) != "con"[0];
    assert SpacedKeyword(s, w, "con") == None;
  }

  /** ` con paso ` at `w`, the step starting at `w+10`. */
  lemma ConPasoAt(s: string, w: nat)
    requires w + 10 < |s| && !IsSpace(s[w + 10])
    requires s[w] == ' ' && HasAtCI(s, w + 1, "con") && s[w + 4] == ' '
    requires HasAtCI(s, w + 5, "paso") && s[w + 9] == ' '
    ensures SpacedKeyword(s, w, "con") == Some(w + 1)
    ensures SpacedKeyword(s, w + 4, "paso") == Some(w + 5)
    ensures SkipSpaces(s, w + 9) == w + 10
  {
    KeywordAt(s, w, "con");
    KeywordAt(s, w + 4, "paso");
    SkipSpacesRun(s, w + 9, w + 10);
  }

  /** The step clause whose lazy group from `w+10` ends at `k`. */
  lemma StepClauseAt(s: string, w: nat, k: nat)
    requires w + 10 < k <= |s|
    requires SpacedKeyword(s, w, "con") == Some(w + 1)
    requires SpacedKeyword(s, w + 4, "paso") == Some(w + 5)
    requires SkipSpaces(s, w + 9) == w + 10
    requires StepEnd(s, w + 10, w + 11) == Some(k)
    ensures ParaTail(s, w) == Some(Some((w + 10, k)))
  {
    assert StepGroup(s, w + 10, w + 10) == Some((w + 10, k));
  }

  /** ` con paso st hacer` at `w`, with the step `st` at `w+10..k`. */
  lemma TailWithStep(s: string, w: nat, k: nat)
    requires w + 10 <= k && k + 6 <= |s| && Stretch(s, w + 10, k)
    requires s[w] == ' ' && HasAtCI(s, w + 1, "con") && s[w + 4] == ' '
    requires HasAtCI(s, w + 5, "paso") && s[w + 9] == ' '
    requires HasAtCI(s, k + 1, "hacer")
    requires NoMatchFrom(s[w + 10..k], 0, "hacer", true)
    ensures ParaTail(s, w) == Some(Some((w + 10, k)))
  {
    ConPasoAt(s, w);
    KeywordAt(s, k, "hacer");
    StretchKeywordFree(s, w + 10, w + 11, k, "hacer");
    StepEndRun(s, w + 10, w + 11, k);
    StepClauseAt(s, w, k);
  }

  /** Either tail reads back as laid out. */
  lemma TailReads(s: string, w: nat, tail: Option<(nat, nat)>)
    requires TailLaid(s, w, tail) == true
    ensures ParaTail(s, w) == Some(tail)
  {
    match tail
    case None => TailWithoutStep(s, w);
    case Some((z, k)) => TailWithStep(s, w, k);
  }

  /** The final value `s[v..w1]`, free of `con` and `hacer`, then the tail:
      the lazy group passes over every earlier end and stops at `w1`. */
  lemma FinalValue(s: string, v: nat, w1: nat, tail: Option<(nat, nat)>)
    requires TailLaid(s, w1, tail) == true && v < w1 <= |s| && !IsLineTerminator(s[w1 - 1])
    requires KeywordFree(s, v + 1, w1, "con") && KeywordFree(s, v + 1, w1, "hacer")
    ensures FinGroup(s, v, v) == Some((v, w1, tail))
  {
    FinEndSkips(s, v, v + 1, w1);
    TailReads(s, w1, tail);
    calc {
      FinEnd(s, v, v + 1);
      FinEnd(s, v, w1);
      Some((w1, tail));
    }
  }

  /** ` hasta ` at `a1`, then the final value at `a1+7..b1` and the tail. */
  lemma HastaFinal(s: string, a1: nat, b1: nat, tail: Option<(nat, nat)>)
    requires TailLaid(s, b1, tail) == true && a1 + 7 < b1 <= |s| && !IsSpace(s[a1 + 7])
    requires s[a1] == ' ' && HasAtCI(s, a1 + 1, "hasta") && s[a1 + 6] == ' '
    requires !IsLineTerminator(s[b1 - 1])
    requires KeywordFree(s, a1 + 8, b1, "con") && KeywordFree(s, a1 + 8, b1, "hacer")
    ensures HastaClause(s, a1) == Some((a1 + 7, b1, tail))
  {
    KeywordAt(s, a1, "hasta");
    SkipSpacesRun(s, a1 + 6, a1 + 7);
    assert HastaClause(s, a1) == FinGroup(s, a1 + 7, a1 + 7);
    FinalValue(s, a1 + 7, b1, tail);
  }

  /** The initial value `s[g..a1]`, free of `hasta`, then the rest: the lazy
      group passes over every earlier end and stops at `a1`. */
  lemma InitialValue(s: string, lo: nat, g: nat, a1: nat, b1: nat, tail: Option<(nat, nat)>)
    requires TailLaid(s, b1, tail) == true && lo <= g < a1 && a1 + 7 < b1 <= |s| && !IsSpace(s[a1 + 7])
    requires s[a1] == ' ' && HasAtCI(s, a1 + 1, "hasta") && s[a1 + 6] == ' '
    requires !IsLineTerminator(s[a1 - 1]) && KeywordFree(s, g + 1, a1, "hasta")
    requires !IsLineTerminator(s[b1 - 1])
    requires KeywordFree(s, a1 + 8, b1, "con") && KeywordFree(s, a1 + 8, b1, "hacer")
    requires SkipSpaces(s, lo) == g
    ensures IniFrom(s, lo) == Some((g, a1, (a1 + 7, b1, tail)))
  {
    IniEndSkips(s, g, g + 1, a1);
    HastaFinal(s, a1, b1, tail);
    calc {
      IniEnd(s, g, g + 1);
      IniEnd(s, g, a1);
      Some((a1, (a1 + 7, b1, tail)));
    }
  }

  /** `para v <- ` at the start, with the variable at `5..e` and the initial
      value from `e+4`. */
  lemma ArrowHead(s: string, e: nat)
    requires 5 < e && e + 4 < |s| && HasAtCI(s, 0, "para") && s[4] == ' '
    requires forall k :: 5 <= k < e ==> IsWordChar(s[k])
    requires s[e] == ' ' && s[e + 1] == '<' && s[e + 2] == '-' && s[e + 3] == ' '
    requires !IsSpace(s[e + 4])
    ensures ParaHead(s, 0) == Some((5, e, e + 3))
    ensures SkipSpaces(s, e + 3) == e + 4
  {
    SkipSpacesRun(s, 4, 5);
    WordEndRun(s, 5, e);
    SkipSpacesRun(s, e, e + 1);
    assert HasAt(s, e + 1, "<-");
    SkipSpacesRun(s, e + 3, e + 4);
  }

  /** The two values of a header, `s[g..a1]` without `hasta` and
      `s[a1+7..b1]` without `con` or `hacer`: every end inside them is
      passed over. */
  lemma ValuesFree(s: string, g: nat, a1: nat, b1: nat)
    requires Stretch(s, g, a1) && NoMatchFrom(s[g..a1], 0, "hasta", true)
    requires a1 + 7 < b1 && Stretch(s, a1 + 7, b1)
    requires NoMatchFrom(s[a1 + 7..b1], 0, "con", true) && NoMatchFrom(s[a1 + 7..b1], 0, "hacer", true)
    ensures KeywordFree(s, g + 1, a1, "hasta") && !IsLineTerminator(s[a1 - 1])
    ensures KeywordFree(s, a1 + 8, b1, "con") && KeywordFree(s, a1 + 8, b1, "hacer")
    ensures !IsLineTerminator(s[b1 - 1]) && !IsSpace(s[a1 + 7])
  {
    StretchKeywordFree(s, g, g + 1, a1, "hasta");
    StretchKeywordFree(s, a1 + 7, a1 + 8, b1, "con");
    StretchKeywordFree(s, a1 + 7, a1 + 8, b1, "hacer");
  }

  /** A header at the start whose pieces are known matches there: the
      variable at `5..e`, the arrow, and the groups found after it. */
  lemma ParaAtStart(s: string, e: nat, g: nat, t: nat, v: nat, w: nat, tail: Option<(nat, nat)>)
    requires ParaHead(s, 0) == Some((5, e, e + 3))
    requires IniFrom(s, e + 3) == Some((g, t, (v, w, tail)))
    ensures g <= t <= |s| && v <= w <= |s|
    ensures ParaAt(s, 0) == Some(ParaParts(s[5..e], s[g..t], s[v..w],
                                           match tail case None => None case Some((z, k)) => Some(s[z..k])))
  {
  }

  /** The same with the values laid out as `para v <- a hasta b`. */
  lemma ParaAtLaid(s: string, e: nat, a1: nat, b1: nat, tail: Option<(nat, nat)>)
    requires ParaHead(s, 0) == Some((5, e, e + 3))
    requires IniFrom(s, e + 3) == Some((e + 4, a1, (a1 + 7, b1, tail)))
    ensures ParaAt(s, 0) == Some(ParaParts(s[5..e], s[e + 4..a1], s[a1 + 7..b1],
                                           match tail case None => None case Some((z, k)) => Some(s[z..k])))
  {
    ParaAtStart(s, e, e + 4, a1, a1 + 7, b1, tail);
  }

  /** The first match is the one at `i` when there is one there. */
  lemma FirstParaAt(s: string, i: nat)
    requires i < |s| && ParaAt(s, i).Some?
    ensures FirstPara(s, i) == ParaAt(s, i)
  {
  }

  /** A header laid out as `para v <- a hasta b` and a tail the pattern
      accepts, with `v` at `5..e`, `a` at `e+4..a1` and `b` at `a1+7..b1`. */
  ghost predicate HeaderLaid(s: string, e: nat, a1: nat, b1: nat, tail: Option<(nat, nat)>) {
    && 5 < e && e + 4 < a1 && a1 + 7 < b1 && b1 < |s|
    && HasAtCI(s, 0, "para") && s[4] == ' '
    && (forall k :: 5 <= k < e ==> IsWordChar(s[k]))
    && s[e] == ' ' && s[e + 1] == '<' && s[e + 2] == '-' && s[e + 3] == ' '
    && Stretch(s, e + 4, a1) && NoMatchFrom(s[e + 4..a1], 0, "hasta", true)
    && HasAtCI(s, a1 + 1, "hasta") && s[a1 + 6] == ' '
    && Stretch(s, a1 + 7, b1)
    && NoMatchFrom(s[a1 + 7..b1], 0, "con", true) && NoMatchFrom(s[a1 + 7..b1], 0, "hacer", true)
    && TailLaid(s, b1, tail)
  }

  /** A header so laid out matches at the start with the captures the
      layout gives. */
  lemma ParaLayout(s: string, e: nat, a1: nat, b1: nat, tail: Option<(nat, nat)>, p: ParaParts)
    requires HeaderLaid(s, e, a1, b1, tail) == true
    requires s[5..e] == p.variable && s[e + 4..a1] == p.inicio && s[a1 + 7..b1] == p.fin
    requires p.paso == match tail case None => None case Some((z, k)) => Some(s[z..k])
    ensures MatchPara(s) == Some(p)
  {
    ArrowHead(s, e);
    ValuesFree(s, e + 4, a1, b1);
    InitialValue(s, e + 3, e + 4, a1, b1, tail);
    ParaAtLaid(s, e, a1, b1, tail);
    FirstParaAt(s, 0);
  }

  /** No line terminator in `t`. */
  predicate OneLine(t: string) {
    forall k :: 0 <= k < |t| ==> !IsLineTerminator(t[k])
  }

  /** `Para v <- a Hasta b Hacer` reads back as the parts it spells, with no
      step, when neither value holds a keyword that would end it earlier. */
  lemma ParaReadsBack(s: string, v: string, a: string, b: string, declared: set<string>)
    requires IsWord(v)
    requires |a| > 0 && Trimmed(a) && OneLine(a) && NoMatchFrom(a, 0, "hasta", true)
    requires |b| > 0 && Trimmed(b) && OneLine(b)
    requires NoMatchFrom(b, 0, "con", true) && NoMatchFrom(b, 0, "hacer", true)
    requires s == "Para " + v + " <- " + a + " Hasta " + b + " Hacer"
    ensures MatchPara(s) == Some(ParaParts(v, a, b, None))
    ensures ConvertPara(s, declared) == ForHeader(ParaParts(v, a, b, Some("1")), declared)
  {
    var e := 5 + |v|;
    var a1 := e + 4 + |a|;
    var b1 := a1 + 7 + |b|;
    PlainLineLaid(s, v, a, b, e, a1, b1);
    ParaLayout(s, e, a1, b1, None, ParaParts(v, a, b, None));
    ConvertParaMatched(s, ParaParts(v, a, b, None), declared);
    ParaStepDefaultsToOne(ParaParts(v, a, b, None), declared);
  }

  /** `Para v <- a Hasta b Con Paso st Hacer` reads back with its step. */
  lemma ParaStepReadsBack(s: string, v: string, a: string, b: string, st: string, declared: set<string>)
    requires IsWord(v)
    requires |a| > 0 && Trimmed(a) && OneLine(a) && NoMatchFrom(a, 0, "hasta", true)
    requires |b| > 0 && Trimmed(b) && OneLine(b)
    requires NoMatchFrom(b, 0, "con", true) && NoMatchFrom(b, 0, "hacer", true)
    requires |st| > 0 && Trimmed(st) && OneLine(st) && NoMatchFrom(st, 0, "hacer", true)
    requires s == "Para " + v + " <- " + a + " Hasta " + b + " Con Paso " + st + " Hacer"
    ensures MatchPara(s) == Some(ParaParts(v, a, b, Some(st)))
    ensures ConvertPara(s, declared) == ForHeader(ParaParts(v, a, b, Some(st)), declared)
  {
    var e := 5 + |v|;
    var a1 := e + 4 + |a|;
    var b1 := a1 + 7 + |b|;
    var k := b1 + 10 + |st|;
    StepLineLaid(s, v, a, b, st, e, a1, b1, k);
    ParaLayout(s, e, a1, b1, Some((b1 + 10, k)), ParaParts(v, a, b, Some(st)));
    ConvertParaMatched(s, ParaParts(v, a, b, Some(st)), declared);
  }

  /** What `ConvertPara` writes for a header the pattern accepts. */
  lemma ConvertParaMatched(s: string, p: ParaParts, declared: set<string>)
    requires MatchPara(s) == Some(p)
    ensures ConvertPara(s, declared) == ForHeader(p, declared)
  {
  }

  /** A header without a step, laid out as the layout lemma expects it. */
  lemma PlainLineLaid(s: string, v: string, a: string, b: string, e: nat, a1: nat, b1: nat)
    requires IsWord(v)
    requires |a| > 0 && Trimmed(a) && OneLine(a) && NoMatchFrom(a, 0, "hasta", true)
    requires |b| > 0 && Trimmed(b) && OneLine(b)
    requires NoMatchFrom(b, 0, "con", true) && NoMatchFrom(b, 0, "hacer", true)
    requires s == "Para " + v + " <- " + a + " Hasta " + b + " Hacer"
    requires e == 5 + |v| && a1 == e + 4 + |a| && b1 == a1 + 7 + |b|
    ensures HeaderLaid(s, e, a1, b1, None)
    ensures s[5..e] == v && s[e + 4..a1] == a && s[a1 + 7..b1] == b
  {
    PlainLine(s, v, a, b, e, a1, b1);
    WordAt(s, 5, e, v);
    ValueStretch(s, e + 4, a1, a);
    ValueStretch(s, a1 + 7, b1, b);
  }

  /** A header with a step, laid out as the layout lemma expects it. */
  lemma StepLineLaid(s: string, v: string, a: string, b: string, st: string, e: nat, a1: nat, b1: nat, k: nat)
    requires IsWord(v)
    requires |a| > 0 && Trimmed(a) && OneLine(a) && NoMatchFrom(a, 0, "hasta", true)
    requires |b| > 0 && Trimmed(b) && OneLine(b)
    requires NoMatchFrom(b, 0, "con", true) && NoMatchFrom(b, 0, "hacer", true)
    requires |st| > 0 && Trimmed(st) && OneLine(st) && NoMatchFrom(st, 0, "hacer", true)
    requires s == "Para " + v + " <- " + a + " Hasta " + b + " Con Paso " + st + " Hacer"
    requires e == 5 + |v| && a1 == e + 4 + |a| && b1 == a1 + 7 + |b| && k == b1 + 10 + |st|
    ensures HeaderLaid(s, e, a1, b1, Some((b1 + 10, k)))
    ensures s[5..e] == v && s[e + 4..a1] == a && s[a1 + 7..b1] == b && s[b1 + 10..k] == st
  {
    StepLineFront(s, v, a, b, st, e, a1);
    StepLineBack(s, v, a, b, st, a1, b1, k);
    WordAt(s, 5, e, v);
    ValueStretch(s, e + 4, a1, a);
    ValueStretch(s, a1 + 7, b1, b);
    ValueStretch(s, b1 + 10, k, st);
  }

  /** A word written at `lo` is made of word characters there. */
  lemma WordAt(s: string, lo: nat, hi: nat, v: string)
    requires lo <= hi <= |s| && s[lo..hi] == v && IsWord(v)
    ensures lo < hi && forall k :: lo <= k < hi ==> IsWordChar(s[k])
  {
    forall k | lo <= k < hi ensures IsWordChar(s[k]) {
      assert s[k] == v[k - lo];
    }
  }

  /** The keywords and values of a header without a step, where the layout
      lemma expects them. */
  lemma PlainLine(s: string, v: string, a: string, b: string, e: nat, a1: nat, b1: nat)
    requires s == "Para " + v + " <- " + a + " Hasta " + b + " Hacer"
    requires e == 5 + |v| && a1 == e + 4 + |a| && b1 == a1 + 7 + |b|
    ensures HasAtCI(s, 0, "para") && s[4] == ' ' && s[5..e] == v
    ensures s[e] == ' ' && s[e + 1] == '<' && s[e + 2] == '-' && s[e + 3] == ' '
    ensures s[e + 4..a1] == a && s[a1] == ' ' && HasAtCI(s, a1 + 1, "hasta") && s[a1 + 6] == ' '
    ensures s[a1 + 7..b1] == b && b1 + 6 == |s| && s[b1] == ' ' && HasAtCI(s, b1 + 1, "hacer")
  {
  }

  /** The keywords and values of a step header up to `hasta`, where the
      layout lemma expects them. */
  lemma StepLineFront(s: string, v: string, a: string, b: string, st: string, e: nat, a1: nat)
    requires s == "Para " + v + " <- " + a + " Hasta " + b + " Con Paso " + st + " Hacer"
    requires e == 5 + |v| && a1 == e + 4 + |a|
    ensures HasAtCI(s, 0, "para") && s[4] == ' ' && s[5..e] == v
    ensures s[e] == ' ' && s[e + 1] == '<' && s[e + 2] == '-' && s[e + 3] == ' '
    ensures s[e + 4..a1] == a && s[a1] == ' ' && HasAtCI(s, a1 + 1, "hasta") && s[a1 + 6] == ' '
  {
  }

  /** The rest of a step header, from the final value on. */
  lemma StepLineBack(s: string, v: string, a: string, b: string, st: string, a1: nat, b1: nat, k: nat)
    requires s == "Para " + v + " <- " + a + " Hasta " + b + " Con Paso " + st + " Hacer"
    requires a1 == 9 + |v| + |a| && b1 == a1 + 7 + |b| && k == b1 + 10 + |st|
    ensures s[a1 + 7..b1] == b && s[b1] == ' ' && HasAtCI(s, b1 + 1, "con") && s[b1 + 4] == ' '
    ensures HasAtCI(s, b1 + 5, "paso") && s[b1 + 9] == ' '
    ensures s[b1 + 10..k] == st && s[k] == ' ' && HasAtCI(s, k + 1, "hacer") && k + 6 == |s|
  {
  }

  // -------------------------------------------------------------- Funcion

  /** The captures of a function header. */
  datatype Signature = Signature(retorno: string, nombre: string, params: string)

  /** The three header patterns, in the order the source tries them. */
  datatype Format =
    | Arrow       // funcion\s+(\w+)\s*<-\s*(\w+)\s*\((.*?)\)
    | Colon       // funcion\s+(\w+)\s*\((.*?)\)\s*:\s*(\w+)
    | TightArrow  // funcion\s+(\w+)<-\s*(\w+)\s*\((.*?)\)

  /** Lazy `(.*?)\)` from `q`: the first `)`, with no line terminator before it. */
  function CloseParen(s: string, q: nat): (r: Option<nat>)
    requires q <= |s|
    decreases |s| - q
    ensures r.Some? ==> q <= r.value < |s| && s[r.value] == ')'
  {
    if q >= |s| then None
    else if s[q] == ')' then Some(q)
    else if IsLineTerminator(s[q]) then None
    else CloseParen(s, q + 1)
  }

  /** `\)\s*:\s*(\w+)` at `q`: the bounds of the return name. */
  function ColonReturn(s: string, q: nat): (r: Option<(nat, nat)>)
    requires q <= |s|
    ensures r.Some? ==> q < r.value.0 < r.value.1 <= |s|
  {
    if q >= |s| || s[q] != ')' then None
    else
      var m := SkipSpaces(s, q + 1);
      if m >= |s| || s[m] != ':' then None
      else
        var n := SkipSpaces(s, m + 1);
        var r := WordEnd(s, n);
        if r == n then None else Some((n, r))
  }

  /** Lazy `(.*?)` of the colon format from `q`: the first `)` followed by
      the return name. */
  function ColonParams(s: string, q: nat): (r: Option<(nat, nat, nat)>)
    requires q <= |s|
    decreases |s| - q
    ensures r.Some? ==> q <= r.value.0 < r.value.1 < r.value.2 <= |s|
  {
    if q >= |s| then None
    else match ColonReturn(s, q)
      case Some((n, r)) => Some((q, n, r))
      case None => if IsLineTerminator(s[q]) then None else ColonParams(s, q + 1)
  }

  /** An arrow format at `i` once `funcion\s+(\w+)` has matched `s[a..e]`:
      the arrow starts at `b`. */
  function ArrowRest(s: string, a: nat, e: nat, b: nat): (r: Option<Signature>)
    requires a <= e <= b <= |s|
  {
    if !HasAt(s, b, "<-") then None
    else
      var c := SkipSpaces(s, b + 2);
      var f := WordEnd(s, c);
      var d := SkipSpaces(s, f);
      if f == c || d >= |s| || s[d] != '(' then None
      else match CloseParen(s, d + 1)
        case None => None
        case Some(q) => Some(Signature(s[a..e], s[c..f], s[d + 1..q]))
  }

  function FormatAt(s: string, i: nat, format: Format): (r: Option<Signature>) {
    if !HasAtCI(s, i, "funcion") then None
    else
      var a := SkipSpaces(s, i + 7);
      var e := WordEnd(s, a);
      if a == i + 7 || e == a then None
      else match format
        case Arrow => ArrowRest(s, a, e, SkipSpaces(s, e))
        case TightArrow => ArrowRest(s, a, e, e)
        case Colon =>
          var d := SkipSpaces(s, e);
          if d >= |s| || s[d] != '(' then None
          else match ColonParams(s, d + 1)
            case None => None
            case Some((q, n, r)) => Some(Signature(s[n..r], s[a..e], s[d + 1..q]))
  }

  function FirstFormat(s: string, i: nat, format: Format): Option<Signature>
    decreases |s| - i
  {
    if i >= |s| then None
    else match FormatAt(s, i, format)
      case Some(sig) => Some(sig)
      case None => FirstFormat(s, i + 1, format)
  }

  function FunctionHeader(sig: Signature): string {
    "function " + sig.nombre + "(" + sig.params + ") {\n  let " + sig.retorno + ";"
  }

  /** `convertFuncion`. */
  function ConvertFuncion(line: string): string {
    match FirstFormat(line, 0, Arrow)
    case Some(sig) => FunctionHeader(sig)
    case None =>
      match FirstFormat(line, 0, Colon)
      case Some(sig) => FunctionHeader(sig)
      case None =>
        match FirstFormat(line, 0, TightArrow)
        case Some(sig) => FunctionHeader(sig)
        case None => "// Funci\U{F3}n no convertida: " + line
  }

  /** Wherever the third format matches, the first matches with the same
      captures. */
  lemma TightArrowIsArrow(s: string, i: nat)
    ensures FormatAt(s, i, TightArrow).Some? ==> FormatAt(s, i, Arrow) == FormatAt(s, i, TightArrow)
  {
    if FormatAt(s, i, TightArrow).Some? {
      var a := SkipSpaces(s, i + 7);
      var e := WordEnd(s, a);
      assert HasAt(s, e, "<-");
      assert Fold(s[e + 0], false) == "<-"[0];
      assert SkipSpaces(s, e) == e;
    }
  }

  /** Hence the third format is never reached: whenever it would match, the
      first format has already matched. */
  lemma {:induction false} TightArrowUnreachable(s: string, i: nat)
    ensures FirstFormat(s, i, TightArrow).Some? ==> FirstFormat(s, i, Arrow).Some?
    decreases |s| - i
  {
    if i < |s| {
      TightArrowIsArrow(s, i);
      TightArrowUnreachable(s, i + 1);
    }
  }

  /** So the header conversion is decided by the first two formats alone. */
  lemma FuncionTwoFormats(line: string)
    ensures ConvertFuncion(line)
      == match FirstFormat(line, 0, Arrow)
         case Some(sig) => FunctionHeader(sig)
         case None =>
           match FirstFormat(line, 0, Colon)
           case Some(sig) => FunctionHeader(sig)
           case None => "// Funci\U{F3}n no convertida: " + line
  {
    TightArrowUnreachable(line, 0);
  }

  /** The lazy group stops at the first `)` when nothing before it ends the line. */
  lemma {:induction false} CloseParenRun(s: string, q: nat, z: nat)
    requires q <= z < |s| && s[z] == ')'
    requires forall k :: q <= k < z ==> s[k] != ')' && !IsLineTerminator(s[k])
    ensures CloseParen(s, q) == Some(z)
    decreases z - q
  {
    if q < z {
      CloseParenRun(s, q + 1, z);
    }
  }

  lemma {:induction false} ColonParamsRun(s: string, q: nat, z: nat)
    requires q <= z < |s| && s[z] == ')' && ColonReturn(s, z).Some?
    requires forall k :: q <= k < z ==> s[k] != ')' && !IsLineTerminator(s[k])
    ensures ColonParams(s, q) == Some((z, ColonReturn(s, z).value.0, ColonReturn(s, z).value.1))
    decreases z - q
  {
    if q < z {
      ColonParamsRun(s, q + 1, z);
    }
  }

  /** No arrow format matches a line without `<`. */
  lemma {:induction false} ArrowNeedsLess(s: string, i: nat)
    requires forall k :: 0 <= k < |s| ==> s[k] != '<'
    ensures FirstFormat(s, i, Arrow) == None
    decreases |s| - i
  {
    if i < |s| {
      ArrowMarksLess(s, i);
      ArrowNeedsLess(s, i + 1);
    }
  }

  lemma ArrowMarksLess(s: string, i: nat)
    ensures FormatAt(s, i, Arrow).Some? ==> exists b :: 0 <= b < |s| && s[b] == '<'
  {
    if FormatAt(s, i, Arrow).Some? {
      var b := SkipSpaces(s, WordEnd(s, SkipSpaces(s, i + 7)));
      assert Fold(s[b + 0], false) == "<-"[0];
    }
  }

  /** The arrow and what follows it, laid out as `<- f(p)` with the arrow at
      `b`, `f` ending at `d` and `p` at `d+1..z`. */
  lemma ArrowRestLayout(s: string, a: nat, e: nat, b: nat, d: nat, z: nat)
    requires a <= e <= b && b + 3 < d < z < |s|
    requires s[b] == '<' && s[b + 1] == '-' && s[b + 2] == ' '
    requires forall k :: b + 3 <= k < d ==> IsWordChar(s[k])
    requires s[d] == '(' && s[z] == ')'
    requires forall k :: d < k < z ==> s[k] != ')' && !IsLineTerminator(s[k])
    ensures ArrowRest(s, a, e, b) == Some(Signature(s[a..e], s[b + 3..d], s[d + 1..z]))
  {
    assert HasAt(s, b, "<-");
    SkipSpacesRun(s, b + 2, b + 3);
    WordEndRun(s, b + 3, d);
    SkipSpacesRun(s, d, d);
    CloseParenRun(s, d + 1, z);
  }

  /** A header `funcion name` at the start of `s` whose name ends at `e`. */
  lemma HeaderLayout(s: string, e: nat)
    requires 8 < e <= |s|
    requires HasAtCI(s, 0, "funcion") && s[7] == ' '
    requires forall k :: 8 <= k < e ==> IsWordChar(s[k])
    requires e < |s| ==> !IsWordChar(s[e])
    ensures SkipSpaces(s, 7) == 8 && WordEnd(s, 8) == e
  {
    SkipSpacesRun(s, 7, 8);
    WordEndRun(s, 8, e);
  }

  /** The arrow format at the start of a line laid out as
      `funcion r <- f(p)`, with `r` at `8..e`, `f` at `e+4..d` and `p` at `d+1..z`. */
  lemma ArrowLayout(s: string, e: nat, d: nat, z: nat)
    requires 8 < e && e + 4 < d < z < |s|
    requires HasAtCI(s, 0, "funcion") && s[7] == ' '
    requires forall k :: 8 <= k < e ==> IsWordChar(s[k])
    requires s[e] == ' ' && s[e + 1] == '<' && s[e + 2] == '-' && s[e + 3] == ' '
    requires forall k :: e + 4 <= k < d ==> IsWordChar(s[k])
    requires s[d] == '(' && s[z] == ')'
    requires forall k :: d < k < z ==> s[k] != ')' && !IsLineTerminator(s[k])
    ensures FirstFormat(s, 0, Arrow) == Some(Signature(s[8..e], s[e + 4..d], s[d + 1..z]))
  {
    HeaderLayout(s, e);
    SkipSpacesRun(s, e, e + 1);
    ArrowRestLayout(s, 8, e, e + 1, d, z);
  }

  /** `\)\s*:\s*(\w+)` laid out as `): r` from `z` to the end. */
  lemma ColonParamsLayout(s: string, q: nat, z: nat)
    requires q <= z && z + 3 < |s|
    requires s[z] == ')' && s[z + 1] == ':' && s[z + 2] == ' '
    requires forall k :: q <= k < z ==> s[k] != ')' && !IsLineTerminator(s[k])
    requires forall k :: z + 3 <= k < |s| ==> IsWordChar(s[k])
    ensures ColonParams(s, q) == Some((z, z + 3, |s|))
  {
    SkipSpacesRun(s, z + 1, z + 1);
    SkipSpacesRun(s, z + 2, z + 3);
    WordEndRun(s, z + 3, |s|);
    assert ColonReturn(s, z) == Some((z + 3, |s|));
    ColonParamsRun(s, q, z);
  }

  /** The colon format at the start of a line laid out as
      `funcion f(p): r`, with `f` at `8..e`, `p` at `e+1..z` and `r` after `z+3`. */
  lemma ColonLayout(s: string, e: nat, z: nat)
    requires 8 < e < z && z + 3 < |s|
    requires HasAtCI(s, 0, "funcion") && s[7] == ' '
    requires forall k :: 8 <= k < e ==> IsWordChar(s[k])
    requires s[e] == '(' && s[z] == ')' && s[z + 1] == ':' && s[z + 2] == ' '
    requires forall k :: e < k < z ==> s[k] != ')' && !IsLineTerminator(s[k])
    requires forall k :: z + 3 <= k < |s| ==> IsWordChar(s[k])
    ensures FirstFormat(s, 0, Colon) == Some(Signature(s[z + 3..], s[8..e], s[e + 1..z]))
  {
    HeaderLayout(s, e);
    SkipSpacesRun(s, e, e);
    ColonParamsLayout(s, e + 1, z);
    assert s[z + 3..|s|] == s[z + 3..];
  }

  /** `Funcion r <- f(p)` reads back as the signature it spells. */
  lemma FuncionArrowReadsBack(r: string, f: string, p: string)
    requires IsWord(r) && IsWord(f)
    requires forall k :: 0 <= k < |p| ==> p[k] != ')' && !IsLineTerminator(p[k])
    ensures ConvertFuncion("Funcion " + r + " <- " + f + "(" + p + ")")
      == FunctionHeader(Signature(r, f, p))
  {
    var s := "Funcion " + r + " <- " + f + "(" + p + ")";
    var e := 8 + |r|;
    var d := e + 4 + |f|;
    var z := d + 1 + |p|;
    assert s[8..e] == r && s[e + 4..d] == f && s[d + 1..z] == p;
    assert HasAtCI(s, 0, "funcion");
    ArrowLayout(s, e, d, z);
  }

  /** A colon header with no `<` anywhere is converted by the colon format. */
  lemma ColonConverted(s: string, e: nat, z: nat)
    requires 8 < e < z && z + 3 < |s|
    requires HasAtCI(s, 0, "funcion") && s[7] == ' '
    requires forall k :: 8 <= k < e ==> IsWordChar(s[k])
    requires s[e] == '(' && s[z] == ')' && s[z + 1] == ':' && s[z + 2] == ' '
    requires forall k :: e < k < z ==> s[k] != ')' && !IsLineTerminator(s[k])
    requires forall k :: z + 3 <= k < |s| ==> IsWordChar(s[k])
    requires forall k :: 0 <= k < |s| ==> s[k] != '<'
    ensures ConvertFuncion(s) == FunctionHeader(Signature(s[z + 3..], s[8..e], s[e + 1..z]))
  {
    ArrowNeedsLess(s, 0);
    ColonLayout(s, e, z);
  }

  /** `Funcion f(p): r` reads back as the same signature, provided nothing
      in it looks like an arrow. */
  lemma FuncionColonReadsBack(r: string, f: string, p: string)
    requires IsWord(r) && IsWord(f)
    requires forall k :: 0 <= k < |p| ==> p[k] != ')' && p[k] != '<' && !IsLineTerminator(p[k])
    ensures ConvertFuncion("Funcion " + f + "(" + p + "): " + r)
      == FunctionHeader(Signature(r, f, p))
  {
    var s := "Funcion " + f + "(" + p + "): " + r;
    var e := 8 + |f|;
    var z := e + 1 + |p|;
    assert s[8..e] == f && s[e + 1..z] == p && s[z + 3..] == r;
    assert HasAtCI(s, 0, "funcion");
    ColonConverted(s, e, z);
  }
}
