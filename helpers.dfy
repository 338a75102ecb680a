/** Indentation and boolean-literal substitution (src/utils/pseint/helpers.ts). */
module Helpers {
  import opened Text

  /** `n` copies of the two-space indentation unit. */
  function Spaces(n: nat): (r: string)
    ensures |r| == 2 * n
    ensures forall k :: 0 <= k < |r| ==> r[k] == ' '
  {
    if n == 0 then "" else "  " + Spaces(n - 1)
  }

  /** `getIndent`: the level is clamped at zero before it is repeated. */
  function GetIndent(level: int): (r: string)
    ensures level <= 0 ==> r == ""
    ensures level >= 0 ==> |r| == 2 * level
    ensures forall k :: 0 <= k < |r| ==> r[k] == ' '
  {
    Spaces(if level < 0 then 0 else level)
  }

  /** `replaceBooleans`: every case-insensitive `verdadero`, then every
      `falso`, is replaced wherever it occurs, inside identifiers and string
      literals included. */
  function ReplaceBooleans(text: string): string {
    ReplaceAll(ReplaceAll(text, "verdadero", "true", true), "falso", "false", true)
  }

  /** The output holds neither literal in any letter case. */
  lemma ReplaceBooleansLeavesNoLiteral(text: string)
    ensures NoMatchFrom(ReplaceBooleans(text), 0, "verdadero", true)
    ensures NoMatchFrom(ReplaceBooleans(text), 0, "falso", true)
  {
    var once := ReplaceAll(text, "verdadero", "true", true);
    ReplaceAllLeavesNone(text, 0, "verdadero", "true", true);
    ReplaceAllKeepsAbsent(once, 0, "falso", "false", "verdadero", true);
    assert Fold("false"[4], true) != "falso"[4];
    ReplaceAllLeavesNone(once, 0, "falso", "false", true);
  }

  /** Applying the substitution twice is the same as applying it once. */
  lemma ReplaceBooleansIdempotent(text: string)
    ensures ReplaceBooleans(ReplaceBooleans(text)) == ReplaceBooleans(text)
  {
    var out := ReplaceBooleans(text);
    ReplaceBooleansLeavesNoLiteral(text);
    ReplaceAllNoMatch(out, 0, "verdadero", "true", true);
    ReplaceAllNoMatch(out, 0, "falso", "false", true);
  }

  lemma FalsoHasNoVerdadero()
    ensures ReplaceAll("falso", "verdadero", "true", true) == "falso"
  {
    FirstCharAbsent("falso", "verdadero", true);
    ReplaceAllNoMatch("falso", 0, "verdadero", "true", true);
  }

  lemma FalsoBecomesFalse()
    ensures ReplaceAll("falso", "falso", "false", true) == "false"
  {
    assert MatchAt("falso", 0, "falso", true);
  }

  lemma VerdaderoSplit(w: string)
    ensures ReplaceAll(w + "falso", "verdadero", "true", true) == ReplaceAll(w, "verdadero", "true", true) + "falso"
  {
    SeamFree(w, "falso", "verdadero", true);
    ReplaceAllSplit(w, "falso", 0, "verdadero", "true", true);
    FalsoHasNoVerdadero();
  }

  /** There is no word boundary: whatever precedes it, even the letters of
      an identifier such as `esFalso`, a trailing `falso` becomes `false`
      while the text before it is rewritten on its own. */
  lemma ReplaceBooleansInsideWord(w: string)
    ensures ReplaceBooleans(w + "falso") == ReplaceBooleans(w) + "false"
  {
    var once := ReplaceAll(w, "verdadero", "true", true);
    VerdaderoSplit(w);
    SeamFree(once, "falso", "falso", true);
    ReplaceAllSplit(once, "falso", 0, "falso", "false", true);
    FalsoBecomesFalse();
  }

}
