/** Rewriting of conditions and expressions (src/utils/pseint/expressions.ts).

    Both entry points are fixed chains of global replacements. Each pattern of
    the source is written out here as a scan over the ORIGINAL text: a match
    is tried at every position left to right and, when found, the scan goes on
    after it, which is how a global `String.prototype.replace` proceeds. */
module Expressions {
  import opened Text
  import opened Helpers

  // -------------------------------------------------------- `\bWORD\b` (gi)

  /** The lower-case word `w` stands alone at `i`: `\bw\b` with the `i` flag. */
  predicate WordAt(s: string, i: nat, w: string) {
    && HasAtCI(s, i, w)
    && (i == 0 || !IsWordChar(s[i - 1]))
    && (i + |w| == |s| || !IsWordChar(s[i + |w|]))
  }

  function ReplaceWordFrom(s: string, i: nat, w: string, rep: string): string
    requires |w| > 0
    decreases |s| - i
  {
    if i >= |s| then []
    else if WordAt(s, i, w) then rep + ReplaceWordFrom(s, i + |w|, w, rep)
    else [s[i]] + ReplaceWordFrom(s, i + 1, w, rep)
  }

  /** `s.replace(/\bw\b/gi, rep)`. */
  function ReplaceWord(s: string, w: string, rep: string): string
    requires |w| > 0
  {
    ReplaceWordFrom(s, 0, w, rep)
  }

  /** Where the word never stands alone, its rewrite changes nothing. */
  lemma {:induction false} ReplaceWordNoMatch(s: string, i: nat, w: string, rep: string)
    requires |w| > 0 && i <= |s|
    requires forall p: nat :: i <= p < |s| ==> !WordAt(s, p, w)
    ensures ReplaceWordFrom(s, i, w, rep) == s[i..]
    decreases |s| - i
  {
    if i < |s| {
      ReplaceWordNoMatch(s, i + 1, w, rep);
    }
  }

  // ------------------------------------------- `([^!<>=])=([^=])` -> `$1==$2`

  /** A lone `=` at `i + 1`, with the characters on either side consumed. */
  predicate LoneEqualsAt(s: string, i: nat) {
    && i + 3 <= |s|
    && s[i] != '!' && s[i] != '<' && s[i] != '>' && s[i] != '='
    && s[i + 1] == '='
    && s[i + 2] != '='
  }

  function PromoteEqualsFrom(s: string, i: nat): string
    decreases |s| - i
  {
    if i >= |s| then []
    else if LoneEqualsAt(s, i) then [s[i], '=', '=', s[i + 2]] + PromoteEqualsFrom(s, i + 3)
    else [s[i]] + PromoteEqualsFrom(s, i + 1)
  }

  /** The comparison step of `convertCondition`. */
  function PromoteEquals(s: string): string {
    PromoteEqualsFrom(s, 0)
  }

  /** Every `=` that already belongs to `<=`, `>=`, `!=` or `==` (or stands at
      either end) is left alone: such text is returned unchanged. */
  lemma {:induction false} PromoteEqualsKeepsOperators(s: string, i: nat)
    requires i <= |s|
    requires forall j :: 0 < j < |s| - 1 && s[j] == '=' ==>
      s[j - 1] in "!<>=" || s[j + 1] == '='
    ensures PromoteEqualsFrom(s, i) == s[i..]
    decreases |s| - i
  {
    if i < |s| {
      assert !LoneEqualsAt(s, i) by {
        if i + 3 <= |s| && s[i + 1] == '=' {
          assert s[i + 1 - 1] in "!<>=" || s[i + 1 + 1] == '=';
        }
      }
      PromoteEqualsKeepsOperators(s, i + 1);
      assert s[i..] == [s[i]] + s[i + 1..];
    }
  }

  /** Text with no `=` is not touched. */
  lemma {:induction false} PromoteEqualsNoEquals(s: string, i: nat)
    requires i <= |s|
    requires forall k :: i <= k < |s| ==> s[k] != '='
    ensures PromoteEqualsFrom(s, i) == s[i..]
    decreases |s| - i
  {
    if i < |s| {
      PromoteEqualsNoEquals(s, i + 1);
      assert s[i..] == [s[i]] + s[i + 1..];
    }
  }

  /** Up to the character before the first `=`, the text is copied. */
  lemma {:induction false} PromoteEqualsUpTo(s: string, i: nat, j: nat)
    requires i <= j < |s|
    requires forall k :: i <= k <= j ==> s[k] != '='
    ensures PromoteEqualsFrom(s, i) == s[i..j] + PromoteEqualsFrom(s, j)
    decreases j - i
  {
    if i < j {
      PromoteEqualsUpTo(s, i + 1, j);
      PromoteCopiesOne(s, i);
      SliceCons(s, i, j, PromoteEqualsFrom(s, j));
    }
  }

  /** A character that does not start a lone `=` is copied. */
  lemma PromoteCopiesOne(s: string, i: nat)
    requires i + 1 < |s| && s[i + 1] != '='
    ensures PromoteEqualsFrom(s, i) == [s[i]] + PromoteEqualsFrom(s, i + 1)
  {
    assert !LoneEqualsAt(s, i);
  }

  /** `s[i..j] + rest` regrouped around its first character. */
  lemma SliceCons(s: string, i: nat, j: nat, rest: string)
    requires i < j <= |s|
    ensures [s[i]] + (s[i + 1..j] + rest) == s[i..j] + rest
  {
    assert s[i..j] == [s[i]] + s[i + 1..j];
  }

  /** The only `=` of the text, not preceded by `!`, `<` or `>` and not at
      either end, becomes `==`; nothing else changes. */
  lemma LoneEqualsPromoted(s: string, j: nat)
    requires 0 < j < |s| - 1 && s[j] == '='
    requires forall k :: 0 <= k < |s| && k != j ==> s[k] != '='
    requires s[j - 1] != '!' && s[j - 1] != '<' && s[j - 1] != '>'
    ensures PromoteEquals(s) == s[..j] + "==" + s[j + 1..]
  {
    PromoteEqualsUpTo(s, 0, j - 1);
    assert LoneEqualsAt(s, j - 1);
    PromoteEqualsNoEquals(s, j + 2);
    DoubledAround(s, j);
  }

  /** The text around a doubled character, regrouped. */
  lemma DoubledAround(s: string, j: nat)
    requires 0 < j < |s| - 1 && s[j] == '='
    ensures s[0..j - 1] + [s[j - 1], '=', '=', s[j + 1]] + s[j + 2..] == s[..j] + "==" + s[j + 1..]
  {
    assert s[..j] == s[0..j - 1] + [s[j - 1]];
    assert s[j + 1..] == [s[j + 1]] + s[j + 2..];
  }

  /** Every `=` of `r` follows a `!`. */
  predicate EqualsAfterBang(r: string) {
    forall k :: 0 <= k < |r| && r[k] == '=' ==> k > 0 && r[k - 1] == '!'
  }

  /** In the result of the `<>` step on text without `=`, every `=` follows a `!`. */
  lemma {:induction false} NotEqualOnlyEquals(c: string, i: nat)
    requires i <= |c|
    requires forall k :: i <= k < |c| ==> c[k] != '='
    ensures EqualsAfterBang(ReplaceAllFrom(c, i, "<>", "!=", false))
    decreases |c| - i
  {
    if i < |c| {
      if MatchAt(c, i, "<>", false) {
        NotEqualOnlyEquals(c, i + 2);
        var rest := ReplaceAllFrom(c, i + 2, "<>", "!=", false);
        var r := "!=" + rest;
        assert EqualsAfterBang(rest);
        forall k | 0 <= k < |r| && r[k] == '=' ensures k > 0 && r[k - 1] == '!' {
          if k < 2 {
            assert r[0] == '!' && r[1] == '=';
          } else {
            assert rest[k - 2] == '=';
            assert k - 2 > 0 && rest[k - 3] == '!';
            assert r[k - 1] == rest[k - 3];
          }
        }
      } else {
        NotEqualOnlyEquals(c, i + 1);
        var rest := ReplaceAllFrom(c, i + 1, "<>", "!=", false);
        var r := [c[i]] + rest;
        assert EqualsAfterBang(rest);
        forall k | 0 <= k < |r| && r[k] == '=' ensures k > 0 && r[k - 1] == '!' {
          assert r[0] == c[i] && r[0] != '=';
          assert rest[k - 1] == '=';
          assert k - 1 > 0 && rest[k - 2] == '!';
          assert r[k - 1] == rest[k - 2];
        }
      }
    }
  }

  /** Hence the `=` promotion leaves the result of the `<>` step alone. */
  lemma NotEqualKept(c: string)
    requires forall k :: 0 <= k < |c| ==> c[k] != '='
    ensures PromoteEquals(ReplaceAll(c, "<>", "!=", false)) == ReplaceAll(c, "<>", "!=", false)
  {
    var r := ReplaceAll(c, "<>", "!=", false);
    NotEqualOnlyEquals(c, 0);
    assert EqualsAfterBang(r);
    forall j | 0 < j < |r| - 1 && r[j] == '=' ensures r[j - 1] in "!<>=" || r[j + 1] == '=' {
      assert r[j - 1] == "!<>="[0];
    }
    PromoteEqualsKeepsOperators(r, 0);
  }

  /** Removes every `=`. */
  function WithoutEquals(s: string): string {
    if |s| == 0 then "" else (if s[0] == '=' then "" else [s[0]]) + WithoutEquals(s[1..])
  }

  lemma {:induction false} WithoutEqualsAppend(a: string, b: string)
    ensures WithoutEquals(a + b) == WithoutEquals(a) + WithoutEquals(b)
    decreases |a|
  {
    if |a| > 0 {
      assert (a + b)[1..] == a[1..] + b;
      WithoutEqualsAppend(a[1..], b);
    } else {
      assert a + b == b;
    }
  }

  /** The promotion inserts `=` signs and touches nothing else. */
  lemma {:induction false} PromoteEqualsOnlyAddsEquals(s: string, i: nat)
    requires i <= |s|
    ensures WithoutEquals(PromoteEqualsFrom(s, i)) == WithoutEquals(s[i..])
    ensures |PromoteEqualsFrom(s, i)| >= |s| - i
    decreases |s| - i
  {
    if i < |s| {
      if LoneEqualsAt(s, i) {
        var head: string := [s[i], '=', '=', s[i + 2]];
        PromoteEqualsOnlyAddsEquals(s, i + 3);
        WithoutEqualsAppend(head, PromoteEqualsFrom(s, i + 3));
        assert s[i..] == [s[i], s[i + 1], s[i + 2]] + s[i + 3..];
        WithoutEqualsAppend([s[i], s[i + 1], s[i + 2]], s[i + 3..]);
        assert WithoutEquals(head) == WithoutEquals([s[i], s[i + 1], s[i + 2]]) by {
          assert head[1..] == ['=', '=', s[i + 2]];
          assert head[1..][1..] == ['=', s[i + 2]];
          assert head[1..][1..][1..] == [s[i + 2]];
          assert [s[i], s[i + 1], s[i + 2]][1..] == [s[i + 1], s[i + 2]];
          assert [s[i + 1], s[i + 2]][1..] == [s[i + 2]];
        }
      } else {
        PromoteEqualsOnlyAddsEquals(s, i + 1);
        WithoutEqualsAppend([s[i]], PromoteEqualsFrom(s, i + 1));
        assert s[i..] == [s[i]] + s[i + 1..];
        WithoutEqualsAppend([s[i]], s[i + 1..]);
      }
    }
  }

  // ----------------------------- `azar\s*\(\s*(.+?)\s*\)` (gi) -> floor(random)

  /** After the group: `\s*\)`. */
  predicate ClosesAt(s: string, t: nat)
    requires t <= |s|
  {
    SkipSpaces(s, t) < |s| && s[SkipSpaces(s, t)] == ')'
  }

  /** The lazy group `(.+?)` starting at `g`: its shortest end `t >= g + 1`
      that is followed by `\s*\)`, without crossing a line terminator. */
  function LazyGroupEnd(s: string, g: nat, t: nat): (r: Option<nat>)
    requires g < t
    decreases |s| - t
    ensures r.Some? ==> t <= r.value <= |s| && NoLineTerminator(s, t - 1, r.value) && ClosesAt(s, r.value)
  {
    if t > |s| || IsLineTerminator(s[t - 1]) then None
    else if ClosesAt(s, t) then Some(t)
    else LazyGroupEnd(s, g, t + 1)
  }

  /** The greedy `\s*` before the group gives back one blank at a time,
      from the longest run down to none, until the group can close. */
  function AzarGroup(s: string, p: nat, g: nat): (r: Option<(nat, nat)>)
    requires p <= g <= |s|
    decreases g - p
    ensures r.Some? ==> p <= r.value.0 < r.value.1 <= |s| && ClosesAt(s, r.value.1)
  {
    match (if g < |s| then LazyGroupEnd(s, g, g + 1) else None)
    case Some(t) => Some((g, t))
    case None => if g > p then AzarGroup(s, p, g - 1) else None
  }

  /** A match of the `azar(...)` pattern at `i`: the group bounds and the
      position just after the closing parenthesis. */
  function AzarAt(s: string, i: nat): (r: Option<(nat, nat, nat)>)
    ensures r.Some? ==> i < r.value.0 < r.value.1 < r.value.2 <= |s|
  {
    if !HasAtCI(s, i, "azar") then None
    else
      var a := SkipSpaces(s, i + 4);
      if a >= |s| || s[a] != '(' then None
      else
        match AzarGroup(s, a + 1, SkipSpaces(s, a + 1))
        case None => None
        case Some((g, t)) => Some((g, t, SkipSpaces(s, t) + 1))
  }

  function RewriteAzarFrom(s: string, i: nat): string
    decreases |s| - i
  {
    if i >= |s| then []
    else
      match AzarAt(s, i)
      case Some((g, t, e)) => "Math.floor(Math.random() * (" + s[g..t] + "))" + RewriteAzarFrom(s, e)
      case None => [s[i]] + RewriteAzarFrom(s, i + 1)
  }

  /** Text without any `azar` is left unchanged by the random-call rewrite. */
  lemma {:induction false} RewriteAzarNoMatch(s: string, i: nat)
    requires i <= |s|
    requires NoMatchFrom(s, i, "azar", true)
    ensures RewriteAzarFrom(s, i) == s[i..]
    decreases |s| - i
  {
    if i < |s| {
      assert !HasAtCI(s, i, "azar");
      RewriteAzarNoMatch(s, i + 1);
    }
  }

  // ------------------------------------------------------ the two entry points

  /** `convertCondition`: booleans, then `Y`/`O`/`NO` as whole words, then
      `<>`, then the lone `=`, then whole-word `MOD`. */
  function ConvertCondition(condition: string): string {
    var c1 := ReplaceBooleans(condition);
    var c2 := ReplaceWord(ReplaceWord(ReplaceWord(c1, "y", "&&"), "o", "||"), "no", "!");
    var c3 := ReplaceAll(c2, "<>", "!=", false);
    var c4 := PromoteEquals(c3);
    ReplaceWord(c4, "mod", "%")
  }

  /** `convertExpression`: whole-word `MOD`, then `Y`/`O`/`NO`, then whole-word
      `Verdadero`/`Falso`, then `azar(...)`, then `^`. */
  function ConvertExpression(expr: string): string {
    var e1 := ReplaceWord(expr, "mod", "%");
    var e2 := ReplaceWord(ReplaceWord(ReplaceWord(e1, "y", "&&"), "o", "||"), "no", "!");
    var e3 := ReplaceWord(ReplaceWord(e2, "verdadero", "true"), "falso", "false");
    var e4 := RewriteAzarFrom(e3, 0);
    ReplaceAll(e4, "^", "**", false)
  }

  /** No `^` survives an expression rewrite: every one became `**`. */
  lemma ExpressionLeavesNoCaret(expr: string)
    ensures NoMatchFrom(ConvertExpression(expr), 0, "^", false)
  {
    var e1 := ReplaceWord(expr, "mod", "%");
    var e2 := ReplaceWord(ReplaceWord(ReplaceWord(e1, "y", "&&"), "o", "||"), "no", "!");
    var e3 := ReplaceWord(ReplaceWord(e2, "verdadero", "true"), "falso", "false");
    var e4 := RewriteAzarFrom(e3, 0);
    ReplaceAllLeavesNone(e4, 0, "^", "**", false);
  }

  // ------------------------------------------------ what the rewrites produce

  /** Regrouping a concatenation that starts with one element. */
  lemma ConsAppend<T>(x: T, a: seq<T>, b: seq<T>, c: seq<T>)
    ensures [x] + (a + b + c) == ([x] + a) + b + c
  {
  }

  /** Where the word does not stand alone, one character is copied. */
  lemma ReplaceWordCopies(s: string, j: nat, w: string, rep: string)
    requires |w| > 0 && j < |s| && !WordAt(s, j, w)
    ensures ReplaceWordFrom(s, j, w, rep) == [s[j]] + ReplaceWordFrom(s, j + 1, w, rep)
  {
  }

  /** Where the word stands alone, it is replaced. */
  lemma ReplaceWordAt(s: string, i: nat, w: string, rep: string)
    requires |w| > 0 && WordAt(s, i, w)
    ensures ReplaceWordFrom(s, i, w, rep) == rep + ReplaceWordFrom(s, i + |w|, w, rep)
  {
    assert i < |s| by { assert HasAtCI(s, i, w); }
  }

  /** One copied character in front of a copied run. */
  lemma CopiedThenRest(s: string, j: nat, i: nat, rep: string, rest: string)
    requires j < i <= |s|
    ensures [s[j]] + (s[j + 1..i] + rep + rest) == s[j..i] + rep + rest
  {
    assert s[j..i] == [s[j]] + s[j + 1..i];
    ConsAppend(s[j], s[j + 1..i], rep, rest);
  }

  /** Up to the first place the word stands alone, the text is copied. */
  lemma {:induction false} ReplaceWordUpTo(s: string, j: nat, i: nat, w: string, rep: string)
    requires |w| > 0 && j <= i && WordAt(s, i, w)
    requires forall p :: j <= p < i ==> !WordAt(s, p, w)
    ensures ReplaceWordFrom(s, j, w, rep) == s[j..i] + rep + ReplaceWordFrom(s, i + |w|, w, rep)
    decreases i - j
  {
    if j < i {
      assert i < |s| by { assert HasAtCI(s, i, w); }
      ReplaceWordCopies(s, j, w, rep);
      ReplaceWordUpTo(s, j + 1, i, w, rep);
      CopiedThenRest(s, j, i, rep, ReplaceWordFrom(s, i + |w|, w, rep));
    } else {
      ReplaceWordAt(s, i, w, rep);
      assert s[j..i] == [];
    }
  }

  /** A word that stands alone once is replaced there, and the text around
      it is kept: `MOD`, `Y`, `O` and `NO` are rewritten wherever they are a
      whole word of their own, in any letter case. */
  lemma StandaloneWordReplaced(s: string, i: nat, w: string, rep: string)
    requires |w| > 0 && WordAt(s, i, w)
    requires forall p :: 0 <= p < |s| && p != i ==> !WordAt(s, p, w)
    ensures ReplaceWord(s, w, rep) == s[..i] + rep + s[i + |w|..]
  {
    ReplaceWordUpTo(s, 0, i, w, rep);
    ReplaceWordNoMatch(s, i + |w|, w, rep);
  }

  /** The rewrites after `Y` leave text alone that holds none of the letters
      they start with and no `^`. */
  lemma LaterRewritesKeep(t: string)
    requires forall k :: 0 <= k < |t| ==> LowerChar(t[k]) !in "onvfa" && t[k] != '^'
    ensures var e2 := ReplaceWord(ReplaceWord(t, "o", "||"), "no", "!");
            var e3 := ReplaceWord(ReplaceWord(e2, "verdadero", "true"), "falso", "false");
            ReplaceAll(RewriteAzarFrom(e3, 0), "^", "**", false) == t
  {
    WordAbsent(t, "o", "||");
    WordAbsent(t, "no", "!");
    WordAbsent(t, "verdadero", "true");
    WordAbsent(t, "falso", "false");
    FirstCharAbsent(t, "azar", true);
    RewriteAzarNoMatch(t, 0);
    FirstCharAbsent(t, "^", false);
    ReplaceAllNoMatch(t, 0, "^", "**", false);
  }

  /** A variable named `y` is taken for the conjunction, as in the sum
      `x + y` of the example program: the first two rewrites. */
  lemma LoneYReplaced(s: string)
    requires s == "x + y"
    ensures ReplaceWord(ReplaceWord(s, "mod", "%"), "y", "&&") == "x + &&"
  {
    assert ReplaceWord(s, "mod", "%") == s by {
      forall p: nat | 0 <= p < |s| ensures !WordAt(s, p, "mod") {
        assert Fold(s[p + 0], true) != "mod"[0];
      }
      ReplaceWordNoMatch(s, 0, "mod", "%");
    }
    forall p | 0 <= p < |s| && p != 4 ensures !WordAt(s, p, "y") {
      assert Fold(s[p + 0], true) != "y"[0];
    }
    StandaloneWordReplaced(s, 4, "y", "&&");
  }

  /** The whole rewrite of `x + y` is `x + &&`. */
  lemma LoneYBecomesAnd(s: string)
    requires s == "x + y"
    ensures ConvertExpression(s) == "x + &&"
  {
    LoneYReplaced(s);
    var t := "x + &&";
    forall k | 0 <= k < |t| ensures LowerChar(t[k]) !in "onvfa" && t[k] != '^' {}
    LaterRewritesKeep(t);
  }

  /** A word whose first letter never appears is never rewritten. */
  lemma WordAbsent(s: string, w: string, rep: string)
    requires |w| > 0
    requires forall k :: 0 <= k < |s| ==> LowerChar(s[k]) != w[0]
    ensures ReplaceWord(s, w, rep) == s
  {
    FirstCharAbsent(s, w, true);
    ReplaceWordNoMatch(s, 0, w, rep);
  }

  /** The lazy group of `azar(e)` ends exactly where `e` does. */
  lemma {:induction false} AzarGroupEnds(s: string, e: string, t: nat)
    requires s == "azar(" + e + ")"
    requires |e| > 0 && !IsSpace(e[|e| - 1])
    requires forall k :: 0 <= k < |e| ==> e[k] != ')' && !IsLineTerminator(e[k])
    requires 6 <= t <= 5 + |e|
    ensures LazyGroupEnd(s, 5, t) == Some(5 + |e|)
    decreases 5 + |e| - t
  {
    assert s[t - 1] == e[t - 6];
    if t < 5 + |e| {
      var q := SkipSpaces(s, t);
      SkippedAreSpaces(s, t);
      assert s[4 + |e|] == e[|e| - 1];
      assert q < 5 + |e|;
      assert s[q] == e[q - 5];
      AzarGroupEnds(s, e, t + 1);
    } else {
      SkipSpacesRun(s, t, t);
    }
  }

  /** Where `azar(e)` matches, and where its group lies. */
  lemma AzarMatch(e: string)
    requires |e| > 0 && !IsSpace(e[0]) && !IsSpace(e[|e| - 1])
    requires forall k :: 0 <= k < |e| ==> e[k] != ')' && !IsLineTerminator(e[k])
    ensures AzarAt("azar(" + e + ")", 0) == Some((5, 5 + |e|, 6 + |e|))
  {
    var s := "azar(" + e + ")";
    assert HasAtCI(s, 0, "azar");
    SkipSpacesRun(s, 4, 4);
    SkipSpacesRun(s, 5, 5);
    AzarGroupEnds(s, e, 6);
    SkipSpacesRun(s, 5 + |e|, 5 + |e|);
    assert s[4] == '(' && 5 < |s|;
    assert AzarGroup(s, 5, 5) == Some((5, 5 + |e|));
  }

  /** `azar(e)` becomes a call to `Math.floor(Math.random() * (e))`. */
  lemma AzarRewritten(e: string)
    requires |e| > 0 && !IsSpace(e[0]) && !IsSpace(e[|e| - 1])
    requires forall k :: 0 <= k < |e| ==> e[k] != ')' && !IsLineTerminator(e[k])
    ensures RewriteAzarFrom("azar(" + e + ")", 0) == "Math.floor(Math.random() * (" + e + "))"
  {
    var s := "azar(" + e + ")";
    AzarMatch(e);
    assert s[5..5 + |e|] == e;
    assert RewriteAzarFrom(s, 6 + |e|) == [];
  }

  /** `w` never stands alone in `s`. */
  predicate NoStandalone(s: string, w: string) {
    forall p: nat :: p < |s| ==> !WordAt(s, p, w)
  }

  /** Nothing that the boolean and logical rewrites of a condition act on:
      no `verdadero` or `falso` anywhere, in any letter case, and no `y`, `o`
      or `no` standing alone. Identifiers such as `n`, `contador` or `nota`
      qualify. */
  ghost predicate NoConditionWords(c: string) {
    && NoMatchFrom(c, 0, "verdadero", true) && NoMatchFrom(c, 0, "falso", true)
    && NoStandalone(c, "y") && NoStandalone(c, "o") && NoStandalone(c, "no")
  }

  /** Such text passes the boolean and the logical rewrites of a condition
      unchanged. */
  lemma ConditionWordsKeep(c: string)
    requires NoConditionWords(c)
    ensures ReplaceWord(ReplaceWord(ReplaceWord(ReplaceBooleans(c), "y", "&&"), "o", "||"), "no", "!") == c
  {
    assert c[0..] == c;
    ReplaceAllNoMatch(c, 0, "verdadero", "true", true);
    ReplaceAllNoMatch(c, 0, "falso", "false", true);
    ReplaceWordNoMatch(c, 0, "y", "&&");
    ReplaceWordNoMatch(c, 0, "o", "||");
    ReplaceWordNoMatch(c, 0, "no", "!");
  }

  /** `r` has the length of `s`, and wherever the two differ both characters
      lie outside `\w`: the two texts have the same words in the same places. */
  predicate SameWords(r: string, s: string) {
    |r| == |s| && forall k :: 0 <= k < |r| ==> r[k] == s[k] || (!IsWordChar(r[k]) && !IsWordChar(s[k]))
  }

  /** Every character of a case-insensitive occurrence of a word is in `\w`. */
  lemma WordCharsAt(t: string, p: nat, w: string)
    requires IsWord(w) && HasAtCI(t, p, w)
    ensures forall k :: p <= k < p + |w| ==> IsWordChar(t[k])
  {
    forall k | p <= k < p + |w| ensures IsWordChar(t[k]) {
      assert LowerChar(t[p + (k - p)]) == w[k - p];
    }
  }

  /** The `<>` step swaps symbols for symbols of the same length. */
  lemma {:induction false} NotEqualSameWords(s: string, i: nat)
    requires i <= |s|
    ensures SameWords(ReplaceAllFrom(s, i, "<>", "!=", false), s[i..])
    decreases |s| - i
  {
    var r := ReplaceAllFrom(s, i, "<>", "!=", false);
    if i < |s| {
      var n := if MatchAt(s, i, "<>", false) then i + 2 else i + 1;
      NotEqualSameWords(s, n);
      var rest := ReplaceAllFrom(s, n, "<>", "!=", false);
      assert r == (if n == i + 2 then "!=" else [s[i]]) + rest;
      forall k | 0 <= k < |r| ensures r[k] == s[i..][k] || (!IsWordChar(r[k]) && !IsWordChar(s[i..][k])) {
        if k >= n - i {
          assert r[k] == rest[k - (n - i)] && s[i..][k] == s[n..][k - (n - i)];
        } else if n == i + 2 {
          assert Fold(s[i + k], false) == "<>"[k];
        }
      }
    } else {
      assert s[i..] == [];
    }
  }

  /** A word that stands alone in `r` stands alone at the same place in `s`. */
  lemma WordAtSameWords(r: string, s: string, p: nat, w: string)
    requires SameWords(r, s) && IsWord(w)
    ensures WordAt(r, p, w) ==> WordAt(s, p, w)
  {
    if WordAt(r, p, w) {
      WordCharsAt(r, p, w);
      forall k | 0 <= k < |w| ensures Fold(s[p + k], true) == w[k] {
        assert r[p + k] == s[p + k];
      }
      if p > 0 {
        assert r[p - 1] == s[p - 1] || !IsWordChar(s[p - 1]);
      }
      if p + |w| < |s| {
        assert r[p + |w|] == s[p + |w|] || !IsWordChar(s[p + |w|]);
      }
    }
  }

  /** Where the `=` at `j` of `c` is doubled in `t`, the characters of `t`
      are those of `c`, shifted by one after `j`. */
  lemma DoubledIndex(c: string, j: nat, t: string, k: nat)
    requires j < |c| && c[j] == '=' && t == c[..j] + "==" + c[j + 1..] && k < |t|
    ensures |t| == |c| + 1
    ensures k <= j ==> t[k] == c[k]
    ensures k > j ==> t[k] == c[k - 1]
  {
    if k > j + 1 {
      assert t[k] == c[j + 1..][k - j - 2];
    }
  }

  /** Doubling an `=` makes no word stand alone that did not already. */
  lemma WordAtDoubled(c: string, j: nat, t: string, p: nat, w: string)
    requires 0 < j < |c| && c[j] == '=' && t == c[..j] + "==" + c[j + 1..]
    requires IsWord(w)
    ensures WordAt(t, p, w) ==> WordAt(c, if p < j then p else p - 1, w)
  {
    if WordAt(t, p, w) {
      WordCharsAt(t, p, w);
      DoubledIndex(c, j, t, j);
      DoubledIndex(c, j, t, j + 1);
      if p < j {
        assert p + |w| <= j;
        forall k | 0 <= k < |w| ensures Fold(c[p + k], true) == w[k] {
          DoubledIndex(c, j, t, p + k);
        }
        if p > 0 { DoubledIndex(c, j, t, p - 1); }
        DoubledIndex(c, j, t, p + |w|);
      } else {
        assert p >= j + 2;
        forall k | 0 <= k < |w| ensures Fold(c[p - 1 + k], true) == w[k] {
          DoubledIndex(c, j, t, p + k);
        }
        DoubledIndex(c, j, t, p - 1);
        if p + |w| < |t| { DoubledIndex(c, j, t, p + |w|); }
      }
    }
  }

  /** A condition without `=` and without the words the rewrites act on
      comes out of `convertCondition` with each `<>` turned into `!=` and no
      `<>` left. */
  lemma ConditionNotEqual(c: string)
    requires NoConditionWords(c) && NoStandalone(c, "mod")
    requires forall k :: 0 <= k < |c| ==> c[k] != '='
    ensures ConvertCondition(c) == ReplaceAll(c, "<>", "!=", false)
    ensures NoMatchFrom(ConvertCondition(c), 0, "<>", false)
  {
    ConditionWordsKeep(c);
    var r := ReplaceAll(c, "<>", "!=", false);
    NotEqualKept(c);
    NotEqualSameWords(c, 0);
    assert c[0..] == c;
    forall p: nat | p < |r| ensures !WordAt(r, p, "mod") {
      WordAtSameWords(r, c, p, "mod");
    }
    ReplaceWordNoMatch(r, 0, "mod", "%");
    assert r[0..] == r;
    ReplaceAllLeavesNone(c, 0, "<>", "!=", false);
  }

  /** A condition whose only `=` is a lone comparison comes out of
      `convertCondition` with that `=` doubled and nothing else changed. */
  lemma ConditionEquals(c: string, j: nat)
    requires NoConditionWords(c) && NoStandalone(c, "mod")
    requires NoMatchFrom(c, 0, "<>", false)
    requires 0 < j < |c| - 1 && c[j] == '='
    requires forall k :: 0 <= k < |c| && k != j ==> c[k] != '='
    requires c[j - 1] != '!' && c[j - 1] != '<' && c[j - 1] != '>'
    ensures ConvertCondition(c) == c[..j] + "==" + c[j + 1..]
  {
    ConditionWordsKeep(c);
    ReplaceAllNoMatch(c, 0, "<>", "!=", false);
    assert c[0..] == c;
    LoneEqualsPromoted(c, j);
    var t := c[..j] + "==" + c[j + 1..];
    forall p: nat | p < |t| ensures !WordAt(t, p, "mod") {
      WordAtDoubled(c, j, t, p, "mod");
    }
    ReplaceWordNoMatch(t, 0, "mod", "%");
    assert t[0..] == t;
  }

  /** A single `\w+` token is rewritten as a whole word only when it is that
      word: any other occurrence inside it touches a word character. */
  lemma WholeWordOnly(s: string, w: string, rep: string)
    requires IsWord(s) && |w| > 0 && !EqualsCI(s, w)
    ensures ReplaceWord(s, w, rep) == s
  {
    forall p: nat | p < |s| ensures !WordAt(s, p, w) {
      if p > 0 {
        assert IsWordChar(s[p - 1]);
      } else if |w| < |s| {
        assert IsWordChar(s[|w|]);
      }
    }
    ReplaceWordNoMatch(s, 0, w, rep);
  }

  /** The words that the expression rewrite replaces, in any letter case. */
  predicate IsRewrittenWord(s: string) {
    || EqualsCI(s, "mod") || EqualsCI(s, "y") || EqualsCI(s, "o") || EqualsCI(s, "no")
    || EqualsCI(s, "verdadero") || EqualsCI(s, "falso")
  }

  /** No whole-word rewrite of an expression touches an identifier other than
      the rewritten words themselves. */
  lemma IdentifierWordsKept(s: string)
    requires IsWord(s) && !IsRewrittenWord(s)
    ensures ReplaceWord(s, "mod", "%") == s && ReplaceWord(s, "y", "&&") == s
    ensures ReplaceWord(s, "o", "||") == s && ReplaceWord(s, "no", "!") == s
    ensures ReplaceWord(s, "verdadero", "true") == s && ReplaceWord(s, "falso", "false") == s
  {
    WholeWordOnly(s, "mod", "%");
    WholeWordOnly(s, "y", "&&");
    WholeWordOnly(s, "o", "||");
    WholeWordOnly(s, "no", "!");
    WholeWordOnly(s, "verdadero", "true");
    WholeWordOnly(s, "falso", "false");
  }

  /** Text without an opening parenthesis has no `azar(...)` call to rewrite. */
  lemma {:induction false} RewriteAzarNoParen(s: string, i: nat)
    requires i <= |s|
    requires forall k :: 0 <= k < |s| ==> s[k] != '('
    ensures RewriteAzarFrom(s, i) == s[i..]
    decreases |s| - i
  {
    if i < |s| {
      assert AzarAt(s, i).None?;
      RewriteAzarNoParen(s, i + 1);
    }
  }

  /** An identifier holds no `azar(...)` call and no `^`. */
  lemma IdentifierSymbolsKept(s: string)
    requires IsWord(s)
    ensures RewriteAzarFrom(s, 0) == s && ReplaceAll(s, "^", "**", false) == s
  {
    RewriteAzarNoParen(s, 0);
    FirstCharAbsent(s, "^", false);
    ReplaceAllNoMatch(s, 0, "^", "**", false);
  }

  /** An identifier other than the rewritten words passes the expression
      rewrite unchanged. */
  lemma IdentifierKept(s: string)
    requires IsWord(s) && !IsRewrittenWord(s)
    ensures ConvertExpression(s) == s
  {
    IdentifierWordsKept(s);
    IdentifierSymbolsKept(s);
  }

  /** Unlike `replaceBooleans`, which turns the tail of `esFalso` into
      `false`, the expression rewrite leaves an identifier ending in `falso`
      alone: booleans are replaced only as whole words. */
  lemma FalsoInsideIdentifier(w: string)
    requires IsWord(w)
    ensures ConvertExpression(w + "falso") == w + "falso"
    ensures ReplaceBooleans(w + "falso") == ReplaceBooleans(w) + "false"
  {
    var s := w + "falso";
    assert s[|w| + 1] == 'a';
    assert IsWord(s);
    assert !EqualsCI(s, "verdadero") by {
      if |s| == 9 {
        assert Fold(s[0 + 4], true) != "verdadero"[4];
      }
    }
    IdentifierKept(s);
    ReplaceBooleansInsideWord(w);
  }
}
