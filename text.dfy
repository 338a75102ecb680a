/** Text primitives shared by the transpiler and the flowchart builder.

    JavaScript's regular expressions are used in the source only with fixed
    patterns; each is written out in the modules that use it, on top of the
    character classes, the case folding and the scanning helpers below. */
module Text {

  datatype Option<+T> = None | Some(value: T)

  /** `\w` of a JavaScript regular expression without the `u` flag. */
  predicate IsWordChar(c: char) {
    'a' <= c <= 'z' || 'A' <= c <= 'Z' || '0' <= c <= '9' || c == '_'
  }

  /** `\w+`, whole. */
  predicate IsWord(w: string) {
    |w| > 0 && forall k :: 0 <= k < |w| ==> IsWordChar(w[k])
  }

  /** `\d`. */
  predicate IsDigit(c: char) {
    '0' <= c <= '9'
  }

  /** The characters that `.` does not match. */
  predicate IsLineTerminator(c: char) {
    c == '\n' || c == '\r' || c == '\U{2028}' || c == '\U{2029}'
  }

  /** `\s`, which is also the set that `String.prototype.trim` removes. */
  predicate IsSpace(c: char) {
    || c == '\t' || c == '\n' || c == '\U{0B}' || c == '\U{0C}' || c == '\r' || c == ' '
    || c == '\U{A0}' || c == '\U{1680}' || ('\U{2000}' <= c <= '\U{200A}')
    || c == '\U{2028}' || c == '\U{2029}' || c == '\U{202F}' || c == '\U{205F}'
    || c == '\U{3000}' || c == '\U{FEFF}'
  }

  /** ASCII case folding. With the `i` flag and without `u`, a JavaScript
      regular expression never folds a non-ASCII character onto an ASCII
      letter, so this is exact for the all-ASCII patterns of the source. */
  function LowerChar(c: char): (d: char)
    ensures 'A' <= c <= 'Z' ==> d as int == c as int + 32
    ensures !('A' <= c <= 'Z') ==> d == c
  {
    if 'A' <= c <= 'Z' then (c as int + 32) as char else c
  }

  function Lower(s: string): (r: string)
    ensures |r| == |s|
    ensures forall i :: 0 <= i < |s| ==> r[i] == LowerChar(s[i])
  {
    seq(|s|, i requires 0 <= i < |s| => LowerChar(s[i]))
  }

  /** A character as a pattern sees it: folded when the pattern carries `i`. */
  function Fold(c: char, ci: bool): char {
    if ci then LowerChar(c) else c
  }

  /** The literal `lit` (written in lower case when `ci`) occurs in `s` at `i`. */
  predicate MatchAt(s: string, i: nat, lit: string, ci: bool) {
    i + |lit| <= |s| && forall k :: 0 <= k < |lit| ==> Fold(s[i + k], ci) == lit[k]
  }

  /** Case-insensitive occurrence of a lower-case literal. */
  predicate HasAtCI(s: string, i: nat, lit: string) {
    MatchAt(s, i, lit, true)
  }

  /** Exact occurrence. */
  predicate HasAt(s: string, i: nat, lit: string) {
    MatchAt(s, i, lit, false)
  }

  ghost predicate NoMatchFrom(s: string, from: nat, lit: string, ci: bool) {
    forall p: nat :: from <= p ==> !MatchAt(s, p, lit, ci)
  }

  predicate StartsWith(s: string, prefix: string) {
    |prefix| <= |s| && s[..|prefix|] == prefix
  }

  /** `s.toLowerCase().startsWith(w)`, read without building the copy. */
  predicate StartsWithCI(s: string, w: string) {
    HasAtCI(s, 0, w)
  }

  /** `s.toLowerCase() === w`, read the same way. */
  predicate EqualsCI(s: string, w: string) {
    |s| == |w| && HasAtCI(s, 0, w)
  }

  /** One character of an occurrence. */
  lemma MatchedChar(s: string, i: nat, lit: string, ci: bool, k: nat)
    requires MatchAt(s, i, lit, ci) && k < |lit|
    ensures Fold(s[i + k], ci) == lit[k]
  {
  }

  /** A keyword that starts with a letter starts on a non-blank. */
  lemma KeywordLetter(s: string, i: nat, kw: string)
    requires HasAtCI(s, i, kw) && |kw| > 0 && 'a' <= kw[0] <= 'z'
    ensures LowerChar(s[i]) == kw[0] && !IsSpace(s[i])
  {
    MatchedChar(s, i, kw, true, 0);
  }

  /** Two keywords that differ at position `k` cannot both begin `s`. */
  lemma KeywordsExclusive(s: string, a: string, b: string, k: nat)
    requires StartsWithCI(s, a) && k < |a| && k < |b| && a[k] != b[k]
    ensures !StartsWithCI(s, b)
  {
    MatchedChar(s, 0, a, true, k);
    if StartsWithCI(s, b) {
      MatchedChar(s, 0, b, true, k);
    }
  }

  /** A keyword's case-insensitive prefix also begins `s`. */
  lemma KeywordPrefix(s: string, a: string, n: nat)
    requires StartsWithCI(s, a) && n <= |a|
    ensures StartsWithCI(s, a[..n])
  {
    forall k | 0 <= k < n ensures Fold(s[0 + k], true) == a[..n][k] {
      MatchedChar(s, 0, a, true, k);
    }
  }

  /** Comparing character by character agrees with lower-casing first. */
  lemma StartsWithLower(s: string, w: string)
    ensures StartsWith(Lower(s), w) <==> StartsWithCI(s, w)
  {
    if StartsWithCI(s, w) {
      assert Lower(s)[..|w|] == w;
    }
    if StartsWith(Lower(s), w) {
      forall k | 0 <= k < |w| ensures Fold(s[k], true) == w[k] {
        assert Lower(s)[..|w|][k] == w[k];
      }
    }
  }

  lemma EqualsLower(s: string, w: string)
    ensures Lower(s) == w <==> EqualsCI(s, w)
  {
    StartsWithLower(s, w);
    if EqualsCI(s, w) {
      assert Lower(s) == Lower(s)[..|w|];
    }
  }

  /** Leftmost occurrence of `lit` at or after `from`. */
  function IndexOf(s: string, lit: string, ci: bool, from: nat): (r: Option<nat>)
    decreases |s| - from
    ensures r.Some? ==> from <= r.value && MatchAt(s, r.value, lit, ci)
    ensures r.Some? ==> forall j: nat :: from <= j < r.value ==> !MatchAt(s, j, lit, ci)
    ensures r.None? <==> NoMatchFrom(s, from, lit, ci)
  {
    if from + |lit| > |s| then None
    else if MatchAt(s, from, lit, ci) then Some(from)
    else IndexOf(s, lit, ci, from + 1)
  }

  predicate Contains(s: string, lit: string) {
    IndexOf(s, lit, false, 0).Some?
  }

  /** `s.replace(lit, rep)` for a string or a non-global literal pattern. */
  function ReplaceFirst(s: string, lit: string, rep: string, ci: bool): (r: string)
  {
    match IndexOf(s, lit, ci, 0)
    case None => s
    case Some(i) => s[..i] + rep + s[i + |lit|..]
  }

  /** `s.replace(/lit/i, '')`: removes the first case-insensitive occurrence. */
  function RemoveFirstCI(s: string, lit: string): string {
    ReplaceFirst(s, lit, "", true)
  }

  /** A match with none before it is the one `IndexOf` finds. */
  lemma FirstMatchAt(s: string, q: nat, lit: string, ci: bool)
    requires MatchAt(s, q, lit, ci)
    requires forall p: nat :: p < q ==> !MatchAt(s, p, lit, ci)
    ensures IndexOf(s, lit, ci, 0) == Some(q)
  {
    assert !NoMatchFrom(s, 0, lit, ci);
  }

  /** A blank-free pattern absent from `t` cannot start inside ` t ` + rest. */
  lemma NoMatchInPadded(t: string, rest: string, lit: string, ci: bool)
    requires |lit| > 0 && NoMatchFrom(t, 0, lit, ci)
    requires forall k :: 0 <= k < |lit| ==> lit[k] != ' '
    ensures forall p: nat :: p < |t| + 2 ==> !MatchAt(" " + t + " " + rest, p, lit, ci)
  {
    var s := " " + t + " " + rest;
    forall p: nat | p < |t| + 2 ensures !MatchAt(s, p, lit, ci) {
      if p == 0 {
        assert Fold(s[p + 0], ci) != lit[0];
      } else if p + |lit| > |t| + 1 {
        var k := |t| + 1 - p;
        assert Fold(s[p + k], ci) != lit[k];
      } else {
        assert !MatchAt(t, p - 1, lit, ci);
        assert s[p..p + |lit|] == t[p - 1..p - 1 + |lit|];
      }
    }
  }

  /** A pattern found at the very start is the one removed. */
  lemma RemoveFirstAtStart(s: string, lit: string)
    requires HasAtCI(s, 0, lit)
    ensures RemoveFirstCI(s, lit) == s[|lit|..]
  {
    assert IndexOf(s, lit, true, 0) == Some(0);
  }

  /** `s.replace(/lit/g, rep)` from position `i`: leftmost, non-overlapping. */
  function ReplaceAllFrom(s: string, i: nat, lit: string, rep: string, ci: bool): string
    requires |lit| > 0
    decreases |s| - i
  {
    if i >= |s| then []
    else if MatchAt(s, i, lit, ci) then rep + ReplaceAllFrom(s, i + |lit|, lit, rep, ci)
    else [s[i]] + ReplaceAllFrom(s, i + 1, lit, rep, ci)
  }

  function ReplaceAll(s: string, lit: string, rep: string, ci: bool): string
    requires |lit| > 0
  {
    ReplaceAllFrom(s, 0, lit, rep, ci)
  }

  // ---------------------------------------------------------------- scanning

  /** End of the run of `\s` starting at `i` (greedy `\s*`). */
  function SkipSpaces(s: string, i: nat): (r: nat)
    requires i <= |s|
    decreases |s| - i
    ensures i <= r <= |s|
    ensures r < |s| ==> !IsSpace(s[r])
  {
    if i < |s| && IsSpace(s[i]) then SkipSpaces(s, i + 1) else i
  }

  /** Everything `SkipSpaces` passes over is blank. */
  lemma {:induction false} SkippedAreSpaces(s: string, i: nat)
    requires i <= |s|
    ensures forall k :: i <= k < SkipSpaces(s, i) ==> IsSpace(s[k])
    decreases |s| - i
  {
    if i < |s| && IsSpace(s[i]) {
      SkippedAreSpaces(s, i + 1);
    }
  }

  /** End of the run of `\w` starting at `i` (greedy `\w*`). */
  function WordEnd(s: string, i: nat): (r: nat)
    requires i <= |s|
    decreases |s| - i
    ensures i <= r <= |s|
    ensures r < |s| ==> !IsWordChar(s[r])
  {
    if i < |s| && IsWordChar(s[i]) then WordEnd(s, i + 1) else i
  }

  /** Everything `WordEnd` passes over is a word character. */
  lemma {:induction false} PassedAreWordChars(s: string, i: nat)
    requires i <= |s|
    ensures forall k :: i <= k < WordEnd(s, i) ==> IsWordChar(s[k])
    decreases |s| - i
  {
    if i < |s| && IsWordChar(s[i]) {
      PassedAreWordChars(s, i + 1);
    }
  }

  /** End of the run of `\d` starting at `i`. */
  function DigitEnd(s: string, i: nat): (r: nat)
    requires i <= |s|
    decreases |s| - i
    ensures i <= r <= |s|
    ensures forall k :: i <= k < r ==> IsDigit(s[k])
    ensures r < |s| ==> !IsDigit(s[r])
  {
    if i < |s| && IsDigit(s[i]) then DigitEnd(s, i + 1) else i
  }

  /** The first line terminator at or after `i`, or the end: how far a greedy
      `.*` starting at `i` reaches. */
  function LineEnd(s: string, i: nat): (r: nat)
    requires i <= |s|
    decreases |s| - i
    ensures i <= r <= |s|
    ensures forall k :: i <= k < r ==> !IsLineTerminator(s[k])
    ensures r < |s| ==> IsLineTerminator(s[r])
  {
    if i < |s| && !IsLineTerminator(s[i]) then LineEnd(s, i + 1) else i
  }

  /** A run of `\s` from `i` that stops at `j` is exactly what `\s*` takes. */
  lemma {:induction false} SkipSpacesRun(s: string, i: nat, j: nat)
    requires i <= j <= |s|
    requires forall k :: i <= k < j ==> IsSpace(s[k])
    requires j < |s| ==> !IsSpace(s[j])
    ensures SkipSpaces(s, i) == j
    decreases j - i
  {
    if i < j {
      SkipSpacesRun(s, i + 1, j);
    }
  }

  lemma {:induction false} WordEndRun(s: string, i: nat, j: nat)
    requires i <= j <= |s|
    requires forall k :: i <= k < j ==> IsWordChar(s[k])
    requires j < |s| ==> !IsWordChar(s[j])
    ensures WordEnd(s, i) == j
    decreases j - i
  {
    if i < j {
      WordEndRun(s, i + 1, j);
    }
  }

  lemma {:induction false} DigitEndRun(s: string, i: nat, j: nat)
    requires i <= j <= |s|
    requires forall k :: i <= k < j ==> IsDigit(s[k])
    requires j < |s| ==> !IsDigit(s[j])
    ensures DigitEnd(s, i) == j
    decreases j - i
  {
    if i < j {
      DigitEndRun(s, i + 1, j);
    }
  }

  /** No line terminator in `s[lo..hi]`: what `.` can consume. */
  predicate NoLineTerminator(s: string, lo: nat, hi: nat)
    requires lo <= hi <= |s|
  {
    forall k :: lo <= k < hi ==> !IsLineTerminator(s[k])
  }

  /** Regrouping a concatenation, stated once so that loops can name it. */
  lemma AppendAssoc<T>(a: seq<T>, b: seq<T>, c: seq<T>)
    ensures a + b + c == a + (b + c)
  {
  }

  // ---------------------------------------------------------------- trimming

  function TrimStart(s: string): (r: string)
    ensures |r| <= |s|
    ensures |r| > 0 ==> !IsSpace(r[0])
  {
    if |s| > 0 && IsSpace(s[0]) then TrimStart(s[1..]) else s
  }

  function TrimEnd(s: string): (r: string)
    ensures |r| <= |s|
    ensures |r| > 0 ==> !IsSpace(r[|r| - 1]) && r[0] == s[0]
  {
    if |s| > 0 && IsSpace(s[|s| - 1]) then TrimEnd(s[..|s| - 1]) else s
  }

  /** `String.prototype.trim`. */
  function Trim(s: string): (r: string)
    ensures |r| <= |s|
    ensures |r| > 0 ==> !IsSpace(r[0]) && !IsSpace(r[|r| - 1])
  {
    TrimEnd(TrimStart(s))
  }

  /** `trimStart` drops a run of blanks from the front and nothing else. */
  lemma {:induction false} TrimStartIsSuffix(s: string)
    ensures exists i :: 0 <= i <= |s| && TrimStart(s) == s[i..] && forall k :: 0 <= k < i ==> IsSpace(s[k])
  {
    if |s| > 0 && IsSpace(s[0]) {
      TrimStartIsSuffix(s[1..]);
      var i :| 0 <= i <= |s[1..]| && TrimStart(s[1..]) == s[1..][i..] && forall k :: 0 <= k < i ==> IsSpace(s[1..][k]);
      assert s[1..][i..] == s[i + 1..];
      assert forall k :: 0 <= k < i + 1 ==> IsSpace(s[k]) by {
        forall k | 0 < k < i + 1 ensures IsSpace(s[k]) {
          assert s[k] == s[1..][k - 1];
        }
      }
    } else {
      assert TrimStart(s) == s[0..];
    }
  }

  /** `trimEnd` drops a run of blanks from the back and nothing else. */
  lemma {:induction false} TrimEndIsPrefix(s: string)
    ensures exists j :: 0 <= j <= |s| && TrimEnd(s) == s[..j] && forall k :: j <= k < |s| ==> IsSpace(s[k])
  {
    if |s| > 0 && IsSpace(s[|s| - 1]) {
      var u := s[..|s| - 1];
      TrimEndIsPrefix(u);
      var j :| 0 <= j <= |u| && TrimEnd(u) == u[..j] && forall k :: j <= k < |u| ==> IsSpace(u[k]);
      assert u[..j] == s[..j];
      assert forall k :: j <= k < |s| ==> IsSpace(s[k]) by {
        forall k | j <= k < |s| - 1 ensures IsSpace(s[k]) {
          assert s[k] == u[k];
        }
      }
    } else {
      assert TrimEnd(s) == s[..|s|];
    }
  }

  /** `trim` returns a slice of its argument, with only blanks cut on either
      side. */
  lemma TrimIsSlice(s: string)
    ensures exists i, j ::
      && 0 <= i <= j <= |s| && Trim(s) == s[i..j]
      && (forall k :: 0 <= k < i ==> IsSpace(s[k]))
      && (forall k :: j <= k < |s| ==> IsSpace(s[k]))
  {
    TrimStartIsSuffix(s);
    var i :| 0 <= i <= |s| && TrimStart(s) == s[i..] && forall k :: 0 <= k < i ==> IsSpace(s[k]);
    TrimEndIsPrefix(s[i..]);
    var j :| 0 <= j <= |s| - i && TrimEnd(s[i..]) == s[i..][..j] && forall k :: j <= k < |s| - i ==> IsSpace(s[i..][k]);
    TrimmedTail(s, i, j);
  }

  /** The two halves of `TrimIsSlice` put together at known positions. */
  lemma TrimmedTail(s: string, i: nat, j: nat)
    requires i + j <= |s| && TrimStart(s) == s[i..] && TrimEnd(s[i..]) == s[i..][..j]
    requires forall k :: j <= k < |s| - i ==> IsSpace(s[i..][k])
    ensures Trim(s) == s[i..i + j]
    ensures forall k :: i + j <= k < |s| ==> IsSpace(s[k])
  {
    assert s[i..][..j] == s[i..i + j];
    forall k | i + j <= k < |s| ensures IsSpace(s[k]) {
      assert s[k] == s[i..][k - i];
    }
  }

  /** `trim` leaves text that neither starts nor ends with a blank alone. */
  lemma TrimKeepsTrimmed(s: string)
    requires s == [] || (!IsSpace(s[0]) && !IsSpace(s[|s| - 1]))
    ensures Trim(s) == s
  {
    assert TrimStart(s) == s;
  }

  /** Text that starts and ends with a non-blank survives `trim` after a
      separating blank. */
  lemma TrimAfterBlank(t: string)
    requires t == [] || (!IsSpace(t[0]) && !IsSpace(t[|t| - 1]))
    ensures Trim(" " + t) == t
  {
    assert (" " + t)[1..] == t;
    assert TrimStart(" " + t) == TrimStart(t);
  }

  /** ... and between two blanks. */
  lemma TrimBetweenBlanks(t: string)
    requires t == [] || (!IsSpace(t[0]) && !IsSpace(t[|t| - 1]))
    ensures Trim(" " + t + " ") == t
  {
    var s := " " + t + " ";
    assert s[1..] == t + " ";
    assert TrimStart(s) == TrimStart(t + " ");
    if t == [] {
      assert t + " " == " ";
      assert TrimStart(" ") == TrimStart(" "[1..]);
    } else {
      assert TrimStart(t + " ") == t + " ";
      assert (t + " ")[..|t|] == t;
      assert TrimEnd(t + " ") == TrimEnd(t);
    }
  }

  // ------------------------------------------------------ splitting, joining

  /** `s.split(sep)` for a one-character separator. */
  function Split(s: string, sep: char): (r: seq<string>)
    decreases |s|
    ensures |r| >= 1
  {
    match IndexOf(s, [sep], false, 0)
    case None => [s]
    case Some(i) => [s[..i]] + Split(s[i + 1..], sep)
  }

  /** `parts.join(sep)`. */
  function Join(parts: seq<string>, sep: string): string {
    if |parts| == 0 then ""
    else if |parts| == 1 then parts[0]
    else parts[0] + sep + Join(parts[1..], sep)
  }

  function MapTrim(parts: seq<string>): (r: seq<string>)
    ensures |r| == |parts|
    ensures forall k :: 0 <= k < |parts| ==> r[k] == Trim(parts[k])
  {
    if |parts| == 0 then [] else [Trim(parts[0])] + MapTrim(parts[1..])
  }

  function DropEmpty(parts: seq<string>): (r: seq<string>)
    ensures forall k :: 0 <= k < |r| ==> r[k] != ""
    ensures forall x :: x in r <==> x in parts && x != ""
  {
    if |parts| == 0 then []
    else if parts[0] == "" then DropEmpty(parts[1..])
    else [parts[0]] + DropEmpty(parts[1..])
  }

  /** `text.split('\n').map(l => l.trim()).filter(l => l.length > 0)`. */
  function NonBlankLines(text: string): (r: seq<string>)
    ensures forall k :: 0 <= k < |r| ==> r[k] != ""
  {
    DropEmpty(MapTrim(Split(text, '\n')))
  }

  /** Every line kept is already trimmed: trimming it again changes nothing. */
  lemma NonBlankLinesTrimmed(text: string)
    ensures forall k :: 0 <= k < |NonBlankLines(text)| ==> Trim(NonBlankLines(text)[k]) == NonBlankLines(text)[k]
  {
    var parts := MapTrim(Split(text, '\n'));
    var r := NonBlankLines(text);
    forall k | 0 <= k < |r|
      ensures Trim(r[k]) == r[k]
    {
      assert r[k] in parts;
      var m :| 0 <= m < |parts| && parts[m] == r[k];
      TrimKeepsTrimmed(r[k]);
    }
  }

  // ---------------------------------------------------------------- numbers

  function DigitChar(d: nat): (c: char)
    requires d < 10
    ensures IsDigit(c)
  {
    ['0', '1', '2', '3', '4', '5', '6', '7', '8', '9'][d]
  }

  /** Decimal rendering of a non-negative integer, as template literals do. */
  function Decimal(n: nat): (r: string)
    ensures |r| > 0
    ensures forall k :: 0 <= k < |r| ==> IsDigit(r[k])
  {
    if n < 10 then [DigitChar(n)] else Decimal(n / 10) + [DigitChar(n % 10)]
  }

  lemma DigitCharInjective(a: nat, b: nat)
    requires a < 10 && b < 10 && DigitChar(a) == DigitChar(b)
    ensures a == b
  {
  }

  /** Different numbers render differently (used for the node ids). */
  lemma {:induction false} DecimalInjective(a: nat, b: nat)
    requires Decimal(a) == Decimal(b)
    ensures a == b
    decreases a
  {
    var da, db := Decimal(a), Decimal(b);
    if a < 10 && b < 10 {
      DigitCharInjective(a, b);
    } else if a < 10 || b < 10 {
      assert false;
    } else {
      assert da[..|da| - 1] == Decimal(a / 10);
      assert db[..|db| - 1] == Decimal(b / 10);
      DecimalInjective(a / 10, b / 10);
      assert da[|da| - 1] == DigitChar(a % 10);
      assert db[|db| - 1] == DigitChar(b % 10);
      DigitCharInjective(a % 10, b % 10);
    }
  }

  // ------------------------------------------- what a global replace leaves

  lemma MatchAtShift(a: string, b: string, p: nat, lit: string, ci: bool)
    requires p >= |a|
    ensures MatchAt(a + b, p, lit, ci) <==> MatchAt(b, p - |a|, lit, ci)
  {
    if MatchAt(b, p - |a|, lit, ci) {
      forall k | 0 <= k < |lit| ensures Fold((a + b)[p + k], ci) == lit[k] {
        assert (a + b)[p + k] == b[p - |a| + k];
      }
    }
    if MatchAt(a + b, p, lit, ci) {
      forall k | 0 <= k < |lit| ensures Fold(b[p - |a| + k], ci) == lit[k] {
        assert (a + b)[p + k] == b[p - |a| + k];
      }
    }
  }

  /** A literal whose first letter never appears cannot match anywhere. */
  lemma FirstCharAbsent(s: string, lit: string, ci: bool)
    requires |lit| > 0
    requires forall k :: 0 <= k < |s| ==> Fold(s[k], ci) != lit[0]
    ensures NoMatchFrom(s, 0, lit, ci)
  {
    forall p: nat ensures !MatchAt(s, p, lit, ci) {
      if p < |s| { assert Fold(s[p + 0], ci) != lit[0]; }
    }
  }

  /** A replace that finds nothing changes nothing. */
  lemma {:induction false} ReplaceAllNoMatch(s: string, i: nat, lit: string, rep: string, ci: bool)
    requires |lit| > 0 && i <= |s|
    requires NoMatchFrom(s, i, lit, ci)
    ensures ReplaceAllFrom(s, i, lit, rep, ci) == s[i..]
    decreases |s| - i
  {
    if i < |s| {
      assert !MatchAt(s, i, lit, ci);
      ReplaceAllNoMatch(s, i + 1, lit, rep, ci);
    }
  }

  /** As long as the output shows no character that starts the replacement
      text, it is a verbatim copy of the input. */
  lemma {:induction false} CopiedPrefix(s: string, i: nat, lit: string, rep: string, ci: bool, m: nat)
    requires |lit| > 0 && |rep| > 0 && i <= |s|
    requires m <= |ReplaceAllFrom(s, i, lit, rep, ci)|
    requires forall k :: 0 <= k < m ==> Fold(ReplaceAllFrom(s, i, lit, rep, ci)[k], ci) != Fold(rep[0], ci)
    ensures i + m <= |s| && ReplaceAllFrom(s, i, lit, rep, ci)[..m] == s[i..i + m]
    decreases m
  {
    if m > 0 {
      var t := ReplaceAllFrom(s, i, lit, rep, ci);
      assert i < |s|;
      assert Fold(t[0], ci) != Fold(rep[0], ci);
      if MatchAt(s, i, lit, ci) {
        assert false;
      } else {
        var rest := ReplaceAllFrom(s, i + 1, lit, rep, ci);
        assert t == [s[i]] + rest;
        forall k | 0 <= k < m - 1 ensures Fold(rest[k], ci) != Fold(rep[0], ci) {
          assert rest[k] == t[k + 1];
        }
        CopiedPrefix(s, i + 1, lit, rep, ci, m - 1);
        assert t[..m] == [s[i]] + rest[..m - 1];
        assert s[i..i + m] == [s[i]] + s[i + 1..i + m];
      }
    }
  }

  /** Every character of a replacement's result comes from the text or from
      the replacement. */
  lemma {:induction false} ReplaceAllDrawsFrom(s: string, i: nat, lit: string, rep: string, ci: bool)
    requires |lit| > 0 && i <= |s|
    ensures forall k :: 0 <= k < |ReplaceAllFrom(s, i, lit, rep, ci)| ==>
      ReplaceAllFrom(s, i, lit, rep, ci)[k] in s[i..] || ReplaceAllFrom(s, i, lit, rep, ci)[k] in rep
    decreases |s| - i
  {
    if i < |s| {
      var n := if MatchAt(s, i, lit, ci) then i + |lit| else i + 1;
      ReplaceAllDrawsFrom(s, n, lit, rep, ci);
      var rest := ReplaceAllFrom(s, n, lit, rep, ci);
      forall k | 0 <= k < |rest| && rest[k] in s[n..]
        ensures rest[k] in s[i..]
      {
        var m :| 0 <= m < |s[n..]| && s[n..][m] == rest[k];
        assert s[i..][m + (n - i)] == rest[k];
      }
    }
  }

  /** A global replace leaves no occurrence of its own pattern, provided the
      replacement cannot combine with its surroundings into a new one. */
  lemma {:induction false} ReplaceAllLeavesNone(s: string, i: nat, lit: string, rep: string, ci: bool)
    requires |lit| > 0 && |rep| > 0 && i <= |s|
    requires forall k :: 1 <= k < |lit| ==> lit[k] != Fold(rep[0], ci)
    requires forall p :: 1 <= p < |rep| ==> Fold(rep[p], ci) != lit[0]
    requires Fold(rep[0], ci) == lit[0] ==> |rep| >= |lit| && !MatchAt(rep, 0, lit, ci)
    ensures NoMatchFrom(ReplaceAllFrom(s, i, lit, rep, ci), 0, lit, ci)
    decreases |s| - i
  {
    if i < |s| {
      if MatchAt(s, i, lit, ci) {
        ReplaceAllLeavesNone(s, i + |lit|, lit, rep, ci);
        ReplacedHeadNone(s, i, lit, rep, ci);
      } else {
        ReplaceAllLeavesNone(s, i + 1, lit, rep, ci);
        CopiedHeadNone(s, i, lit, rep, ci);
      }
    }
  }

  /** The step of `ReplaceAllLeavesNone` where the pattern is replaced. */
  lemma ReplacedHeadNone(s: string, i: nat, lit: string, rep: string, ci: bool)
    requires |lit| > 0 && |rep| > 0 && i < |s| && MatchAt(s, i, lit, ci)
    requires Fold(rep[0], ci) == lit[0] ==> |rep| >= |lit| && !MatchAt(rep, 0, lit, ci)
    requires forall p :: 1 <= p < |rep| ==> Fold(rep[p], ci) != lit[0]
    requires NoMatchFrom(ReplaceAllFrom(s, i + |lit|, lit, rep, ci), 0, lit, ci)
    ensures NoMatchFrom(ReplaceAllFrom(s, i, lit, rep, ci), 0, lit, ci)
  {
    var t := ReplaceAllFrom(s, i, lit, rep, ci);
    var rest := ReplaceAllFrom(s, i + |lit|, lit, rep, ci);
    assert t == rep + rest;
    forall p: nat ensures !MatchAt(t, p, lit, ci) {
      if p >= |rep| {
        MatchAtShift(rep, rest, p, lit, ci);
      } else if p >= 1 {
        assert t[p] == rep[p];
      } else if MatchAt(t, 0, lit, ci) {
        assert Fold(t[0], ci) == lit[0];
        assert MatchAt(rep, 0, lit, ci) by {
          forall k | 0 <= k < |lit| ensures Fold(rep[k], ci) == lit[k] {
            assert t[k] == rep[k];
          }
        }
      }
    }
  }

  /** The step of `ReplaceAllLeavesNone` where a character is copied. */
  lemma CopiedHeadNone(s: string, i: nat, lit: string, rep: string, ci: bool)
    requires |lit| > 0 && |rep| > 0 && i < |s| && !MatchAt(s, i, lit, ci)
    requires forall k :: 1 <= k < |lit| ==> lit[k] != Fold(rep[0], ci)
    requires NoMatchFrom(ReplaceAllFrom(s, i + 1, lit, rep, ci), 0, lit, ci)
    ensures NoMatchFrom(ReplaceAllFrom(s, i, lit, rep, ci), 0, lit, ci)
  {
    var t := ReplaceAllFrom(s, i, lit, rep, ci);
    var rest := ReplaceAllFrom(s, i + 1, lit, rep, ci);
    assert t == [s[i]] + rest;
    forall p: nat ensures !MatchAt(t, p, lit, ci) {
      if p >= 1 {
        MatchAtShift([s[i]], rest, p, lit, ci);
      } else {
        CopiedHeadUnmatched(s, i, lit, rep, ci);
      }
    }
  }

  /** A copied character cannot start an occurrence: its continuation would
      have to be copied too, and then it was one in the input. */
  lemma CopiedHeadUnmatched(s: string, i: nat, lit: string, rep: string, ci: bool)
    requires |lit| > 0 && |rep| > 0 && i < |s| && !MatchAt(s, i, lit, ci)
    requires forall k :: 1 <= k < |lit| ==> lit[k] != Fold(rep[0], ci)
    ensures !MatchAt(ReplaceAllFrom(s, i, lit, rep, ci), 0, lit, ci)
  {
    var t := ReplaceAllFrom(s, i, lit, rep, ci);
    var rest := ReplaceAllFrom(s, i + 1, lit, rep, ci);
    assert t == [s[i]] + rest;
    if MatchAt(t, 0, lit, ci) {
      var m := |lit| - 1;
      TailAvoids(t, rest, lit, Fold(rep[0], ci), ci);
      CopiedPrefix(s, i + 1, lit, rep, ci, m);
      HeadCopies(t, rest, s, i, m);
      MatchCopied(t, s, i, lit, ci);
    }
  }

  /** Behind the first character of an occurrence, no character folds to a
      letter that the pattern lacks after its first position. */
  lemma TailAvoids(t: string, rest: string, lit: string, c: char, ci: bool)
    requires |t| > 0 && t == [t[0]] + rest && MatchAt(t, 0, lit, ci)
    requires forall k :: 1 <= k < |lit| ==> lit[k] != c
    ensures forall k :: 0 <= k < |lit| - 1 ==> Fold(rest[k], ci) != c
  {
    forall k | 0 <= k < |lit| - 1 ensures Fold(rest[k], ci) != c {
      MatchedChar(t, 0, lit, ci, k + 1);
      assert rest[k] == t[k + 1];
    }
  }

  /** A head character followed by a copied run is a copy of `s[i..]`. */
  lemma HeadCopies(t: string, rest: string, s: string, i: nat, m: nat)
    requires i < |s| && t == [s[i]] + rest
    requires m <= |rest| && i + 1 + m <= |s| && rest[..m] == s[i + 1..i + 1 + m]
    ensures forall k :: 0 <= k <= m ==> t[k] == s[i + k]
  {
    forall k | 0 < k <= m ensures t[k] == s[i + k] {
      assert rest[..m][k - 1] == rest[k - 1];
    }
  }

  /** An occurrence in a copy of `s[i..]` is one in `s`. */
  lemma MatchCopied(t: string, s: string, i: nat, lit: string, ci: bool)
    requires MatchAt(t, 0, lit, ci) && i + |lit| <= |s|
    requires forall k :: 0 <= k < |lit| ==> t[k] == s[i + k]
    ensures MatchAt(s, i, lit, ci)
  {
    forall k | 0 <= k < |lit| ensures Fold(s[i + k], ci) == lit[k] {
      MatchedChar(t, 0, lit, ci, k);
    }
  }

  /** A global replace creates no occurrence of another word `w` that the
      input lacks, provided the replacement text cannot take part in one. */
  lemma {:induction false} ReplaceAllKeepsAbsent(s: string, i: nat, lit: string, rep: string, w: string, ci: bool)
    requires |lit| > 0 && |rep| > 0 && |w| > 0 && i <= |s|
    requires forall p :: 0 <= p < |rep| ==> Fold(rep[p], ci) != w[0]
    requires forall k :: 1 <= k < |w| ==> w[k] != Fold(rep[0], ci)
    requires NoMatchFrom(s, i, w, ci)
    ensures NoMatchFrom(ReplaceAllFrom(s, i, lit, rep, ci), 0, w, ci)
    decreases |s| - i
  {
    var t := ReplaceAllFrom(s, i, lit, rep, ci);
    if i < |s| {
      if MatchAt(s, i, lit, ci) {
        var rest := ReplaceAllFrom(s, i + |lit|, lit, rep, ci);
        ReplaceAllKeepsAbsent(s, i + |lit|, lit, rep, w, ci);
        forall p: nat ensures !MatchAt(t, p, w, ci) {
          if p >= |rep| {
            MatchAtShift(rep, rest, p, w, ci);
          } else {
            assert t[p] == rep[p];
          }
        }
      } else {
        var rest := ReplaceAllFrom(s, i + 1, lit, rep, ci);
        assert t == [s[i]] + rest;
        ReplaceAllKeepsAbsent(s, i + 1, lit, rep, w, ci);
        forall p: nat ensures !MatchAt(t, p, w, ci) {
          if p >= 1 {
            MatchAtShift([s[i]], rest, p, w, ci);
          } else if MatchAt(t, 0, w, ci) {
            forall k | 0 <= k < |w| - 1 ensures Fold(rest[k], ci) != Fold(rep[0], ci) {
              assert Fold(t[k + 1], ci) == w[k + 1];
              assert rest[k] == t[k + 1];
            }
            CopiedPrefix(s, i + 1, lit, rep, ci, |w| - 1);
            forall k | 0 <= k < |w| ensures Fold(s[i + k], ci) == w[k] {
              if k > 0 {
                assert s[i + k] == rest[..|w| - 1][k - 1];
                assert rest[k - 1] == t[k];
              }
            }
            assert MatchAt(s, i, w, ci);
          }
        }
      }
    }
  }

  // ------------------------------------------- a global replace, piecewise

  lemma MatchAtPrefix(a: string, b: string, p: nat, lit: string, ci: bool)
    requires p + |lit| <= |a|
    ensures MatchAt(a + b, p, lit, ci) <==> MatchAt(a, p, lit, ci)
  {
    if MatchAt(a, p, lit, ci) {
      forall k | 0 <= k < |lit| ensures Fold((a + b)[p + k], ci) == lit[k] {
        assert (a + b)[p + k] == a[p + k];
      }
    }
    if MatchAt(a + b, p, lit, ci) {
      forall k | 0 <= k < |lit| ensures Fold(a[p + k], ci) == lit[k] {
        assert (a + b)[p + k] == a[p + k];
      }
    }
  }

  /** No occurrence straddles the seam of `a + b` when the first character
      of `b` appears nowhere in the literal after its first position. */
  lemma SeamFree(a: string, b: string, lit: string, ci: bool)
    requires |b| > 0
    requires forall k :: 1 <= k < |lit| ==> lit[k] != Fold(b[0], ci)
    ensures forall p: nat :: p < |a| < p + |lit| ==> !MatchAt(a + b, p, lit, ci)
  {
    forall p: nat | p < |a| < p + |lit| ensures !MatchAt(a + b, p, lit, ci) {
      var k := |a| - p;
      assert (a + b)[p + k] == b[0];
      assert lit[k] != Fold((a + b)[p + k], ci);
    }
  }

  /** One step of a global replace that lies inside `b`, taken in `a + b`
      and in `b` alone. */
  lemma ReplaceAllStepInSuffix(a: string, b: string, j: nat, lit: string, rep: string, ci: bool) returns (m: bool)
    requires |lit| > 0 && j < |b|
    ensures m ==> j + |lit| <= |b|
    ensures m ==>
      && ReplaceAllFrom(a + b, |a| + j, lit, rep, ci) == rep + ReplaceAllFrom(a + b, |a| + (j + |lit|), lit, rep, ci)
      && ReplaceAllFrom(b, j, lit, rep, ci) == rep + ReplaceAllFrom(b, j + |lit|, lit, rep, ci)
    ensures !m ==>
      && ReplaceAllFrom(a + b, |a| + j, lit, rep, ci) == [b[j]] + ReplaceAllFrom(a + b, |a| + (j + 1), lit, rep, ci)
      && ReplaceAllFrom(b, j, lit, rep, ci) == [b[j]] + ReplaceAllFrom(b, j + 1, lit, rep, ci)
  {
    MatchAtShift(a, b, |a| + j, lit, ci);
    assert (a + b)[|a| + j] == b[j];
    m := MatchAt(b, j, lit, ci);
  }

  /** Replacing in `a + b` past the end of `a` is replacing in `b`. */
  lemma {:induction false} ReplaceAllShift(a: string, b: string, j: nat, lit: string, rep: string, ci: bool)
    requires |lit| > 0 && j <= |b|
    ensures ReplaceAllFrom(a + b, |a| + j, lit, rep, ci) == ReplaceAllFrom(b, j, lit, rep, ci)
    decreases |b| - j
  {
    if j < |b| {
      var m := ReplaceAllStepInSuffix(a, b, j, lit, rep, ci);
      if m {
        ReplaceAllShift(a, b, j + |lit|, lit, rep, ci);
      } else {
        ReplaceAllShift(a, b, j + 1, lit, rep, ci);
      }
    }
  }

  /** One step of a global replace that lies inside `a`. */
  lemma ReplaceAllStepInPrefix(a: string, b: string, i: nat, lit: string, rep: string, ci: bool)
    requires |lit| > 0 && i < |a|
    requires MatchAt(a + b, i, lit, ci) == MatchAt(a, i, lit, ci)
    ensures MatchAt(a, i, lit, ci) ==> ReplaceAllFrom(a + b, i, lit, rep, ci) == rep + ReplaceAllFrom(a + b, i + |lit|, lit, rep, ci)
    ensures !MatchAt(a, i, lit, ci) ==> ReplaceAllFrom(a + b, i, lit, rep, ci) == [a[i]] + ReplaceAllFrom(a + b, i + 1, lit, rep, ci)
  {
    assert (a + b)[i] == a[i];
  }

  /** When no occurrence straddles the seam, a global replace on `a + b` is
      the replace on `a` followed by the replace on `b`. */
  lemma {:induction false} ReplaceAllSplit(a: string, b: string, i: nat, lit: string, rep: string, ci: bool)
    requires |lit| > 0 && i <= |a|
    requires forall p: nat :: i <= p < |a| < p + |lit| ==> !MatchAt(a + b, p, lit, ci)
    ensures ReplaceAllFrom(a + b, i, lit, rep, ci) == ReplaceAllFrom(a, i, lit, rep, ci) + ReplaceAllFrom(b, 0, lit, rep, ci)
    decreases |a| - i
  {
    var tail := ReplaceAllFrom(b, 0, lit, rep, ci);
    if i == |a| {
      ReplaceAllShift(a, b, 0, lit, rep, ci);
    } else {
      if i + |lit| <= |a| {
        MatchAtPrefix(a, b, i, lit, ci);
      }
      ReplaceAllStepInPrefix(a, b, i, lit, rep, ci);
      var n := if MatchAt(a, i, lit, ci) then i + |lit| else i + 1;
      var head := if MatchAt(a, i, lit, ci) then rep else [a[i]];
      ReplaceAllSplit(a, b, n, lit, rep, ci);
      AppendAssoc(head, ReplaceAllFrom(a, n, lit, rep, ci), tail);
    }
  }
}
