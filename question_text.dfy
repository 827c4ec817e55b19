/**
  The question side of the answer pipeline (background.js): cleanQuestionText, which
  normalises the selected text, and createMCQPrompt, which wraps it in the fixed instructions.
 */
module QuestionText {
  import opened JsString

  /** The non-white-space characters of `s`, in order. Two strings with the same squeeze
      differ only in white space. */
  function Squeeze(s: string): (r: string)
    ensures |r| <= |s|
    ensures forall i :: 0 <= i < |r| ==> !IsSpace(r[i])
  {
    if s == [] then [] else (if IsSpace(s[0]) then [] else [s[0]]) + Squeeze(s[1..])
  }

  lemma {:induction false} SqueezeAppend(a: string, b: string)
    ensures Squeeze(a + b) == Squeeze(a) + Squeeze(b)
  {
    if a == [] {
      assert a + b == b;
    } else {
      assert (a + b)[1..] == a[1..] + b;
      SqueezeAppend(a[1..], b);
    }
  }

  lemma {:induction false} SqueezeOfSpaces(s: string)
    requires forall i :: 0 <= i < |s| ==> IsSpace(s[i])
    ensures Squeeze(s) == []
  {
    if s != [] {
      SqueezeOfSpaces(s[1..]);
    }
  }

  lemma {:induction false} SqueezeOfNonSpaces(s: string)
    requires forall i :: 0 <= i < |s| ==> !IsSpace(s[i])
    ensures Squeeze(s) == s
  {
    if s != [] {
      SqueezeOfNonSpaces(s[1..]);
    }
  }

  // ---------------------------------------------------------------- global replace

  /** A match of a pattern at the start of a string: what replaces it and how many characters it covers. */
  datatype Match = NoMatch | Match(replacement: string, length: nat)

  /** `s.replace(pattern, ...)` for a global pattern whose matches are never empty:
      `matchAt` gives the match starting at the head of its argument; the scan tries each
      position from the left and resumes after every match. */
  function GlobalReplace(s: string, matchAt: string -> Match): string
    decreases |s|
  {
    if s == [] then []
    else
      var m := matchAt(s);
      if m.Match? && 0 < m.length <= |s| then m.replacement + GlobalReplace(s[m.length..], matchAt)
      else [s[0]] + GlobalReplace(s[1..], matchAt)
  }

  /** A match at the head of `s` that only deletes white space: it is non-empty, its replacement
      starts with the same character, contains no white space, and has the same squeeze. */
  predicate DeletesOnlySpaceAt(m: Match, s: string) {
    m.Match? ==>
      0 < m.length <= |s|
      && m.replacement != [] && m.replacement[0] == s[0]
      && (forall i :: 0 <= i < |m.replacement| ==> !IsSpace(m.replacement[i]))
      && Squeeze(m.replacement) == Squeeze(s[..m.length])
  }

  /** A matcher whose every match only deletes white space. */
  ghost predicate DeletesOnlySpace(matchAt: string -> Match) {
    forall s :: DeletesOnlySpaceAt(matchAt(s), s)
  }

  /** Text without white space followed by text without double white space has none. */
  lemma NoDoubleSpaceAfterNonSpaces(a: string, b: string)
    requires forall i :: 0 <= i < |a| ==> !IsSpace(a[i])
    requires NoDoubleSpace(b)
    ensures NoDoubleSpace(a + b)
  {
    var ab := a + b;
    forall i | 0 <= i < |ab| - 1
      ensures !IsSpace(ab[i]) || !IsSpace(ab[i + 1])
    {
      if i >= |a| {
        assert ab[i] == b[i - |a|] && ab[i + 1] == b[i - |a| + 1];
      }
    }
  }

  /** One character before text without double white space adds none when it is not white
      space or the text does not start with white space. */
  lemma NoDoubleSpaceCons(c: char, b: string)
    requires NoDoubleSpace(b)
    requires b != [] && IsSpace(c) ==> !IsSpace(b[0])
    ensures NoDoubleSpace([c] + b)
  {
    var cb := [c] + b;
    forall i | 0 <= i < |cb| - 1
      ensures !IsSpace(cb[i]) || !IsSpace(cb[i + 1])
    {
      if i >= 1 {
        assert cb[i] == b[i - 1] && cb[i + 1] == b[i];
      }
    }
  }

  /** `r` keeps the first character of `s`, its non-space characters in order, and the
      absence of double white space. */
  predicate KeepsText(s: string, r: string) {
    (s != [] ==> r != [] && r[0] == s[0])
    && Squeeze(r) == Squeeze(s)
    && (NoDoubleSpace(s) ==> NoDoubleSpace(r))
  }

  /** The scan step where a match starts at the head. */
  lemma ReplaceStepAtMatch(s: string, matchAt: string -> Match)
    requires s != [] && matchAt(s).Match? && DeletesOnlySpaceAt(matchAt(s), s)
    requires KeepsText(s[matchAt(s).length..], GlobalReplace(s[matchAt(s).length..], matchAt))
    ensures KeepsText(s, GlobalReplace(s, matchAt))
  {
    var m := matchAt(s);
    var rest := s[m.length..];
    var tail := GlobalReplace(rest, matchAt);
    assert GlobalReplace(s, matchAt) == m.replacement + tail;
    assert Squeeze(m.replacement + tail) == Squeeze(s) by {
      SqueezeAppend(m.replacement, tail);
      assert s == s[..m.length] + rest;
      SqueezeAppend(s[..m.length], rest);
    }
    if NoDoubleSpace(s) {
      NoDoubleSpaceInfix(s, m.length, |s|);
      NoDoubleSpaceAfterNonSpaces(m.replacement, tail);
    }
  }

  /** Putting the same character in front of both strings keeps the relation. */
  lemma KeepsCons(c: char, rest: string, tail: string)
    requires KeepsText(rest, tail) && (rest == [] ==> tail == [])
    ensures KeepsText([c] + rest, [c] + tail)
  {
    SqueezeAppend([c], tail);
    SqueezeAppend([c], rest);
    if NoDoubleSpace([c] + rest) {
      NoDoubleSpaceInfix([c] + rest, 1, |rest| + 1);
      assert ([c] + rest)[1..] == rest;
      NoDoubleSpaceCons(c, tail);
    }
  }

  /** The scan step where nothing matches at the head: the first character is kept. */
  lemma ReplaceStepWithoutMatch(s: string, matchAt: string -> Match)
    requires s != [] && !(matchAt(s).Match? && 0 < matchAt(s).length <= |s|)
    requires KeepsText(s[1..], GlobalReplace(s[1..], matchAt))
    ensures KeepsText(s, GlobalReplace(s, matchAt))
  {
    assert s == [s[0]] + s[1..];
    KeepsCons(s[0], s[1..], GlobalReplace(s[1..], matchAt));
  }

  /** Replacing with such a matcher keeps the first character, keeps every non-space character
      in order, and never creates two adjacent white-space characters. */
  lemma {:induction false} GlobalReplaceDeletesOnlySpace(s: string, matchAt: string -> Match)
    requires DeletesOnlySpace(matchAt)
    ensures var r := GlobalReplace(s, matchAt);
            (s != [] ==> r != [] && r[0] == s[0])
            && Squeeze(r) == Squeeze(s)
            && (NoDoubleSpace(s) ==> NoDoubleSpace(r))
    decreases |s|
  {
    if s != [] {
      var m := matchAt(s);
      if m.Match? && 0 < m.length <= |s| {
        GlobalReplaceDeletesOnlySpace(s[m.length..], matchAt);
        ReplaceStepAtMatch(s, matchAt);
      } else {
        GlobalReplaceDeletesOnlySpace(s[1..], matchAt);
        ReplaceStepWithoutMatch(s, matchAt);
      }
    }
  }

  // ---------------------------------------------------------------- the cleaning steps

  /** `/\s+/g` replaced by " ", read one character at a time: white space followed by more white
      space is dropped and the last character of each run becomes a space. */
  function CollapseScan(s: string): string
  {
    if s == [] then []
    else if !IsSpace(s[0]) then [s[0]] + CollapseScan(s[1..])
    else if |s| > 1 && IsSpace(s[1]) then CollapseScan(s[1..])
    else " " + CollapseScan(s[1..])
  }

  lemma {:induction false} CollapseShape(s: string)
    ensures NoDoubleSpace(CollapseScan(s))
    ensures forall i :: 0 <= i < |CollapseScan(s)| && IsSpace(CollapseScan(s)[i]) ==> CollapseScan(s)[i] == ' '
    ensures Squeeze(CollapseScan(s)) == Squeeze(s)
    ensures s != [] ==> CollapseScan(s) != [] && (IsSpace(CollapseScan(s)[0]) <==> IsSpace(s[0]))
  {
    if s != [] {
      var rest := CollapseScan(s[1..]);
      CollapseShape(s[1..]);
      assert s == [s[0]] + s[1..];
      SqueezeAppend([s[0]], s[1..]);
      if !IsSpace(s[0]) {
        SqueezeAppend([s[0]], rest);
        NoDoubleSpaceCons(s[0], rest);
      } else if !(|s| > 1 && IsSpace(s[1])) {
        SqueezeAppend(" ", rest);
        NoDoubleSpaceCons(' ', rest);
      }
    }
  }

  /** `replace(/\s+/g, " ")`: every maximal run of white space becomes one space. The result has
      no double white space, its only white space is plain spaces, it keeps every other
      character in order, and it starts with white space iff the text does. */
  function CollapseSpaces(s: string): (r: string)
    ensures NoDoubleSpace(r)
    ensures forall i :: 0 <= i < |r| && IsSpace(r[i]) ==> r[i] == ' '
    ensures Squeeze(r) == Squeeze(s)
    ensures s != [] ==> r != [] && (IsSpace(r[0]) <==> IsSpace(s[0]))
  {
    CollapseShape(s);
    CollapseScan(s)
  }

  /** No run of white space straddles the cut between `x` and `y`. */
  predicate NoRunAcross(x: string, y: string) {
    x == [] || y == [] || !IsSpace(x[|x| - 1]) || !IsSpace(y[0])
  }

  /** The collapse works piece by piece when no run of white space straddles the cut. */
  lemma {:induction false} CollapseAppend(x: string, y: string)
    requires NoRunAcross(x, y)
    ensures CollapseScan(x + y) == CollapseScan(x) + CollapseScan(y)
  {
    if x == [] {
      assert x + y == y;
    } else {
      assert (x + y)[1..] == x[1..] + y;
      CollapseAppend(x[1..], y);
    }
  }

  /** A non-empty run of white space collapses to one space. */
  lemma {:induction false} CollapseOfRun(w: string)
    requires w != [] && forall i :: 0 <= i < |w| ==> IsSpace(w[i])
    ensures CollapseScan(w) == " "
  {
    if |w| > 1 {
      CollapseOfRun(w[1..]);
    }
  }

  /** Text without white space is left as it is. */
  lemma {:induction false} CollapseOfNonSpaces(s: string)
    requires forall i :: 0 <= i < |s| ==> !IsSpace(s[i])
    ensures CollapseScan(s) == s
  {
    if s != [] {
      CollapseOfNonSpaces(s[1..]);
    }
  }

  /** Every maximal run of white space, wherever it sits, becomes exactly one space. */
  lemma CollapseRunToSpace(a: string, w: string, b: string)
    requires w != [] && forall i :: 0 <= i < |w| ==> IsSpace(w[i])
    requires a == [] || !IsSpace(a[|a| - 1])
    requires b == [] || !IsSpace(b[0])
    ensures CollapseSpaces(a + w + b) == CollapseSpaces(a) + " " + CollapseSpaces(b)
  {
    var wb := w + b;
    assert CollapseSpaces(wb) == " " + CollapseSpaces(b) by {
      CollapseAppend(w, b);
      CollapseOfRun(w);
    }
    assert NoRunAcross(a, wb) by {
      assert wb[0] == w[0];
    }
    assert CollapseSpaces(a + wb) == CollapseSpaces(a) + CollapseSpaces(wb) by {
      CollapseAppend(a, wb);
    }
    assert a + w + b == a + wb;
  }

  /** Length of the match of `^(Question|Q\.|Q\d+\.?\s*)` with the `i` flag, 0 when there is none;
      the alternatives are tried in order. */
  function QuestionPrefixLength(s: string): (n: nat)
    ensures n <= |s|
    ensures n == 0 <==> !StartsWithCI(s, "Question") && !StartsWithCI(s, "Q.") && !(2 <= |s| && Lower(s[0]) == 'q' && IsDigit(s[1]))
    ensures StartsWithCI(s, "Question") ==> n == 8
    ensures !StartsWithCI(s, "Question") && StartsWithCI(s, "Q.") ==> n == 2
    ensures n > 0 && !StartsWithCI(s, "Question") && !StartsWithCI(s, "Q.") ==>
      var d := 1 + DigitRun(s[1..]);
      var p := if d < |s| && s[d] == '.' then d + 1 else d;
      Lower(s[0]) == 'q' && 1 < d <= p <= n
      && (forall i :: 1 <= i < d ==> IsDigit(s[i])) && (d < |s| ==> !IsDigit(s[d]))
      && (forall i :: p <= i < n ==> IsSpace(s[i])) && (n < |s| ==> !IsSpace(s[n]))
  {
    if StartsWithCI(s, "Question") then 8
    else if StartsWithCI(s, "Q.") then 2
    else if 2 <= |s| && Lower(s[0]) == 'q' && IsDigit(s[1]) then
      var d := 1 + DigitRun(s[1..]);
      DigitsFrom(s, 1);
      var p := if d < |s| && s[d] == '.' then d + 1 else d;
      SpacesFrom(s, p);
      p + SpaceRun(s[p..])
    else 0
  }

  /** Strip one leading "Question", "Q." or "Q<digits>[.]" prefix. */
  function StripQuestionPrefix(s: string): (r: string)
    ensures |r| <= |s| && r == s[|s| - |r|..]
  {
    s[QuestionPrefixLength(s)..]
  }

  /** The match of `(\d+)\s*\^\s*(\d+)` at the head of `s`, replaced by "$1^$2". */
  function PowerAt(s: string): Match {
    var d1 := DigitRun(s);
    if d1 == 0 then NoMatch
    else
      var a := d1 + SpaceRun(s[d1..]);
      if a == |s| || s[a] != '^' then NoMatch
      else
        var b := a + 1 + SpaceRun(s[a + 1..]);
        var d2 := DigitRun(s[b..]);
        if d2 == 0 then NoMatch else Match(s[..d1] + "^" + s[b..b + d2], b + d2)
  }

  predicate IsOrdinalSuffix(x: string) {
    x == "st" || x == "nd" || x == "rd" || x == "th"
  }

  /** The match of `(\d+)\s*(st|nd|rd|th)\b` (case-sensitive) at the head of `s`, replaced by "$1$2". */
  function OrdinalAt(s: string): Match {
    var d := DigitRun(s);
    if d == 0 then NoMatch
    else
      var a := d + SpaceRun(s[d..]);
      if a + 2 <= |s| && IsOrdinalSuffix(s[a..a + 2]) && (a + 2 == |s| || !IsWordChar(s[a + 2]))
      then Match(s[..d] + s[a..a + 2], a + 2)
      else NoMatch
  }

  lemma SqueezeDropSpaces(a: string, spaces: string, b: string)
    requires forall i :: 0 <= i < |spaces| ==> IsSpace(spaces[i])
    ensures Squeeze(a + spaces + b) == Squeeze(a + b)
  {
    SqueezeAppend(a + spaces, b);
    SqueezeAppend(a, spaces);
    SqueezeOfSpaces(spaces);
    SqueezeAppend(a, b);
  }

  lemma SqueezeAroundSpaces(x: string, sp1: string, mid: string, sp2: string, y: string)
    requires forall i :: 0 <= i < |sp1| ==> IsSpace(sp1[i])
    requires forall i :: 0 <= i < |sp2| ==> IsSpace(sp2[i])
    ensures Squeeze(x + sp1 + (mid + sp2 + y)) == Squeeze(x + mid + y)
  {
    SqueezeDropSpaces(x, sp1, mid + sp2 + y);
    assert x + (mid + sp2 + y) == (x + mid) + sp2 + y;
    SqueezeDropSpaces(x + mid, sp2, y);
  }

  lemma DigitIsNotSpace(c: char)
    requires IsDigit(c)
    ensures !IsSpace(c)
  {
  }

  lemma SplitAround(s: string, i: nat, a: nat, b: nat, e: nat)
    requires i <= a < b <= e <= |s|
    ensures s[..e] == s[..i] + s[i..a] + ([s[a]] + s[a + 1..b] + s[b..e])
  {
    assert s[a + 1..e] == s[a + 1..b] + s[b..e];
    assert s[a..e] == [s[a]] + s[a + 1..e];
    assert s[..a] == s[..i] + s[i..a];
    assert s[..e] == s[..a] + s[a..e];
  }

  /** The positions of a match of `(\d+)\s*\^\s*(\d+)` at the head of `s`: digits before `d1`,
      white space up to the caret at `a`, white space up to `b`, digits up to `e`. */
  lemma PowerMatchPositions(s: string) returns (d1: nat, a: nat, b: nat, e: nat)
    requires PowerAt(s).Match?
    ensures 0 < d1 <= a < b <= e <= |s| && s[a] == '^' && b < e
    ensures PowerAt(s) == Match(s[..d1] + "^" + s[b..e], e)
    ensures d1 == DigitRun(s) && a == d1 + SpaceRun(s[d1..])
    ensures b == a + 1 + SpaceRun(s[a + 1..]) && e == b + DigitRun(s[b..])
  {
    d1 := DigitRun(s);
    a := d1 + SpaceRun(s[d1..]);
    b := a + 1 + SpaceRun(s[a + 1..]);
    e := b + DigitRun(s[b..]);
  }

  /** The white space `SpaceRun` finds after position `k`, read in `s` itself. */
  lemma SpacesFrom(s: string, k: nat)
    requires k <= |s|
    ensures forall i :: k <= i < k + SpaceRun(s[k..]) ==> IsSpace(s[i])
  {
    var t := s[k..];
    assert forall i :: k <= i < k + SpaceRun(t) ==> s[i] == t[i - k];
  }

  /** The digits `DigitRun` finds after position `k`, read in `s` itself. */
  lemma DigitsFrom(s: string, k: nat)
    requires k <= |s|
    ensures forall i :: k <= i < k + DigitRun(s[k..]) ==> IsDigit(s[i])
  {
    var t := s[k..];
    assert forall i :: k <= i < k + DigitRun(t) ==> s[i] == t[i - k];
  }

  /** Digits, white space, a caret, white space and digits, laid out from the head of `s`:
      "$1^$2" drops only the white space and keeps none of it. */
  lemma CaretPieces(s: string, d1: nat, a: nat, b: nat, e: nat)
    requires 0 < d1 <= a < b <= e <= |s| && s[a] == '^'
    requires forall i :: 0 <= i < d1 ==> IsDigit(s[i])
    requires forall i :: d1 <= i < a ==> IsSpace(s[i])
    requires forall i :: a < i < b ==> IsSpace(s[i])
    requires forall i :: b <= i < e ==> IsDigit(s[i])
    ensures forall i :: 0 <= i < |s[..d1] + "^" + s[b..e]| ==> !IsSpace((s[..d1] + "^" + s[b..e])[i])
    ensures Squeeze(s[..d1] + "^" + s[b..e]) == Squeeze(s[..e])
  {
    var x, sp1, sp2, y := s[..d1], s[d1..a], s[a + 1..b], s[b..e];
    SplitAround(s, d1, a, b, e);
    assert [s[a]] == "^";
    var rep := x + "^" + y;
    forall i | 0 <= i < |rep|
      ensures !IsSpace(rep[i])
    {
      if i < |x| {
        DigitIsNotSpace(x[i]);
      } else if i > |x| {
        DigitIsNotSpace(y[i - |x| - 1]);
      }
    }
    SqueezeAroundSpaces(x, sp1, "^", sp2, y);
  }

  lemma PowerMatchDeletesOnlySpace(s: string)
    requires PowerAt(s).Match?
    ensures 0 < PowerAt(s).length <= |s|
    ensures PowerAt(s).replacement != [] && PowerAt(s).replacement[0] == s[0]
    ensures forall i :: 0 <= i < |PowerAt(s).replacement| ==> !IsSpace(PowerAt(s).replacement[i])
    ensures Squeeze(PowerAt(s).replacement) == Squeeze(s[..PowerAt(s).length])
  {
    var d1, a, b, e := PowerMatchPositions(s);
    SpacesFrom(s, d1);
    SpacesFrom(s, a + 1);
    DigitsFrom(s, b);
    CaretPieces(s, d1, a, b, e);
  }

  lemma PowerAtDeletesOnlySpace()
    ensures DeletesOnlySpace(PowerAt)
  {
    forall s
      ensures DeletesOnlySpaceAt(PowerAt(s), s)
    {
      if PowerAt(s).Match? {
        PowerMatchDeletesOnlySpace(s);
      }
    }
  }

  lemma OrdinalMatchDeletesOnlySpace(s: string)
    requires OrdinalAt(s).Match?
    ensures 0 < OrdinalAt(s).length <= |s|
    ensures OrdinalAt(s).replacement != [] && OrdinalAt(s).replacement[0] == s[0]
    ensures forall i :: 0 <= i < |OrdinalAt(s).replacement| ==> !IsSpace(OrdinalAt(s).replacement[i])
    ensures Squeeze(OrdinalAt(s).replacement) == Squeeze(s[..OrdinalAt(s).length])
  {
    var d := DigitRun(s);
    var a := d + SpaceRun(s[d..]);
    var x, y := s[..d], s[a..a + 2];
    assert OrdinalAt(s) == Match(x + y, a + 2);
    assert s[..a + 2] == x + s[d..a] + y;
    SqueezeDropSpaces(x, s[d..a], y);
  }

  lemma OrdinalAtDeletesOnlySpace()
    ensures DeletesOnlySpace(OrdinalAt)
  {
    forall s
      ensures DeletesOnlySpaceAt(OrdinalAt(s), s)
    {
      if OrdinalAt(s).Match? {
        OrdinalMatchDeletesOnlySpace(s);
      }
    }
  }

  /** `replace(/(\d+)\s*\^\s*(\d+)/g, "$1^$2")`: it keeps the first character and every
      character other than white space, in order, and adds no double white space. */
  function JoinPowers(s: string): (r: string)
    ensures s != [] ==> r != [] && r[0] == s[0]
    ensures Squeeze(r) == Squeeze(s)
    ensures NoDoubleSpace(s) ==> NoDoubleSpace(r)
  {
    PowerAtDeletesOnlySpace();
    GlobalReplaceDeletesOnlySpace(s, PowerAt);
    GlobalReplace(s, PowerAt)
  }

  /** `replace(/(\d+)\s*(st|nd|rd|th)\b/g, "$1$2")`, with the same guarantees. */
  function JoinOrdinals(s: string): (r: string)
    ensures s != [] ==> r != [] && r[0] == s[0]
    ensures Squeeze(r) == Squeeze(s)
    ensures NoDoubleSpace(s) ==> NoDoubleSpace(r)
  {
    OrdinalAtDeletesOnlySpace();
    GlobalReplaceDeletesOnlySpace(s, OrdinalAt);
    GlobalReplace(s, OrdinalAt)
  }

  /** `\s*` read at position `k` of `s` stops at position `m`. */
  lemma SpaceRunAt(s: string, k: nat, m: nat)
    requires k <= m <= |s|
    requires forall i :: k <= i < m ==> IsSpace(s[i])
    requires m < |s| ==> !IsSpace(s[m])
    ensures SpaceRun(s[k..]) == m - k
  {
    var u := s[k..];
    assert forall i :: 0 <= i < |u| ==> u[i] == s[k + i];
  }

  /** `\d*` read at position `k` of `s` stops at position `m`. */
  lemma DigitRunAt(s: string, k: nat, m: nat)
    requires k <= m <= |s|
    requires forall i :: k <= i < m ==> IsDigit(s[i])
    requires m < |s| ==> !IsDigit(s[m])
    ensures DigitRun(s[k..]) == m - k
  {
    var u := s[k..];
    assert forall i :: 0 <= i < |u| ==> u[i] == s[k + i];
  }

  /** A match that covers the whole text is the whole result of the global replace. */
  lemma ReplaceWholeMatch(s: string, matchAt: string -> Match)
    requires s != [] && matchAt(s).Match? && matchAt(s).length == |s|
    ensures GlobalReplace(s, matchAt) == matchAt(s).replacement
  {
    assert s[|s|..] == [];
  }

  /** Runs of the right lengths around a caret make `PowerAt` match. */
  lemma PowerAtMatches(s: string, d1: nat, a: nat, b: nat, e: nat)
    requires 0 < d1 <= a < b < e <= |s| && s[a] == '^'
    requires DigitRun(s) == d1 && SpaceRun(s[d1..]) == a - d1
    requires SpaceRun(s[a + 1..]) == b - a - 1 && DigitRun(s[b..]) == e - b
    ensures PowerAt(s).Match?
  {
    var d1' := DigitRun(s);
    var a' := d1' + SpaceRun(s[d1'..]);
    assert d1' == d1 && a' == a;
    assert a' < |s| && s[a'] == '^';
    var b' := a' + 1 + SpaceRun(s[a' + 1..]);
    assert b' == b;
    assert DigitRun(s[b'..]) != 0;
  }

  /** `PowerAt` read off the lengths of its four runs. */
  lemma PowerAtOfRuns(s: string, d1: nat, a: nat, b: nat, e: nat)
    requires 0 < d1 <= a < b < e <= |s| && s[a] == '^'
    requires DigitRun(s) == d1 && SpaceRun(s[d1..]) == a - d1
    requires SpaceRun(s[a + 1..]) == b - a - 1 && DigitRun(s[b..]) == e - b
    ensures PowerAt(s) == Match(s[..d1] + "^" + s[b..e], e)
  {
    PowerAtMatches(s, d1, a, b, e);
    var d1', a', b', e' := PowerMatchPositions(s);
    assert d1' == d1 && a' == a && b' == b && e' == e;
  }

  /** Digits up to `d1`, white space up to the caret at `a`, white space up to `b`, digits up to
      `e` and no digit after them: `(\d+)\s*\^\s*(\d+)` matches exactly there. */
  lemma PowerAtPositions(s: string, d1: nat, a: nat, b: nat, e: nat)
    requires 0 < d1 <= a < b < e <= |s| && s[a] == '^'
    requires forall i :: 0 <= i < d1 ==> IsDigit(s[i])
    requires forall i :: d1 <= i < a ==> IsSpace(s[i])
    requires forall i :: a < i < b ==> IsSpace(s[i])
    requires forall i :: b <= i < e ==> IsDigit(s[i])
    requires e < |s| ==> !IsDigit(s[e])
    ensures PowerAt(s) == Match(s[..d1] + "^" + s[b..e], e)
  {
    if d1 < a && IsDigit(s[d1]) {
      DigitIsNotSpace(s[d1]);
    }
    DigitRunAt(s, 0, d1);
    assert DigitRun(s) == d1 by { assert s[0..] == s; }
    SpaceRunAt(s, d1, a);
    DigitIsNotSpace(s[b]);
    SpaceRunAt(s, a + 1, b);
    DigitRunAt(s, b, e);
    PowerAtOfRuns(s, d1, a, b, e);
  }

  /** "2 ^ 3" becomes "2^3": the white space around the caret between two numbers goes. */
  lemma PowersJoined(d1: string, s1: string, s2: string, d2: string)
    requires d1 != [] && d2 != []
    requires forall i :: 0 <= i < |d1| ==> IsDigit(d1[i])
    requires forall i :: 0 <= i < |d2| ==> IsDigit(d2[i])
    requires forall i :: 0 <= i < |s1| ==> IsSpace(s1[i])
    requires forall i :: 0 <= i < |s2| ==> IsSpace(s2[i])
    ensures JoinPowers(d1 + s1 + "^" + s2 + d2) == d1 + "^" + d2
  {
    var s := d1 + s1 + "^" + s2 + d2;
    var a := |d1| + |s1|;
    var b := a + 1 + |s2|;
    assert s[..|d1|] == d1 && s[b..|s|] == d2 && s[a] == '^';
    assert forall i :: |d1| <= i < a ==> s[i] == s1[i - |d1|];
    assert forall i :: a < i < b ==> s[i] == s2[i - a - 1];
    assert forall i :: b <= i < |s| ==> s[i] == d2[i - b];
    PowerAtPositions(s, |d1|, a, b, |s|);
    ReplaceWholeMatch(s, PowerAt);
  }

  /** Digits up to `d`, white space up to `a`, then an ordinal suffix at the end of a word:
      `(\d+)\s*(st|nd|rd|th)\b` matches exactly there. */
  lemma OrdinalAtPositions(s: string, d: nat, a: nat)
    requires 0 < d <= a && a + 2 <= |s| && IsOrdinalSuffix(s[a..a + 2])
    requires forall i :: 0 <= i < d ==> IsDigit(s[i])
    requires forall i :: d <= i < a ==> IsSpace(s[i])
    requires a + 2 == |s| || !IsWordChar(s[a + 2])
    ensures OrdinalAt(s) == Match(s[..d] + s[a..a + 2], a + 2)
  {
    assert s[a] == s[a..a + 2][0];
    if d < a && IsDigit(s[d]) {
      DigitIsNotSpace(s[d]);
    }
    DigitRunAt(s, 0, d);
    assert DigitRun(s) == d by { assert s[0..] == s; }
    SpaceRunAt(s, d, a);
    OrdinalAtOfRuns(s, d, a);
  }

  /** The positions of a match of `(\d+)\s*(st|nd|rd|th)\b` at the head of `s`: digits
      before `d`, white space up to the suffix at `a`. */
  lemma OrdinalMatchPositions(s: string) returns (d: nat, a: nat)
    requires OrdinalAt(s).Match?
    ensures 0 < d <= a && a + 2 <= |s|
    ensures OrdinalAt(s) == Match(s[..d] + s[a..a + 2], a + 2)
    ensures d == DigitRun(s) && a == d + SpaceRun(s[d..])
  {
    d := DigitRun(s);
    a := d + SpaceRun(s[d..]);
  }

  /** Runs of the right lengths before an ordinal suffix make `OrdinalAt` match. */
  lemma OrdinalAtMatches(s: string, d: nat, a: nat)
    requires 0 < d <= a && a + 2 <= |s| && IsOrdinalSuffix(s[a..a + 2])
    requires DigitRun(s) == d && SpaceRun(s[d..]) == a - d
    requires a + 2 == |s| || !IsWordChar(s[a + 2])
    ensures OrdinalAt(s).Match?
  {
    var d' := DigitRun(s);
    var a' := d' + SpaceRun(s[d'..]);
    assert d' == d && a' == a;
    assert IsOrdinalSuffix(s[a'..a' + 2]);
  }

  /** `OrdinalAt` read off the lengths of its two runs. */
  lemma OrdinalAtOfRuns(s: string, d: nat, a: nat)
    requires 0 < d <= a && a + 2 <= |s| && IsOrdinalSuffix(s[a..a + 2])
    requires DigitRun(s) == d && SpaceRun(s[d..]) == a - d
    requires a + 2 == |s| || !IsWordChar(s[a + 2])
    ensures OrdinalAt(s) == Match(s[..d] + s[a..a + 2], a + 2)
  {
    OrdinalAtMatches(s, d, a);
    var d', a' := OrdinalMatchPositions(s);
    assert d' == d && a' == a;
  }

  /** "3 rd" becomes "3rd": the white space between a number and its ordinal suffix goes. */
  lemma OrdinalsJoined(d: string, sp: string, suffix: string)
    requires d != [] && forall i :: 0 <= i < |d| ==> IsDigit(d[i])
    requires forall i :: 0 <= i < |sp| ==> IsSpace(sp[i])
    requires IsOrdinalSuffix(suffix)
    ensures JoinOrdinals(d + sp + suffix) == d + suffix
  {
    var s := d + sp + suffix;
    var a := |d| + |sp|;
    assert s[..|d|] == d && s[a..a + 2] == suffix;
    assert forall i :: |d| <= i < a ==> s[i] == sp[i - |d|];
    OrdinalAtPositions(s, |d|, a);
    ReplaceWholeMatch(s, OrdinalAt);
  }

  /** `replace(/\s*\?\s*$/g, "")`: when the text ends in "?" (trailing white space aside),
      remove that "?" and the white space on both sides of it; otherwise change nothing. */
  function StripTrailingQuestionMark(s: string): (r: string)
    ensures |r| <= |s| && r == s[..|r|]
    ensures var t := TrimEnd(s);
      t != [] && t[|t| - 1] == '?' ==>
        |r| < |t| && NoSpaceAt(r, |r| - 1)
        && forall i :: |r| <= i < |s| && i != |t| - 1 ==> IsSpace(s[i])
    ensures var t := TrimEnd(s);
      !(t != [] && t[|t| - 1] == '?') ==> r == s
  {
    var t := TrimEnd(s);
    if t != [] && t[|t| - 1] == '?' then
      var r := TrimEnd(t[..|t| - 1]);
      assert forall i :: |r| <= i < |t| - 1 ==> s[i] == t[..|t| - 1][i];
      r
    else s
  }

  /** `/[.!]$/` */
  predicate EndsWithStop(s: string) {
    s != [] && (s[|s| - 1] == '.' || s[|s| - 1] == '!')
  }

  /** The first four steps of cleanQuestionText: collapse white space and trim, strip the
      "Question"/"Q." prefix, join exponents and ordinals. */
  function JoinedQuestion(text: string): (j: string)
    ensures NoDoubleSpace(j)
  {
    var spaced := CollapseSpaces(text);
    var collapsed := Trim(spaced);
    assert NoDoubleSpace(collapsed) by {
      NoDoubleSpaceInfix(spaced, SpaceRun(spaced), SpaceRun(spaced) + |collapsed|);
    }
    var unprefixed := StripQuestionPrefix(collapsed);
    assert NoDoubleSpace(unprefixed) by {
      NoDoubleSpaceInfix(collapsed, |collapsed| - |unprefixed|, |collapsed|);
    }
    JoinOrdinals(JoinPowers(unprefixed))
  }

  /** The first five steps of cleanQuestionText, up to and including dropping a final "?". */
  function NormalisedQuestion(text: string): (c: string)
    ensures NoDoubleSpace(c)
  {
    var joined := JoinedQuestion(text);
    var c := StripTrailingQuestionMark(joined);
    assert NoDoubleSpace(c) by {
      NoDoubleSpaceInfix(joined, 0, |c|);
    }
    c
  }

  /** cleanQuestionText: collapse white space and trim, strip a "Question"/"Q." prefix, join
      exponents and ordinals, drop a final "?", and append "?" when the text then has no "?"
      and does not end a sentence. */
  function CleanQuestionText(text: string): (r: string)
    ensures NoDoubleSpace(r)
    ensures '?' in r || EndsWithStop(r)
    ensures var c := NormalisedQuestion(text); ('?' in c || EndsWithStop(c)) ==> r == c
    ensures var c := NormalisedQuestion(text); !('?' in c || EndsWithStop(c)) ==> r == c + "?"
  {
    var c := NormalisedQuestion(text);
    if '?' !in c && !EndsWithStop(c) then c + "?" else c
  }

  /** Dropping the final "?" from a text ending in white space and "?" leaves the text before them. */
  lemma StripSpacedMark(q: string, w: string)
    requires q != [] && !IsSpace(q[|q| - 1]) && '?' !in q
    requires forall i :: 0 <= i < |w| ==> IsSpace(w[i])
    ensures StripTrailingQuestionMark(q + w + "?") == q
  {
    var s := q + w + "?";
    assert s[|s| - 1] == '?' && s[|q| - 1] == q[|q| - 1];
    assert forall i :: |q| <= i < |s| - 1 ==> s[i] == w[i - |q|];
  }

  /** A text that does not end in "?" or white space has no final "?" to drop. */
  lemma StripUnmarked(q: string)
    requires q != [] && q[|q| - 1] != '?' && !IsSpace(q[|q| - 1])
    ensures StripTrailingQuestionMark(q) == q
  {
    assert |TrimEnd(q)| == |q|;
  }

  /** A question whose cleaned text ends in white space and "?" comes out with the "?" moved up
      against its last word ("What is X ?" becomes "What is X?"). */
  lemma ClosingMarkTightened(text: string, q: string, w: string)
    requires JoinedQuestion(text) == q + w + "?"
    requires q != [] && !IsSpace(q[|q| - 1]) && '?' !in q && !EndsWithStop(q)
    requires forall i :: 0 <= i < |w| ==> IsSpace(w[i])
    ensures CleanQuestionText(text) == q + "?"
  {
    StripSpacedMark(q, w);
    assert NormalisedQuestion(text) == q;
  }

  /** Text whose white space is single plain spaces is left alone by `replace(/\s+/g, " ")`. */
  lemma {:induction false} CollapseOfSingleSpaces(s: string)
    requires NoDoubleSpace(s)
    requires forall i :: 0 <= i < |s| && IsSpace(s[i]) ==> s[i] == ' '
    ensures CollapseScan(s) == s
  {
    if s != [] {
      NoDoubleSpaceInfix(s, 1, |s|);
      CollapseOfSingleSpaces(s[1..]);
      assert s == [s[0]] + s[1..];
    }
  }

  /** A global replace that finds no match anywhere changes nothing. */
  lemma {:induction false} ReplaceWithoutMatches(s: string, matchAt: string -> Match)
    requires forall k :: 0 <= k < |s| ==> matchAt(s[k..]) == NoMatch
    ensures GlobalReplace(s, matchAt) == s
    decreases |s|
  {
    if s != [] {
      assert matchAt(s[0..]) == NoMatch && s[0..] == s;
      forall k | 0 <= k < |s| - 1
        ensures matchAt(s[1..][k..]) == NoMatch
      {
        assert s[1..][k..] == s[k + 1..];
      }
      ReplaceWithoutMatches(s[1..], matchAt);
      assert s == [s[0]] + s[1..];
    }
  }

  /** Neither the exponent nor the ordinal pattern can match where no digit starts. */
  lemma NoDigitNoJoin(s: string, k: nat)
    requires k < |s| && !IsDigit(s[k])
    ensures PowerAt(s[k..]) == NoMatch && OrdinalAt(s[k..]) == NoMatch
  {
    assert s[k..][0] == s[k];
    assert DigitRun(s[k..]) == 0;
  }

  /** A trimmed question of words and single spaces, without digits and not starting with "q". */
  predicate PlainQuestion(s: string) {
    Trimmed(s) && NoDoubleSpace(s)
    && (forall i :: 0 <= i < |s| ==> !IsDigit(s[i]) && (IsSpace(s[i]) ==> s[i] == ' '))
    && (s != [] ==> Lower(s[0]) != 'q')
  }

  /** Such a question comes through the first four cleaning steps unchanged. */
  lemma JoinedOfPlainText(s: string)
    requires PlainQuestion(s)
    ensures JoinedQuestion(s) == s
  {
    CollapseOfSingleSpaces(s);
    TrimOfTrimmed(s);
    assert QuestionPrefixLength(s) == 0 by {
      if s != [] {
        assert Lower(s[0]) != Lower("Question"[0]) && Lower(s[0]) != Lower("Q."[0]);
      }
    }
    assert StripQuestionPrefix(s) == s;
    forall k | 0 <= k < |s|
      ensures PowerAt(s[k..]) == NoMatch && OrdinalAt(s[k..]) == NoMatch
    {
      NoDigitNoJoin(s, k);
    }
    ReplaceWithoutMatches(s, PowerAt);
    ReplaceWithoutMatches(s, OrdinalAt);
  }

  /** A cleaned text that does not end in "?" keeps its final "?"-free form: the "?" is
      appended exactly when it has no "?" and does not end a sentence. */
  lemma NoClosingMark(text: string, q: string)
    requires JoinedQuestion(text) == q
    requires q != [] && q[|q| - 1] != '?' && !IsSpace(q[|q| - 1])
    ensures NormalisedQuestion(text) == q
  {
    StripUnmarked(q);
  }

  /** A plain question ending in " ?" comes out with the "?" against its last word:
      "What is X ?" becomes "What is X?". */
  lemma SpacedMarkTightened(q: string)
    requires PlainQuestion(q) && q != [] && '?' !in q && !EndsWithStop(q)
    ensures CleanQuestionText(q + " ?") == q + "?"
  {
    var s := q + " ?";
    assert JoinedQuestion(s) == q + " " + "?" by {
      assert PlainQuestion(s) by {
        assert s[|s| - 1] == '?' && s[|s| - 2] == ' ' && s[|q| - 1] == q[|q| - 1];
        assert forall i :: 0 <= i < |q| ==> s[i] == q[i];
        assert s[0] == q[0];
      }
      JoinedOfPlainText(s);
      assert s == q + " " + "?";
    }
    ClosingMarkTightened(s, q, " ");
  }

  /** A plain question without "?" gets one appended: "What is X" becomes "What is X?". */
  lemma PlainQuestionGetsMark(q: string)
    requires PlainQuestion(q) && q != [] && '?' !in q && !EndsWithStop(q)
    ensures CleanQuestionText(q) == q + "?"
  {
    JoinedOfPlainText(q);
    NoClosingMark(q, q);
  }

  /** A plain question that ends a sentence, or has a "?" before its end, is left as it is:
      "Is it true." and "What? is it" get no "?". */
  lemma MarkedOrStoppedQuestionKept(q: string)
    requires PlainQuestion(q) && q != [] && q[|q| - 1] != '?'
    requires '?' in q || EndsWithStop(q)
    ensures CleanQuestionText(q) == q
  {
    JoinedOfPlainText(q);
    NoClosingMark(q, q);
  }

  lemma SqueezeOfTrimEnd(s: string)
    ensures Squeeze(TrimEnd(s)) == Squeeze(s)
  {
    var r := TrimEnd(s);
    var spaces := s[|r|..];
    assert s == r + spaces;
    assert forall i :: 0 <= i < |spaces| ==> spaces[i] == s[|r| + i];
    SqueezeAppend(r, spaces);
    SqueezeOfSpaces(spaces);
  }

  lemma SqueezeOfTrim(s: string)
    ensures Squeeze(Trim(s)) == Squeeze(s)
  {
    var n := SpaceRun(s);
    SqueezeOfTrimEnd(s[n..]);
    assert s == s[..n] + s[n..];
    SqueezeAppend(s[..n], s[n..]);
    SqueezeOfSpaces(s[..n]);
  }

  /** Dropping the final "?" removes that one character and white space, or nothing. */
  lemma StripTrailingQuestionMarkSqueeze(s: string)
    ensures var r := StripTrailingQuestionMark(s);
      Squeeze(r) == Squeeze(s) || Squeeze(r) + "?" == Squeeze(s)
  {
    var t := TrimEnd(s);
    SqueezeOfTrimEnd(s);
    if t != [] && t[|t| - 1] == '?' {
      var u := t[..|t| - 1];
      assert t == u + "?";
      SqueezeAppend(u, "?");
      SqueezeOfTrimEnd(u);
      assert Squeeze("?") == "?";
    }
  }

  /** Up to dropping the final "?", cleaning changes only white space after the prefix. */
  lemma NormalisedKeepsText(text: string)
    ensures var kept := Squeeze(StripQuestionPrefix(Trim(CollapseSpaces(text))));
      var r := Squeeze(NormalisedQuestion(text));
      r == kept || r + "?" == kept
  {
    var joined := JoinedQuestion(text);
    StripTrailingQuestionMarkSqueeze(joined);
    assert NormalisedQuestion(text) == StripTrailingQuestionMark(joined);
  }

  /** Collapsing and trimming white space keeps every other character, in order. */
  lemma CollapseKeepsText(text: string)
    ensures Squeeze(Trim(CollapseSpaces(text))) == Squeeze(text)
  {
    SqueezeOfTrim(CollapseSpaces(text));
  }

  lemma SqueezeAppendMark(c: string)
    ensures Squeeze(c + "?") == Squeeze(c) + "?"
  {
    SqueezeAppend(c, "?");
    assert Squeeze("?") == "?";
  }

  /** Besides white space and the "Question"/"Q." prefix, cleanQuestionText keeps every
      character of the selection in order; the one change is a final "?" dropped, added,
      or both (which leaves it in place). */
  lemma CleanQuestionKeepsText(text: string)
    ensures var kept := Squeeze(StripQuestionPrefix(Trim(CollapseSpaces(text))));
      var r := Squeeze(CleanQuestionText(text));
      r == kept || r == kept + "?" || r + "?" == kept
  {
    NormalisedKeepsText(text);
    SqueezeAppendMark(NormalisedQuestion(text));
  }

  // ---------------------------------------------------------------- prompt

  const PromptHead := "You are a concise solver for aptitude and technical MCQ questions.\n\nRules:\n"
    + "- If options (A, B, C, D, E) are provided, ONLY reply with the correct option in format: \"D: page\"\n"
    + "- Do NOT explain your answer.\n"
    + "- Use the given options to infer missing characters or unclear question parts.\n"
    + "- If NO options are given, respond with a one-word or one-line direct answer only.\n\nQuestion:\n"
  const PromptTail := "\n\nAnswer:"

  /** createMCQPrompt: the question between the fixed instructions and the "Answer:" trailer. */
  function CreateMCQPrompt(question: string): (prompt: string)
    ensures |prompt| == |PromptHead| + |question| + |PromptTail|
    ensures prompt[..|PromptHead|] == PromptHead
    ensures prompt[|prompt| - |PromptTail|..] == PromptTail
  {
    PromptHead + question + PromptTail
  }

  /** The question a prompt was built from. */
  function PromptQuestion(prompt: string): string
    requires |PromptHead| + |PromptTail| <= |prompt|
  {
    prompt[|PromptHead|..|prompt| - |PromptTail|]
  }

  /** The prompt embeds the question verbatim: it can be read back, so distinct questions give distinct prompts. */
  lemma PromptRoundTrip(question: string)
    ensures PromptQuestion(CreateMCQPrompt(question)) == question
  {
    var p := CreateMCQPrompt(question);
    assert p[|PromptHead|..|p| - |PromptTail|] == question;
  }
}
