/**
  The answer side of the pipeline (background.js): extractAnswerOnly, which reduces the
  model's reply to an option letter, "LETTER: content", or the first clause of a direct answer.
 */
module AnswerText {
  import opened Wrappers
  import opened JsString

  /** `s[w..n]` is what `\s*:?\s*` takes greedily at `w`: white space with at most one colon,
      and the character after it (if any) is neither white space nor a colon it could still take. */
  predicate SeparatorRun(s: string, w: nat, n: nat) {
    w <= n <= |s|
    && (forall i :: w <= i < n ==> IsSpace(s[i]) || s[i] == ':')
    && (forall i, j :: w <= i < j < n && s[i] == ':' ==> s[j] != ':')
    && (n < |s| ==> !IsSpace(s[n]) && (s[n] == ':' ==> exists i :: w <= i < n && s[i] == ':'))
  }

  /** Where `\s*:?\s*` read from position `w` ends. */
  function SeparatorEnd(s: string, w: nat): (n: nat)
    requires w <= |s|
    ensures SeparatorRun(s, w, n)
  {
    var a := w + SpaceRun(s[w..]);
    SpacesAfter(s, w);
    assert a < |s| ==> !IsSpace(s[a]) by {
      assert a < |s| ==> s[a] == s[w..][a - w];
    }
    var b := if a < |s| && s[a] == ':' then a + 1 else a;
    var n := b + SpaceRun(s[b..]);
    SpacesAfter(s, b);
    assert n < |s| ==> !IsSpace(s[n]) by {
      assert n < |s| ==> s[n] == s[b..][n - b];
    }
    SeparatorOfParts(s, w, a, b, n);
    n
  }

  /** White space up to `a`, an optional colon up to `b`, white space up to `n`, each run as long
      as it can be: that is what `\s*:?\s*` takes. */
  lemma SeparatorOfParts(s: string, w: nat, a: nat, b: nat, n: nat)
    requires w <= a <= b <= n <= |s|
    requires forall i :: w <= i < a ==> IsSpace(s[i])
    requires a < |s| ==> !IsSpace(s[a])
    requires (b == a + 1 && s[a] == ':') || (b == a && (a == |s| || s[a] != ':'))
    requires forall i :: b <= i < n ==> IsSpace(s[i])
    requires n < |s| ==> !IsSpace(s[n])
    ensures SeparatorRun(s, w, n)
  {
    assert b == a ==> n == a;
    forall i | w <= i < n && s[i] == ':'
      ensures i == a
    {
      ColonIsNotSpace(s[i]);
    }
  }

  /** The white space `SpaceRun` finds after position `k`, read in `s` itself. */
  lemma SpacesAfter(s: string, k: nat)
    requires k <= |s|
    ensures forall i :: k <= i < k + SpaceRun(s[k..]) ==> IsSpace(s[i])
  {
    var t := s[k..];
    assert forall i :: k <= i < k + SpaceRun(t) ==> s[i] == t[i - k];
  }

  lemma ColonIsNotSpace(c: char)
    requires c == ':'
    ensures !IsSpace(c)
  {
  }

  /** Length of the match of `^(Answer:|The answer is|Correct answer is|Option|Choice)\s*:?\s*`
      with the `i` flag, 0 when there is none: the first alternative that matches, then the
      greedy separator after it. */
  function AnswerPrefixLength(s: string): (n: nat)
    ensures n <= |s|
    ensures n > 0 ==> NoSpaceAt(s, n)
    ensures StartsWithCI(s, "Answer:") ==> SeparatorRun(s, 7, n)
    ensures !StartsWithCI(s, "Answer:") && StartsWithCI(s, "The answer is") ==> SeparatorRun(s, 13, n)
    ensures (!StartsWithCI(s, "Answer:") && !StartsWithCI(s, "The answer is")
             && StartsWithCI(s, "Correct answer is")) ==> SeparatorRun(s, 17, n)
    ensures (!StartsWithCI(s, "Answer:") && !StartsWithCI(s, "The answer is")
             && !StartsWithCI(s, "Correct answer is") && StartsWithCI(s, "Option")) ==> SeparatorRun(s, 6, n)
    ensures (!StartsWithCI(s, "Answer:") && !StartsWithCI(s, "The answer is")
             && !StartsWithCI(s, "Correct answer is") && !StartsWithCI(s, "Option")
             && StartsWithCI(s, "Choice")) ==> SeparatorRun(s, 6, n)
    ensures n == 0 <==> (!StartsWithCI(s, "Answer:") && !StartsWithCI(s, "The answer is")
                         && !StartsWithCI(s, "Correct answer is") && !StartsWithCI(s, "Option")
                         && !StartsWithCI(s, "Choice"))
  {
    var w :=
      if StartsWithCI(s, "Answer:") then 7
      else if StartsWithCI(s, "The answer is") then 13
      else if StartsWithCI(s, "Correct answer is") then 17
      else if StartsWithCI(s, "Option") then 6
      else if StartsWithCI(s, "Choice") then 6
      else 0;
    if w == 0 then 0 else SeparatorEnd(s, w)
  }

  /** Every prefix starts with a, t, c or o: a reply starting with any other character keeps its text. */
  lemma NoAnswerPrefix(s: string)
    requires s != [] && Lower(s[0]) != 'a' && Lower(s[0]) != 't' && Lower(s[0]) != 'c' && Lower(s[0]) != 'o'
    ensures AnswerPrefixLength(s) == 0
  {
    assert !StartsWithCI(s, "Answer:") by { assert Lower("Answer:"[0]) == 'a'; }
    assert !StartsWithCI(s, "The answer is") by { assert Lower("The answer is"[0]) == 't'; }
    assert !StartsWithCI(s, "Correct answer is") by { assert Lower("Correct answer is"[0]) == 'c'; }
    assert !StartsWithCI(s, "Option") by { assert Lower("Option"[0]) == 'o'; }
    assert !StartsWithCI(s, "Choice") by { assert Lower("Choice"[0]) == 'c'; }
  }

  /** Remove one answer-announcing prefix together with the white space and colon after it. */
  function StripAnswerPrefix(s: string): (r: string)
    ensures |r| <= |s| && r == s[|s| - |r|..]
    ensures NoSpaceAt(s, 0) ==> NoSpaceAt(r, 0)
  {
    s[AnswerPrefixLength(s)..]
  }

  /** `[A-E]` with the `i` flag. */
  predicate IsOptionLetter(c: char) {
    'A' <= c <= 'E' || 'a' <= c <= 'e'
  }

  /** `\s*(.+)` at the head of `u`, its group trimmed; `None` when it does not match. When `u` is
      all white space the greedy `\s*` gives characters back until `.+` can take one that is not a
      line terminator, so the group is white space and trims to "". */
  function SpacedRest(u: string): (r: Option<string>)
    ensures r.Some? ==> Trimmed(r.value)
    ensures r.Some? ==> forall i :: 0 <= i < |r.value| ==> !IsLineTerminator(r.value[i])
    ensures r.Some? <==> exists i :: 0 <= i < |u| && !IsLineTerminator(u[i])
    ensures NoSpaceAt(u, |u| - 1) && r.Some? ==> r.value != []
  {
    var w := SpaceRun(u);
    if w < |u| then
      var line := u[w..][..LineRun(u[w..])];
      assert !IsLineTerminator(u[w]);
      var t := Trim(line);
      assert forall i :: 0 <= i < |t| ==> t[i] == line[SpaceRun(line) + i];
      Some(t)
    else if exists i :: 0 <= i < |u| && !IsLineTerminator(u[i]) then Some("")
    else None
  }

  /** `.*` read from position `j` of `u` ends at `e`. */
  lemma LineEnd(u: string, j: nat) returns (e: nat)
    requires j <= |u|
    ensures e == j + LineRun(u[j..]) && e <= |u|
    ensures u[j..e] == u[j..][..LineRun(u[j..])]
    ensures forall i :: j <= i < e ==> !IsLineTerminator(u[i])
    ensures e == |u| || IsLineTerminator(u[e])
  {
    var v := u[j..];
    e := j + LineRun(v);
    assert forall i :: j <= i < e ==> u[i] == v[i - j];
    assert e < |u| ==> u[e] == v[e - j];
  }

  /** White space trims to nothing. */
  lemma TrimOfSpaces(t: string)
    requires forall i :: 0 <= i < |t| ==> IsSpace(t[i])
    ensures Trim(t) == []
  {
    SpaceRunUpTo(t, |t|);
  }

  /** Where `\s*(.+)` matches when applied to `c` from position `o`: white space from `o` to
      `j`, the captured line from `j` to `e`, which ends at the end of `c` or at a line
      terminator; the result is that line trimmed. */
  lemma SpacedRestSpan(c: string, o: nat) returns (j: nat, e: nat)
    requires o <= |c| && SpacedRest(c[o..]).Some?
    ensures o <= j < e <= |c|
    ensures forall i :: o <= i < j ==> IsSpace(c[i])
    ensures forall i :: j <= i < e ==> !IsLineTerminator(c[i])
    ensures e == |c| || IsLineTerminator(c[e])
    ensures SpacedRest(c[o..]).value == Trim(c[j..e])
  {
    var u := c[o..];
    if SpaceRun(u) < |u| {
      j := o + SpaceRun(u);
      e := SpacedRestOfText(c, o, j);
    } else {
      var i :| 0 <= i < |u| && !IsLineTerminator(u[i]);
      j := o + i;
      e := LineEnd(c, j);
      SpacedRestOfBlank(c, o, j, e);
    }
  }

  /** `\s*(.+)` from `o` when something other than white space follows: the line starts there. */
  lemma SpacedRestOfText(c: string, o: nat, j: nat) returns (e: nat)
    requires o <= j < |c| && j == o + SpaceRun(c[o..])
    ensures j < e <= |c|
    ensures forall i :: o <= i < j ==> IsSpace(c[i])
    ensures forall i :: j <= i < e ==> !IsLineTerminator(c[i])
    ensures e == |c| || IsLineTerminator(c[e])
    ensures SpacedRest(c[o..]) == Some(Trim(c[j..e]))
  {
    var u := c[o..];
    assert forall i :: o <= i < |c| ==> c[i] == u[i - o];
    assert !IsLineTerminator(u[j - o]);
    assert u[j - o..] == c[j..];
    e := LineEnd(c, j);
  }

  /** `\s*(.+)` from `o` over nothing but white space: the line it captures trims to "". */
  lemma SpacedRestOfBlank(c: string, o: nat, j: nat, e: nat)
    requires o <= j < e <= |c| && SpaceRun(c[o..]) == |c| - o
    requires !IsLineTerminator(c[j])
    ensures forall i :: o <= i < j ==> IsSpace(c[i])
    ensures SpacedRest(c[o..]) == Some(Trim(c[j..e]))
  {
    var u := c[o..];
    assert forall i :: o <= i < |c| ==> c[i] == u[i - o];
    assert u[j - o] == c[j];
    TrimOfSpaces(c[j..e]);
  }

  /** "LETTER: content", the reply format of the two letter rules. */
  function Formatted(letter: char, content: string): (r: string)
    ensures |r| == |content| + 3 && r[0] == Upper(letter) && r[1] == ':' && r[2] == ' ' && r[3..] == content
  {
    [Upper(letter)] + ": " + content
  }

  /** `/^([A-E])\s*:\s*(.+)/i`, formatted as "LETTER: content". */
  function LetterColonAnswer(c: string): (r: Option<string>)
    ensures r.Some? ==> c != [] && IsOptionLetter(c[0])
    ensures r.Some? ==> 3 <= |r.value| && r.value[0] == Upper(c[0]) && r.value[1..3] == ": "
  {
    if c == [] || !IsOptionLetter(c[0]) then None
    else
      var k := 1 + SpaceRun(c[1..]);
      if k == |c| || c[k] != ':' then None
      else match SpacedRest(c[k + 1..])
        case Some(content) => Some(Formatted(c[0], content))
        case None => None
  }

  /** The letter-colon rule applies exactly when the reply starts with an option letter, white
      space, a colon, and then holds some character that is not a line terminator. */
  lemma LetterColonMatches(c: string)
    ensures LetterColonAnswer(c).Some? <==> (c != [] && IsOptionLetter(c[0])
      && var k := 1 + SpaceRun(c[1..]);
      k < |c| && c[k] == ':' && exists i :: k < i < |c| && !IsLineTerminator(c[i]))
  {
    if c != [] && IsOptionLetter(c[0]) {
      var k := 1 + SpaceRun(c[1..]);
      if k < |c| && c[k] == ':' {
        var u := c[k + 1..];
        assert forall i :: k < i < |c| ==> c[i] == u[i - k - 1];
        assert forall i :: 0 <= i < |u| ==> u[i] == c[i + k + 1];
      }
    }
  }

  /** `/^([A-E])\b/i` */
  predicate SingleLetterAt(c: string) {
    c != [] && IsOptionLetter(c[0]) && (|c| == 1 || !IsWordChar(c[1]))
  }

  /** `/^([A-E])[\s\.\)\-]\s*(.+)/i`, formatted as "LETTER: content". */
  function LetterAtStart(c: string): (r: Option<string>)
    ensures r.Some? ==> |c| >= 2 && IsOptionLetter(c[0]) && !IsWordChar(c[1])
  {
    if |c| < 2 || !IsOptionLetter(c[0]) || !(IsSpace(c[1]) || c[1] == '.' || c[1] == ')' || c[1] == '-') then None
    else match SpacedRest(c[2..])
      case Some(content) => Some(Formatted(c[0], content))
      case None => None
  }

  const Connectors: seq<string> := ["because", "since", "as", "explanation", "reasoning", "note", "therefore"]

  /** `w` occurs at position `q` of `s` (ignoring ASCII case) and is followed by a word boundary. */
  predicate WordEndsAt(s: string, q: nat, w: string) {
    q <= |s| && StartsWithCI(s[q..], w) && (q + |w| == |s| || !IsWordChar(s[q + |w|]))
  }

  /** `\b(because|since|as|explanation|reasoning|note|therefore)\b` with the `i` flag matches at `q`. */
  predicate ConnectorAt(s: string, q: nat) {
    q < |s| && (q == 0 || !IsWordChar(s[q - 1]))
    && exists i :: 0 <= i < |Connectors| && WordEndsAt(s, q, Connectors[i])
  }

  /** The first position in `[q, n)` that satisfies `p`, or `n` when there is none. */
  function FirstWhere(p: nat -> bool, q: nat, n: nat): (r: nat)
    requires q <= n
    ensures q <= r <= n
    ensures r < n ==> p(r)
    ensures forall k :: q <= k < r ==> !p(k)
    decreases n - q
  {
    if q == n then n else if p(q) then q else FirstWhere(p, q + 1, n)
  }

  /** `s.split(/\b(because|...|therefore)\b/i)[0]`: the text before the first connector word. */
  function BeforeConnector(s: string): (r: string)
    ensures |r| <= |s| && r == s[..|r|]
    ensures |r| < |s| ==> ConnectorAt(s, |r|)
    ensures forall k :: 0 <= k < |r| ==> !ConnectorAt(s, k)
  {
    var connectorAt := (k: nat) => ConnectorAt(s, k);
    var cut := FirstWhere(connectorAt, 0, |s|);
    assert forall k: nat :: connectorAt(k) == ConnectorAt(s, k);
    s[..cut]
  }

  /** `s.split("\n")[0]`: the text before the first line feed. */
  function BeforeNewline(s: string): (r: string)
    ensures |r| <= |s| && r == s[..|r|]
    ensures forall i :: 0 <= i < |r| ==> r[i] != '\n'
    ensures |r| < |s| ==> s[|r|] == '\n'
  {
    if s == [] || s[0] == '\n' then [] else [s[0]] + BeforeNewline(s[1..])
  }

  /** `/^[A-E]$/i` */
  predicate IsLetterOnly(t: string) {
    |t| == 1 && IsOptionLetter(t[0])
  }

  /** extractAnswerOnly: trim, drop an "Answer:"-style prefix, then take the first rule that
      applies. The answer never starts or ends with white space and never contains a line feed;
      the letter-at-start rule and the closing `/^[A-E]$/i` test are never the ones that answer. */
  function ExtractAnswerOnly(response: string): (r: string)
    ensures Trimmed(r)
    ensures forall i :: 0 <= i < |r| ==> r[i] != '\n'
  {
    var c := StripAnswerPrefix(Trim(response));
    match LetterColonAnswer(c)
    case Some(a) =>
      assert Trimmed(a) && forall i :: 0 <= i < |a| ==> a[i] != '\n' by {
        assert NoSpaceAt(c, |c| - 1);
        LetterColonTrimmed(c);
        LetterColonSingleLine(c);
      }
      a
    case None =>
      if SingleLetterAt(c) then [Upper(c[0])]
      else match LetterAtStart(c)
        case Some(a) =>
          LetterAtStartIsShadowed(c);
          assert false;
          a
        case None =>
          var t := Trim(BeforeNewline(BeforeConnector(c)));
          assert forall i :: 0 <= i < |t| ==> t[i] != '\n' by {
            TrimSingleLine(BeforeNewline(BeforeConnector(c)));
          }
          if IsLetterOnly(t) then
            FallbackIsNeverLetterOnly(c);
            assert false;
            UpperAll(t)
          else t
  }

  /** The `letterAtStart` rule never decides an answer: whatever it matches, the single-letter rule matched first. */
  lemma LetterAtStartIsShadowed(c: string)
    requires LetterAtStart(c).Some?
    ensures SingleLetterAt(c)
  {
  }

  /** The closing `/^[A-E]$/i` test never succeeds either: a fallback that is a single option
      letter would have made the single-letter rule match. */
  lemma FallbackIsNeverLetterOnly(c: string)
    requires NoSpaceAt(c, 0)
    requires !SingleLetterAt(c)
    ensures !IsLetterOnly(Trim(BeforeNewline(BeforeConnector(c))))
  {
    var b := BeforeConnector(c);
    var p := BeforeNewline(b);
    if b != [] && IsOptionLetter(c[0]) {
      assert |c| >= 2 && IsWordChar(c[1]);
      assert !ConnectorAt(c, 1);
      assert |b| >= 2 && b[1] == c[1];
      assert |p| >= 2 && p[1] == c[1];
      assert SpaceRun(p) == 0 && !IsSpace(p[1]);
    } else if p != [] {
      assert p[0] == c[0] && SpaceRun(p) == 0;
    }
  }

  /** With its two unreachable branches removed, extractAnswerOnly is three rules tried in order. */
  lemma ExtractAnswerRules(response: string)
    ensures var c := StripAnswerPrefix(Trim(response));
      ExtractAnswerOnly(response) ==
        if LetterColonAnswer(c).Some? then LetterColonAnswer(c).value
        else if SingleLetterAt(c) then [Upper(c[0])]
        else Trim(BeforeNewline(BeforeConnector(c)))
  {
    var c := StripAnswerPrefix(Trim(response));
    if LetterColonAnswer(c).None? && !SingleLetterAt(c) {
      if LetterAtStart(c).Some? {
        LetterAtStartIsShadowed(c);
      }
      FallbackIsNeverLetterOnly(c);
    }
  }

  /** The content of a "LETTER: content" reply: the rest of the line after the colon, trimmed. */
  lemma LetterColonContent(c: string) returns (content: string)
    requires LetterColonAnswer(c).Some?
    ensures LetterColonAnswer(c).value == Formatted(c[0], content)
    ensures Trimmed(content)
    ensures forall i :: 0 <= i < |content| ==> !IsLineTerminator(content[i])
    ensures NoSpaceAt(c, |c| - 1) ==> content != []
  {
    var k := LetterColonParts(c);
    var u := c[k + 1..];
    assert NoSpaceAt(c, |c| - 1) ==> NoSpaceAt(u, |u| - 1);
    content := SpacedRest(u).value;
  }

  /** Where the content of a "LETTER: content" reply comes from: after the letter, white space up
      to the colon at `k`, white space up to `j`, then the rest of the line up to `e`, trimmed. */
  lemma LetterColonSpan(c: string) returns (k: nat, j: nat, e: nat)
    requires LetterColonAnswer(c).Some?
    ensures 0 < k < j < e <= |c| && c[k] == ':'
    ensures forall i :: 1 <= i < k ==> IsSpace(c[i])
    ensures forall i :: k < i < j ==> IsSpace(c[i])
    ensures forall i :: j <= i < e ==> !IsLineTerminator(c[i])
    ensures e == |c| || IsLineTerminator(c[e])
    ensures LetterColonAnswer(c).value == Formatted(c[0], Trim(c[j..e]))
  {
    k := LetterColonParts(c);
    j, e := SpacedRestSpan(c, k + 1);
  }

  /** The colon of `/^([A-E])\s*:\s*(.+)/i` at `k`, and the reply built from what follows it. */
  lemma LetterColonParts(c: string) returns (k: nat)
    requires LetterColonAnswer(c).Some?
    ensures 0 < k < |c| && c[k] == ':' && forall i :: 1 <= i < k ==> IsSpace(c[i])
    ensures SpacedRest(c[k + 1..]).Some?
    ensures LetterColonAnswer(c).value == Formatted(c[0], SpacedRest(c[k + 1..]).value)
  {
    k := 1 + SpaceRun(c[1..]);
    assert k < |c| && c[k] == ':';
    var rest := SpacedRest(c[k + 1..]);
    assert rest.Some?;
    assert LetterColonAnswer(c) == Some(Formatted(c[0], rest.value));
    assert forall i :: 1 <= i < k ==> IsSpace(c[i]) by {
      SpacesAfter(c, 1);
    }
  }

  /** A "LETTER: content" reply from a text that does not end in white space has content, so
      it does not end in white space either. */
  lemma LetterColonTrimmed(c: string)
    requires NoSpaceAt(c, |c| - 1)
    requires LetterColonAnswer(c).Some?
    ensures Trimmed(LetterColonAnswer(c).value)
  {
    var content := LetterColonContent(c);
    var a := Formatted(c[0], content);
    assert a[|a| - 1] == content[|content| - 1];
  }

  lemma LetterColonSingleLine(c: string)
    requires LetterColonAnswer(c).Some?
    ensures forall i :: 0 <= i < |LetterColonAnswer(c).value| ==> LetterColonAnswer(c).value[i] != '\n'
  {
    var content := LetterColonContent(c);
    var a := Formatted(c[0], content);
    forall i | 0 <= i < |a|
      ensures a[i] != '\n'
    {
      if i >= 3 {
        assert a[i] == content[i - 3];
      }
    }
  }

  lemma TrimSingleLine(p: string)
    requires forall i :: 0 <= i < |p| ==> p[i] != '\n'
    ensures forall i :: 0 <= i < |Trim(p)| ==> Trim(p)[i] != '\n'
  {
    var t := Trim(p);
    forall i | 0 <= i < |t|
      ensures t[i] != '\n'
    {
      assert t[i] == p[SpaceRun(p) + i];
    }
  }

  /** "The answer is", white space, then one option letter: the prefix is everything but the letter. */
  lemma AnnouncedPrefixLength(s: string)
    requires |s| >= 15 && StartsWithCI(s, "The answer is") && IsOptionLetter(s[|s| - 1])
    requires forall i :: 13 <= i < |s| - 1 ==> IsSpace(s[i])
    ensures AnswerPrefixLength(s) == |s| - 1
  {
    assert !StartsWithCI(s, "Answer:") by {
      assert Lower(s[0]) == Lower("The answer is"[0]) != Lower("Answer:"[0]);
    }
    assert SpaceRun(s[13..]) == |s| - 14 by {
      var u := s[13..];
      assert forall i :: 0 <= i < |u| ==> u[i] == s[13 + i];
      SpaceRunUpTo(u, |s| - 14);
    }
    assert SpaceRun(s[|s| - 1..]) == 0;
  }

  /** A reply that is an option letter followed by a non-word character, once trimmed and
      unprefixed, yields that letter in upper case. */
  lemma SingleLetterReply(response: string)
    requires var c := StripAnswerPrefix(Trim(response)); LetterColonAnswer(c).None? && SingleLetterAt(c)
    ensures var c := StripAnswerPrefix(Trim(response));
      ExtractAnswerOnly(response) == [Upper(c[0])] && 'A' <= Upper(c[0]) <= 'E'
  {
  }

  /** A reply announcing its option letter, such as "The answer is c", yields the upper-case letter. */
  lemma AnnouncedLetterReply(s: string)
    requires |s| >= 15 && StartsWithCI(s, "The answer is") && IsOptionLetter(s[|s| - 1])
    requires forall i :: 13 <= i < |s| - 1 ==> IsSpace(s[i])
    ensures ExtractAnswerOnly(s) == [Upper(s[|s| - 1])]
  {
    assert Trim(s) == s by {
      assert Trimmed(s) by {
        assert Lower(s[0]) == 't';
      }
      TrimOfTrimmed(s);
    }
    assert AnswerPrefixLength(s) == |s| - 1 by {
      AnnouncedPrefixLength(s);
    }
    var c := StripAnswerPrefix(s);
    assert c == [s[|s| - 1]];
    assert LetterColonAnswer(c).None? && SingleLetterAt(c) by {
      assert |c| == 1 && SpaceRun(c[1..]) == 0;
    }
    SingleLetterReply(s);
  }

  /** An option letter followed by a mark that is neither white space, a word character nor a
      colon, such as "B) Paris" or "B. Paris", is answered by the single-letter rule with just the
      letter; the letter-at-start rule that would have kept "Paris" never gets to run. */
  lemma LetterThenMarkReply(s: string)
    requires Trimmed(s) && |s| >= 2 && IsOptionLetter(s[0])
    requires !IsWordChar(s[1]) && !IsSpace(s[1]) && s[1] != ':'
    ensures ExtractAnswerOnly(s) == [Upper(s[0])]
  {
    assert StripAnswerPrefix(Trim(s)) == s by {
      ReplyReachesRules(s);
    }
    assert LetterColonAnswer(s).None? by {
      assert SpaceRun(s[1..]) == 0;
    }
    SingleLetterReply(s);
  }

  /** `\s*` at the head of `u` stops at `n` when white space runs exactly up to `n`. */
  lemma SpaceRunUpTo(u: string, n: nat)
    requires n <= |u|
    requires forall i :: 0 <= i < n ==> IsSpace(u[i])
    requires n < |u| ==> !IsSpace(u[n])
    ensures SpaceRun(u) == n
  {
  }

  /** A trimmed single line after white space is what `\s*(.+)` captures, trimmed. */
  lemma SpacedRestOfLine(u: string, n: nat)
    requires n < |u|
    requires forall i :: 0 <= i < n ==> IsSpace(u[i])
    requires Trimmed(u[n..]) && forall i :: n <= i < |u| ==> !IsLineTerminator(u[i])
    ensures SpacedRest(u) == Some(u[n..])
  {
    var w := u[n..];
    assert !IsSpace(w[0]);
    SpaceRunUpTo(u, n);
    assert LineRun(w) == |w|;
    assert w[..|w|] == w;
    TrimOfTrimmed(w);
  }

  /** Every answer prefix starts with two word characters. */
  lemma NoAnswerPrefixBeforeNonWord(s: string)
    requires |s| >= 2 && !IsWordChar(s[1])
    ensures AnswerPrefixLength(s) == 0
  {
    assert !IsWordChar(Lower(s[1]));
    assert !StartsWithCI(s, "Answer:") by { assert IsWordChar(Lower("Answer:"[1])); }
    assert !StartsWithCI(s, "The answer is") by { assert IsWordChar(Lower("The answer is"[1])); }
    assert !StartsWithCI(s, "Correct answer is") by { assert IsWordChar(Lower("Correct answer is"[1])); }
    assert !StartsWithCI(s, "Option") by { assert IsWordChar(Lower("Option"[1])); }
    assert !StartsWithCI(s, "Choice") by { assert IsWordChar(Lower("Choice"[1])); }
  }

  lemma SpaceIsNotWordChar(c: char)
    requires IsSpace(c)
    ensures !IsWordChar(c)
  {
  }

  /** Where the colon of `/^([A-E])\s*:/i` sits, the reply is the letter and the spaced rest after it. */
  lemma LetterColonAtColon(c: string, k: nat)
    requires 0 < k < |c| && IsOptionLetter(c[0]) && k == 1 + SpaceRun(c[1..]) && c[k] == ':'
    requires SpacedRest(c[k + 1..]).Some?
    ensures LetterColonAnswer(c) == Some(Formatted(c[0], SpacedRest(c[k + 1..]).value))
  {
  }

  /** The shape "<letter> <spaces>:<spaces> <one trimmed line>": the colon at `k`, the line from `j`. */
  predicate SpacedLetterColon(s: string, k: nat, j: nat) {
    0 < k < j < |s| && IsOptionLetter(s[0]) && s[k] == ':'
    && (forall i :: 1 <= i < k ==> IsSpace(s[i]))
    && (forall i :: k < i < j ==> IsSpace(s[i]))
    && Trimmed(s[j..]) && (forall i :: j <= i < |s| ==> !IsLineTerminator(s[i]))
  }

  /** The letter-and-colon rule on "<letter> <spaces>:<spaces> <one trimmed line>". */
  lemma LetterColonOfSpaced(s: string, k: nat, j: nat)
    requires SpacedLetterColon(s, k, j)
    ensures LetterColonAnswer(s) == Some(Formatted(s[0], s[j..]))
  {
    assert SpaceRun(s[1..]) == k - 1 by {
      var u1 := s[1..];
      assert forall i :: 0 <= i < k ==> u1[i] == s[i + 1];
      SpaceRunUpTo(u1, k - 1);
    }
    assert SpacedRest(s[k + 1..]) == Some(s[j..]) by {
      var u2 := s[k + 1..];
      assert forall i :: 0 <= i < |u2| ==> u2[i] == s[k + 1 + i];
      assert u2[j - k - 1..] == s[j..];
      SpacedRestOfLine(u2, j - k - 1);
    }
    LetterColonAtColon(s, k);
  }

  /** A trimmed reply whose second character is not a word character reaches the rules unchanged. */
  lemma ReplyReachesRules(s: string)
    requires Trimmed(s) && |s| >= 2 && !IsWordChar(s[1])
    ensures StripAnswerPrefix(Trim(s)) == s
  {
    TrimOfTrimmed(s);
    NoAnswerPrefixBeforeNonWord(s);
  }

  /** A reply "<letter> <spaces>:<spaces> <one trimmed line>" comes back as "LETTER: line":
      "d : page" gives "D: page". */
  lemma LetterColonReply(s: string, k: nat, j: nat)
    requires SpacedLetterColon(s, k, j)
    ensures ExtractAnswerOnly(s) == Formatted(s[0], s[j..])
  {
    assert LetterColonAnswer(s) == Some(Formatted(s[0], s[j..])) by {
      LetterColonOfSpaced(s, k, j);
    }
    assert StripAnswerPrefix(Trim(s)) == s by {
      assert s[|s| - 1] == s[j..][|s| - j - 1];
      if k > 1 {
        SpaceIsNotWordChar(s[1]);
      }
      ReplyReachesRules(s);
    }
  }

  /** "LETTER: content" is a fixed point: a reply already in the format the prompt asks for,
      such as "D: because it is the capital", comes back unchanged. */
  lemma FormattedReplyIsKept(letter: char, w: string)
    requires 'A' <= letter <= 'E'
    requires w != [] && Trimmed(w) && forall i :: 0 <= i < |w| ==> !IsLineTerminator(w[i])
    ensures ExtractAnswerOnly(Formatted(letter, w)) == Formatted(letter, w)
  {
    var f := Formatted(letter, w);
    assert f[0] == letter;
    assert f[3..] == w;
    assert forall i :: 3 <= i < |f| ==> f[i] == w[i - 3];
    LetterColonReply(f, 1, 3);
  }
}
