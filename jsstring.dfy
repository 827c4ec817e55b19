/**
  The parts of JavaScript's string semantics the extension relies on: the white-space
  class shared by `\s` and `String.prototype.trim`, word characters for `\b`, ASCII case
  folding for `/i` patterns, UTF-16 code units, and `trim`.
 */
module JsString {

  /** WhiteSpace and LineTerminator code points: the set matched by `\s` and removed by `trim()`. */
  predicate IsSpace(c: char) {
    c == '\t' || c == '\n' || c == '\U{B}' || c == '\U{C}' || c == '\r' || c == ' '
    || c == '\U{A0}' || c == '\U{1680}' || ('\U{2000}' <= c <= '\U{200A}')
    || c == '\U{2028}' || c == '\U{2029}' || c == '\U{202F}' || c == '\U{205F}'
    || c == '\U{3000}' || c == '\U{FEFF}'
  }

  /** The characters `.` does not match (LineTerminator). */
  predicate IsLineTerminator(c: char) {
    c == '\n' || c == '\r' || c == '\U{2028}' || c == '\U{2029}'
  }

  lemma LineTerminatorIsSpace(c: char)
    requires IsLineTerminator(c)
    ensures IsSpace(c)
  {
  }

  /** `\d` */
  predicate IsDigit(c: char) {
    '0' <= c <= '9'
  }

  /** `\w`, the characters on one side of a `\b` boundary. */
  predicate IsWordChar(c: char) {
    ('a' <= c <= 'z') || ('A' <= c <= 'Z') || IsDigit(c) || c == '_'
  }

  /** ASCII lower-casing; the case folding of a non-Unicode `/i` pattern never maps
      a non-ASCII character onto an ASCII one, so ASCII folding decides every match here. */
  function Lower(c: char): (r: char)
    ensures IsWordChar(c) <==> IsWordChar(r)
    ensures IsSpace(c) <==> IsSpace(r)
  {
    if 'A' <= c <= 'Z' then (c as int + 32) as char else c
  }

  function Upper(c: char): (r: char)
    ensures IsWordChar(c) <==> IsWordChar(r)
    ensures 'a' <= c <= 'z' ==> 'A' <= r <= 'Z' && Lower(r) == c
    ensures !('a' <= c <= 'z') ==> r == c
  {
    if 'a' <= c <= 'z' then (c as int - 32) as char else c
  }

  /** ASCII `toUpperCase` of a whole string. */
  function UpperAll(s: string): (r: string)
    ensures |r| == |s|
    ensures forall i :: 0 <= i < |s| ==> r[i] == Upper(s[i])
  {
    if s == [] then [] else [Upper(s[0])] + UpperAll(s[1..])
  }

  /** `s` starts with `w`, compared case-insensitively (the `/i` flag). */
  predicate StartsWithCI(s: string, w: string) {
    |w| <= |s| && forall i :: 0 <= i < |w| ==> Lower(s[i]) == Lower(w[i])
  }

  predicate NoSpaceAt(s: string, i: int) {
    !(0 <= i < |s|) || !IsSpace(s[i])
  }

  /** Neither the first nor the last character is white space: what `trim()` returns. */
  predicate Trimmed(s: string) {
    NoSpaceAt(s, 0) && NoSpaceAt(s, |s| - 1)
  }

  /** No two adjacent white-space characters. */
  predicate NoDoubleSpace(s: string) {
    forall i :: 0 <= i < |s| - 1 ==> !IsSpace(s[i]) || !IsSpace(s[i + 1])
  }

  /** Length of the longest prefix of white space (`\s*`, greedy). */
  function SpaceRun(s: string): (n: nat)
    ensures n <= |s|
    ensures forall i :: 0 <= i < n ==> IsSpace(s[i])
    ensures n < |s| ==> !IsSpace(s[n])
  {
    if s != [] && IsSpace(s[0]) then 1 + SpaceRun(s[1..]) else 0
  }

  /** Length of the longest prefix of decimal digits (`\d*`, greedy). */
  function DigitRun(s: string): (n: nat)
    ensures n <= |s|
    ensures forall i :: 0 <= i < n ==> IsDigit(s[i])
    ensures n < |s| ==> !IsDigit(s[n])
  {
    if s != [] && IsDigit(s[0]) then 1 + DigitRun(s[1..]) else 0
  }

  /** Length of the longest prefix without a line terminator (`.*`, greedy). */
  function LineRun(s: string): (n: nat)
    ensures n <= |s|
    ensures forall i :: 0 <= i < n ==> !IsLineTerminator(s[i])
    ensures n < |s| ==> IsLineTerminator(s[n])
  {
    if s != [] && !IsLineTerminator(s[0]) then 1 + LineRun(s[1..]) else 0
  }

  /** Length of the longest suffix of white space. */
  function TrailingSpaceRun(s: string): (n: nat)
    ensures n <= |s|
    ensures forall i :: |s| - n <= i < |s| ==> IsSpace(s[i])
    ensures n < |s| ==> !IsSpace(s[|s| - n - 1])
  {
    if s != [] && IsSpace(s[|s| - 1]) then 1 + TrailingSpaceRun(s[..|s| - 1]) else 0
  }

  /** `String.prototype.trimEnd` */
  function TrimEnd(s: string): (r: string)
    ensures |r| <= |s| && r == s[..|r|]
    ensures NoSpaceAt(r, |r| - 1)
    ensures forall i :: |r| <= i < |s| ==> IsSpace(s[i])
  {
    s[..|s| - TrailingSpaceRun(s)]
  }

  /** `String.prototype.trim`: the longest infix that neither starts nor ends with white space,
      obtained by removing white space only. */
  function Trim(s: string): (r: string)
    ensures Trimmed(r)
    ensures SpaceRun(s) + |r| <= |s| && r == s[SpaceRun(s)..SpaceRun(s) + |r|]
    ensures forall k :: SpaceRun(s) + |r| <= k < |s| ==> IsSpace(s[k])
  {
    var lead := SpaceRun(s);
    var r := TrimEnd(s[lead..]);
    assert r == s[lead..lead + |r|];
    r
  }

  lemma TrimOfTrimmed(s: string)
    requires Trimmed(s)
    ensures Trim(s) == s
  {
    assert SpaceRun(s) == 0;
    if s != [] {
      assert TrailingSpaceRun(s) == 0;
    }
  }

  /** An infix of a string without double white space has none either. */
  lemma NoDoubleSpaceInfix(s: string, i: int, j: int)
    requires NoDoubleSpace(s)
    requires 0 <= i <= j <= |s|
    ensures NoDoubleSpace(s[i..j])
  {
  }

  /** A UTF-16 code unit, the value `charCodeAt` returns. */
  type CodeUnit = x: int | 0 <= x < 0x1_0000

  /** The UTF-16 code units of one character: one unit in the Basic Multilingual Plane,
      a surrogate pair above it. */
  function CodeUnits(c: char): (u: seq<CodeUnit>)
    ensures 1 <= |u| <= 2
    ensures |u| == 1 <==> c as int < 0x1_0000
    ensures |u| == 1 ==> u[0] == c as int
  {
    var v := c as int;
    if v < 0x1_0000 then [v]
    else [0xD800 + (v - 0x1_0000) / 0x400, 0xDC00 + (v - 0x1_0000) % 0x400]
  }

  /** A JavaScript string's code units, which `length` counts and `charCodeAt` returns. */
  function Utf16(s: string): (units: seq<CodeUnit>)
    ensures |s| <= |units| <= 2 * |s|
    ensures units == [] <==> s == []
  {
    if s == [] then [] else CodeUnits(s[0]) + Utf16(s[1..])
  }

  /** `length`: characters outside the Basic Multilingual Plane count twice. */
  function JsLength(s: string): nat {
    |Utf16(s)|
  }

  lemma {:induction false} JsLengthOfBmp(s: string)
    requires forall i :: 0 <= i < |s| ==> s[i] as int < 0x1_0000
    ensures JsLength(s) == |s|
  {
    if s != [] {
      JsLengthOfBmp(s[1..]);
    }
  }

  lemma {:induction false} Utf16Append(a: string, b: string)
    ensures Utf16(a + b) == Utf16(a) + Utf16(b)
  {
    if a == [] {
      assert a + b == b;
    } else {
      assert (a + b)[1..] == a[1..] + b;
      Utf16Append(a[1..], b);
    }
  }
}
