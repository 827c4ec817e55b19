/**
  The arithmetic of JavaScript numbers that hashText relies on: `^` and `<<` work on signed
  32-bit integers, `>>> 0` reduces modulo 2^32.
 */
module Int32 {

  const TwoTo32 := 0x1_0000_0000
  const TwoTo31 := 0x8000_0000

  type uint32 = x: int | 0 <= x < 0x1_0000_0000

  /** How many times 2^32 must be taken away to bring `x` into the signed 32-bit range. */
  function Wraps(x: int): int {
    (x + TwoTo31) / TwoTo32
  }

  /** ToInt32: `x` modulo 2^32, as a signed 32-bit integer. */
  function ToInt32(x: int): (r: int)
    ensures -TwoTo31 <= r < TwoTo31
    ensures -TwoTo31 <= x < TwoTo31 ==> r == x
  {
    x - TwoTo32 * Wraps(x)
  }

  /** ToUint32, i.e. `x >>> 0`: `x` modulo 2^32, non-negative. */
  function ToUint32(x: int): uint32 {
    x % TwoTo32
  }

  /** Bitwise exclusive or of two 32-bit patterns. */
  function Xor32(a: uint32, b: uint32): uint32 {
    ((a as bv32) ^ (b as bv32)) as int
  }

  /** `x << k` for the `scale` 2^k: the operand and the result are both wrapped to signed 32 bits. */
  function ShiftLeft(x: int, scale: int): int {
    ToInt32(ToInt32(x) * scale)
  }

  /** Shifting a signed 32-bit value takes away a whole number of 2^32 from the product. */
  lemma ShiftOfInt32(x: int, scale: int)
    requires -TwoTo31 <= x < TwoTo31
    ensures ShiftLeft(x, scale) == x * scale - TwoTo32 * Wraps(x * scale)
  {
  }

  lemma ModShift(a: int, k: int)
    ensures (a - TwoTo32 * k) % TwoTo32 == a % TwoTo32
  {
  }
}

/**
  hashText of the page observer (content.js): 32-bit FNV-1a over the UTF-16 code units of
  the selection, with the empty text hashing to 0.
 */
module SelectionHash {
  import opened JsString
  import opened Int32

  const FnvOffsetBasis: uint32 := 0x811c9dc5

  /** One FNV-1a round: exclusive or with the code unit, then multiply by the FNV prime
      16777619 modulo 2^32. */
  function FnvStep(h: uint32, unit: CodeUnit): uint32 {
    (Xor32(h, unit) * 16777619) % TwoTo32
  }

  /** FNV-1a over `units`, starting from the accumulator `h`. */
  function FnvFold(h: uint32, units: seq<CodeUnit>): uint32
    decreases |units|
  {
    if units == [] then h else FnvFold(FnvStep(h, units[0]), units[1..])
  }

  /** The hash the page observer gives a text: 32-bit FNV-1a over its code units,
      except that the empty text hashes to 0 rather than to the offset basis. */
  function TextHash(units: seq<CodeUnit>): uint32 {
    if units == [] then 0 else FnvFold(FnvOffsetBasis, units)
  }

  /** One round as the source writes it: `h ^= c`, then the prime applied as the sum of
      `h`, `h << 1`, `h << 4`, `h << 7`, `h << 8` and `h << 24` (1 + 2 + 16 + 128 + 256 + 2^24
      = 16777619), reduced by `>>> 0`. */
  function SourceRound(h: uint32, unit: CodeUnit): uint32 {
    var x := ToInt32(Xor32(h, unit));
    ToUint32(x + ShiftLeft(x, 2) + ShiftLeft(x, 16) + ShiftLeft(x, 128) + ShiftLeft(x, 256) + ShiftLeft(x, 16777216))
  }

  /** The shifts-and-wraps round of the source is exactly the FNV-1a round. */
  lemma SourceRoundIsFnvStep(h: uint32, unit: CodeUnit)
    ensures SourceRound(h, unit) == FnvStep(h, unit)
  {
    var u := Xor32(h, unit);
    var x := ToInt32(u);
    var w := 16777619 * Wraps(u) + Wraps(x * 2) + Wraps(x * 16) + Wraps(x * 128) + Wraps(x * 256) + Wraps(x * 16777216);
    ShiftOfInt32(x, 2);
    ShiftOfInt32(x, 16);
    ShiftOfInt32(x, 128);
    ShiftOfInt32(x, 256);
    ShiftOfInt32(x, 16777216);
    assert x + ShiftLeft(x, 2) + ShiftLeft(x, 16) + ShiftLeft(x, 128) + ShiftLeft(x, 256) + ShiftLeft(x, 16777216)
        == u * 16777619 - TwoTo32 * w;
    ModShift(u * 16777619, w);
  }

  /** Hashing is a left fold: a text's hash extends that of its prefix one code unit at a time. */
  lemma {:induction false} FnvFoldAppend(h: uint32, a: seq<CodeUnit>, b: seq<CodeUnit>)
    ensures FnvFold(h, a + b) == FnvFold(FnvFold(h, a), b)
    decreases |a|
  {
    if a != [] {
      assert (a + b)[1..] == a[1..] + b;
      FnvFoldAppend(FnvStep(h, a[0]), a[1..], b);
    } else {
      assert a + b == b;
    }
  }

  /** Appending a code unit to a non-empty text applies one more FNV-1a round to its hash. */
  lemma TextHashExtend(units: seq<CodeUnit>, unit: CodeUnit)
    requires units != []
    ensures TextHash(units + [unit]) == FnvStep(TextHash(units), unit)
  {
    FnvFoldAppend(FnvOffsetBasis, units, [unit]);
  }

  /** The empty text hashes to 0, not to the offset basis; any other text hashes to its FNV-1a fold. */
  lemma TextHashCases(str: string)
    ensures str == [] ==> TextHash(Utf16(str)) == 0
    ensures str != [] ==> TextHash(Utf16(str)) == FnvFold(FnvOffsetBasis, Utf16(str))
  {
  }

  /** hashText: the loop over the code units of the selection, each round as the source writes it. */
  method HashText(str: string) returns (h: uint32)
    ensures h == TextHash(Utf16(str))
  {
    if str == [] {
      return 0;
    }
    var units := Utf16(str);
    h := FnvOffsetBasis;
    var i := 0;
    while i < |units|
      invariant 0 <= i <= |units|
      invariant FnvFold(h, units[i..]) == FnvFold(FnvOffsetBasis, units)
    {
      SourceRoundIsFnvStep(h, units[i]);
      h := SourceRound(h, units[i]);
      assert units[i..][1..] == units[i + 1..];
      i := i + 1;
    }
  }
}
