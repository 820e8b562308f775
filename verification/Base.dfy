/** Machine integers, byte orders and buffer updates shared by every module. */
module Base {

  type byte = x: int | 0 <= x < 0x100
  type u16 = x: int | 0 <= x < 0x1_0000
  type u32 = x: int | 0 <= x < 0x1_0000_0000
  type u64 = x: int | 0 <= x < 0x1_0000_0000_0000_0000

  const TWO32 := 0x1_0000_0000
  const TWO64 := 0x1_0000_0000_0000_0000

  datatype Option<+T> = None | Some(value: T)

  // Truncation to 32 and 64 bits. Dafny's % is never negative, so this is two's complement.
  function Low32(x: int): u32 { x % TWO32 }

  function Low64(x: int): u64 { x % TWO64 }

  // Sign extension of 8-, 16- and 32-bit values
  function Signed8(x: byte): int { if x < 0x80 then x else x - 0x100 }

  function Signed16(x: u16): int { if x < 0x8000 then x else x - 0x1_0000 }

  function Signed32(x: u32): int { if x < 0x8000_0000 then x else x - TWO32 }

  // Little-endian bytes, the host's byte order
  function LE32(v: u32): (b: seq<byte>)
    ensures |b| == 4
  {
    [v % 0x100, v / 0x100 % 0x100, v / 0x1_0000 % 0x100, v / 0x100_0000 % 0x100]
  }

  function LE64(v: u64): (b: seq<byte>)
    ensures |b| == 8
  {
    LE32(v % TWO32) + LE32(v / TWO32 % TWO32)
  }

  function U32At(b: seq<byte>, k: nat): u32
    requires k + 4 <= |b|
  {
    var b0: int, b1: int, b2: int, b3: int := b[k], b[k + 1], b[k + 2], b[k + 3];
    b0 + 0x100 * b1 + 0x1_0000 * b2 + 0x100_0000 * b3
  }

  function U64At(b: seq<byte>, k: nat): u64
    requires k + 8 <= |b|
  {
    var lo: int, hi: int := U32At(b, k), U32At(b, k + 4);
    lo + TWO32 * hi
  }

  lemma FourBytes(v: u32)
    ensures var b := LE32(v);
            v == b[0] as int + 0x100 * (b[1] as int) + 0x1_0000 * (b[2] as int) + 0x100_0000 * (b[3] as int)
  {
    var hi, mid := v / 0x1_0000, v / 0x100;
    assert v == 0x100 * mid + v % 0x100 && mid == 0x100 * hi + mid % 0x100;
    assert hi == 0x100 * (v / 0x100_0000) + hi % 0x100 && v / 0x100_0000 < 0x100;
  }

  // Reading back a little-endian number written behind the bytes p
  lemma U32AtLE32(p: seq<byte>, v: u32, t: seq<byte>)
    requires p + LE32(v) <= t
    ensures |p| + 4 <= |t| && U32At(t, |p|) == v
  {
    hide LE32;
    var n, b := |p|, LE32(v);
    FourBytes(v);
    assert t[n] == (p + b)[n] == b[0] && t[n + 1] == (p + b)[n + 1] == b[1];
    assert t[n + 2] == (p + b)[n + 2] == b[2] && t[n + 3] == (p + b)[n + 3] == b[3];
  }

  lemma U64AtLE64(p: seq<byte>, v: u64, t: seq<byte>)
    requires p + LE64(v) <= t
    ensures |p| + 8 <= |t| && U64At(t, |p|) == v
  {
    hide LE32, U32At;
    U32AtLE32(p, v % TWO32, t);
    assert p + LE64(v) == (p + LE32(v % TWO32)) + LE32(v / TWO32 % TWO32);
    U32AtLE32(p + LE32(v % TWO32), v / TWO32 % TWO32, t);
  }

  // The buffer s after the bytes b have been written at position pos
  function Patch(s: seq<byte>, pos: nat, b: seq<byte>): (r: seq<byte>)
    requires pos + |b| <= |s|
    ensures |r| == |s|
  {
    s[..pos] + b + s[pos + |b|..]
  }

  lemma PatchAt(s: seq<byte>, pos: nat, b: seq<byte>)
    requires pos + |b| <= |s|
    ensures Patch(s, pos, b)[pos..pos + |b|] == b
    ensures Patch(s, pos, b)[..pos] == s[..pos]
    ensures Patch(s, pos, b)[pos + |b|..] == s[pos + |b|..]
  {
  }

  lemma PatchPatch(s: seq<byte>, pos: nat, a: seq<byte>, b: seq<byte>)
    requires pos + |a| + |b| <= |s|
    ensures Patch(Patch(s, pos, a), pos + |a|, b) == Patch(s, pos, a + b)
  {
  }

  // Bytes outside the written range keep their value
  lemma PatchElsewhere(s: seq<byte>, pos: nat, b: seq<byte>, lo: nat, hi: nat)
    requires pos + |b| <= |s|
    requires lo <= hi <= |s|
    requires hi <= pos || pos + |b| <= lo
    ensures Patch(s, pos, b)[lo..hi] == s[lo..hi]
  {
  }

  // The bytes b are in a buffer at position pos.
  predicate CodeAt(code: seq<byte>, pos: int, b: seq<byte>) {
    0 <= pos && pos + |b| <= |code| && code[pos..pos + |b|] == b
  }

  lemma CodeAtWritten(code: seq<byte>, pos: nat, b: seq<byte>)
    requires pos + |b| <= |code|
    ensures CodeAt(Patch(code, pos, b), pos, b)
  {
  }

  lemma CodeAtElsewhere(code: seq<byte>, pos: nat, b: seq<byte>, at: int, x: seq<byte>)
    requires pos + |b| <= |code| && CodeAt(code, at, x)
    requires at + |x| <= pos || pos + |b| <= at
    ensures CodeAt(Patch(code, pos, b), at, x)
  {
    PatchElsewhere(code, pos, b, at, at + |x|);
  }

  lemma CodeAtJoin(code: seq<byte>, pos: int, a: seq<byte>, b: seq<byte>)
    requires CodeAt(code, pos, a) && CodeAt(code, pos + |a|, b)
    ensures CodeAt(code, pos, a + b)
  {
  }

  lemma CodeAtSplit(code: seq<byte>, pos: int, a: seq<byte>, b: seq<byte>)
    requires CodeAt(code, pos, a + b)
    ensures CodeAt(code, pos, a) && CodeAt(code, pos + |a|, b)
  {
    var x := code[pos..pos + |a + b|];
    assert x[..|a|] == a && x[|a|..] == b;
  }

  lemma SubSlice(s: seq<byte>, i: nat, j: nat, k: nat, l: nat)
    requires i <= j <= |s| && k <= l <= j - i
    ensures s[i..j][k..l] == s[i + k..i + l]
  {
    var t, u, v := s[i..j], s[i..j][k..l], s[i + k..i + l];
    assert |u| == |v|;
    assert forall x :: 0 <= x < |u| ==> u[x] == t[k + x] == s[i + (k + x)] == v[x];
  }
}
