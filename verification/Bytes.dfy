/** Bytes, fixed-width machine words and little-endian fields. */
module Bytes {
  const B32 := 0x1_0000_0000
  const B63 := 0x8000_0000_0000_0000
  const B64 := 0x1_0000_0000_0000_0000

  type byte = x: int | 0 <= x < 0x100
  type u32 = x: int | 0 <= x < 0x1_0000_0000
  type u64 = x: int | 0 <= x < 0x1_0000_0000_0000_0000
  type i64 = x: int | -0x8000_0000_0000_0000 <= x < 0x8000_0000_0000_0000

  /** A SHA-256 digest. */
  type digest = s: seq<byte> | |s| == 32 witness Zeros(32)

  datatype Option<+T> = None | Some(value: T)

  /** Wrapping addition and subtraction of 64-bit unsigned words. */
  function Add64(a: u64, b: u64): u64 { if a + b < B64 then a + b else a + b - B64 }

  function Sub64(a: u64, b: u64): u64 { if a >= b then a - b else a - b + B64 }

  /** Conversion to a narrower unsigned word. */
  function Low32(n: nat): u32 { if n < B32 then n else n % B32 }

  function Low64(n: nat): u64 { if n < B64 then n else n % B64 }

  /** A sum of two 64-bit signed (or one signed and one unsigned) words, wrapped to the signed range. */
  function ToI64(x: int): int {
    if x < -B63 then x + B64 else if x < B63 then x else if x < B63 + B64 then x - B64 else x - 2 * B64
  }

  lemma SubThenAdd(a: u64, b: u64)
    ensures Add64(b, Sub64(a, b)) == a
  {}

  /** Buffer `b` holds the bytes `x` at position `p`. */
  predicate Has(b: seq<byte>, p: nat, x: seq<byte>)
    decreases |x|
  {
    if x == [] then p <= |b| else p < |b| && b[p] == x[0] && Has(b, p + 1, x[1..])
  }

  lemma {:induction false} HasSplit(b: seq<byte>, p: nat, x: seq<byte>, y: seq<byte>)
    requires Has(b, p, x + y)
    ensures Has(b, p, x) && Has(b, p + |x|, y)
    decreases |x|
  {
    if x == [] {
      assert x + y == y;
      HasLength(b, p, y);
    } else {
      assert (x + y)[1..] == x[1..] + y;
      HasSplit(b, p + 1, x[1..], y);
    }
  }

  lemma {:induction false} HasLength(b: seq<byte>, p: nat, x: seq<byte>)
    requires Has(b, p, x)
    ensures p + |x| <= |b|
    decreases |x|
  {
    if x != [] { HasLength(b, p + 1, x[1..]); }
  }

  /** One byte followed by more. */
  lemma HasByte(b: seq<byte>, p: nat, x: byte, y: seq<byte>)
    requires Has(b, p, [x] + y)
    ensures p < |b| && b[p] == x && Has(b, p + 1, y)
  {
    assert ([x] + y)[1..] == y;
  }

  /** A buffer holds its own slices, and what it holds is the slice. */
  lemma {:induction false} HasSlice(b: seq<byte>, p: nat, x: seq<byte>)
    ensures Has(b, p, x) <==> p + |x| <= |b| && b[p..p + |x|] == x
    decreases |x|
  {
    if x != [] && p < |b| {
      HasSlice(b, p + 1, x[1..]);
      if p + |x| <= |b| {
        assert b[p..p + |x|] == [b[p]] + b[p + 1..p + |x|];
        assert x == [x[0]] + x[1..];
      }
    }
  }

  /** From position `p` on, buffer `b` is exactly `x`. */
  predicate Ends(b: seq<byte>, p: nat, x: seq<byte>) { Has(b, p, x) && p + |x| == |b| }

  lemma EndsAll(b: seq<byte>)
    ensures Ends(b, 0, b)
  {
    HasSlice(b, 0, b);
  }

  lemma EndsSplit(b: seq<byte>, p: nat, x: seq<byte>, y: seq<byte>)
    requires Ends(b, p, x + y)
    ensures Has(b, p, x) && Ends(b, p + |x|, y)
  {
    HasSplit(b, p, x, y);
  }

  lemma HasAppend(b: seq<byte>, p: nat, x: seq<byte>, y: seq<byte>)
    requires Has(b, p, x) && Has(b, p + |x|, y)
    ensures Has(b, p, x + y)
  {
    HasSlice(b, p, x);
    HasSlice(b, p + |x|, y);
    HasSlice(b, p, x + y);
    assert b[p..p + |x| + |y|] == b[p..p + |x|] + b[p + |x|..p + |x| + |y|];
  }

  lemma Glue<T>(a: seq<T>, b: seq<T>, c: seq<T>)
    ensures (a + b) + c == a + (b + c)
  {}

  /** `o` with `b` written over it at `at`. */
  function Put(o: seq<byte>, at: nat, b: seq<byte>): (r: seq<byte>)
    requires at + |b| <= |o|
    ensures |r| == |o|
  {
    o[..at] + b + o[at + |b|..]
  }

  function Zeros(n: nat): (r: seq<byte>)
    ensures |r| == n
    ensures forall i :: 0 <= i < n ==> r[i] == 0
  {
    seq(n, _ => 0)
  }

  /** The value of a little-endian field (Go's `le` and `binary.LittleEndian`). */
  function LE(s: seq<byte>): nat
  {
    if s == [] then 0 else s[0] + 256 * LE(s[1..])
  }

  /** The low `w` bytes of `v`, least significant first (Go's `putLE`). */
  function ToLE(w: nat, v: nat): (r: seq<byte>)
    ensures |r| == w
  {
    if w == 0 then [] else [v % 256] + ToLE(w - 1, v / 256)
  }

  /** Writing back a field that was read restores its bytes. */
  lemma {:induction false} ToLEofLE(s: seq<byte>)
    ensures ToLE(|s|, LE(s)) == s
  {
    if s != [] {
      ToLEofLE(s[1..]);
      assert LE(s) % 256 == s[0] && LE(s) / 256 == LE(s[1..]);
    }
  }

  function Pow2(n: nat): (r: nat)
    ensures r >= 1
  {
    if n == 0 then 1 else 2 * Pow2(n - 1)
  }

  lemma Pow2Word()
    ensures Pow2(64) == B64
  {
    assert Pow2(8) == 256;
    assert Pow2(16) == 256 * Pow2(8);
    assert Pow2(24) == 256 * Pow2(16);
    assert Pow2(32) == 256 * Pow2(24);
    assert Pow2(40) == 256 * Pow2(32);
    assert Pow2(48) == 256 * Pow2(40);
    assert Pow2(56) == 256 * Pow2(48);
    assert Pow2(64) == 256 * Pow2(56);
  }

  function Pow256(w: nat): (r: nat)
    ensures r > 0
  {
    if w == 0 then 1 else 256 * Pow256(w - 1)
  }

  /** Reading a field that was written gives the value back, if it fits the field. */
  lemma {:induction false} LEofToLE(w: nat, v: nat)
    requires v < Pow256(w)
    ensures LE(ToLE(w, v)) == v
  {
    if w > 0 {
      LEofToLE(w - 1, v / 256);
      assert ToLE(w, v)[1..] == ToLE(w - 1, v / 256);
    }
  }

  lemma {:induction false} LEBound(s: seq<byte>)
    ensures LE(s) < Pow256(|s|)
  {
    if s != [] {
      LEBound(s[1..]);
    }
  }

  lemma Pow256Values()
    ensures Pow256(4) == B32 && Pow256(8) == B64
  {
    assert Pow256(2) == 65536;
    assert Pow256(4) == 65536 * 65536;
    assert Pow256(6) == 65536 * Pow256(4);
  }

  /** A 4-byte and an 8-byte little-endian field. */
  function U32LE(v: u32): (r: seq<byte>)
    ensures |r| == 4
    ensures LE(r) == v
  {
    Pow256Values();
    LEofToLE(4, v);
    ToLE(4, v)
  }

  function U64LE(v: u64): (r: seq<byte>)
    ensures |r| == 8
    ensures LE(r) == v
  {
    Pow256Values();
    LEofToLE(8, v);
    ToLE(8, v)
  }

  function ReadU32(s: seq<byte>): (r: u32)
    requires |s| == 4
    ensures U32LE(r) == s
  {
    Pow256Values();
    LEBound(s);
    ToLEofLE(s);
    LE(s)
  }

  function ReadU64(s: seq<byte>): (r: u64)
    requires |s| == 8
    ensures U64LE(r) == s
  {
    Pow256Values();
    LEBound(s);
    ToLEofLE(s);
    LE(s)
  }

  // ---- lists ----

  /** A list, and one element more if there is one. */
  function Append<T>(s: seq<T>, x: Option<T>): seq<T> { if x.Some? then s + [x.value] else s }

  /** The parts, one after the other. */
  function Flat(parts: seq<seq<byte>>): seq<byte> {
    if parts == [] then [] else parts[0] + Flat(parts[1..])
  }

  lemma {:induction false} FlatSnoc(parts: seq<seq<byte>>, p: seq<byte>)
    ensures Flat(parts + [p]) == Flat(parts) + p
  {
    if parts == [] {
      assert [] + [p] == [p] && [p][1..] == [];
    } else {
      FlatSnoc(parts[1..], p);
      assert (parts + [p])[1..] == parts[1..] + [p];
    }
  }
}
