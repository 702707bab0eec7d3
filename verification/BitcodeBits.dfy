/** Bit fields and the chunks of variable-width integers (bitcodez3/parse.go; LLVM Bitcode File Format). */
module BitcodeBits {
  import opened Bytes

  /** `x >> k`, `x & (1 << k - 1)` and `x << k`. */
  function Shr(x: nat, k: nat): nat { if k == 0 then x else Shr(x / 2, k - 1) }

  function Low(x: nat, k: nat): nat { if k == 0 then 0 else x % 2 + 2 * Low(x / 2, k - 1) }

  function Shl(x: nat, k: nat): nat { if k == 0 then x else 2 * Shl(x, k - 1) }

  lemma {:induction false} ShrStep(x: nat, k: nat)
    ensures Shr(x, k + 1) == Shr(x, k) / 2
  {
    if k > 0 { ShrStep(x / 2, k - 1); }
  }

  lemma {:induction false} ShlSum(x: nat, y: nat, k: nat)
    ensures Shl(x + y, k) == Shl(x, k) + Shl(y, k)
  {
    if k > 0 { ShlSum(x, y, k - 1); }
  }

  lemma {:induction false} ShlShl(x: nat, j: nat, k: nat)
    ensures Shl(Shl(x, j), k) == Shl(x, k + j)
  {
    if k > 0 { ShlShl(x, j, k - 1); }
  }

  /** A sum in which the second part starts at bit `j`, moved up by `k` bits. */
  lemma ShlParts(x: nat, y: nat, j: nat, k: nat)
    ensures Shl(x + Shl(y, j), k) == Shl(x, k) + Shl(y, k + j)
  {
    ShlSum(x, Shl(y, j), k);
    ShlShl(y, j, k);
  }

  /** A number below 2^k, alone and with bit `k` set above it. */
  lemma {:induction false} LowPart(x: nat, k: nat)
    requires x < Pow2(k)
    ensures Low(x, k) == x && Shr(x, k) == 0
    ensures Low(x + Pow2(k), k) == x && Shr(x + Pow2(k), k) == 1
  {
    if k > 0 {
      LowPart(x / 2, k - 1);
      assert (x + Pow2(k)) / 2 == x / 2 + Pow2(k - 1) && (x + Pow2(k)) % 2 == x % 2;
    }
  }

  // ---- fields ----

  /** Bit `p` of the data, least significant bit of each byte first. */
  function Bit(d: seq<byte>, p: nat): nat
    requires p < 8 * |d|
  {
    Shr(d[p / 8], p % 8) % 2
  }

  /** The `n`-bit field at bit `p`. */
  function Field(d: seq<byte>, p: nat, n: nat): (v: nat)
    requires p + n <= 8 * |d|
    decreases n, |d|
  {
    if n == 0 then 0 else Bit(d, p) + 2 * Field(d, p + 1, n - 1)
  }

  lemma {:induction false} FieldBound(d: seq<byte>, p: nat, n: nat)
    requires p + n <= 8 * |d|
    ensures Field(d, p, n) < Pow2(n)
    decreases n
  {
    if n > 0 { FieldBound(d, p + 1, n - 1); }
  }

  lemma {:induction false} FieldSplit(d: seq<byte>, p: nat, t: nat, n: nat)
    requires t <= n && p + n <= 8 * |d|
    ensures Field(d, p, n) == Field(d, p, t) + Shl(Field(d, p + t, n - t), t)
    decreases t
  {
    if t > 0 {
      FieldSplit(d, p + 1, t - 1, n - 1);
      assert Shl(Field(d, p + t, n - t), t) == 2 * Shl(Field(d, p + t, n - t), t - 1);
    }
  }

  /** Bit `o` of byte `k`. */
  lemma BitOf(d: seq<byte>, k: nat, o: nat)
    requires o < 8 && k < |d|
    ensures Bit(d, 8 * k + o) == Shr(d[k], o) % 2
  {
    assert (8 * k + o) / 8 == k && (8 * k + o) % 8 == o;
  }

  /** Within one byte a field is a shift and a mask. */
  lemma {:induction false} FieldInByte(d: seq<byte>, k: nat, o: nat, t: nat)
    requires o + t <= 8 && k < |d|
    ensures Field(d, 8 * k + o, t) == Low(Shr(d[k], o), t)
    decreases t
  {
    if t > 0 {
      BitOf(d, k, o);
      FieldInByte(d, k, o + 1, t - 1);
      ShrStep(d[k], o);
    }
  }

  /** Reads an `n`-bit field, a byte's worth at a time. */
  method ReadField(d: seq<byte>, start: nat, n: nat) returns (v: nat)
    requires start + n <= 8 * |d|
    ensures v == Field(d, start, n)
  {
    v := 0;
    var pos, shift, left := start, 0, n;
    while left > 0
      invariant left + shift == n && pos == start + shift
      invariant v + Shl(Field(d, pos, left), shift) == Field(d, start, n)
    {
      var take := if left < 8 - pos % 8 then left else 8 - pos % 8;
      TakeBits(d, pos, take, left, shift);
      v := v + Shl(Low(Shr(d[pos / 8], pos % 8), take), shift);
      pos, shift, left := pos + take, shift + take, left - take;
    }
    ShlZero(shift);
  }

  /** The low bits of a field, taken from one byte. */
  lemma TakeBits(d: seq<byte>, p: nat, take: nat, left: nat, shift: nat)
    requires 0 < take <= left && p % 8 + take <= 8 && p + left <= 8 * |d|
    ensures Shl(Field(d, p, left), shift)
         == Shl(Low(Shr(d[p / 8], p % 8), take), shift) + Shl(Field(d, p + take, left - take), shift + take)
  {
    FieldInByte(d, p / 8, p % 8, take);
    FieldSplit(d, p, take, left);
    ShlParts(Field(d, p, take), Field(d, p + take, left - take), take, shift);
  }

  lemma {:induction false} ShlZero(k: nat)
    ensures Shl(0, k) == 0
  {
    if k > 0 { ShlZero(k - 1); }
  }

  // ---- variable-width integers ----

  /** Chunks of `n` bits from bit `p` hold the digits `ds`, low first; the top bit of each says that more follow. */
  predicate HasChunks(d: seq<byte>, p: nat, n: nat, ds: seq<nat>)
    requires n >= 2
    decreases |ds|
  {
    |ds| > 0 && ds[0] < Pow2(n - 1) && p + n <= 8 * |d| &&
    Field(d, p, n) == ds[0] + (if |ds| > 1 then Pow2(n - 1) else 0) &&
    (|ds| > 1 ==> HasChunks(d, p + n, n, ds[1..]))
  }

  /** How many bits the chunks take. */
  function ChunksLength(n: nat, ds: seq<nat>): nat { if |ds| == 0 then 0 else n + ChunksLength(n, ds[1..]) }

  /** The number the digits stand for. */
  function Total(n: nat, ds: seq<nat>): nat
    requires n >= 2
  {
    if |ds| == 0 then 0
    else if |ds| == 1 then ds[0]
    else ds[0] + Shl(Total(n, ds[1..]), n - 1)
  }

  /** Every digit, the first at bit `shift`, fits a 64-bit word. */
  predicate WordFits(n: nat, shift: nat, ds: seq<nat>)
    requires n >= 2
    decreases |ds|
  {
    |ds| > 0 ==> shift < 64 && ds[0] < Pow2(64 - shift) && WordFits(n, shift + n - 1, ds[1..])
  }
}
