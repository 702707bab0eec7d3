/** The bytes of a written tree (LLVM Bitcode File Format, section "Bitstream Format"), and that reading them gives the tree's plan. */
module BitcodeFile {
  import opened Bytes
  import opened BitcodeBits
  import opened BitcodeModel
  import opened BitcodeWriter
  import opened BitcodeReads

  // ---- bits ----

  /** The low `n` bits of a number, least significant first. */
  function FixBits(n: nat, v: nat): (r: seq<bool>)
    ensures |r| == n
  {
    if n == 0 then [] else [v % 2 == 1] + FixBits(n - 1, v / 2)
  }

  /** Digits of `n - 1` bits, each with a bit that says whether more follow. */
  function ChunkBits(n: nat, ds: seq<nat>): (r: seq<bool>)
    requires n >= 2
    ensures |r| == ChunksLength(n, ds)
  {
    if ds == [] then [] else FixBits(n, ds[0] + if |ds| > 1 then Pow2(n - 1) else 0) + ChunkBits(n, ds[1..])
  }

  predicate DigitsFit(n: nat, ds: seq<nat>)
    requires n >= 2
  {
    ds == [] || (ds[0] < Pow2(n - 1) && DigitsFit(n, ds[1..]))
  }

  function ZeroBits(n: nat): (r: seq<bool>)
    ensures |r| == n
  {
    seq(n, i => false)
  }

  /** The words of a body that begins at bit `p`. */
  function WordsOf(p: nat, body: Tokens): nat { (EndOf(p, body) - p) / 32 }

  /** Every number fits its field. */
  predicate Numeric(p: nat, k: Token)
    decreases k, 0
  {
    match k
    case Fix(n, v) => v < Pow2(n)
    case Chunk(n, ds) => 2 <= n <= 32 && ds != [] && DigitsFit(n, ds) && WordFits(n, 0, ds)
    case Pad => true
    case Sub(body) => (EndOf(p + 32, body) - (p + 32)) % 32 == 0 && WordsOf(p + 32, body) < Pow2(32) && AllNumeric(p + 32, body)
  }

  predicate AllNumeric(p: nat, ks: Tokens)
    decreases ks, 0
  {
    ks.End? || (Numeric(p, ks.head) && AllNumeric(TokenEnd(p, ks.head), ks.tail))
  }

  function TokenBits(p: nat, k: Token): (r: seq<bool>)
    requires Numeric(p, k)
    ensures |r| == TokenEnd(p, k) - p
    decreases k, 0
  {
    match k
    case Fix(n, v) => FixBits(n, v)
    case Chunk(n, ds) => ChunkBits(n, ds)
    case Pad => ZeroBits(Gap(p))
    case Sub(body) => FixBits(32, WordsOf(p + 32, body)) + BitsOf(p + 32, body)
  }

  function BitsOf(p: nat, ks: Tokens): (r: seq<bool>)
    requires AllNumeric(p, ks)
    ensures |r| == EndOf(p, ks) - p
    decreases ks, 0
  {
    if ks.End? then [] else TokenBits(p, ks.head) + BitsOf(TokenEnd(p, ks.head), ks.tail)
  }

  // ---- bytes ----

  function Number(bits: seq<bool>): nat { if bits == [] then 0 else (if bits[0] then 1 else 0) + 2 * Number(bits[1..]) }

  lemma {:induction false} NumberBound(bits: seq<bool>)
    ensures Number(bits) < Pow2(|bits|)
  {
    if bits != [] { NumberBound(bits[1..]); }
  }

  function ByteOf(bits: seq<bool>, k: nat): byte
    requires 8 * k + 8 <= |bits|
  {
    NumberBound(bits[8 * k..8 * k + 8]);
    Number(bits[8 * k..8 * k + 8])
  }

  function Pack(bits: seq<bool>): (d: seq<byte>)
    requires |bits| % 8 == 0
    ensures |d| == |bits| / 8
  {
    seq(|bits| / 8, k requires 0 <= k < |bits| / 8 => ByteOf(bits, k))
  }

  const MAGIC: seq<byte> := [0x42, 0x43, 0xC0, 0xDE]

  /** The tree can be written: its numbers fit, and it ends on a 32-bit boundary. */
  predicate Writable(es: Entries) {
    AllFormed(es) && AllNumeric(32, EntriesTokens(es, 2)) && EndOf(32, EntriesTokens(es, 2)) % 32 == 0
  }

  function File(es: Entries): (d: seq<byte>)
    requires Writable(es)
    ensures 8 * |d| == EndOf(32, EntriesTokens(es, 2))
  {
    MAGIC + Pack(BitsOf(32, EntriesTokens(es, 2)))
  }

  // ---- the bytes hold the bits ----

  lemma {:induction false} NumberBit(bits: seq<bool>, k: nat)
    requires k < |bits|
    ensures Shr(Number(bits), k) % 2 == if bits[k] then 1 else 0
  {
    assert Number(bits) / 2 == Number(bits[1..]) && Number(bits) % 2 == if bits[0] then 1 else 0;
    if k > 0 {
      NumberBit(bits[1..], k - 1);
      assert bits[1..][k - 1] == bits[k];
    }
  }

  /** Bit `i` of `bits` stands at bit `p + i` of the data. */
  predicate BitIs(d: seq<byte>, p: nat, bits: seq<bool>, i: nat) {
    i < |bits| && p + i < 8 * |d| && Bit(d, p + i) == if bits[i] then 1 else 0
  }

  /** The data holds these bits at bit `p`. */
  ghost predicate BitsAt(d: seq<byte>, p: nat, bits: seq<bool>) {
    p + |bits| <= 8 * |d| && forall i: nat {:trigger BitIs(d, p, bits, i)} :: i < |bits| ==> BitIs(d, p, bits, i)
  }

  lemma PackBit(bits: seq<bool>, i: nat)
    requires |bits| % 8 == 0 && i < |bits|
    ensures Bit(MAGIC + Pack(bits), 32 + i) == if bits[i] then 1 else 0
  {
    var k, o := i / 8, i % 8;
    var d := MAGIC + Pack(bits);
    BitOf(d, 4 + k, o);
    assert d[4 + k] == ByteOf(bits, k);
    NumberBit(bits[8 * k..8 * k + 8], o);
    assert 32 + i == 8 * (4 + k) + o;
  }

  lemma PackedBits(bits: seq<bool>)
    requires |bits| % 8 == 0
    ensures BitsAt(MAGIC + Pack(bits), 32, bits)
  {
    forall i: nat {:trigger BitIs(MAGIC + Pack(bits), 32, bits, i)} | i < |bits| ensures BitIs(MAGIC + Pack(bits), 32, bits, i) { PackBit(bits, i); }
  }

  lemma FileBits(es: Entries)
    requires Writable(es)
    ensures BitsAt(File(es), 32, BitsOf(32, EntriesTokens(es, 2)))
  {
    PackedBits(BitsOf(32, EntriesTokens(es, 2)));
  }

  lemma BitsSplit(d: seq<byte>, p: nat, a: seq<bool>, b: seq<bool>)
    requires BitsAt(d, p, a + b)
    ensures BitsAt(d, p, a) && BitsAt(d, p + |a|, b)
  {
    forall i: nat {:trigger BitIs(d, p, a, i)} | i < |a| ensures BitIs(d, p, a, i) {
      assert BitIs(d, p, a + b, i) && (a + b)[i] == a[i];
    }
    forall i: nat {:trigger BitIs(d, p + |a|, b, i)} | i < |b| ensures BitIs(d, p + |a|, b, i) {
      assert BitIs(d, p, a + b, |a| + i) && (a + b)[|a| + i] == b[i];
      assert p + (|a| + i) == p + |a| + i;
    }
  }

  lemma {:induction false} FixHolds(d: seq<byte>, p: nat, n: nat, v: nat)
    requires BitsAt(d, p, FixBits(n, v)) && v < Pow2(n)
    ensures Field(d, p, n) == v
    decreases n
  {
    if n > 0 {
      assert BitIs(d, p, FixBits(n, v), 0) && FixBits(n, v)[0] == (v % 2 == 1);
      BitsSplit(d, p, [v % 2 == 1], FixBits(n - 1, v / 2));
      FixHolds(d, p + 1, n - 1, v / 2);
    }
  }

  lemma DigitBound(n: nat, x: nat)
    requires n >= 2 && x < Pow2(n - 1)
    ensures x + Pow2(n - 1) < Pow2(n)
  {}

  function FirstChunk(n: nat, ds: seq<nat>): nat
    requires n >= 2 && ds != []
  {
    ds[0] + if |ds| > 1 then Pow2(n - 1) else 0
  }

  lemma FirstHolds(d: seq<byte>, p: nat, n: nat, ds: seq<nat>)
    requires n >= 2 && ds != [] && BitsAt(d, p, ChunkBits(n, ds)) && DigitsFit(n, ds)
    ensures p + n <= 8 * |d| && Field(d, p, n) == FirstChunk(n, ds) && BitsAt(d, p + n, ChunkBits(n, ds[1..]))
  {
    var v := FirstChunk(n, ds);
    DigitBound(n, ds[0]);
    BitsSplit(d, p, FixBits(n, v), ChunkBits(n, ds[1..]));
    FixHolds(d, p, n, v);
  }

  lemma {:induction false} ChunkHolds(d: seq<byte>, p: nat, n: nat, ds: seq<nat>)
    requires n >= 2 && ds != [] && BitsAt(d, p, ChunkBits(n, ds)) && DigitsFit(n, ds)
    ensures HasChunks(d, p, n, ds)
    decreases |ds|
  {
    FirstHolds(d, p, n, ds);
    assert ds[0] < Pow2(n - 1);
    if |ds| > 1 { ChunkHolds(d, p + n, n, ds[1..]); }
  }

  lemma {:induction false} ZerosHold(d: seq<byte>, p: nat, n: nat)
    requires BitsAt(d, p, ZeroBits(n))
    ensures Field(d, p, n) == 0
    decreases n
  {
    if n > 0 {
      assert ZeroBits(n) == ZeroBits(1) + ZeroBits(n - 1);
      BitsSplit(d, p, ZeroBits(1), ZeroBits(n - 1));
      assert BitIs(d, p, ZeroBits(1), 0);
      ZerosHold(d, p + 1, n - 1);
    }
  }

  lemma {:induction false} TokenHolds(d: seq<byte>, p: nat, k: Token)
    requires Numeric(p, k) && BitsAt(d, p, TokenBits(p, k))
    ensures TokenAt(d, p, k)
    decreases k, 0
  {
    match k
    case Fix(n, v) => FixHolds(d, p, n, v);
    case Chunk(n, ds) => ChunkHolds(d, p, n, ds);
    case Pad => ZerosHold(d, p, Gap(p));
    case Sub(body) =>
      var words := WordsOf(p + 32, body);
      BitsSplit(d, p, FixBits(32, words), BitsOf(p + 32, body));
      FixHolds(d, p, 32, words);
      TokensHold(d, p + 32, body);
  }

  lemma {:induction false} TokensHold(d: seq<byte>, p: nat, ks: Tokens)
    requires AllNumeric(p, ks) && BitsAt(d, p, BitsOf(p, ks))
    ensures HoldsAt(d, p, ks)
    decreases ks, 0
  {
    if ks.Then? {
      FirstBits(d, p, ks.head, ks.tail);
      TokenHolds(d, p, ks.head);
      TokensHold(d, TokenEnd(p, ks.head), ks.tail);
    }
  }

  lemma FirstBits(d: seq<byte>, p: nat, k: Token, ks: Tokens)
    requires AllNumeric(p, Then(k, ks)) && BitsAt(d, p, BitsOf(p, Then(k, ks)))
    ensures Numeric(p, k) && BitsAt(d, p, TokenBits(p, k))
    ensures AllNumeric(TokenEnd(p, k), ks) && BitsAt(d, TokenEnd(p, k), BitsOf(TokenEnd(p, k), ks))
  {
    var a, b := TokenBits(p, k), BitsOf(TokenEnd(p, k), ks);
    assert BitsOf(p, Then(k, ks)) == a + b;
    BitsSplit(d, p, a, b);
  }

  /** Every tree that can be written and is within the reader's limits is read back from its file, as the plan it stands for. */
  lemma WriteThenParse(es: Entries)
    requires Writable(es) && 8 <= |File(es)| <= MAX_SOURCE && Readable(File(es), es)
    ensures ParsePlan(File(es)) == Some(PlanFrom(es))
  {
    var d := File(es);
    FileBits(es);
    TokensHold(d, 32, EntriesTokens(es, 2));
    assert d[..4] == MAGIC;
    WrittenParses(d, es);
  }
}
