/**
 A file that the bitstream parser accepts although one function block lies inside another, so that
 it cannot be cut by functions (bitcodez3/parse.go, bitcodez3/encode.go).
 */
module BitcodeNested {
  import opened Bytes
  import opened BitcodeBits
  import opened BitcodeModel
  import opened BitcodeEncode

  // ---- two words of a file, by their bytes ----

  predicate ZeroWord(d: seq<byte>, k: nat) {
    k % 4 == 0 && k + 4 <= |d| && d[k] == 0 && d[k + 1] == 0 && d[k + 2] == 0 && d[k + 3] == 0
  }

  /** ENTER_SUBBLOCK at abbreviation width 2, for block 12 with width 2 and `w` words. */
  predicate Entry(d: seq<byte>, k: nat, w: nat) {
    && k % 4 == 0 && k + 8 <= |d| && d[k] == 0x31 && d[k + 1] == 0x08 && d[k + 2] == 0 && d[k + 3] == 0
    && d[k + 4] == w && d[k + 5] == 0 && d[k + 6] == 0 && d[k + 7] == 0
  }

  lemma {:induction false} ShrOfZero(k: nat)
    ensures Shr(0, k) == 0
  {
    if k > 0 { ShrOfZero(k - 1); }
  }

  /** A field over zero bytes. */
  lemma {:induction false} ZeroField(d: seq<byte>, p: nat, n: nat)
    requires p + n <= 8 * |d| && forall q :: p <= q < p + n ==> d[q / 8] == 0
    ensures Field(d, p, n) == 0
    decreases n
  {
    if n > 0 {
      ShrOfZero(p % 8);
      ZeroField(d, p + 1, n - 1);
    }
  }

  lemma ZeroFieldAt(d: seq<byte>, k: nat, p: nat, n: nat)
    requires ZeroWord(d, k) && 8 * k <= p && p + n <= 8 * k + 32
    ensures Field(d, p, n) == 0
  {
    forall q | p <= q < p + n ensures d[q / 8] == 0 { assert k <= q / 8 < k + 4; }
    ZeroField(d, p, n);
  }

  lemma ByteField(d: seq<byte>, k: nat)
    requires k < |d|
    ensures Field(d, 8 * k, 8) == d[k]
  {
    FieldInByte(d, k, 0, 8);
    LowPart(d[k], 8);
  }

  /** The fields of an entry: code, identifier, width, padding. */
  lemma EntryCode(d: seq<byte>, k: nat, w: nat)
    requires Entry(d, k, w)
    ensures Field(d, 8 * k, 2) == 1
  {
    FieldInByte(d, k, 0, 2);
    assert Low(0x31, 2) == 1;
  }

  lemma EntryId(d: seq<byte>, k: nat, w: nat)
    requires Entry(d, k, w)
    ensures Field(d, 8 * k + 2, 8) == 12
  {
    FieldInByte(d, k, 2, 6);
    FieldInByte(d, k + 1, 0, 2);
    FieldSplit(d, 8 * k + 2, 6, 8);
    assert Low(Shr(0x31, 2), 6) == 12 && Low(0x08, 2) == 0 && Shl(0, 6) == 0;
  }

  lemma EntryWidth(d: seq<byte>, k: nat, w: nat)
    requires Entry(d, k, w)
    ensures Field(d, 8 * k + 10, 4) == 2
  {
    FieldInByte(d, k + 1, 2, 4);
    assert Low(Shr(0x08, 2), 4) == 2;
  }

  lemma EntryGap(d: seq<byte>, k: nat, w: nat)
    requires Entry(d, k, w)
    ensures Field(d, 8 * k + 14, 18) == 0
  {
    FieldInByte(d, k + 1, 6, 2);
    assert Low(Shr(0x08, 6), 2) == 0;
    FieldSplit(d, 8 * k + 14, 2, 18);
    forall q | 8 * k + 16 <= q < 8 * k + 32 ensures d[q / 8] == 0 { assert k + 2 <= q / 8 < k + 4; }
    ZeroField(d, 8 * k + 16, 16);
    ShlZero(2);
  }

  lemma EntryWords(d: seq<byte>, k: nat, w: nat)
    requires Entry(d, k, w)
    ensures Field(d, 8 * k + 32, 32) == w
  {
    ByteField(d, k + 4);
    FieldSplit(d, 8 * (k + 4), 8, 32);
    forall q | 8 * k + 40 <= q < 8 * k + 64 ensures d[q / 8] == 0 { assert k + 5 <= q / 8 < k + 8; }
    ZeroField(d, 8 * k + 40, 24);
    ShlZero(8);
  }

  // ---- what the reader makes of them ----

  /** A variable-width integer of one chunk. */
  lemma OneChunk(d: seq<byte>, end: nat, n: nat, s: St, v: nat)
    requires Inside(d, end) && 2 <= n <= 32 && CanRead(end, n, s) && Field(d, s.p, n) == v < Pow2(n - 1) && v < 64
    ensures Vbr(d, end, n, s) == s.(p := s.p + n) && VbrValue(d, end, n, s) == v
  {
    LowPart(v, n - 1);
    Pow2Word();
  }

  /** The identifier and the width, up to the padding. */
  lemma EntryNames(d: seq<byte>, end: nat, k: nat, w: nat, s: St)
    requires Inside(d, end) && Entry(d, k, w) && !s.bad && s.p == 8 * k + 2 && 8 * k + 64 <= end
    ensures Vbr(d, end, 8, s) == s.(p := 8 * k + 10) && VbrValue(d, end, 8, s) == 12
    ensures Vbr(d, end, 4, s.(p := 8 * k + 10)) == s.(p := 8 * k + 14) && VbrValue(d, end, 4, s.(p := 8 * k + 10)) == 2
  {
    EntryId(d, k, w);
    EntryWidth(d, k, w);
    assert Pow2(7) == 128 && Pow2(3) == 8;
    OneChunk(d, end, 8, s, 12);
    OneChunk(d, end, 4, s.(p := 8 * k + 10), 2);
  }

  lemma EntryAlign(d: seq<byte>, end: nat, k: nat, w: nat, s: St)
    requires Inside(d, end) && Entry(d, k, w) && !s.bad && s.p == 8 * k + 14 && 8 * k + 64 <= end
    ensures Align(d, end, s) == s.(p := 8 * k + 32)
  {
    EntryGap(d, k, w);
    assert Gap(8 * k + 14) == 18;
  }

  lemma EntryExtent(d: seq<byte>, end: nat, k: nat, w: nat, s: St)
    requires Inside(d, end) && Entry(d, k, w) && !s.bad && s.p == 8 * k + 32 && 8 * k + 64 + 32 * w <= end
    ensures Extent(d, end, 12, 2, s) == Head(s.(p := 8 * k + 64), 12, 2, 8 * k + 64 + 32 * w)
  {
    EntryWords(d, k, w);
  }

  lemma EntryHead(d: seq<byte>, end: nat, k: nat, w: nat, s: St)
    requires Inside(d, end) && Entry(d, k, w) && !s.bad && s.p == 8 * k && 8 * k + 64 + 32 * w <= end
    ensures BitsValue(d, end, 2, s) == 1
    ensures HeadAt(d, end, Bits(d, end, 2, s)) == Head(s.(p := 8 * k + 64), 12, 2, 8 * k + 64 + 32 * w)
  {
    EntryCode(d, k, w);
    EntryNames(d, end, k, w, s.(p := 8 * k + 2));
    EntryAlign(d, end, k, w, s.(p := 8 * k + 14));
    EntryExtent(d, end, k, w, s.(p := 8 * k + 32));
  }

  /** The end of a block, in its last word. */
  lemma EndItem(d: seq<byte>, f: Frame, sc: Scope, k: nat, s: St)
    requires FrameOk(d, f) && f.width == 2 && !f.top && f.end == 8 * k + 32 && ZeroWord(d, k) && !s.bad && s.p == 8 * k
    ensures Item(d, f, sc, s) == Done(s.(p := f.end))
  {
    ZeroFieldAt(d, k, 8 * k, 2);
    ZeroFieldAt(d, k, 8 * k + 2, 30);
    assert Gap(8 * k + 2) == 30;
  }

  lemma EndItems(d: seq<byte>, f: Frame, sc: Scope, k: nat, s: St)
    requires FrameOk(d, f) && f.width == 2 && !f.top && f.end == 8 * k + 32 && ZeroWord(d, k) && !s.bad && s.p == 8 * k
    ensures Items(d, f, sc, s) == s.(p := f.end)
  {
    EndItem(d, f, sc, k, s);
  }

  function Function12(k: nat, w: nat): Block { Block(12, 8 * k, 8 * k + 64, 8 * k + 64 + 32 * w, 2, 0) }

  /** A block whose body adds the blocks `bs`. */
  lemma WholeBlock(d: seq<byte>, f: Frame, k: nat, w: nat, s: St, bs: seq<Block>)
    requires FrameOk(d, f) && !s.bad && s.p == 8 * k && 8 * k + 64 + 32 * w <= f.end
    requires var t := s.(p := 8 * k + 64, blocks := s.blocks + [Function12(k, w)]);
             BlockAt(d, Frame(12, 2, 8 * k + 64 + 32 * w, f.depth + 1, false), t) == t.(p := 8 * k + 64 + 32 * w, blocks := t.blocks + bs)
    ensures SubBlock(d, f, 8 * k, Head(s.(p := 8 * k + 64), 12, 2, 8 * k + 64 + 32 * w))
         == s.(p := 8 * k + 64 + 32 * w, blocks := s.blocks + ([Function12(k, w)] + bs))
  {
    var c := s.blocks + [Function12(k, w)] + bs;
    assert Counted(c, |s.blocks|, 0) == c == s.blocks + ([Function12(k, w)] + bs);
  }

  lemma EmptyBody(d: seq<byte>, f: Frame, k: nat, s: St)
    requires FrameOk(d, f) && f.width == 2 && !f.top && f.depth <= MAX_DEPTH && f.end == 8 * k + 32 && ZeroWord(d, k)
    requires !s.bad && |s.blocks| <= MAX_BLOCKS && s.p == 8 * k
    ensures BlockAt(d, f, s) == s.(p := f.end, blocks := s.blocks + [])
  {
    EndItems(d, f, Scope(Known(s, f.id), None), k, s);
    assert s.blocks + [] == s.blocks;
  }

  /** A block that holds nothing. */
  lemma EmptyBlock(d: seq<byte>, f: Frame, k: nat, s: St)
    requires FrameOk(d, f) && f.depth < MAX_DEPTH && !s.bad && |s.blocks| < MAX_BLOCKS && s.p == 8 * k
    requires Entry(d, k, 1) && ZeroWord(d, k + 8) && 8 * k + 96 <= f.end
    ensures SubBlock(d, f, 8 * k, Head(s.(p := 8 * k + 64), 12, 2, 8 * k + 96)) == s.(p := 8 * k + 96, blocks := s.blocks + [Function12(k, 1)])
  {
    EmptyBody(d, Frame(12, 2, 8 * k + 96, f.depth + 1, false), k + 8, s.(p := 8 * k + 64, blocks := s.blocks + [Function12(k, 1)]));
    WholeBlock(d, f, k, 1, s, []);
    assert [Function12(k, 1)] + [] == [Function12(k, 1)];
  }

  lemma EntryItem(d: seq<byte>, f: Frame, sc: Scope, k: nat, w: nat, s: St)
    requires FrameOk(d, f) && f.width == 2 && Entry(d, k, w) && !s.bad && s.p == 8 * k && 8 * k + 64 + 32 * w <= f.end
    ensures Item(d, f, sc, s) == More(sc, SubBlock(d, f, s.p, Head(s.(p := 8 * k + 64), 12, 2, 8 * k + 64 + 32 * w)))
  {
    EntryHead(d, f.end, k, w, s);
  }

  /** An item that is a block with the blocks `bs` in it. */
  lemma BlockItem(d: seq<byte>, f: Frame, sc: Scope, k: nat, w: nat, s: St, u: St)
    requires FrameOk(d, f) && f.width == 2 && Entry(d, k, w) && !s.bad && s.p == 8 * k && 8 * k + 64 + 32 * w <= f.end
    requires SubBlock(d, f, 8 * k, Head(s.(p := 8 * k + 64), 12, 2, 8 * k + 64 + 32 * w)) == u && !u.bad
    ensures Items(d, f, sc, s) == Items(d, f, sc, u)
  {
    EntryItem(d, f, sc, k, w, s);
    ItemsMore(d, f, sc, s, u);
  }

  lemma ItemsMore(d: seq<byte>, f: Frame, sc: Scope, s: St, u: St)
    requires FrameOk(d, f) && !s.bad && s.p < f.end && Item(d, f, sc, s) == More(sc, u) && !u.bad
    ensures Items(d, f, sc, s) == Items(d, f, sc, u)
  {}

  /** The body of the outer block: the inner block, then the end. */
  lemma OuterItems(d: seq<byte>, f: Frame, sc: Scope, k: nat, s: St)
    requires FrameOk(d, f) && f.width == 2 && !f.top && f.depth < MAX_DEPTH && f.end == 8 * k + 128
    requires !s.bad && |s.blocks| < MAX_BLOCKS && s.p == 8 * k
    requires Entry(d, k, 1) && ZeroWord(d, k + 8) && ZeroWord(d, k + 12)
    ensures Items(d, f, sc, s) == s.(p := f.end, blocks := s.blocks + [Function12(k, 1)])
  {
    var u := s.(p := 8 * k + 96, blocks := s.blocks + [Function12(k, 1)]);
    EmptyBlock(d, f, k, s);
    BlockItem(d, f, sc, k, 1, s, u);
    EndItems(d, f, sc, k + 12, u);
  }

  lemma OuterBody(d: seq<byte>, f: Frame, k: nat, s: St)
    requires FrameOk(d, f) && f.width == 2 && !f.top && f.depth < MAX_DEPTH && f.end == 8 * k + 128
    requires !s.bad && |s.blocks| < MAX_BLOCKS && s.p == 8 * k
    requires Entry(d, k, 1) && ZeroWord(d, k + 8) && ZeroWord(d, k + 12)
    ensures BlockAt(d, f, s) == s.(p := f.end, blocks := s.blocks + [Function12(k, 1)])
  {
    OuterItems(d, f, Scope(Known(s, f.id), None), k, s);
  }

  lemma OuterBlock(d: seq<byte>, f: Frame, k: nat, s: St)
    requires FrameOk(d, f) && f.depth + 1 < MAX_DEPTH && !s.bad && |s.blocks| + 1 < MAX_BLOCKS && s.p == 8 * k
    requires Entry(d, k, 4) && Entry(d, k + 8, 1) && ZeroWord(d, k + 16) && ZeroWord(d, k + 20) && 8 * k + 192 <= f.end
    ensures SubBlock(d, f, 8 * k, Head(s.(p := 8 * k + 64), 12, 2, 8 * k + 192))
         == s.(p := 8 * k + 192, blocks := s.blocks + [Function12(k, 4), Function12(k + 8, 1)])
  {
    OuterBody(d, Frame(12, 2, 8 * k + 192, f.depth + 1, false), k + 8, s.(p := 8 * k + 64, blocks := s.blocks + [Function12(k, 4)]));
    WholeBlock(d, f, k, 4, s, [Function12(k + 8, 1)]);
    assert [Function12(k, 4)] + [Function12(k + 8, 1)] == [Function12(k, 4), Function12(k + 8, 1)];
  }

  // ---- the file ----

  predicate Example(d: seq<byte>) {
    && |d| == 28 && d[0] == 0x42 && d[1] == 0x43 && d[2] == 0xC0 && d[3] == 0xDE
    && Entry(d, 4, 4) && Entry(d, 12, 1) && ZeroWord(d, 20) && ZeroWord(d, 24)
  }

  lemma TopItems(d: seq<byte>, f: Frame, sc: Scope, s: St)
    requires FrameOk(d, f) && f.top && !s.bad && s.p >= f.end
    ensures Items(d, f, sc, s) == s
  {}

  /** The top level of the file: the outer block, to the end. */
  lemma ExampleItems(d: seq<byte>, f: Frame, sc: Scope, s: St)
    requires Example(d) && FrameOk(d, f) && f.width == 2 && f.top && f.depth == 0 && f.end == 224
    requires !s.bad && s.blocks == [] && s.p == 32
    ensures Items(d, f, sc, s) == s.(p := 224, blocks := [Function12(4, 4), Function12(12, 1)])
  {
    var u := s.(p := 224, blocks := [Function12(4, 4), Function12(12, 1)]);
    OuterBlock(d, f, 4, s);
    assert [] + u.blocks == u.blocks;
    BlockItem(d, f, sc, 4, 4, s, u);
    TopItems(d, f, sc, u);
  }

  /** The parser accepts it, with one function block inside the other. */
  lemma ExampleNests(d: seq<byte>)
    requires Example(d)
    ensures ParsePlan(d) == Some(Plan([Function12(4, 4), Function12(12, 1)], [], 0))
    ensures FunctionsNest([Function12(4, 4), Function12(12, 1)])
  {
    ExampleItems(d, Frame(TOP, 2, 224, 0, true), Scope([], None), Start());
    var bs := [Function12(4, 4), Function12(12, 1)];
    assert bs[0].id == FUNCTION_BLOCK && bs[1].id == FUNCTION_BLOCK && Nested(bs[0], bs[1]);
  }

  lemma ExampleSpans(ss: seq<Span>)
    requires SpansFor(Plan([Function12(4, 4), Function12(12, 1)], [], 0), Functions, ss)
    ensures !TooLong(ss)
  {
    var p := Plan([Function12(4, 4), Function12(12, 1)], [], 0);
    var at :| Bodies(p.blocks, |p.blocks|, Wanted(p, Functions), ss, at);
    forall k | 0 <= k < |ss| ensures ss[k].len <= MAX_SPAN { assert at[k] == 0 || at[k] == 1; }
  }

  const MAGIC: seq<byte> := [0x42, 0x43, 0xC0, 0xDE]

  function EntryBytes(w: byte): seq<byte> { [0x31, 0x08, 0, 0, w, 0, 0, 0] }

  lemma ExampleBytes(d: seq<byte>)
    requires d == MAGIC + (EntryBytes(4) + (EntryBytes(1) + Zeros(8)))
    ensures Example(d)
  {
    assert d[4..12] == EntryBytes(4) && d[12..20] == EntryBytes(1) && d[20..28] == Zeros(8);
  }

  /** Parsed and accepted, the file cannot be cut by functions. */
  method NestedFunctions(chunk: seq<byte> -> seq<seq<byte>>) returns (d: seq<byte>, p: Plan, r: Outcome)
    requires Chunker(chunk)
    ensures |d| == 28 && ParsePlan(d) == Some(p) && FunctionsNest(p.blocks) && r == SpanBounds
  {
    d := MAGIC + (EntryBytes(4) + (EntryBytes(1) + Zeros(8)));
    ExampleBytes(d);
    ExampleNests(d);
    p := Plan([Function12(4, 4), Function12(12, 1)], [], 0);
    r := EncodeFunctions(d, p, chunk);
  }

  method EncodeFunctions(d: seq<byte>, p: Plan, chunk: seq<byte> -> seq<seq<byte>>) returns (r: Outcome)
    requires Chunker(chunk) && ParsePlan(d) == Some(p) && p == Plan([Function12(4, 4), Function12(12, 1)], [], 0) && FunctionsNest(p.blocks)
    ensures r == SpanBounds
  {
    ghost var ss;
    r, ss := Encode(d, p, Functions, chunk);
    ExampleSpans(ss);
  }
}
