/** The serialised recipe (carz3/rep.go, `MarshalParts` and `Unmarshal`): what is written and what it stands for. */
module CarRecipe {
  import opened Bytes
  import opened Varint
  import opened Sorting
  import opened CarCid
  import opened CarIndex
  import opened CarFormat

  // ---- the block table ----

  /** A distinct block that is not kept inline. */
  datatype Block = Block(sum: digest, len: nat)

  predicate Listed(order: seq<Block>, sum: digest) { exists k :: 0 <= k < |order| && order[k].sum == sum }

  /** The distinct blocks of the first `k` refs, in order of first use. */
  function FirstUse(refs: seq<Ref>, k: nat): seq<Block>
    requires k <= |refs|
  {
    if k == 0 then []
    else
      var o, r := FirstUse(refs, k - 1), refs[k - 1];
      if r.inline.None? && !Listed(o, r.sum) then o + [Block(r.sum, r.len)] else o
  }

  predicate SumLess(a: Block, b: Block) { LexLess(a.sum, b.sum) }

  function BlockOrder(refs: seq<Ref>, sorted: bool): (o: seq<Block>)
    ensures |o| == |FirstUse(refs, |refs|)|
  {
    if sorted then StableSort(SumLess, FirstUse(refs, |refs|)) else FirstUse(refs, |refs|)
  }

  /** Each digest occurs once. */
  predicate DistinctSums(order: seq<Block>) {
    forall i, j :: 0 <= i < j < |order| ==> order[i].sum != order[j].sum
  }

  /** The refs that are not inline with the same digest have the same length. */
  ghost predicate OneLength(refs: seq<Ref>) {
    forall i, j :: 0 <= i < |refs| && 0 <= j < |refs| && refs[i].inline.None? && refs[j].inline.None? && refs[i].sum == refs[j].sum
      ==> refs[i].len == refs[j].len
  }

  /** `b` is the block of one of the first `n` refs. */
  ghost predicate Used(refs: seq<Ref>, n: nat, b: Block)
    requires n <= |refs|
  {
    exists i :: 0 <= i < n && refs[i].inline.None? && b == Block(refs[i].sum, refs[i].len)
  }

  /** The table has each digest of the refs once, with the length of one of its refs. */
  ghost predicate TableSums(refs: seq<Ref>, n: nat, order: seq<Block>)
    requires n <= |refs|
  {
    && DistinctSums(order)
    && (forall i :: 0 <= i < n && refs[i].inline.None? ==> Listed(order, refs[i].sum))
    && (forall k :: 0 <= k < |order| ==> Used(refs, n, order[k]))
  }

  /** The table lists exactly the blocks of the refs. */
  ghost predicate TableOf(refs: seq<Ref>, n: nat, order: seq<Block>)
    requires n <= |refs|
  {
    && DistinctSums(order)
    && (forall i :: 0 <= i < n && refs[i].inline.None? ==> Block(refs[i].sum, refs[i].len) in order)
    && (forall k :: 0 <= k < |order| ==> Used(refs, n, order[k]))
  }

  lemma UsedLater(refs: seq<Ref>, n: nat, b: Block)
    requires n < |refs| && Used(refs, n, b)
    ensures Used(refs, n + 1, b)
  {
    var i :| 0 <= i < n && refs[i].inline.None? && b == Block(refs[i].sum, refs[i].len);
    assert refs[i].inline.None? && b == Block(refs[i].sum, refs[i].len);
  }

  /** Where equal digests mean equal lengths, the table has every block. */
  lemma OneLengthTable(refs: seq<Ref>, order: seq<Block>)
    requires OneLength(refs) && TableSums(refs, |refs|, order)
    ensures TableOf(refs, |refs|, order)
  {
    forall i | 0 <= i < |refs| && refs[i].inline.None? ensures Block(refs[i].sum, refs[i].len) in order {
      var k :| 0 <= k < |order| && order[k].sum == refs[i].sum;
      assert Used(refs, |refs|, order[k]);
      var j :| 0 <= j < |refs| && refs[j].inline.None? && order[k] == Block(refs[j].sum, refs[j].len);
      assert refs[j].len == refs[i].len;
    }
  }

  lemma {:induction false} FirstUseTable(refs: seq<Ref>, k: nat)
    requires k <= |refs|
    ensures TableSums(refs, k, FirstUse(refs, k))
  {
    if k > 0 {
      FirstUseTable(refs, k - 1);
      var o, r := FirstUse(refs, k - 1), refs[k - 1];
      forall j | 0 <= j < |o| ensures Used(refs, k, o[j]) { UsedLater(refs, k - 1, o[j]); }
      if r.inline.None? && !Listed(o, r.sum) {
        FreshBlock(o, Block(r.sum, r.len));
        ListedMore(refs, k - 1, o, Block(r.sum, r.len));
        assert Used(refs, k, Block(r.sum, r.len));
      }
    }
  }

  lemma ListedMore(refs: seq<Ref>, n: nat, o: seq<Block>, b: Block)
    requires n <= |refs| && forall i :: 0 <= i < n && refs[i].inline.None? ==> Listed(o, refs[i].sum)
    ensures Listed(o + [b], b.sum) && forall i :: 0 <= i < n && refs[i].inline.None? ==> Listed(o + [b], refs[i].sum)
  {
    assert (o + [b])[|o|] == b;
    forall i | 0 <= i < n && refs[i].inline.None? ensures Listed(o + [b], refs[i].sum) {
      var k :| 0 <= k < |o| && o[k].sum == refs[i].sum;
      assert (o + [b])[k] == o[k];
    }
  }

  lemma FreshBlock(o: seq<Block>, b: Block)
    requires DistinctSums(o) && !Listed(o, b.sum)
    ensures DistinctSums(o + [b])
  {}

  lemma TablePermuted(refs: seq<Ref>, n: nat, a: seq<Block>, b: seq<Block>)
    requires n <= |refs| && TableSums(refs, n, a) && multiset(a) == multiset(b)
    ensures TableSums(refs, n, b)
  {
    forall i, j | 0 <= i < j < |b| ensures b[i].sum != b[j].sum { DistinctPermuted(a, b, i, j); }
    forall k | 0 <= k < |b| ensures Used(refs, n, b[k]) {
      SameElements(a, b, b[k]);
      var l :| 0 <= l < |a| && a[l] == b[k];
    }
    forall i | 0 <= i < n && refs[i].inline.None? ensures Listed(b, refs[i].sum) {
      var l :| 0 <= l < |a| && a[l].sum == refs[i].sum;
      SameElements(a, b, a[l]);
      var k :| 0 <= k < |b| && b[k] == a[l];
    }
  }

  /** A permutation of distinct digests has distinct digests. */
  lemma DistinctPermuted(a: seq<Block>, b: seq<Block>, i: nat, j: nat)
    requires DistinctSums(a) && multiset(a) == multiset(b) && i < j < |b|
    ensures b[i].sum != b[j].sum
  {
    SameElements(a, b, b[i]);
    SameElements(a, b, b[j]);
    var k :| 0 <= k < |a| && a[k] == b[i];
    var l :| 0 <= l < |a| && a[l] == b[j];
    if b[i] == b[j] {
      TwiceCounts(b, i, j);
      OnceCounts(a, b[i]);
    }
  }

  /** The table of any recipe, in either order, lists its digests, and its blocks where equal digests mean equal lengths. */
  lemma OrderTable(refs: seq<Ref>, sorted: bool)
    ensures TableSums(refs, |refs|, BlockOrder(refs, sorted))
    ensures OneLength(refs) ==> TableOf(refs, |refs|, BlockOrder(refs, sorted))
  {
    FirstUseTable(refs, |refs|);
    if sorted { TablePermuted(refs, |refs|, FirstUse(refs, |refs|), BlockOrder(refs, sorted)); }
    if OneLength(refs) { OneLengthTable(refs, BlockOrder(refs, sorted)); }
  }

  lemma SumOrder()
    ensures WeakOrder(SumLess)
  {
    forall a, b | SumLess(a, b) ensures !SumLess(b, a) { LexAsymmetric(a.sum, b.sum); }
    forall a, b, c | !SumLess(a, b) && !SumLess(b, c) ensures !SumLess(a, c) { LexNegTransitive(a.sum, b.sum, c.sum); }
  }

  lemma {:induction false} SameSetSameBag(a: seq<Block>, b: seq<Block>)
    requires DistinctSums(a) && DistinctSums(b) && forall x :: x in a <==> x in b
    ensures multiset(a) == multiset(b)
  {
    forall x ensures multiset(a)[x] == multiset(b)[x] {
      OnceCounts(a, x);
      OnceCounts(b, x);
    }
  }

  lemma SameSum(x: seq<Block>, p: Block, q: Block)
    requires DistinctSums(x) && p in x && q in x && !SumLess(p, q) && !SumLess(q, p)
    ensures p == q
  {
    LexTotal(p.sum, q.sum);
    var i :| 0 <= i < |x| && x[i] == p;
    var j :| 0 <= j < |x| && x[j] == q;
  }

  /** Sorted, the table depends only on the set of blocks, not on the order of the sections. */
  lemma SortedTableUnique(s: seq<Ref>, t: seq<Ref>)
    requires forall b :: b in FirstUse(s, |s|) <==> b in FirstUse(t, |t|)
    ensures BlockOrder(s, true) == BlockOrder(t, true)
  {
    var a, b := FirstUse(s, |s|), FirstUse(t, |t|);
    FirstUseTable(s, |s|);
    FirstUseTable(t, |t|);
    SameSetSameBag(a, b);
    SumOrder();
    SortSorted(SumLess, a);
    SortSorted(SumLess, b);
    var x := StableSort(SumLess, a);
    TablePermuted(s, |s|, a, x);
    forall p, q | p in x && q in x && !SumLess(p, q) && !SumLess(q, p) ensures p == q { SameSum(x, p, q); }
    SortedUnique(SumLess, x, StableSort(SumLess, b));
  }

  // ---- what is written ----

  function BlobThen(x: seq<byte>, rest: seq<byte>): seq<byte> { Uv(|x|) + (x + rest) }

  function ModeCode(m: IndexMode): byte { match m case NoIndex => 0 case Derived => 1 case Exact => 2 }

  function FlagByte(rep: Rep): byte { (if rep.v2 then 1 else 0) + 2 * ModeCode(rep.indexMode) }

  function HdrOrEmpty(rep: Rep): seq<byte> { if rep.hdrExact.Some? then rep.hdrExact.value else [] }

  function IndexThen(rep: Rep, rest: seq<byte>): seq<byte> {
    if rep.indexMode.Exact? then BlobThen(rep.indexBytes, rest) else rest
  }

  function WrapperThen(rep: Rep, rest: seq<byte>): seq<byte> {
    if rep.v2 then
      rep.characteristics
      + (Uv(rep.indexCodec) + BlobThen(rep.padBefore, BlobThen(rep.padAfter, BlobThen(HdrOrEmpty(rep), IndexThen(rep, rest)))))
    else rest
  }

  function PrefixesThen(ps: seq<seq<byte>>, k: nat, rest: seq<byte>): seq<byte>
    requires k <= |ps|
    decreases |ps| - k
  {
    if k == |ps| then rest else BlobThen(ps[k], PrefixesThen(ps, k + 1, rest))
  }

  function HeadThen(rep: Rep, rest: seq<byte>): seq<byte> {
    [1] + ([FlagByte(rep)] + BlobThen(rep.header, WrapperThen(rep, Uv(|rep.prefixes|) + PrefixesThen(rep.prefixes, 0, rest))))
  }

  function BlocksThen(order: seq<Block>, k: nat, rest: seq<byte>): seq<byte>
    requires k <= |order|
    decreases |order| - k
  {
    if k == |order| then rest else order[k].sum + (Uv(order[k].len) + BlocksThen(order, k + 1, rest))
  }

  function TableThen(order: seq<Block>, rest: seq<byte>): seq<byte> { Uv(|order|) + BlocksThen(order, 0, rest) }

  /** The table position of a digest. */
  function Position(order: seq<Block>, sum: digest): (k: nat)
    requires Listed(order, sum)
    ensures k < |order| && order[k].sum == sum
  {
    var n := |order| - 1;
    if order[n].sum == sum then n
    else
      assert Listed(order[..n], sum) by {
        var k :| 0 <= k < |order| && order[k].sum == sum;
        assert order[..n][k].sum == sum;
      }
      Position(order[..n], sum)
  }

  function CidThen(r: Ref, rest: seq<byte>): seq<byte> {
    if r.derived then Uv(r.prefix + 1) + rest else Uv(0) + BlobThen(r.cid, rest)
  }

  function RefThen(order: seq<Block>, r: Ref, rest: seq<byte>): seq<byte>
    requires r.inline.None? ==> Listed(order, r.sum)
  {
    if r.inline.Some? then Uv(0) + BlobThen(r.inline.value, CidThen(r, rest))
    else Uv(Position(order, r.sum) + 1) + CidThen(r, rest)
  }

  ghost predicate AllListed(order: seq<Block>, refs: seq<Ref>) {
    forall i :: 0 <= i < |refs| && refs[i].inline.None? ==> Listed(order, refs[i].sum)
  }

  ghost function RefsThen(order: seq<Block>, refs: seq<Ref>, k: nat, rest: seq<byte>): seq<byte>
    requires AllListed(order, refs) && k <= |refs|
    decreases |refs| - k
  {
    if k == |refs| then rest else RefThen(order, refs[k], RefsThen(order, refs, k + 1, rest))
  }

  ghost function TailBytes(order: seq<Block>, refs: seq<Ref>): seq<byte>
    requires AllListed(order, refs)
  {
    Uv(|refs|) + RefsThen(order, refs, 0, [])
  }

  /** The whole recipe: head, table, tail. */
  ghost function RecipeBytes(rep: Rep, order: seq<Block>): seq<byte>
    requires AllListed(order, rep.refs)
  {
    HeadThen(rep, TableThen(order, TailBytes(order, rep.refs)))
  }

  // ---- what can be written ----

  predicate RefWritable(sha: seq<byte> -> digest, prefixes: seq<seq<byte>>, r: Ref) {
    && RefOk(prefixes, r) && r.len < B63 && (r.derived ==> r.prefix < B63 - 1)
    && (r.inline.Some? ==> r.len == |r.inline.value| && r.sum == sha(r.inline.value))
    && |r.cid| < B63
  }

  /** A recipe of bounded sizes whose inline blocks are described by their refs, one length per digest. */
  ghost predicate Writable(sha: seq<byte> -> digest, rep: Rep) {
    && rep.Ok() && rep.indexCodec < B63 && OneLength(rep.refs)
    && |rep.header| < B63 && |rep.padBefore| < B63 && |rep.padAfter| < B63 && |HdrOrEmpty(rep)| < B63 && |rep.indexBytes| < B63
    && |rep.prefixes| < B63 - 1 && |rep.refs| < B63 - 1
    && (forall i :: 0 <= i < |rep.prefixes| ==> |rep.prefixes[i]| < B63)
    && (forall i :: 0 <= i < |rep.refs| ==> RefWritable(sha, rep.prefixes, rep.refs[i]))
  }

  // ---- what comes back ----

  /** An inline block of no bytes comes back as a block that is not inline. */
  function BackRef(r: Ref): Ref {
    Ref(r.sum, r.len, if r.derived then [] else r.cid, if r.derived then r.prefix else 0, r.derived, if r.inline == Some([]) then None else r.inline)
  }

  function BackRefs(refs: seq<Ref>): (r: seq<Ref>)
    ensures |r| == |refs| && forall i :: 0 <= i < |refs| ==> r[i] == BackRef(refs[i])
  {
    seq(|refs|, i requires 0 <= i < |refs| => BackRef(refs[i]))
  }

  /** The recipe as it is read back: fields that are not written are reset. */
  function ReadBack(rep: Rep): Rep
    requires |rep.characteristics| == 16
  {
    var refs := BackRefs(rep.refs);
    if rep.v2 then
      Rep(true, rep.header, rep.prefixes, refs, rep.characteristics, if HdrOrEmpty(rep) == [] then None else rep.hdrExact,
          rep.padBefore, rep.padAfter, rep.indexMode, rep.indexCodec, if rep.indexMode.Exact? then rep.indexBytes else [])
    else Rep(false, rep.header, rep.prefixes, refs, Zeros(16), None, [], [], rep.indexMode, 0, [])
  }

  lemma BackAlike(prefixes: seq<seq<byte>>, refs: seq<Ref>)
    requires RefsOk(prefixes, refs)
    ensures Alike(prefixes, refs, prefixes, BackRefs(refs), |refs|)
  {
    var back := BackRefs(refs);
    forall i | 0 <= i < |refs| ensures RefOk(prefixes, back[i]) && SameSection(prefixes, refs[i], prefixes, back[i]) {
      assert RefOk(prefixes, refs[i]);
    }
  }

  /**
   What is read back stands for the same archive, exactly unless the recipe of a CARv2 file
   keeps an empty (non-nil) verbatim header, which is read back as none.
   */
  lemma BackSameArchive(rep: Rep, blocks: seq<seq<byte>>)
    requires rep.Ok() && |blocks| == |rep.refs| && |rep.padBefore| < B63
    ensures ReadBack(rep).Ok()
    ensures Archive(ReadBack(rep), blocks) == Archive(rep, blocks) <==> !(rep.v2 && rep.hdrExact == Some([]))
  {
    var back := ReadBack(rep);
    BackAlike(rep.prefixes, rep.refs);
    StartAlike(rep.header, rep.prefixes, rep.refs, rep.prefixes, back.refs, |rep.refs|);
    BodyAlike(rep.prefixes, rep.refs, blocks, rep.prefixes, back.refs, blocks, |rep.refs|);
    RecsAlike(rep.indexCodec, rep.header, rep.prefixes, rep.refs, rep.prefixes, back.refs, |rep.refs|);
    if rep.v2 {
      assert Index(back) == Index(rep);
      if rep.hdrExact == Some([]) {
        EmptyHeaderDiffers(rep, back, blocks);
      } else {
        assert V2Header(back) == V2Header(rep);
      }
    }
  }

  /** Byte 27 on holds the data offset, which is never zero in a derived header. */
  lemma EmptyHeaderDiffers(rep: Rep, back: Rep, blocks: seq<seq<byte>>)
    requires rep.Ok() && back.Ok() && rep.v2 && back.v2 && rep.hdrExact == Some([]) && back.hdrExact == None
    requires |blocks| == |rep.refs| == |back.refs| && |back.padBefore| < B63
    ensures Archive(back, blocks) != Archive(rep, blocks)
  {
    HeaderAt(V2_PRAGMA, V2Header(rep), rep.padBefore, HeadBytes(rep.header), Body(rep.prefixes, rep.refs, blocks, |rep.refs|), CarFormat.Back(rep));
    HeaderAt(V2_PRAGMA, V2Header(back), back.padBefore, HeadBytes(back.header), Body(back.prefixes, back.refs, blocks, |back.refs|), CarFormat.Back(back));
    DerivedNotZero(back.characteristics, |back.padBefore|, PayloadSize(back), |back.padAfter|, !back.indexMode.NoIndex?);
    assert V2Header(rep) == Zeros(V2_HEADER_LEN);
  }

  lemma HeaderAt(p: seq<byte>, h: seq<byte>, a: seq<byte>, b: seq<byte>, c: seq<byte>, d: seq<byte>)
    requires |p| == 11 && |h| == V2_HEADER_LEN
    ensures var x := p + h + a + b + c + d; |x| >= 51 && x[11..51] == h
  {}

  lemma DerivedNotZero(ch: seq<byte>, padBefore: nat, size: nat, padAfter: nat, indexed: bool)
    requires |ch| == 16 && padBefore < B63
    ensures DeriveHeader(ch, padBefore, size, padAfter, indexed) != Zeros(V2_HEADER_LEN)
  {
    var h := DeriveHeader(ch, padBefore, size, padAfter, indexed);
    assert h[16..24] == U64LE(V2_FIXED + padBefore);
    assert Zeros(V2_HEADER_LEN)[16..24] == Zeros(8);
    ZerosAreZero(8);
  }

  lemma {:induction false} ZerosAreZero(n: nat)
    ensures LE(Zeros(n)) == 0
  {
    if n > 0 {
      ZerosAreZero(n - 1);
      assert Zeros(n)[1..] == Zeros(n - 1);
    }
  }
}
