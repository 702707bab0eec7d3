/**
 Parsing an archive into its exact recipe (carz3/rep.go `Build`, carz3/v1.go, carz3/v2.go).
 Whatever `Build` accepts, the recipe stands for exactly the input bytes.
 */
module CarBuild {
  import opened Bytes
  import opened Varint
  import opened CarVarint
  import opened CarCid
  import opened CarIndex
  import opened CarIndexCodec
  import opened CarFormat
  import opened CarReconstruct

  const MAX_PAD := 0x10_0000
  const MAX_INDEX := 0x4000_0000
  /** The bytes peeked for a CID. */
  const PEEK := 94

  datatype Limits = Limits(maxHeader: nat, maxBlocks: nat, maxBlock: nat, maxTotal: nat) {
    function MaxSection(): nat { maxBlock + 2 + 4 * MAX_VARINT + MAX_DIGEST }
  }

  datatype Verification = NotVerified | Verified | Mismatch

  datatype Options = Options(limits: Limits, inlineMax: int, lenient: bool, noDerive: bool)

  /** What the standard library provides: SHA-256, multihash verification, header acceptance. */
  datatype Env = Env(sha: seq<byte> -> digest, verify: (CID, seq<byte>) -> Verification, header: seq<byte> -> bool)

  // ---- the CARv1 stream ----

  datatype UvOutcome = Got(v: nat) | AtEnd | BadVarint

  datatype Entry = Entry(off: nat, cid: CID, data: seq<byte>)

  /** A section stands at its offset, and `next` follows it. */
  predicate EntryAt(b: seq<byte>, e: Entry, next: nat) {
    CidOk(e.cid) && Has(b, e.off, SectionBytes(e.cid.raw, e.data)) && next == e.off + |SectionBytes(e.cid.raw, e.data)|
  }

  datatype NextOutcome = Section(entry: Entry) | Eof | Rejected

  /** Byte `i` of a varint at `p`: only the last one is below 128. */
  lemma {:induction false} VarintDigits(b: seq<byte>, p: nat, v: nat, i: nat)
    requires Has(b, p, Uv(v)) && i < |Uv(v)|
    ensures p + i < |b| && (b[p + i] < 128 <==> i == |Uv(v)| - 1)
    decreases v
  {
    if v >= 128 {
      HasByte(b, p, v % 128 + 128, Uv(v / 128));
      if i > 0 { VarintDigits(b, p + 1, v / 128, i - 1); }
    }
  }

  lemma VarintEnds(b: seq<byte>, p: nat, v: nat)
    requires Has(b, p, Uv(v)) && v < B63
    ensures p + |Uv(v)| <= |b| && Canon(b, p, p + |Uv(v)|, 0) == Value(v, p + |Uv(v)|)
  {
    HasLength(b, p, Uv(v));
    LeftZero();
    CanonComplete(b, p, p + |Uv(v)|, v, 0);
  }

  lemma {:induction false} UvShort(v: nat, i: nat)
    requires i <= MAX_VARINT && v < Left(i)
    ensures |Uv(v)| <= if i == MAX_VARINT then 1 else MAX_VARINT - i
  {
    if v >= 128 { UvShort(v / 128, i + 1); }
  }

  /** Every accepted CID fits the peeked window. */
  lemma CidShort(c: CID)
    requires CidOk(c)
    ensures 0 < |c.raw| <= PEEK
  {
    LeftZero();
    UvShort(c.codec, 0);
    UvShort(c.hashCode, 0);
  }

  /** A section within the limits stands at `pos`. */
  predicate SectionAt(b: seq<byte>, lim: Limits, blocks: nat, pos: nat, c: CID, d: seq<byte>) {
    && CidOk(c) && Has(b, pos, SectionBytes(c.raw, d)) && |d| <= lim.maxBlock
    && |c.raw| + |d| < B63 && |c.raw| + |d| <= lim.MaxSection()
    && blocks < lim.maxBlocks && pos + |SectionBytes(c.raw, d)| <= lim.maxTotal
  }

  /** With limits and lengths of 63 bits, the two sums in the checks on a section may wrap; the checks come out the same. */
  lemma ChecksWrap(lim: Limits, size: nat, pos: nat, sl: nat)
    requires lim.maxBlock < B63 && lim.maxTotal < B63 && pos <= size < B63 && sl < B63
    ensures sl > Low64(lim.MaxSection()) <==> sl > lim.MaxSection()
    ensures ToI64(pos + sl) > lim.maxTotal || pos + sl > size <==> pos + sl > lim.maxTotal || pos + sl > size
  {}

  lemma SectionParts(b: seq<byte>, pos: nat, c: CID, d: seq<byte>)
    requires Has(b, pos, SectionBytes(c.raw, d))
    ensures var p := pos + |Uv(|c.raw| + |d|)|;
            Has(b, pos, Uv(|c.raw| + |d|)) && Has(b, p, c.raw) && Has(b, p + |c.raw|, d) && p + |c.raw| + |d| <= |b|
            && b[p + |c.raw|..p + |c.raw| + |d|] == d
  {
    HasSplit(b, pos, Uv(|c.raw| + |d|), c.raw + d);
    HasSplit(b, pos + |Uv(|c.raw| + |d|)|, c.raw, d);
    HasSlice(b, pos + |Uv(|c.raw| + |d|)| + |c.raw|, d);
  }

  class Reader {
    const b: seq<byte>
    const lim: Limits
    var pos: nat
    var blocks: nat

    ghost predicate Valid()
      reads this
    {
      pos <= |b|
    }

    constructor (b: seq<byte>, lim: Limits)
      ensures this.b == b && this.lim == lim && pos == 0 && blocks == 0 && Valid()
    {
      this.b, this.lim, pos, blocks := b, lim, 0, 0;
    }

    /** Reads a canonical varint byte by byte; a clean end of stream is allowed when `eofOk`. */
    method ReadUv(eofOk: bool, ghost good: bool, ghost want: nat) returns (r: UvOutcome)
      requires Valid() && (good ==> want < B63 && Has(b, pos, Uv(want)))
      modifies this`pos
      ensures Valid()
      ensures r.Got? ==> Has(b, old(pos), Uv(r.v)) && pos == old(pos) + |Uv(r.v)| && r.v < B63
      ensures !r.Got? ==> pos == old(pos)
      ensures r.AtEnd? <==> eofOk && old(pos) == |b|
      ensures good ==> r == Got(want)
    {
      if good {
        VarintDigits(b, pos, want, 0);
        LeftZero();
        UvShort(want, 0);
      }
      var i := 0;
      while i < MAX_VARINT
        invariant 0 <= i <= MAX_VARINT && pos == old(pos) && pos + i <= |b|
        invariant good ==> i < |Uv(want)|
      {
        if good { VarintDigits(b, pos, want, i); }
        if pos + i == |b| {
          return if i == 0 && eofOk then AtEnd else BadVarint;
        }
        if b[pos + i] < 128 {
          r := Finish(i, good, want);
          return;
        }
        i := i + 1;
      }
      return BadVarint;
    }

    /** Decodes the `i + 1` bytes of a varint that have been read. */
    method Finish(i: nat, ghost good: bool, ghost want: nat) returns (r: UvOutcome)
      requires Valid() && pos + i < |b|
      requires good ==> want < B63 && Has(b, pos, Uv(want)) && |Uv(want)| == i + 1
      modifies this`pos
      ensures Valid() && !r.AtEnd?
      ensures r.Got? ==> Has(b, old(pos), Uv(r.v)) && pos == old(pos) + |Uv(r.v)| && r.v < B63
      ensures !r.Got? ==> pos == old(pos)
      ensures good ==> r == Got(want)
    {
      if good { VarintEnds(b, pos, want); }
      var x := Uvarint(b, pos, pos + i + 1);
      if !x.Value? {
        return BadVarint;
      }
      pos := x.next;
      return Got(x.v);
    }

    /** The header: a non-empty body after its length. */
    method ReadHeader(accept: seq<byte> -> bool, ghost good: bool, ghost want: seq<byte>) returns (r: Option<seq<byte>>)
      requires Valid() && pos == 0
      requires good ==> Has(b, 0, HeadBytes(want)) && accept(want) && 0 < |want| <= lim.maxHeader && |want| < B63
      modifies this`pos
      ensures Valid()
      ensures r.Some? ==> r.value != [] && Has(b, 0, HeadBytes(r.value)) && pos == |HeadBytes(r.value)|
      ensures r.Some? ==> accept(r.value) && |r.value| <= lim.maxHeader
      ensures good ==> r == Some(want)
    {
      if good {
        HasSplit(b, 0, Uv(|want|), want);
        HasSlice(b, |Uv(|want|)|, want);
      }
      var n := ReadUv(false, good, |want|);
      if !n.Got? || n.v == 0 || n.v > lim.maxHeader || n.v > |b| - pos {
        return None;
      }
      var raw := b[pos..pos + n.v];
      if !accept(raw) {
        return None;
      }
      HasSlice(b, pos, raw);
      HasAppend(b, 0, Uv(n.v), raw);
      pos := pos + n.v;
      return Some(raw);
    }

    /** The next section; the CID is parsed from a bounded window that ends with the section. */
    method Next(ghost good: bool, ghost c: CID, ghost d: seq<byte>) returns (r: NextOutcome)
      requires Valid() && (good ==> SectionAt(b, lim, blocks, pos, c, d))
      modifies this
      ensures Valid()
      ensures r.Section? ==> r.entry.off == old(pos) && EntryAt(b, r.entry, pos) && |r.entry.data| <= lim.maxBlock && blocks <= lim.maxBlocks
      ensures blocks == old(blocks) + (if r.Section? then 1 else 0)
      ensures r.Eof? <==> old(pos) == |b|
      ensures r.Eof? ==> pos == old(pos)
      ensures good ==> r == Section(Entry(old(pos), c, d))
    {
      var off := pos;
      if good { SectionParts(b, pos, c, d); }
      var n := ReadUv(true, good, |c.raw| + |d|);
      if n.AtEnd? {
        return Eof;
      }
      if !n.Got? || n.v == 0 || n.v > lim.MaxSection() || blocks >= lim.maxBlocks || pos + n.v > lim.maxTotal {
        return Rejected;
      }
      r := ReadBody(off, n.v, good, c, d);
    }

    /** The CID and data of the section whose length `sl` has been read. */
    method ReadBody(off: nat, sl: nat, ghost good: bool, ghost c: CID, ghost d: seq<byte>) returns (r: NextOutcome)
      requires Valid() && off + |Uv(sl)| == pos && Has(b, off, Uv(sl))
      requires good ==> CidOk(c) && Has(b, pos, c.raw) && Has(b, pos + |c.raw|, d) && sl == |c.raw| + |d| && |d| <= lim.maxBlock
      modifies this
      ensures Valid()
      ensures r.Section? ==> r.entry.off == off && EntryAt(b, r.entry, pos) && |r.entry.data| <= lim.maxBlock
      ensures blocks == old(blocks) + (if r.Section? then 1 else 0)
      ensures !r.Eof?
      ensures good ==> r == Section(Entry(off, c, d))
    {
      var window := if sl < PEEK then sl else PEEK;
      var end := if pos + window <= |b| then pos + window else |b|;
      if good {
        CidShort(c);
        HasLength(b, pos, c.raw);
        CidInIs(c, b, pos, end);
        HasSlice(b, pos + |c.raw|, d);
      }
      var cid := ParseCID(b, pos, end);
      if cid.None? {
        return Rejected;
      }
      var cl := |cid.value.raw|;
      if sl - cl > lim.maxBlock || pos + sl > |b| {
        return Rejected;
      }
      var data := b[pos + cl..pos + sl];
      SectionHere(b, off, sl, pos, cid.value.raw, data);
      pos := pos + sl;
      blocks := blocks + 1;
      return Section(Entry(off, cid.value, data));
    }
  }

  lemma SectionHere(b: seq<byte>, off: nat, sl: nat, pos: nat, raw: seq<byte>, data: seq<byte>)
    requires Has(b, off, Uv(sl)) && pos == off + |Uv(sl)| && Has(b, pos, raw) && |raw| <= sl && pos + sl <= |b| && data == b[pos + |raw|..pos + sl]
    ensures Has(b, off, SectionBytes(raw, data)) && pos + sl == off + |SectionBytes(raw, data)|
  {
    HasSlice(b, pos + |raw|, data);
    HasAppend(b, pos, raw, data);
    HasAppend(b, off, Uv(sl), raw + data);
  }

  // ---- the CARv2 wrapper ----

  datatype V2 = V2(headerRaw: seq<byte>, dataOffset: nat, dataSize: nat, padBefore: seq<byte>, padAfter: seq<byte>, indexRaw: Option<seq<byte>>)

  function IndexOrEmpty(v: V2): seq<byte> { if v.indexRaw.Some? then v.indexRaw.value else [] }

  /** The wrapper pieces and the payload make up the whole file. */
  ghost predicate Wraps(v: V2, src: seq<byte>) {
    && |v.headerRaw| == V2_HEADER_LEN && v.dataOffset == V2_FIXED + |v.padBefore| && v.dataOffset + v.dataSize <= |src|
    && src == V2_PRAGMA + v.headerRaw + v.padBefore + src[v.dataOffset..v.dataOffset + v.dataSize] + (v.padAfter + IndexOrEmpty(v))
  }

  predicate IsV2(src: seq<byte>) { |src| >= |V2_PRAGMA| && src[..|V2_PRAGMA|] == V2_PRAGMA }

  lemma FileSplits(src: seq<byte>, a: nat, b: nat, c: nat, d: nat, e: nat)
    requires a <= b <= c <= d <= e <= |src|
    ensures src == src[..a] + src[a..b] + src[b..c] + src[c..d] + (src[d..e] + src[e..])
  {}

  lemma WrapsLayout(v: V2, src: seq<byte>, o: nat, dataEnd: nat, tailEnd: nat)
    requires IsV2(src) && V2_FIXED <= o <= dataEnd <= tailEnd <= |src|
    requires v == V2(src[11..V2_FIXED], o, dataEnd - o, src[V2_FIXED..o], src[dataEnd..tailEnd], v.indexRaw) && IndexOrEmpty(v) == src[tailEnd..]
    ensures Wraps(v, src)
  {
    FileSplits(src, 11, V2_FIXED, o, dataEnd, tailEnd);
  }

  /** The header's offsets describe a layout of the file, with bounded padding and index. */
  predicate LayoutOk(src: seq<byte>) {
    |src| >= V2_FIXED && OffsetsOk(|src|, ReadU64(src[27..35]), ReadU64(src[35..43]), ReadU64(src[43..51]))
  }

  predicate OffsetsOk(size: nat, o: nat, n: nat, x: nat) {
    && V2_FIXED <= o && o + n <= size && o - V2_FIXED <= MAX_PAD
    && (if x == 0 then size - (o + n) <= MAX_PAD
        else o + n <= x <= size && x - (o + n) <= MAX_PAD && size - x <= MAX_INDEX)
  }

  /** The CARv1 payload of a laid-out file. */
  function PayloadOf(src: seq<byte>): seq<byte>
    requires LayoutOk(src)
  {
    src[ReadU64(src[27..35])..ReadU64(src[27..35]) + ReadU64(src[35..43])]
  }

  predicate HasIndex(src: seq<byte>)
    requires LayoutOk(src)
  {
    ReadU64(src[43..51]) != 0
  }

  /** The index of a laid-out file. */
  function IndexPart(src: seq<byte>): seq<byte>
    requires LayoutOk(src) && HasIndex(src)
  {
    src[ReadU64(src[43..51])..]
  }

  /** Validates the wrapper and keeps every non-payload byte. */
  method ParseV2(src: seq<byte>) returns (r: Option<V2>)
    requires IsV2(src) && |src| < B63
    ensures r.Some? <==> LayoutOk(src)
    ensures r.Some? ==> Wraps(r.value, src) && src[r.value.dataOffset..r.value.dataOffset + r.value.dataSize] == PayloadOf(src)
    ensures r.Some? ==> r.value.indexRaw == if HasIndex(src) then Some(IndexPart(src)) else None
  {
    if |src| < V2_FIXED {
      return None;
    }
    // The three offsets follow the 16 characteristics bytes of the header.
    var dataOffset, dataSize, indexOffset := ReadU64(src[27..35]), ReadU64(src[35..43]), ReadU64(src[43..51]);
    if dataOffset < V2_FIXED || dataOffset > |src| || dataSize > |src| - dataOffset {
      return None;
    }
    var dataEnd := dataOffset + dataSize;
    var tailEnd := |src|;
    if indexOffset != 0 {
      if indexOffset < dataEnd || indexOffset > |src| {
        return None;
      }
      tailEnd := indexOffset;
    }
    if dataOffset - V2_FIXED > MAX_PAD || tailEnd - dataEnd > MAX_PAD || (indexOffset != 0 && |src| - indexOffset > MAX_INDEX) {
      return None;
    }
    assert OffsetsOk(|src|, dataOffset, dataSize, indexOffset);
    var v := CutV2(src, dataOffset, dataEnd, tailEnd, indexOffset != 0);
    return Some(v);
  }

  /** The parts of the file around its payload. */
  method CutV2(src: seq<byte>, o: nat, dataEnd: nat, tailEnd: nat, indexed: bool) returns (v: V2)
    requires IsV2(src) && V2_FIXED <= o <= dataEnd <= tailEnd <= |src| && (!indexed ==> tailEnd == |src|)
    ensures Wraps(v, src) && v.dataOffset == o && v.dataSize == dataEnd - o && v.indexRaw == if indexed then Some(src[tailEnd..]) else None
  {
    v := V2(src[11..V2_FIXED], o, dataEnd - o, src[V2_FIXED..o], src[dataEnd..tailEnd], if indexed then Some(src[tailEnd..]) else None);
    WrapsLayout(v, src, o, dataEnd, tailEnd);
  }

  // ---- collecting the sections ----

  /** What the section loop builds. */
  datatype Parts = Parts(prefixes: seq<seq<byte>>, prefixIdx: map<seq<byte>, nat>, refs: seq<Ref>, recs: seq<IndexRec>)

  /** The index records carry the multihash code; the plain sorted index drops it. */
  function Adapt(codec: nat, recs: seq<IndexRec>): (r: seq<IndexRec>)
    ensures |r| == |recs|
  {
    if codec == MULTIHASH_INDEX_SORTED then recs
    else seq(|recs|, i requires 0 <= i < |recs| => IndexRec(0, recs[i].digest, recs[i].offset))
  }

  lemma {:induction false} AdaptRecs(codec: nat, header: seq<byte>, prefixes: seq<seq<byte>>, refs: seq<Ref>, k: nat)
    requires RefsOk(prefixes, refs) && k <= |refs|
    ensures Adapt(codec, IndexRecs(MULTIHASH_INDEX_SORTED, header, prefixes, refs, k)) == IndexRecs(codec, header, prefixes, refs, k)
  {
    if k > 0 { AdaptRecs(codec, header, prefixes, refs, k - 1); }
  }

  predicate TableOk(p: Parts) {
    forall x :: x in p.prefixIdx ==> p.prefixIdx[x] < |p.prefixes| && p.prefixes[p.prefixIdx[x]] == x
  }

  /** The stream read so far is the header and the sections of the refs, and the records are theirs. */
  ghost predicate Collected(sha: seq<byte> -> digest, b: seq<byte>, pos: nat, header: seq<byte>, p: Parts, blocks: seq<seq<byte>>, indexed: bool) {
    && RefsOk(p.prefixes, p.refs) && Matches(sha, p.refs, blocks) && TableOk(p)
    && Has(b, 0, HeadBytes(header) + Body(p.prefixes, p.refs, blocks, |p.refs|))
    && pos == SecStart(header, p.prefixes, p.refs, |p.refs|)
    && (indexed ==> p.recs == IndexRecs(MULTIHASH_INDEX_SORTED, header, p.prefixes, p.refs, |p.refs|))
  }

  /** A ref within `n` bytes; an inline block is described by its ref, and is not empty. */
  predicate NeatRef(sha: seq<byte> -> digest, prefixes: seq<seq<byte>>, r: Ref, n: nat) {
    && RefOk(prefixes, r) && r.len <= n && |r.cid| <= n
    && (r.inline.Some? ==> r.inline.value != [] && r.len == |r.inline.value| && r.sum == sha(r.inline.value))
  }

  /** Refs and prefixes that `n` bytes have room for. */
  ghost predicate Neat(sha: seq<byte> -> digest, prefixes: seq<seq<byte>>, refs: seq<Ref>, n: nat) {
    && |prefixes| <= |refs| && |refs| + 2 <= n
    && (forall i :: 0 <= i < |prefixes| ==> |prefixes[i]| <= n)
    && (forall i {:trigger NeatRef(sha, prefixes, refs[i], n)} :: 0 <= i < |refs| ==> NeatRef(sha, prefixes, refs[i], n))
  }

  /** One ref more, with at most one prefix more, described by `m` bytes. */
  ghost predicate NeatMore(sha: seq<byte> -> digest, p: Parts, q: Parts, r: Ref, m: nat) {
    && Grows(p.prefixes, q.prefixes) && |q.prefixes| <= |p.prefixes| + 1 && q.refs == p.refs + [r] && NeatRef(sha, q.prefixes, r, m)
    && (forall i :: |p.prefixes| <= i < |q.prefixes| ==> |q.prefixes[i]| <= m)
  }

  lemma NeatStep(sha: seq<byte> -> digest, p: Parts, q: Parts, r: Ref, n: nat, m: nat)
    requires Neat(sha, p.prefixes, p.refs, n) && NeatMore(sha, p, q, r, m) && m > 0
    ensures Neat(sha, q.prefixes, q.refs, n + m)
  {
    forall i | 0 <= i < |q.prefixes| ensures |q.prefixes[i]| <= n + m {
      if i < |p.prefixes| { assert q.prefixes[i] == p.prefixes[i]; }
    }
    forall i | 0 <= i < |q.refs| ensures NeatRef(sha, q.prefixes, q.refs[i], n + m) {
      if i < |p.refs| { assert NeatRef(sha, p.prefixes, p.refs[i], n); }
    }
  }

  /** A ref for `e`: its CID is exact, whether kept or derived. */
  ghost predicate Describes(sha: seq<byte> -> digest, prefixes: seq<seq<byte>>, r: Ref, e: Entry) {
    RefOk(prefixes, r) && Fits(sha, r, e.data) && CidBytes(prefixes, r) == e.cid.raw
  }

  lemma BodyAppend(sha: seq<byte> -> digest, header: seq<byte>, p: Parts, q: Parts, blocks: seq<seq<byte>>, r: Ref, e: Entry)
    requires RefsOk(p.prefixes, p.refs) && Matches(sha, p.refs, blocks) && Grows(p.prefixes, q.prefixes)
    requires q.refs == p.refs + [r] && Describes(sha, q.prefixes, r, e)
    ensures RefsOk(q.prefixes, q.refs) && Matches(sha, q.refs, blocks + [e.data])
    ensures Body(q.prefixes, q.refs, blocks + [e.data], |q.refs|)
         == Body(p.prefixes, p.refs, blocks, |p.refs|) + SectionBytes(e.cid.raw, e.data)
    ensures SecStart(header, q.prefixes, q.refs, |q.refs|)
         == SecStart(header, p.prefixes, p.refs, |p.refs|) + |SectionBytes(e.cid.raw, e.data)|
  {
    GrowsAlike(p.prefixes, p.refs, q.prefixes, q.refs);
    BodyAlike(p.prefixes, p.refs, blocks, q.prefixes, q.refs, blocks + [e.data], |p.refs|);
    StartAlike(header, p.prefixes, p.refs, q.prefixes, q.refs, |p.refs|);
  }

  lemma RecsAppend(sha: seq<byte> -> digest, header: seq<byte>, p: Parts, q: Parts, r: Ref, e: Entry)
    requires RefsOk(p.prefixes, p.refs) && RefsOk(q.prefixes, q.refs) && Grows(p.prefixes, q.prefixes)
    requires q.refs == p.refs + [r] && Describes(sha, q.prefixes, r, e) && CidOk(e.cid)
    ensures IndexRecs(MULTIHASH_INDEX_SORTED, header, q.prefixes, q.refs, |q.refs|)
         == Append(IndexRecs(MULTIHASH_INDEX_SORTED, header, p.prefixes, p.refs, |p.refs|),
                   EntryRec(e.cid, SecStart(header, p.prefixes, p.refs, |p.refs|)))
  {
    GrowsAlike(p.prefixes, p.refs, q.prefixes, q.refs);
    RecsAlike(MULTIHASH_INDEX_SORTED, header, p.prefixes, p.refs, q.prefixes, q.refs, |p.refs|);
    StartAlike(header, p.prefixes, p.refs, q.prefixes, q.refs, |p.refs|);
    assert q.refs[|p.refs|] == r && CidBytes(q.prefixes, r) == e.cid.raw;
    EntryRecIs(e.cid, SecStart(header, q.prefixes, q.refs, |p.refs|));
  }

  lemma EntryRecIs(c: CID, off: nat)
    requires CidOk(c)
    ensures RecOf(MULTIHASH_INDEX_SORTED, c.raw, off) == EntryRec(c, off)
  {
    HasSlice(c.raw, 0, c.raw);
    CidInIs(c, c.raw, 0, |c.raw|);
  }

  function EntryRec(c: CID, off: nat): Option<IndexRec> {
    if c.hashCode == MH_IDENTITY then None else Some(IndexRec(Low64(c.hashCode), c.digest, Low64(off)))
  }

  lemma CollectedStep(sha: seq<byte> -> digest, b: seq<byte>, header: seq<byte>, p: Parts, q: Parts, blocks: seq<seq<byte>>, indexed: bool,
                      r: Ref, e: Entry, pos: nat)
    requires Collected(sha, b, e.off, header, p, blocks, indexed) && EntryAt(b, e, pos)
    requires Grows(p.prefixes, q.prefixes) && q.refs == p.refs + [r] && Describes(sha, q.prefixes, r, e) && TableOk(q)
    requires q.recs == if indexed then Append(p.recs, EntryRec(e.cid, e.off)) else p.recs
    ensures Collected(sha, b, pos, header, q, blocks + [e.data], indexed)
  {
    BodyLength(sha, header, p.prefixes, p.refs, blocks, |p.refs|);
    BodyAppend(sha, header, p, q, blocks, r, e);
    RecsAppend(sha, header, p, q, r, e);
    HasMore(b, HeadBytes(header), Body(p.prefixes, p.refs, blocks, |p.refs|), SectionBytes(e.cid.raw, e.data));
  }

  lemma HasMore(b: seq<byte>, x: seq<byte>, y: seq<byte>, z: seq<byte>)
    requires Has(b, 0, x + y) && Has(b, |x| + |y|, z)
    ensures Has(b, 0, x + (y + z))
  {
    HasAppend(b, 0, x + y, z);
    Glue(x, y, z);
  }

  /** Whether a CID is its prefix followed by the block's SHA-256. */
  predicate Derivable(c: CID, sum: digest) { c.hashCode == MH_SHA2_256 && |c.digest| == 32 && c.digest == sum }

  lemma DerivedCid(c: CID, sum: digest)
    requires CidOk(c) && Derivable(c, sum)
    ensures c.raw[..c.prefix] + sum == c.raw
  {
    if c.version == 0 {
      assert c.raw[..2] == [MH_SHA2_256, 0x20];
    } else {
      var u := Uv(1) + (Uv(c.codec) + (Uv(c.hashCode) + Uv(|c.digest|)));
      Glue(Uv(1), Uv(c.codec) + (Uv(c.hashCode) + Uv(|c.digest|)), c.digest);
      Glue(Uv(c.codec), Uv(c.hashCode) + Uv(|c.digest|), c.digest);
      Glue(Uv(c.hashCode), Uv(|c.digest|), c.digest);
      assert c.raw == u + c.digest;
      assert c.raw[..c.prefix] == u;
    }
  }

  /** The CID of a ref: derived from a table of prefixes when possible, otherwise kept. */
  method Encode(env: Env, opt: Options, p: Parts, e: Entry, indexed: bool) returns (q: Parts, ghost r: Ref)
    requires TableOk(p) && CidOk(e.cid)
    ensures Grows(p.prefixes, q.prefixes) && q.refs == p.refs + [r] && Describes(env.sha, q.prefixes, r, e) && TableOk(q)
    ensures q.recs == if indexed then Append(p.recs, EntryRec(e.cid, e.off)) else p.recs
    ensures NeatMore(env.sha, p, q, r, |SectionBytes(e.cid.raw, e.data)|)
  {
    var sum := env.sha(e.data);
    // An empty block is never kept inline: copying no bytes leaves nil.
    var inline := if |e.data| < opt.inlineMax && e.data != [] then Some(e.data) else None;
    q := p;
    if !opt.noDerive && Derivable(e.cid, sum) {
      DerivedCid(e.cid, sum);
      var x := e.cid.raw[..e.cid.prefix];
      var k := |p.prefixes|;
      if x in p.prefixIdx {
        k := p.prefixIdx[x];
      } else {
        q := q.(prefixes := p.prefixes + [x], prefixIdx := p.prefixIdx[x := k]);
      }
      var ref := Ref(sum, |e.data|, [], k, true, inline);
      r := ref;
      q := q.(refs := p.refs + [ref]);
    } else {
      var ref := Ref(sum, |e.data|, e.cid.raw, 0, false, inline);
      r := ref;
      q := q.(refs := p.refs + [ref]);
    }
    if indexed && e.cid.hashCode != MH_IDENTITY {
      q := q.(recs := p.recs + [IndexRec(Low64(e.cid.hashCode), e.cid.digest, Low64(e.off))]);
    }
  }

  /** The sections from `k` on. */
  function SectionsFrom(cs: seq<CID>, ds: seq<seq<byte>>, k: nat): seq<byte>
    requires k <= |cs| == |ds|
    decreases |cs| - k
  {
    if k == |cs| then [] else SectionBytes(cs[k].raw, ds[k]) + SectionsFrom(cs, ds, k + 1)
  }

  /** Where section `k` of a stream starts. */
  function StreamPos(h: seq<byte>, cs: seq<CID>, ds: seq<seq<byte>>, k: nat): nat
    requires k <= |cs| == |ds|
  {
    if k == 0 then |HeadBytes(h)| else StreamPos(h, cs, ds, k - 1) + |SectionBytes(cs[k - 1].raw, ds[k - 1])|
  }

  /** The index records of the first `k` sections of a stream. */
  function StreamRecs(h: seq<byte>, cs: seq<CID>, ds: seq<seq<byte>>, k: nat): seq<IndexRec>
    requires k <= |cs| == |ds|
  {
    if k == 0 then [] else Append(StreamRecs(h, cs, ds, k - 1), EntryRec(cs[k - 1], StreamPos(h, cs, ds, k - 1)))
  }

  lemma {:induction false} StreamRecsShort(h: seq<byte>, cs: seq<CID>, ds: seq<seq<byte>>, k: nat)
    requires k <= |cs| == |ds| && forall i :: 0 <= i < |cs| ==> CidOk(cs[i])
    ensures |StreamRecs(h, cs, ds, k)| <= k
    ensures forall i :: 0 <= i < |StreamRecs(h, cs, ds, k)| ==> |StreamRecs(h, cs, ds, k)[i].digest| <= MAX_DIGEST
  {
    if k > 0 { StreamRecsShort(h, cs, ds, k - 1); }
  }

  /** A stream of well-formed sections within the limits, whose blocks match their CIDs unless mismatches are allowed. */
  ghost predicate Acceptable(env: Env, opt: Options, b: seq<byte>, h: seq<byte>, cs: seq<CID>, ds: seq<seq<byte>>) {
    && |cs| == |ds| <= opt.limits.maxBlocks && b == HeadBytes(h) + SectionsFrom(cs, ds, 0) && |b| <= opt.limits.maxTotal && |b| < B63
    && env.header(h) && 0 < |h| <= opt.limits.maxHeader
    && (forall i :: 0 <= i < |cs| ==> CidOk(cs[i]) && |ds[i]| <= opt.limits.maxBlock)
    && (forall i :: 0 <= i < |cs| ==> opt.lenient || env.verify(cs[i], ds[i]) != Mismatch)
  }

  lemma NextSection(env: Env, opt: Options, b: seq<byte>, h: seq<byte>, cs: seq<CID>, ds: seq<seq<byte>>, k: nat, pos: nat)
    requires Acceptable(env, opt, b, h, cs, ds) && k < |cs| && Ends(b, pos, SectionsFrom(cs, ds, k))
    ensures SectionAt(b, opt.limits, k, pos, cs[k], ds[k])
    ensures Ends(b, pos + |SectionBytes(cs[k].raw, ds[k])|, SectionsFrom(cs, ds, k + 1))
  {
    EndsSplit(b, pos, SectionBytes(cs[k].raw, ds[k]), SectionsFrom(cs, ds, k + 1));
    CidShort(cs[k]);
  }

  /** The sections read so far, by CID and block, have passed every check, and the refs have their CIDs. */
  ghost predicate Passed(env: Env, opt: Options, p: Parts, taken: seq<CID>, blocks: seq<seq<byte>>) {
    && RefsOk(p.prefixes, p.refs) && |taken| == |blocks| == |p.refs| && |blocks| <= opt.limits.maxBlocks
    && (forall i {:trigger PassedAt(env, opt, p, taken, blocks, i)} :: 0 <= i < |blocks| ==> PassedAt(env, opt, p, taken, blocks, i))
  }

  ghost predicate PassedAt(env: Env, opt: Options, p: Parts, taken: seq<CID>, blocks: seq<seq<byte>>, i: nat)
    requires RefsOk(p.prefixes, p.refs) && i < |taken| == |blocks| == |p.refs|
  {
    && CidOk(taken[i]) && |blocks[i]| <= opt.limits.maxBlock && (opt.lenient || env.verify(taken[i], blocks[i]) != Mismatch)
    && RefOk(p.prefixes, p.refs[i]) && CidBytes(p.prefixes, p.refs[i]) == taken[i].raw
  }

  lemma PassedStep(env: Env, opt: Options, p: Parts, q: Parts, taken: seq<CID>, blocks: seq<seq<byte>>, r: Ref, e: Entry)
    requires Passed(env, opt, p, taken, blocks) && |blocks| < opt.limits.maxBlocks
    requires Grows(p.prefixes, q.prefixes) && q.refs == p.refs + [r] && RefsOk(q.prefixes, q.refs) && Describes(env.sha, q.prefixes, r, e)
    requires CidOk(e.cid) && |e.data| <= opt.limits.maxBlock && (opt.lenient || env.verify(e.cid, e.data) != Mismatch)
    ensures Passed(env, opt, q, taken + [e.cid], blocks + [e.data])
  {
    forall i | 0 <= i < |q.refs| ensures PassedAt(env, opt, q, taken + [e.cid], blocks + [e.data], i) {
      assert RefOk(q.prefixes, q.refs[i]);
      if i < |p.refs| { assert PassedAt(env, opt, p, taken, blocks, i) && q.refs[i] == p.refs[i]; }
    }
  }

  /** The sections of the refs are those of the CIDs. */
  lemma {:induction false} PassedBody(env: Env, opt: Options, p: Parts, taken: seq<CID>, blocks: seq<seq<byte>>, k: nat)
    requires Passed(env, opt, p, taken, blocks) && k <= |blocks|
    ensures Body(p.prefixes, p.refs, blocks, k) + SectionsFrom(taken, blocks, k) == SectionsFrom(taken, blocks, 0)
  {
    if k == 0 {
      assert [] + SectionsFrom(taken, blocks, 0) == SectionsFrom(taken, blocks, 0);
    } else {
      PassedBody(env, opt, p, taken, blocks, k - 1);
      assert PassedAt(env, opt, p, taken, blocks, k - 1);
      Glue(Body(p.prefixes, p.refs, blocks, k - 1), SectionBytes(taken[k - 1].raw, blocks[k - 1]), SectionsFrom(taken, blocks, k));
    }
  }

  /** A stream that was read to its end is acceptable. */
  lemma PassedAcceptable(env: Env, opt: Options, b: seq<byte>, header: seq<byte>, p: Parts, taken: seq<CID>, blocks: seq<seq<byte>>, indexed: bool)
    requires Collected(env.sha, b, |b|, header, p, blocks, indexed) && Passed(env, opt, p, taken, blocks)
    requires env.header(header) && 0 < |header| <= opt.limits.maxHeader && |b| <= opt.limits.maxTotal && |b| < B63
    ensures Acceptable(env, opt, b, header, taken, blocks)
  {
    PayloadIs(env.sha, b, header, p, blocks, indexed);
    var n := |blocks|;
    PassedBody(env, opt, p, taken, blocks, n);
    assert SectionsFrom(taken, blocks, n) == [];
    assert Body(p.prefixes, p.refs, blocks, n) + [] == Body(p.prefixes, p.refs, blocks, n);
    forall i | 0 <= i < n ensures CidOk(taken[i]) && |blocks[i]| <= opt.limits.maxBlock && (opt.lenient || env.verify(taken[i], blocks[i]) != Mismatch) {
      assert PassedAt(env, opt, p, taken, blocks, i);
    }
  }

  /** The reader follows the stream of `cs` and `ds`. */
  ghost predicate Following(b: seq<byte>, h: seq<byte>, cs: seq<CID>, ds: seq<seq<byte>>, pos: nat, n: nat, blocks: seq<seq<byte>>,
                            indexed: bool, recs: seq<IndexRec>) {
    && |cs| == |ds| && |blocks| == n <= |cs| && Ends(b, pos, SectionsFrom(cs, ds, n)) && (forall i :: 0 <= i < n ==> blocks[i] == ds[i])
    && pos == StreamPos(h, cs, ds, n) && (indexed ==> recs == StreamRecs(h, cs, ds, n))
  }

  /** The reader stands after the collected sections. */
  ghost predicate Reading(rd: Reader, env: Env, opt: Options, header: seq<byte>, p: Parts, indexed: bool, taken: seq<CID>, blocks: seq<seq<byte>>,
                          good: bool, h0: seq<byte>, cs: seq<CID>, ds: seq<seq<byte>>)
    reads rd
  {
    && rd.Valid() && rd.lim == opt.limits && rd.blocks == |blocks| && Passed(env, opt, p, taken, blocks)
    && Collected(env.sha, rd.b, rd.pos, header, p, blocks, indexed) && Neat(env.sha, p.prefixes, p.refs, rd.pos)
    && (good ==> Following(rd.b, h0, cs, ds, rd.pos, |blocks|, blocks, indexed, p.recs))
  }

  datatype Step = More | Done | Fail

  method AddSection(env: Env, opt: Options, p: Parts, e: Entry, indexed: bool, ghost b: seq<byte>, ghost header: seq<byte>,
                    ghost taken: seq<CID>, ghost blocks: seq<seq<byte>>, ghost pos: nat)
    returns (q: Parts)
    requires Collected(env.sha, b, e.off, header, p, blocks, indexed) && EntryAt(b, e, pos) && Neat(env.sha, p.prefixes, p.refs, e.off)
    requires Passed(env, opt, p, taken, blocks) && |blocks| < opt.limits.maxBlocks
    requires |e.data| <= opt.limits.maxBlock && (opt.lenient || env.verify(e.cid, e.data) != Mismatch)
    ensures Collected(env.sha, b, pos, header, q, blocks + [e.data], indexed) && Neat(env.sha, q.prefixes, q.refs, pos)
    ensures Passed(env, opt, q, taken + [e.cid], blocks + [e.data])
    ensures q.recs == if indexed then Append(p.recs, EntryRec(e.cid, e.off)) else p.recs
  {
    ghost var r;
    q, r := Encode(env, opt, p, e, indexed);
    CollectedStep(env.sha, b, header, p, q, blocks, indexed, r, e, pos);
    NeatStep(env.sha, p, q, r, e.off, |SectionBytes(e.cid.raw, e.data)|);
    PassedStep(env, opt, p, q, taken, blocks, r, e);
  }

  /** The section just read joins the parts. */
  method TakeSection(rd: Reader, env: Env, opt: Options, header: seq<byte>, p: Parts, e: Entry, indexed: bool, ghost taken: seq<CID>,
                     ghost blocks: seq<seq<byte>>, ghost good: bool, ghost h0: seq<byte>, ghost cs: seq<CID>, ghost ds: seq<seq<byte>>)
    returns (q: Parts)
    requires rd.Valid() && rd.lim == opt.limits && rd.blocks == |blocks| + 1 <= opt.limits.maxBlocks && EntryAt(rd.b, e, rd.pos)
    requires Collected(env.sha, rd.b, e.off, header, p, blocks, indexed) && Neat(env.sha, p.prefixes, p.refs, e.off)
    requires Passed(env, opt, p, taken, blocks) && |e.data| <= opt.limits.maxBlock && (opt.lenient || env.verify(e.cid, e.data) != Mismatch)
    requires good ==>
      && Acceptable(env, opt, rd.b, h0, cs, ds) && Following(rd.b, h0, cs, ds, e.off, |blocks|, blocks, indexed, p.recs)
      && |blocks| < |cs| && e == Entry(e.off, cs[|blocks|], ds[|blocks|])
    ensures Reading(rd, env, opt, header, q, indexed, taken + [e.cid], blocks + [e.data], good, h0, cs, ds)
  {
    q := AddSection(env, opt, p, e, indexed, rd.b, header, taken, blocks, rd.pos);
    if good { FollowOn(env, opt, rd.b, h0, cs, ds, |blocks|, e.off, blocks, indexed, p.recs, rd.pos); }
  }

  /** One section: read, verified, and described by a new ref. */
  method CollectNext(rd: Reader, env: Env, opt: Options, header: seq<byte>, p: Parts, indexed: bool, ghost taken: seq<CID>,
                     ghost blocks: seq<seq<byte>>, ghost good: bool, ghost h0: seq<byte>, ghost cs: seq<CID>, ghost ds: seq<seq<byte>>)
    returns (s: Step, q: Parts, ghost taken': seq<CID>, ghost blocks': seq<seq<byte>>)
    requires Reading(rd, env, opt, header, p, indexed, taken, blocks, good, h0, cs, ds) && (good ==> Acceptable(env, opt, rd.b, h0, cs, ds))
    modifies rd
    ensures !s.Fail? ==> Reading(rd, env, opt, header, q, indexed, taken', blocks', good, h0, cs, ds)
    ensures s.Done? ==> rd.pos == |rd.b|
    ensures s.More? ==> rd.pos > old(rd.pos)
    ensures good ==> !s.Fail?
  {
    ghost var k, at := |blocks|, rd.pos;
    ghost var more := good && k < |cs|;
    if good { Upcoming(env, opt, rd.b, h0, cs, ds, k, at, blocks, indexed, p.recs); }
    var n := rd.Next(more, if more then cs[k] else CID([], 0, 0, 0, [], 0), if more then ds[k] else []);
    match n {
      case Eof => return Done, p, taken, blocks;
      case Rejected => return Fail, p, taken, blocks;
      case Section(e) =>
        if env.verify(e.cid, e.data) == Mismatch && !opt.lenient {
          return Fail, p, taken, blocks;
        }
        q := TakeSection(rd, env, opt, header, p, e, indexed, taken, blocks, good, h0, cs, ds);
        return More, q, taken + [e.cid], blocks + [e.data];
    }
  }

  /** The stream either ends here or goes on with its next section. */
  lemma Upcoming(env: Env, opt: Options, b: seq<byte>, h: seq<byte>, cs: seq<CID>, ds: seq<seq<byte>>, k: nat, pos: nat, blocks: seq<seq<byte>>,
                 indexed: bool, recs: seq<IndexRec>)
    requires Acceptable(env, opt, b, h, cs, ds) && Following(b, h, cs, ds, pos, k, blocks, indexed, recs)
    ensures k == |cs| ==> pos == |b|
    ensures k < |cs| ==>
      pos < |b| && SectionAt(b, opt.limits, k, pos, cs[k], ds[k]) && (opt.lenient || env.verify(cs[k], ds[k]) != Mismatch)
  {
    if k < |cs| {
      NextSection(env, opt, b, h, cs, ds, k, pos);
      CidShort(cs[k]);
      HasLength(b, pos, SectionBytes(cs[k].raw, ds[k]));
    }
  }

  lemma StreamStep(h: seq<byte>, cs: seq<CID>, ds: seq<seq<byte>>, k: nat, n: nat)
    requires k < |cs| == |ds| && n == k + 1
    ensures StreamPos(h, cs, ds, n) == StreamPos(h, cs, ds, k) + |SectionBytes(cs[k].raw, ds[k])|
    ensures StreamRecs(h, cs, ds, n) == Append(StreamRecs(h, cs, ds, k), EntryRec(cs[k], StreamPos(h, cs, ds, k)))
  {}

  /** A section further along the stream. */
  lemma FollowOn(env: Env, opt: Options, b: seq<byte>, h: seq<byte>, cs: seq<CID>, ds: seq<seq<byte>>, k: nat, pos: nat, blocks: seq<seq<byte>>,
                 indexed: bool, recs: seq<IndexRec>, next: nat)
    requires Acceptable(env, opt, b, h, cs, ds) && Following(b, h, cs, ds, pos, k, blocks, indexed, recs)
    requires k < |cs| && EntryAt(b, Entry(pos, cs[k], ds[k]), next)
    ensures Following(b, h, cs, ds, next, k + 1, blocks + [ds[k]], indexed, if indexed then Append(recs, EntryRec(cs[k], pos)) else recs)
  {
    NextSection(env, opt, b, h, cs, ds, k, pos);
    FollowTo(b, h, cs, ds, k, k + 1, pos, blocks, indexed, recs, next);
  }

  lemma FollowTo(b: seq<byte>, h: seq<byte>, cs: seq<CID>, ds: seq<seq<byte>>, k: nat, n: nat, pos: nat, blocks: seq<seq<byte>>,
                 indexed: bool, recs: seq<IndexRec>, next: nat)
    requires Following(b, h, cs, ds, pos, k, blocks, indexed, recs)
    requires k < |cs| && n == k + 1 && next == pos + |SectionBytes(cs[k].raw, ds[k])| && Ends(b, next, SectionsFrom(cs, ds, n))
    ensures Following(b, h, cs, ds, next, n, blocks + [ds[k]], indexed, if indexed then Append(recs, EntryRec(cs[k], pos)) else recs)
  {
    StreamStep(h, cs, ds, k, n);
  }

  /** Reads the header and every section of a CARv1 stream; it accepts exactly the acceptable streams. */
  method Collect(env: Env, opt: Options, b: seq<byte>, indexed: bool, ghost h0: seq<byte>, ghost cs: seq<CID>, ghost ds: seq<seq<byte>>)
    returns (ok: bool, header: seq<byte>, p: Parts, ghost taken: seq<CID>, ghost blocks: seq<seq<byte>>)
    requires |b| < B63
    ensures ok ==> Collected(env.sha, b, |b|, header, p, blocks, indexed) && Neat(env.sha, p.prefixes, p.refs, |b|)
    ensures ok && |b| <= opt.limits.maxTotal ==> Acceptable(env, opt, b, header, taken, blocks)
    ensures Acceptable(env, opt, b, h0, cs, ds) ==>
      ok && header == h0 && blocks == ds && (indexed ==> p.recs == StreamRecs(h0, cs, ds, |cs|))
  {
    ghost var good := Acceptable(env, opt, b, h0, cs, ds);
    if good {
      EndsAll(b);
      EndsSplit(b, 0, HeadBytes(h0), SectionsFrom(cs, ds, 0));
    }
    var rd := new Reader(b, opt.limits);
    p, taken, blocks := Parts([], map[], [], []), [], [];
    var h := rd.ReadHeader(env.header, good, h0);
    if h.None? {
      return false, [], p, [], [];
    }
    header := h.value;
    assert HeadBytes(header) + [] == HeadBytes(header);
    var s := More;
    while s.More?
      invariant fresh(rd) && rd.b == b && Reading(rd, env, opt, header, p, indexed, taken, blocks, good, h0, cs, ds)
      invariant !s.Fail? && (s.Done? ==> rd.pos == |b|)
      decreases s.More?, |b| - rd.pos
    {
      s, p, taken, blocks := CollectNext(rd, env, opt, header, p, indexed, taken, blocks, good, h0, cs, ds);
      if s.Fail? {
        return false, [], p, [], [];
      }
    }
    if good { FollowedAll(env, opt, b, h0, cs, ds, |blocks|, blocks, indexed, p.recs); }
    if |b| <= opt.limits.maxTotal { PassedAcceptable(env, opt, b, header, p, taken, blocks, indexed); }
    return true, header, p, taken, blocks;
  }

  lemma SectionsSome(cs: seq<CID>, ds: seq<seq<byte>>, n: nat)
    requires |cs| == |ds| && n <= |cs|
    ensures n < |cs| ==> |SectionsFrom(cs, ds, n)| > 0
  {
    if n < |cs| { assert |SectionBytes(cs[n].raw, ds[n])| > 0; }
  }

  lemma FollowedAll(env: Env, opt: Options, b: seq<byte>, h: seq<byte>, cs: seq<CID>, ds: seq<seq<byte>>, n: nat, blocks: seq<seq<byte>>,
                    indexed: bool, recs: seq<IndexRec>)
    requires Acceptable(env, opt, b, h, cs, ds) && Following(b, h, cs, ds, |b|, n, blocks, indexed, recs)
    ensures blocks == ds && (indexed ==> recs == StreamRecs(h, cs, ds, |cs|))
  {
    SectionsSome(cs, ds, n);
  }

  // ---- the whole archive ----

  /** The recipe stands for `src`: with its blocks, rebuilding gives exactly these bytes. */
  ghost predicate StandsFor(sha: seq<byte> -> digest, rep: Rep, blocks: seq<seq<byte>>, src: seq<byte>) {
    WellFormed(rep, sha, blocks) && Archive(rep, blocks) == src
  }

  lemma PayloadIs(sha: seq<byte> -> digest, b: seq<byte>, header: seq<byte>, p: Parts, blocks: seq<seq<byte>>, indexed: bool)
    requires Collected(sha, b, |b|, header, p, blocks, indexed)
    ensures b == HeadBytes(header) + Body(p.prefixes, p.refs, blocks, |p.refs|)
    ensures |b| == SecStart(header, p.prefixes, p.refs, |p.refs|)
  {
    BodyLength(sha, header, p.prefixes, p.refs, blocks, |p.refs|);
    var x := HeadBytes(header) + Body(p.prefixes, p.refs, blocks, |p.refs|);
    HasSlice(b, 0, x);
  }

  function V1Rep(header: seq<byte>, p: Parts): Rep {
    Rep(false, header, p.prefixes, p.refs, Zeros(16), None, [], [], NoIndex, 0, [])
  }

  lemma V1Exact(sha: seq<byte> -> digest, src: seq<byte>, header: seq<byte>, p: Parts, blocks: seq<seq<byte>>)
    requires Collected(sha, src, |src|, header, p, blocks, false)
    ensures StandsFor(sha, V1Rep(header, p), blocks, src)
  {
    PayloadIs(sha, src, header, p, blocks, false);
    assert Archive(V1Rep(header, p), blocks) == src + [];
  }

  /** How the index is represented: rebuilt when that gives its bytes, otherwise kept. */
  datatype IndexPlan = IndexPlan(mode: IndexMode, codec: nat, bytes: seq<byte>)

  method PlanIndex(opt: Options, raw: seq<byte>, recs: seq<IndexRec>, ghost codec0: nat) returns (r: Option<IndexPlan>)
    ensures r.Some? ==> match r.value.mode
                        case NoIndex => false
                        case Exact => r.value.bytes == raw
                        case Derived => IndexBytes(r.value.codec, Adapt(r.value.codec, recs)) == raw && r.value.bytes == []
    ensures r.Some? ==> r.value.codec == 0 || r.value.codec == INDEX_SORTED || r.value.codec == MULTIHASH_INDEX_SORTED
    ensures r.Some? && r.value.codec != 0 ==>
      (r.value.mode.Derived? <==> !opt.noDerive && raw == IndexBytes(r.value.codec, Adapt(r.value.codec, recs)))
    ensures r.Some? && r.value.codec == 0 ==> r.value.mode.Exact?
    ensures Indexable(codec0, Adapt(codec0, recs)) && raw == IndexBytes(codec0, Adapt(codec0, recs)) ==>
      r == Some(if opt.noDerive then IndexPlan(Exact, codec0, raw) else IndexPlan(Derived, codec0, []))
  {
    var idx := ParseIndex(raw, codec0, Adapt(codec0, recs));
    match idx {
      case Malformed => return None;
      case Opaque => return Some(IndexPlan(Exact, 0, raw));
      case Parsed(codec, _) =>
        if !opt.noDerive {
          var built := BuildIndex(codec, Adapt(codec, recs));
          if built == raw {
            return Some(IndexPlan(Derived, codec, []));
          }
        }
        return Some(IndexPlan(Exact, codec, raw));
    }
  }

  function V2Rep(header: seq<byte>, p: Parts, v: V2, plan: IndexPlan, derived: bool): Rep
    requires |v.headerRaw| == V2_HEADER_LEN
  {
    Rep(true, header, p.prefixes, p.refs, v.headerRaw[..16], if derived then None else Some(v.headerRaw), v.padBefore, v.padAfter,
        plan.mode, plan.codec, plan.bytes)
  }

  /** The plan reproduces the wrapper's index. */
  ghost predicate PlanFits(plan: IndexPlan, v: V2, recs: seq<IndexRec>) {
    match plan.mode
    case NoIndex => v.indexRaw.None?
    case Exact => v.indexRaw == Some(plan.bytes)
    case Derived => v.indexRaw == Some(IndexBytes(plan.codec, Adapt(plan.codec, recs)))
  }

  lemma V2IndexExact(sha: seq<byte> -> digest, b: seq<byte>, header: seq<byte>, p: Parts, blocks: seq<seq<byte>>, v: V2, plan: IndexPlan, rep: Rep)
    requires Collected(sha, b, |b|, header, p, blocks, v.indexRaw.Some?) && PlanFits(plan, v, p.recs)
    requires rep.Ok() && rep.header == header && rep.prefixes == p.prefixes && rep.refs == p.refs
    requires rep.indexMode == plan.mode && rep.indexCodec == plan.codec && rep.indexBytes == plan.bytes
    ensures Index(rep) == IndexOrEmpty(v)
  {
    if plan.mode.Derived? {
      AdaptRecs(plan.codec, header, p.prefixes, p.refs, |p.refs|);
    }
  }

  lemma V2HeaderExact(rep: Rep, v: V2, size: nat)
    requires rep.Ok() && |v.headerRaw| == V2_HEADER_LEN && PayloadSize(rep) == size && rep.characteristics == v.headerRaw[..16]
    requires |rep.padBefore| == |v.padBefore| && |rep.padAfter| == |v.padAfter| && (rep.indexMode.NoIndex? <==> v.indexRaw.None?)
    requires rep.hdrExact.Some? ==> rep.hdrExact.value == v.headerRaw
    requires rep.hdrExact.None? ==> DeriveHeader(v.headerRaw[..16], |v.padBefore|, size, |v.padAfter|, v.indexRaw.Some?) == v.headerRaw
    ensures V2Header(rep) == v.headerRaw
  {}

  lemma V2Exact(sha: seq<byte> -> digest, src: seq<byte>, header: seq<byte>, p: Parts, blocks: seq<seq<byte>>, v: V2, plan: IndexPlan, derived: bool)
    requires Wraps(v, src) && PlanFits(plan, v, p.recs)
    requires Collected(sha, src[v.dataOffset..v.dataOffset + v.dataSize], v.dataSize, header, p, blocks, v.indexRaw.Some?)
    requires derived ==> DeriveHeader(v.headerRaw[..16], |v.padBefore|, v.dataSize, |v.padAfter|, v.indexRaw.Some?) == v.headerRaw
    ensures StandsFor(sha, V2Rep(header, p, v, plan, derived), blocks, src)
  {
    var b, rep := src[v.dataOffset..v.dataOffset + v.dataSize], V2Rep(header, p, v, plan, derived);
    PayloadIs(sha, b, header, p, blocks, v.indexRaw.Some?);
    V2IndexExact(sha, b, header, p, blocks, v, plan, rep);
    V2HeaderExact(rep, v, v.dataSize);
    WrapperExact(rep, blocks, b, v, src);
  }

  lemma WrapperExact(rep: Rep, blocks: seq<seq<byte>>, b: seq<byte>, v: V2, src: seq<byte>)
    requires rep.Ok() && rep.v2 && |blocks| == |rep.refs| && b == HeadBytes(rep.header) + Body(rep.prefixes, rep.refs, blocks, |rep.refs|)
    requires V2Header(rep) == v.headerRaw && rep.padBefore == v.padBefore && rep.padAfter == v.padAfter && Index(rep) == IndexOrEmpty(v)
    requires src == V2_PRAGMA + v.headerRaw + v.padBefore + b + (v.padAfter + IndexOrEmpty(v))
    ensures Archive(rep, blocks) == src
  {
    Glue(V2_PRAGMA + v.headerRaw + v.padBefore, HeadBytes(rep.header), Body(rep.prefixes, rep.refs, blocks, |rep.refs|));
  }

  /** The limits in force: the defaults unless set, and never past the archive. */
  function Effective(opt: Options, dataSize: nat): Options {
    var l := if opt.limits.maxTotal == 0 then Limits(0x10_0000, 0x1000_0000, 0x400_0000, 0x100_0000_0000) else opt.limits;
    opt.(limits := l.(maxTotal := if dataSize < l.maxTotal then dataSize else l.maxTotal))
  }

  /** The CARv1 stream of a file: all of it, or the payload of its wrapper. */
  function StreamOf(src: seq<byte>): seq<byte>
    requires IsV2(src) ==> LayoutOk(src)
  {
    if IsV2(src) then PayloadOf(src) else src
  }

  /** The index of the file is the sorted index of its own sections. */
  ghost predicate OwnIndex(src: seq<byte>, codec: nat, h: seq<byte>, cs: seq<CID>, ds: seq<seq<byte>>)
    requires LayoutOk(src) && |cs| == |ds|
  {
    && HasIndex(src) && (codec == INDEX_SORTED || codec == MULTIHASH_INDEX_SORTED) && |cs| < B32
    && IndexPart(src) == IndexBytes(codec, Adapt(codec, StreamRecs(h, cs, ds, |cs|)))
  }

  lemma OwnIndexable(codec: nat, h: seq<byte>, cs: seq<CID>, ds: seq<seq<byte>>)
    requires |cs| == |ds| && |cs| < B32 && (forall i :: 0 <= i < |cs| ==> CidOk(cs[i]))
    requires codec == INDEX_SORTED || codec == MULTIHASH_INDEX_SORTED
    ensures Indexable(codec, Adapt(codec, StreamRecs(h, cs, ds, |cs|)))
  {
    StreamRecsShort(h, cs, ds, |cs|);
  }

  /** A CARv1 file, or a laid-out CARv2 file without an index or with its own, whose stream is acceptable. */
  ghost predicate Archived(env: Env, opt: Options, src: seq<byte>, h: seq<byte>, cs: seq<CID>, ds: seq<seq<byte>>, codec: nat) {
    && |cs| == |ds| && (IsV2(src) ==> LayoutOk(src) && (HasIndex(src) ==> OwnIndex(src, codec, h, cs, ds)))
    && Acceptable(env, Effective(opt, |StreamOf(src)|), StreamOf(src), h, cs, ds)
  }

  /** A CARv1 stream of an accepted header and sections with these blocks. */
  ghost predicate LawfulStream(env: Env, opt: Options, b: seq<byte>, blocks: seq<seq<byte>>) {
    exists h, cs :: Acceptable(env, Effective(opt, |b|), b, h, cs, blocks)
  }

  /** The stream of the file is acceptable, with these blocks. */
  ghost predicate Lawful(env: Env, opt: Options, src: seq<byte>, blocks: seq<seq<byte>>) {
    (IsV2(src) ==> LayoutOk(src)) && LawfulStream(env, opt, StreamOf(src), blocks)
  }

  /** How the index of a file comes out: not at all, rebuilt, or kept. */
  function ModeFor(opt: Options, src: seq<byte>): IndexMode
    requires IsV2(src) ==> LayoutOk(src)
  {
    if !IsV2(src) || !HasIndex(src) then NoIndex else if opt.noDerive then Exact else Derived
  }

  /** A recipe that a file of `n` bytes has room for, with no empty inline block and no empty kept header. */
  ghost predicate Compact(sha: seq<byte> -> digest, rep: Rep, n: nat) {
    && Neat(sha, rep.prefixes, rep.refs, n) && |rep.header| <= n && |rep.padBefore| <= n && |rep.padAfter| <= n && |rep.indexBytes| <= n
    && rep.indexCodec < B63 && (rep.hdrExact.Some? ==> |rep.hdrExact.value| == V2_HEADER_LEN)
  }

  lemma NeatWider(sha: seq<byte> -> digest, prefixes: seq<seq<byte>>, refs: seq<Ref>, n: nat, m: nat)
    requires Neat(sha, prefixes, refs, n) && n <= m
    ensures Neat(sha, prefixes, refs, m)
  {
    forall i | 0 <= i < |refs| ensures NeatRef(sha, prefixes, refs[i], m) { assert NeatRef(sha, prefixes, refs[i], n); }
  }

  /**
   Parses a CARv1 or CARv2 file. Whatever it accepts, under any options, the recipe stands for
   the file and is no larger; and it accepts every file whose stream is a header and sections within
   the limits, and whose index, if it has one, is that of its sections.
   */
  method Build(src: seq<byte>, opt: Options, env: Env, ghost h0: seq<byte>, ghost cs: seq<CID>, ghost ds: seq<seq<byte>>, ghost codec: nat)
    returns (r: Option<Rep>, ghost blocks: seq<seq<byte>>)
    requires |src| < B63
    ensures r.Some? ==> StandsFor(env.sha, r.value, blocks, src) && Compact(env.sha, r.value, |src|) && Lawful(env, opt, src, blocks)
    ensures Archived(env, opt, src, h0, cs, ds, codec) ==> r.Some? && blocks == ds && r.value.indexMode == ModeFor(opt, src)
  {
    blocks := [];
    if !IsV2(src) {
      r, blocks := BuildV1(src, opt, env, h0, cs, ds);
      return;
    }
    var v2 := ParseV2(src);
    if v2.None? {
      return None, [];
    }
    var payload := PayloadOf(src);
    if Archived(env, opt, src, h0, cs, ds, codec) { ArchivedWrapper(env, opt, src, h0, cs, ds, codec, v2.value, payload); }
    r, blocks := BuildV2(src, opt, env, v2.value, payload, h0, cs, ds, codec);
  }

  lemma ArchivedWrapper(env: Env, opt: Options, src: seq<byte>, h: seq<byte>, cs: seq<CID>, ds: seq<seq<byte>>, codec: nat, v: V2, payload: seq<byte>)
    requires Archived(env, opt, src, h, cs, ds, codec) && IsV2(src) && payload == PayloadOf(src) && |payload| == v.dataSize
    requires v.indexRaw == if HasIndex(src) then Some(IndexPart(src)) else None
    ensures Acceptable(env, Effective(opt, v.dataSize), payload, h, cs, ds) && OwnIndexOf(v, codec, h, cs, ds)
  {}

  method BuildV1(src: seq<byte>, opt: Options, env: Env, ghost h0: seq<byte>, ghost cs: seq<CID>, ghost ds: seq<seq<byte>>)
    returns (r: Option<Rep>, ghost blocks: seq<seq<byte>>)
    requires |src| < B63
    ensures r.Some? ==> StandsFor(env.sha, r.value, blocks, src) && Compact(env.sha, r.value, |src|) && r.value.indexMode == NoIndex
    ensures r.Some? ==> LawfulStream(env, opt, src, blocks)
    ensures Acceptable(env, Effective(opt, |src|), src, h0, cs, ds) ==> r.Some? && blocks == ds
  {
    var o := Effective(opt, |src|);
    if |src| > o.limits.maxTotal {
      return None, [];
    }
    var ok, header, p;
    ghost var taken;
    ok, header, p, taken, blocks := Collect(env, o, src, false, h0, cs, ds);
    if !ok {
      return None, [];
    }
    assert LawfulStream(env, opt, src, blocks) by { assert Acceptable(env, Effective(opt, |src|), src, header, taken, blocks); }
    V1Exact(env.sha, src, header, p, blocks);
    HeaderShort(env.sha, src, header, p, blocks, false);
    return Some(V1Rep(header, p)), blocks;
  }

  lemma HeaderShort(sha: seq<byte> -> digest, b: seq<byte>, header: seq<byte>, p: Parts, blocks: seq<seq<byte>>, indexed: bool)
    requires Collected(sha, b, |b|, header, p, blocks, indexed)
    ensures |header| <= |b|
  {
    PayloadIs(sha, b, header, p, blocks, indexed);
  }

  lemma WrapperShort(v: V2, src: seq<byte>)
    requires Wraps(v, src)
    ensures |v.padBefore| <= |src| && |v.padAfter| <= |src| && |IndexOrEmpty(v)| <= |src|
  {}

  /** The claim that the wrapper's index is that of the sections. */
  ghost predicate OwnIndexOf(v: V2, codec: nat, h: seq<byte>, cs: seq<CID>, ds: seq<seq<byte>>)
    requires |cs| == |ds|
  {
    v.indexRaw.Some? ==>
      && (codec == INDEX_SORTED || codec == MULTIHASH_INDEX_SORTED) && |cs| < B32
      && v.indexRaw.value == IndexBytes(codec, Adapt(codec, StreamRecs(h, cs, ds, |cs|)))
  }

  method BuildV2(src: seq<byte>, opt: Options, env: Env, v: V2, payload: seq<byte>, ghost h0: seq<byte>, ghost cs: seq<CID>, ghost ds: seq<seq<byte>>,
                 ghost codec: nat)
    returns (r: Option<Rep>, ghost blocks: seq<seq<byte>>)
    requires Wraps(v, src) && payload == src[v.dataOffset..v.dataOffset + v.dataSize] && |src| < B63
    ensures r.Some? ==> StandsFor(env.sha, r.value, blocks, src) && Compact(env.sha, r.value, |src|)
    ensures r.Some? ==> LawfulStream(env, opt, payload, blocks)
    ensures Acceptable(env, Effective(opt, v.dataSize), payload, h0, cs, ds) && OwnIndexOf(v, codec, h0, cs, ds) ==>
      r.Some? && blocks == ds && r.value.indexMode == if v.indexRaw.None? then NoIndex else if opt.noDerive then Exact else Derived
  {
    var o := Effective(opt, v.dataSize);
    ghost var good := Acceptable(env, o, payload, h0, cs, ds) && OwnIndexOf(v, codec, h0, cs, ds);
    if v.dataSize > o.limits.maxTotal {
      return None, [];
    }
    var ok, header, p;
    ghost var taken;
    ok, header, p, taken, blocks := Collect(env, o, payload, v.indexRaw.Some?, h0, cs, ds);
    if !ok {
      return None, [];
    }
    assert LawfulStream(env, opt, payload, blocks) by { assert Acceptable(env, Effective(opt, |payload|), payload, header, taken, blocks); }
    var plan := PlanWrapper(o, v, p.recs, good, codec, h0, cs, ds);
    if plan.None? {
      return None, [];
    }
    var derived := DeriveHeader(v.headerRaw[..16], |v.padBefore|, v.dataSize, |v.padAfter|, v.indexRaw.Some?) == v.headerRaw;
    V2Exact(env.sha, src, header, p, blocks, v, plan.value, derived);
    HeaderShort(env.sha, payload, header, p, blocks, v.indexRaw.Some?);
    WrapperShort(v, src);
    NeatWider(env.sha, p.prefixes, p.refs, |payload|, |src|);
    return Some(V2Rep(header, p, v, plan.value, derived)), blocks;
  }

  /** The plan for the index, if the wrapper has one. */
  method PlanWrapper(opt: Options, v: V2, recs: seq<IndexRec>, ghost good: bool, ghost codec: nat, ghost h: seq<byte>, ghost cs: seq<CID>, ghost ds: seq<seq<byte>>)
    returns (r: Option<IndexPlan>)
    requires good ==> |cs| == |ds| && (forall i :: 0 <= i < |cs| ==> CidOk(cs[i])) && OwnIndexOf(v, codec, h, cs, ds)
    requires good && v.indexRaw.Some? ==> recs == StreamRecs(h, cs, ds, |cs|)
    ensures r.Some? ==> PlanFits(r.value, v, recs) && r.value.codec < B63 && |r.value.bytes| <= |IndexOrEmpty(v)|
    ensures good ==> r.Some? && r.value.mode == if v.indexRaw.None? then NoIndex else if opt.noDerive then Exact else Derived
  {
    if v.indexRaw.None? {
      return Some(IndexPlan(NoIndex, 0, []));
    }
    if good { OwnIndexable(codec, h, cs, ds); }
    r := PlanIndex(opt, v.indexRaw.value, recs, codec);
  }

  /** A file without an index. */
  predicate Plain(src: seq<byte>) { IsV2(src) ==> LayoutOk(src) && !HasIndex(src) }

  /**
   Building a recipe and rebuilding from it, with a getter that serves the section blocks, gives
   back the file. A file without an index is accepted exactly when its stream is acceptable.
   */
  method RoundTrip(src: seq<byte>, opt: Options, env: Env, get: Getter) returns (r: Option<Rep>, back: Option<seq<byte>>, ghost blocks: seq<seq<byte>>)
    requires |src| < B63
    ensures Plain(src) ==> (r.Some? <==> exists ds :: Lawful(env, opt, src, ds))
    ensures r.Some? ==> Lawful(env, opt, src, blocks)
    ensures r.Some? && Serves(get, r.value.refs, blocks) ==> back == Some(src)
  {
    ghost var h: seq<byte>, cs: seq<CID>, ds: seq<seq<byte>> := [], [], [];
    if exists ds' :: Lawful(env, opt, src, ds') {
      ds :| Lawful(env, opt, src, ds);
      h, cs :| Acceptable(env, Effective(opt, |StreamOf(src)|), StreamOf(src), h, cs, ds);
    }
    r, blocks := Build(src, opt, env, h, cs, ds, 0);
    back := None;
    if r.Some? {
      if Serves(get, r.value.refs, blocks) { ServedAvailable(env.sha, get, r.value.refs, blocks); }
      back := Reconstruct(r.value, env.sha, get);
    }
  }
}
