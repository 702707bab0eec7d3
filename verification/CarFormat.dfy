/**
 The exact representation of a CAR archive (carz3/rep.go): sections, recipes, and the bytes
 a recipe stands for given its blocks.
 */
module CarFormat {
  import opened Bytes
  import opened Varint
  import opened CarVarint
  import opened CarCid
  import opened CarIndex

  const V2_PRAGMA: seq<byte> := [0x0a, 0xa1, 0x67, 0x76, 0x65, 0x72, 0x73, 0x69, 0x6f, 0x6e, 0x02]
  const V2_HEADER_LEN := 40
  const V2_FIXED := 51

  type Getter = digest -> Option<seq<byte>>

  /** One section: its block by digest and length, its CID exactly or as a prefix before the digest. */
  datatype Ref = Ref(sum: digest, len: nat, cid: seq<byte>, prefix: nat, derived: bool, inline: Option<seq<byte>>)

  datatype IndexMode = NoIndex | Derived | Exact

  datatype Rep = Rep(v2: bool, header: seq<byte>, prefixes: seq<seq<byte>>, refs: seq<Ref>,
                     characteristics: seq<byte>, hdrExact: Option<seq<byte>>, padBefore: seq<byte>, padAfter: seq<byte>,
                     indexMode: IndexMode, indexCodec: nat, indexBytes: seq<byte>) {
    predicate Ok() {
      |characteristics| == 16 && RefsOk(prefixes, refs)
    }
  }

  predicate RefsOk(prefixes: seq<seq<byte>>, refs: seq<Ref>) {
    forall i {:trigger RefOk(prefixes, refs[i])} :: 0 <= i < |refs| ==> RefOk(prefixes, refs[i])
  }

  predicate RefOk(prefixes: seq<seq<byte>>, r: Ref) { r.derived ==> r.prefix < |prefixes| }

  function CidBytes(prefixes: seq<seq<byte>>, r: Ref): seq<byte>
    requires RefOk(prefixes, r)
  {
    if r.derived then prefixes[r.prefix] + r.sum else r.cid
  }

  function SectionBytes(cid: seq<byte>, data: seq<byte>): seq<byte> { Uv(|cid| + |data|) + (cid + data) }

  function HeadBytes(header: seq<byte>): seq<byte> { Uv(|header|) + header }

  /** The encoded length of a section, from its lengths alone. */
  function SecLen(prefixes: seq<seq<byte>>, r: Ref): nat
    requires RefOk(prefixes, r)
  {
    |Uv(|CidBytes(prefixes, r)| + r.len)| + |CidBytes(prefixes, r)| + r.len
  }

  /** Where section `k` starts in the CARv1 stream. */
  function SecStart(header: seq<byte>, prefixes: seq<seq<byte>>, refs: seq<Ref>, k: nat): nat
    requires RefsOk(prefixes, refs) && k <= |refs|
  {
    if k == 0 then |HeadBytes(header)| else SecStart(header, prefixes, refs, k - 1) + SecLen(prefixes, refs[k - 1])
  }

  /** The sections before `k`, with their blocks. */
  function Body(prefixes: seq<seq<byte>>, refs: seq<Ref>, blocks: seq<seq<byte>>, k: nat): seq<byte>
    requires RefsOk(prefixes, refs) && k <= |refs| == |blocks|
  {
    if k == 0 then [] else Body(prefixes, refs, blocks, k - 1) + SectionBytes(CidBytes(prefixes, refs[k - 1]), blocks[k - 1])
  }

  // ---- the CARv2 wrapper ----

  /** The 40-byte header computed from the layout (`DeriveHeader`). */
  function DeriveHeader(characteristics: seq<byte>, padBefore: nat, dataSize: nat, padAfter: nat, hasIndex: bool): (h: seq<byte>)
    requires |characteristics| == 16
    ensures |h| == V2_HEADER_LEN
  {
    var off := V2_FIXED + padBefore;
    characteristics + U64LE(Low64(off)) + U64LE(Low64(dataSize))
    + (if hasIndex then U64LE(Low64(off + dataSize + padAfter)) else Zeros(8))
  }

  /** `copy` into a zeroed 40-byte array. */
  function CopyHeader(x: seq<byte>): (h: seq<byte>)
    ensures |h| == V2_HEADER_LEN
    ensures |x| == V2_HEADER_LEN ==> h == x
  {
    if |x| >= V2_HEADER_LEN then x[..V2_HEADER_LEN] else x + Zeros(V2_HEADER_LEN - |x|)
  }

  function PayloadSize(rep: Rep): nat
    requires rep.Ok()
  {
    SecStart(rep.header, rep.prefixes, rep.refs, |rep.refs|)
  }

  function V2Header(rep: Rep): (h: seq<byte>)
    requires rep.Ok()
    ensures |h| == V2_HEADER_LEN
  {
    if rep.hdrExact.Some? then CopyHeader(rep.hdrExact.value)
    else DeriveHeader(rep.characteristics, |rep.padBefore|, PayloadSize(rep), |rep.padAfter|, !rep.indexMode.NoIndex?)
  }

  /** The index record of a section, unless its CID is an identity (or does not parse). */
  ghost function RecOf(codec: nat, cid: seq<byte>, off: nat): Option<IndexRec> {
    match CidIn(cid, 0, |cid|)
    case None => None
    case Some(c) =>
      if c.hashCode == MH_IDENTITY then None
      else Some(IndexRec(if codec == MULTIHASH_INDEX_SORTED then Low64(c.hashCode) else 0, c.digest, Low64(off)))
  }

  /** The index records of the first `k` sections, with recomputed offsets. */
  ghost function IndexRecs(codec: nat, header: seq<byte>, prefixes: seq<seq<byte>>, refs: seq<Ref>, k: nat): seq<IndexRec>
    requires RefsOk(prefixes, refs) && k <= |refs|
  {
    if k == 0 then []
    else
      Append(IndexRecs(codec, header, prefixes, refs, k - 1),
             RecOf(codec, CidBytes(prefixes, refs[k - 1]), SecStart(header, prefixes, refs, k - 1)))
  }

  ghost function Index(rep: Rep): seq<byte>
    requires rep.Ok()
  {
    match rep.indexMode
    case NoIndex => []
    case Exact => rep.indexBytes
    case Derived => IndexBytes(rep.indexCodec, IndexRecs(rep.indexCodec, rep.header, rep.prefixes, rep.refs, |rep.refs|))
  }

  // ---- the archive ----

  /** The bytes before the first section. */
  ghost function Front(rep: Rep): seq<byte>
    requires rep.Ok()
  {
    if rep.v2 then V2_PRAGMA + V2Header(rep) + rep.padBefore + HeadBytes(rep.header) else HeadBytes(rep.header)
  }

  /** The bytes after the last section. */
  ghost function Back(rep: Rep): seq<byte>
    requires rep.Ok()
  {
    if rep.v2 then rep.padAfter + Index(rep) else []
  }

  /** The archive a recipe stands for when `blocks` are its sections' blocks. */
  ghost function Archive(rep: Rep, blocks: seq<seq<byte>>): seq<byte>
    requires rep.Ok() && |rep.refs| == |blocks|
  {
    Front(rep) + Body(rep.prefixes, rep.refs, blocks, |rep.refs|) + Back(rep)
  }

  /** The blocks are those the refs describe. */
  predicate Fits(sha: seq<byte> -> digest, r: Ref, block: seq<byte>) {
    |block| == r.len && (if r.inline.Some? then r.inline.value == block else sha(block) == r.sum)
  }

  ghost predicate Matches(sha: seq<byte> -> digest, refs: seq<Ref>, blocks: seq<seq<byte>>) {
    |refs| == |blocks| && forall i {:trigger Fits(sha, refs[i], blocks[i])} :: 0 <= i < |refs| ==> Fits(sha, refs[i], blocks[i])
  }

  /** The getter returns the block of every section that is not inline. */
  predicate Served(get: Getter, r: Ref, block: seq<byte>) { r.inline.Some? || get(r.sum) == Some(block) }

  ghost predicate Serves(get: Getter, refs: seq<Ref>, blocks: seq<seq<byte>>) {
    |refs| == |blocks| && forall i :: 0 <= i < |refs| ==> Served(get, refs[i], blocks[i])
  }

  lemma {:induction false} BodyLength(sha: seq<byte> -> digest, header: seq<byte>, prefixes: seq<seq<byte>>, refs: seq<Ref>, blocks: seq<seq<byte>>, k: nat)
    requires RefsOk(prefixes, refs) && Matches(sha, refs, blocks) && k <= |refs|
    ensures |HeadBytes(header)| + |Body(prefixes, refs, blocks, k)| == SecStart(header, prefixes, refs, k)
  {
    if k > 0 {
      BodyLength(sha, header, prefixes, refs, blocks, k - 1);
      assert Fits(sha, refs[k - 1], blocks[k - 1]);
    }
  }

  // ---- recipes with the same sections ----

  /** The first `k` sections have the same CIDs and lengths. */
  predicate Alike(p: seq<seq<byte>>, s: seq<Ref>, q: seq<seq<byte>>, t: seq<Ref>, k: nat) {
    && RefsOk(p, s) && RefsOk(q, t) && k <= |s| && k <= |t|
    && forall i :: 0 <= i < k ==> SameSection(p, s[i], q, t[i])
  }

  predicate SameSection(p: seq<seq<byte>>, r: Ref, q: seq<seq<byte>>, x: Ref) {
    RefOk(p, r) && RefOk(q, x) && CidBytes(q, x) == CidBytes(p, r) && x.len == r.len
  }

  lemma {:induction false} StartAlike(header: seq<byte>, p: seq<seq<byte>>, s: seq<Ref>, q: seq<seq<byte>>, t: seq<Ref>, k: nat)
    requires Alike(p, s, q, t, k)
    ensures SecStart(header, q, t, k) == SecStart(header, p, s, k)
  {
    if k > 0 {
      StartAlike(header, p, s, q, t, k - 1);
      assert SameSection(p, s[k - 1], q, t[k - 1]);
    }
  }

  lemma {:induction false} BodyAlike(p: seq<seq<byte>>, s: seq<Ref>, a: seq<seq<byte>>, q: seq<seq<byte>>, t: seq<Ref>, b: seq<seq<byte>>, k: nat)
    requires Alike(p, s, q, t, k) && |a| == |s| && |b| == |t| && forall i :: 0 <= i < k ==> a[i] == b[i]
    ensures Body(q, t, b, k) == Body(p, s, a, k)
  {
    if k > 0 {
      BodyAlike(p, s, a, q, t, b, k - 1);
      assert SameSection(p, s[k - 1], q, t[k - 1]);
    }
  }

  lemma {:induction false} RecsAlike(codec: nat, header: seq<byte>, p: seq<seq<byte>>, s: seq<Ref>, q: seq<seq<byte>>, t: seq<Ref>, k: nat)
    requires Alike(p, s, q, t, k)
    ensures IndexRecs(codec, header, q, t, k) == IndexRecs(codec, header, p, s, k)
  {
    if k > 0 {
      RecsAlike(codec, header, p, s, q, t, k - 1);
      StartAlike(header, p, s, q, t, k - 1);
      assert SameSection(p, s[k - 1], q, t[k - 1]);
    }
  }

  /** A recipe prefix stays what it is when refs and prefixes are added. */
  predicate Grows(p: seq<seq<byte>>, q: seq<seq<byte>>) {
    |p| <= |q| && forall i :: 0 <= i < |p| ==> q[i] == p[i]
  }

  lemma GrowsAlike(p: seq<seq<byte>>, s: seq<Ref>, q: seq<seq<byte>>, t: seq<Ref>)
    requires Grows(p, q) && RefsOk(p, s) && |s| <= |t| && (forall i :: 0 <= i < |s| ==> t[i] == s[i])
    requires forall i :: |s| <= i < |t| ==> RefOk(q, t[i])
    ensures Alike(p, s, q, t, |s|)
  {
    forall i | 0 <= i < |t| ensures RefOk(q, t[i]) {
      if i < |s| { assert RefOk(p, s[i]); }
    }
    forall i | 0 <= i < |s| ensures SameSection(p, s[i], q, t[i]) {
      assert RefOk(p, s[i]);
    }
  }
}
