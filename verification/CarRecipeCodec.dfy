/** Writing a recipe and reading it back (carz3/rep.go, `MarshalParts` and `Unmarshal`). */
module CarRecipeCodec {
  import opened Bytes
  import opened Varint
  import opened Sorting
  import opened CarVarint
  import opened CarCid
  import opened CarFormat
  import opened CarRecipe

  // ---- writing ----

  method PutBlob(b: seq<byte>, x: seq<byte>, ghost rest: seq<byte>) returns (out: seq<byte>)
    ensures out + rest == b + BlobThen(x, rest)
  {
    Glue(b, Uv(|x|), x + rest);
    Glue(b + Uv(|x|), x, rest);
    out := b + Uv(|x|) + x;
  }

  method PutWrapper(b: seq<byte>, rep: Rep, ghost rest: seq<byte>) returns (out: seq<byte>)
    ensures out + rest == b + WrapperThen(rep, rest)
  {
    out := b;
    if rep.v2 {
      ghost var r3 := IndexThen(rep, rest);
      ghost var r2 := BlobThen(HdrOrEmpty(rep), r3);
      ghost var r1 := BlobThen(rep.padAfter, r2);
      Glue(out, rep.characteristics, Uv(rep.indexCodec) + BlobThen(rep.padBefore, r1));
      Glue(out + rep.characteristics, Uv(rep.indexCodec), BlobThen(rep.padBefore, r1));
      out := out + rep.characteristics + Uv(rep.indexCodec);
      out := PutBlob(out, rep.padBefore, r1);
      out := PutBlob(out, rep.padAfter, r2);
      out := PutBlob(out, HdrOrEmpty(rep), r3);
      if rep.indexMode.Exact? {
        out := PutBlob(out, rep.indexBytes, rest);
      }
    }
  }

  method PutHead(rep: Rep, ghost rest: seq<byte>) returns (out: seq<byte>)
    ensures out + rest == HeadThen(rep, rest)
  {
    ghost var r1 := PrefixesThen(rep.prefixes, 0, rest);
    ghost var r2 := WrapperThen(rep, Uv(|rep.prefixes|) + r1);
    out := [1] + [FlagByte(rep)];
    Glue([1], [FlagByte(rep)], BlobThen(rep.header, r2));
    out := PutBlob(out, rep.header, r2);
    out := PutWrapper(out, rep, Uv(|rep.prefixes|) + r1);
    Glue(out, Uv(|rep.prefixes|), r1);
    out := out + Uv(|rep.prefixes|);
    var k := 0;
    while k < |rep.prefixes|
      invariant 0 <= k <= |rep.prefixes| && out + PrefixesThen(rep.prefixes, k, rest) == HeadThen(rep, rest)
    {
      out := PutBlob(out, rep.prefixes[k], PrefixesThen(rep.prefixes, k + 1, rest));
      k := k + 1;
    }
  }

  /** The positions of the digests in the table. */
  ghost predicate Indexes(tbl: map<digest, nat>, order: seq<Block>) {
    && (forall s :: s in tbl <==> Listed(order, s))
    && (forall s :: s in tbl ==> tbl[s] < |order| && order[tbl[s]].sum == s)
  }

  lemma IndexesSnoc(tbl: map<digest, nat>, order: seq<Block>, b: Block)
    requires Indexes(tbl, order)
    ensures Indexes(tbl[b.sum := |order|], order + [b])
  {
    var o := order + [b];
    forall s ensures Listed(o, s) <==> Listed(order, s) || s == b.sum {
      if Listed(order, s) {
        var k :| 0 <= k < |order| && order[k].sum == s;
        assert o[k].sum == s;
      }
      if s == b.sum { assert o[|order|].sum == s; }
    }
  }

  /** The distinct blocks, in order of first use. */
  method ListBlocks(refs: seq<Ref>) returns (order: seq<Block>, tbl: map<digest, nat>)
    ensures order == FirstUse(refs, |refs|) && Indexes(tbl, order)
  {
    order, tbl := [], map[];
    var i := 0;
    while i < |refs|
      invariant 0 <= i <= |refs| && order == FirstUse(refs, i) && Indexes(tbl, order)
    {
      var r := refs[i];
      if r.inline.None? && r.sum !in tbl {
        IndexesSnoc(tbl, order, Block(r.sum, r.len));
        tbl := tbl[r.sum := |order|];
        order := order + [Block(r.sum, r.len)];
      }
      i := i + 1;
    }
  }

  /** Numbers the blocks of a sorted table. */
  method Renumber(order: seq<Block>) returns (tbl: map<digest, nat>)
    ensures Indexes(tbl, order)
  {
    tbl := map[];
    var i := 0;
    while i < |order|
      invariant 0 <= i <= |order| && Indexes(tbl, order[..i])
    {
      IndexesSnoc(tbl, order[..i], order[i]);
      assert order[..i + 1] == order[..i] + [order[i]];
      tbl := tbl[order[i].sum := i];
      i := i + 1;
    }
    assert order[..i] == order;
  }

  method PutTable(order: seq<Block>) returns (b: seq<byte>)
    ensures b == TableThen(order, [])
  {
    b := Uv(|order|);
    var k := 0;
    while k < |order|
      invariant 0 <= k <= |order| && b + BlocksThen(order, k, []) == TableThen(order, [])
    {
      ghost var rest := BlocksThen(order, k + 1, []);
      Glue(b, order[k].sum, Uv(order[k].len) + rest);
      Glue(b + order[k].sum, Uv(order[k].len), rest);
      b := b + order[k].sum + Uv(order[k].len);
      k := k + 1;
    }
    assert b + [] == b;
  }

  lemma PositionIs(order: seq<Block>, sum: digest, k: nat)
    requires DistinctSums(order) && k < |order| && order[k].sum == sum
    ensures Listed(order, sum) && Position(order, sum) == k
  {
    var p := Position(order, sum);
    assert order[p].sum == sum;
  }

  method PutRef(b: seq<byte>, r: Ref, tbl: map<digest, nat>, ghost order: seq<Block>, ghost rest: seq<byte>) returns (out: seq<byte>)
    requires DistinctSums(order) && Indexes(tbl, order) && (r.inline.None? ==> Listed(order, r.sum))
    ensures out + rest == b + RefThen(order, r, rest)
  {
    ghost var tail := CidThen(r, rest);
    if r.inline.Some? {
      Glue(b, Uv(0), BlobThen(r.inline.value, tail));
      out := PutBlob(b + Uv(0), r.inline.value, tail);
    } else {
      PositionIs(order, r.sum, tbl[r.sum]);
      Glue(b, Uv(tbl[r.sum] + 1), tail);
      out := b + Uv(tbl[r.sum] + 1);
    }
    if r.derived {
      Glue(out, Uv(r.prefix + 1), rest);
      out := out + Uv(r.prefix + 1);
    } else {
      Glue(out, Uv(0), BlobThen(r.cid, rest));
      out := PutBlob(out + Uv(0), r.cid, rest);
    }
  }

  method PutTail(refs: seq<Ref>, tbl: map<digest, nat>, ghost order: seq<Block>) returns (b: seq<byte>)
    requires DistinctSums(order) && Indexes(tbl, order) && AllListed(order, refs)
    ensures b == TailBytes(order, refs)
  {
    b := Uv(|refs|);
    var k := 0;
    while k < |refs|
      invariant 0 <= k <= |refs| && b + RefsThen(order, refs, k, []) == TailBytes(order, refs)
    {
      b := PutRef(b, refs[k], tbl, order, RefsThen(order, refs, k + 1, []));
      k := k + 1;
    }
    assert b + [] == b;
  }

  lemma TableListed(refs: seq<Ref>, order: seq<Block>)
    requires TableSums(refs, |refs|, order)
    ensures AllListed(order, refs)
  {}

  lemma {:induction false} BlocksSplit(order: seq<Block>, k: nat, rest: seq<byte>)
    requires k <= |order|
    ensures BlocksThen(order, k, rest) == BlocksThen(order, k, []) + rest
    decreases |order| - k
  {
    if k == |order| {
      assert [] + rest == rest;
    } else {
      BlocksSplit(order, k + 1, rest);
      var x := BlocksThen(order, k + 1, []);
      Glue(Uv(order[k].len), x, rest);
      Glue(order[k].sum, Uv(order[k].len) + x, rest);
    }
  }

  /** The three parts of a recipe; the table can be sorted by digest. */
  method MarshalParts(rep: Rep, sorted: bool) returns (head: seq<byte>, table: seq<byte>, tail: seq<byte>)
    requires rep.Ok()
    ensures var order := BlockOrder(rep.refs, sorted);
            AllListed(order, rep.refs) && table == TableThen(order, []) && head + table + tail == RecipeBytes(rep, order)
  {
    var order, tbl := ListBlocks(rep.refs);
    OrderTable(rep.refs, sorted);
    if sorted {
      order := StableSort(SumLess, order);
      tbl := Renumber(order);
    }
    TableListed(rep.refs, order);
    tail := PutTail(rep.refs, tbl, order);
    table := PutTable(order);
    head := PutHead(rep, TableThen(order, tail));
    BlocksSplit(order, 0, tail);
    Glue(Uv(|order|), BlocksThen(order, 0, []), tail);
    Glue(head, table, tail);
  }

  // ---- reading ----

  /** A bounds-checked cursor over a recipe. */
  class Cursor {
    const b: seq<byte>
    var p: nat

    ghost predicate Valid()
      reads this
    {
      p <= |b|
    }

    constructor (b: seq<byte>, p: nat)
      requires p <= |b|
      ensures this.b == b && this.p == p && Valid()
    {
      this.b, this.p := b, p;
    }

    method U(ghost good: bool, ghost want: nat, ghost rest: seq<byte>) returns (v: Option<nat>)
      requires Valid() && (good ==> want < B63 && Ends(b, p, Uv(want) + rest))
      modifies this
      ensures Valid() && (v.Some? ==> v.value < B63)
      ensures good ==> v == Some(want) && Ends(b, p, rest)
    {
      if good { ReadsCanon(b, p, |b|, want, rest); }
      var x := Uvarint(b, p, |b|);
      if !x.Value? {
        return None;
      }
      p := x.next;
      return Some(x.v);
    }

    method Take(n: nat, ghost good: bool, ghost want: seq<byte>, ghost rest: seq<byte>) returns (x: Option<seq<byte>>)
      requires Valid() && (good ==> n == |want| && Ends(b, p, want + rest))
      modifies this
      ensures Valid() && (x.Some? ==> |x.value| == n)
      ensures good ==> x == Some(want) && Ends(b, p, rest)
    {
      if good {
        EndsSplit(b, p, want, rest);
        HasSlice(b, p, want);
      }
      if n > |b| - p {
        return None;
      }
      x := Some(b[p..p + n]);
      p := p + n;
    }

    method Blob(ghost good: bool, ghost want: seq<byte>, ghost rest: seq<byte>) returns (x: Option<seq<byte>>)
      requires Valid() && (good ==> |want| < B63 && Ends(b, p, BlobThen(want, rest)))
      modifies this
      ensures Valid()
      ensures good ==> x == Some(want) && Ends(b, p, rest)
    {
      var n := U(good, |want|, want + rest);
      if n.None? {
        return None;
      }
      x := Take(n.value, good, want, rest);
    }
  }

  datatype Wrapper = Wrapper(characteristics: seq<byte>, codec: nat, padBefore: seq<byte>, padAfter: seq<byte>, hdrExact: Option<seq<byte>>, index: seq<byte>)

  function BackWrapper(rep: Rep): Wrapper {
    Wrapper(rep.characteristics, rep.indexCodec, rep.padBefore, rep.padAfter, if HdrOrEmpty(rep) == [] then None else rep.hdrExact,
            if rep.indexMode.Exact? then rep.indexBytes else [])
  }

  ghost predicate WrapperWritable(rep: Rep) {
    && |rep.characteristics| == 16 && rep.indexCodec < B63
    && |rep.padBefore| < B63 && |rep.padAfter| < B63 && |HdrOrEmpty(rep)| < B63 && |rep.indexBytes| < B63
  }

  method ReadWrapper(c: Cursor, exact: bool, ghost good: bool, ghost rep: Rep, ghost rest: seq<byte>) returns (w: Option<Wrapper>)
    requires c.Valid()
    requires good ==> WrapperWritable(rep) && rep.v2 && exact == rep.indexMode.Exact? && Ends(c.b, c.p, WrapperThen(rep, rest))
    modifies c
    ensures c.Valid() && (w.Some? ==> |w.value.characteristics| == 16)
    ensures good ==> w == Some(BackWrapper(rep)) && Ends(c.b, c.p, rest)
  {
    ghost var r3 := IndexThen(rep, rest);
    ghost var r2 := BlobThen(HdrOrEmpty(rep), r3);
    ghost var r1 := BlobThen(rep.padAfter, r2);
    ghost var r0 := BlobThen(rep.padBefore, r1);
    var ch := c.Take(16, good, rep.characteristics, Uv(rep.indexCodec) + r0);
    var codec := c.U(good && ch.Some?, rep.indexCodec, r0);
    if ch.None? || codec.None? {
      return None;
    }
    var before := c.Blob(good, rep.padBefore, r1);
    var after := c.Blob(good && before.Some?, rep.padAfter, r2);
    var hdr := c.Blob(good && after.Some?, HdrOrEmpty(rep), r3);
    if before.None? || after.None? || hdr.None? {
      return None;
    }
    var hdrExact := if hdr.value == [] then None else Some(hdr.value);
    var index := Some([]);
    if exact {
      index := c.Blob(good, rep.indexBytes, rest);
      if index.None? {
        return None;
      }
    }
    return Some(Wrapper(ch.value, codec.value, before.value, after.value, hdrExact, index.value));
  }

  method ReadPrefixes(c: Cursor, ghost good: bool, ghost ps: seq<seq<byte>>, ghost rest: seq<byte>) returns (r: Option<seq<seq<byte>>>)
    requires c.Valid()
    requires good ==> |ps| < B63 && (forall i :: 0 <= i < |ps| ==> |ps[i]| < B63) && Ends(c.b, c.p, Uv(|ps|) + PrefixesThen(ps, 0, rest))
    modifies c
    ensures c.Valid()
    ensures good ==> r == Some(ps) && Ends(c.b, c.p, rest)
  {
    var n := c.U(good, |ps|, PrefixesThen(ps, 0, rest));
    if n.None? {
      return None;
    }
    var out, i := [], 0;
    while i < n.value
      invariant 0 <= i <= n.value && |out| == i && c.Valid()
      invariant good ==> (forall k :: 0 <= k < i ==> out[k] == ps[k]) && Ends(c.b, c.p, PrefixesThen(ps, i, rest))
    {
      var x := c.Blob(good, if good then ps[i] else [], if good then PrefixesThen(ps, i + 1, rest) else []);
      if x.None? {
        return None;
      }
      out := out + [x.value];
      i := i + 1;
    }
    assert good ==> out == ps;
    return Some(out);
  }

  method ReadTable(c: Cursor, ghost good: bool, ghost order: seq<Block>, ghost rest: seq<byte>) returns (r: Option<seq<Block>>)
    requires c.Valid()
    requires good ==> |order| < B63 && (forall i :: 0 <= i < |order| ==> order[i].len < B63) && Ends(c.b, c.p, TableThen(order, rest))
    modifies c
    ensures c.Valid()
    ensures good ==> r == Some(order) && Ends(c.b, c.p, rest)
  {
    var n := c.U(good, |order|, BlocksThen(order, 0, rest));
    if n.None? {
      return None;
    }
    var out: seq<Block>, i := [], 0;
    while i < n.value
      invariant 0 <= i <= n.value && |out| == i && c.Valid()
      invariant good ==> (forall k :: 0 <= k < i ==> out[k] == order[k]) && Ends(c.b, c.p, BlocksThen(order, i, rest))
    {
      ghost var x0 := if good then order[i] else Block(Zeros(32), 0);
      ghost var tail := if good then BlocksThen(order, i + 1, rest) else [];
      var s := c.Take(32, good, x0.sum, Uv(x0.len) + tail);
      if s.None? {
        return None;
      }
      var l := c.U(good, x0.len, tail);
      if l.None? {
        return None;
      }
      out := out + [Block(s.value, l.value)];
      i := i + 1;
    }
    assert good ==> out == order;
    return Some(out);
  }

  /** The CID of a ref: a prefix number, or the exact bytes. */
  method ReadCid(c: Cursor, prefixes: nat, ghost good: bool, ghost r: Ref, ghost rest: seq<byte>) returns (x: Option<(bool, nat, seq<byte>)>)
    requires c.Valid()
    requires good ==> |r.cid| < B63 && (r.derived ==> r.prefix < prefixes && r.prefix < B63 - 1) && Ends(c.b, c.p, CidThen(r, rest))
    modifies c
    ensures c.Valid()
    ensures good ==> x == Some((r.derived, if r.derived then r.prefix else 0, if r.derived then [] else r.cid)) && Ends(c.b, c.p, rest)
  {
    var m := c.U(good, if r.derived then r.prefix + 1 else 0, if r.derived then rest else BlobThen(r.cid, rest));
    if m.None? {
      return None;
    }
    if m.value == 0 {
      var cid := c.Blob(good, r.cid, rest);
      if cid.None? {
        return None;
      }
      return Some((false, 0, cid.value));
    }
    if m.value > prefixes {
      return None;
    }
    return Some((true, m.value - 1, []));
  }

  /** The block of a ref: inline bytes, whose digest is recomputed, or a table entry. */
  method ReadBlock(c: Cursor, sha: seq<byte> -> digest, tbl: seq<Block>, ghost good: bool, ghost r: Ref, ghost rest: seq<byte>)
    returns (x: Option<(digest, nat, Option<seq<byte>>)>)
    requires c.Valid() && (good ==> |tbl| < B63 - 1 && BlockKnown(sha, tbl, r))
    requires good ==> Ends(c.b, c.p, if r.inline.Some? then Uv(0) + BlobThen(r.inline.value, rest) else Uv(Position(tbl, r.sum) + 1) + rest)
    modifies c
    ensures c.Valid()
    ensures good ==> x == Some((r.sum, r.len, if r.inline == Some([]) then None else r.inline)) && Ends(c.b, c.p, rest)
  {
    ghost var k0, r0: nat, tail := [], 0, rest;
    if good {
      if r.inline.Some? {
        k0, tail := r.inline.value, BlobThen(r.inline.value, rest);
      } else {
        r0 := Position(tbl, r.sum) + 1;
      }
    }
    var k := c.U(good, r0, tail);
    if k.None? {
      return None;
    }
    if k.value == 0 {
      var inline := c.Blob(good, k0, rest);
      if inline.None? {
        return None;
      }
      return Some((sha(inline.value), |inline.value|, if inline.value == [] then None else inline));
    }
    if k.value > |tbl| {
      return None;
    }
    return Some((tbl[k.value - 1].sum, tbl[k.value - 1].len, None));
  }

  /** The ref's block is inline as described, or listed with its length. */
  predicate BlockKnown(sha: seq<byte> -> digest, tbl: seq<Block>, r: Ref) {
    if r.inline.Some? then r.len == |r.inline.value| && r.len < B63 && r.sum == sha(r.inline.value)
    else Listed(tbl, r.sum) && tbl[Position(tbl, r.sum)].len == r.len
  }

  method ReadRef(c: Cursor, sha: seq<byte> -> digest, tbl: seq<Block>, prefixes: nat, ghost good: bool, ghost r: Ref, ghost rest: seq<byte>)
    returns (x: Option<Ref>)
    requires c.Valid() && (good ==> RefReadable(sha, tbl, prefixes, r) && Ends(c.b, c.p, RefThen(tbl, r, rest)))
    modifies c
    ensures c.Valid()
    ensures good ==> x == Some(BackRef(r)) && Ends(c.b, c.p, rest)
  {
    var blk := ReadBlock(c, sha, tbl, good, r, CidThen(r, rest));
    if blk.None? {
      return None;
    }
    var cid := ReadCid(c, prefixes, good, r, rest);
    if cid.None? {
      return None;
    }
    var (sum, len, inline) := blk.value;
    var (derived, prefix, raw) := cid.value;
    return Some(Ref(sum, len, raw, prefix, derived, inline));
  }

  /** The ref can be read back against the table and the prefixes. */
  predicate RefReadable(sha: seq<byte> -> digest, tbl: seq<Block>, prefixes: nat, r: Ref) {
    && |tbl| < B63 - 1 && BlockKnown(sha, tbl, r)
    && |r.cid| < B63 && (r.derived ==> r.prefix < prefixes && r.prefix < B63 - 1)
  }

  /** Every ref can be read back. */
  ghost predicate RefsReadable(sha: seq<byte> -> digest, tbl: seq<Block>, prefixes: nat, refs: seq<Ref>) {
    AllListed(tbl, refs) && |refs| < B63 && forall i :: 0 <= i < |refs| ==> RefReadable(sha, tbl, prefixes, refs[i])
  }

  method ReadRefs(c: Cursor, sha: seq<byte> -> digest, tbl: seq<Block>, prefixes: nat, ghost good: bool, ghost refs: seq<Ref>)
    returns (r: Option<seq<Ref>>)
    requires c.Valid() && (good ==> RefsReadable(sha, tbl, prefixes, refs) && Ends(c.b, c.p, TailBytes(tbl, refs)))
    modifies c
    ensures c.Valid()
    ensures good ==> r == Some(BackRefs(refs)) && c.p == |c.b|
  {
    var n := c.U(good, if good then |refs| else 0, if good then RefsThen(tbl, refs, 0, []) else []);
    if n.None? {
      return None;
    }
    var out: seq<Ref>, i := [], 0;
    while i < n.value
      invariant 0 <= i <= n.value && |out| == i && c.Valid()
      invariant good ==> AtRef(c, tbl, refs, i, out)
    {
      var x := ReadNext(c, sha, tbl, prefixes, good, refs, i, out);
      if x.None? {
        return None;
      }
      out := out + [x.value];
      i := i + 1;
    }
    if good { RefsRead(c, tbl, refs, out); }
    return Some(out);
  }

  lemma RefsRead(c: Cursor, tbl: seq<Block>, refs: seq<Ref>, out: seq<Ref>)
    requires AllListed(tbl, refs) && |out| == |refs| && AtRef(c, tbl, refs, |refs|, out)
    ensures out == BackRefs(refs) && c.p == |c.b|
  {}

  method ReadNext(c: Cursor, sha: seq<byte> -> digest, tbl: seq<Block>, prefixes: nat, ghost good: bool, ghost refs: seq<Ref>, ghost i: nat, ghost out: seq<Ref>)
    returns (x: Option<Ref>)
    requires c.Valid() && (good ==> RefsReadable(sha, tbl, prefixes, refs) && i < |refs| && AtRef(c, tbl, refs, i, out))
    modifies c
    ensures c.Valid()
    ensures good ==> x.Some? && AtRef(c, tbl, refs, i + 1, out + [x.value])
  {
    if good { RefNext(c, sha, tbl, prefixes, refs, i, out); }
    ghost var r0 := if good then refs[i] else Ref(Zeros(32), 0, [], 0, false, None);
    x := ReadRef(c, sha, tbl, prefixes, good, r0, if good then RefsThen(tbl, refs, i + 1, []) else []);
  }

  /** The cursor stands before ref `i`, and the earlier ones have been read. */
  ghost predicate AtRef(c: Cursor, tbl: seq<Block>, refs: seq<Ref>, i: nat, out: seq<Ref>)
    requires AllListed(tbl, refs)
    reads c
  {
    i == |out| <= |refs| && Ends(c.b, c.p, RefsThen(tbl, refs, i, [])) && forall k :: 0 <= k < i ==> out[k] == BackRef(refs[k])
  }

  lemma RefNext(c: Cursor, sha: seq<byte> -> digest, tbl: seq<Block>, prefixes: nat, refs: seq<Ref>, i: nat, out: seq<Ref>)
    requires RefsReadable(sha, tbl, prefixes, refs) && i < |refs| && AtRef(c, tbl, refs, i, out)
    ensures RefReadable(sha, tbl, prefixes, refs[i]) && Ends(c.b, c.p, RefThen(tbl, refs[i], RefsThen(tbl, refs, i + 1, [])))
  {}

  // ---- the whole recipe ----

  lemma HeadParts(b: seq<byte>, rep: Rep, rest: seq<byte>)
    requires Ends(b, 0, HeadThen(rep, rest))
    ensures |b| >= 2 && b[0] == 1 && b[1] == FlagByte(rep)
    ensures Ends(b, 2, BlobThen(rep.header, WrapperThen(rep, Uv(|rep.prefixes|) + PrefixesThen(rep.prefixes, 0, rest))))
  {
    var x := BlobThen(rep.header, WrapperThen(rep, Uv(|rep.prefixes|) + PrefixesThen(rep.prefixes, 0, rest)));
    HasByte(b, 0, 1, [FlagByte(rep)] + x);
    HasByte(b, 1, FlagByte(rep), x);
  }

  lemma RefsCanBeRead(sha: seq<byte> -> digest, rep: Rep, order: seq<Block>)
    requires Writable(sha, rep) && TableOf(rep.refs, |rep.refs|, order) && |order| <= |rep.refs| && AllListed(order, rep.refs)
    ensures RefsReadable(sha, order, |rep.prefixes|, rep.refs)
    ensures forall k :: 0 <= k < |order| ==> order[k].len < B63
  {
    forall i | 0 <= i < |rep.refs| ensures RefReadable(sha, order, |rep.prefixes|, rep.refs[i]) {
      var r := rep.refs[i];
      assert RefWritable(sha, rep.prefixes, r);
      if r.inline.None? {
        var k :| 0 <= k < |order| && order[k] == Block(r.sum, r.len);
        PositionIs(order, r.sum, k);
      }
    }
    forall k | 0 <= k < |order| ensures order[k].len < B63 {
      assert Used(rep.refs, |rep.refs|, order[k]);
      var i :| 0 <= i < |rep.refs| && rep.refs[i].inline.None? && order[k] == Block(rep.refs[i].sum, rep.refs[i].len);
      assert RefWritable(sha, rep.prefixes, rep.refs[i]);
    }
  }

  function ModeOf(code: nat): Option<IndexMode> {
    if code == 0 then Some(NoIndex) else if code == 1 then Some(Derived) else if code == 2 then Some(Exact) else None
  }

  /** The claim about a recipe's bytes that the reader is proved against. */
  ghost predicate Holds(b: seq<byte>, sha: seq<byte> -> digest, rep: Rep, order: seq<Block>) {
    && Writable(sha, rep) && TableOf(rep.refs, |rep.refs|, order) && |order| <= |rep.refs| && AllListed(order, rep.refs)
    && b == RecipeBytes(rep, order)
  }

  /** Parses a recipe. What it makes of a written one is `ReadBack(rep)`, whatever the order of the table. */
  method Unmarshal(b: seq<byte>, sha: seq<byte> -> digest, ghost rep: Rep, ghost order: seq<Block>) returns (r: Option<Rep>)
    ensures Holds(b, sha, rep, order) ==> r == Some(ReadBack(rep))
  {
    ghost var good := Holds(b, sha, rep, order);
    ghost var tail := if good then TailBytes(order, rep.refs) else [];
    if good {
      EndsAll(b);
      HeadParts(b, rep, TableThen(order, tail));
      RefsCanBeRead(sha, rep, order);
    }
    if |b| < 2 || b[0] != 1 {
      return None;
    }
    var v2, mode := b[1] % 2 == 1, ModeOf(b[1] / 2);
    if mode.None? {
      return None;
    }
    var c := new Cursor(b, 2);
    ghost var r1 := Uv(|rep.prefixes|) + PrefixesThen(rep.prefixes, 0, TableThen(order, tail));
    var header := c.Blob(good, rep.header, WrapperThen(rep, r1));
    if header.None? {
      return None;
    }
    var w := Wrapper(Zeros(16), 0, [], [], None, []);
    if v2 {
      var x := ReadWrapper(c, mode.value.Exact?, good, rep, r1);
      if x.None? {
        return None;
      }
      w := x.value;
    }
    r := ReadRest(c, sha, v2, header.value, mode.value, w, good, rep, order);
  }

  method ReadRest(c: Cursor, sha: seq<byte> -> digest, v2: bool, header: seq<byte>, mode: IndexMode, w: Wrapper,
                  ghost good: bool, ghost rep: Rep, ghost order: seq<Block>)
    returns (r: Option<Rep>)
    requires c.Valid()
    requires good ==> Writable(sha, rep) && |order| < B63 && RefsReadable(sha, order, |rep.prefixes|, rep.refs)
    requires good ==> forall k :: 0 <= k < |order| ==> order[k].len < B63
    requires good ==> Ends(c.b, c.p, Uv(|rep.prefixes|) + PrefixesThen(rep.prefixes, 0, TableThen(order, TailBytes(order, rep.refs))))
    requires good ==> v2 == rep.v2 && header == rep.header && mode == rep.indexMode
    requires good ==> w == if v2 then BackWrapper(rep) else Wrapper(Zeros(16), 0, [], [], None, [])
    modifies c
    ensures good ==> r == Some(ReadBack(rep))
  {
    ghost var tail := if good then TailBytes(order, rep.refs) else [];
    var prefixes := ReadPrefixes(c, good, rep.prefixes, TableThen(order, tail));
    if prefixes.None? {
      return None;
    }
    var tbl := ReadTable(c, good, order, tail);
    if tbl.None? {
      return None;
    }
    var refs := ReadRefs(c, sha, tbl.value, |prefixes.value|, good, rep.refs);
    if refs.None? || c.p != |c.b| {
      return None;
    }
    return Some(Rep(v2, header, prefixes.value, refs.value, w.characteristics, w.hdrExact, w.padBefore, w.padAfter, mode, w.codec, w.index));
  }

  /** Writing and reading back a recipe, sorted or not, gives `ReadBack(rep)`: the same recipe in every field that reconstruction uses. */
  method MarshalThenUnmarshal(rep: Rep, sorted: bool, sha: seq<byte> -> digest) returns (r: Option<Rep>)
    requires rep.Ok()
    ensures Writable(sha, rep) ==> r == Some(ReadBack(rep))
  {
    var head, table, tail := MarshalParts(rep, sorted);
    OrderTable(rep.refs, sorted);
    TableShort(rep.refs, |rep.refs|);
    r := Unmarshal(head + table + tail, sha, rep, BlockOrder(rep.refs, sorted));
  }

  lemma {:induction false} TableShort(refs: seq<Ref>, k: nat)
    requires k <= |refs|
    ensures |FirstUse(refs, k)| <= k
  {
    if k > 0 { TableShort(refs, k - 1); }
  }

  /** The table bytes of two recipes over the same set of blocks are the same when sorted. */
  lemma SortedTableBytes(s: seq<Ref>, t: seq<Ref>)
    requires forall b :: b in FirstUse(s, |s|) <==> b in FirstUse(t, |t|)
    ensures TableThen(BlockOrder(s, true), []) == TableThen(BlockOrder(t, true), [])
  {
    SortedTableUnique(s, t);
  }
}
