/** The structure of a parsed bitstream: how blocks nest and where records lie (bitcodez3/parse.go). */
module BitcodeShape {
  import opened Bytes
  import opened BitcodeBits
  import opened BitcodeModel

  // ---- what a parsed stretch of bits looks like ----

  /** A block: header, then a non-empty body, both ends on 32-bit boundaries. */
  predicate BlockOk(b: Block) { b.start < b.body < b.end && b.body % 32 == 0 && b.end % 32 == 0 && 2 <= b.width <= 32 }

  predicate Within(lo: nat, start: nat, end: nat, hi: nat) { lo <= start && start < end && end <= hi }

  /** A later block is inside the earlier one or after it. */
  predicate InsideOrAfter(b: Block, c: Block) {
    b.start < c.start && (b.end <= c.start || (b.body <= c.start && c.end <= b.end))
  }

  predicate Holds(b: Block, r: Record) { b.body <= r.start && r.end <= b.end }

  /** A record is in the body of a block or outside the block. */
  predicate InOrOut(b: Block, r: Record) { Holds(b, r) || r.end <= b.start || b.end <= r.start }

  /** How many of the first `k` records are in a block. */
  function Count(rs: seq<Record>, b: Block, k: nat): nat
    requires k <= |rs|
  {
    if k == 0 then 0 else Count(rs, b, k - 1) + if Holds(b, rs[k - 1]) then 1 else 0
  }

  /** The innermost of the first `k` blocks, in preorder, that holds a record; `id` if none does. */
  function Owner(bs: seq<Block>, r: Record, k: nat, id: nat): nat
    requires k <= |bs|
  {
    if k == 0 then id else if Holds(bs[k - 1], r) then bs[k - 1].id else Owner(bs, r, k - 1, id)
  }

  ghost predicate BlocksOk(lo: nat, hi: nat, bs: seq<Block>) {
    && (forall i :: 0 <= i < |bs| ==> BlockOk(bs[i]) && Within(lo, bs[i].start, bs[i].end, hi))
    && (forall i, j :: 0 <= i < j < |bs| ==> InsideOrAfter(bs[i], bs[j]))
  }

  ghost predicate RecordsOk(lo: nat, hi: nat, rs: seq<Record>) {
    && (forall i :: 0 <= i < |rs| ==> Within(lo, rs[i].start, rs[i].end, hi))
    && (forall i, j :: 0 <= i < j < |rs| ==> rs[i].end <= rs[j].start)
  }

  ghost predicate Placed(bs: seq<Block>, rs: seq<Record>) {
    forall i, j :: 0 <= i < |bs| && 0 <= j < |rs| ==> InOrOut(bs[i], rs[j])
  }

  ghost predicate CountsOk(bs: seq<Block>, rs: seq<Record>) {
    forall i :: 0 <= i < |bs| ==> bs[i].records == Count(rs, bs[i], |rs|)
  }

  ghost predicate OwnersOk(id: nat, bs: seq<Block>, rs: seq<Record>) {
    forall j :: 0 <= j < |rs| ==> rs[j].block == Owner(bs, rs[j], |bs|, id)
  }

  /** The blocks and records found in the bits [lo, hi) of block `id`. */
  ghost predicate Shape(id: nat, lo: nat, hi: nat, bs: seq<Block>, rs: seq<Record>) {
    lo <= hi && BlocksOk(lo, hi, bs) && RecordsOk(lo, hi, rs) && Placed(bs, rs) && CountsOk(bs, rs) && OwnersOk(id, bs, rs)
  }

  // ---- counting and owning over two stretches ----

  lemma {:induction false} CountSame(rs: seq<Record>, qs: seq<Record>, b: Block, k: nat)
    requires k <= |rs| <= |qs| && forall i :: 0 <= i < k ==> qs[i] == rs[i]
    ensures Count(qs, b, k) == Count(rs, b, k)
  {
    if k > 0 { CountSame(rs, qs, b, k - 1); }
  }

  lemma {:induction false} CountNone(rs: seq<Record>, b: Block, from: nat, k: nat)
    requires from <= k <= |rs| && forall i :: from <= i < k ==> !Holds(b, rs[i])
    ensures Count(rs, b, k) == Count(rs, b, from)
  {
    if from < k { CountNone(rs, b, from, k - 1); }
  }

  lemma {:induction false} CountAll(rs: seq<Record>, b: Block, k: nat)
    requires k <= |rs| && forall i :: 0 <= i < k ==> Holds(b, rs[i])
    ensures Count(rs, b, k) == k
  {
    if k > 0 { CountAll(rs, b, k - 1); }
  }

  lemma {:induction false} CountShift(rs: seq<Record>, qs: seq<Record>, b: Block, k: nat)
    requires k <= |qs| && Count(rs, b, |rs|) == 0
    ensures Count(rs + qs, b, |rs| + k) == Count(qs, b, k)
  {
    if k == 0 { CountSame(rs, rs + qs, b, |rs|); } else { CountShift(rs, qs, b, k - 1); }
  }

  lemma {:induction false} OwnerSame(bs: seq<Block>, cs: seq<Block>, r: Record, k: nat, id: nat)
    requires k <= |bs| <= |cs| && forall i :: 0 <= i < k ==> cs[i] == bs[i]
    ensures Owner(cs, r, k, id) == Owner(bs, r, k, id)
  {
    if k > 0 { OwnerSame(bs, cs, r, k - 1, id); }
  }

  lemma {:induction false} OwnerNone(bs: seq<Block>, r: Record, from: nat, k: nat, id: nat)
    requires from <= k <= |bs| && forall i :: from <= i < k ==> !Holds(bs[i], r)
    ensures Owner(bs, r, k, id) == Owner(bs, r, from, id)
  {
    if from < k { OwnerNone(bs, r, from, k - 1, id); }
  }

  lemma {:induction false} OwnerShift(bs: seq<Block>, cs: seq<Block>, r: Record, k: nat, id: nat)
    requires k <= |cs|
    ensures Owner(bs + cs, r, |bs| + k, id) == Owner(cs, r, k, Owner(bs, r, |bs|, id))
  {
    if k == 0 { OwnerSame(bs, bs + cs, r, |bs|, id); } else { OwnerShift(bs, cs, r, k - 1, id); }
  }

  // ---- two stretches, one after the other ----

  lemma JoinCounts(lo: nat, mid: nat, hi: nat, bs: seq<Block>, rs: seq<Record>, cs: seq<Block>, qs: seq<Record>)
    requires BlocksOk(lo, mid, bs) && RecordsOk(lo, mid, rs) && CountsOk(bs, rs)
    requires BlocksOk(mid, hi, cs) && RecordsOk(mid, hi, qs) && CountsOk(cs, qs)
    ensures CountsOk(bs + cs, rs + qs)
  {
    var all := rs + qs;
    forall i | 0 <= i < |bs + cs| ensures (bs + cs)[i].records == Count(all, (bs + cs)[i], |all|) {
      var b := (bs + cs)[i];
      if i < |bs| {
        assert b == bs[i];
        CountSame(rs, all, b, |rs|);
        CountNone(all, b, |rs|, |all|);
      } else {
        assert b == cs[i - |bs|];
        CountNone(rs, b, 0, |rs|);
        CountShift(rs, qs, b, |qs|);
      }
    }
  }

  lemma JoinOwners(id: nat, lo: nat, mid: nat, hi: nat, bs: seq<Block>, rs: seq<Record>, cs: seq<Block>, qs: seq<Record>)
    requires BlocksOk(lo, mid, bs) && RecordsOk(lo, mid, rs) && OwnersOk(id, bs, rs)
    requires BlocksOk(mid, hi, cs) && RecordsOk(mid, hi, qs) && OwnersOk(id, cs, qs)
    ensures OwnersOk(id, bs + cs, rs + qs)
  {
    var all := bs + cs;
    forall j | 0 <= j < |rs + qs| ensures (rs + qs)[j].block == Owner(all, (rs + qs)[j], |all|, id) {
      var r := (rs + qs)[j];
      if j < |rs| {
        assert r == rs[j];
        OwnerSame(bs, all, r, |bs|, id);
        OwnerNone(all, r, |bs|, |all|, id);
      } else {
        assert r == qs[j - |rs|];
        OwnerNone(bs, r, 0, |bs|, id);
        OwnerShift(bs, cs, r, |cs|, id);
      }
    }
  }

  lemma Join(id: nat, lo: nat, mid: nat, hi: nat, bs: seq<Block>, rs: seq<Record>, cs: seq<Block>, qs: seq<Record>)
    requires Shape(id, lo, mid, bs, rs) && Shape(id, mid, hi, cs, qs)
    ensures Shape(id, lo, hi, bs + cs, rs + qs)
  {
    JoinCounts(lo, mid, hi, bs, rs, cs, qs);
    JoinOwners(id, lo, mid, hi, bs, rs, cs, qs);
  }

  // ---- a block around what it holds ----

  lemma WrapCounts(b: Block, bs: seq<Block>, rs: seq<Record>)
    requires RecordsOk(b.body, b.end, rs) && CountsOk(bs, rs) && b.records == |rs|
    ensures CountsOk([b] + bs, rs)
  {
    CountAll(rs, b, |rs|);
  }

  lemma WrapOwners(id: nat, b: Block, bs: seq<Block>, rs: seq<Record>)
    requires RecordsOk(b.body, b.end, rs) && OwnersOk(b.id, bs, rs)
    ensures OwnersOk(id, [b] + bs, rs)
  {
    forall j | 0 <= j < |rs| ensures rs[j].block == Owner([b] + bs, rs[j], |[b] + bs|, id) {
      OwnerShift([b], bs, rs[j], |bs|, id);
      assert Holds(b, rs[j]);
      assert Owner([b], rs[j], 1, id) == b.id;
    }
  }

  lemma Wrap(id: nat, lo: nat, b: Block, bs: seq<Block>, rs: seq<Record>)
    requires Shape(b.id, b.body, b.end, bs, rs) && BlockOk(b) && lo <= b.start && b.records == |rs|
    ensures Shape(id, lo, b.end, [b] + bs, rs)
  {
    WrapCounts(b, bs, rs);
    WrapOwners(id, b, bs, rs);
  }

  // ---- the reader's result ----

  lemma AlignLands(d: seq<byte>, end: nat, s: St)
    requires Inside(d, end) && !Align(d, end, s).bad
    ensures Align(d, end, s).p % 32 == 0
  {
    GapLands(s.p);
  }

  lemma GapLands(p: nat)
    ensures (p + Gap(p)) % 32 == 0
  {}

  lemma SumAligned(a: nat, b: nat)
    requires a % 32 == 0 && b % 32 == 0
    ensures (a + b) % 32 == 0
  {
    assert a + b == 32 * (a / 32 + b / 32);
  }

  /** A sub-block's body begins and ends on a 32-bit boundary. */
  lemma HeadAligned(d: seq<byte>, end: nat, s: St)
    requires Inside(d, end) && !HeadAt(d, end, s).s.bad
    ensures var h := HeadAt(d, end, s); h.s.p % 32 == 0 && h.finish % 32 == 0
  {
    var t := Vbr(d, end, 8, s);
    var v := Vbr(d, end, 4, t);
    AlignLands(d, end, v);
    ExtentAligned(d, end, VbrValue(d, end, 8, s), VbrValue(d, end, 4, t), Align(d, end, v));
  }

  lemma ExtentAligned(d: seq<byte>, end: nat, id: nat, w: nat, u: St)
    requires Inside(d, end) && u.p % 32 == 0 && !Extent(d, end, id, w, u).s.bad
    ensures var h := Extent(d, end, id, w, u); h.s.p % 32 == 0 && h.finish % 32 == 0
  {
    var h := Extent(d, end, id, w, u);
    SumAligned(u.p, 32);
    SumAligned(h.s.p, h.finish - h.s.p);
  }

  /** What a step has added to the plan. */
  ghost predicate Added(id: nat, s: St, r: St, bs: seq<Block>, rs: seq<Record>) {
    r.blocks == s.blocks + bs && r.records == s.records + rs && Shape(id, s.p, r.p, bs, rs)
  }

  lemma AddedJoin(id: nat, s: St, t: St, r: St, bs: seq<Block>, rs: seq<Record>, cs: seq<Block>, qs: seq<Record>)
    requires Added(id, s, t, bs, rs) && Added(id, t, r, cs, qs)
    ensures Added(id, s, r, bs + cs, rs + qs)
  {
    Join(id, s.p, t.p, r.p, bs, rs, cs, qs);
    Glue(s.blocks, bs, cs);
    Glue(s.records, rs, qs);
  }

  lemma NothingAdded(id: nat, s: St, r: St)
    requires r.blocks == s.blocks && r.records == s.records && s.p <= r.p
    ensures Added(id, s, r, [], [])
  {}

  lemma RecordShape(d: seq<byte>, f: Frame, sc: Scope, start: nat, code: nat, s: St, t: St) returns (rs: seq<Record>)
    requires FrameOk(d, f) && t == s.(p := t.p) && s.p == start < t.p
    requires !RecordItem(d, f, sc, start, code, t).s.bad
    ensures Added(f.id, s, RecordItem(d, f, sc, start, code, t).s, [], rs)
  {
    var r := RecordItem(d, f, sc, start, code, t).s;
    var x := r.records[|s.records|];
    rs := [x];
    assert r.records == r.records[..|s.records|] + [x];
    assert Owner([], x, 0, f.id) == f.id;
  }

  lemma SubBlockShape(d: seq<byte>, f: Frame, s: St, h: Head) returns (bs: seq<Block>, rs: seq<Record>)
    requires FrameOk(d, f) && h.s == s.(p := h.s.p) && s.p < h.s.p <= h.finish <= f.end && 2 <= h.width <= 32
    requires h.s.p % 32 == 0 && h.finish % 32 == 0
    requires !SubBlock(d, f, s.p, h).bad
    ensures Added(f.id, s, SubBlock(d, f, s.p, h), bs, rs)
    decreases h.finish - h.s.p, 3
  {
    var b := Block(h.id, s.p, h.s.p, h.finish, h.width, 0);
    var t := h.s.(blocks := s.blocks + [b]);
    var g := Frame(h.id, h.width, h.finish, f.depth + 1, false);
    var r := BlockAt(d, g, t);
    bs, rs := BlockShape(d, g, t);
    Enclose(f.id, s, t, r, b, bs, rs);
    bs := [b.(records := |rs|)] + bs;
  }

  lemma BlockShape(d: seq<byte>, f: Frame, s: St) returns (bs: seq<Block>, rs: seq<Record>)
    requires FrameOk(d, f) && !f.top && !BlockAt(d, f, s).bad
    ensures Added(f.id, s, BlockAt(d, f, s), bs, rs) && s.p < f.end
    decreases f.end - s.p, 2
  {
    var sc := Scope(Known(s, f.id), None);
    bs, rs := ItemsShape(d, f, sc, s);
    NotEmpty(d, f, sc, s);
  }

  /** A block around what its items have added. */
  lemma {:induction false} Enclose(id: nat, s: St, t: St, r: St, b: Block, bs: seq<Block>, rs: seq<Record>)
    requires BlockOk(b) && s.p == b.start && t.p == b.body && r.p == b.end && t.blocks == s.blocks + [b] && t.records == s.records
    requires Added(b.id, t, r, bs, rs)
    ensures |s.blocks| < |r.blocks| && |s.records| <= |r.records|
    ensures Added(id, s, r.(blocks := Counted(r.blocks, |s.blocks|, |r.records| - |s.records|)), [b.(records := |rs|)] + bs, rs)
  {
    Wrap(id, s.p, b.(records := |rs|), bs, rs);
    PutBack(s.blocks, b, bs, |rs|);
  }

  lemma PutBack(a: seq<Block>, b: Block, bs: seq<Block>, n: nat)
    ensures Counted((a + [b]) + bs, |a|, n) == a + ([b.(records := n)] + bs)
  {}

  /** Only the top level may be empty. */
  lemma NotEmpty(d: seq<byte>, f: Frame, sc: Scope, s: St)
    requires FrameOk(d, f) && !f.top && !Items(d, f, sc, s).bad
    ensures s.p < f.end
  {}

  lemma ItemShape(d: seq<byte>, f: Frame, sc: Scope, s: St) returns (bs: seq<Block>, rs: seq<Record>)
    requires FrameOk(d, f) && s.p < f.end && !Item(d, f, sc, s).s.bad
    ensures Added(f.id, s, Item(d, f, sc, s).s, bs, rs)
    decreases f.end - s.p, 0
  {
    var code, t := BitsValue(d, f.end, f.width, s), Bits(d, f.end, f.width, s);
    bs, rs := [], [];
    if code == 0 {
      NothingAdded(f.id, s, EndBlock(d, f, t));
    } else if code == 1 {
      HeadAligned(d, f.end, t);
      bs, rs := SubBlockShape(d, f, s, HeadAt(d, f.end, t));
    } else if code == 2 {
      NothingAdded(f.id, s, Defined(f, sc, Definition(d, f.end, t)).s);
    } else {
      rs := RecordShape(d, f, sc, s.p, code, s, t);
    }
  }

  lemma ItemsShape(d: seq<byte>, f: Frame, sc: Scope, s: St) returns (bs: seq<Block>, rs: seq<Record>)
    requires FrameOk(d, f) && !Items(d, f, sc, s).bad
    ensures Added(f.id, s, Items(d, f, sc, s), bs, rs)
    decreases f.end - s.p, 1
  {
    if s.p >= f.end {
      bs, rs := [], [];
      NothingAdded(f.id, s, s);
    } else {
      bs, rs := ItemShape(d, f, sc, s);
      var x := Item(d, f, sc, s);
      if x.More? {
        var cs, qs := ItemsShape(d, f, x.sc, x.s);
        AddedJoin(f.id, s, x.s, Items(d, f, sc, s), bs, rs, cs, qs);
        bs, rs := bs + cs, rs + qs;
      }
    }
  }

  /** How far the top level reads: to the end of the file. */
  lemma {:induction false} TopEnds(d: seq<byte>, f: Frame, sc: Scope, s: St)
    requires FrameOk(d, f) && f.top && s.p <= f.end && !Items(d, f, sc, s).bad
    ensures Items(d, f, sc, s).p == f.end
    decreases f.end - s.p
  {
    if s.p < f.end {
      var x := Item(d, f, sc, s);
      if x.More? { TopEnds(d, f, x.sc, x.s); }
    }
  }

  /**
   A parsed file: blocks in preorder, aligned and non-empty, nested or disjoint; records in order,
   each in its innermost block; the record count of a block is that of its subtree.
   */
  lemma ParsedShape(d: seq<byte>)
    requires ParsePlan(d).Some?
    ensures var p := ParsePlan(d).value; Shape(TOP, 32, 8 * |d|, p.blocks, p.records)
  {
    var f := Frame(TOP, 2, 8 * |d|, 0, true);
    var sc := Scope([], None);
    var bs, rs := ItemsShape(d, f, sc, Start());
    TopEnds(d, f, sc, Start());
    assert [] + bs == bs && [] + rs == rs;
  }

  // ---- variable-width integers ----

  /** Chunks that hold digits are read exactly to their end, as the number they stand for, if and only if that fits 64 bits. */
  lemma VbrReadsBack(d: seq<byte>, end: nat, n: nat, s: St, ds: seq<nat>)
    requires Inside(d, end) && 2 <= n <= 32 && !s.bad
    requires HasChunks(d, s.p, n, ds) && s.p + ChunksLength(n, ds) <= end
    ensures !Vbr(d, end, n, s).bad <==> WordFits(n, 0, ds)
    ensures WordFits(n, 0, ds) ==> Vbr(d, end, n, s) == s.(p := s.p + ChunksLength(n, ds)) && VbrValue(d, end, n, s) == Total(n, ds)
  {
    ChunksReadBack(d, end, n, 0, s, ds);
  }

  lemma {:induction false} ChunksReadBack(d: seq<byte>, end: nat, n: nat, shift: nat, s: St, ds: seq<nat>)
    requires Inside(d, end) && 2 <= n <= 32 && !s.bad
    requires HasChunks(d, s.p, n, ds) && s.p + ChunksLength(n, ds) <= end
    ensures !Chunks(d, end, n, shift, s).bad <==> WordFits(n, shift, ds)
    ensures WordFits(n, shift, ds) ==>
      Chunks(d, end, n, shift, s) == s.(p := s.p + ChunksLength(n, ds)) && ChunksValue(d, end, n, shift, s) == Total(n, ds)
    decreases |ds|
  {
    ChunkRead(d, end, n, s, ds);
    if |ds| > 1 {
      ChunksReadBack(d, end, n, shift + n - 1, s.(p := s.p + n), ds[1..]);
    }
  }

  /** The first chunk holds the first digit. */
  lemma ChunkRead(d: seq<byte>, end: nat, n: nat, s: St, ds: seq<nat>)
    requires Inside(d, end) && 2 <= n <= 32 && !s.bad
    requires HasChunks(d, s.p, n, ds) && s.p + n <= end
    ensures CanRead(end, n, s) && Low(BitsValue(d, end, n, s), n - 1) == ds[0]
    ensures LastChunk(d, end, n, s) <==> |ds| == 1
  {
    LowPart(ds[0], n - 1);
  }
}
