/**
 The address map of a binary image (binref/image.go): regions that partition the
 file, the index of mapped regions by virtual address, and the slot encodings.
 */
module BinrefImage {
  import opened Bytes
  import opened Sorting

  datatype Region = Region(name: string, off: i64, len: i64, va: u64, vsize: u64, mapped: bool) {
    /** Run-time size: `vsize` when it exceeds the file bytes (a zero-filled tail). */
    function RunSize(): u64 { if vsize > len then vsize else len }

    function Limit(): int { va + RunSize() }

    predicate ContainsOff(x: int) { off <= x < off + len }

    predicate ContainsVA(x: int) { mapped && va <= x < Limit() }
  }

  /** The regions are an exact partition of [0, n), in order. */
  ghost predicate Tiles(regs: seq<Region>, n: int) {
    && (forall i :: 0 <= i < |regs| ==> regs[i].len >= 0)
    && (forall i {:trigger EndBefore(regs, i)} :: 0 <= i < |regs| ==> regs[i].off == EndBefore(regs, i))
    && EndBefore(regs, |regs|) == n
  }

  function EndBefore(regs: seq<Region>, i: nat): int
    requires i <= |regs|
  {
    if i == 0 then 0 else regs[i - 1].off + regs[i - 1].len
  }

  lemma {:induction false} TilesMonotone(regs: seq<Region>, n: int, i: nat, j: nat)
    requires Tiles(regs, n) && i <= j <= |regs|
    ensures EndBefore(regs, i) <= EndBefore(regs, j)
  {
    if i < j {
      TilesMonotone(regs, n, i, j - 1);
      assert regs[j - 1].off == EndBefore(regs, j - 1);
    }
  }

  lemma TilesBounds(regs: seq<Region>, n: int, i: nat)
    requires Tiles(regs, n) && i < |regs|
    ensures 0 <= regs[i].off <= regs[i].off + regs[i].len <= n
  {
    assert regs[i].off == EndBefore(regs, i);
    TilesMonotone(regs, n, 0, i);
    TilesMonotone(regs, n, i + 1, |regs|);
  }

  lemma {:induction false} TilesCover(regs: seq<Region>, n: int, x: int)
    requires Tiles(regs, n) && 0 <= x < n
    ensures exists i :: 0 <= i < |regs| && regs[i].ContainsOff(x)
  {
    var k := |regs|;
    while k > 0 && EndBefore(regs, k) > x
      invariant 0 <= k <= |regs|
      invariant k < |regs| ==> x < EndBefore(regs, k + 1)
    {
      k := k - 1;
    }
    assert regs[k].off == EndBefore(regs, k);
    assert regs[k].ContainsOff(x);
  }

  /** In a partition, at most one region holds an offset. */
  lemma TilesUnique(regs: seq<Region>, n: int, x: int, i: nat, j: nat)
    requires Tiles(regs, n) && i < |regs| && j < |regs|
    requires regs[i].ContainsOff(x) && regs[j].ContainsOff(x)
    ensures i == j
  {
    assert regs[i].off == EndBefore(regs, i) && regs[j].off == EndBefore(regs, j);
    if i < j { TilesMonotone(regs, n, i + 1, j); }
    if j < i { TilesMonotone(regs, n, j + 1, i); }
  }

  /** Linear scans: the region holding a file offset, and the mapped region holding an address. */
  function ScanOff(regs: seq<Region>, x: int): (r: int)
    ensures -1 <= r < |regs|
    ensures r >= 0 ==> regs[r].ContainsOff(x)
    ensures r < 0 ==> forall i :: 0 <= i < |regs| ==> !regs[i].ContainsOff(x)
  {
    if regs == [] then -1
    else if regs[|regs| - 1].ContainsOff(x) then |regs| - 1
    else ScanOff(regs[..|regs| - 1], x)
  }

  function ScanVA(regs: seq<Region>, x: int): (r: int)
    ensures -1 <= r < |regs|
    ensures r >= 0 ==> regs[r].ContainsVA(x)
    ensures r < 0 ==> forall i :: 0 <= i < |regs| ==> !regs[i].ContainsVA(x)
  {
    if regs == [] then -1
    else if regs[|regs| - 1].ContainsVA(x) then |regs| - 1
    else ScanVA(regs[..|regs| - 1], x)
  }

  /** A region may be indexed: it is mapped, non-empty and does not wrap the address space. */
  predicate Mappable(r: Region) {
    r.mapped && r.RunSize() > 0 && Add64(r.va, r.RunSize()) > r.va
  }

  ghost predicate Valid(idx: seq<int>, n: int) {
    forall k :: 0 <= k < |idx| ==> 0 <= idx[k] < n
  }

  function Candidates(regs: seq<Region>): (c: seq<int>)
    ensures Valid(c, |regs|)
    ensures forall k :: 0 <= k < |c| ==> Mappable(regs[c[k]])
    ensures forall k :: 0 <= k < |regs| && Mappable(regs[k]) ==> k in c
    ensures forall a, b :: 0 <= a < b < |c| ==> c[a] < c[b]
  {
    if regs == [] then []
    else
      var n := |regs| - 1;
      var c := Candidates(regs[..n]);
      if Mappable(regs[n]) then c + [n] else c
  }

  function VAKey(regs: seq<Region>): int -> int {
    i => if 0 <= i < |regs| then regs[i].va else 0
  }

  /** Walking candidates in address order, keep each one that starts at or after the last kept end. */
  function Keep(regs: seq<Region>, order: seq<int>, hi: int): (r: seq<int>)
    requires Valid(order, |regs|)
    ensures forall k :: k in r ==> k in order
  {
    if order == [] then []
    else if regs[order[0]].va < hi then Keep(regs, order[1..], hi)
    else [order[0]] + Keep(regs, order[1..], regs[order[0]].Limit())
  }

  function IndexOf(regs: seq<Region>): (r: seq<int>)
    ensures forall k :: 0 <= k < |r| ==> 0 <= r[k] < |regs| && Mappable(regs[r[k]])
  {
    SortedCandidates(regs);
    var o := SortBy(VAKey(regs), Candidates(regs));
    var r := Keep(regs, o, 0);
    assert forall k :: 0 <= k < |r| ==> r[k] in o;
    r
  }

  lemma SortedCandidates(regs: seq<Region>)
    ensures var o := SortBy(VAKey(regs), Candidates(regs));
            && Valid(o, |regs|)
            && (forall k :: 0 <= k < |o| ==> Mappable(regs[o[k]]))
            && (forall k, l :: 0 <= k < l < |o| ==> regs[o[k]].va <= regs[o[l]].va)
  {
    var c := Candidates(regs);
    var o := SortBy(VAKey(regs), c);
    forall k | 0 <= k < |o| ensures 0 <= o[k] < |regs| && Mappable(regs[o[k]]) {
      SameElements(o, c, o[k]);
    }
    forall k, l | 0 <= k < l < |o| ensures regs[o[k]].va <= regs[o[l]].va {
      assert VAKey(regs)(o[k]) <= VAKey(regs)(o[l]);
    }
  }

  /** The regions after demotion: exactly the indexed ones stay mapped. */
  function Demoted(regs: seq<Region>, idx: seq<int>): (r: seq<Region>)
    ensures |r| == |regs|
    ensures forall i :: 0 <= i < |r| ==> r[i] == regs[i].(mapped := i in idx)
  {
    seq(|regs|, i requires 0 <= i < |regs| => regs[i].(mapped := i in idx))
  }

  /** The index lists exactly the mapped regions, in address order, without overlap or wrap. */
  ghost predicate Indexed(regs: seq<Region>, idx: seq<int>) {
    && (forall k :: 0 <= k < |idx| ==> 0 <= idx[k] < |regs|)
    && (forall i :: 0 <= i < |regs| ==> (regs[i].mapped <==> i in idx))
    && (forall k :: 0 <= k < |idx| ==> regs[idx[k]].va < regs[idx[k]].Limit() < B64)
    && (forall k, l :: 0 <= k < l < |idx| ==> regs[idx[k]].Limit() <= regs[idx[l]].va)
  }

  lemma {:induction false} KeepSpaced(regs: seq<Region>, order: seq<int>, hi: int)
    requires forall k :: 0 <= k < |order| ==> 0 <= order[k] < |regs| && Mappable(regs[order[k]])
    requires forall i, j :: 0 <= i < j < |order| ==> regs[order[i]].va <= regs[order[j]].va
    ensures var r := Keep(regs, order, hi);
            && Valid(r, |regs|)
            && (forall k :: 0 <= k < |r| ==> regs[r[k]].va >= hi)
            && (forall k, l :: 0 <= k < l < |r| ==> regs[r[k]].Limit() <= regs[r[l]].va)
  {
    if order != [] {
      if regs[order[0]].va < hi {
        KeepSpaced(regs, order[1..], hi);
      } else {
        assert Mappable(regs[order[0]]);
        KeepSpaced(regs, order[1..], regs[order[0]].Limit());
      }
    }
  }

  /** After preparation the mapped ranges are pairwise disjoint and indexed in address order. */
  lemma IndexOfIndexes(regs: seq<Region>)
    ensures Indexed(Demoted(regs, IndexOf(regs)), IndexOf(regs))
  {
    var o := SortBy(VAKey(regs), Candidates(regs));
    SortedCandidates(regs);
    KeepSpaced(regs, o, 0);
    DemotedIndexed(regs, IndexOf(regs));
  }

  lemma DemotedIndexed(regs: seq<Region>, idx: seq<int>)
    requires forall k :: 0 <= k < |idx| ==> 0 <= idx[k] < |regs| && Mappable(regs[idx[k]])
    requires forall k, l :: 0 <= k < l < |idx| ==> regs[idx[k]].Limit() <= regs[idx[l]].va
    ensures Indexed(Demoted(regs, idx), idx)
  {
    var d := Demoted(regs, idx);
    forall k | 0 <= k < |idx| ensures d[idx[k]].va == regs[idx[k]].va < d[idx[k]].Limit() == regs[idx[k]].Limit() < B64 {
      MappableMeans(regs[idx[k]]);
    }
  }

  lemma MappableMeans(r: Region)
    ensures Mappable(r) <==> r.mapped && r.va < r.Limit() < B64
  {}

  lemma {:induction false} KeepAll(regs: seq<Region>, order: seq<int>, hi: int)
    requires forall k :: 0 <= k < |order| ==> 0 <= order[k] < |regs| && regs[order[k]].va >= hi
    requires forall k, l :: 0 <= k < l < |order| ==> regs[order[k]].Limit() <= regs[order[l]].va
    ensures Keep(regs, order, hi) == order
  {
    if order != [] {
      KeepAll(regs, order[1..], regs[order[0]].Limit());
    }
  }

  /** Preparation is idempotent: a prepared layout is its own preparation. */
  lemma PrepareIdempotent(regs: seq<Region>, idx: seq<int>)
    requires Indexed(regs, idx)
    ensures IndexOf(regs) == idx && Demoted(regs, IndexOf(regs)) == regs
  {
    CandidatesOfIndexed(regs, idx);
    SortAscending(VAKey(regs), Candidates(regs), idx);
    KeepAll(regs, idx, 0);
  }

  lemma SortAscending(key: int -> int, c: seq<int>, idx: seq<int>)
    requires multiset(c) == multiset(idx)
    requires forall k, l :: 0 <= k < l < |idx| ==> key(idx[k]) < key(idx[l])
    ensures SortBy(key, c) == idx
  {
    var less := ByKey(key);
    SortSorted(less, c);
    forall x, y | x in idx && y in idx && !less(x, y) && !less(y, x) ensures x == y {
      var k :| 0 <= k < |idx| && idx[k] == x;
      var l :| 0 <= l < |idx| && idx[l] == y;
    }
    SortedUnique(less, idx, StableSort(less, c));
  }

  lemma CandidatesOfIndexed(regs: seq<Region>, idx: seq<int>)
    requires Indexed(regs, idx)
    ensures multiset(Candidates(regs)) == multiset(idx)
    ensures forall k, l :: 0 <= k < l < |idx| ==> VAKey(regs)(idx[k]) < VAKey(regs)(idx[l])
  {
    var c := Candidates(regs);
    forall i ensures i in c <==> i in idx {
      if i in idx {
        var k :| 0 <= k < |idx| && idx[k] == i;
        MappableMeans(regs[i]);
      }
      if i in c {
        var k :| 0 <= k < |c| && c[k] == i;
      }
    }
    forall x ensures multiset(c)[x] == multiset(idx)[x] {
      OnceCounts(idx, x);
      OnceCounts(c, x);
      assert x in c <==> x in idx;
    }
  }

  lemma TilesDemoted(regs: seq<Region>, idx: seq<int>, n: int)
    requires Tiles(regs, n)
    ensures Tiles(Demoted(regs, idx), n)
  {
    var d := Demoted(regs, idx);
    assert forall i :: 0 <= i <= |regs| ==> EndBefore(d, i) == EndBefore(regs, i);
  }

  /** First pass of preparation: the regions tile the file. */
  method Covers(regs: seq<Region>, n: nat) returns (ok: bool)
    requires n < B63
    ensures ok <==> Tiles(regs, n)
  {
    var end := 0;
    var i := 0;
    while i < |regs|
      invariant 0 <= i <= |regs|
      invariant 0 <= end < B63 && end == EndBefore(regs, i)
      invariant forall k :: 0 <= k < i ==> regs[k].len >= 0
      invariant forall k {:trigger EndBefore(regs, k)} :: 0 <= k < i ==> regs[k].off == EndBefore(regs, k)
    {
      var r := regs[i];
      if r.off != end || r.len < 0 || ToI64(r.off + r.len) < r.off {
        if Tiles(regs, n) {
          TilesBounds(regs, n, i);
          assert false;
        }
        return false;
      }
      end := ToI64(r.off + r.len);
      i := i + 1;
    }
    return end == n;
  }

  /** Second pass: the mapped regions in address order, dropping those that overlap. */
  method BuildIndex(regs: seq<Region>) returns (keep: seq<int>)
    ensures keep == IndexOf(regs)
  {
    var order := [];
    var i := 0;
    while i < |regs|
      invariant 0 <= i <= |regs|
      invariant order == Candidates(regs[..i])
    {
      assert regs[..i + 1][..i] == regs[..i];
      if Mappable(regs[i]) {
        order := order + [i];
      }
      i := i + 1;
    }
    assert regs[..i] == regs;
    order := SortBy(VAKey(regs), order);
    SortedCandidates(regs);
    keep := DropOverlaps(regs, order);
  }

  method DropOverlaps(regs: seq<Region>, order: seq<int>) returns (keep: seq<int>)
    requires forall k :: 0 <= k < |order| ==> 0 <= order[k] < |regs| && Mappable(regs[order[k]])
    ensures keep == Keep(regs, order, 0)
  {
    var hi: int := 0;
    var i := 0;
    keep := [];
    while i < |order|
      invariant 0 <= i <= |order|
      invariant keep == [] ==> hi == 0
      invariant keep + Keep(regs, order[i..], hi) == Keep(regs, order, 0)
    {
      var r := regs[order[i]];
      MappableMeans(r);
      assert order[i..][1..] == order[i + 1..];
      if |keep| > 0 && r.va < hi {
      } else {
        hi := Add64(r.va, r.RunSize());
        KeepStep(keep, order[i], Keep(regs, order[i + 1..], hi));
        keep := keep + [order[i]];
      }
      i := i + 1;
    }
  }

  lemma KeepStep(a: seq<int>, x: int, b: seq<int>)
    ensures a + ([x] + b) == (a + [x]) + b
  {}

  /** A parsed binary. The bytes never change; preparation updates the address map. */
  class Image {
    const data: seq<byte>
    const base: u64
    const base2: u64
    var regions: seq<Region>
    var byVA: seq<int>

    constructor (data: seq<byte>, regions: seq<Region>, base: u64, base2: u64)
      ensures this.data == data && this.regions == regions && this.base == base && this.base2 == base2
    {
      this.data := data;
      this.regions := regions;
      this.base, this.base2 := base, base2;
      this.byVA := [];
    }

    ghost predicate Prepared()
      reads this
    {
      Tiles(regions, |data|) && Indexed(regions, byVA)
    }

    /** Validates the partition and builds the address index; an overlapping region is demoted. */
    method Prepare() returns (ok: bool)
      requires |data| < B63
      modifies this`regions, this`byVA
      ensures ok <==> Tiles(old(regions), |data|)
      ensures ok ==> byVA == IndexOf(old(regions)) && regions == Demoted(old(regions), byVA) && Prepared()
      ensures !ok ==> regions == old(regions) && byVA == old(byVA)
    {
      ok := Covers(regions, |data|);
      if ok {
        ghost var was := regions;
        byVA := BuildIndex(regions);
        regions := Demoted(regions, byVA);
        IndexOfIndexes(was);
        TilesDemoted(was, byVA, |data|);
      }
    }

    /** Binary search by file offset agrees with the linear scan. */
    method RegionAtOff(x: i64) returns (r: int)
      requires Tiles(regions, |data|)
      ensures r == ScanOff(regions, x)
    {
      var regs := regions;
      var i := Search(|regs|, (k: nat) => k < |regs| && regs[k].off + regs[k].len > x);
      forall k | 0 <= k < |regs| && regs[k].ContainsOff(x) ensures k == i {
        assert regs[k].off == EndBefore(regs, k);
        if k < i { TilesMonotone(regs, |data|, k + 1, i); }
        if i < k { TilesMonotone(regs, |data|, i + 1, k); }
      }
      if i == |regs| || regs[i].off > x {
        r := -1;
      } else {
        r := i;
      }
    }

    /** Binary search by address agrees with the linear scan. */
    method RegionAtVA(x: u64) returns (r: int)
      requires Indexed(regions, byVA)
      ensures r == ScanVA(regions, x)
    {
      var regs, idx := regions, byVA;
      var i := Search(|idx|, (k: nat) => k < |idx| && 0 <= idx[k] < |regs| && EndsAfter(regs[idx[k]], x));
      if i < |idx| { EndsAfterMeans(regs, idx, i, x); }
      if i > 0 { EndsAfterMeans(regs, idx, i - 1, x); }
      OnlyAt(regs, idx, x, i);
      if i == |idx| || regs[idx[i]].va > x {
        r := -1;
      } else {
        r := idx[i];
      }
    }
  }

  predicate EndsAfter(r: Region, x: u64) { Add64(r.va, r.RunSize()) > x }

  lemma EndsAfterMeans(regs: seq<Region>, idx: seq<int>, k: nat, x: u64)
    requires Indexed(regs, idx) && k < |idx|
    ensures EndsAfter(regs[idx[k]], x) <==> regs[idx[k]].Limit() > x
  {}

  /** If `i` splits the index at address `x`, only region `idx[i]` can hold `x`. */
  lemma OnlyAt(regs: seq<Region>, idx: seq<int>, x: u64, i: nat)
    requires Indexed(regs, idx) && i <= |idx|
    requires i < |idx| ==> regs[idx[i]].Limit() > x
    requires i > 0 ==> regs[idx[i - 1]].Limit() <= x
    ensures forall k :: 0 <= k < |regs| && regs[k].ContainsVA(x) ==> i < |idx| && k == idx[i]
    ensures i < |idx| ==> regs[idx[i]].mapped
  {
    forall k | 0 <= k < |regs| && regs[k].ContainsVA(x) ensures i < |idx| && k == idx[i] {
      assert k in idx;
      var j :| 0 <= j < |idx| && idx[j] == k;
    }
    if i < |idx| { assert idx[i] in idx; }
  }

  /** A candidate region before partitioning. */
  datatype Span = Span(name: string, off: i64, end: i64, va: u64, vsize: u64, mapped: bool) {
    predicate Fits(size: int) { 0 <= off < end <= size }

    predicate Virtual() { off == end && mapped && vsize > 0 }
  }

  /** `r` is what is left of span `s`: inside it, with the same offset-to-address relation. */
  ghost predicate PartOf(r: Region, s: Span) {
    && r.name == s.name && r.mapped == s.mapped
    && s.off <= r.off && r.off + r.len == s.end && r.len > 0
    && (s.mapped ==> forall x :: r.ContainsOff(x) ==> Add64(r.va, x - r.off) == Add64(s.va, x - s.off))
    && (s.mapped && s.vsize > s.end - s.off ==> r.va == Add64(s.va, r.off - s.off) && r.off + r.vsize == s.off + s.vsize)
  }

  /** Earlier offsets first; at one offset the longer span first. */
  function SpanKey(s: Span): int { s.off * B64 + (B63 - s.end) }

  function SortSpans(spans: seq<Span>): (r: seq<Span>)
    ensures forall s :: s in r <==> s in spans
    ensures forall k, l :: 0 <= k < l < |r| ==> r[k].off <= r[l].off
  {
    var r := SortBy(SpanKey, spans);
    assert forall s :: s in r <==> s in spans by {
      forall s ensures s in r <==> s in spans { SameElements(r, spans, s); }
    }
    assert forall k, l :: 0 <= k < l < |r| ==> SpanKey(r[k]) <= SpanKey(r[l]);
    r
  }

  ghost predicate FromSpans(r: Region, spans: seq<Span>, size: int) {
    exists s :: s in spans && s.Fits(size) && PartOf(r, s)
  }

  /** An unmapped region that no usable span touches. */
  ghost predicate Gap(r: Region, spans: seq<Span>, size: int) {
    !r.mapped && r.len > 0 && forall x, s :: s in spans && s.Fits(size) && s.off <= x < s.end ==> !r.ContainsOff(x)
  }

  function VirtualRegion(size: i64, s: Span): Region {
    Region(s.name, size, 0, s.va, s.vsize, true)
  }

  ghost predicate IsVirtual(r: Region, spans: seq<Span>, size: i64) {
    exists s :: s in spans && s.Virtual() && r == VirtualRegion(size, s)
  }

  /** What a span still covers from `cur` on. */
  function Clip(v: Span, cur: i64): Region
    requires 0 <= v.off <= cur < v.end
  {
    Region(v.name, cur, v.end - cur,
           if v.mapped then Add64(v.va, cur - v.off) else 0,
           if v.mapped && v.vsize > v.end - v.off then v.vsize - (cur - v.off) else 0,
           v.mapped)
  }

  /** Clipping keeps the address of every byte that is left. */
  lemma ClipIsPart(v: Span, cur: i64)
    requires 0 <= v.off <= cur < v.end
    ensures PartOf(Clip(v, cur), v)
  {
    var r := Clip(v, cur);
    if v.mapped {
      forall x | r.ContainsOff(x) ensures Add64(r.va, x - r.off) == Add64(v.va, x - v.off) {
        ShiftTwice(v.va, cur - v.off, x - cur);
      }
    }
  }

  lemma ShiftTwice(a: u64, b: u64, c: u64)
    requires b + c < B64
    ensures Add64(Add64(a, b), c) == Add64(a, b + c)
  {}

  /** The zero-length regions of the virtual-only spans, in order. */
  function VirtualsOf(size: i64, ss: seq<Span>): seq<Region> {
    if ss == [] then []
    else
      var v := ss[|ss| - 1];
      var r := VirtualsOf(size, ss[..|ss| - 1]);
      if v.Virtual() then r + [VirtualRegion(size, v)] else r
  }

  lemma {:induction false} VirtualsComplete(size: i64, ss: seq<Span>, r: seq<Region>)
    requires r == VirtualsOf(size, ss)
    ensures forall s :: s in ss && s.Virtual() ==> VirtualRegion(size, s) in r
    ensures forall k :: 0 <= k < |r| ==> IsVirtual(r[k], ss, size)
  {
    if ss != [] {
      var init := ss[..|ss| - 1];
      var r' := VirtualsOf(size, init);
      VirtualsComplete(size, init, r');
      assert ss == init + [ss[|ss| - 1]];
      forall k | 0 <= k < |r'| ensures IsVirtual(r'[k], ss, size) {
        assert IsVirtual(r'[k], init, size);
        var s :| s in init && s.Virtual() && r'[k] == VirtualRegion(size, s);
      }
    }
  }

  /** Offset `x` lies in a region that is part of a span. */
  ghost predicate Claimed(regs: seq<Region>, spans: seq<Span>, size: int, x: int) {
    exists i :: 0 <= i < |regs| && regs[i].ContainsOff(x) && FromSpans(regs[i], spans, size)
  }

  ghost predicate Solid(regs: seq<Region>, spans: seq<Span>, size: int, cur: int) {
    && Tiles(regs, cur)
    && (forall k :: 0 <= k < |regs| ==> FromSpans(regs[k], spans, size) || Gap(regs[k], spans, size))
  }

  /**
   Turns possibly overlapping spans into an exact partition of [0, size). What is returned
   tiles the file, so preparation accepts it; every byte of a usable span lands in a part of
   a span; every region that is not a part of a span is an unmapped gap that no usable span
   touches, or a zero-length virtual region.
   */
  method Partition(size: i64, spans: seq<Span>) returns (out: seq<Region>)
    requires size >= 0
    requires forall s :: s in spans ==> s.off <= s.end
    ensures Tiles(out, size)
    ensures forall x, s :: s in spans && s.Fits(size) && s.off <= x < s.end ==> Claimed(out, spans, size, x)
    ensures forall i :: 0 <= i < |out| ==>
      || FromSpans(out[i], spans, size)
      || Gap(out[i], spans, size)
      || IsVirtual(out[i], spans, size)
    ensures forall s :: s in spans && s.Virtual() ==> VirtualRegion(size, s) in out
  {
    var ss := SortSpans(spans);
    var cur, virt;
    out, cur, virt := Lay(size, ss);
    if cur < size {
      var tail := Region("tail", cur, size - cur, 0, 0, false);
      GapBefore(tail, ss, |ss|, size);
      SolidAppend(out, ss, size, cur, tail);
      out := out + [tail];
    }
    AppendVirtual(out, spans, ss, size);
    out := out + virt;
  }

  /** The loop of `Partition` over the sorted spans. */
  method Lay(size: i64, ss: seq<Span>) returns (out: seq<Region>, cur: i64, virt: seq<Region>)
    requires size >= 0
    requires forall k, l :: 0 <= k < l < |ss| ==> ss[k].off <= ss[l].off
    requires forall k :: 0 <= k < |ss| ==> ss[k].off <= ss[k].end
    ensures 0 <= cur <= size && Solid(out, ss, size, cur)
    ensures forall k :: 0 <= k < |ss| && ss[k].Fits(size) ==> ss[k].end <= cur
    ensures virt == VirtualsOf(size, ss)
  {
    out, cur, virt := [], 0, [];
    var i := 0;
    while i < |ss|
      invariant 0 <= i <= |ss|
      invariant 0 <= cur <= size
      invariant Solid(out, ss, size, cur)
      invariant forall k :: 0 <= k < i && ss[k].Fits(size) ==> ss[k].end <= cur
      invariant virt == VirtualsOf(size, ss[..i])
    {
      var v := ss[i];
      assert ss[..i + 1][..i] == ss[..i];
      if v.off == v.end {
        if v.mapped && v.vsize > 0 {
          virt := virt + [VirtualRegion(size, v)];
        }
      } else if v.off < 0 || v.end > size || v.end <= cur {
      } else {
        out, cur := Place(size, ss, i, out, cur);
      }
      i := i + 1;
    }
    assert ss[..i] == ss;
  }

  /** Adds span `ss[i]`, and the gap before it, to a partition of [0, cur). */
  method Place(size: i64, ss: seq<Span>, i: nat, regs: seq<Region>, cur: i64)
    returns (out: seq<Region>, next: i64)
    requires i < |ss|
    requires forall k, l :: 0 <= k < l < |ss| ==> ss[k].off <= ss[l].off
    requires forall k :: 0 <= k < i && ss[k].Fits(size) ==> ss[k].end <= cur
    requires ss[i].Fits(size) && 0 <= cur < ss[i].end
    requires Solid(regs, ss, size, cur)
    ensures next == ss[i].end && Solid(out, ss, size, next)
  {
    var v := ss[i];
    out, next := regs, cur;
    if v.off > cur {
      var gap := Region("gap", cur, v.off - cur, 0, 0, false);
      GapBefore(gap, ss, i, size);
      SolidAppend(out, ss, size, cur, gap);
      out := out + [gap];
      next := v.off;
    }
    SolidClip(out, ss, size, next, v);
    out := out + [Clip(v, next)];
    next := v.end;
  }

  /** Nothing usable touches a region between the processed spans and the next one. */
  lemma GapBefore(r: Region, ss: seq<Span>, i: nat, size: int)
    requires !r.mapped && r.len > 0 && i <= |ss|
    requires forall k, l :: 0 <= k < l < |ss| ==> ss[k].off <= ss[l].off
    requires forall k :: 0 <= k < i && ss[k].Fits(size) ==> ss[k].end <= r.off
    requires i < |ss| ==> ss[i].off == r.off + r.len
    ensures Gap(r, ss, size)
  {
    forall x, s | s in ss && s.Fits(size) && s.off <= x < s.end ensures !r.ContainsOff(x) {
      var k :| 0 <= k < |ss| && ss[k] == s;
    }
  }

  lemma SolidAppend(regs: seq<Region>, spans: seq<Span>, size: int, cur: int, r: Region)
    requires Solid(regs, spans, size, cur) && r.off == cur && r.len >= 0
    requires Gap(r, spans, size) || FromSpans(r, spans, size)
    ensures Solid(regs + [r], spans, size, cur + r.len)
  {
    TilesAppend(regs, cur, r);
  }

  lemma SolidClip(regs: seq<Region>, spans: seq<Span>, size: int, cur: i64, v: Span)
    requires Solid(regs, spans, size, cur)
    requires v in spans && v.Fits(size) && v.off <= cur < v.end
    ensures Solid(regs + [Clip(v, cur)], spans, size, v.end)
  {
    ClipIsPart(v, cur);
    assert FromSpans(Clip(v, cur), spans, size);
    SolidAppend(regs, spans, size, cur, Clip(v, cur));
  }

  lemma AppendVirtual(solid: seq<Region>, spans: seq<Span>, ss: seq<Span>, size: i64)
    requires Solid(solid, ss, size, size)
    requires forall s :: s in ss <==> s in spans
    ensures var out := solid + VirtualsOf(size, ss);
            && Tiles(out, size)
            && (forall x, s :: s in spans && s.Fits(size) && s.off <= x < s.end ==> Claimed(out, spans, size, x))
            && (forall i :: 0 <= i < |out| ==>
                  FromSpans(out[i], spans, size) || Gap(out[i], spans, size) || IsVirtual(out[i], spans, size))
            && (forall s :: s in spans && s.Virtual() ==> VirtualRegion(size, s) in out)
  {
    var virt := VirtualsOf(size, ss);
    var out := solid + virt;
    VirtualsComplete(size, ss, virt);
    forall k | 0 <= k < |virt| ensures IsVirtual(virt[k], spans, size) {
      assert IsVirtual(virt[k], ss, size);
    }
    forall k | 0 <= k < |solid| ensures FromSpans(solid[k], spans, size) || Gap(solid[k], spans, size) {
      if FromSpans(solid[k], ss, size) {
        var s :| s in ss && s.Fits(size) && PartOf(solid[k], s);
        assert s in spans;
      }
    }
    TilesVirtual(solid, size, virt);
    forall x, s | s in spans && s.Fits(size) && s.off <= x < s.end ensures Claimed(out, spans, size, x) {
      TilesCover(solid, size, x);
      var k :| 0 <= k < |solid| && solid[k].ContainsOff(x);
      assert out[k] == solid[k];
    }
  }

  lemma TilesAppend(regs: seq<Region>, n: int, r: Region)
    requires Tiles(regs, n) && r.off == n && r.len >= 0
    ensures Tiles(regs + [r], n + r.len)
  {
    var t := regs + [r];
    forall i | 0 <= i < |t| ensures t[i].off == EndBefore(t, i) {
      if i < |regs| { assert EndBefore(t, i) == EndBefore(regs, i); }
    }
  }

  lemma {:induction false} TilesVirtual(regs: seq<Region>, n: int, virt: seq<Region>)
    requires Tiles(regs, n)
    requires forall k :: 0 <= k < |virt| ==> virt[k].off == n && virt[k].len == 0
    ensures Tiles(regs + virt, n)
    decreases |virt|
  {
    if virt == [] {
      assert regs + virt == regs;
    } else {
      TilesAppend(regs, n, virt[0]);
      TilesVirtual(regs + [virt[0]], n, virt[1..]);
      assert regs + [virt[0]] + virt[1..] == regs + virt;
    }
  }

  /** Slot encodings (`Enc`), numbered from 1 as in the serialised form. */
  datatype Enc = Rel32 | Abs64 | RVA32 | Off32 {
    function Width(): nat { if Abs64? then 8 else 4 }

    function Code(): byte {
      match this case Rel32 => 1 case Abs64 => 2 case RVA32 => 3 case Off32 => 4
    }
  }

  /** A 32-bit field sign-extended to 64 bits. */
  function SignExtend(v: u32): u64 { if v < 0x8000_0000 then v else v + (B64 - B32) }

  function DecodeSlot(e: Enc, bias: byte, slotVA: u64, base: u64, base2: u64, v: u64): u64 {
    match e
    case Rel32 => Add64(Add64(Add64(slotVA, 4), bias), SignExtend(v % B32))
    case RVA32 => Add64(base, v % B32)
    case Off32 => Add64(base2, v % B32)
    case Abs64 => v
  }

  function EncodeSlot(e: Enc, bias: byte, slotVA: u64, base: u64, base2: u64, t: u64): u64 {
    match e
    case Rel32 => Sub64(Sub64(Sub64(t, slotVA), 4), bias) % B32
    case RVA32 => Sub64(t, base) % B32
    case Off32 => Sub64(t, base2) % B32
    case Abs64 => t
  }

  lemma AddThenSub(a: u64, d: u64)
    ensures Sub64(Add64(a, d), a) == d
  {}

  lemma AddThenSub3(a: u64, b: u64, c: u64, d: u64)
    ensures Sub64(Sub64(Sub64(Add64(Add64(Add64(a, b), c), d), a), b), c) == d
  {
    AddThenSub(a, b);
    var x := Add64(Add64(a, b), c);
    assert Sub64(Sub64(x, a), b) == c;
  }

  lemma SignExtendLow(v: u32)
    ensures SignExtend(v) % B32 == v
  {}

  /** Every field value survives decoding to a target and encoding again, wrap-around included. */
  lemma EncodeDecode(e: Enc, bias: byte, slotVA: u64, base: u64, base2: u64, v: u64)
    requires e != Abs64 ==> v < B32
    ensures EncodeSlot(e, bias, slotVA, base, base2, DecodeSlot(e, bias, slotVA, base, base2, v)) == v
  {
    match e
    case Rel32 =>
      AddThenSub3(slotVA, 4, bias, SignExtend(v));
      SignExtendLow(v);
    case RVA32 => AddThenSub(base, v);
    case Off32 => AddThenSub(base2, v);
    case Abs64 =>
  }
}
