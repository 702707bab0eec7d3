/**
 The normal form of an image (binref/norm.go, `Normalize`), as functions of the prepared
 image, the candidate slots and the units: which slots are recorded, under which name,
 and why rebuilding the form gives the file back.
 */
module BinrefNorm {
  import opened Bytes
  import opened Sorting
  import opened BinrefImage
  import opened BinrefForm

  datatype Slot = Slot(off: i64, enc: Enc, bias: byte)

  datatype Unit = Unit(va: u64, size: u64, name: string) {
    predicate Contains(x: int) { va <= x < va + size }
  }

  datatype Ident = Ordinal | RegionRel | Symbol | Content

  /** FNV-1a of a unit name and the leading word of SHA-256: arbitrary functions here. */
  datatype Hashes = Hashes(ofName: string -> u32, ofBytes: seq<byte> -> u32)

  /** A prepared image. */
  datatype Img = Img(data: seq<byte>, regions: seq<Region>, base: u64, base2: u64) {
    ghost predicate Ready(idx: seq<int>) {
      |data| <= B63 - 8 && Tiles(regions, |data|) && Indexed(regions, idx)
    }
  }

  /** A slot with its decoded target `t`, the target's region and its own region. */
  datatype Acc = Acc(slot: Slot, t: u64, tr: nat, sr: nat) {
    function End(): int { slot.off + slot.enc.Width() }

    predicate Covers(j: int) { slot.off <= j < End() }
  }

  // ---- which slots are usable ----

  datatype Verdict = Overlap | Unmapped | Panics | Accept(acc: Acc)

  function SlotVA(r: Region, off: int): u64
    requires r.off <= off < r.off + B63
  {
    if r.mapped then Add64(r.va, off - r.off) else 0
  }

  function FieldValue(b: seq<byte>): (v: u64)
    requires |b| == 4 || |b| == 8
    ensures ToLE(|b|, v) == b
    ensures |b| == 4 ==> v < B32
  {
    Pow256Values();
    LEBound(b);
    ToLEofLE(b);
    LE(b)
  }

  /** What happens to a slot that is tried after fields ending at `prevEnd`. */
  function Judge(m: Img, s: Slot, prevEnd: int): Verdict
    requires Tiles(m.regions, |m.data|)
  {
    var w := s.enc.Width();
    if s.off < 0 || ToI64(s.off + w) > |m.data| || s.off < prevEnd then Overlap
    else
      var sr := ScanOff(m.regions, s.off);
      if sr < 0 then Panics
      else
        var r := m.regions[sr];
        if s.off + w > r.off + r.len || (s.enc.Rel32? && !r.mapped) || s.bias > 7 then Overlap
        else
          TilesBounds(m.regions, |m.data|, sr);
          Resolve(m, s, sr)
  }

  function Resolve(m: Img, s: Slot, sr: nat): Verdict
    requires sr < |m.regions| && m.regions[sr].ContainsOff(s.off) && 0 <= s.off && s.off + s.enc.Width() <= |m.data|
  {
    var va := SlotVA(m.regions[sr], s.off);
    var v := FieldValue(m.data[s.off..s.off + s.enc.Width()]);
    var t := DecodeSlot(s.enc, s.bias, va, m.base, m.base2, v);
    var tr := ScanVA(m.regions, t);
    if tr < 0 || EncodeSlot(s.enc, s.bias, va, m.base, m.base2, t) != v then Unmapped
    else Accept(Acc(s, t, tr, sr))
  }

  /** An accepted slot: inside its region, decodable, with its target in a mapped region. */
  predicate Sound(m: Img, a: Acc) {
    && a.sr < |m.regions| && a.tr < |m.regions| && a.slot.bias <= 7
    && 0 <= m.regions[a.sr].off <= a.slot.off && a.End() <= m.regions[a.sr].off + m.regions[a.sr].len
    && a.End() <= |m.data|
    && (a.slot.enc.Rel32? ==> m.regions[a.sr].mapped)
    && m.regions[a.tr].ContainsVA(a.t)
    && ToLE(a.slot.enc.Width(), EncodeSlot(a.slot.enc, a.slot.bias, SlotVA(m.regions[a.sr], a.slot.off), m.base, m.base2, a.t))
       == m.data[a.slot.off..a.End()]
  }

  lemma JudgeSound(m: Img, s: Slot, prevEnd: int)
    requires Tiles(m.regions, |m.data|)
    ensures var v := Judge(m, s, prevEnd); v.Accept? ==> Sound(m, v.acc) && v.acc.slot == s && s.off >= prevEnd
  {
    var v := Judge(m, s, prevEnd);
    if v.Accept? {
      TilesBounds(m.regions, |m.data|, v.acc.sr);
    }
  }

  /** A slot makes the engine panic exactly when the end of its field overflows 63 bits. */
  lemma JudgePanics(m: Img, s: Slot, prevEnd: int)
    requires Tiles(m.regions, |m.data|) && prevEnd <= |m.data| <= B63 - 8
    ensures Judge(m, s, prevEnd).Panics? <==> s.off + s.enc.Width() >= B63
  {
    if 0 <= s.off && s.off + s.enc.Width() <= |m.data| {
      TilesCover(m.regions, |m.data|, s.off);
    }
    if s.off + s.enc.Width() >= B63 {
      forall i | 0 <= i < |m.regions| ensures !m.regions[i].ContainsOff(s.off) {
        TilesBounds(m.regions, |m.data|, i);
      }
    }
  }

  /** The accepted slots of a sorted list, the end of the last one, and the counters. */
  datatype Sifted = Sifted(accs: seq<Acc>, prevEnd: int, overlap: nat, unmapped: nat, panics: bool)

  function SiftOne(m: Img, st: Sifted, s: Slot): Sifted
    requires Tiles(m.regions, |m.data|)
  {
    match Judge(m, s, st.prevEnd)
    case Overlap => st.(overlap := st.overlap + 1)
    case Unmapped => st.(unmapped := st.unmapped + 1)
    case Panics => st.(panics := true)
    case Accept(a) => st.(accs := st.accs + [a], prevEnd := a.End())
  }

  function Sift(m: Img, ss: seq<Slot>): Sifted
    requires Tiles(m.regions, |m.data|)
  {
    if ss == [] then Sifted([], -1, 0, 0, false)
    else
      var st := Sift(m, ss[..|ss| - 1]);
      if st.panics then st else SiftOne(m, st, ss[|ss| - 1])
  }

  /** Accepted slots are sound and do not overlap, in file order. */
  ghost predicate Spaced(m: Img, accs: seq<Acc>) {
    && (forall k :: 0 <= k < |accs| ==> Sound(m, accs[k]))
    && (forall k, l :: 0 <= k < l < |accs| ==> accs[k].End() <= accs[l].slot.off)
  }

  lemma {:induction false} SiftSpaced(m: Img, ss: seq<Slot>)
    requires Tiles(m.regions, |m.data|)
    ensures var st := Sift(m, ss);
            && Spaced(m, st.accs) && -1 <= st.prevEnd <= |m.data|
            && (forall k :: 0 <= k < |st.accs| ==> st.accs[k].End() <= st.prevEnd)
            && (!st.panics ==> |st.accs| + st.overlap + st.unmapped == |ss|)
  {
    if ss != [] {
      SiftSpaced(m, ss[..|ss| - 1]);
      var st := Sift(m, ss[..|ss| - 1]);
      JudgeSound(m, ss[|ss| - 1], st.prevEnd);
    }
  }

  /** Sifting panics exactly when some slot's field end overflows. */
  lemma {:induction false} SiftPanics(m: Img, ss: seq<Slot>)
    requires Tiles(m.regions, |m.data|) && |m.data| <= B63 - 8
    ensures Sift(m, ss).panics <==> exists k :: 0 <= k < |ss| && ss[k].off + ss[k].enc.Width() >= B63
  {
    if ss != [] {
      var init, s := ss[..|ss| - 1], ss[|ss| - 1];
      SiftPanics(m, init);
      SiftSpaced(m, init);
      JudgePanics(m, s, Sift(m, init).prevEnd);
      if Sift(m, init).panics {
        var k :| 0 <= k < |init| && init[k].off + init[k].enc.Width() >= B63;
        assert ss[k] == init[k];
      }
    }
  }

  // ---- units ----

  /** By address; at one address the larger unit first. */
  function UnitKey(u: Unit): int { u.va * B64 + (B64 - 1 - u.size) }

  function Dedup(us: seq<Unit>): seq<Unit> {
    if us == [] then []
    else
      var d, u := Dedup(us[..|us| - 1]), us[|us| - 1];
      if d != [] && d[|d| - 1].va == u.va then d else d + [u]
  }

  /** Where unit `i` ends: at its region's end, the next unit, or its own size, whichever comes first. */
  function UnitEnd(regs: seq<Region>, us: seq<Unit>, i: nat): u64
    requires i < |us| && ScanVA(regs, us[i].va) >= 0
  {
    var r, u := regs[ScanVA(regs, us[i].va)], us[i];
    var end := Add64(r.va, r.RunSize());
    var end' := if i + 1 < |us| && us[i + 1].va > u.va && us[i + 1].va < end then us[i + 1].va else end;
    if u.size != 0 && Add64(u.va, u.size) < end' && Add64(u.va, u.size) > u.va then Add64(u.va, u.size) else end'
  }

  function ClipUnit(regs: seq<Region>, us: seq<Unit>, out: seq<Unit>, i: nat): seq<Unit>
    requires i < |us|
  {
    var u := us[i];
    if ScanVA(regs, u.va) < 0 then out
    else if out != [] && u.va < Add64(out[|out| - 1].va, out[|out| - 1].size) then out
    else
      var size := Sub64(UnitEnd(regs, us, i), u.va);
      if size == 0 then out else out + [u.(size := size)]
  }

  function ClipUnits(regs: seq<Region>, us: seq<Unit>, n: nat): seq<Unit>
    requires n <= |us|
  {
    if n == 0 then [] else ClipUnit(regs, us, ClipUnits(regs, us, n - 1), n - 1)
  }

  function CleanUnits(regs: seq<Region>, us: seq<Unit>): seq<Unit> {
    var d := Dedup(SortBy(UnitKey, us));
    ClipUnits(regs, d, |d|)
  }

  /** A cleaned unit: a non-empty range inside one mapped region. */
  predicate Placed(regs: seq<Region>, u: Unit) {
    var ri := ScanVA(regs, u.va);
    ri >= 0 && 0 < u.size && u.va + u.size <= regs[ri].Limit()
  }

  ghost predicate Clean(regs: seq<Region>, us: seq<Unit>) {
    && (forall k {:trigger Placed(regs, us[k])} :: 0 <= k < |us| ==> Placed(regs, us[k]))
    && (forall k, l :: 0 <= k < l < |us| ==> us[k].va + us[k].size <= us[l].va)
  }

  predicate Ascending(us: seq<Unit>) {
    forall k, l :: 0 <= k < l < |us| ==> us[k].va < us[l].va
  }

  predicate ByAddress(us: seq<Unit>) {
    forall k, l :: 0 <= k < l < |us| ==> us[k].va <= us[l].va
  }

  /** `d` ascends and ends at the last address of `us`. */
  predicate Deduped(us: seq<Unit>, d: seq<Unit>) {
    Ascending(d) && |d| <= |us| && (us != [] ==> d != [] && d[|d| - 1].va == us[|us| - 1].va)
  }

  lemma AscendingSnoc(d: seq<Unit>, u: Unit)
    requires Ascending(d) && (d != [] ==> d[|d| - 1].va < u.va)
    ensures Ascending(d + [u])
  {}

  lemma {:induction false} DedupAscends(us: seq<Unit>)
    requires ByAddress(us)
    ensures Deduped(us, Dedup(us))
  {
    if us != [] {
      var n := |us| - 1;
      DedupAscends(us[..n]);
      var d := Dedup(us[..n]);
      if d != [] && d[|d| - 1].va == us[n].va {
      } else {
        assert n > 0 ==> us[n - 1].va <= us[n].va;
        AscendingSnoc(d, us[n]);
      }
    }
  }

  lemma {:induction false} DedupKeeps(us: seq<Unit>, k: nat) returns (j: nat)
    requires k < |us|
    ensures j < |Dedup(us)| && Dedup(us)[j].va == us[k].va
  {
    if k == |us| - 1 {
      j := |Dedup(us)| - 1;
    } else {
      j := DedupKeeps(us[..|us| - 1], k);
    }
  }

  lemma SortUnits(us: seq<Unit>)
    ensures ByAddress(SortBy(UnitKey, us))
  {
    var s := SortBy(UnitKey, us);
    forall k, l | 0 <= k < l < |s| ensures s[k].va <= s[l].va {
      assert UnitKey(s[k]) <= UnitKey(s[l]);
    }
  }

  /** Clipped units fill distinct places; each mapped start keeps a unit that starts there. */
  ghost predicate Clipped(regs: seq<Region>, us: seq<Unit>, n: nat, out: seq<Unit>)
    requires n <= |us|
  {
    && Clean(regs, out)
    && (n < |us| ==> forall k :: 0 <= k < |out| ==> out[k].va + out[k].size <= us[n].va)
    && (forall k :: 0 <= k < n && ScanVA(regs, us[k].va) >= 0 ==> StartsAt(out, us[k].va))
  }

  ghost predicate StartsAt(us: seq<Unit>, x: int) {
    exists k :: 0 <= k < |us| && us[k].va == x
  }

  lemma UnitEndPlace(regs: seq<Region>, idx: seq<int>, us: seq<Unit>, i: nat)
    requires Indexed(regs, idx) && Ascending(us) && i < |us| && ScanVA(regs, us[i].va) >= 0
    ensures var e := UnitEnd(regs, us, i);
            us[i].va < e <= regs[ScanVA(regs, us[i].va)].Limit() && (i + 1 < |us| ==> e <= us[i + 1].va)
  {
    var ri := ScanVA(regs, us[i].va);
    var k :| 0 <= k < |idx| && idx[k] == ri;
    assert regs[ri].Limit() < B64;
    if i + 1 < |us| { assert us[i].va < us[i + 1].va; }
  }

  lemma ClipStep(regs: seq<Region>, idx: seq<int>, us: seq<Unit>, n: nat, out: seq<Unit>)
    requires Indexed(regs, idx) && Ascending(us) && n < |us| && Clipped(regs, us, n, out)
    ensures Clipped(regs, us, n + 1, ClipUnit(regs, us, out, n))
  {
    var u, next := us[n], ClipUnit(regs, us, out, n);
    if out != [] { assert out[|out| - 1].va + out[|out| - 1].size <= u.va; }
    if ScanVA(regs, u.va) >= 0 {
      UnitEndPlace(regs, idx, us, n);
      var v := u.(size := UnitEnd(regs, us, n) - u.va);
      assert next == out + [v];
      assert Placed(regs, v);
      assert next[|out|].va == u.va;
      forall k | 0 <= k < n && ScanVA(regs, us[k].va) >= 0 ensures StartsAt(next, us[k].va) {
        var j :| 0 <= j < |out| && out[j].va == us[k].va;
        assert next[j].va == us[k].va;
      }
    }
    if n + 1 < |us| { assert us[n].va < us[n + 1].va; }
  }

  lemma {:induction false} ClipAll(regs: seq<Region>, idx: seq<int>, us: seq<Unit>, n: nat, out: seq<Unit>)
    requires Indexed(regs, idx) && Ascending(us) && n <= |us| && out == ClipUnits(regs, us, n)
    ensures Clipped(regs, us, n, out)
  {
    if n > 0 {
      var prev := ClipUnits(regs, us, n - 1);
      ClipAll(regs, idx, us, n - 1, prev);
      ClipStep(regs, idx, us, n - 1, prev);
    }
  }

  /** Cleaning: disjoint units inside mapped regions, one starting at each mapped address a unit was given for. */
  lemma CleanUnitsClean(regs: seq<Region>, idx: seq<int>, us: seq<Unit>)
    requires Indexed(regs, idx)
    ensures Clean(regs, CleanUnits(regs, us))
    ensures forall u :: u in us && ScanVA(regs, u.va) >= 0 ==> StartsAt(CleanUnits(regs, us), u.va)
  {
    var s := SortBy(UnitKey, us);
    SortUnits(us);
    DedupAscends(s);
    ClipAll(regs, idx, Dedup(s), |Dedup(s)|, CleanUnits(regs, us));
    forall u | u in us && ScanVA(regs, u.va) >= 0 ensures StartsAt(CleanUnits(regs, us), u.va) {
      SameElements(s, us, u);
      var k :| 0 <= k < |s| && s[k] == u;
      var j := DedupKeeps(s, k);
    }
  }

  lemma {:induction false} ClipCount(regs: seq<Region>, us: seq<Unit>, n: nat)
    requires n <= |us|
    ensures |ClipUnits(regs, us, n)| <= n
  {
    if n > 0 { ClipCount(regs, us, n - 1); }
  }

  lemma {:induction false} DedupCount(us: seq<Unit>)
    ensures |Dedup(us)| <= |us|
  {
    if us != [] { DedupCount(us[..|us| - 1]); }
  }

  lemma CleanUnitsCount(regs: seq<Region>, us: seq<Unit>)
    ensures |CleanUnits(regs, us)| <= |us|
  {
    var d := Dedup(SortBy(UnitKey, us));
    DedupCount(SortBy(UnitKey, us));
    ClipCount(regs, d, |d|);
  }
}
