/**
 The normalizer as it runs (binref/norm.go, `Normalize` and `CleanUnits`): sorted slots are
 sifted, fields are zeroed in place, units are named, and the streams are written. Each
 step is proved equal to the plan it follows.
 */
module BinrefNormalize {
  import opened Bytes
  import opened Varint
  import opened Sorting
  import opened BinrefImage
  import opened BinrefForm
  import opened BinrefReconstruct
  import opened BinrefNorm
  import opened BinrefUnits
  import opened BinrefPlan
  import opened BinrefMeaning

  ghost function Snap(im: Image): Img
    reads im
  {
    Img(im.data, im.regions, im.base, im.base2)
  }

  // ---- slots ----

  /** Little-endian value, most significant byte first. */
  method ReadLE(data: seq<byte>, at: nat, w: nat) returns (v: nat)
    requires at + w <= |data|
    ensures v == LE(data[at..at + w])
  {
    v := 0;
    var i := w;
    assert data[at + w..at + w] == [];
    while i > 0
      invariant 0 <= i <= w
      invariant v == LE(data[at + i..at + w])
    {
      i := i - 1;
      assert data[at + i..at + w][1..] == data[at + i + 1..at + w];
      v := 256 * v + data[at + i];
    }
  }

  method ReadField(data: seq<byte>, at: nat, w: nat) returns (v: u64)
    requires at + w <= |data| && (w == 4 || w == 8)
    ensures v == FieldValue(data[at..at + w])
  {
    var x := ReadLE(data, at, w);
    assert x == FieldValue(data[at..at + w]);
    v := x;
  }

  /** Decodes the field of slot `s`, in region `sr`, to a target that encodes back to it. */
  method ResolveSlot(im: Image, s: Slot, sr: nat) returns (v: Verdict)
    requires Indexed(im.regions, im.byVA)
    requires sr < |im.regions| && im.regions[sr].ContainsOff(s.off) && 0 <= s.off && s.off + s.enc.Width() <= |im.data|
    ensures v == Resolve(Snap(im), s, sr)
  {
    var w, r := s.enc.Width(), im.regions[sr];
    var va := if r.mapped then Add64(r.va, s.off - r.off) else 0;
    var x := ReadField(im.data, s.off, w);
    assert va == SlotVA(r, s.off);
    var t := DecodeSlot(s.enc, s.bias, va, im.base, im.base2, x);
    var tr := im.RegionAtVA(t);
    var y := EncodeSlot(s.enc, s.bias, va, im.base, im.base2, t);
    v := if tr < 0 || y != x then Unmapped else Accept(Acc(s, t, tr, sr));
  }

  method JudgeSlot(im: Image, s: Slot, prevEnd: int) returns (v: Verdict)
    requires Snap(im).Ready(im.byVA)
    ensures v == Judge(Snap(im), s, prevEnd)
  {
    var w := s.enc.Width();
    if s.off < 0 || ToI64(s.off + w) > |im.data| || s.off < prevEnd {
      return Overlap;
    }
    var sr := im.RegionAtOff(s.off);
    if sr < 0 {
      return Panics;
    }
    var r := im.regions[sr];
    if s.off + w > r.off + r.len || (s.enc.Rel32? && !r.mapped) || s.bias > 7 {
      return Overlap;
    }
    TilesBounds(im.regions, |im.data|, sr);
    v := ResolveSlot(im, s, sr);
  }

  method SiftSlots(im: Image, ss: seq<Slot>) returns (st: Sifted)
    requires Snap(im).Ready(im.byVA)
    ensures st == Sift(Snap(im), ss)
  {
    st := Sifted([], -1, 0, 0, false);
    var i := 0;
    while i < |ss| && !st.panics
      invariant 0 <= i <= |ss|
      invariant st == Sift(Snap(im), ss[..i])
    {
      assert ss[..i + 1][..i] == ss[..i];
      var v := JudgeSlot(im, ss[i], st.prevEnd);
      match v {
        case Overlap => st := st.(overlap := st.overlap + 1);
        case Unmapped => st := st.(unmapped := st.unmapped + 1);
        case Panics => st := st.(panics := true);
        case Accept(a) => st := st.(accs := st.accs + [a], prevEnd := a.End());
      }
      i := i + 1;
    }
    SiftStops(Snap(im), ss, i);
  }

  lemma {:induction false} SiftStops(m: Img, ss: seq<Slot>, i: nat)
    requires Tiles(m.regions, |m.data|) && i <= |ss| && (i < |ss| ==> Sift(m, ss[..i]).panics)
    ensures Sift(m, ss) == Sift(m, ss[..i])
    decreases |ss| - i
  {
    if i < |ss| {
      assert ss[..i + 1][..i] == ss[..i];
      SiftStops(m, ss, i + 1);
    } else {
      assert ss[..i] == ss;
    }
  }

  // ---- masking in place ----

  method Store(out: array<byte>, at: nat, b: seq<byte>)
    requires at + |b| <= out.Length
    modifies out
    ensures out[..] == Put(old(out[..]), at, b)
  {
    var i := 0;
    while i < |b|
      invariant 0 <= i <= |b|
      invariant forall k :: 0 <= k < i ==> out[at + k] == b[k]
      invariant forall k :: 0 <= k < out.Length && !(at <= k < at + i) ==> out[k] == old(out[k])
    {
      out[at + i] := b[i];
      i := i + 1;
    }
  }

  method MaskFields(masked: array<byte>, accs: seq<Acc>, ghost data: seq<byte>)
    requires masked[..] == data
    requires forall k :: 0 <= k < |accs| ==> 0 <= accs[k].slot.off && accs[k].End() <= |data|
    modifies masked
    ensures masked[..] == Mask(data, accs)
  {
    var i := 0;
    assert Mask(data, []) == data;
    while i < |accs|
      invariant 0 <= i <= |accs|
      invariant masked[..] == Mask(data, accs[..i])
    {
      MaskOne(data, accs[..i], accs[i]);
      assert accs[..i + 1] == accs[..i] + [accs[i]];
      Store(masked, accs[i].slot.off, Zeros(accs[i].slot.enc.Width()));
      i := i + 1;
    }
    assert accs[..i] == accs;
  }

  // ---- units ----

  method DedupUnits(us: seq<Unit>) returns (d: seq<Unit>)
    ensures d == Dedup(us)
  {
    d := [];
    var i := 0;
    while i < |us|
      invariant 0 <= i <= |us|
      invariant d == Dedup(us[..i])
    {
      assert us[..i + 1][..i] == us[..i];
      if d == [] || us[i].va != d[|d| - 1].va {
        d := d + [us[i]];
      }
      i := i + 1;
    }
    assert us[..i] == us;
  }

  /** Clips unit `i` and adds it to the units before it. */
  method ClipNext(im: Image, us: seq<Unit>, units: seq<Unit>, i: nat) returns (out: seq<Unit>)
    requires Indexed(im.regions, im.byVA) && i < |us|
    ensures out == ClipUnit(im.regions, us, units, i)
  {
    out := units;
    var u := us[i];
    var ri := im.RegionAtVA(u.va);
    if ri >= 0 {
      var r := im.regions[ri];
      var end := Add64(r.va, r.RunSize());
      if i + 1 < |us| && us[i + 1].va > u.va && us[i + 1].va < end {
        end := us[i + 1].va;
      }
      if u.size != 0 && Add64(u.va, u.size) < end && Add64(u.va, u.size) > u.va {
        end := Add64(u.va, u.size);
      }
      if out != [] && u.va < Add64(out[|out| - 1].va, out[|out| - 1].size) {
        return;
      }
      u := u.(size := Sub64(end, u.va));
      if u.size != 0 {
        out := out + [u];
      }
    }
  }

  /** Sorts the units by address, clips them to mapped regions and to each other. */
  method Clean(im: Image, units: seq<Unit>) returns (out: seq<Unit>)
    requires Indexed(im.regions, im.byVA)
    ensures out == CleanUnits(im.regions, units)
    ensures BinrefNorm.Clean(im.regions, out) && AllCleaned(im.regions, units, out)
    ensures forall u :: u in units && ScanVA(im.regions, u.va) >= 0 ==> StartsAt(out, u.va)
  {
    var us := DedupUnits(SortBy(UnitKey, units));
    out := [];
    var i := 0;
    while i < |us|
      invariant 0 <= i <= |us|
      invariant out == ClipUnits(im.regions, us, i)
    {
      out := ClipNext(im, us, out, i);
      i := i + 1;
    }
    CleanUnitsClean(im.regions, im.byVA, units);
    CleanUnitsFrom(im.regions, im.byVA, units);
  }

  /** Binary search for the unit that holds an address agrees with the linear scan. */
  method FindUnit(regs: seq<Region>, idx: seq<int>, us: seq<Unit>, x: u64) returns (r: int)
    requires Indexed(regs, idx) && BinrefNorm.Clean(regs, us)
    ensures r == UnitAt(us, x)
  {
    var i := Search(|us|, (k: nat) => k < |us| && Add64(us[k].va, us[k].size) > x);
    if i < |us| { UnitFits(regs, idx, us, i); }
    if i > 0 { UnitFits(regs, idx, us, i - 1); }
    if i < |us| && us[i].va <= x {
      r := i;
    } else {
      r := -1;
    }
    OnlyUnit(regs, us, x, i);
  }

  lemma UnitFits(regs: seq<Region>, idx: seq<int>, us: seq<Unit>, k: nat)
    requires Indexed(regs, idx) && BinrefNorm.Clean(regs, us) && k < |us|
    ensures us[k].va + us[k].size < B64
  {
    var ri := ScanVA(regs, us[k].va);
    assert Placed(regs, us[k]);
    var j :| 0 <= j < |idx| && idx[j] == ri;
  }

  lemma OnlyUnit(regs: seq<Region>, us: seq<Unit>, x: u64, i: nat)
    requires BinrefNorm.Clean(regs, us) && i <= |us|
    requires i < |us| ==> us[i].va + us[i].size > x
    requires i > 0 ==> us[i - 1].va + us[i - 1].size <= x
    ensures forall k :: 0 <= k < |us| && us[k].Contains(x) ==> k == i
  {
    forall k | 0 <= k < |us| && us[k].Contains(x) ensures k == i {
      assert Placed(regs, us[k]);
      if i > 0 { assert Placed(regs, us[i - 1]); }
    }
  }

  /** The identity of one unit. */
  method NameUnit(im: Image, masked: array<byte>, us: seq<Unit>, ident: Ident, h: Hashes, i: nat) returns (id: Option<u32>)
    requires Snap(im).Ready(im.byVA) && masked.Length == |im.data| && i < |us| && BinrefNorm.Clean(im.regions, us)
    ensures Placed(im.regions, us[i]) && id == RawId(Snap(im), masked[..], us, ident, h, i)
  {
    var u := us[i];
    UnitFits(im.regions, im.byVA, us, i);
    assert Placed(im.regions, u);
    match ident {
      case Ordinal => return Some(i % B32);
      case RegionRel => return None;
      case Symbol => return if u.name == "" then None else Some(h.ofName(u.name));
      case Content =>
        var ri := im.RegionAtVA(u.va);
        var rg := im.regions[ri];
        TilesBounds(im.regions, |im.data|, ri);
        PlacedLimit(im.regions, im.byVA, ri);
        if Sub64(u.va, rg.va) >= rg.len || Add64(u.va, u.size) > Add64(rg.va, rg.len) {
          return None;
        }
        var off := rg.off + (u.va - rg.va);
        return Some(h.ofBytes(masked[off..off + u.size]));
    }
  }

  lemma PlacedLimit(regs: seq<Region>, idx: seq<int>, ri: nat)
    requires Indexed(regs, idx) && ri < |regs| && regs[ri].mapped
    ensures regs[ri].Limit() < B64 && regs[ri].va + regs[ri].len <= regs[ri].Limit()
  {
    var j :| 0 <= j < |idx| && idx[j] == ri;
  }

  function Tally(count: map<u32, nat>, id: u32): nat { if id in count then count[id] else 0 }

  ghost predicate Counts(count: map<u32, nat>, raw: seq<Option<u32>>) {
    forall x: u32 :: Tally(count, x) == multiset(raw)[Some(x)]
  }

  lemma CountsStep(count: map<u32, nat>, raw: seq<Option<u32>>, id: Option<u32>)
    requires Counts(count, raw)
    ensures Counts(if id.Some? then count[id.value := Tally(count, id.value) + 1] else count, raw + [id])
  {
    assert multiset(raw + [id]) == multiset(raw) + multiset{id};
  }

  /** Names every unit and counts how often each name is given. */
  method RawNames(im: Image, masked: array<byte>, us: seq<Unit>, ident: Ident, h: Hashes)
    returns (raw: seq<Option<u32>>, count: map<u32, nat>)
    requires Snap(im).Ready(im.byVA) && masked.Length == |im.data| && BinrefNorm.Clean(im.regions, us)
    ensures raw == RawIds(Snap(im), masked[..], us, ident, h) && Counts(count, raw)
  {
    raw, count := [], map[];
    ghost var want := RawIds(Snap(im), masked[..], us, ident, h);
    var i := 0;
    while i < |us|
      invariant 0 <= i <= |us| && |raw| == i
      invariant forall k :: 0 <= k < i ==> raw[k] == want[k]
      invariant Counts(count, raw)
    {
      var id := NameUnit(im, masked, us, ident, h, i);
      assert want[i] == id;
      CountsStep(count, raw, id);
      if id.Some? {
        count := count[id.value := Tally(count, id.value) + 1];
      }
      raw := raw + [id];
      i := i + 1;
    }
  }

  /** Takes back the names that two units share. */
  method Exclude(raw: seq<Option<u32>>, count: map<u32, nat>, ident: Ident) returns (names: seq<Option<u32>>)
    requires Counts(count, raw) && (ident.RegionRel? ==> forall k :: 0 <= k < |raw| ==> raw[k].None?)
    ensures names == Names(raw)
  {
    names := [];
    var i := 0;
    while i < |raw|
      invariant 0 <= i <= |raw| && |names| == i
      invariant forall k :: 0 <= k < i ==> names[k] == Unique(raw, k)
    {
      if ident.RegionRel? || (raw[i].Some? && Tally(count, raw[i].value) > 1) {
        names := names + [None];
      } else {
        names := names + [raw[i]];
      }
      i := i + 1;
    }
    assert names == Names(raw);
  }

  // ---- classification ----

  function RecsAt(byRegion: map<int, seq<Rec>>, ri: int): seq<Rec> {
    if ri in byRegion then byRegion[ri] else []
  }

  /** The per-region lists and the used units are those of the records so far. */
  ghost predicate Tracks(recs: seq<Rec>, byRegion: map<int, seq<Rec>>, used: set<int>) {
    && (forall ri: nat :: RecsAt(byRegion, ri) == InRegionOnly(recs, ri))
    && (forall i: nat :: i in used <==> IsUsed(recs, i))
  }

  lemma OnlyMore(recs: seq<Rec>, r: Rec, ri: nat)
    ensures InRegionOnly(recs + [r], ri) == if r.a.sr == ri then InRegionOnly(recs, ri) + [r] else InRegionOnly(recs, ri)
  {
    var all := recs + [r];
    assert all[..|recs|] == recs && all[|recs|] == r;
  }

  lemma UsedMore(recs: seq<Rec>, r: Rec, i: nat)
    ensures IsUsed(recs + [r], i) <==> IsUsed(recs, i) || r.unit == i
  {
    var all := recs + [r];
    assert all[|recs|] == r;
    if IsUsed(recs, i) {
      var k :| 0 <= k < |recs| && recs[k].unit == i;
      assert all[k].unit == i;
    }
  }

  lemma TracksStep(recs: seq<Rec>, byRegion: map<int, seq<Rec>>, used: set<int>, r: Rec)
    requires Tracks(recs, byRegion, used)
    ensures Tracks(recs + [r], byRegion[r.a.sr := RecsAt(byRegion, r.a.sr) + [r]], if r.unit >= 0 then used + {r.unit} else used)
  {
    forall ri: nat { OnlyMore(recs, r, ri); }
    forall i: nat { UsedMore(recs, r, i); }
  }

  method Decide(im: Image, us: seq<Unit>, names: seq<Option<u32>>, ident: Ident, a: Acc) returns (f: Fate)
    requires Snap(im).Ready(im.byVA) && BinrefNorm.Clean(im.regions, us) && |names| == |us| && Sound(Snap(im), a)
    ensures f == FateOf(Snap(im), us, names, ident, a)
  {
    var sr := im.regions[a.sr];
    var ui := FindUnit(im.regions, im.byVA, us, a.t);
    if sr.mapped && ui >= 0 {
      var own := FindUnit(im.regions, im.byVA, us, Add64(sr.va, a.slot.off - sr.off));
      if ui == own {
        return Intra;
      }
    }
    if ui >= 0 && !ident.RegionRel? && names[ui].None? {
      return Collide;
    }
    return Record(if ui >= 0 && names[ui].Some? then ui else -1);
  }

  /** The bytes still masked when the first `i` accepted slots are classified. */
  ghost predicate Pending(data: seq<byte>, masked: seq<byte>, recs: seq<Rec>, accs: seq<Acc>, i: nat)
    requires i <= |accs|
  {
    masked == Mask(data, AccsOf(recs) + accs[i..])
  }

  lemma PendingRecord(data: seq<byte>, masked: seq<byte>, recs: seq<Rec>, accs: seq<Acc>, i: nat, u: int)
    requires i < |accs| && Pending(data, masked, recs, accs, i)
    ensures Pending(data, masked, recs + [Rec(accs[i], u)], accs, i + 1)
  {
    assert AccsOf(recs + [Rec(accs[i], u)]) + accs[i + 1..] == AccsOf(recs) + accs[i..];
  }

  lemma PendingRestore(m: Img, masked: seq<byte>, recs: seq<Rec>, accs: seq<Acc>, i: nat)
    requires Spaced(m, accs) && i < |accs| && Pending(m.data, masked, recs, accs, i)
    requires forall k :: 0 <= k < |recs| ==> recs[k].a.End() <= accs[i].slot.off
    ensures 0 <= accs[i].slot.off && accs[i].End() <= |m.data|
    ensures Pending(m.data, Put(masked, accs[i].slot.off, m.data[accs[i].slot.off..accs[i].End()]), recs, accs, i + 1)
  {
    var a := accs[i];
    assert Sound(m, a);
    assert accs[i..] == [a] + accs[i + 1..];
    forall j | a.Covers(j) ensures !CoveredBy(AccsOf(recs), j) && !CoveredBy(accs[i + 1..], j) {
      CoveredAt(AccsOf(recs), j);
      CoveredAt(accs[i + 1..], j);
    }
    MaskRestore(m.data, AccsOf(recs), a, accs[i + 1..]);
  }

  lemma SortedSoFar(m: Img, us: seq<Unit>, names: seq<Option<u32>>, ident: Ident, accs: seq<Acc>, i: nat)
    requires |names| == |us| && Spaced(m, accs) && i < |accs|
    ensures Spaced(m, accs[..i]) && Spaced(m, accs[..i + 1]) && Sound(m, accs[i])
    ensures SortedOk(m, us, names, SortAccs(m, us, names, ident, accs[..i]), i, accs[i].slot.off)
    ensures SortAccs(m, us, names, ident, accs[..i + 1])
         == SortOne(SortAccs(m, us, names, ident, accs[..i]), accs[i], FateOf(m, us, names, ident, accs[i]))
  {
    assert accs[..i + 1][..i] == accs[..i];
    SortAccsOk(m, us, names, ident, accs[..i], accs[i].slot.off);
  }

  /** What the classification loop holds after `i` slots. */
  ghost predicate Classified(m: Img, us: seq<Unit>, names: seq<Option<u32>>, ident: Ident, accs: seq<Acc>, i: nat,
                             s: Sorted, byRegion: map<int, seq<Rec>>, used: set<int>, masked: seq<byte>)
    requires |names| == |us| && i <= |accs| && Spaced(m, accs)
  {
    && s == SortAccs(m, us, names, ident, accs[..i])
    && Tracks(s.recs, byRegion, used)
    && Pending(m.data, masked, s.recs, accs, i)
  }

  /** One accepted slot: left raw (its bytes restored) or recorded. */
  method ClassifyNext(im: Image, us: seq<Unit>, names: seq<Option<u32>>, ident: Ident, masked: array<byte>, accs: seq<Acc>, i: nat,
                      s: Sorted, byRegion: map<int, seq<Rec>>, used: set<int>)
    returns (s': Sorted, byRegion': map<int, seq<Rec>>, used': set<int>)
    requires Snap(im).Ready(im.byVA) && BinrefNorm.Clean(im.regions, us) && |names| == |us| && masked.Length == |im.data|
    requires Spaced(Snap(im), accs) && i < |accs|
    requires Classified(Snap(im), us, names, ident, accs, i, s, byRegion, used, masked[..])
    modifies masked
    ensures Classified(Snap(im), us, names, ident, accs, i + 1, s', byRegion', used', masked[..])
  {
    s', byRegion', used' := s, byRegion, used;
    var a := accs[i];
    SortedSoFar(Snap(im), us, names, ident, accs, i);
    var f := Decide(im, us, names, ident, a);
    match f {
      case Intra =>
        s' := s.(intra := s.intra + 1);
        PendingRestore(Snap(im), masked[..], s.recs, accs, i);
        Store(masked, a.slot.off, im.data[a.slot.off..a.End()]);
      case Collide =>
        s' := s.(collide := s.collide + 1);
        PendingRestore(Snap(im), masked[..], s.recs, accs, i);
        Store(masked, a.slot.off, im.data[a.slot.off..a.End()]);
      case Record(u) =>
        TracksStep(s.recs, byRegion, used, Rec(a, u));
        PendingRecord(im.data, masked[..], s.recs, accs, i, u);
        if u >= 0 {
          used' := used + {u};
        }
        s' := s.(recs := s.recs + [Rec(a, u)], regionRel := s.regionRel + if u < 0 then 1 else 0);
        byRegion' := byRegion[a.sr := RecsAt(byRegion, a.sr) + [Rec(a, u)]];
    }
  }

  lemma ClassifiedStart(m: Img, us: seq<Unit>, names: seq<Option<u32>>, ident: Ident, accs: seq<Acc>, masked: seq<byte>)
    requires |names| == |us| && Spaced(m, accs) && masked == Mask(m.data, accs)
    ensures Classified(m, us, names, ident, accs, 0, Sorted([], 0, 0, 0), map[], {}, masked)
  {
    assert AccsOf([]) + accs[0..] == accs;
  }

  lemma PendingNone(data: seq<byte>, masked: seq<byte>, recs: seq<Rec>, accs: seq<Acc>)
    requires Pending(data, masked, recs, accs, |accs|)
    ensures masked == Mask(data, AccsOf(recs))
  {
    assert AccsOf(recs) + accs[|accs|..] == AccsOf(recs);
  }

  method Classify(im: Image, us: seq<Unit>, names: seq<Option<u32>>, ident: Ident, masked: array<byte>, accs: seq<Acc>)
    returns (s: Sorted, byRegion: map<int, seq<Rec>>, used: set<int>)
    requires Snap(im).Ready(im.byVA) && BinrefNorm.Clean(im.regions, us) && |names| == |us| && masked.Length == |im.data|
    requires Spaced(Snap(im), accs) && masked[..] == Mask(im.data, accs)
    modifies masked
    ensures s == SortAccs(Snap(im), us, names, ident, accs)
    ensures Tracks(s.recs, byRegion, used) && masked[..] == Mask(im.data, AccsOf(s.recs))
  {
    s, byRegion, used := Sorted([], 0, 0, 0), map[], {};
    var i := 0;
    ClassifiedStart(Snap(im), us, names, ident, accs, masked[..]);
    while i < |accs|
      invariant 0 <= i <= |accs|
      invariant Classified(Snap(im), us, names, ident, accs, i, s, byRegion, used, masked[..])
    {
      s, byRegion, used := ClassifyNext(im, us, names, ident, masked, accs, i, s, byRegion, used);
      i := i + 1;
    }
    assert accs[..i] == accs;
    PendingNone(im.data, masked[..], s.recs, accs);
  }

  // ---- writing the streams ----

  method WriteReg(hdr: seq<byte>, r: Region, ghost rest: seq<byte>) returns (out: seq<byte>)
    requires r.len >= 0
    ensures out + rest == hdr + RegThen(RegOf(r), rest)
  {
    var f: byte := (if r.mapped then 1 else 0) + (if r.mapped && r.RunSize() > r.len then 2 else 0);
    ghost var x := RegOf(r);
    out := hdr + Uv(r.len);
    out := out + [f];
    Glue(hdr + Uv(r.len), [f], AddressThen(x, ExtraThen(x, rest)));
    Glue(hdr, Uv(r.len), [f] + AddressThen(x, ExtraThen(x, rest)));
    if r.mapped {
      Glue(out, Uv(r.va), ExtraThen(x, rest));
      out := out + Uv(r.va);
    }
    if f >= 2 {
      Glue(out, Uv(r.RunSize()), rest);
      out := out + Uv(r.RunSize());
    }
  }

  method WriteHeader(im: Image) returns (hdr: seq<byte>)
    requires forall i :: 0 <= i < |im.regions| ==> im.regions[i].len >= 0
    ensures hdr == HeaderBytes(im.base, im.base2, RegsOf(im.regions))
  {
    ghost var rs := RegsOf(im.regions);
    hdr := Uv(im.base) + Uv(im.base2) + Uv(|im.regions|);
    Glue(Uv(im.base) + Uv(im.base2), Uv(|rs|), RegsBytes(rs));
    Glue(Uv(im.base), Uv(im.base2), Uv(|rs|) + RegsBytes(rs));
    assert rs[0..] == rs;
    var i := 0;
    while i < |im.regions|
      invariant 0 <= i <= |im.regions|
      invariant hdr + RegsBytes(rs[i..]) == HeaderBytes(im.base, im.base2, rs)
    {
      RegsStep(rs, i);
      hdr := WriteReg(hdr, im.regions[i], RegsBytes(rs[i + 1..]));
      i := i + 1;
    }
    assert hdr + [] == hdr;
  }

  /** The used units, in address order. */
  method ListUnits(us: seq<Unit>, names: seq<Option<u32>>, used: set<int>, ghost recs: seq<Rec>) returns (uidx: seq<UnitEntry>)
    requires |names| == |us|
    requires forall i: nat :: i in used <==> IsUsed(recs, i)
    requires forall i: nat :: IsUsed(recs, i) ==> i < |us| && names[i].Some?
    ensures uidx == Table(us, names, recs, |us|)
  {
    uidx := [];
    var i := 0;
    while i < |us|
      invariant 0 <= i <= |us| && uidx == Table(us, names, recs, i)
    {
      if i in used {
        uidx := uidx + [UnitEntry(names[i].value, us[i].va)];
      }
      i := i + 1;
    }
  }

  method WriteUnits(us: seq<UnitEntry>) returns (ut: seq<byte>)
    ensures ut == UnitsBytes(us)
  {
    ut := Uv(|us|);
    var prev: u64 := 0;
    var i := 0;
    assert us[0..] == us;
    while i < |us|
      invariant 0 <= i <= |us|
      invariant ut + UnitListBytes(us[i..], prev) == UnitsBytes(us)
    {
      UnitsStep(us, prev, i);
      ghost var rest := UnitListBytes(us[i + 1..], us[i].va);
      Glue(ut, U32LE(us[i].id), Uv(Sub64(us[i].va, prev)) + rest);
      Glue(ut + U32LE(us[i].id), Uv(Sub64(us[i].va, prev)), rest);
      ut := ut + U32LE(us[i].id);
      ut := ut + Uv(Sub64(us[i].va, prev));
      prev := us[i].va;
      i := i + 1;
    }
    assert ut + [] == ut;
  }

  method WriteTarget(rb: seq<byte>, t: Target, ghost rest: seq<byte>) returns (out: seq<byte>)
    ensures out + rest == rb + TargetThen(t, rest)
  {
    match t {
      case InRegion(r, off) =>
        Glue(rb, Uv(r), Uv(off) + rest);
        Glue(rb + Uv(r), Uv(off), rest);
        out := rb + Uv(r) + Uv(off);
      case InUnit(id, off) =>
        Glue(rb, U32LE(id), Uv(off) + rest);
        Glue(rb + U32LE(id), Uv(off), rest);
        out := rb + U32LE(id) + Uv(off);
    }
  }

  method WriteRef(rb: seq<byte>, x: Ref, pe: nat, ghost rest: seq<byte>) returns (out: seq<byte>)
    requires pe <= x.at && x.bias < 8
    ensures out + rest == rb + RefThen(x, pe, rest)
  {
    ghost var tail := TargetThen(x.target, rest);
    Glue(rb, Uv(x.at - pe), [KindByte(x)] + tail);
    Glue(rb + Uv(x.at - pe), [KindByte(x)], tail);
    out := WriteTarget(rb + Uv(x.at - pe) + [KindByte(x)], x.target, rest);
  }

  /** The references of one region; `pe` is the end of the last field. */
  method WriteRefs(im: Image, us: seq<Unit>, names: seq<Option<u32>>, t: seq<Rec>, ghost ri: nat) returns (rb: seq<byte>)
    requires OneRegion(Snap(im), us, names, t, ri)
    ensures Ordered(RefsOf(Snap(im), us, names, t)) && rb == RefsBytes(RefsOf(Snap(im), us, names, t))
  {
    ghost var rs := RefsOf(Snap(im), us, names, t);
    RefsOrdered(Snap(im), us, names, t, ri);
    rb := Uv(|t|);
    var pe, k := 0, 0;
    while k < |t|
      invariant 0 <= k <= |t| && pe == PrevEnd(rs, k) && rb + RefListBytes(rs, k) == RefsBytes(rs)
    {
      var a := t[k].a;
      assert RecOk(Snap(im), us, names, t[k]);
      var target :=
        if t[k].unit < 0 then InRegion(a.tr, Sub64(a.t, im.regions[a.tr].va))
        else InUnit(names[t[k].unit].value, Sub64(a.t, us[t[k].unit].va));
      var x := Ref(a.slot.off - im.regions[a.sr].off, a.slot.enc, a.slot.bias, target);
      assert rs[k] == x;
      rb := WriteRef(rb, x, pe, RefListBytes(rs, k + 1));
      pe := x.End();
      k := k + 1;
    }
    assert rb + [] == rb;
  }

  lemma UsedNamed(m: Img, us: seq<Unit>, names: seq<Option<u32>>, recs: seq<Rec>)
    requires |names| == |us| && RecsOk(m, us, names, recs)
    ensures forall i: nat :: IsUsed(recs, i) ==> i < |us| && names[i].Some?
  {
    forall i: nat | IsUsed(recs, i) ensures i < |us| && names[i].Some? {
      var k :| 0 <= k < |recs| && recs[k].unit == i;
      assert RecOk(m, us, names, recs[k]);
    }
  }

  lemma FormShaped(p: Plan)
    requires p.Ok()
    ensures Shaped(p.Form())
  {
    var f := p.Form();
    forall ri | 0 <= ri < |f.refs| ensures Ordered(f.refs[ri]) {
      InRegionOk(p.m, p.us, p.names, p.recs, ri);
      RefsOrdered(p.m, p.us, p.names, InRegionOnly(p.recs, ri), ri);
    }
  }

  /** The plan `p` is being written from these tables. */
  ghost predicate Writing(im: Image, us: seq<Unit>, names: seq<Option<u32>>, byRegion: map<int, seq<Rec>>, masked: array<byte>, p: Plan)
    reads im, masked
  {
    && p.Ok() && p.m == Snap(im) && p.us == us && p.names == names
    && masked[..] == p.Masked() && (forall ri: nat :: RecsAt(byRegion, ri) == InRegionOnly(p.recs, ri))
  }

  lemma RegionForm(p: Plan, ri: nat)
    requires p.Ok() && ri < |p.m.regions|
    ensures var r, t := p.m.regions[ri], InRegionOnly(p.recs, ri);
            && 0 <= r.off <= r.off + r.len <= |p.m.data| && p.Form().payload[ri] == p.Masked()[r.off..r.off + r.len]
            && OneRegion(p.m, p.us, p.names, t, ri) && p.Form().refs[ri] == RefsOf(p.m, p.us, p.names, t)
  {
    TilesBounds(p.m.regions, |p.m.data|, ri);
    InRegionOk(p.m, p.us, p.names, p.recs, ri);
    assert p.Form().payload[ri] == p.Payload(ri) && p.Form().refs[ri] == p.Refs(ri);
  }

  /** The payload and refs streams of one region. */
  method WriteRegion(im: Image, us: seq<Unit>, names: seq<Option<u32>>, byRegion: map<int, seq<Rec>>, masked: array<byte>, ri: nat,
                     ghost p: Plan, ghost f: Form)
    returns (payload: seq<byte>, b: Option<seq<byte>>)
    requires Writing(im, us, names, byRegion, masked, p) && f == p.Form() && Shaped(f) && ri < |im.regions|
    ensures payload == f.payload[ri] && b == RefData(f)[ri]
  {
    var r := im.regions[ri];
    RegionForm(p, ri);
    payload := masked[r.off..r.off + r.len];
    var t := RecsAt(byRegion, ri);
    if |t| == 0 {
      b := None;
    } else {
      var rb := WriteRefs(im, us, names, t, ri);
      b := Some(rb);
    }
  }

  lemma StreamListStep(hdr: seq<byte>, ut: seq<byte>, parts: seq<seq<byte>>, refs: seq<Option<seq<byte>>>, ri: nat, payload: seq<byte>, b: Option<seq<byte>>)
    requires ri < |parts| == |refs| && payload == parts[ri] && b == refs[ri]
    ensures StreamList(hdr, ut, parts, refs, ri + 1) == StreamList(hdr, ut, parts, refs, ri) + RegionStreams(ri, payload, b)
  {}

  /** The payload and refs streams of every region, after the header and the unit table. */
  method WriteRegions(im: Image, us: seq<Unit>, names: seq<Option<u32>>, byRegion: map<int, seq<Rec>>, masked: array<byte>,
                      hdr: seq<byte>, ut: seq<byte>, ghost p: Plan, ghost f: Form)
    returns (streams: seq<Stream>)
    requires Writing(im, us, names, byRegion, masked, p) && f == p.Form() && Shaped(f) && |f.payload| == |im.regions|
    ensures streams == StreamList(hdr, ut, f.payload, RefData(f), |f.payload|)
  {
    streams := [Regions(hdr), Units(ut)];
    ghost var parts, refs := f.payload, RefData(f);
    var ri := 0;
    while ri < |im.regions|
      invariant 0 <= ri <= |im.regions|
      invariant streams == StreamList(hdr, ut, parts, refs, ri)
    {
      var payload, b := WriteRegion(im, us, names, byRegion, masked, ri, p, f);
      StreamListStep(hdr, ut, parts, refs, ri, payload, b);
      streams := streams + RegionStreams(ri, payload, b);
      ri := ri + 1;
    }
  }

  datatype Outcome = BadImage | Panicked | Normal(streams: seq<Stream>, masked: seq<byte>, stat: Stats)

  /** What a successful normalization of `n` slots by plan `p` returns. */
  ghost predicate Follows(r: Outcome, p: Plan, n: nat)
    requires r.Normal? && p.Ok()
  {
    && Shaped(p.Form()) && r.streams == Streams(p.Form())
    && r.masked == p.Masked()
    && r.stat.overlap + r.stat.unmapped + r.stat.intra + r.stat.collide + r.stat.accepted == n
    && r.stat.accepted == |p.recs| && r.stat.units == |p.Units()|
  }

  /** The streams, the masked file and the counters say what the slots and the units mean. */
  ghost predicate Meant(m: Img, slots: seq<Slot>, units: seq<Unit>, ident: Ident, h: Hashes, r: Outcome) {
    r.Normal? && exists took, accs, f ::
      Says(m, slots, units, ident, h, took, accs, f, r.masked, r.stat) && Shaped(f) && r.streams == Streams(f)
  }

  lemma FollowsMeant(m: Img, idx: seq<int>, slots: seq<Slot>, units: seq<Unit>, ident: Ident, h: Hashes, r: Outcome)
    requires m.Ready(idx) && !Sift(m, SortBy(SlotKey, slots)).panics && r.Normal? && r.stat == PlanStats(m, idx, slots, units, ident, h)
    requires var p := PlanOf(m, idx, slots, units, ident, h); p.Ok() && Follows(r, p, |slots|)
    ensures Meant(m, slots, units, ident, h, r)
  {
    var took, accs := PlanSays(m, idx, slots, units, ident, h);
  }

  ghost predicate Overflows(slots: seq<Slot>) {
    exists k :: 0 <= k < |slots| && slots[k].off + slots[k].enc.Width() >= B63
  }

  lemma SortedOverflows(slots: seq<Slot>)
    ensures Overflows(SortBy(SlotKey, slots)) <==> Overflows(slots)
  {
    var ss := SortBy(SlotKey, slots);
    if k :| 0 <= k < |slots| && slots[k].off + slots[k].enc.Width() >= B63 {
      SameElements(ss, slots, slots[k]);
      var j :| 0 <= j < |ss| && ss[j] == slots[k];
    }
    if k :| 0 <= k < |ss| && ss[k].off + ss[k].enc.Width() >= B63 {
      SameElements(ss, slots, ss[k]);
      var j :| 0 <= j < |slots| && slots[j] == ss[k];
    }
  }

  /** Step 4: all the streams. */
  method WriteStreams(im: Image, us: seq<Unit>, names: seq<Option<u32>>, byRegion: map<int, seq<Rec>>, used: set<int>,
                      masked: array<byte>, ghost p: Plan)
    returns (streams: seq<Stream>, n: nat)
    requires p.Ok() && p.m == Snap(im) && p.us == us && p.names == names
    requires masked[..] == p.Masked() && Tracks(p.recs, byRegion, used)
    ensures Shaped(p.Form()) && streams == Streams(p.Form()) && n == |p.Units()|
  {
    FormShaped(p);
    UsedNamed(p.m, us, names, p.recs);
    var hdr := WriteHeader(im);
    var uidx := ListUnits(us, names, used, p.recs);
    var ut := WriteUnits(uidx);
    streams := WriteRegions(im, us, names, byRegion, masked, hdr, ut, p, p.Form());
    n := |uidx|;
  }

  /** Steps 2 and 3: names the units and classifies the accepted slots. */
  method NameAndClassify(im: Image, masked: array<byte>, accs: seq<Acc>, units: seq<Unit>, ident: Ident, h: Hashes, ghost slots: seq<Slot>)
    returns (us: seq<Unit>, names: seq<Option<u32>>, s: Sorted, byRegion: map<int, seq<Rec>>, used: set<int>)
    requires Snap(im).Ready(im.byVA) && accs == Sift(Snap(im), SortBy(SlotKey, slots)).accs
    requires masked[..] == Mask(im.data, accs)
    modifies masked
    ensures PlanOf(Snap(im), im.byVA, slots, units, ident, h) == Plan(Snap(im), us, names, s.recs)
    ensures masked[..] == Mask(im.data, AccsOf(s.recs)) && Tracks(s.recs, byRegion, used)
    ensures |s.recs| + s.intra + s.collide == |accs|
    ensures us == CleanUnits(im.regions, units) && BinrefNorm.Clean(im.regions, us) && names == Names(Identities(Snap(im), accs, units, ident, h))
    ensures Spaced(Snap(im), accs) && s == SortAccs(Snap(im), us, names, ident, accs)
  {
    SiftSpaced(Snap(im), SortBy(SlotKey, slots));
    us := Clean(im, units);
    var raw, count := RawNames(im, masked, us, ident, h);
    names := Exclude(raw, count, ident);
    SortAccsOk(Snap(im), us, names, ident, accs, |im.data|);
    s, byRegion, used := Classify(im, us, names, ident, masked, accs);
  }

  /** From the accepted slots to the streams. */
  method Emit(im: Image, st: Sifted, units: seq<Unit>, ident: Ident, h: Hashes, ghost slots: seq<Slot>) returns (r: Outcome)
    requires Snap(im).Ready(im.byVA) && st == Sift(Snap(im), SortBy(SlotKey, slots)) && !st.panics
    ensures r.Normal? && r.stat == PlanStats(Snap(im), im.byVA, slots, units, ident, h)
    ensures var p := PlanOf(Snap(im), im.byVA, slots, units, ident, h); p.Ok() && Follows(r, p, |slots|)
  {
    ghost var m := Snap(im);
    SiftSpaced(m, SortBy(SlotKey, slots));
    var masked := new byte[|im.data|](k requires 0 <= k < |im.data| => im.data[k]);
    assert masked[..] == im.data;
    forall k | 0 <= k < |st.accs| ensures 0 <= st.accs[k].slot.off && st.accs[k].End() <= |im.data| {
      assert Sound(m, st.accs[k]);
    }
    MaskFields(masked, st.accs, im.data);
    var us, names, s, byRegion, used := NameAndClassify(im, masked, st.accs, units, ident, h, slots);
    PlanOk(m, im.byVA, slots, units, ident, h);
    var streams, n := WriteStreams(im, us, names, byRegion, used, masked, PlanOf(m, im.byVA, slots, units, ident, h));
    r := Normal(streams, masked[..], Stats(st.overlap, st.unmapped, s.intra, s.collide, |s.recs|, s.regionRel, n));
  }

  /**
   Builds the normalized representation of an image. It refuses exactly the images whose
   regions do not partition the file, and panics exactly when the end of some slot's field
   overflows; otherwise the streams are those of the plan.
   */
  method Normalize(im: Image, slots: seq<Slot>, units: seq<Unit>, ident: Ident, h: Hashes) returns (r: Outcome)
    requires |im.data| <= B63 - 8
    modifies im`regions, im`byVA
    ensures r.BadImage? <==> !Tiles(old(im.regions), |im.data|)
    ensures Tiles(old(im.regions), |im.data|) ==> (r.Panicked? <==> Overflows(slots))
    ensures !r.BadImage? ==> im.byVA == IndexOf(old(im.regions)) && im.regions == Demoted(old(im.regions), im.byVA)
    ensures r.Normal? ==> Snap(im).Ready(im.byVA)
    ensures r.Normal? ==>
      var p := PlanOf(Snap(im), im.byVA, slots, units, ident, h); p.Ok() && Follows(r, p, |slots|)
    ensures r.Normal? ==> Meant(Snap(im), slots, units, ident, h, r)
  {
    var ok := im.Prepare();
    if !ok {
      return BadImage;
    }
    var ss := SortBy(SlotKey, slots);
    SortedOverflows(slots);
    SiftPanics(Snap(im), ss);
    var st := SiftSlots(im, ss);
    if st.panics {
      return Panicked;
    }
    r := Emit(im, st, units, ident, h, slots);
    FollowsMeant(Snap(im), im.byVA, slots, units, ident, h, r);
  }

  /** Normalizing and rebuilding from the streams alone gives back every byte of the file. */
  method RoundTrip(im: Image, slots: seq<Slot>, units: seq<Unit>, ident: Ident, h: Hashes) returns (r: Outcome, back: Option<seq<byte>>)
    requires |im.data| <= B63 - 8 && |units| < B64
    requires |im.regions| <= MAX_REGIONS && forall i :: 0 <= i < |im.regions| ==> im.regions[i].len <= MAX_REGION_LEN
    modifies im`regions, im`byVA
    ensures Tiles(old(im.regions), |im.data|) && !Overflows(slots) ==> r.Normal? && back == Some(im.data)
  {
    r := Normalize(im, slots, units, ident, h);
    back := None;
    if r.Normal? {
      NormalizationMeansFile(Snap(im), im.byVA, slots, units, ident, h);
      back := Reconstruct(r.streams, PlanOf(Snap(im), im.byVA, slots, units, ident, h).Form());
    }
  }

  /** A one-byte file and a 32-bit slot at offset 2^63 - 4: normalizing panics instead of refusing the slot. */
  method PanickingSlot(units: seq<Unit>, ident: Ident, h: Hashes) returns (r: Outcome)
    ensures r.Panicked?
  {
    var im := new Image([0], [Region("", 0, 1, 0, 0, false)], 0, 0);
    assert EndBefore(im.regions, 0) == 0 && EndBefore(im.regions, 1) == 1;
    var slots := [Slot(B63 - 4, Rel32, 0)];
    assert slots[0].off + slots[0].enc.Width() >= B63;
    r := Normalize(im, slots, units, ident, h);
  }
}
