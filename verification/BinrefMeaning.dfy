/**
 What the normal form of an image says (binref/norm.go, `Normalize`), without following the
 loops that compute it: which candidate fields are selected, which of them are recorded and
 which stay in the file, what a record names, and what the counters count.
 */
module BinrefMeaning {
  import opened Bytes
  import opened Sorting
  import opened BinrefImage
  import opened BinrefForm
  import opened BinrefNorm
  import opened BinrefPlan

  // ---- candidate fields ----

  /** The field of `s` lies in region `sr`, and in the file. */
  predicate Held(m: Img, s: Slot, sr: int) {
    && 0 <= sr < |m.regions| && s.bias <= 7 && (s.enc.Rel32? ==> m.regions[sr].mapped)
    && 0 <= s.off && m.regions[sr].off <= s.off && s.off + s.enc.Width() <= m.regions[sr].off + m.regions[sr].len
    && s.off + s.enc.Width() <= |m.data|
  }

  /** The run-time address of an offset of the region. */
  function OwnVA(r: Region, off: int): int { r.va + (off - r.off) }

  function Signed(v: int): int { if v < 0x8000_0000 then v else v - B32 }

  /** `t` is the address `x`, in 64 bits. */
  predicate Wraps(t: u64, x: int) { t == x || t == x - B64 || t == x + B64 }

  /** The field of `a` refers to the address `a.t`. */
  predicate Reaches(m: Img, a: Acc)
    requires Held(m, a.slot, a.sr)
  {
    var v := LE(m.data[a.slot.off..a.End()]);
    match a.slot.enc
    case Rel32 => Wraps(a.t, OwnVA(m.regions[a.sr], a.slot.off) + 4 + a.slot.bias + Signed(v))
    case RVA32 => Wraps(a.t, m.base + v)
    case Off32 => Wraps(a.t, m.base2 + v)
    case Abs64 => a.t == v
  }

  /** A field in its region that refers to an address in a mapped region. */
  predicate Refers(m: Img, a: Acc) {
    Held(m, a.slot, a.sr) && Reaches(m, a) && a.tr < |m.regions| && m.regions[a.tr].ContainsVA(a.t)
  }

  ghost predicate Fits(m: Img, s: Slot) { exists sr :: Held(m, s, sr) }

  ghost predicate Usable(m: Img, s: Slot) { exists a: Acc :: a.slot == s && Refers(m, a) }

  lemma DecodeReaches(m: Img, idx: seq<int>, s: Slot, sr: nat, t: u64, tr: nat)
    requires m.Ready(idx) && Held(m, s, sr)
    ensures Reaches(m, Acc(s, t, tr, sr)) <==>
      t == DecodeSlot(s.enc, s.bias, SlotVA(m.regions[sr], s.off), m.base, m.base2, FieldValue(m.data[s.off..s.off + s.enc.Width()]))
  {
    match s.enc {
      case Rel32 => RelReaches(m, idx, s, sr, t);
      case RVA32 =>
      case Off32 =>
      case Abs64 =>
    }
  }

  lemma RelReaches(m: Img, idx: seq<int>, s: Slot, sr: nat, t: u64)
    requires m.Ready(idx) && Held(m, s, sr) && s.enc.Rel32?
    ensures var v := FieldValue(m.data[s.off..s.off + 4]);
            Wraps(t, OwnVA(m.regions[sr], s.off) + 4 + s.bias + Signed(v)) <==>
            t == DecodeSlot(Rel32, s.bias, SlotVA(m.regions[sr], s.off), m.base, m.base2, v)
  {
    var k :| 0 <= k < |idx| && idx[k] == sr;
    var va: u64, v := SlotVA(m.regions[sr], s.off), FieldValue(m.data[s.off..s.off + 4]);
    assert va == OwnVA(m.regions[sr], s.off);
    RelWraps(va, s.bias, v, t);
  }

  lemma RelWraps(va: u64, bias: byte, v: u64, t: u64)
    requires v < B32
    ensures Wraps(t, va + 4 + bias + Signed(v)) <==> t == Add64(Add64(Add64(va, 4), bias), SignExtend(v % B32))
  {}

  /** A field refers to one address, in one region, from one region. */
  lemma RefersOnce(m: Img, idx: seq<int>, a: Acc, b: Acc)
    requires m.Ready(idx) && Refers(m, a) && Refers(m, b) && a.slot == b.slot
    ensures a == b
  {
    TilesUnique(m.regions, |m.data|, a.slot.off, a.sr, b.sr);
    DecodeReaches(m, idx, a.slot, a.sr, a.t, a.tr);
    DecodeReaches(m, idx, a.slot, a.sr, b.t, b.tr);
    OneRegionAt(m.regions, idx, a.t, a.tr, b.tr);
  }

  lemma OneRegionAt(regs: seq<Region>, idx: seq<int>, x: int, i: nat, j: nat)
    requires Indexed(regs, idx) && i < |regs| && j < |regs| && regs[i].ContainsVA(x) && regs[j].ContainsVA(x)
    ensures i == j
  {
    var k :| 0 <= k < |idx| && idx[k] == i;
    var l :| 0 <= l < |idx| && idx[l] == j;
  }

  /** The verdict on a slot, by what the slot is: misplaced, dangling, or a reference. */
  lemma JudgeExact(m: Img, idx: seq<int>, s: Slot, prevEnd: int)
    requires m.Ready(idx) && -1 <= prevEnd <= |m.data| && !Judge(m, s, prevEnd).Panics?
    ensures Judge(m, s, prevEnd).Overlap? <==> !Fits(m, s) || s.off < prevEnd
    ensures Judge(m, s, prevEnd).Accept? <==> Usable(m, s) && s.off >= prevEnd
    ensures Judge(m, s, prevEnd).Accept? ==> Refers(m, Judge(m, s, prevEnd).acc) && Judge(m, s, prevEnd).acc.slot == s
  {
    JudgePanics(m, s, prevEnd);
    if sr :| Held(m, s, sr) {
      HeldVerdict(m, idx, s, prevEnd, sr);
    } else if Judge(m, s, prevEnd) != Overlap {
      assert Held(m, s, ScanOff(m.regions, s.off));
    }
  }

  lemma HeldVerdict(m: Img, idx: seq<int>, s: Slot, prevEnd: int, sr: nat)
    requires m.Ready(idx) && Held(m, s, sr)
    ensures Judge(m, s, prevEnd).Overlap? <==> s.off < prevEnd
    ensures Judge(m, s, prevEnd).Accept? <==> Usable(m, s) && s.off >= prevEnd
    ensures Judge(m, s, prevEnd).Accept? ==> Refers(m, Judge(m, s, prevEnd).acc) && Judge(m, s, prevEnd).acc.slot == s
  {
    assert m.regions[sr].ContainsOff(s.off);
    TilesUnique(m.regions, |m.data|, s.off, sr, ScanOff(m.regions, s.off));
    ResolveExact(m, idx, s, sr);
  }

  lemma ResolveExact(m: Img, idx: seq<int>, s: Slot, sr: nat)
    requires m.Ready(idx) && Held(m, s, sr) && m.regions[sr].ContainsOff(s.off)
    ensures Resolve(m, s, sr).Accept? <==> Usable(m, s)
    ensures Resolve(m, s, sr).Accept? ==> Refers(m, Resolve(m, s, sr).acc) && Resolve(m, s, sr).acc.slot == s
    ensures Resolve(m, s, sr).Accept? || Resolve(m, s, sr).Unmapped?
  {
    var va, v := SlotVA(m.regions[sr], s.off), FieldValue(m.data[s.off..s.off + s.enc.Width()]);
    var t := DecodeSlot(s.enc, s.bias, va, m.base, m.base2, v);
    EncodeDecode(s.enc, s.bias, va, m.base, m.base2, v);
    var tr := ScanVA(m.regions, t);
    if tr >= 0 {
      DecodeReaches(m, idx, s, sr, t, tr);
      assert Refers(m, Acc(s, t, tr, sr));
    } else if a: Acc :| a.slot == s && Refers(m, a) {
      TilesUnique(m.regions, |m.data|, s.off, sr, a.sr);
      DecodeReaches(m, idx, s, sr, a.t, a.tr);
      assert false;
    }
  }

  // ---- selection ----

  /** A field selected before `j` reaches past the start of slot `j`. */
  predicate Reached(ss: seq<Slot>, took: seq<bool>, j: nat)
    requires j < |ss| && j <= |took|
  {
    exists i :: 0 <= i < j && took[i] && ss[i].off + ss[i].enc.Width() > ss[j].off
  }

  /** Of the slots in file order, those are selected that can be used and that no selected one reaches into. */
  ghost predicate Selected(m: Img, ss: seq<Slot>, took: seq<bool>) {
    |took| <= |ss| && forall j {:trigger took[j]} :: 0 <= j < |took| ==> (took[j] <==> Usable(m, ss[j]) && !Reached(ss, took, j))
  }

  /** At most one selection satisfies this. */
  lemma {:induction false} SelectedOnce(m: Img, ss: seq<Slot>, a: seq<bool>, b: seq<bool>, n: nat)
    requires Selected(m, ss, a) && Selected(m, ss, b) && n <= |a| && n <= |b|
    ensures forall j :: 0 <= j < n ==> a[j] == b[j]
  {
    if n > 0 { SelectedOnce(m, ss, a, b, n - 1); }
  }

  /** And one does. */
  lemma {:induction false} SelectedSome(m: Img, ss: seq<Slot>, n: nat) returns (took: seq<bool>)
    requires n <= |ss|
    ensures Selected(m, ss, took) && |took| == n
  {
    took := [];
    if n > 0 {
      var t := SelectedSome(m, ss, n - 1);
      took := t + [Usable(m, ss[n - 1]) && !Reached(ss, t, n - 1)];
      forall j | 0 <= j < n ensures took[j] <==> Usable(m, ss[j]) && !Reached(ss, took, j) {
        assert j < n - 1 ==> took[j] == t[j];
        assert Reached(ss, took, j) <==> Reached(ss, t, j) by { ReachedPrefix(ss, t, took, j); }
      }
    }
  }

  lemma ReachedPrefix(ss: seq<Slot>, a: seq<bool>, b: seq<bool>, j: nat)
    requires j < |ss| && j <= |a| && j <= |b| && forall i :: 0 <= i < j ==> a[i] == b[i]
    ensures Reached(ss, a, j) <==> Reached(ss, b, j)
  {}

  /** The selected slots among the first `n`, in file order. */
  function Picked(ss: seq<Slot>, took: seq<bool>, n: nat): seq<Slot>
    requires n <= |ss| && n <= |took|
  {
    if n == 0 then [] else if took[n - 1] then Picked(ss, took, n - 1) + [ss[n - 1]] else Picked(ss, took, n - 1)
  }

  /** These are the selected fields, each with the address it refers to. */
  predicate AccsFor(m: Img, accs: seq<Acc>, slots: seq<Slot>) {
    |accs| == |slots| && forall k {:trigger Refers(m, accs[k])} :: 0 <= k < |accs| ==> accs[k].slot == slots[k] && Refers(m, accs[k])
  }

  /** Slot `j` is out of place, or a selected field reaches into it. */
  ghost predicate Crowded(m: Img, ss: seq<Slot>, took: seq<bool>, j: nat) {
    j < |ss| && j <= |took| && (!Fits(m, ss[j]) || Reached(ss, took, j))
  }

  /** Slot `j` is in place and free, but refers to no mapped address. */
  ghost predicate Dangling(m: Img, ss: seq<Slot>, took: seq<bool>, j: nat) {
    j < |ss| && j <= |took| && Fits(m, ss[j]) && !Reached(ss, took, j) && !Usable(m, ss[j])
  }

  /** No selected field among the first `n` ends after `e`, and one of them ends there. */
  ghost predicate EndsAt(ss: seq<Slot>, took: seq<bool>, n: nat, e: int)
    requires n <= |ss| && n <= |took|
  {
    && (forall i :: 0 <= i < n && took[i] ==> ss[i].off + ss[i].enc.Width() <= e)
    && (e == -1 || exists i :: 0 <= i < n && took[i] && ss[i].off + ss[i].enc.Width() == e)
  }

  /** The sift after `n` slots. */
  ghost predicate Sifting(m: Img, ss: seq<Slot>, took: seq<bool>, n: nat, st: Sifted)
    requires n <= |ss| == |took|
  {
    && AccsFor(m, st.accs, Picked(ss, took, n)) && EndsAt(ss, took, n, st.prevEnd) && -1 <= st.prevEnd <= |m.data|
    && st.overlap == CountTo(n, (j: nat) => Crowded(m, ss, took, j)) && st.unmapped == CountTo(n, (j: nat) => Dangling(m, ss, took, j))
  }

  /** One slot is tried. */
  lemma SiftStep(m: Img, idx: seq<int>, ss: seq<Slot>, took: seq<bool>, n: nat, st: Sifted)
    requires m.Ready(idx) && n < |ss| == |took| && Selected(m, ss, took) && Sifting(m, ss, took, n, st)
    requires !SiftOne(m, st, ss[n]).panics
    ensures Sifting(m, ss, took, n + 1, SiftOne(m, st, ss[n]))
  {
    var s := ss[n];
    JudgeExact(m, idx, s, st.prevEnd);
    EndsStep(ss, took, n, st.prevEnd);
    VerdictCounts(m, idx, ss, took, n, st.prevEnd);
    if took[n] { PickedStep(m, ss, took, n, st.accs, Judge(m, s, st.prevEnd).acc); } else { PickedStep(m, ss, took, n, st.accs, Acc(s, 0, 0, 0)); }
  }

  lemma FitsOrNot(m: Img, s: Slot)
    ensures Usable(m, s) ==> Fits(m, s)
    ensures Fits(m, s) ==> 0 <= s.off && s.off + s.enc.Width() <= |m.data|
  {
    if a: Acc :| a.slot == s && Refers(m, a) { assert Held(m, s, a.sr); }
  }

  lemma ReachedEnd(ss: seq<Slot>, took: seq<bool>, n: nat, e: int)
    requires n < |ss| && n <= |took| && EndsAt(ss, took, n, e)
    ensures ss[n].off >= 0 ==> (Reached(ss, took, n) <==> ss[n].off < e)
  {}

  lemma EndsStep(ss: seq<Slot>, took: seq<bool>, n: nat, e: int)
    requires n < |ss| && n < |took| && EndsAt(ss, took, n, e)
    ensures !took[n] ==> EndsAt(ss, took, n + 1, e)
    ensures took[n] && ss[n].off >= e ==> EndsAt(ss, took, n + 1, ss[n].off + ss[n].enc.Width())
  {}

  /** The verdict on slot `n` is that of the selection. */
  lemma VerdictCounts(m: Img, idx: seq<int>, ss: seq<Slot>, took: seq<bool>, n: nat, e: int)
    requires m.Ready(idx) && n < |ss| == |took| && Selected(m, ss, took) && EndsAt(ss, took, n, e) && -1 <= e <= |m.data|
    requires !Judge(m, ss[n], e).Panics?
    ensures Judge(m, ss[n], e).Overlap? <==> Crowded(m, ss, took, n)
    ensures Judge(m, ss[n], e).Unmapped? <==> Dangling(m, ss, took, n)
    ensures Judge(m, ss[n], e).Accept? <==> took[n]
    ensures took[n] ==> ss[n].off >= e && ss[n].off + ss[n].enc.Width() <= |m.data|
  {
    JudgeExact(m, idx, ss[n], e);
    FitsOrNot(m, ss[n]);
    ReachedEnd(ss, took, n, e);
  }

  lemma PickedStep(m: Img, ss: seq<Slot>, took: seq<bool>, n: nat, accs: seq<Acc>, a: Acc)
    requires n < |ss| == |took| && AccsFor(m, accs, Picked(ss, took, n))
    ensures !took[n] ==> AccsFor(m, accs, Picked(ss, took, n + 1))
    ensures took[n] && a.slot == ss[n] && Refers(m, a) ==> AccsFor(m, accs + [a], Picked(ss, took, n + 1))
  {
    if took[n] && a.slot == ss[n] && Refers(m, a) {
      forall k | 0 <= k < |accs| + 1 ensures (accs + [a])[k].slot == Picked(ss, took, n + 1)[k] && Refers(m, (accs + [a])[k]) {
        if k < |accs| { assert (accs + [a])[k] == accs[k] && Refers(m, accs[k]); }
      }
    }
  }

  /** The sift selects as described, unless it panics. */
  lemma {:induction false} SiftMeans(m: Img, idx: seq<int>, ss: seq<Slot>, took: seq<bool>, n: nat)
    requires m.Ready(idx) && n <= |ss| == |took| && Selected(m, ss, took) && !Sift(m, ss[..n]).panics
    ensures Sifting(m, ss, took, n, Sift(m, ss[..n]))
  {
    if n > 0 {
      assert ss[..n][..n - 1] == ss[..n - 1];
      SiftMeans(m, idx, ss, took, n - 1);
      SiftStep(m, idx, ss, took, n - 1, Sift(m, ss[..n - 1]));
    }
  }

  // ---- what becomes of a selected field ----

  predicate Holds(us: seq<Unit>, i: int, x: int) { 0 <= i < |us| && us[i].Contains(x) }

  /** One unit holds the field and the address it refers to. */
  ghost predicate Inside(m: Img, us: seq<Unit>, a: Acc) {
    a.sr < |m.regions| && m.regions[a.sr].mapped && exists i :: Holds(us, i, a.t) && Holds(us, i, OwnVA(m.regions[a.sr], a.slot.off))
  }

  /** The identity of unit `i` is its own. */
  predicate Named(raw: seq<Option<u32>>, i: int) {
    0 <= i < |raw| && raw[i].Some? && forall j :: 0 <= j < |raw| && j != i ==> raw[j] != raw[i]
  }

  /** The target lies in a unit whose identity is missing or shared. */
  ghost predicate Ambiguous(us: seq<Unit>, raw: seq<Option<u32>>, ident: Ident, a: Acc) {
    !ident.RegionRel? && exists i :: Holds(us, i, a.t) && !Named(raw, i)
  }

  /** The field is recorded, and zeroed in the file. */
  ghost predicate Kept(m: Img, us: seq<Unit>, raw: seq<Option<u32>>, ident: Ident, a: Acc) {
    !Inside(m, us, a) && !Ambiguous(us, raw, ident, a)
  }

  /** The record of `a` names a unit. */
  ghost predicate ByUnit(us: seq<Unit>, ident: Ident, a: Acc) {
    !ident.RegionRel? && exists i :: Holds(us, i, a.t)
  }

  /** `x` is the record of field `a`. */
  ghost predicate Records(m: Img, us: seq<Unit>, raw: seq<Option<u32>>, ident: Ident, a: Acc, x: Ref) {
    && a.sr < |m.regions| && a.tr < |m.regions| && x.at == a.slot.off - m.regions[a.sr].off && x.enc == a.slot.enc && x.bias == a.slot.bias
    && match x.target
       case InUnit(id, off) => ByUnit(us, ident, a) && exists i :: Holds(us, i, a.t) && Named(raw, i) && raw[i] == Some(id) && us[i].va + off == a.t
       case InRegion(ri, off) => !ByUnit(us, ident, a) && ri == a.tr && m.regions[ri].va + off == a.t
  }

  lemma NamedMeans(raw: seq<Option<u32>>, i: nat)
    requires i < |raw|
    ensures Named(raw, i) <==> Names(raw)[i].Some?
    ensures Names(raw)[i].Some? ==> Names(raw)[i] == raw[i]
  {
    if j :| 0 <= j < |raw| && j != i && raw[j] == raw[i] {
      TwiceCounts(raw, if i < j then i else j, if i < j then j else i);
    } else {
      var l, r := raw[..i], raw[i + 1..];
      assert raw == l + [raw[i]] + r;
      assert raw[i] !in l && raw[i] !in r;
      assert multiset(raw) == multiset(l) + multiset{raw[i]} + multiset(r);
    }
  }

  lemma HoldsOnce(m: Img, us: seq<Unit>, x: int, i: int, j: int)
    requires Clean(m.regions, us) && Holds(us, i, x) && Holds(us, j, x)
    ensures i == j
  {}

  lemma OwnAddress(m: Img, idx: seq<int>, a: Acc)
    requires m.Ready(idx) && Held(m, a.slot, a.sr) && m.regions[a.sr].mapped
    ensures OwnVA(m.regions[a.sr], a.slot.off) == Add64(m.regions[a.sr].va, a.slot.off - m.regions[a.sr].off)
  {
    var k :| 0 <= k < |idx| && idx[k] == a.sr;
  }

  /** The unit of the target, and whether the field lies in it too. */
  lemma InsideMeans(m: Img, idx: seq<int>, us: seq<Unit>, a: Acc, ui: int)
    requires m.Ready(idx) && Clean(m.regions, us) && Held(m, a.slot, a.sr) && ui == UnitAt(us, a.t)
    ensures Inside(m, us, a) <==> m.regions[a.sr].mapped && ui >= 0 && ui == UnitAt(us, Add64(m.regions[a.sr].va, a.slot.off - m.regions[a.sr].off))
  {
    if m.regions[a.sr].mapped {
      OwnAddress(m, idx, a);
      var own := OwnVA(m.regions[a.sr], a.slot.off);
      var k := UnitAt(us, own);
      if ui >= 0 && ui == k { assert Holds(us, ui, a.t) && Holds(us, ui, own); }
      if i :| Holds(us, i, a.t) && Holds(us, i, own) {
        HoldsOnce(m, us, a.t, i, ui);
        HoldsOnce(m, us, own, i, k);
      }
    }
  }

  lemma AmbiguousMeans(m: Img, us: seq<Unit>, raw: seq<Option<u32>>, ident: Ident, a: Acc, ui: int)
    requires Clean(m.regions, us) && |raw| == |us| && ui == UnitAt(us, a.t)
    ensures Ambiguous(us, raw, ident, a) <==> ui >= 0 && !ident.RegionRel? && Names(raw)[ui].None?
    ensures ByUnit(us, ident, a) <==> ui >= 0 && !ident.RegionRel?
  {
    if ui >= 0 {
      NamedMeans(raw, ui);
      assert Holds(us, ui, a.t);
      if i :| Holds(us, i, a.t) && !Named(raw, i) { HoldsOnce(m, us, a.t, i, ui); }
    }
  }

  /** The fate of a field is the one described. */
  lemma FateMeans(m: Img, idx: seq<int>, us: seq<Unit>, raw: seq<Option<u32>>, ident: Ident, a: Acc)
    requires m.Ready(idx) && Clean(m.regions, us) && |raw| == |us| && Refers(m, a)
    requires ident.RegionRel? ==> forall i :: 0 <= i < |raw| ==> raw[i] == None
    ensures 0 <= m.regions[a.sr].off && a.slot.off < B63
    ensures var f := FateOf(m, us, Names(raw), ident, a);
            && (f.Intra? <==> Inside(m, us, a)) && (f.Collide? <==> !Inside(m, us, a) && Ambiguous(us, raw, ident, a))
            && (f.Record? ==> (f.unit >= 0 <==> ByUnit(us, ident, a)))
            && (f.Record? && f.unit >= 0 ==> Holds(us, f.unit, a.t) && Named(raw, f.unit))
  {
    TilesBounds(m.regions, |m.data|, a.sr);
    var ui := UnitAt(us, a.t);
    InsideMeans(m, idx, us, a, ui);
    AmbiguousMeans(m, us, raw, ident, a, ui);
    if ui >= 0 { NamedMeans(raw, ui); }
  }

  /** A record as described. */
  ghost predicate RecMeans(m: Img, us: seq<Unit>, raw: seq<Option<u32>>, ident: Ident, r: Rec) {
    && Kept(m, us, raw, ident, r.a) && (r.unit >= 0 <==> ByUnit(us, ident, r.a))
    && (r.unit >= 0 ==> Holds(us, r.unit, r.a.t) && Named(raw, r.unit))
  }

  /** What the counters of classified fields count. */
  ghost predicate IsInside(m: Img, us: seq<Unit>, accs: seq<Acc>, k: nat) { k < |accs| && Inside(m, us, accs[k]) }

  ghost predicate IsAmbiguous(m: Img, us: seq<Unit>, raw: seq<Option<u32>>, ident: Ident, accs: seq<Acc>, k: nat) {
    k < |accs| && !Inside(m, us, accs[k]) && Ambiguous(us, raw, ident, accs[k])
  }

  ghost predicate IsKept(m: Img, us: seq<Unit>, raw: seq<Option<u32>>, ident: Ident, accs: seq<Acc>, k: nat) {
    k < |accs| && Kept(m, us, raw, ident, accs[k])
  }

  ghost predicate IsRelative(m: Img, us: seq<Unit>, raw: seq<Option<u32>>, ident: Ident, accs: seq<Acc>, k: nat) {
    k < |accs| && Kept(m, us, raw, ident, accs[k]) && !ByUnit(us, ident, accs[k])
  }

  /** The classification of the first `n` selected fields. */
  ghost predicate Classifying(m: Img, us: seq<Unit>, raw: seq<Option<u32>>, ident: Ident, accs: seq<Acc>, n: nat, s: BinrefPlan.Sorted)
    requires n <= |accs|
  {
    && (forall k {:trigger RecMeans(m, us, raw, ident, s.recs[k])} :: 0 <= k < |s.recs| ==> RecMeans(m, us, raw, ident, s.recs[k]))
    && (forall k {:trigger RecMeans(m, us, raw, ident, s.recs[k])} :: 0 <= k < |s.recs| ==> s.recs[k].a in accs)
    && (forall j: nat {:trigger IsKept(m, us, raw, ident, accs, j)} :: j < n && IsKept(m, us, raw, ident, accs, j) ==> RecordedIn(s.recs, accs[j]))
    && |s.recs| == CountTo(n, (k: nat) => IsKept(m, us, raw, ident, accs, k))
    && s.intra == CountTo(n, (k: nat) => IsInside(m, us, accs, k))
    && s.collide == CountTo(n, (k: nat) => IsAmbiguous(m, us, raw, ident, accs, k))
    && s.regionRel == CountTo(n, (k: nat) => IsRelative(m, us, raw, ident, accs, k))
  }

  ghost predicate RecordedIn(recs: seq<Rec>, a: Acc) { exists k :: 0 <= k < |recs| && recs[k].a == a }

  lemma SortStep(m: Img, idx: seq<int>, us: seq<Unit>, raw: seq<Option<u32>>, ident: Ident, accs: seq<Acc>, n: nat, s: BinrefPlan.Sorted)
    requires m.Ready(idx) && Clean(m.regions, us) && |raw| == |us| && n < |accs| && Refers(m, accs[n])
    requires ident.RegionRel? ==> forall i :: 0 <= i < |raw| ==> raw[i] == None
    requires Classifying(m, us, raw, ident, accs, n, s)
    ensures 0 <= m.regions[accs[n].sr].off && accs[n].slot.off < B63
    ensures Classifying(m, us, raw, ident, accs, n + 1, SortOne(s, accs[n], FateOf(m, us, Names(raw), ident, accs[n])))
  {
    FateMeans(m, idx, us, raw, ident, accs[n]);
    var f := FateOf(m, us, Names(raw), ident, accs[n]);
    var t := SortOne(s, accs[n], f);
    forall k | 0 <= k < |t.recs| ensures RecMeans(m, us, raw, ident, t.recs[k]) && t.recs[k].a in accs {
      if k < |s.recs| { assert t.recs[k] == s.recs[k] && RecMeans(m, us, raw, ident, s.recs[k]); }
    }
    forall j: nat {:trigger IsKept(m, us, raw, ident, accs, j)} | j < n + 1 && IsKept(m, us, raw, ident, accs, j) ensures RecordedIn(t.recs, accs[j]) {
      if j < n {
        assert RecordedIn(s.recs, accs[j]);
        var k :| 0 <= k < |s.recs| && s.recs[k].a == accs[j];
        assert t.recs[k].a == accs[j];
      } else {
        assert t.recs[|s.recs|].a == accs[j];
      }
    }
  }

  lemma {:induction false} SortMeans(m: Img, idx: seq<int>, us: seq<Unit>, raw: seq<Option<u32>>, ident: Ident, accs: seq<Acc>, n: nat)
    requires m.Ready(idx) && Clean(m.regions, us) && |raw| == |us| && n <= |accs| && Spaced(m, accs)
    requires ident.RegionRel? ==> forall i :: 0 <= i < |raw| ==> raw[i] == None
    requires forall k {:trigger Refers(m, accs[k])} :: 0 <= k < |accs| ==> Refers(m, accs[k])
    ensures Classifying(m, us, raw, ident, accs, n, SortAccs(m, us, Names(raw), ident, accs[..n]))
  {
    if n > 0 {
      assert accs[..n][..n - 1] == accs[..n - 1];
      SortMeans(m, idx, us, raw, ident, accs, n - 1);
      assert Refers(m, accs[n - 1]);
      SortStep(m, idx, us, raw, ident, accs, n - 1, SortAccs(m, us, Names(raw), ident, accs[..n - 1]));
    }
  }

  // ---- the streams ----

  /** A recorded field covers byte `j`. */
  ghost predicate Zeroed(m: Img, us: seq<Unit>, raw: seq<Option<u32>>, ident: Ident, accs: seq<Acc>, j: int) {
    exists k :: 0 <= k < |accs| && accs[k].Covers(j) && Kept(m, us, raw, ident, accs[k])
  }

  ghost predicate MaskedAs(m: Img, us: seq<Unit>, raw: seq<Option<u32>>, ident: Ident, accs: seq<Acc>, masked: seq<byte>) {
    |masked| == |m.data| && forall j :: 0 <= j < |masked| ==> masked[j] == if Zeroed(m, us, raw, ident, accs, j) then 0 else m.data[j]
  }

  /** A recorded field refers into unit `i`. */
  ghost predicate Wanted(m: Img, us: seq<Unit>, raw: seq<Option<u32>>, ident: Ident, accs: seq<Acc>, i: nat) {
    exists k :: 0 <= k < |accs| && Kept(m, us, raw, ident, accs[k]) && ByUnit(us, ident, accs[k]) && Holds(us, i, accs[k].t)
  }

  ghost predicate EntryOf(m: Img, us: seq<Unit>, raw: seq<Option<u32>>, ident: Ident, accs: seq<Acc>, i: nat, e: UnitEntry) {
    i < |us| && i < |raw| && Wanted(m, us, raw, ident, accs, i) && raw[i] == Some(e.id) && us[i].va == e.va
  }

  /** The unit table lists the units that recorded fields refer into, by address. */
  ghost predicate UnitsAs(m: Img, us: seq<Unit>, raw: seq<Option<u32>>, ident: Ident, accs: seq<Acc>, t: seq<UnitEntry>) {
    && (forall k, l :: 0 <= k < l < |t| ==> t[k].va < t[l].va)
    && (forall e :: e in t <==> exists i :: EntryOf(m, us, raw, ident, accs, i, e))
  }

  ghost predicate RecordOf(m: Img, us: seq<Unit>, raw: seq<Option<u32>>, ident: Ident, accs: seq<Acc>, ri: nat, j: nat, x: Ref) {
    j < |accs| && accs[j].sr == ri && Kept(m, us, raw, ident, accs[j]) && Records(m, us, raw, ident, accs[j], x)
  }

  ghost predicate FieldOf(m: Img, us: seq<Unit>, raw: seq<Option<u32>>, ident: Ident, accs: seq<Acc>, ri: nat, x: Ref) {
    exists j: nat :: RecordOf(m, us, raw, ident, accs, ri, j, x)
  }

  ghost predicate RefIn(m: Img, us: seq<Unit>, raw: seq<Option<u32>>, ident: Ident, accs: seq<Acc>, ri: nat, j: nat, rs: seq<Ref>) {
    exists k :: 0 <= k < |rs| && RecordOf(m, us, raw, ident, accs, ri, j, rs[k])
  }

  /** The references of region `ri` are the records of the fields recorded there, in file order. */
  ghost predicate RefsAs(m: Img, us: seq<Unit>, raw: seq<Option<u32>>, ident: Ident, accs: seq<Acc>, ri: nat, rs: seq<Ref>) {
    && Ordered(rs)
    && (forall k {:trigger rs[k]} :: 0 <= k < |rs| ==> FieldOf(m, us, raw, ident, accs, ri, rs[k]))
    && (forall j {:trigger accs[j]} :: 0 <= j < |accs| && accs[j].sr == ri && Kept(m, us, raw, ident, accs[j]) ==>
        RefIn(m, us, raw, ident, accs, ri, j, rs))
  }

  /** The selected fields. */
  ghost predicate Chosen(m: Img, slots: seq<Slot>, took: seq<bool>, accs: seq<Acc>) {
    var ss := SortBy(SlotKey, slots);
    |took| == |ss| && Selected(m, ss, took) && AccsFor(m, accs, Picked(ss, took, |ss|))
  }

  datatype Stats = Stats(overlap: nat, unmapped: nat, intra: nat, collide: nat, accepted: nat, regionRel: nat, units: nat)

  ghost predicate Counted(m: Img, ss: seq<Slot>, took: seq<bool>, accs: seq<Acc>, us: seq<Unit>, raw: seq<Option<u32>>, ident: Ident, stat: Stats) {
    && stat.overlap == CountTo(|ss|, (j: nat) => Crowded(m, ss, took, j))
    && stat.unmapped == CountTo(|ss|, (j: nat) => Dangling(m, ss, took, j))
    && stat.intra == CountTo(|accs|, (k: nat) => IsInside(m, us, accs, k))
    && stat.collide == CountTo(|accs|, (k: nat) => IsAmbiguous(m, us, raw, ident, accs, k))
    && stat.accepted == CountTo(|accs|, (k: nat) => IsKept(m, us, raw, ident, accs, k))
    && stat.regionRel == CountTo(|accs|, (k: nat) => IsRelative(m, us, raw, ident, accs, k))
  }

  /** The bytes of region `ri`. */
  predicate PayloadAs(m: Img, masked: seq<byte>, ri: nat, b: seq<byte>) {
    ri < |m.regions| && 0 <= m.regions[ri].off && |b| == m.regions[ri].len && IsSlice(b, masked, m.regions[ri].off)
  }

  /** The streams of the form, by region. */
  ghost predicate StreamsAs(m: Img, us: seq<Unit>, raw: seq<Option<u32>>, ident: Ident, accs: seq<Acc>, masked: seq<byte>, f: Form) {
    && f.base == m.base && f.base2 == m.base2 && |f.regs| == |f.payload| == |f.refs| == |m.regions|
    && (forall ri {:trigger f.regs[ri]} :: 0 <= ri < |m.regions| ==> m.regions[ri].len >= 0 && f.regs[ri] == RegOf(m.regions[ri]))
    && (forall ri {:trigger f.payload[ri]} :: 0 <= ri < |m.regions| ==> PayloadAs(m, masked, ri, f.payload[ri]))
    && (forall ri {:trigger f.refs[ri]} :: 0 <= ri < |m.regions| ==> RefsAs(m, us, raw, ident, accs, ri, f.refs[ri]))
  }

  /** The identities of the cleaned units, once the selected fields are zeroed. */
  ghost function Identities(m: Img, accs: seq<Acc>, units: seq<Unit>, ident: Ident, h: Hashes): (r: seq<Option<u32>>)
    requires Tiles(m.regions, |m.data|) && Clean(m.regions, CleanUnits(m.regions, units))
    ensures |r| == |CleanUnits(m.regions, units)|
    ensures ident.RegionRel? ==> forall i :: 0 <= i < |r| ==> r[i] == None
  {
    RawIds(m, Mask(m.data, accs), CleanUnits(m.regions, units), ident, h)
  }

  ghost predicate SaysOf(m: Img, slots: seq<Slot>, us: seq<Unit>, raw: seq<Option<u32>>, ident: Ident, took: seq<bool>, accs: seq<Acc>,
                         f: Form, masked: seq<byte>, stat: Stats) {
    && MaskedAs(m, us, raw, ident, accs, masked) && UnitsAs(m, us, raw, ident, accs, f.units)
    && Counted(m, SortBy(SlotKey, slots), took, accs, us, raw, ident, stat) && stat.units == |f.units|
    && StreamsAs(m, us, raw, ident, accs, masked, f)
  }

  /** The form `f`, its masked file and its counters say what the slots and the units of the image mean. */
  ghost predicate Says(m: Img, slots: seq<Slot>, units: seq<Unit>, ident: Ident, h: Hashes, took: seq<bool>, accs: seq<Acc>,
                       f: Form, masked: seq<byte>, stat: Stats) {
    && Tiles(m.regions, |m.data|) && Clean(m.regions, CleanUnits(m.regions, units)) && Chosen(m, slots, took, accs)
    && SaysOf(m, slots, CleanUnits(m.regions, units), Identities(m, accs, units, ident, h), ident, took, accs, f, masked, stat)
  }

  // ---- the plan says so ----

  /** The records of a finished classification. */
  ghost predicate Recorded(m: Img, us: seq<Unit>, raw: seq<Option<u32>>, ident: Ident, accs: seq<Acc>, recs: seq<Rec>) {
    && (forall k {:trigger RecMeans(m, us, raw, ident, recs[k])} :: 0 <= k < |recs| ==> RecMeans(m, us, raw, ident, recs[k]))
    && (forall k {:trigger RecMeans(m, us, raw, ident, recs[k])} :: 0 <= k < |recs| ==> recs[k].a in accs)
    && (forall j: nat {:trigger IsKept(m, us, raw, ident, accs, j)} :: j < |accs| && IsKept(m, us, raw, ident, accs, j) ==> RecordedIn(recs, accs[j]))
  }

  lemma CoversMeans(m: Img, us: seq<Unit>, raw: seq<Option<u32>>, ident: Ident, accs: seq<Acc>, recs: seq<Rec>, j: int)
    requires Recorded(m, us, raw, ident, accs, recs)
    ensures CoveredBy(AccsOf(recs), j) <==> Zeroed(m, us, raw, ident, accs, j)
  {
    CoveredAt(AccsOf(recs), j);
    if CoveredBy(AccsOf(recs), j) {
      var k :| 0 <= k < |recs| && recs[k].a.Covers(j);
      assert RecMeans(m, us, raw, ident, recs[k]) && recs[k].a in accs;
    }
    if Zeroed(m, us, raw, ident, accs, j) {
      var k :| 0 <= k < |accs| && accs[k].Covers(j) && Kept(m, us, raw, ident, accs[k]);
      assert IsKept(m, us, raw, ident, accs, k);
      assert RecordedIn(recs, accs[k]);
      var l :| 0 <= l < |recs| && recs[l].a == accs[k];
      assert AccsOf(recs)[l].Covers(j);
    }
  }

  lemma MaskMeans(m: Img, us: seq<Unit>, raw: seq<Option<u32>>, ident: Ident, accs: seq<Acc>, recs: seq<Rec>)
    requires Recorded(m, us, raw, ident, accs, recs)
    ensures MaskedAs(m, us, raw, ident, accs, Mask(m.data, AccsOf(recs)))
  {
    forall j | 0 <= j < |m.data| ensures CoveredBy(AccsOf(recs), j) <==> Zeroed(m, us, raw, ident, accs, j) {
      CoversMeans(m, us, raw, ident, accs, recs, j);
    }
  }

  lemma UsedMeans(m: Img, us: seq<Unit>, raw: seq<Option<u32>>, ident: Ident, accs: seq<Acc>, recs: seq<Rec>, i: nat)
    requires Recorded(m, us, raw, ident, accs, recs) && Clean(m.regions, us) && i < |us|
    ensures IsUsed(recs, i) <==> Wanted(m, us, raw, ident, accs, i)
  {
    if IsUsed(recs, i) {
      var k :| 0 <= k < |recs| && recs[k].unit == i;
      assert RecMeans(m, us, raw, ident, recs[k]) && recs[k].a in accs;
    }
    if Wanted(m, us, raw, ident, accs, i) {
      var k :| 0 <= k < |accs| && Kept(m, us, raw, ident, accs[k]) && ByUnit(us, ident, accs[k]) && Holds(us, i, accs[k].t);
      assert IsKept(m, us, raw, ident, accs, k);
      assert RecordedIn(recs, accs[k]);
      var l :| 0 <= l < |recs| && recs[l].a == accs[k];
      assert RecMeans(m, us, raw, ident, recs[l]);
      HoldsOnce(m, us, accs[k].t, i, recs[l].unit);
    }
  }

  /** The table of the first `n` units. */
  ghost predicate TableAs(us: seq<Unit>, names: seq<Option<u32>>, recs: seq<Rec>, n: nat, t: seq<UnitEntry>) {
    && n <= |us| == |names|
    && (forall k, l :: 0 <= k < l < |t| ==> t[k].va < t[l].va)
    && (forall k {:trigger t[k]} :: 0 <= k < |t| ==> Listed(us, names, recs, n, t[k]))
    && (forall i: nat, e {:trigger InTable(us, names, recs, n, i, e)} :: InTable(us, names, recs, n, i, e) ==> e in t)
  }

  ghost predicate InTable(us: seq<Unit>, names: seq<Option<u32>>, recs: seq<Rec>, n: nat, i: nat, e: UnitEntry) {
    i < n && i < |us| && i < |names| && IsUsed(recs, i) && names[i] == Some(e.id) && us[i].va == e.va
  }

  ghost predicate Listed(us: seq<Unit>, names: seq<Option<u32>>, recs: seq<Rec>, n: nat, e: UnitEntry) {
    exists i: nat :: InTable(us, names, recs, n, i, e)
  }

  lemma ListedBefore(regs: seq<Region>, us: seq<Unit>, names: seq<Option<u32>>, recs: seq<Rec>, n: nat, e: UnitEntry)
    requires n < |us| == |names| && Clean(regs, us) && Listed(us, names, recs, n, e)
    ensures e.va < us[n].va && Listed(us, names, recs, n + 1, e)
  {
    var i: nat :| InTable(us, names, recs, n, i, e);
    assert Placed(regs, us[i]) && InTable(us, names, recs, n + 1, i, e);
  }

  lemma TableNone(us: seq<Unit>, names: seq<Option<u32>>, recs: seq<Rec>)
    requires |us| == |names|
    ensures TableAs(us, names, recs, 0, [])
  {}

  lemma {:induction false} TableMeans(regs: seq<Region>, us: seq<Unit>, names: seq<Option<u32>>, recs: seq<Rec>, n: nat, t: seq<UnitEntry>)
    requires n <= |us| == |names| && Clean(regs, us) && t == Table(us, names, recs, n)
    ensures TableAs(us, names, recs, n, t)
  {
    if n == 0 {
      TableNone(us, names, recs);
    } else {
      var u := Table(us, names, recs, n - 1);
      TableMeans(regs, us, names, recs, n - 1, u);
      TableStep(regs, us, names, recs, n - 1, u, t);
    }
  }

  lemma TableStep(regs: seq<Region>, us: seq<Unit>, names: seq<Option<u32>>, recs: seq<Rec>, n: nat, t: seq<UnitEntry>, u: seq<UnitEntry>)
    requires n < |us| == |names| && Clean(regs, us) && TableAs(us, names, recs, n, t)
    requires u == if IsUsed(recs, n) && names[n].Some? then t + [UnitEntry(names[n].value, us[n].va)] else t
    ensures TableAs(us, names, recs, n + 1, u)
  {
    forall k | 0 <= k < |t| ensures t[k].va < us[n].va && Listed(us, names, recs, n + 1, t[k]) {
      ListedBefore(regs, us, names, recs, n, t[k]);
    }
    if IsUsed(recs, n) && names[n].Some? {
      TableMore(us, names, recs, n, t, UnitEntry(names[n].value, us[n].va));
    } else {
      forall i: nat, x {:trigger InTable(us, names, recs, n + 1, i, x)} | InTable(us, names, recs, n + 1, i, x) ensures x in t {
        assert InTable(us, names, recs, n, i, x);
      }
    }
  }

  lemma TableMore(us: seq<Unit>, names: seq<Option<u32>>, recs: seq<Rec>, n: nat, t: seq<UnitEntry>, e: UnitEntry)
    requires n < |us| == |names| && TableAs(us, names, recs, n, t) && InTable(us, names, recs, n + 1, n, e)
    requires forall k :: 0 <= k < |t| ==> t[k].va < us[n].va && Listed(us, names, recs, n + 1, t[k])
    ensures TableAs(us, names, recs, n + 1, t + [e])
  {
    var u := t + [e];
    assert Listed(us, names, recs, n + 1, e) && u[|t|] == e;
    forall k | 0 <= k < |u| ensures Listed(us, names, recs, n + 1, u[k]) {}
    forall i: nat, x {:trigger InTable(us, names, recs, n + 1, i, x)} | InTable(us, names, recs, n + 1, i, x) ensures x in u {
      if i < n { assert InTable(us, names, recs, n, i, x); }
    }
  }

  lemma UnitsMean(m: Img, us: seq<Unit>, raw: seq<Option<u32>>, ident: Ident, accs: seq<Acc>, recs: seq<Rec>)
    requires Recorded(m, us, raw, ident, accs, recs) && Clean(m.regions, us) && |raw| == |us|
    requires forall i: nat :: IsUsed(recs, i) ==> i < |us| && Named(raw, i)
    ensures UnitsAs(m, us, raw, ident, accs, Table(us, Names(raw), recs, |us|))
  {
    var t := Table(us, Names(raw), recs, |us|);
    TableMeans(m.regions, us, Names(raw), recs, |us|, t);
    forall e ensures e in t <==> exists i :: EntryOf(m, us, raw, ident, accs, i, e) {
      if e in t {
        var k :| 0 <= k < |t| && t[k] == e;
        var i: nat :| InTable(us, Names(raw), recs, |us|, i, e);
        UsedMeans(m, us, raw, ident, accs, recs, i);
        NamedMeans(raw, i);
        assert EntryOf(m, us, raw, ident, accs, i, e);
      }
      if i :| EntryOf(m, us, raw, ident, accs, i, e) {
        UsedMeans(m, us, raw, ident, accs, recs, i);
        NamedMeans(raw, i);
        assert InTable(us, Names(raw), recs, |us|, i, e);
      }
    }
  }

  lemma {:induction false} InRegionHas(recs: seq<Rec>, ri: nat, k: nat)
    requires k < |recs| && recs[k].a.sr == ri
    ensures recs[k] in InRegionOnly(recs, ri)
  {
    if k < |recs| - 1 { InRegionHas(recs[..|recs| - 1], ri, k); }
  }

  lemma RecordMeans(m: Img, us: seq<Unit>, raw: seq<Option<u32>>, ident: Ident, r: Rec)
    requires RecMeans(m, us, raw, ident, r) && |raw| == |us| && RecOk(m, us, Names(raw), r)
    ensures Records(m, us, raw, ident, r.a, RefOf(m, us, Names(raw), r))
  {
    if r.unit >= 0 { NamedMeans(raw, r.unit); }
  }

  /** Record `k` of the region is that of some field. */
  lemma RefFrom(m: Img, us: seq<Unit>, raw: seq<Option<u32>>, ident: Ident, accs: seq<Acc>, recs: seq<Rec>, ri: nat, r: Rec)
    returns (j: nat)
    requires Recorded(m, us, raw, ident, accs, recs) && |raw| == |us| && RecOk(m, us, Names(raw), r) && r in recs && r.a.sr == ri
    ensures RecordOf(m, us, raw, ident, accs, ri, j, RefOf(m, us, Names(raw), r))
  {
    var l :| 0 <= l < |recs| && recs[l] == r;
    assert RecMeans(m, us, raw, ident, recs[l]) && recs[l].a in accs;
    j :| 0 <= j < |accs| && accs[j] == r.a;
    RecordMeans(m, us, raw, ident, r);
  }

  lemma RefTo(m: Img, us: seq<Unit>, raw: seq<Option<u32>>, ident: Ident, accs: seq<Acc>, recs: seq<Rec>, ri: nat, t: seq<Rec>, j: nat)
    returns (k: nat)
    requires Recorded(m, us, raw, ident, accs, recs) && |raw| == |us| && t == InRegionOnly(recs, ri) && OneRegion(m, us, Names(raw), t, ri)
    requires j < |accs| && accs[j].sr == ri && Kept(m, us, raw, ident, accs[j])
    ensures k < |t| && RecOk(m, us, Names(raw), t[k]) && RecordOf(m, us, raw, ident, accs, ri, j, RefOf(m, us, Names(raw), t[k]))
  {
    assert IsKept(m, us, raw, ident, accs, j);
    assert RecordedIn(recs, accs[j]);
    var l :| 0 <= l < |recs| && recs[l].a == accs[j];
    InRegionHas(recs, ri, l);
    k :| 0 <= k < |t| && t[k] == recs[l];
    assert RecMeans(m, us, raw, ident, recs[l]) && RecOk(m, us, Names(raw), t[k]);
    RecordMeans(m, us, raw, ident, t[k]);
  }

  lemma RefsMean(m: Img, us: seq<Unit>, raw: seq<Option<u32>>, ident: Ident, accs: seq<Acc>, recs: seq<Rec>, ri: nat, t: seq<Rec>)
    requires Recorded(m, us, raw, ident, accs, recs) && |raw| == |us| && RecsOk(m, us, Names(raw), recs) && t == InRegionOnly(recs, ri)
    requires OneRegion(m, us, Names(raw), t, ri) && forall k :: 0 <= k < |t| ==> t[k] in recs
    ensures RefsAs(m, us, raw, ident, accs, ri, RefsOf(m, us, Names(raw), t))
  {
    var rs := RefsOf(m, us, Names(raw), t);
    RefsOrdered(m, us, Names(raw), t, ri);
    forall k | 0 <= k < |rs| ensures FieldOf(m, us, raw, ident, accs, ri, rs[k]) {
      assert RecOk(m, us, Names(raw), t[k]) && t[k] in recs;
      var j := RefFrom(m, us, raw, ident, accs, recs, ri, t[k]);
    }
    forall j | 0 <= j < |accs| && accs[j].sr == ri && Kept(m, us, raw, ident, accs[j]) ensures RefIn(m, us, raw, ident, accs, ri, j, rs) {
      var k := RefTo(m, us, raw, ident, accs, recs, ri, t, j);
      assert RecordOf(m, us, raw, ident, accs, ri, j, rs[k]);
    }
  }

  lemma RecordedUnits(m: Img, us: seq<Unit>, raw: seq<Option<u32>>, ident: Ident, accs: seq<Acc>, recs: seq<Rec>)
    requires Recorded(m, us, raw, ident, accs, recs)
    ensures forall i: nat :: IsUsed(recs, i) ==> i < |us| && Named(raw, i)
  {
    forall i: nat | IsUsed(recs, i) ensures i < |us| && Named(raw, i) {
      var k :| 0 <= k < |recs| && recs[k].unit == i;
      assert RecMeans(m, us, raw, ident, recs[k]);
    }
  }

  lemma ClassifiedAll(m: Img, us: seq<Unit>, raw: seq<Option<u32>>, ident: Ident, accs: seq<Acc>, s: BinrefPlan.Sorted)
    requires Classifying(m, us, raw, ident, accs, |accs|, s)
    ensures Recorded(m, us, raw, ident, accs, s.recs)
  {
    forall k | 0 <= k < |s.recs| ensures RecMeans(m, us, raw, ident, s.recs[k]) && s.recs[k].a in accs {
      assert RecMeans(m, us, raw, ident, s.recs[k]);
    }
    forall j: nat | IsKept(m, us, raw, ident, accs, j) ensures RecordedIn(s.recs, accs[j]) {
      assert IsKept(m, us, raw, ident, accs, j);
      assert RecordedIn(s.recs, accs[j]);
    }
  }

  /** The records of the plan, over all the selected fields. */
  lemma RecsMean(m: Img, idx: seq<int>, us: seq<Unit>, raw: seq<Option<u32>>, ident: Ident, accs: seq<Acc>)
    requires m.Ready(idx) && Clean(m.regions, us) && |raw| == |us| && Spaced(m, accs)
    requires ident.RegionRel? ==> forall i :: 0 <= i < |raw| ==> raw[i] == None
    requires forall k {:trigger Refers(m, accs[k])} :: 0 <= k < |accs| ==> Refers(m, accs[k])
    ensures Classifying(m, us, raw, ident, accs, |accs|, SortAccs(m, us, Names(raw), ident, accs))
  {
    assert accs[..|accs|] == accs;
    SortMeans(m, idx, us, raw, ident, accs, |accs|);
  }

  /** The form of the plan, by region. */
  lemma FormMeansFields(p: Plan, raw: seq<Option<u32>>, ident: Ident, accs: seq<Acc>)
    requires p.Ok() && |raw| == |p.us| && p.names == Names(raw) && Recorded(p.m, p.us, raw, ident, accs, p.recs)
    ensures StreamsAs(p.m, p.us, raw, ident, accs, p.Masked(), p.Form())
  {
    var f := p.Form();
    forall ri | 0 <= ri < |p.m.regions|
      ensures PayloadAs(p.m, p.Masked(), ri, f.payload[ri]) && RefsAs(p.m, p.us, raw, ident, accs, ri, f.refs[ri])
    {
      RegionFields(p, raw, ident, accs, ri);
    }
  }

  lemma RegionFields(p: Plan, raw: seq<Option<u32>>, ident: Ident, accs: seq<Acc>, ri: nat)
    requires p.Ok() && |raw| == |p.us| && p.names == Names(raw) && Recorded(p.m, p.us, raw, ident, accs, p.recs) && ri < |p.m.regions|
    ensures PayloadAs(p.m, p.Masked(), ri, p.Payload(ri)) && RefsAs(p.m, p.us, raw, ident, accs, ri, p.Refs(ri))
  {
    TilesBounds(p.m.regions, |p.m.data|, ri);
    InRegionOk(p.m, p.us, p.names, p.recs, ri);
    RefsMean(p.m, p.us, raw, ident, accs, p.recs, ri, InRegionOnly(p.recs, ri));
  }

  /** The counters of a plan. */
  ghost function PlanStats(m: Img, idx: seq<int>, slots: seq<Slot>, units: seq<Unit>, ident: Ident, h: Hashes): Stats
    requires m.Ready(idx)
  {
    var st := Sift(m, SortBy(SlotKey, slots));
    SiftSpaced(m, SortBy(SlotKey, slots));
    CleanUnitsClean(m.regions, idx, units);
    var us := CleanUnits(m.regions, units);
    var names := Names(Identities(m, st.accs, units, ident, h));
    var s := SortAccs(m, us, names, ident, st.accs);
    Stats(st.overlap, st.unmapped, s.intra, s.collide, |s.recs|, s.regionRel, |Table(us, names, s.recs, |us|)|)
  }

  /** The selected fields, when nothing panics. */
  lemma SiftSays(m: Img, idx: seq<int>, ss: seq<Slot>) returns (took: seq<bool>)
    requires m.Ready(idx) && !Sift(m, ss).panics
    ensures |took| == |ss| && Selected(m, ss, took) && Sifting(m, ss, took, |ss|, Sift(m, ss))
  {
    took := SelectedSome(m, ss, |ss|);
    assert ss[..|ss|] == ss;
    SiftMeans(m, idx, ss, took, |ss|);
  }

  /** The plan of any input says what its slots and units mean. */
  lemma PlanSays(m: Img, idx: seq<int>, slots: seq<Slot>, units: seq<Unit>, ident: Ident, h: Hashes) returns (took: seq<bool>, accs: seq<Acc>)
    requires m.Ready(idx) && !Sift(m, SortBy(SlotKey, slots)).panics
    ensures var p := PlanOf(m, idx, slots, units, ident, h);
            p.Ok() && Says(m, slots, units, ident, h, took, accs, p.Form(), p.Masked(), PlanStats(m, idx, slots, units, ident, h))
  {
    var ss := SortBy(SlotKey, slots);
    took := SiftSays(m, idx, ss);
    accs := Sift(m, ss).accs;
    SiftSpaced(m, ss);
    CleanUnitsClean(m.regions, idx, units);
    PlanOk(m, idx, slots, units, ident, h);
    ClassifiedSays(m, idx, slots, units, ident, h, took, PlanOf(m, idx, slots, units, ident, h));
  }

  lemma ClassifiedSays(m: Img, idx: seq<int>, slots: seq<Slot>, units: seq<Unit>, ident: Ident, h: Hashes, took: seq<bool>, p: Plan)
    requires m.Ready(idx) && p.Ok() && p == PlanOf(m, idx, slots, units, ident, h) && Clean(m.regions, CleanUnits(m.regions, units))
    requires var ss := SortBy(SlotKey, slots);
             |took| == |ss| && Selected(m, ss, took) && Sifting(m, ss, took, |ss|, Sift(m, ss)) && Spaced(m, Sift(m, ss).accs)
    ensures Says(m, slots, units, ident, h, took, Sift(m, SortBy(SlotKey, slots)).accs, p.Form(), p.Masked(), PlanStats(m, idx, slots, units, ident, h))
  {
    var st := Sift(m, SortBy(SlotKey, slots));
    var us, raw := CleanUnits(m.regions, units), Identities(m, st.accs, units, ident, h);
    var s := SortAccs(m, us, Names(raw), ident, st.accs);
    assert p == Plan(m, us, Names(raw), s.recs);
    RecsMean(m, idx, us, raw, ident, st.accs);
    ClassifiedAll(m, us, raw, ident, st.accs, s);
    RecordedUnits(m, us, raw, ident, st.accs, s.recs);
    MaskMeans(m, us, raw, ident, st.accs, s.recs);
    UnitsMean(m, us, raw, ident, st.accs, s.recs);
    FormMeansFields(p, raw, ident, st.accs);
  }
}
