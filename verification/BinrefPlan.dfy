/**
 The normal form that `Normalize` (binref/norm.go) writes, and why it means the file:
 which units get a name, what becomes of each accepted slot, which bytes are masked.
 */
module BinrefPlan {
  import opened Bytes
  import opened BinrefImage
  import opened BinrefForm
  import opened BinrefNorm

  // ---- masking ----

  function CoveredBy(accs: seq<Acc>, j: int): bool {
    accs != [] && (CoveredBy(accs[..|accs| - 1], j) || accs[|accs| - 1].Covers(j))
  }

  lemma {:induction false} CoveredAt(accs: seq<Acc>, j: int)
    ensures CoveredBy(accs, j) <==> exists k :: 0 <= k < |accs| && accs[k].Covers(j)
  {
    if accs != [] {
      var init := accs[..|accs| - 1];
      CoveredAt(init, j);
      if CoveredBy(init, j) {
        var k :| 0 <= k < |init| && init[k].Covers(j);
        assert accs[k].Covers(j);
      }
    }
  }

  lemma {:induction false} CoveredConcat(a: seq<Acc>, b: seq<Acc>, j: int)
    ensures CoveredBy(a + b, j) <==> CoveredBy(a, j) || CoveredBy(b, j)
    decreases |b|
  {
    if b == [] {
      assert a + b == a;
    } else {
      CoveredConcat(a, b[..|b| - 1], j);
      assert (a + b)[..|a + b| - 1] == a + b[..|b| - 1];
    }
  }

  /** The bytes of `data` with the fields of `accs` zeroed, and nothing else. */
  function Mask(data: seq<byte>, accs: seq<Acc>): (r: seq<byte>)
    ensures |r| == |data|
    ensures forall j :: 0 <= j < |data| ==> r[j] == if CoveredBy(accs, j) then 0 else data[j]
  {
    seq(|data|, j requires 0 <= j < |data| => if CoveredBy(accs, j) then 0 else data[j])
  }

  lemma MaskOne(data: seq<byte>, accs: seq<Acc>, a: Acc)
    requires 0 <= a.slot.off && a.End() <= |data|
    ensures Mask(data, accs + [a]) == Put(Mask(data, accs), a.slot.off, Zeros(a.slot.enc.Width()))
  {
    assert (accs + [a])[..|accs|] == accs;
  }

  /** Restoring a field that no other one overlaps takes it out of the mask. */
  lemma MaskRestore(data: seq<byte>, before: seq<Acc>, a: Acc, after: seq<Acc>)
    requires 0 <= a.slot.off && a.End() <= |data|
    requires forall j :: a.Covers(j) ==> !CoveredBy(before, j) && !CoveredBy(after, j)
    ensures Mask(data, before + after) == Put(Mask(data, before + ([a] + after)), a.slot.off, data[a.slot.off..a.End()])
  {
    var x, y := Mask(data, before + after), Put(Mask(data, before + ([a] + after)), a.slot.off, data[a.slot.off..a.End()]);
    forall j | 0 <= j < |data| ensures x[j] == y[j] {
      CoveredConcat(before, after, j);
      CoveredConcat(before, [a] + after, j);
      CoveredConcat([a], after, j);
      assert CoveredBy([a], j) <==> a.Covers(j);
    }
  }

  // ---- names ----

  /** The unit whose range holds an address (linear scan). */
  function UnitAt(us: seq<Unit>, x: int): (r: int)
    ensures -1 <= r < |us|
    ensures r >= 0 ==> us[r].Contains(x)
    ensures r < 0 ==> forall k :: 0 <= k < |us| ==> !us[k].Contains(x)
  {
    if us == [] then -1
    else if us[|us| - 1].Contains(x) then |us| - 1
    else UnitAt(us[..|us| - 1], x)
  }

  /** The identity of unit `i` before collisions are excluded; `masked` has every accepted field zeroed. */
  function RawId(m: Img, masked: seq<byte>, us: seq<Unit>, ident: Ident, h: Hashes, i: nat): Option<u32>
    requires Tiles(m.regions, |m.data|) && |masked| == |m.data|
    requires i < |us| && Placed(m.regions, us[i])
  {
    match ident
    case Ordinal => Some(i % B32)
    case RegionRel => None
    case Symbol => if us[i].name == "" then None else Some(h.ofName(us[i].name))
    case Content =>
      var ri := ScanVA(m.regions, us[i].va);
      var r := m.regions[ri];
      if us[i].va + us[i].size > r.va + r.len then None
      else
        TilesBounds(m.regions, |m.data|, ri);
        var off := r.off + (us[i].va - r.va);
        Some(h.ofBytes(masked[off..off + us[i].size]))
  }

  function RawIds(m: Img, masked: seq<byte>, us: seq<Unit>, ident: Ident, h: Hashes): (r: seq<Option<u32>>)
    requires Tiles(m.regions, |m.data|) && |masked| == |m.data|
    requires forall k :: 0 <= k < |us| ==> Placed(m.regions, us[k])
    ensures |r| == |us|
    ensures ident.RegionRel? ==> forall i :: 0 <= i < |r| ==> r[i] == None
  {
    seq(|us|, i requires 0 <= i < |us| => RawId(m, masked, us, ident, h, i))
  }

  /** A name stays only if no other unit has it. */
  function Unique(raw: seq<Option<u32>>, i: nat): Option<u32>
    requires i < |raw|
  {
    if multiset(raw)[raw[i]] > 1 then None else raw[i]
  }

  function Names(raw: seq<Option<u32>>): (r: seq<Option<u32>>)
    ensures |r| == |raw|
    ensures forall i :: 0 <= i < |r| ==> r[i] == Unique(raw, i)
  {
    seq(|raw|, i requires 0 <= i < |raw| => Unique(raw, i))
  }

  ghost predicate Distinct(names: seq<Option<u32>>) {
    forall i, j :: 0 <= i < j < |names| && names[i].Some? ==> names[i] != names[j]
  }

  /** Names are unambiguous, and only an absent or shared identity leaves a unit without one. */
  lemma NamesDistinct(raw: seq<Option<u32>>)
    ensures Distinct(Names(raw))
    ensures forall i :: 0 <= i < |raw| && raw[i].Some? && Names(raw)[i].None? ==> multiset(raw)[raw[i]] > 1
  {
    var names := Names(raw);
    forall i, j | 0 <= i < j < |names| && names[i].Some? ensures names[i] != names[j] {
      if names[i] == names[j] { Sorting.TwiceCounts(raw, i, j); }
    }
  }

  // ---- what becomes of an accepted slot ----

  datatype Fate = Intra | Collide | Record(unit: int)

  function FateOf(m: Img, us: seq<Unit>, names: seq<Option<u32>>, ident: Ident, a: Acc): (f: Fate)
    requires a.sr < |m.regions| && m.regions[a.sr].off <= a.slot.off < B63 && m.regions[a.sr].off >= 0 && |names| == |us|
    ensures f.Record? && f.unit >= 0 ==> f.unit < |us| && names[f.unit].Some? && us[f.unit].Contains(a.t)
  {
    var r := m.regions[a.sr];
    var ui := UnitAt(us, a.t);
    if r.mapped && ui >= 0 && ui == UnitAt(us, Add64(r.va, a.slot.off - r.off)) then Intra
    else if ui >= 0 && !ident.RegionRel? && names[ui].None? then Collide
    else Record(if ui >= 0 && names[ui].Some? then ui else -1)
  }

  /** A recorded slot: its target is named by a unit, or by its region when `unit` is negative. */
  datatype Rec = Rec(a: Acc, unit: int)

  function AccsOf(recs: seq<Rec>): (r: seq<Acc>)
    ensures |r| == |recs|
    ensures forall k :: 0 <= k < |r| ==> r[k] == recs[k].a
  {
    seq(|recs|, k requires 0 <= k < |recs| => recs[k].a)
  }

  datatype Sorted = Sorted(recs: seq<Rec>, intra: nat, collide: nat, regionRel: nat)

  function SortOne(s: Sorted, a: Acc, f: Fate): Sorted {
    match f
    case Intra => s.(intra := s.intra + 1)
    case Collide => s.(collide := s.collide + 1)
    case Record(u) => s.(recs := s.recs + [Rec(a, u)], regionRel := s.regionRel + if u < 0 then 1 else 0)
  }

  function SortAccs(m: Img, us: seq<Unit>, names: seq<Option<u32>>, ident: Ident, accs: seq<Acc>): Sorted
    requires |names| == |us| && forall k :: 0 <= k < |accs| ==> Sound(m, accs[k])
  {
    if accs == [] then Sorted([], 0, 0, 0)
    else
      var n := |accs| - 1;
      assert Sound(m, accs[n]);
      SortOne(SortAccs(m, us, names, ident, accs[..n]), accs[n], FateOf(m, us, names, ident, accs[n]))
  }

  /** A record that can be written: sound, and its unit is named and holds the target. */
  predicate RecOk(m: Img, us: seq<Unit>, names: seq<Option<u32>>, r: Rec) {
    && Sound(m, r.a)
    && (r.unit >= 0 ==> r.unit < |us| && r.unit < |names| && names[r.unit].Some? && us[r.unit].Contains(r.a.t))
  }

  ghost predicate RecsOk(m: Img, us: seq<Unit>, names: seq<Option<u32>>, recs: seq<Rec>) {
    && (forall k {:trigger RecOk(m, us, names, recs[k])} :: 0 <= k < |recs| ==> RecOk(m, us, names, recs[k]))
    && (forall k, l :: 0 <= k < l < |recs| ==> recs[k].a.End() <= recs[l].a.slot.off)
  }

  /** The records of accepted slots that end by `hi`; every slot is recorded or left raw, and counted once. */
  ghost predicate SortedOk(m: Img, us: seq<Unit>, names: seq<Option<u32>>, s: Sorted, n: nat, hi: int) {
    && RecsOk(m, us, names, s.recs) && |s.recs| + s.intra + s.collide == n && s.regionRel <= |s.recs|
    && (forall k :: 0 <= k < |s.recs| ==> s.recs[k].a.End() <= hi)
  }

  lemma SortOneOk(m: Img, us: seq<Unit>, names: seq<Option<u32>>, s: Sorted, n: nat, a: Acc, f: Fate, hi: int)
    requires SortedOk(m, us, names, s, n, a.slot.off) && a.End() <= hi
    requires f.Record? ==> RecOk(m, us, names, Rec(a, f.unit))
    ensures SortedOk(m, us, names, SortOne(s, a, f), n + 1, hi)
  {}

  lemma {:induction false} SortAccsOk(m: Img, us: seq<Unit>, names: seq<Option<u32>>, ident: Ident, accs: seq<Acc>, hi: int)
    requires |names| == |us| && Spaced(m, accs) && forall k :: 0 <= k < |accs| ==> accs[k].End() <= hi
    ensures SortedOk(m, us, names, SortAccs(m, us, names, ident, accs), |accs|, hi)
  {
    if accs != [] {
      var n := |accs| - 1;
      assert Sound(m, accs[n]);
      SortAccsOk(m, us, names, ident, accs[..n], accs[n].slot.off);
      SortOneOk(m, us, names, SortAccs(m, us, names, ident, accs[..n]), n, accs[n], FateOf(m, us, names, ident, accs[n]), hi);
    }
  }

  // ---- the form ----

  function RegOf(r: Region): Reg
    requires r.len >= 0
  {
    Reg(r.len, r.mapped, if r.mapped then r.va else 0, if r.mapped && r.RunSize() > r.len then Some(r.RunSize()) else None)
  }

  function RegsOf(regs: seq<Region>): (r: seq<Reg>)
    requires forall i :: 0 <= i < |regs| ==> regs[i].len >= 0
    ensures |r| == |regs|
    ensures forall i :: 0 <= i < |r| ==> r[i] == RegOf(regs[i])
  {
    seq(|regs|, i requires 0 <= i < |regs| => RegOf(regs[i]))
  }

  predicate IsUsed(recs: seq<Rec>, i: nat) {
    exists k :: 0 <= k < |recs| && recs[k].unit == i
  }

  /** The table entries of the used units among the first `n`. */
  function Table(us: seq<Unit>, names: seq<Option<u32>>, recs: seq<Rec>, n: nat): seq<UnitEntry>
    requires n <= |us| == |names|
  {
    if n == 0 then []
    else
      var t := Table(us, names, recs, n - 1);
      if IsUsed(recs, n - 1) && names[n - 1].Some? then t + [UnitEntry(names[n - 1].value, us[n - 1].va)] else t
  }

  lemma {:induction false} TableMaps(us: seq<Unit>, names: seq<Option<u32>>, recs: seq<Rec>, n: nat)
    requires n <= |us| == |names| && Distinct(names)
    ensures var t := Table(us, names, recs, n); var um := UnitMap(t);
            && |t| <= n
            && (forall i :: 0 <= i < n && IsUsed(recs, i) && names[i].Some? ==> names[i].value in um && um[names[i].value] == us[i].va)
  {
    if n > 0 {
      TableMaps(us, names, recs, n - 1);
      var t := Table(us, names, recs, n - 1);
      if IsUsed(recs, n - 1) && names[n - 1].Some? {
        var e := UnitEntry(names[n - 1].value, us[n - 1].va);
        assert (t + [e])[..|t|] == t;
        assert UnitMap(t + [e]) == UnitMap(t)[e.id := e.va];
      }
    }
  }

  function TargetOf(m: Img, us: seq<Unit>, names: seq<Option<u32>>, r: Rec): Target
    requires RecOk(m, us, names, r)
  {
    if r.unit < 0 then InRegion(r.a.tr, Sub64(r.a.t, m.regions[r.a.tr].va))
    else InUnit(names[r.unit].value, Sub64(r.a.t, us[r.unit].va))
  }

  function RefOf(m: Img, us: seq<Unit>, names: seq<Option<u32>>, r: Rec): Ref
    requires RecOk(m, us, names, r)
  {
    Ref(r.a.slot.off - m.regions[r.a.sr].off, r.a.slot.enc, r.a.slot.bias, TargetOf(m, us, names, r))
  }

  /** The records whose fields lie in region `ri`, in order. */
  function InRegionOnly(recs: seq<Rec>, ri: nat): seq<Rec> {
    if recs == [] then []
    else
      var t := InRegionOnly(recs[..|recs| - 1], ri);
      if recs[|recs| - 1].a.sr == ri then t + [recs[|recs| - 1]] else t
  }

  lemma {:induction false} InRegionOk(m: Img, us: seq<Unit>, names: seq<Option<u32>>, recs: seq<Rec>, ri: nat)
    requires RecsOk(m, us, names, recs)
    ensures var t := InRegionOnly(recs, ri);
            && RecsOk(m, us, names, t)
            && (forall k :: 0 <= k < |t| ==> t[k].a.sr == ri && t[k] in recs)
  {
    if recs != [] {
      var n := |recs| - 1;
      InRegionOk(m, us, names, recs[..n], ri);
      var t := InRegionOnly(recs[..n], ri);
      forall k | 0 <= k < |t| ensures t[k].a.End() <= recs[n].a.slot.off {
        var j :| 0 <= j < n && recs[j] == t[k];
      }
    }
  }

  /** All records of one region. */
  ghost predicate OneRegion(m: Img, us: seq<Unit>, names: seq<Option<u32>>, t: seq<Rec>, ri: nat) {
    RecsOk(m, us, names, t) && forall k :: 0 <= k < |t| ==> t[k].a.sr == ri
  }

  function RefsOf(m: Img, us: seq<Unit>, names: seq<Option<u32>>, t: seq<Rec>): (r: seq<Ref>)
    requires forall k :: 0 <= k < |t| ==> RecOk(m, us, names, t[k])
    ensures |r| == |t|
    ensures forall k :: 0 <= k < |r| ==> r[k] == RefOf(m, us, names, t[k])
  {
    seq(|t|, k requires 0 <= k < |t| => RefOf(m, us, names, t[k]))
  }

  lemma RefsOrdered(m: Img, us: seq<Unit>, names: seq<Option<u32>>, t: seq<Rec>, ri: nat)
    requires OneRegion(m, us, names, t, ri)
    ensures Ordered(RefsOf(m, us, names, t))
  {
    var rs := RefsOf(m, us, names, t);
    forall k | 0 <= k < |rs| ensures rs[k].at >= PrevEnd(rs, k) && rs[k].bias < 8 {
      assert RecOk(m, us, names, t[k]);
      if k > 0 { assert t[k - 1].a.End() <= t[k].a.slot.off; }
    }
  }

  /** Everything a normal form is made from. */
  datatype Plan = Plan(m: Img, us: seq<Unit>, names: seq<Option<u32>>, recs: seq<Rec>) {
    ghost predicate Ok() {
      && Tiles(m.regions, |m.data|) && |us| == |names| && Distinct(names)
      && RecsOk(m, us, names, recs)
    }

    function Masked(): (r: seq<byte>)
      ensures |r| == |m.data|
    {
      Mask(m.data, AccsOf(recs))
    }

    ghost function Regs(): (r: seq<Reg>)
      requires Ok()
      ensures |r| == |m.regions|
    {
      RegsOf(m.regions)
    }

    ghost function Units(): seq<UnitEntry>
      requires Ok()
    {
      Table(us, names, recs, |us|)
    }

    ghost function Payload(ri: nat): (r: seq<byte>)
      requires Ok() && ri < |m.regions|
      ensures |r| == m.regions[ri].len
    {
      TilesBounds(m.regions, |m.data|, ri);
      Masked()[m.regions[ri].off..m.regions[ri].off + m.regions[ri].len]
    }

    ghost function Refs(ri: nat): seq<Ref>
      requires Ok()
    {
      InRegionOk(m, us, names, recs, ri);
      RefsOf(m, us, names, InRegionOnly(recs, ri))
    }

    ghost function Form(): Form
      requires Ok()
    {
      BinrefForm.Form(m.base, m.base2, Regs(), Units(),
                      seq(|m.regions|, ri requires 0 <= ri < |m.regions| => Payload(ri)),
                      seq(|m.regions|, ri requires 0 <= ri < |m.regions| => Refs(ri)))
    }

    /** The decoder's own bounds. */
    predicate Bounded() {
      |m.regions| <= MAX_REGIONS && |us| < B64 && forall i :: 0 <= i < |m.regions| ==> m.regions[i].len <= MAX_REGION_LEN
    }
  }

  /** The environment a reader of the form works in. */
  ghost predicate EnvFor(p: Plan, e: Env)
    requires p.Ok()
  {
    e.base == p.m.base && e.base2 == p.m.base2 && e.regs == p.Regs() && e.uva == UnitMap(p.Units())
  }

  /** The address a record's target resolves to is the one the original field held. */
  lemma TargetAddress(p: Plan, e: Env, k: nat)
    requires p.Ok() && EnvFor(p, e) && k < |p.recs|
    ensures RecOk(p.m, p.us, p.names, p.recs[k])
    ensures var t := TargetOf(p.m, p.us, p.names, p.recs[k]); Resolves(e, t) && Address(e, t) == p.recs[k].a.t
  {
    var r := p.recs[k];
    assert RecOk(p.m, p.us, p.names, r);
    if r.unit < 0 {
      SubThenAdd(r.a.t, p.m.regions[r.a.tr].va);
    } else {
      TableMaps(p.us, p.names, p.recs, |p.us|);
      assert IsUsed(p.recs, r.unit);
      SubThenAdd(r.a.t, p.us[r.unit].va);
    }
  }

  /** A record is written back as the bytes it was read from. */
  lemma FieldIs(p: Plan, e: Env, k: nat)
    requires p.Ok() && EnvFor(p, e) && k < |p.recs|
    ensures RecOk(p.m, p.us, p.names, p.recs[k])
    ensures var a := p.recs[k].a; var x := RefOf(p.m, p.us, p.names, p.recs[k]); var r := RegOf(p.m.regions[a.sr]);
            Fits(e, r, x) && FieldBytes(e, r, x) == p.m.data[a.slot.off..a.End()]
  {
    TargetAddress(p, e, k);
    assert Sound(p.m, p.recs[k].a);
  }

  /** Reference `x` into the region at `off` stands for the field `a` of the file. */
  ghost predicate Stands(data: seq<byte>, off: nat, e: Env, r: Reg, a: Acc, x: Ref) {
    && off <= a.slot.off && a.End() <= |data| && x.at == a.slot.off - off && x.enc == a.slot.enc
    && Fits(e, r, x) && FieldBytes(e, r, x) == data[a.slot.off..a.End()]
  }

  ghost predicate AllStand(data: seq<byte>, off: nat, e: Env, r: Reg, t: seq<Rec>, rs: seq<Ref>) {
    |rs| == |t| && forall k {:trigger Stands(data, off, e, r, t[k].a, rs[k])} :: 0 <= k < |rs| ==> Stands(data, off, e, r, t[k].a, rs[k])
  }

  lemma RefStands(p: Plan, e: Env, ri: nat, k: nat)
    requires p.Ok() && EnvFor(p, e) && k < |p.recs| && p.recs[k].a.sr == ri
    ensures RecOk(p.m, p.us, p.names, p.recs[k]) && 0 <= p.m.regions[ri].off
    ensures Stands(p.m.data, p.m.regions[ri].off, e, RegOf(p.m.regions[ri]), p.recs[k].a, RefOf(p.m, p.us, p.names, p.recs[k]))
  {
    FieldIs(p, e, k);
    assert Sound(p.m, p.recs[k].a);
  }

  lemma RegionStands(p: Plan, e: Env, ri: nat)
    requires p.Ok() && EnvFor(p, e) && ri < |p.m.regions|
    ensures p.m.regions[ri].off >= 0
    ensures AllStand(p.m.data, p.m.regions[ri].off, e, RegOf(p.m.regions[ri]), InRegionOnly(p.recs, ri), p.Refs(ri))
    ensures Ordered(p.Refs(ri)) && Writable(e, RegOf(p.m.regions[ri]), p.Refs(ri))
  {
    var t, rs := InRegionOnly(p.recs, ri), p.Refs(ri);
    TilesBounds(p.m.regions, |p.m.data|, ri);
    InRegionOk(p.m, p.us, p.names, p.recs, ri);
    RefsOrdered(p.m, p.us, p.names, t, ri);
    forall k | 0 <= k < |rs|
      ensures Stands(p.m.data, p.m.regions[ri].off, e, RegOf(p.m.regions[ri]), t[k].a, rs[k])
    {
      var j :| 0 <= j < |p.recs| && p.recs[j] == t[k];
      RefStands(p, e, ri, j);
    }
  }

  lemma AccsPrefix(t: seq<Rec>, k: nat, x: int)
    requires k < |t|
    ensures CoveredBy(AccsOf(t[..k + 1]), x) <==> CoveredBy(AccsOf(t[..k]), x) || t[k].a.Covers(x)
  {
    AccsOfSnoc(t[..k], t[k], x);
    assert t[..k + 1] == t[..k] + [t[k]];
  }

  /** One byte of a region after `k` fields are written: original inside a field, as it was elsewhere. */
  lemma {:induction false} PatchedByte(data: seq<byte>, off: nat, e: Env, r: Reg, t: seq<Rec>, rs: seq<Ref>, k: nat, o: seq<byte>, j: nat)
    requires AllStand(data, off, e, r, t, rs) && Writable(e, r, rs) && k <= |rs| && j < |o| == r.len && off + r.len <= |data|
    ensures Patched(e, r, rs, k, o)[j] == if CoveredBy(AccsOf(t[..k]), off + j) then data[off + j] else o[j]
  {
    if k > 0 {
      PatchedByte(data, off, e, r, t, rs, k - 1, o, j);
      AccsPrefix(t, k - 1, off + j);
      assert Stands(data, off, e, r, t[k - 1].a, rs[k - 1]);
      PutByte(data, off, Patched(e, r, rs, k - 1, o), t[k - 1].a, FieldBytes(e, r, rs[k - 1]), j);
    }
  }

  lemma PutByte(data: seq<byte>, off: nat, o: seq<byte>, a: Acc, b: seq<byte>, j: nat)
    requires off <= a.slot.off && a.End() <= |data| && b == data[a.slot.off..a.End()] && a.End() <= off + |o| <= |data| && j < |o|
    ensures Put(o, a.slot.off - off, b)[j] == if a.Covers(off + j) then data[off + j] else o[j]
  {}

  /** The field lies inside its region. */
  predicate Owned(regs: seq<Region>, a: Acc) {
    a.sr < |regs| && regs[a.sr].off <= a.slot.off && a.End() <= regs[a.sr].off + regs[a.sr].len
  }

  lemma OwnedCovers(regs: seq<Region>, n: int, a: Acc, ri: nat, x: int)
    requires Tiles(regs, n) && Owned(regs, a) && ri < |regs| && regs[ri].ContainsOff(x) && a.Covers(x)
    ensures a.sr == ri
  {
    TilesUnique(regs, n, x, ri, a.sr);
  }

  lemma AccsOfSnoc(t: seq<Rec>, r: Rec, x: int)
    ensures CoveredBy(AccsOf(t + [r]), x) <==> CoveredBy(AccsOf(t), x) || r.a.Covers(x)
  {
    assert AccsOf(t + [r])[..|t|] == AccsOf(t);
  }

  /** A byte of region `ri` is covered by a record exactly when it is covered by one of that region. */
  lemma {:induction false} CoveredInRegion(regs: seq<Region>, size: int, recs: seq<Rec>, ri: nat, x: int)
    requires Tiles(regs, size) && ri < |regs| && regs[ri].ContainsOff(x)
    requires forall k :: 0 <= k < |recs| ==> Owned(regs, recs[k].a)
    ensures CoveredBy(AccsOf(recs), x) <==> CoveredBy(AccsOf(InRegionOnly(recs, ri)), x)
  {
    if recs != [] {
      var n := |recs| - 1;
      CoveredInRegion(regs, size, recs[..n], ri, x);
      AccsOfSnoc(recs[..n], recs[n], x);
      assert recs == recs[..n] + [recs[n]];
      AccsOfSnoc(InRegionOnly(recs[..n], ri), recs[n], x);
      if recs[n].a.Covers(x) {
        OwnedCovers(regs, size, recs[n].a, ri, x);
      }
    }
  }

  /** Outside the fields of region `ri` its payload is the file's. */
  lemma {:induction false} PayloadByte(p: Plan, ri: nat, j: nat)
    requires p.Ok() && ri < |p.m.regions| && j < p.m.regions[ri].len
    ensures var x := p.m.regions[ri].off + j;
            0 <= x < |p.m.data| && (CoveredBy(AccsOf(InRegionOnly(p.recs, ri)), x) || p.Payload(ri)[j] == p.m.data[x])
  {
    TilesBounds(p.m.regions, |p.m.data|, ri);
    forall k | 0 <= k < |p.recs| ensures Owned(p.m.regions, p.recs[k].a) {
      assert RecOk(p.m, p.us, p.names, p.recs[k]);
    }
    CoveredInRegion(p.m.regions, |p.m.data|, p.recs, ri, p.m.regions[ri].off + j);
  }

  predicate IsSlice(b: seq<byte>, data: seq<byte>, off: nat) {
    off + |b| <= |data| && forall j :: 0 <= j < |b| ==> b[j] == data[off + j]
  }

  /** Outside the fields of `t` these are the bytes from `off` on. */
  ghost predicate RightElsewhere(data: seq<byte>, off: nat, t: seq<Rec>, o: seq<byte>) {
    off + |o| <= |data| && forall j :: 0 <= j < |o| ==> CoveredBy(AccsOf(t), off + j) || o[j] == data[off + j]
  }

  /** Writing every field over a payload that is right elsewhere gives the original slice. */
  lemma PatchedSlice(data: seq<byte>, off: nat, e: Env, r: Reg, t: seq<Rec>, rs: seq<Ref>, o: seq<byte>)
    requires AllStand(data, off, e, r, t, rs) && Writable(e, r, rs) && |o| == r.len && off + r.len <= |data|
    requires RightElsewhere(data, off, t, o)
    ensures IsSlice(Patched(e, r, rs, |rs|, o), data, off)
  {
    forall j | 0 <= j < r.len ensures Patched(e, r, rs, |rs|, o)[j] == data[off + j] {
      PatchedByte(data, off, e, r, t, rs, |rs|, o, j);
      assert t[..|t|] == t;
    }
  }

  lemma PayloadRight(p: Plan, ri: nat, off: nat, t: seq<Rec>, o: seq<byte>)
    requires p.Ok() && ri < |p.m.regions| && o == p.Payload(ri) && t == InRegionOnly(p.recs, ri) && off == p.m.regions[ri].off
    ensures RightElsewhere(p.m.data, off, t, o)
  {
    TilesBounds(p.m.regions, |p.m.data|, ri);
    forall j | 0 <= j < |o| ensures CoveredBy(AccsOf(t), off + j) || o[j] == p.m.data[off + j] {
      PayloadByte(p, ri, j);
    }
  }

  lemma RegionMeans(p: Plan, e: Env, ri: nat, r: Region, rs: seq<Ref>, o: seq<byte>)
    requires p.Ok() && EnvFor(p, e) && ri < |p.m.regions|
    requires r == p.m.regions[ri] && rs == p.Refs(ri) && o == p.Payload(ri)
    ensures 0 <= r.off <= r.off + r.len <= |p.m.data| && Writable(e, RegOf(r), rs)
    ensures IsSlice(Patched(e, RegOf(r), rs, |rs|, o), p.m.data, r.off)
  {
    var t := InRegionOnly(p.recs, ri);
    RegionStands(p, e, ri);
    PayloadRight(p, ri, r.off, t, o);
    PatchedSlice(p.m.data, r.off, e, RegOf(r), t, rs, o);
  }

  /** The form of a plan is well formed and means, region by region, the original bytes. */
  lemma FormWellFormed(p: Plan)
    requires p.Ok() && p.Bounded()
    ensures WellFormed(p.Form())
  {
    var f := p.Form();
    TableMaps(p.us, p.names, p.recs, |p.us|);
    forall i | 0 <= i < |f.regs| ensures Ordered(f.refs[i]) && Writable(EnvOf(f), f.regs[i], f.refs[i]) {
      RegionStands(p, EnvOf(f), i);
    }
  }

  /** Region `k` of the parts is its slice of the file. */
  ghost predicate SliceAt(regs: seq<Region>, data: seq<byte>, parts: seq<seq<byte>>, k: nat)
    requires k < |regs| == |parts|
  {
    regs[k].off >= 0 && |parts[k]| == regs[k].len && IsSlice(parts[k], data, regs[k].off)
  }

  lemma FormMeans(p: Plan, f: Form, ri: nat)
    requires p.Ok() && f == p.Form() && WellFormed(f) && ri < |p.m.regions|
    ensures SliceAt(p.m.regions, p.m.data, Meanings(f), ri)
  {
    RegionMeans(p, EnvOf(f), ri, p.m.regions[ri], p.Refs(ri), p.Payload(ri));
    assert f.regs[ri] == RegOf(p.m.regions[ri]) && f.refs[ri] == p.Refs(ri) && f.payload[ri] == p.Payload(ri);
    assert Meanings(f)[ri] == Meaning(f, ri);
  }

  /** Consecutive slices of a partition concatenate to the whole. */
  lemma {:induction false} SlicesConcat(regs: seq<Region>, data: seq<byte>, parts: seq<seq<byte>>, i: nat)
    requires Tiles(regs, |data|) && |parts| == |regs| && i <= |regs|
    requires forall k :: 0 <= k < |regs| ==> SliceAt(regs, data, parts, k)
    ensures 0 <= EndBefore(regs, i) <= |data| && Flat(parts[i..]) == data[EndBefore(regs, i)..]
    decreases |regs| - i
  {
    TilesMonotone(regs, |data|, 0, i);
    TilesMonotone(regs, |data|, i, |regs|);
    if i < |regs| {
      SlicesConcat(regs, data, parts, i + 1);
      assert SliceAt(regs, data, parts, i);
      assert regs[i].off == EndBefore(regs, i);
      assert parts[i..][1..] == parts[i + 1..];
    }
  }

  /** What a plan's form means is the original file. */
  lemma PlanMeansData(p: Plan)
    requires p.Ok() && p.Bounded()
    ensures WellFormed(p.Form()) && Flat(Meanings(p.Form())) == p.m.data
  {
    FormWellFormed(p);
    var parts := Meanings(p.Form());
    forall k | 0 <= k < |p.m.regions| ensures SliceAt(p.m.regions, p.m.data, parts, k) {
      FormMeans(p, p.Form(), k);
    }
    SlicesConcat(p.m.regions, p.m.data, parts, 0);
    assert parts[0..] == parts;
  }

  // ---- from the inputs to the plan ----

  function SlotKey(s: Slot): int { s.off }

  ghost function PlanOf(m: Img, idx: seq<int>, slots: seq<Slot>, units: seq<Unit>, ident: Ident, h: Hashes): Plan
    requires m.Ready(idx)
  {
    var accs := Sift(m, Sorting.SortBy(SlotKey, slots)).accs;
    SiftSpaced(m, Sorting.SortBy(SlotKey, slots));
    var us := CleanUnits(m.regions, units);
    CleanUnitsClean(m.regions, idx, units);
    var names := Names(RawIds(m, Mask(m.data, accs), us, ident, h));
    Plan(m, us, names, SortAccs(m, us, names, ident, accs).recs)
  }

  /** The plan of any input is sound: unambiguous names, and disjoint fields that decode to their targets. */
  lemma PlanOk(m: Img, idx: seq<int>, slots: seq<Slot>, units: seq<Unit>, ident: Ident, h: Hashes)
    requires m.Ready(idx)
    ensures PlanOf(m, idx, slots, units, ident, h).Ok()
  {
    var ss := Sorting.SortBy(SlotKey, slots);
    var accs := Sift(m, ss).accs;
    SiftSpaced(m, ss);
    var us := CleanUnits(m.regions, units);
    CleanUnitsClean(m.regions, idx, units);
    var raw := RawIds(m, Mask(m.data, accs), us, ident, h);
    NamesDistinct(raw);
    SortAccsOk(m, us, Names(raw), ident, accs, |m.data|);
  }

  /** Normalizing loses nothing: within the reader's bounds, what is written means the file. */
  lemma NormalizationMeansFile(m: Img, idx: seq<int>, slots: seq<Slot>, units: seq<Unit>, ident: Ident, h: Hashes)
    requires m.Ready(idx) && |units| < B64
    requires |m.regions| <= MAX_REGIONS && forall i :: 0 <= i < |m.regions| ==> m.regions[i].len <= MAX_REGION_LEN
    ensures var p := PlanOf(m, idx, slots, units, ident, h);
            p.Ok() && WellFormed(p.Form()) && Flat(Meanings(p.Form())) == m.data
  {
    PlanOk(m, idx, slots, units, ident, h);
    CleanUnitsCount(m.regions, units);
    PlanMeansData(PlanOf(m, idx, slots, units, ident, h));
  }
}
