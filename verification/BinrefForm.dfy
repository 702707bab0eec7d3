/**
 The normalized form of a binary image and its byte streams (binref/norm.go): what each
 stream says, how it is written, and how reading it back is specified.
 */
module BinrefForm {
  import opened Bytes
  import opened Varint
  import opened BinrefImage

  const MAX_REGIONS := 0x10_0000
  const MAX_REGION_LEN := 0x100_0000_0000

  /** A region entry; `extra` is the run-time size, written only when it exceeds `len`. */
  datatype Reg = Reg(len: nat, mapped: bool, va: u64, extra: Option<u64>)

  datatype Target = InRegion(region: nat, off: u64) | InUnit(id: u32, off: u64)

  /** A reference field at offset `at` of its region. */
  datatype Ref = Ref(at: u64, enc: Enc, bias: byte, target: Target) {
    function End(): nat { at + enc.Width() }
  }

  datatype UnitEntry = UnitEntry(id: u32, va: u64)

  datatype Form = Form(base: u64, base2: u64, regs: seq<Reg>, units: seq<UnitEntry>,
                       payload: seq<seq<byte>>, refs: seq<seq<Ref>>)

  datatype Stream =
    | Regions(data: seq<byte>)
    | Units(data: seq<byte>)
    | Payload(region: int, data: seq<byte>)
    | Refs(region: int, data: seq<byte>)

  // ---- writing ----

  function FlagByte(r: Reg): byte {
    (if r.mapped then 1 else 0) + (if r.extra.Some? then 2 else 0)
  }

  // The `...Then(x, rest)` functions give the bytes of `x` followed by `rest`.

  function ExtraThen(r: Reg, rest: seq<byte>): seq<byte> {
    if r.extra.Some? then Uv(r.extra.value) + rest else rest
  }

  function AddressThen(r: Reg, rest: seq<byte>): seq<byte> {
    if r.mapped then Uv(r.va) + rest else rest
  }

  function RegThen(r: Reg, rest: seq<byte>): seq<byte> {
    Uv(r.len) + ([FlagByte(r)] + AddressThen(r, ExtraThen(r, rest)))
  }

  function RegsBytes(regs: seq<Reg>): seq<byte> {
    if regs == [] then [] else RegThen(regs[0], RegsBytes(regs[1..]))
  }

  function HeaderBytes(base: u64, base2: u64, regs: seq<Reg>): seq<byte> {
    Uv(base) + (Uv(base2) + (Uv(|regs|) + RegsBytes(regs)))
  }

  function UnitThen(u: UnitEntry, prev: u64, rest: seq<byte>): seq<byte> {
    U32LE(u.id) + (Uv(Sub64(u.va, prev)) + rest)
  }

  function UnitListBytes(us: seq<UnitEntry>, prev: u64): seq<byte> {
    if us == [] then [] else UnitThen(us[0], prev, UnitListBytes(us[1..], us[0].va))
  }

  function UnitsBytes(us: seq<UnitEntry>): seq<byte> { Uv(|us|) + UnitListBytes(us, 0) }

  function TargetThen(t: Target, rest: seq<byte>): seq<byte> {
    match t
    case InRegion(r, off) => Uv(r) + (Uv(off) + rest)
    case InUnit(id, off) => U32LE(id) + (Uv(off) + rest)
  }

  function KindByte(r: Ref): byte
    requires r.bias < 8
  {
    r.enc.Code() + 8 * r.bias + (if r.target.InRegion? then 128 else 0)
  }

  function RefThen(x: Ref, pe: nat, rest: seq<byte>): seq<byte>
    requires pe <= x.at && x.bias < 8
  {
    Uv(x.at - pe) + ([KindByte(x)] + TargetThen(x.target, rest))
  }

  /** Where the fields before record `k` end. */
  function PrevEnd(rs: seq<Ref>, k: nat): nat
    requires k <= |rs|
  {
    if k == 0 then 0 else rs[k - 1].End()
  }

  /** Fields in increasing order, without overlap. */
  predicate Ordered(rs: seq<Ref>) {
    forall k {:trigger PrevEnd(rs, k)} :: 0 <= k < |rs| ==> rs[k].at >= PrevEnd(rs, k) && rs[k].bias < 8
  }

  /** The records from `k` on. */
  function RefListBytes(rs: seq<Ref>, k: nat): seq<byte>
    requires Ordered(rs) && k <= |rs|
    decreases |rs| - k
  {
    if k == |rs| then [] else RefThen(rs[k], PrevEnd(rs, k), RefListBytes(rs, k + 1))
  }

  function RefsBytes(rs: seq<Ref>): seq<byte>
    requires Ordered(rs)
  {
    Uv(|rs|) + RefListBytes(rs, 0)
  }

  predicate Shaped(f: Form) {
    |f.payload| == |f.refs| && forall i :: 0 <= i < |f.refs| ==> Ordered(f.refs[i])
  }

  /** The refs streams by region: none where there is no reference. */
  function RefData(f: Form): (r: seq<Option<seq<byte>>>)
    requires Shaped(f)
    ensures |r| == |f.refs|
  {
    seq(|f.refs|, i requires 0 <= i < |f.refs| => if f.refs[i] == [] then None else Some(RefsBytes(f.refs[i])))
  }

  /** The stream list: header, units, then each region's payload and refs. */
  function StreamList(hdr: seq<byte>, units: seq<byte>, payload: seq<seq<byte>>, refs: seq<Option<seq<byte>>>, n: nat): seq<Stream>
    requires n <= |payload| == |refs|
  {
    if n == 0 then [Regions(hdr), Units(units)]
    else StreamList(hdr, units, payload, refs, n - 1) + RegionStreams(n - 1, payload[n - 1], refs[n - 1])
  }

  function RegionStreams(i: int, payload: seq<byte>, refs: Option<seq<byte>>): seq<Stream> {
    [Payload(i, payload)] + (if refs.None? then [] else [Refs(i, refs.value)])
  }

  function Streams(f: Form): seq<Stream>
    requires Shaped(f)
  {
    StreamList(HeaderBytes(f.base, f.base2, f.regs), UnitsBytes(f.units), f.payload, RefData(f), |f.payload|)
  }

  // ---- meaning ----

  datatype Env = Env(base: u64, base2: u64, regs: seq<Reg>, uva: map<u32, u64>)

  function UnitMap(us: seq<UnitEntry>): map<u32, u64> {
    if us == [] then map[] else UnitMap(us[..|us| - 1])[us[|us| - 1].id := us[|us| - 1].va]
  }

  function LastVA(us: seq<UnitEntry>): u64 { if us == [] then 0 else us[|us| - 1].va }

  function EnvOf(f: Form): Env { Env(f.base, f.base2, f.regs, UnitMap(f.units)) }

  predicate Resolves(e: Env, t: Target) {
    match t
    case InRegion(r, _) => r < |e.regs|
    case InUnit(id, _) => id in e.uva
  }

  function Address(e: Env, t: Target): u64
    requires Resolves(e, t)
  {
    match t
    case InRegion(r, off) => Add64(e.regs[r].va, off)
    case InUnit(id, off) => Add64(e.uva[id], off)
  }

  function FieldBytes(e: Env, r: Reg, x: Ref): (b: seq<byte>)
    requires Resolves(e, x.target)
    ensures |b| == x.enc.Width()
  {
    var va := if r.mapped then Add64(r.va, x.at) else 0;
    ToLE(x.enc.Width(), EncodeSlot(x.enc, x.bias, va, e.base, e.base2, Address(e, x.target)))
  }

  /** A field can be written: inside its region, with a resolvable target. */
  predicate Fits(e: Env, r: Reg, x: Ref) {
    x.End() <= r.len && Resolves(e, x.target) && (x.enc.Rel32? ==> r.mapped)
  }

  predicate Writable(e: Env, r: Reg, rs: seq<Ref>) {
    forall k :: 0 <= k < |rs| ==> Fits(e, r, rs[k])
  }

  /** The region bytes after writing the first `k` fields. */
  function Patched(e: Env, r: Reg, rs: seq<Ref>, k: nat, o: seq<byte>): (p: seq<byte>)
    requires |o| == r.len && Writable(e, r, rs) && k <= |rs|
    ensures |p| == |o|
  {
    if k == 0 then o else Put(Patched(e, r, rs, k - 1, o), rs[k - 1].at, FieldBytes(e, r, rs[k - 1]))
  }

  predicate RegOk(r: Reg) {
    r.len <= MAX_REGION_LEN && (!r.mapped ==> r.va == 0 && r.extra.None?)
  }

  predicate WellFormed(f: Form) {
    && |f.payload| == |f.refs| == |f.regs| <= MAX_REGIONS
    && |f.units| < B64
    && (forall i :: 0 <= i < |f.regs| ==> RegOk(f.regs[i]) && |f.payload[i]| == f.regs[i].len)
    && (forall i :: 0 <= i < |f.regs| ==> Ordered(f.refs[i]) && Writable(EnvOf(f), f.regs[i], f.refs[i]))
  }

  function Meaning(f: Form, i: nat): (p: seq<byte>)
    requires WellFormed(f) && i < |f.regs|
    ensures |p| == f.regs[i].len
  {
    Patched(EnvOf(f), f.regs[i], f.refs[i], |f.refs[i]|, f.payload[i])
  }

  function Meanings(f: Form): (r: seq<seq<byte>>)
    requires WellFormed(f)
    ensures |r| == |f.regs|
  {
    seq(|f.regs|, i requires 0 <= i < |f.regs| => Meaning(f, i))
  }

  lemma {:induction false} OrderedCount(e: Env, r: Reg, rs: seq<Ref>, k: nat)
    requires Ordered(rs) && Writable(e, r, rs) && k <= |rs|
    ensures k <= PrevEnd(rs, k) && (k > 0 ==> k <= r.len)
  {
    if k > 0 {
      OrderedCount(e, r, rs, k - 1);
      assert Fits(e, r, rs[k - 1]);
    }
  }

  // ---- sorting the streams ----

  /** What the streams are sorted into; a later stream replaces an earlier one of its kind. */
  datatype Bins = Bins(hdr: seq<byte>, units: seq<byte>, payload: map<int, seq<byte>>, refs: map<int, seq<byte>>) {
    function Add(s: Stream): Bins {
      match s
      case Regions(d) => this.(hdr := d)
      case Units(d) => this.(units := d)
      case Payload(i, d) => this.(payload := payload[i := d])
      case Refs(i, d) => this.(refs := refs[i := d])
    }

    /** A missing payload reads as no bytes. */
    function PayloadAt(i: int): seq<byte> { if i in payload then payload[i] else [] }
  }

  function Collect(ss: seq<Stream>): Bins {
    if ss == [] then Bins([], [], map[], map[])
    else Collect(ss[..|ss| - 1]).Add(ss[|ss| - 1])
  }

  /** The bins hold exactly the header, the units and the first `n` regions' streams. */
  ghost predicate Binned(c: Bins, hdr: seq<byte>, units: seq<byte>, payload: seq<seq<byte>>, refs: seq<Option<seq<byte>>>, n: nat)
    requires n <= |payload| == |refs|
  {
    && c.hdr == hdr && c.units == units
    && (forall i :: 0 <= i < n ==> i in c.payload && c.payload[i] == payload[i])
    && (forall i :: i in c.refs ==> 0 <= i < n)
    && (forall i :: 0 <= i < n ==> (i in c.refs <==> refs[i].Some?))
    && (forall i :: i in c.refs && 0 <= i < n ==> Some(c.refs[i]) == refs[i])
  }

  lemma BinnedStep(c: Bins, d: Bins, hdr: seq<byte>, units: seq<byte>, payload: seq<seq<byte>>, refs: seq<Option<seq<byte>>>, n: nat)
    requires n < |payload| == |refs| && Binned(c, hdr, units, payload, refs, n)
    requires d == if refs[n].None? then c.Add(Payload(n, payload[n])) else c.Add(Payload(n, payload[n])).Add(Refs(n, refs[n].value))
    ensures Binned(d, hdr, units, payload, refs, n + 1)
  {}

  lemma CollectRegion(ss: seq<Stream>, i: int, p: seq<byte>, r: Option<seq<byte>>)
    ensures Collect(ss + RegionStreams(i, p, r))
         == if r.None? then Collect(ss).Add(Payload(i, p)) else Collect(ss).Add(Payload(i, p)).Add(Refs(i, r.value))
  {
    CollectAppend(ss, Payload(i, p));
    if r.None? {
      assert ss + RegionStreams(i, p, r) == ss + [Payload(i, p)];
    } else {
      CollectAppend(ss + [Payload(i, p)], Refs(i, r.value));
      assert ss + RegionStreams(i, p, r) == ss + [Payload(i, p)] + [Refs(i, r.value)];
    }
  }

  lemma {:induction false} CollectOf(hdr: seq<byte>, units: seq<byte>, payload: seq<seq<byte>>, refs: seq<Option<seq<byte>>>, n: nat)
    requires n <= |payload| == |refs|
    ensures Binned(Collect(StreamList(hdr, units, payload, refs, n)), hdr, units, payload, refs, n)
  {
    if n == 0 {
      CollectTwo(Regions(hdr), Units(units));
    } else {
      var s := StreamList(hdr, units, payload, refs, n - 1);
      CollectOf(hdr, units, payload, refs, n - 1);
      CollectRegion(s, n - 1, payload[n - 1], refs[n - 1]);
      BinnedStep(Collect(s), Collect(s + RegionStreams(n - 1, payload[n - 1], refs[n - 1])), hdr, units, payload, refs, n - 1);
    }
  }

  lemma CollectTwo(h: Stream, u: Stream)
    ensures Collect([h, u]) == Bins([], [], map[], map[]).Add(h).Add(u)
  {
    CollectAppend([], h);
    CollectAppend([h], u);
    assert [] + [h] == [h] && [h] + [u] == [h, u];
  }

  lemma CollectAppend(ss: seq<Stream>, s: Stream)
    ensures Collect(ss + [s]) == Collect(ss).Add(s)
  {
    assert (ss + [s])[..|ss|] == ss;
  }
}
