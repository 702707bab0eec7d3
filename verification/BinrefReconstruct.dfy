/**
 Rebuilding a file from its normalized streams (binref/norm.go, `Reconstruct`).

 Each reader is specified against what was written: the ghost arguments name the value
 the stream is claimed to hold, and `good` says that the claim is true. Nothing is
 required of other streams; they are read defensively and may fail.
 */
module BinrefReconstruct {
  import opened Bytes
  import opened Varint
  import opened BinrefImage
  import opened BinrefForm

  /** The cursor over one stream. A failed read sets `err`, which stays set. */
  class Rd {
    const b: seq<byte>
    var p: nat
    var err: bool

    ghost predicate Valid()
      reads this
    {
      p <= |b|
    }

    constructor (b: seq<byte>)
      ensures this.b == b && p == 0 && !err && Valid()
    {
      this.b, p, err := b, 0, false;
    }

    method Uv(ghost good: bool, ghost want: u64, ghost rest: seq<byte>) returns (v: u64)
      requires Valid() && (good ==> Has(b, p, Varint.Uv(want) + rest))
      modifies this
      ensures Valid() && (old(err) ==> err)
      ensures good ==> v == want && Has(b, p, rest) && err == old(err)
    {
      if good { ReadsThen(b, p, want, rest); }
      match GoUv(b, p, 0) {
        case None => v, err := 0, true;
        case Some((x, q)) =>
          GoUvFits(b, p);
          v, p := x, q;
      }
    }

    method Take1(ghost good: bool, ghost want: byte, ghost rest: seq<byte>) returns (v: byte)
      requires Valid() && (good ==> Has(b, p, [want] + rest))
      modifies this
      ensures Valid() && (old(err) ==> err)
      ensures good ==> v == want && Has(b, p, rest) && err == old(err)
    {
      if good { HasByte(b, p, want, rest); }
      if p == |b| {
        v, err := 0, true;
      } else {
        v, p := b[p], p + 1;
      }
    }

    method TakeU32(ghost good: bool, ghost want: u32, ghost rest: seq<byte>) returns (v: u32)
      requires Valid() && (good ==> Has(b, p, U32LE(want) + rest))
      modifies this
      ensures Valid() && (old(err) ==> err)
      ensures good ==> v == want && Has(b, p, rest) && err == old(err)
    {
      if good {
        HasSplit(b, p, U32LE(want), rest);
        HasSlice(b, p, U32LE(want));
      }
      if p + 4 > |b| {
        v, err := 0, true;
      } else {
        v, p := ReadU32(b[p..p + 4]), p + 4;
      }
    }
  }

  /** Where region `i` starts in the rebuilt file. */
  function Start(regs: seq<Reg>, i: nat): nat
    requires i <= |regs|
  {
    if i == 0 then 0 else Start(regs, i - 1) + regs[i - 1].len
  }

  // ---- header and unit table ----

  method ReadAddress(h: Rd, f: byte, ghost good: bool, ghost want: Reg, ghost rest: seq<byte>) returns (va: u64)
    requires h.Valid() && (good ==> f == FlagByte(want) && RegOk(want) && Has(h.b, h.p, AddressThen(want, rest)))
    modifies h
    ensures h.Valid() && (old(h.err) ==> h.err)
    ensures good ==> va == want.va && Has(h.b, h.p, rest) && h.err == old(h.err)
  {
    va := 0;
    if f % 2 == 1 {
      va := h.Uv(good, want.va, rest);
    }
  }

  method ReadExtra(h: Rd, f: byte, ghost good: bool, ghost want: Reg, ghost rest: seq<byte>) returns (x: Option<u64>)
    requires h.Valid() && (good ==> f == FlagByte(want) && Has(h.b, h.p, ExtraThen(want, rest)))
    modifies h
    ensures h.Valid() && (old(h.err) ==> h.err)
    ensures good ==> x == want.extra && Has(h.b, h.p, rest) && h.err == old(h.err)
  {
    x := None;
    if (f / 2) % 2 == 1 {
      var v := h.Uv(good, if want.extra.Some? then want.extra.value else 0, rest);
      x := Some(v);
    }
  }

  method ReadReg(h: Rd, ghost good: bool, ghost want: Reg, ghost rest: seq<byte>) returns (r: Option<Reg>)
    requires h.Valid() && (good ==> !h.err && RegOk(want) && Has(h.b, h.p, RegThen(want, rest)))
    modifies h
    ensures h.Valid()
    ensures good ==> r == Some(want) && !h.err && Has(h.b, h.p, rest)
  {
    ghost var tail := ExtraThen(want, rest);
    var l := h.Uv(good, if good then want.len else 0, [FlagByte(want)] + AddressThen(want, tail));
    var f := h.Take1(good, FlagByte(want), AddressThen(want, tail));
    if h.err || l > MAX_REGION_LEN {
      return None;
    }
    var va := ReadAddress(h, f, good, want, tail);
    var extra := ReadExtra(h, f, good, want, rest);
    return Some(Reg(l, f % 2 == 1, va, extra));
  }

  lemma RegsStep(regs: seq<Reg>, k: nat)
    requires k < |regs|
    ensures RegsBytes(regs[k..]) == RegThen(regs[k], RegsBytes(regs[k + 1..]))
    ensures regs[..k + 1] == regs[..k] + [regs[k]]
  {
    assert regs[k..][1..] == regs[k + 1..];
  }

  method ReadRegs(h: Rd, n: nat, ghost good: bool, ghost want: seq<Reg>) returns (r: Option<seq<Reg>>)
    requires h.Valid()
    requires good ==> !h.err && n == |want| && (forall i :: 0 <= i < n ==> RegOk(want[i])) && Has(h.b, h.p, RegsBytes(want))
    modifies h
    ensures h.Valid() && (r.Some? ==> |r.value| == n)
    ensures good ==> r == Some(want)
  {
    var regs := [];
    var i := 0;
    assert good ==> want[0..] == want && want[..0] == [];
    while i < n
      invariant 0 <= i <= n && h.Valid() && |regs| == i
      invariant good ==> !h.err && regs == want[..i] && Has(h.b, h.p, RegsBytes(want[i..]))
    {
      if good { RegsStep(want, i); }
      var x := ReadReg(h, good, if good then want[i] else Reg(0, false, 0, None), if good then RegsBytes(want[i + 1..]) else []);
      if x.None? {
        return None;
      }
      regs := regs + [x.value];
      i := i + 1;
    }
    assert good ==> want[..n] == want;
    if h.err {
      return None;
    }
    return Some(regs);
  }

  method ReadHeader(hdr: seq<byte>, ghost good: bool, ghost f: Form) returns (r: Option<(u64, u64, seq<Reg>)>)
    requires good ==> |f.regs| <= MAX_REGIONS && hdr == HeaderBytes(f.base, f.base2, f.regs) && forall i :: 0 <= i < |f.regs| ==> RegOk(f.regs[i])
    ensures good ==> r == Some((f.base, f.base2, f.regs))
  {
    var h := new Rd(hdr);
    ghost var rest := RegsBytes(f.regs);
    ghost var k: u64 := if good then |f.regs| else 0;
    HasSlice(hdr, 0, hdr);
    var base := h.Uv(good, f.base, Uv(f.base2) + (Uv(k) + rest));
    var base2 := h.Uv(good, f.base2, Uv(k) + rest);
    var n := h.Uv(good, k, rest);
    if h.err || n > MAX_REGIONS {
      return None;
    }
    var regs := ReadRegs(h, n, good, f.regs);
    if regs.None? {
      return None;
    }
    return Some((base, base2, regs.value));
  }

  lemma UnitsStep(us: seq<UnitEntry>, prev: u64, k: nat)
    requires k < |us|
    ensures UnitListBytes(us[k..], prev) == UnitThen(us[k], prev, UnitListBytes(us[k + 1..], us[k].va))
    ensures UnitMap(us[..k + 1]) == UnitMap(us[..k])[us[k].id := us[k].va] && LastVA(us[..k + 1]) == us[k].va
  {
    assert us[k..][1..] == us[k + 1..];
    assert us[..k + 1][..k] == us[..k];
  }

  method ReadUnit(u: Rd, m: map<u32, u64>, prev: u64, ghost good: bool, ghost want: UnitEntry, ghost rest: seq<byte>)
    returns (uva: map<u32, u64>, last: u64)
    requires u.Valid() && (good ==> !u.err && Has(u.b, u.p, UnitThen(want, prev, rest)))
    modifies u
    ensures u.Valid()
    ensures good ==> uva == m[want.id := want.va] && last == want.va && !u.err && Has(u.b, u.p, rest)
  {
    var id := u.TakeU32(good, want.id, Uv(Sub64(want.va, prev)) + rest);
    var d := u.Uv(good, Sub64(want.va, prev), rest);
    last := Add64(prev, d);
    uva := m[id := last];
  }

  method ReadUnits(b: seq<byte>, ghost good: bool, ghost us: seq<UnitEntry>) returns (r: Option<map<u32, u64>>)
    requires good ==> |us| < B64 && b == UnitsBytes(us)
    ensures good ==> r == Some(UnitMap(us))
  {
    var u := new Rd(b);
    HasSlice(b, 0, b);
    var n := u.Uv(good, if good then |us| else 0, UnitListBytes(us, 0));
    var uva: map<u32, u64> := map[];
    var prev: u64 := 0;
    var i := 0;
    assert us[0..] == us && us[..0] == [];
    while i < n && !u.err
      invariant 0 <= i <= n && u.Valid()
      invariant good ==> !u.err && n == |us| && uva == UnitMap(us[..i]) && prev == LastVA(us[..i])
      invariant good ==> Has(u.b, u.p, UnitListBytes(us[i..], prev))
    {
      if good { UnitsStep(us, prev, i); }
      uva, prev := ReadUnit(u, uva, prev, good, if good then us[i] else UnitEntry(0, 0),
                            if good then UnitListBytes(us[i + 1..], us[i].va) else []);
      i := i + 1;
    }
    assert us[..|us|] == us;
    if u.err {
      return None;
    }
    return Some(uva);
  }

  // ---- references ----

  function EncOf(c: nat): Option<Enc> {
    if c == 1 then Some(Rel32) else if c == 2 then Some(Abs64) else if c == 3 then Some(RVA32)
    else if c == 4 then Some(Off32) else None
  }

  lemma KindByteParts(x: Ref)
    requires x.bias < 8
    ensures KindByte(x) >= 128 <==> x.target.InRegion?
    ensures EncOf(KindByte(x) % 8) == Some(x.enc) && (KindByte(x) / 8) % 8 == x.bias
  {}

  method ReadTarget(d: Rd, e: Env, kb: byte, ghost good: bool, ghost want: Target, ghost rest: seq<byte>) returns (t: Option<Target>)
    requires d.Valid() && (good ==> !d.err && Resolves(e, want) && |e.regs| <= MAX_REGIONS)
    requires good ==> (kb >= 128 <==> want.InRegion?) && Has(d.b, d.p, TargetThen(want, rest))
    modifies d
    ensures d.Valid() && (t.Some? ==> Resolves(e, t.value))
    ensures good ==> t == Some(want) && !d.err && Has(d.b, d.p, rest)
  {
    if kb >= 128 {
      var tr := d.Uv(good, if good then want.region else 0, Uv(want.off) + rest);
      var off := d.Uv(good, want.off, rest);
      if tr >= |e.regs| {
        return None;
      }
      return Some(InRegion(tr, off));
    } else {
      var id := d.TakeU32(good, if want.InUnit? then want.id else 0, Uv(want.off) + rest);
      var off := d.Uv(good, want.off, rest);
      if id !in e.uva {
        return None;
      }
      return Some(InUnit(id, off));
    }
  }

  method ReadRef(d: Rd, e: Env, r: Reg, pe: nat, ghost good: bool, ghost want: Ref, ghost rest: seq<byte>) returns (x: Option<Ref>)
    requires d.Valid()
    requires good ==> !d.err && |e.regs| <= MAX_REGIONS && r.len <= MAX_REGION_LEN && Fits(e, r, want)
    requires good ==> pe <= want.at && want.bias < 8 && Has(d.b, d.p, RefThen(want, pe, rest))
    modifies d
    ensures d.Valid() && (x.Some? ==> Fits(e, r, x.value))
    ensures good ==> x == Some(want) && !d.err && Has(d.b, d.p, rest)
  {
    ghost var k: byte := if good then KindByte(want) else 0;
    if good { KindByteParts(want); }
    var g := d.Uv(good, if good then want.at - pe else 0, [k] + TargetThen(want.target, rest));
    var at := ToI64(pe + g);
    var kb := d.Take1(good, k, TargetThen(want.target, rest));
    var t := ReadTarget(d, e, kb, good, want.target, rest);
    var enc := EncOf(kb % 8);
    if t.None? || d.err || enc.None? {
      return None;
    }
    // A field that ends past 2^63 also fails here: the original then slices out of range.
    if !(0 <= at < B63) || at + enc.value.Width() > r.len || (!r.mapped && enc.value.Rel32?) {
      return None;
    }
    return Some(Ref(at, enc.value, (kb / 8) % 8, t.value));
  }

  /** Little-endian store of `w` bytes, in place. */
  method PutLE(out: array<byte>, at: nat, w: nat, v: nat)
    requires at + w <= out.Length
    modifies out
    ensures out[..] == Put(old(out[..]), at, ToLE(w, v))
  {
    var x, i := v, 0;
    while i < w
      invariant 0 <= i <= w
      invariant ToLE(w, v)[i..] == ToLE(w - i, x)
      invariant forall k :: 0 <= k < i ==> out[at + k] == ToLE(w, v)[k]
      invariant forall k :: 0 <= k < out.Length && !(at <= k < at + i) ==> out[k] == old(out[k])
    {
      assert ToLE(w, v)[i] == ToLE(w - i, x)[0];
      assert ToLE(w, v)[i..][1..] == ToLE(w, v)[i + 1..];
      out[at + i] := x % 256;
      x := x / 256;
      i := i + 1;
    }
  }

  /** A write inside a slice is a write of the updated slice. */
  lemma PutInside(cur: seq<byte>, was: seq<byte>, off: nat, o: seq<byte>, at: nat, b: seq<byte>)
    requires off + |o| <= |was| && at + |b| <= |o| && cur == Put(was, off, o)
    ensures Put(cur, off + at, b) == Put(was, off, Put(o, at, b))
  {}

  /** Writes one field of the region at `off`, whose bytes are `p`. */
  method ApplyRef(out: array<byte>, off: nat, e: Env, r: Reg, x: Ref, ghost was: seq<byte>, ghost p: seq<byte>) returns (ghost q: seq<byte>)
    requires |was| == out.Length && off + r.len <= |was| && |p| == r.len
    requires Fits(e, r, x) && out[..] == Put(was, off, p)
    modifies out
    ensures q == Put(p, x.at, FieldBytes(e, r, x)) && out[..] == Put(was, off, q)
  {
    ghost var before := out[..];
    var va := if r.mapped then Add64(r.va, x.at) else 0;
    PutLE(out, off + x.at, x.enc.Width(), EncodeSlot(x.enc, x.bias, va, e.base, e.base2, Address(e, x.target)));
    q := Put(p, x.at, FieldBytes(e, r, x));
    PutInside(before, was, off, p, x.at, FieldBytes(e, r, x));
  }

  /** The cursor stands before record `i` of `rs`, and `p` is the region with the earlier fields written. */
  ghost predicate AtRef(d: Rd, e: Env, r: Reg, rs: seq<Ref>, i: nat, pe: nat, o: seq<byte>, p: seq<byte>)
    requires i <= |rs| && |o| == r.len && Writable(e, r, rs) && Ordered(rs)
    reads d
  {
    && !d.err && p == Patched(e, r, rs, i, o) && pe == PrevEnd(rs, i)
    && Has(d.b, d.p, RefListBytes(rs, i))
  }

  /** One record: read it and write its field. */
  method ApplyNext(out: array<byte>, off: nat, e: Env, r: Reg, d: Rd, pe: nat, ghost good: bool, ghost rs: seq<Ref>,
                   ghost i: nat, ghost o: seq<byte>, ghost was: seq<byte>, ghost p: seq<byte>)
    returns (ok: bool, end: nat, ghost q: seq<byte>)
    requires d.Valid() && |was| == out.Length && off + r.len <= |was| && |p| == r.len == |o| && out[..] == Put(was, off, p)
    requires good ==> r.len <= MAX_REGION_LEN && |e.regs| <= MAX_REGIONS
    requires good ==> Ordered(rs) && Writable(e, r, rs) && i < |rs| && AtRef(d, e, r, rs, i, pe, o, p)
    modifies out, d
    ensures d.Valid() && |q| == r.len && out[..] == Put(was, off, q)
    ensures good ==> ok && AtRef(d, e, r, rs, i + 1, end, o, q)
  {
    var x := ReadRef(d, e, r, pe, good, if good then rs[i] else Ref(0, Abs64, 0, InRegion(0, 0)),
                     if good then RefListBytes(rs, i + 1) else []);
    if x.None? {
      return false, pe, p;
    }
    q := ApplyRef(out, off, e, r, x.value, was, p);
    return true, x.value.End(), q;
  }

  /** Applies one refs stream to its region of `out`, in place, and touches nothing else. */
  method ApplyStream(out: array<byte>, off: nat, e: Env, r: Reg, rb: seq<byte>, ghost good: bool, ghost rs: seq<Ref>, ghost o: seq<byte>)
    returns (ok: bool, ghost p: seq<byte>)
    requires off + r.len <= out.Length && o == out[..][off..off + r.len]
    requires good ==> r.len <= MAX_REGION_LEN && |e.regs| <= MAX_REGIONS
    requires good ==> Ordered(rs) && Writable(e, r, rs) && rb == RefsBytes(rs)
    modifies out
    ensures |p| == r.len && out[..] == Put(old(out[..]), off, p)
    ensures good ==> ok && p == Patched(e, r, rs, |rs|, o)
  {
    p := o;
    ghost var was := out[..];
    PutSelf(was, off, r.len);
    if good { OrderedCount(e, r, rs, |rs|); }
    var d := new Rd(rb);
    HasSlice(rb, 0, rb);
    var cnt := d.Uv(good, if good then |rs| else 0, if good then RefListBytes(rs, 0) else []);
    if d.err {
      return false, p;
    }
    ok, p := ApplyRefs(out, off, e, r, d, cnt, good, rs, o, was);
  }

  lemma PutSelf(b: seq<byte>, off: nat, n: nat)
    requires off + n <= |b|
    ensures Put(b, off, b[off..off + n]) == b
  {}

  /** The records of a stream, each read and applied. */
  method ApplyRefs(out: array<byte>, off: nat, e: Env, r: Reg, d: Rd, cnt: nat, ghost good: bool, ghost rs: seq<Ref>, ghost o: seq<byte>, ghost was: seq<byte>)
    returns (ok: bool, ghost p: seq<byte>)
    requires d.Valid() && |was| == out.Length && off + r.len <= |was| && |o| == r.len && out[..] == Put(was, off, o)
    requires good ==> r.len <= MAX_REGION_LEN && |e.regs| <= MAX_REGIONS
    requires good ==> Ordered(rs) && Writable(e, r, rs) && cnt == |rs| && AtRef(d, e, r, rs, 0, 0, o, o)
    modifies out, d
    ensures |p| == r.len && out[..] == Put(was, off, p)
    ensures good ==> ok && p == Patched(e, r, rs, |rs|, o)
  {
    p := o;
    var pe, i := 0, 0;
    while i < cnt
      invariant 0 <= i <= cnt && d.Valid() && |p| == r.len && out[..] == Put(was, off, p)
      invariant good ==> cnt == |rs| && AtRef(d, e, r, rs, i, pe, o, p)
    {
      ok, pe, p := ApplyNext(out, off, e, r, d, pe, good, rs, i, o, was, p);
      if !ok {
        return;
      }
      i := i + 1;
    }
    return !d.err, p;
  }

  // ---- the whole file ----

  /** The parts have the lengths the regions announce. */
  predicate Sized(parts: seq<seq<byte>>, regs: seq<Reg>) {
    |parts| == |regs| && forall k :: 0 <= k < |regs| ==> |parts[k]| == regs[k].len
  }

  lemma {:induction false} FlatLength(parts: seq<seq<byte>>, regs: seq<Reg>, i: nat)
    requires Sized(parts, regs) && i <= |parts|
    ensures |Flat(parts[..i])| == Start(regs, i)
    ensures Flat(parts) == Flat(parts[..i]) + Flat(parts[i..])
  {
    if i == 0 {
      assert parts[..0] == [] && parts[0..] == parts;
    } else {
      FlatLength(parts, regs, i - 1);
      FlatSnoc(parts[..i - 1], parts[i - 1]);
      assert parts[..i] == parts[..i - 1] + [parts[i - 1]];
      assert parts[i - 1..][1..] == parts[i..];
      Glue(Flat(parts[..i - 1]), parts[i - 1], Flat(parts[i..]));
    }
  }

  lemma SpliceMiddle(a: seq<byte>, m: seq<byte>, p: seq<byte>, z: seq<byte>)
    requires |m| == |p|
    ensures a + (p + z) == Put(a + (m + z), |a|, p)
    ensures (a + (m + z))[|a|..|a| + |m|] == m
  {}

  /** Part `i` is its slice of the file; replacing it by one of the same length rewrites exactly that slice. */
  lemma FlatUpdate(parts: seq<seq<byte>>, regs: seq<Reg>, i: nat, p: seq<byte>)
    requires Sized(parts, regs) && i < |regs| && |p| == regs[i].len
    ensures Start(regs, i) + regs[i].len <= |Flat(parts)|
    ensures Flat(parts)[Start(regs, i)..Start(regs, i) + regs[i].len] == parts[i]
    ensures Flat(parts[i := p]) == Put(Flat(parts), Start(regs, i), p)
  {
    var q := parts[i := p];
    FlatLength(parts, regs, i);
    FlatLength(q, regs, i);
    assert q[..i] == parts[..i] && q[i..][1..] == parts[i..][1..];
    SpliceMiddle(Flat(parts[..i]), parts[i], p, Flat(parts[i..][1..]));
  }

  /** Sorts the streams into their bins; the last one of a kind wins. */
  method Sort(streams: seq<Stream>) returns (c: Bins)
    ensures c == Collect(streams)
  {
    c := Bins([], [], map[], map[]);
    var i := 0;
    while i < |streams|
      invariant 0 <= i <= |streams|
      invariant c == Collect(streams[..i])
    {
      CollectAppend(streams[..i], streams[i]);
      assert streams[..i + 1] == streams[..i] + [streams[i]];
      c := c.Add(streams[i]);
      i := i + 1;
    }
    assert streams[..i] == streams;
  }

  /** Concatenates the payloads, checking their lengths, and records where each region starts. */
  method LoadPayload(c: Bins, regs: seq<Reg>) returns (r: Option<(seq<byte>, seq<nat>)>, ghost parts: seq<seq<byte>>)
    ensures r.Some? ==> Sized(parts, regs) && r.value.0 == Flat(parts) && forall k :: 0 <= k < |regs| ==> parts[k] == c.PayloadAt(k)
    ensures r.Some? ==> |r.value.1| == |regs| && forall k :: 0 <= k < |regs| ==> r.value.1[k] == Start(regs, k)
    ensures r.None? ==> exists k :: 0 <= k < |regs| && |c.PayloadAt(k)| != regs[k].len
  {
    var i, flat, starts := 0, [], [];
    parts := [];
    while i < |regs|
      invariant 0 <= i <= |regs| && |starts| == i == |parts|
      invariant forall k :: 0 <= k < i ==> parts[k] == c.PayloadAt(k) && |parts[k]| == regs[k].len
      invariant forall k :: 0 <= k < i ==> starts[k] == Start(regs, k)
      invariant flat == Flat(parts) && |flat| == Start(regs, i)
    {
      var p := c.PayloadAt(i);
      if |p| != regs[i].len {
        return None, parts;
      }
      starts := starts + [|flat|];
      FlatSnoc(parts, p);
      parts := parts + [p];
      flat := flat + p;
      i := i + 1;
    }
    return Some((flat, starts)), parts;
  }

  /** The bins hold the streams of `f`. */
  ghost predicate Holds(c: Bins, f: Form) {
    WellFormed(f) && Binned(c, HeaderBytes(f.base, f.base2, f.regs), UnitsBytes(f.units), f.payload, RefData(f), |f.payload|)
  }

  lemma StreamsHold(f: Form)
    requires WellFormed(f)
    ensures Holds(Collect(Streams(f)), f)
  {
    CollectOf(HeaderBytes(f.base, f.base2, f.regs), UnitsBytes(f.units), f.payload, RefData(f), |f.payload|);
  }

  lemma ProgressStart(c: Bins, f: Form, parts: seq<seq<byte>>)
    requires Holds(c, f) && Sized(parts, f.regs) && forall k :: 0 <= k < |f.regs| ==> parts[k] == c.PayloadAt(k)
    ensures Progress(f, c.refs.Keys, parts)
  {}

  /** Payloads of the announced lengths are found for every region. */
  lemma PayloadsFound(c: Bins, f: Form)
    requires Holds(c, f)
    ensures forall k :: 0 <= k < |f.regs| ==> |c.PayloadAt(k)| == f.regs[k].len
  {
    forall k | 0 <= k < |f.regs| ensures |c.PayloadAt(k)| == f.regs[k].len { PayloadFound(c, f, k); }
  }

  lemma PayloadFound(c: Bins, f: Form, k: nat)
    requires Holds(c, f) && k < |f.regs|
    ensures |c.PayloadAt(k)| == f.regs[k].len
  {}

  /** `parts` are the regions of the file once the refs streams outside `todo` have been applied. */
  ghost predicate Progress(f: Form, todo: set<int>, parts: seq<seq<byte>>)
    requires WellFormed(f)
  {
    && Sized(parts, f.regs)
    && (forall k :: 0 <= k < |parts| && k in todo ==> parts[k] == f.payload[k])
    && (forall k :: 0 <= k < |parts| && k !in todo ==> parts[k] == Meaning(f, k))
  }

  lemma ProgressStep(f: Form, todo: set<int>, parts: seq<seq<byte>>, i: nat, p: seq<byte>)
    requires WellFormed(f) && Progress(f, todo, parts) && i < |f.regs| && p == Meaning(f, i)
    ensures Progress(f, todo - {i}, parts[i := p])
  {}

  lemma ProgressDone(f: Form, parts: seq<seq<byte>>)
    requires WellFormed(f) && Progress(f, {}, parts)
    ensures parts == Meanings(f)
  {}

  lemma RefsOfRegion(c: Bins, f: Form, i: nat)
    requires Holds(c, f) && i in c.refs && i < |f.regs|
    ensures f.refs[i] != [] && Ordered(f.refs[i]) && Writable(EnvOf(f), f.regs[i], f.refs[i])
    ensures c.refs[i] == RefsBytes(f.refs[i]) && f.regs[i].len <= MAX_REGION_LEN && |f.regs| <= MAX_REGIONS
  {}

  lemma NonEmpty(s: set<int>)
    requires s != {}
    ensures exists x :: x in s
  {
    assert (forall x :: x !in s) ==> s == {};
  }

  /** Applies every refs stream, each loop iteration picking an arbitrary one. */
  method ApplyAll(c: Bins, e: Env, starts: seq<nat>, out: array<byte>, ghost good: bool, ghost f: Form, ghost before: seq<seq<byte>>)
    returns (ok: bool)
    requires |starts| == |e.regs| && forall k :: 0 <= k < |starts| ==> starts[k] == Start(e.regs, k)
    requires Sized(before, e.regs) && out[..] == Flat(before)
    requires good ==> Holds(c, f) && e == EnvOf(f) && Progress(f, c.refs.Keys, before)
    modifies out
    ensures good ==> ok && out[..] == Flat(Meanings(f))
  {
    var todo := c.refs.Keys;
    ghost var parts := before;
    while todo != {}
      invariant todo <= c.refs.Keys
      invariant Sized(parts, e.regs) && out[..] == Flat(parts)
      invariant good ==> Progress(f, todo, parts)
      decreases todo
    {
      NonEmpty(todo);
      var ri :| ri in todo;
      if ri < 0 || ri >= |e.regs| {
        return false;
      }
      FlatUpdate(parts, e.regs, ri, parts[ri]);
      if good { RefsOfRegion(c, f, ri); }
      ghost var p;
      ok, p := ApplyStream(out, starts[ri], e, e.regs[ri], c.refs[ri], good, if good then f.refs[ri] else [], parts[ri]);
      if !ok {
        return;
      }
      FlatUpdate(parts, e.regs, ri, p);
      if good { ProgressStep(f, todo, parts, ri, p); }
      parts := parts[ri := p];
      todo := todo - {ri};
    }
    if good { ProgressDone(f, parts); }
    return true;
  }

  /**
   Rebuilds the file from the streams alone. On the streams of a well-formed normal form it
   succeeds, and gives that form's meaning, whatever order the refs streams are applied in.
   None stands for an error (or a slice panic on overflowing gaps).
   */
  method Reconstruct(streams: seq<Stream>, ghost f: Form) returns (r: Option<seq<byte>>)
    ensures WellFormed(f) && streams == Streams(f) ==> r == Some(Flat(Meanings(f)))
  {
    var c := Sort(streams);
    ghost var good := WellFormed(f) && streams == Streams(f);
    if good { StreamsHold(f); }
    var h := ReadHeader(c.hdr, good, f);
    if h.None? {
      return None;
    }
    var (base, base2, regs) := h.value;
    var loaded;
    ghost var parts;
    if good { PayloadsFound(c, f); }
    loaded, parts := LoadPayload(c, regs);
    if loaded.None? {
      return None;
    }
    var (flat, starts) := loaded.value;
    if good { ProgressStart(c, f, parts); }
    var uva := ReadUnits(c.units, good, f.units);
    if uva.None? {
      return None;
    }
    var e := Env(base, base2, regs, uva.value);
    var out := new byte[|flat|](k requires 0 <= k < |flat| => flat[k]);
    assert out[..] == flat;
    var ok := ApplyAll(c, e, starts, out, good, f, parts);
    if !ok {
      return None;
    }
    return Some(out[..]);
  }
}
