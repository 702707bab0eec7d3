/** The signature parser as it runs, and masking and restoring in place (clrz3/sig.go). */
module Sig {
  import opened Bytes
  import opened SigModel
  import opened SigSteps
  import opened SigMask
  import opened SigReads

  /** A failed state stands for nothing but failure. */
  function Norm(s: St): St { if s.bad then St(0, [], true) else s }

  /** The walk over a blob: cursor, slots, nesting depth and failure flag. */
  class Sigp {
    const strict: bool
    const b: seq<byte>
    var p: nat
    var slots: seq<Slot>
    var depth: int
    var bad: bool

    constructor (b: seq<byte>, strict: bool)
      ensures this.b == b && this.strict == strict && depth == 0 && !bad && Value() == St(0, [], false)
    {
      this.b, this.strict, p, slots, depth, bad := b, strict, 0, [], 0, false;
    }

    ghost function Value(): St
      reads this
    {
      Norm(St(p, slots, bad))
    }

    /** Unless the walk has failed, its nesting depth is `d`. */
    ghost predicate At(d: nat)
      reads this
    {
      !bad ==> depth == d
    }

    method ReadByte() returns (c: byte)
      modifies this`p, this`bad
      ensures Value() == Norm(Byte(b, old(Value()))) && c == ByteValue(b, old(Value()))
    {
      if bad || p >= |b| {
        bad := true;
        return 0;
      }
      c := b[p];
      p := p + 1;
    }

    method PeekByte() returns (c: byte)
      ensures c == Peek(b, Value())
    {
      if bad || p >= |b| {
        return 0xff;
      }
      return b[p];
    }

    /** Reads a compressed unsigned integer. */
    method ReadCu() returns (v: nat, w: nat)
      modifies this`p, this`bad
      ensures Value() == Norm(Cu(b, old(Value())))
      ensures !bad ==> CuAt(b, old(p)) == Some((v, w))
    {
      if bad || p >= |b| {
        bad := true;
        return 0, 0;
      }
      var c: int := b[p];
      if c < 0x80 {
        p := p + 1;
        return c, 1;
      }
      if c < 0xC0 {
        if p + 2 > |b| {
          bad := true;
          return 0, 0;
        }
        v := (c - 0x80) * 0x100 + b[p + 1];
        p := p + 2;
        return v, 2;
      }
      if c < 0xE0 {
        if p + 4 > |b| {
          bad := true;
          return 0, 0;
        }
        var x: int, y: int, z: int := b[p + 1], b[p + 2], b[p + 3];
        v := (c - 0xC0) * 0x100_0000 + x * 0x1_0000 + y * 0x100 + z;
        p := p + 4;
        return v, 4;
      }
      bad := true;
      return 0, 0;
    }

    method ReadCount() returns (n: nat)
      modifies this`p, this`bad
      ensures Value() == Norm(Count(b, old(Value()))) && n == CountValue(b, old(Value()))
    {
      var v, _ := ReadCu();
      if bad || v > |b| - p {
        bad := true;
        return 0;
      }
      return v;
    }

    method ReadTypeRef()
      modifies this`p, this`bad, this`slots
      ensures Value() == Norm(TypeRef(b, strict, old(Value())))
    {
      var at := p;
      var v, w := ReadCu();
      if bad {
        return;
      }
      if strict && (v % 4 == 3 || v / 4 == 0) {
        bad := true;
        return;
      }
      if |slots| >= MAX_SLOTS {
        bad := true;
        return;
      }
      slots := slots + [Slot(at, w, v)];
    }

    method CustomMods()
      modifies this`p, this`bad, this`slots
      ensures Value() == Norm(Mods(b, strict, old(Value())))
    {
      while !bad
        invariant Norm(Mods(b, strict, Value())) == Norm(Mods(b, strict, old(Value())))
        decreases if bad then 0 else 1 + |b| - p, |b| - p
      {
        var c := PeekByte();
        if c != 0x1f && c != 0x20 {
          return;
        }
        p := p + 1;
        ReadTypeRef();
      }
    }

    method ReadCus(n: nat)
      modifies this`p, this`bad
      ensures Value() == Norm(Cus(b, n, old(Value())))
    {
      var i := 0;
      while i < n && !bad
        invariant 0 <= i <= n
        invariant Norm(Iterate(CuStep(b), n - i, Value())) == Norm(Cus(b, n, old(Value())))
      {
        var _, _ := ReadCu();
        i := i + 1;
      }
    }

    /** A type: one level deeper, its element code and what follows. */
    method Type(ghost d: nat)
      requires At(d) && d <= MAX_DEPTH
      modifies this
      ensures At(d) && Value() == Norm(Typ(b, strict, d, old(Value())))
      decreases MAX_DEPTH - d, 1, 0
    {
      if bad {
        return;
      }
      depth := depth + 1;
      if depth > MAX_DEPTH {
        bad := true;
        return;
      }
      var e := ReadByte();
      Element(e, d + 1);
      depth := depth - 1;
    }

    method Element(e: byte, ghost d: nat)
      requires At(d) && 0 < d <= MAX_DEPTH && (bad ==> e == 0)
      modifies this
      ensures At(d) && Value() == Norm(Elem(b, strict, d, e, old(Value())))
      decreases MAX_DEPTH - d, 2, 0
    {
      if 0x02 <= e <= 0x0e || e == 0x16 || e == 0x18 || e == 0x19 || e == 0x1c {
      } else if e == 0x0f {
        CustomMods();
        var c := PeekByte();
        if c == 0x01 {
          p := p + 1;
        } else {
          Type(d);
        }
      } else if e == 0x10 {
        Type(d);
      } else if e == 0x11 || e == 0x12 {
        ReadTypeRef();
      } else if e == 0x13 || e == 0x1e {
        var _, _ := ReadCu();
      } else if e == 0x14 {
        Array(d);
      } else if e == 0x15 {
        GenericInst(d);
      } else if e == 0x1b {
        MethodSig(d);
      } else if e == 0x1d {
        CustomMods();
        Type(d);
      } else {
        bad := true;
      }
    }

    method Array(ghost d: nat)
      requires At(d) && 0 < d <= MAX_DEPTH
      modifies this
      ensures At(d) && Value() == Norm(Shape(b, Cu(b, Typ(b, strict, d, old(Value())))))
      decreases MAX_DEPTH - d, 1, 1
    {
      Type(d);
      var _, _ := ReadCu();
      var n := ReadCount();
      ReadCus(n);
      n := ReadCount();
      ReadCus(n);
    }

    method GenericInst(ghost d: nat)
      requires At(d) && 0 < d <= MAX_DEPTH
      modifies this
      ensures At(d)
      ensures var s := old(Value());
              Value() == Norm(if ByteValue(b, s) != 0x11 && ByteValue(b, s) != 0x12 then s.Fail()
                              else Arguments(b, strict, d, TypeRef(b, strict, Byte(b, s))))
      decreases MAX_DEPTH - d, 1, 3
    {
      var c := ReadByte();
      if c != 0x11 && c != 0x12 {
        bad := true;
        return;
      }
      ReadTypeRef();
      var n := ReadCount();
      if n == 0 {
        bad := true;
      }
      ReadTypes(n, d);
    }

    method ReadTypes(n: nat, ghost d: nat)
      requires At(d) && d <= MAX_DEPTH
      modifies this
      ensures At(d) && Value() == Norm(Types(b, strict, d, n, old(Value())))
      decreases MAX_DEPTH - d, 1, 2
    {
      var i := 0;
      while i < n && !bad
        invariant 0 <= i <= n && At(d)
        invariant Norm(Iterate(TypStep(b, strict, d), n - i, Value())) == Norm(Types(b, strict, d, n, old(Value())))
      {
        Type(d);
        i := i + 1;
      }
    }

    /** A parameter or return type. */
    method ReadParam(ret: bool, ghost d: nat)
      requires At(d) && d <= MAX_DEPTH
      modifies this
      ensures At(d) && Value() == Norm(Param(b, strict, d, ret, old(Value())))
      decreases MAX_DEPTH - d, 1, 1
    {
      CustomMods();
      var c := PeekByte();
      if c == 0x10 {
        p := p + 1;
        Type(d);
      } else if c == 0x16 {
        p := p + 1;
      } else if c == 0x01 {
        if !ret {
          bad := true;
        }
        p := p + 1;
      } else {
        Type(d);
      }
    }

    method ReadParams(n: nat, ghost d: nat)
      requires At(d) && d <= MAX_DEPTH
      modifies this
      ensures At(d) && Value() == Norm(Params(b, strict, d, n, old(Value())))
      decreases MAX_DEPTH - d, 1, 2
    {
      var i := 0;
      while i < n && !bad
        invariant 0 <= i <= n && At(d)
        invariant Norm(Iterate(ParamStep(b, strict, d), n - i, Value())) == Norm(Params(b, strict, d, n, old(Value())))
      {
        var c := PeekByte();
        if c == 0x41 {
          p := p + 1;
        }
        ReadParam(false, d);
        i := i + 1;
      }
    }

    method MethodSig(ghost d: nat)
      requires At(d) && d <= MAX_DEPTH && !bad
      modifies this
      ensures At(d) && Value() == Norm(Method(b, strict, d, old(Value())))
      decreases MAX_DEPTH - d, 1, 0
    {
      depth := depth + 1;
      if depth > MAX_DEPTH {
        bad := true;
        return;
      }
      var cc := ReadByte();
      if cc % 16 > 5 {
        bad := true;
        return;
      }
      if (cc / 16) % 2 == 1 {
        var _, _ := ReadCu();
      }
      var n := ReadCount();
      ReadParam(true, d + 1);
      ReadParams(n, d + 1);
      depth := depth - 1;
    }

    /** A local variable: modifiers and pinned markers, an optional BYREF, then TYPEDBYREF or a type. */
    method ReadLocal(ghost d: nat)
      requires At(d) && d <= MAX_DEPTH
      modifies this
      ensures At(d) && Value() == Norm(Local(b, strict, d, old(Value())))
    {
      ReadLocalMods();
      var c := PeekByte();
      if c == 0x10 {
        p := p + 1;
      }
      c := PeekByte();
      if c == 0x16 {
        p := p + 1;
      } else {
        Type(d);
      }
    }

    method ReadLocalMods()
      modifies this`p, this`bad, this`slots
      ensures Value() == Norm(LocalMods(b, strict, old(Value())))
    {
      while !bad
        invariant Norm(LocalMods(b, strict, Value())) == Norm(LocalMods(b, strict, old(Value())))
        decreases if bad then 0 else 1 + |b| - p, |b| - p
      {
        var c := PeekByte();
        if c == 0x1f || c == 0x20 {
          p := p + 1;
          ReadTypeRef();
        } else if c == 0x45 {
          p := p + 1;
        } else {
          return;
        }
      }
    }

    method ReadLocals(n: nat, ghost d: nat)
      requires At(d) && d <= MAX_DEPTH
      modifies this
      ensures At(d) && Value() == Norm(Locals(b, strict, d, n, old(Value())))
    {
      var i := 0;
      while i < n && !bad
        invariant 0 <= i <= n && At(d)
        invariant Norm(Iterate(LocalStep(b, strict, d), n - i, Value())) == Norm(Locals(b, strict, d, n, old(Value())))
      {
        ReadLocal(d);
        i := i + 1;
      }
    }

    method ReadPropParams(n: nat, ghost d: nat)
      requires At(d) && d <= MAX_DEPTH
      modifies this
      ensures At(d) && Value() == Norm(PropParams(b, strict, d, n, old(Value())))
    {
      var i := 0;
      while i < n && !bad
        invariant 0 <= i <= n && At(d)
        invariant Norm(Iterate(PropParamStep(b, strict, d), n - i, Value())) == Norm(PropParams(b, strict, d, n, old(Value())))
      {
        ReadParam(false, d);
        i := i + 1;
      }
    }
  }

  /** Walks a blob of the given kind; the whole blob must be one signature. */
  method Parse(kind: Kind, b: seq<byte>, strict: bool) returns (r: Option<seq<Slot>>)
    ensures r == ParseSig(kind, b, strict)
    ensures forall slots :: r == Some(slots) <==> Spelt(kind, b, strict, slots)
  {
    forall slots { SignaturesOnly(kind, b, strict, slots); }
    var s := new Sigp(b, strict);
    match kind {
      case MethodBlob => s.MethodSig(0);
      case FieldBlob =>
        var c := s.ReadByte();
        if c != 0x06 {
          return None;
        }
        s.CustomMods();
        s.Type(0);
      case LocalBlob =>
        var c := s.ReadByte();
        if c != 0x07 {
          return None;
        }
        var n := s.ReadCount();
        s.ReadLocals(n, 0);
      case PropBlob =>
        var c := s.ReadByte();
        if c % 16 != 0x08 {
          return None;
        }
        var n := s.ReadCount();
        s.ReadParam(false, 0);
        s.ReadPropParams(n, 0);
      case TypeBlob => s.Type(0);
      case InstBlob =>
        var c := s.ReadByte();
        if c != 0x0a {
          return None;
        }
        var n := s.ReadCount();
        if n == 0 {
          return None;
        }
        s.ReadTypes(n, 0);
      case Opaque => return None;
    }
    if s.bad || s.p != |b| {
      return None;
    }
    return Some(s.slots);
  }

  // ---- masking and restoring ----

  /** Clears the value bits of a compressed integer and keeps its width prefix. */
  method MaskCompressed(a: array<byte>, off: nat, width: nat)
    requires (width == 1 || width == 2 || width == 4) && off + width <= a.Length
    modifies a
    ensures forall i :: 0 <= i < a.Length && !(off <= i < off + width) ==> a[i] == old(a[i])
    ensures CuAt(a[..], off) == Some((0, width))
  {
    if width == 1 {
      a[off] := 0;
    } else if width == 2 {
      a[off], a[off + 1] := 0x80, 0;
    } else {
      a[off], a[off + 1], a[off + 2], a[off + 3] := 0xC0, 0, 0, 0;
    }
  }

  predicate Fits(width: nat, v: nat) {
    if width == 1 then v < 0x80 else if width == 2 then v < 0x4000 else width == 4 && v < 0x2000_0000
  }

  /** Writes `v` in the given width, minimal or not; it fails exactly when the value does not fit. */
  method PutCompressed(a: array<byte>, off: nat, width: nat, v: nat) returns (ok: bool)
    requires (width == 1 || width == 2 || width == 4) && off + width <= a.Length
    modifies a
    ensures ok == Fits(width, v)
    ensures forall i :: 0 <= i < a.Length && !(ok && off <= i < off + width) ==> a[i] == old(a[i])
    ensures ok ==> CuAt(a[..], off) == Some((v, width))
  {
    if !Fits(width, v) {
      return false;
    }
    if width == 1 {
      a[off] := v;
    } else if width == 2 {
      Digits2(v);
      a[off], a[off + 1] := 0x80 + v / 0x100, v % 0x100;
    } else {
      var v1 := v / 0x100;
      var v2 := v1 / 0x100;
      var v3 := v2 / 0x100;
      Digits4(v, v1, v2, v3);
      a[off], a[off + 1], a[off + 2], a[off + 3] := 0xC0 + v3, v2 % 0x100, v1 % 0x100, v % 0x100;
    }
    return true;
  }

  lemma Digits2(v: nat)
    requires v < 0x4000
    ensures v / 0x100 < 0x40 && Value2(0x80 + v / 0x100, v % 0x100) == v
  {}

  /** A compressed integer determines its bytes. */
  lemma CuBytes(b: seq<byte>, c: seq<byte>, p: nat, v: nat, w: nat)
    requires CuAt(b, p) == Some((v, w)) && CuAt(c, p) == Some((v, w))
    ensures p + w <= |b| && p + w <= |c| && forall i :: p <= i < p + w ==> c[i] == b[i]
  {
    if w == 4 { Unique4(b[p], b[p + 1], b[p + 2], b[p + 3], c[p], c[p + 1], c[p + 2], c[p + 3]); }
  }

  lemma CuWidths(b: seq<byte>, p: nat, v: nat, w: nat)
    requires CuAt(b, p) == Some((v, w))
    ensures (w == 1 || w == 2 || w == 4) && Fits(w, v)
  {}

  /** Slots of a blob: compressed integers in order. */
  ghost predicate InOrder(b: seq<byte>, f: seq<Slot>) {
    && (forall k :: 0 <= k < |f| ==> SlotOk(b, f[k]))
    && (forall k, l :: 0 <= k < l < |f| ==> f[k].End() <= f[l].off)
  }

  predicate CoveredFrom(f: seq<Slot>, k: int, i: int) { exists j :: k <= j < |f| && j >= 0 && f[j].off <= i < f[j].End() }

  predicate CoveredTo(f: seq<Slot>, k: int, i: int) { exists j :: 0 <= j < k && j < |f| && f[j].off <= i < f[j].End() }

  /** Clears every slot of a blob, in place. */
  method MaskSlots(a: array<byte>, f: seq<Slot>)
    requires InOrder(a[..], f)
    modifies a
    ensures Masked(old(a[..]), a[..], f)
  {
    ghost var b := a[..];
    var k := 0;
    while k < |f|
      invariant 0 <= k <= |f|
      invariant forall i :: 0 <= i < a.Length && !CoveredTo(f, k, i) ==> a[i] == b[i]
      invariant forall j :: 0 <= j < k ==> CuAt(a[..], f[j].off) == Some((0, f[j].width))
    {
      CuWidths(b, f[k].off, f[k].val, f[k].width);
      ghost var was := a[..];
      MaskCompressed(a, f[k].off, f[k].width);
      forall j | 0 <= j < k ensures CuAt(a[..], f[j].off) == Some((0, f[j].width)) {
        CuKept(was, a[..], f[j].off, f[j].width);
      }
      k := k + 1;
    }
  }

  /** A compressed integer depends on its own bytes only. */
  lemma CuKept(b: seq<byte>, c: seq<byte>, p: nat, w: nat)
    requires |b| == |c| && CuAt(b, p).Some? && CuAt(b, p).value.1 == w && forall i :: p <= i < p + w ==> c[i] == b[i]
    ensures CuAt(c, p) == CuAt(b, p)
  {}

  lemma CoveredStep(f: seq<Slot>, k: nat, i: int)
    requires k < |f|
    ensures CoveredFrom(f, k, i) ==> f[k].off <= i < f[k].End() || CoveredFrom(f, k + 1, i)
  {}

  /** Writes the old values back over a masked blob: the original bytes, whatever the widths. */
  method RestoreSlots(a: array<byte>, f: seq<Slot>, ghost b: seq<byte>) returns (ok: bool)
    requires InOrder(b, f) && Masked(b, a[..], f)
    modifies a
    ensures ok && a[..] == b
  {
    var k := 0;
    while k < |f|
      invariant 0 <= k <= |f| && a.Length == |b|
      invariant forall i :: 0 <= i < a.Length && !CoveredFrom(f, k, i) ==> a[i] == b[i]
    {
      CuWidths(b, f[k].off, f[k].val, f[k].width);
      ok := PutCompressed(a, f[k].off, f[k].width, f[k].val);
      CuBytes(b, a[..], f[k].off, f[k].val, f[k].width);
      forall i | 0 <= i < a.Length && !CoveredFrom(f, k + 1, i) ensures a[i] == b[i] {
        CoveredStep(f, k, i);
      }
      k := k + 1;
    }
    ok := true;
  }

  // ---- the whole blob ----

  /** A strict parse finds real compressed integers, in order, inside the blob. */
  lemma ParsedInOrder(kind: Kind, b: seq<byte>, strict: bool)
    requires ParseSig(kind, b, strict).Some?
    ensures InOrder(b, ParseSig(kind, b, strict).value)
  {
    StepWalk(kind, b, strict);
  }

  ghost predicate SameShape(f: seq<Slot>, g: seq<Slot>) {
    |g| == |f| && forall k :: 0 <= k < |f| ==> g[k].off == f[k].off && g[k].width == f[k].width
  }

  /** Masked signatures keep their shape: the masked blob parses, values unchecked, to slots of the same offsets and widths. */
  lemma MaskedKeepsShape(kind: Kind, b: seq<byte>, c: seq<byte>)
    requires ParseSig(kind, b, true).Some? && Masked(b, c, ParseSig(kind, b, true).value)
    ensures ParseSig(kind, c, false).Some? && SameShape(ParseSig(kind, b, true).value, ParseSig(kind, c, false).value)
  {
    SimWalk(kind, b, c, ParseSig(kind, b, true).value);
  }

  /** Masks a blob, parses what is left, and restores it: same shape, then the original bytes. */
  method MaskParseRestore(kind: Kind, a: array<byte>) returns (slots: Option<seq<Slot>>, masked: seq<byte>, again: Option<seq<Slot>>)
    modifies a
    ensures a[..] == old(a[..])
    ensures slots == ParseSig(kind, old(a[..]), true)
    ensures slots.Some? ==> again.Some? && SameShape(slots.value, again.value) && Masked(old(a[..]), masked, slots.value)
  {
    ghost var b := a[..];
    slots := Parse(kind, a[..], true);
    masked, again := a[..], None;
    if slots.Some? {
      ParsedInOrder(kind, b, true);
      MaskSlots(a, slots.value);
      masked := a[..];
      again := Parse(kind, masked, false);
      MaskedKeepsShape(kind, b, masked);
      var ok := RestoreSlots(a, slots.value, b);
    }
  }
}
