/**
 Signature blobs (clrz3/sig.go; ECMA-335 section II.23.2): the walk over a blob as functions of
 the parser state, and the shape of that walk.
 */
module SigModel {
  import opened Bytes

  const MAX_DEPTH := 48
  const MAX_SLOTS := 0x1_0000

  /** An embedded type reference: where its compressed integer sits, how wide it is, what it holds. */
  datatype Slot = Slot(off: nat, width: nat, val: nat) {
    function End(): nat { off + width }
  }

  datatype St = St(p: nat, slots: seq<Slot>, bad: bool) {
    function Fail(): St { this.(bad := true) }

    function Skip(): St { this.(p := p + 1) }
  }

  // ---- single items ----

  function Value2(x: int, y: int): int { (x - 0x80) * 0x100 + y }

  function Value4(x: int, y: int, z: int, w: int): int { (x - 0xC0) * 0x100_0000 + y * 0x1_0000 + z * 0x100 + w }

  lemma Digits4(v: nat, v1: nat, v2: nat, v3: nat)
    requires v < 0x2000_0000 && v1 == v / 0x100 && v2 == v1 / 0x100 && v3 == v2 / 0x100
    ensures v3 < 0x20 && Value4(0xC0 + v3, v2 % 0x100, v1 % 0x100, v % 0x100) == v
  {}

  lemma Unique4(x: byte, y: byte, z: byte, w: byte, x': byte, y': byte, z': byte, w': byte)
    requires Value4(x, y, z, w) == Value4(x', y', z', w')
    ensures x == x' && y == y' && z == z' && w == w'
  {}

  /** The compressed unsigned integer at `p`: value and width. */
  function CuAt(b: seq<byte>, p: nat): (r: Option<(nat, nat)>)
    ensures r.Some? ==> 0 < r.value.1 <= 4 && p + r.value.1 <= |b|
  {
    if p >= |b| then None
    else if b[p] < 0x80 then Some((b[p], 1))
    else if b[p] < 0xC0 then
      if p + 2 > |b| then None else Some((Value2(b[p], b[p + 1]), 2))
    else if b[p] < 0xE0 then
      if p + 4 > |b| then None
      else Some((Value4(b[p], b[p + 1], b[p + 2], b[p + 3]), 4))
    else None
  }

  function Cu(b: seq<byte>, s: St): (r: St)
    ensures s.bad ==> r.bad
    ensures !r.bad ==> r.p > s.p
  {
    if s.bad || CuAt(b, s.p).None? then s.Fail() else s.(p := s.p + CuAt(b, s.p).value.1)
  }

  /** A count must be plausible for the bytes that remain. */
  function CountValue(b: seq<byte>, s: St): nat {
    if s.bad || CuAt(b, s.p).None? then 0
    else if CuAt(b, s.p).value.0 > |b| - (s.p + CuAt(b, s.p).value.1) then 0
    else CuAt(b, s.p).value.0
  }

  function Count(b: seq<byte>, s: St): (r: St)
    ensures s.bad ==> r.bad
    ensures !r.bad ==> r.p > s.p
  {
    var c := Cu(b, s);
    if c.bad || CuAt(b, s.p).value.0 > |b| - c.p then s.Fail() else c
  }

  /** A coded value is plausible: a known tag and a non-zero row. */
  predicate Plausible(v: nat) { v % 4 != 3 && v >= 4 }

  function TypeRef(b: seq<byte>, strict: bool, s: St): (r: St)
    ensures s.bad ==> r.bad
    ensures !r.bad ==> r.p > s.p
  {
    var c := Cu(b, s);
    if c.bad || (strict && !Plausible(CuAt(b, s.p).value.0)) || |s.slots| >= MAX_SLOTS then s.Fail()
    else c.(slots := s.slots + [Slot(s.p, CuAt(b, s.p).value.1, CuAt(b, s.p).value.0)])
  }

  /** The byte at the cursor, or 0xff where there is none. */
  function Peek(b: seq<byte>, s: St): byte { if s.bad || s.p >= |b| then 0xff else b[s.p] }

  function ByteValue(b: seq<byte>, s: St): byte { if s.bad || s.p >= |b| then 0 else b[s.p] }

  function Byte(b: seq<byte>, s: St): (r: St)
    ensures s.bad ==> r.bad
    ensures !r.bad ==> r.p == s.p + 1 && r.slots == s.slots && s.p < |b|
  {
    if s.bad || s.p >= |b| then s.Fail() else s.Skip()
  }

  predicate IsMod(c: byte) { c == 0x1f || c == 0x20 }

  function Mods(b: seq<byte>, strict: bool, s: St): (r: St)
    ensures s.bad ==> r.bad
    ensures !r.bad ==> r.p >= s.p
    decreases |b| - s.p, if s.bad then 0 else 1
  {
    if s.bad || !IsMod(Peek(b, s)) then s
    else
      var m := TypeRef(b, strict, s.Skip());
      if m.bad then m else Mods(b, strict, m)
  }

  /** `n` times the same step, until one fails. */
  function Iterate(step: St -> St, n: nat, s: St): (r: St)
    ensures s.bad ==> r.bad
    decreases n
  {
    if n == 0 || s.bad then s else Iterate(step, n - 1, step(s))
  }

  function CuStep(b: seq<byte>): St -> St { (x: St) => Cu(b, x) }

  function Cus(b: seq<byte>, n: nat, s: St): (r: St)
    ensures s.bad ==> r.bad
  {
    Iterate(CuStep(b), n, s)
  }

  // ---- types and methods ----

  predicate Simple(e: byte) { 0x02 <= e <= 0x0e || e == 0x16 || e == 0x18 || e == 0x19 || e == 0x1c }

  /** A type, entered at depth `d`. */
  function Typ(b: seq<byte>, strict: bool, d: nat, s: St): (r: St)
    ensures s.bad ==> r.bad
    decreases MAX_DEPTH - d, 4, 0
  {
    if s.bad then s
    else if d >= MAX_DEPTH then s.Fail()
    else Elem(b, strict, d + 1, ByteValue(b, s), Byte(b, s))
  }

  /** What follows an element type code. */
  function Elem(b: seq<byte>, strict: bool, d: nat, e: byte, s: St): (r: St)
    requires 0 < d <= MAX_DEPTH
    ensures s.bad ==> r.bad
    decreases MAX_DEPTH - d, 5, 0
  {
    if Simple(e) then s
    else if e == 0x0f then Pointer(b, strict, d, Mods(b, strict, s))
    else if e == 0x10 then Typ(b, strict, d, s)
    else if e == 0x11 || e == 0x12 then TypeRef(b, strict, s)
    else if e == 0x13 || e == 0x1e then Cu(b, s)
    else if e == 0x14 then Shape(b, Cu(b, Typ(b, strict, d, s)))
    else if e == 0x15 then
      if ByteValue(b, s) != 0x11 && ByteValue(b, s) != 0x12 then s.Fail()
      else Arguments(b, strict, d, TypeRef(b, strict, Byte(b, s)))
    else if e == 0x1b then Method(b, strict, d, s)
    else if e == 0x1d then Typ(b, strict, d, Mods(b, strict, s))
    else s.Fail()
  }

  function Pointer(b: seq<byte>, strict: bool, d: nat, s: St): (r: St)
    requires d <= MAX_DEPTH
    ensures s.bad ==> r.bad
    decreases MAX_DEPTH - d, 4, 1
  {
    if Peek(b, s) == 0x01 then s.Skip() else Typ(b, strict, d, s)
  }

  /** The sizes and lower bounds of an array. */
  function Shape(b: seq<byte>, s: St): (r: St)
    ensures s.bad ==> r.bad
  {
    var m := Cus(b, CountValue(b, s), Count(b, s));
    Cus(b, CountValue(b, m), Count(b, m))
  }

  /** The arguments of a generic instance: at least one. */
  function Arguments(b: seq<byte>, strict: bool, d: nat, s: St): (r: St)
    requires d <= MAX_DEPTH
    ensures s.bad ==> r.bad
    decreases MAX_DEPTH - d, 4, 3
  {
    if CountValue(b, s) == 0 then s.Fail() else Types(b, strict, d, CountValue(b, s), Count(b, s))
  }

  function TypStep(b: seq<byte>, strict: bool, d: nat): St -> St
    requires d <= MAX_DEPTH
    decreases MAX_DEPTH - d, 4, 1
  {
    (x: St) => Typ(b, strict, d, x)
  }

  function Types(b: seq<byte>, strict: bool, d: nat, n: nat, s: St): (r: St)
    requires d <= MAX_DEPTH
    ensures s.bad ==> r.bad
    decreases MAX_DEPTH - d, 4, 2
  {
    Iterate(TypStep(b, strict, d), n, s)
  }

  function Param(b: seq<byte>, strict: bool, d: nat, ret: bool, s: St): (r: St)
    requires d <= MAX_DEPTH
    ensures s.bad ==> r.bad
    decreases MAX_DEPTH - d, 4, 1
  {
    var m := Mods(b, strict, s);
    var c := Peek(b, m);
    if c == 0x10 then Typ(b, strict, d, m.Skip())
    else if c == 0x16 then m.Skip()
    else if c == 0x01 then (if ret then m.Skip() else m.Fail())
    else Typ(b, strict, d, m)
  }

  function PastSentinel(b: seq<byte>, s: St): St { if Peek(b, s) == 0x41 then s.Skip() else s }

  function NextParam(b: seq<byte>, strict: bool, d: nat, s: St): (r: St)
    requires d <= MAX_DEPTH
    ensures s.bad ==> r.bad
    decreases MAX_DEPTH - d, 4, 3
  {
    Param(b, strict, d, false, PastSentinel(b, s))
  }

  function ParamStep(b: seq<byte>, strict: bool, d: nat): St -> St
    requires d <= MAX_DEPTH
    decreases MAX_DEPTH - d, 4, 4
  {
    (x: St) => NextParam(b, strict, d, x)
  }

  function Params(b: seq<byte>, strict: bool, d: nat, n: nat, s: St): (r: St)
    requires d <= MAX_DEPTH
    ensures s.bad ==> r.bad
    decreases MAX_DEPTH - d, 4, 5
  {
    Iterate(ParamStep(b, strict, d), n, s)
  }

  /** The calling convention and, for a generic method, the number of its parameters. */
  function Convention(b: seq<byte>, s: St): (r: St)
    ensures s.bad ==> r.bad
    ensures !r.bad ==> r.p > s.p
  {
    if (ByteValue(b, s) / 16) % 2 == 1 then Cu(b, Byte(b, s)) else Byte(b, s)
  }

  /** A method signature, entered at depth `d`. */
  function Method(b: seq<byte>, strict: bool, d: nat, s: St): (r: St)
    ensures s.bad ==> r.bad
    decreases MAX_DEPTH - d, 4, 0
  {
    if d >= MAX_DEPTH || ByteValue(b, s) % 16 > 5 then s.Fail()
    else Signature(b, strict, d + 1, Convention(b, s))
  }

  /** The count, return type and parameters of a method. */
  function Signature(b: seq<byte>, strict: bool, d: nat, s: St): (r: St)
    requires d <= MAX_DEPTH
    ensures s.bad ==> r.bad
    decreases MAX_DEPTH - d, 5, 0
  {
    Params(b, strict, d, CountValue(b, s), Param(b, strict, d, true, Count(b, s)))
  }

  // ---- the blob kinds ----

  datatype Kind = MethodBlob | FieldBlob | LocalBlob | PropBlob | TypeBlob | InstBlob | Opaque

  /** Modifiers and pinned markers before a local variable's type. */
  function LocalMods(b: seq<byte>, strict: bool, s: St): (r: St)
    ensures s.bad ==> r.bad
    ensures !r.bad ==> r.p >= s.p
    decreases |b| - s.p, if s.bad then 0 else 1
  {
    if s.bad then s
    else if IsMod(Peek(b, s)) then
      var m := TypeRef(b, strict, s.Skip());
      if m.bad then m else LocalMods(b, strict, m)
    else if Peek(b, s) == 0x45 then LocalMods(b, strict, s.Skip())
    else s
  }

  function Local(b: seq<byte>, strict: bool, d: nat, s: St): (r: St)
    requires d <= MAX_DEPTH
    ensures s.bad ==> r.bad
  {
    var m := LocalMods(b, strict, s);
    var q := if Peek(b, m) == 0x10 then m.Skip() else m;
    if Peek(b, q) == 0x16 then q.Skip() else Typ(b, strict, d, q)
  }

  function LocalStep(b: seq<byte>, strict: bool, d: nat): St -> St
    requires d <= MAX_DEPTH
  {
    (x: St) => Local(b, strict, d, x)
  }

  function Locals(b: seq<byte>, strict: bool, d: nat, n: nat, s: St): (r: St)
    requires d <= MAX_DEPTH
    ensures s.bad ==> r.bad
  {
    Iterate(LocalStep(b, strict, d), n, s)
  }

  /** The parameters of a property: no sentinel. */
  function PropParam(b: seq<byte>, strict: bool, d: nat, s: St): (r: St)
    requires d <= MAX_DEPTH
    ensures s.bad ==> r.bad
  {
    Param(b, strict, d, false, s)
  }

  function PropParamStep(b: seq<byte>, strict: bool, d: nat): St -> St
    requires d <= MAX_DEPTH
  {
    (x: St) => PropParam(b, strict, d, x)
  }

  function PropParams(b: seq<byte>, strict: bool, d: nat, n: nat, s: St): (r: St)
    requires d <= MAX_DEPTH
    ensures s.bad ==> r.bad
  {
    Iterate(PropParamStep(b, strict, d), n, s)
  }

  /** The state after walking a blob of the given kind. */
  function Walk(kind: Kind, b: seq<byte>, strict: bool): (r: St) {
    var s := St(0, [], false);
    var e, m := ByteValue(b, s), Byte(b, s);
    match kind
    case MethodBlob => Method(b, strict, 0, s)
    case FieldBlob => if e != 0x06 then s.Fail() else Typ(b, strict, 0, Mods(b, strict, m))
    case LocalBlob => if e != 0x07 then s.Fail() else Locals(b, strict, 0, CountValue(b, m), Count(b, m))
    case PropBlob =>
      if e % 16 != 0x08 then s.Fail()
      else PropParams(b, strict, 0, CountValue(b, m), Param(b, strict, 0, false, Count(b, m)))
    case TypeBlob => Typ(b, strict, 0, s)
    case InstBlob =>
      if e != 0x0a || CountValue(b, m) == 0 then s.Fail() else Types(b, strict, 0, CountValue(b, m), Count(b, m))
    case Opaque => s.Fail()
  }

  /** The embedded type references, when the blob is exactly one signature of the kind. */
  function ParseSig(kind: Kind, b: seq<byte>, strict: bool): Option<seq<Slot>> {
    var r := Walk(kind, b, strict);
    if r.bad || r.p != |b| then None else Some(r.slots)
  }
}
