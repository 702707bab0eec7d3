/**
 The LLVM bitstream grammar (bitcodez3/parse.go; LLVM Bitcode File Format): each reader step as a
 function of the reader's state.
 */
module BitcodeModel {
  import opened Bytes
  import opened BitcodeBits

  const MAX_SOURCE := 0x800_0000
  const MAX_RECORDS := 2_000_000
  const MAX_VALUES := 8_000_000
  const MAX_BLOB := 0x100_0000
  const MAX_BLOCKS := 262_144
  const MAX_DEPTH := 32
  const TOP := B64 - 1

  datatype Operand = Operand(literal: bool, value: nat, encoding: nat, width: nat)

  /** An array is followed by its element type, a scalar. */
  predicate ArraysOk(a: seq<Operand>) {
    forall i :: 0 <= i < |a| && a[i].encoding == 3 ==> i + 1 < |a| && Scalar(a[i + 1])
  }

  predicate Scalar(o: Operand) { !o.literal && o.encoding != 3 && o.encoding != 5 }

  type Abbrev = a: seq<Operand> | ArraysOk(a)

  /** A record: its values are the operand digest's input, code first. */
  datatype Record = Record(block: nat, code: nat, abbrev: nat, start: nat, end: nat, values: nat, operands: seq<nat>)

  datatype Block = Block(id: nat, start: nat, body: nat, end: nat, width: nat, records: nat)

  datatype St = St(p: nat, bad: bool, values: nat, abbrevs: nat, operands: nat,
                   info: map<nat, seq<Abbrev>>, blocks: seq<Block>, records: seq<Record>) {
    function Fail(): St { this.(bad := true) }
  }

  /** The end of the region being read lies inside the data. */
  predicate Inside(d: seq<byte>, end: nat) { end <= 8 * |d| }

  // ---- fields ----

  predicate CanRead(end: nat, n: nat, s: St) { !s.bad && n <= 64 && s.p + n <= end }

  function Bits(d: seq<byte>, end: nat, n: nat, s: St): St
    requires Inside(d, end)
  {
    if CanRead(end, n, s) then s.(p := s.p + n) else s.Fail()
  }

  function BitsValue(d: seq<byte>, end: nat, n: nat, s: St): nat
    requires Inside(d, end)
  {
    if CanRead(end, n, s) then Field(d, s.p, n) else 0
  }

  /** What follows one chunk of a variable-width integer whose digits start at bit `shift`. */
  predicate ChunkOk(d: seq<byte>, end: nat, n: nat, shift: nat, s: St)
    requires Inside(d, end) && n >= 2
  {
    CanRead(end, n, s) && shift < 64 && Low(BitsValue(d, end, n, s), n - 1) < Pow2(64 - shift)
  }

  predicate LastChunk(d: seq<byte>, end: nat, n: nat, s: St)
    requires Inside(d, end) && n >= 2
  {
    Shr(BitsValue(d, end, n, s), n - 1) == 0
  }

  function Chunks(d: seq<byte>, end: nat, n: nat, shift: nat, s: St): (r: St)
    requires Inside(d, end) && n >= 2
    ensures s.bad ==> r.bad
    ensures !r.bad ==> r == s.(p := r.p) && s.p < r.p <= end
    decreases 64 - shift
  {
    if !ChunkOk(d, end, n, shift, s) then s.Fail()
    else if LastChunk(d, end, n, s) then Bits(d, end, n, s)
    else Chunks(d, end, n, shift + n - 1, Bits(d, end, n, s))
  }

  function ChunksValue(d: seq<byte>, end: nat, n: nat, shift: nat, s: St): nat
    requires Inside(d, end) && n >= 2
    decreases 64 - shift
  {
    if !ChunkOk(d, end, n, shift, s) then 0
    else if LastChunk(d, end, n, s) then Low(BitsValue(d, end, n, s), n - 1)
    else Low(BitsValue(d, end, n, s), n - 1) + Shl(ChunksValue(d, end, n, shift + n - 1, Bits(d, end, n, s)), n - 1)
  }

  /** A variable-width integer in chunks of `n` bits. */
  function Vbr(d: seq<byte>, end: nat, n: nat, s: St): (r: St)
    requires Inside(d, end)
    ensures s.bad ==> r.bad
    ensures !r.bad ==> r == s.(p := r.p) && s.p < r.p <= end
  {
    if 2 <= n <= 32 then Chunks(d, end, n, 0, s) else s.Fail()
  }

  function VbrValue(d: seq<byte>, end: nat, n: nat, s: St): nat
    requires Inside(d, end)
  {
    if 2 <= n <= 32 then ChunksValue(d, end, n, 0, s) else 0
  }

  function Gap(p: nat): nat { (32 - p % 32) % 32 }

  /** To the next 32-bit boundary, over zero bits. */
  function Align(d: seq<byte>, end: nat, s: St): (r: St)
    requires Inside(d, end)
    ensures s.bad ==> r.bad
    ensures !r.bad ==> r == s.(p := r.p) && s.p <= r.p <= end
  {
    if BitsValue(d, end, Gap(s.p), s) != 0 then s.Fail() else Bits(d, end, Gap(s.p), s)
  }

  // ---- abbreviation definitions ----

  /** The `i`-th of the `n` operands of a definition. */
  function OperandAt(d: seq<byte>, end: nat, s: St): Operand
    requires Inside(d, end)
  {
    var t := Bits(d, end, 1, s);
    if BitsValue(d, end, 1, s) != 0 then Operand(true, VbrValue(d, end, 8, t), 0, 0)
    else
      var e, u := BitsValue(d, end, 3, t), Bits(d, end, 3, t);
      Operand(false, 0, e, if e == 1 || e == 2 then VbrValue(d, end, 5, u) else 0)
  }

  function AfterOperand(d: seq<byte>, end: nat, n: nat, i: nat, s: St): (r: St)
    requires Inside(d, end)
    ensures s.bad ==> r.bad
    ensures !r.bad ==> r == s.(p := r.p) && s.p < r.p <= end
  {
    var t := Bits(d, end, 1, s);
    if t.bad then t
    else if BitsValue(d, end, 1, s) != 0 then Vbr(d, end, 8, t)
    else
      var e, u := BitsValue(d, end, 3, t), Bits(d, end, 3, t);
      if u.bad then u
      else if e == 1 || e == 2 then
        var w := VbrValue(d, end, 5, u);
        if w > 32 || (e == 2 && w < 2) then u.Fail() else Vbr(d, end, 5, u)
      else if e == 3 then (if i + 2 != n then u.Fail() else u)
      else if e == 4 then u
      else if e == 5 then (if i + 1 != n then u.Fail() else u)
      else u.Fail()
  }

  datatype Def = Def(s: St, a: seq<Operand>)

  /** The operands from the `|a|`-th on. */
  function Operands(d: seq<byte>, end: nat, n: nat, a: seq<Operand>, s: St): (r: Def)
    requires Inside(d, end)
    ensures s.bad ==> r.s.bad
    ensures !r.s.bad ==> r.s == s.(p := r.s.p) && s.p <= r.s.p && (s.p <= end ==> r.s.p <= end)
    decreases n - |a|
  {
    if s.bad || |a| >= n then Def(s, a)
    else Operands(d, end, n, a + [OperandAt(d, end, s)], AfterOperand(d, end, n, |a|, s))
  }

  /** An abbreviation definition: between 1 and 256 operands, within the limits on definitions. */
  function Definition(d: seq<byte>, end: nat, s: St): (r: Def)
    requires Inside(d, end)
    ensures s.bad ==> r.s.bad
    ensures !r.s.bad ==> ArraysOk(r.a) && s.p < r.s.p <= end
    ensures !r.s.bad ==> r.s == s.(p := r.s.p, abbrevs := r.s.abbrevs, operands := r.s.operands)
  {
    var t := Opened(d, end, s);
    if t.bad then Def(t, []) else Close(Operands(d, end, VbrValue(d, end, 5, s), [], t))
  }

  /** The operand count of a definition, within its limits. */
  function Opened(d: seq<byte>, end: nat, s: St): (r: St)
    requires Inside(d, end)
    ensures s.bad ==> r.bad
    ensures !r.bad ==> r == s.(p := r.p, operands := r.operands) && s.p < r.p <= end
  {
    var n, t := VbrValue(d, end, 5, s), Vbr(d, end, 5, s);
    if t.bad || n == 0 || n > 256 || t.operands + n > 0x10_0000 then s.Fail()
    else t.(operands := t.operands + n)
  }

  /** The checks that end a definition. */
  function Close(f: Def): (r: Def)
    ensures f.s.bad ==> r.s.bad
    ensures !r.s.bad ==> ArraysOk(r.a) && r.s == f.s.(abbrevs := r.s.abbrevs)
  {
    if f.s.bad || !ArraysOk(f.a) || f.s.abbrevs + 1 > 65536 then Def(f.s.Fail(), [])
    else f.(s := f.s.(abbrevs := f.s.abbrevs + 1))
  }

  // ---- records ----

  const VBR6 := Operand(false, 0, 2, 6)
  const BYTE := Operand(false, 0, 1, 8)

  function Char6(x: nat): nat {
    if x < 26 then x + 97 else if x < 52 then x - 26 + 65 else if x < 62 then x - 52 + 48
    else if x == 62 then 46 else 95
  }

  function Value(d: seq<byte>, end: nat, o: Operand, s: St): nat
    requires Inside(d, end)
  {
    if o.literal then o.value
    else if o.encoding == 1 then BitsValue(d, end, o.width, s)
    else if o.encoding == 2 then VbrValue(d, end, o.width, s)
    else Char6(BitsValue(d, end, 6, s))
  }

  function AfterValue(d: seq<byte>, end: nat, o: Operand, s: St): (r: St)
    requires Inside(d, end)
    ensures s.bad ==> r.bad
    ensures !r.bad ==> r == s.(p := r.p) && s.p <= r.p && (s.p <= end ==> r.p <= end)
  {
    if o.literal then s
    else if o.encoding == 1 then Bits(d, end, o.width, s)
    else if o.encoding == 2 then Vbr(d, end, o.width, s)
    else if o.encoding == 4 then Bits(d, end, 6, s)
    else s.Fail()
  }

  /** How many values the whole file may hold. */
  function Limit(d: seq<byte>): nat { if 32 * |d| < MAX_VALUES then 32 * |d| else MAX_VALUES }

  function Left(d: seq<byte>, s: St): nat { if s.values < Limit(d) then Limit(d) - s.values else 0 }

  datatype Rec = Rec(s: St, vs: seq<nat>)

  /** Only the position and the number of values move, and the position stays in range. */
  predicate Read(end: nat, s: St, r: St) {
    r == s.(p := r.p, values := r.values) && s.p <= r.p && (s.p <= end ==> r.p <= end)
  }

  /** `n` values of one type, each added to the record. */
  function Adds(d: seq<byte>, end: nat, o: Operand, n: nat, r: Rec): (q: Rec)
    requires Inside(d, end)
    ensures r.s.bad ==> q.s.bad
    ensures !q.s.bad ==> Read(end, r.s, q.s)
    decreases n
  {
    if n == 0 || r.s.bad then r else Adds(d, end, o, n - 1, AddOne(d, end, o, r))
  }

  function AddOne(d: seq<byte>, end: nat, o: Operand, r: Rec): (q: Rec)
    requires Inside(d, end)
    ensures r.s.bad ==> q.s.bad
    ensures !q.s.bad ==> Read(end, r.s, q.s)
  {
    var t := AfterValue(d, end, o, r.s);
    if t.bad || t.values + 1 > Limit(d) then Rec(r.s.Fail(), [])
    else Rec(t.(values := t.values + 1), r.vs + [Value(d, end, o, r.s)])
  }

  /** A count, then that many values: a plain record's operands or an array. */
  function Array(d: seq<byte>, end: nat, o: Operand, r: Rec): (q: Rec)
    requires Inside(d, end)
    ensures r.s.bad ==> q.s.bad
    ensures !q.s.bad ==> Read(end, r.s, q.s)
  {
    var n, t := VbrValue(d, end, 6, r.s), Vbr(d, end, 6, r.s);
    if t.bad || n > Left(d, t) then Rec(r.s.Fail(), []) else Adds(d, end, o, n, Rec(t, r.vs))
  }

  /** A count, then that many bytes between 32-bit boundaries. */
  function Blob(d: seq<byte>, end: nat, r: Rec): (q: Rec)
    requires Inside(d, end)
    ensures r.s.bad ==> q.s.bad
    ensures !q.s.bad ==> Read(end, r.s, q.s)
  {
    var n, t := VbrValue(d, end, 6, r.s), Align(d, end, Vbr(d, end, 6, r.s));
    if t.bad || n > Left(d, t) || n > MAX_BLOB || n > (end - t.p) / 8 then Rec(r.s.Fail(), [])
    else
      var q := Adds(d, end, BYTE, n, Rec(t, r.vs));
      Rec(Align(d, end, q.s), q.vs)
  }

  /** The operands of an abbreviation, from the `i`-th on. */
  function Fields(d: seq<byte>, end: nat, a: Abbrev, i: nat, r: Rec): (q: Rec)
    requires Inside(d, end)
    ensures r.s.bad ==> q.s.bad
    ensures !q.s.bad ==> Read(end, r.s, q.s)
    decreases |a| - i
  {
    if r.s.bad || i >= |a| then r
    else Fields(d, end, a, i + FieldWidth(a[i]), FieldStep(d, end, a, i, r))
  }

  /** An array takes the next operand for its elements. */
  function FieldWidth(o: Operand): (n: nat)
    ensures n > 0
  {
    if o.encoding == 3 then 2 else 1
  }

  function FieldStep(d: seq<byte>, end: nat, a: Abbrev, i: nat, r: Rec): (q: Rec)
    requires Inside(d, end) && i < |a|
    ensures r.s.bad ==> q.s.bad
    ensures !q.s.bad ==> Read(end, r.s, q.s)
  {
    if a[i].encoding == 3 then Array(d, end, a[i + 1], r)
    else if a[i].encoding == 5 then Blob(d, end, r)
    else AddOne(d, end, a[i], r)
  }

  /** A record's values: through an abbreviation, or plain. A record without a code is no record. */
  function RecordAt(d: seq<byte>, end: nat, plain: bool, a: Abbrev, s: St): (q: Rec)
    requires Inside(d, end)
    ensures s.bad ==> q.s.bad
    ensures !q.s.bad ==> Read(end, s, q.s) && |q.vs| > 0
  {
    var q := if plain then Array(d, end, VBR6, AddOne(d, end, VBR6, Rec(s, []))) else Fields(d, end, a, 0, Rec(s, []));
    if q.s.bad || |q.vs| == 0 then Rec(s.Fail(), []) else q
  }

  // ---- blocks ----

  /** The block being read. */
  datatype Frame = Frame(id: nat, width: nat, end: nat, depth: nat, top: bool)

  predicate FrameOk(d: seq<byte>, f: Frame) { Inside(d, f.end) && 2 <= f.width <= 32 }

  /** What is local to a block: its abbreviations, and the block a BLOCKINFO record has named. */
  datatype Scope = Scope(abbrevs: seq<Abbrev>, target: Option<nat>)

  datatype Next = Done(s: St) | More(sc: Scope, s: St)

  /** A sub-block's identifier, width and extent, after its abbreviation code. */
  datatype Head = Head(s: St, id: nat, width: nat, finish: nat)

  function HeadAt(d: seq<byte>, end: nat, s: St): (h: Head)
    requires Inside(d, end)
    ensures s.bad ==> h.s.bad
    ensures !h.s.bad ==>
      && h.s == s.(p := h.s.p) && s.p < h.s.p <= h.finish <= end
      && 2 <= h.width <= 32
  {
    var t := Vbr(d, end, 8, s);
    var v := Vbr(d, end, 4, t);
    var u := Align(d, end, v);
    Extent(d, end, VbrValue(d, end, 8, s), VbrValue(d, end, 4, t), u)
  }

  function Extent(d: seq<byte>, end: nat, id: nat, w: nat, u: St): (h: Head)
    requires Inside(d, end)
    ensures u.bad ==> h.s.bad
    ensures !h.s.bad ==>
      && h.s == u.(p := h.s.p) && h.s.p == u.p + 32 && h.s.p <= h.finish <= end
      && 2 <= h.width <= 32 && (h.finish - h.s.p) % 32 == 0
  {
    var words, body := BitsValue(d, end, 32, u), Bits(d, end, 32, u);
    if body.bad || words > (end - body.p) / 32 || w < 2 || w > 32 then Head(u.Fail(), 0, 0, 0)
    else
      Words(words, end - body.p);
      Head(body, id, w, body.p + 32 * words)
  }

  lemma Words(n: nat, left: nat)
    requires n <= left / 32
    ensures 32 * n <= left && (32 * n) % 32 == 0
  {}

  /** A whole sub-block that starts at bit `start`; its header has been read up to `h.s.p`. */
  function SubBlock(d: seq<byte>, f: Frame, start: nat, h: Head): (r: St)
    requires FrameOk(d, f) && h.s.p <= h.finish <= f.end && 2 <= h.width <= 32
    ensures h.s.bad ==> r.bad
    ensures !r.bad ==> r.p == h.finish && |r.blocks| > |h.s.blocks| && |r.records| >= |h.s.records|
    decreases h.finish - h.s.p, 3
  {
    var t := h.s.(blocks := h.s.blocks + [Block(h.id, start, h.s.p, h.finish, h.width, 0)]);
    var r := BlockAt(d, Frame(h.id, h.width, h.finish, f.depth + 1, false), t);
    if r.bad || r.p != h.finish then r.Fail()
    else r.(blocks := Counted(r.blocks, |h.s.blocks|, |r.records| - |h.s.records|))
  }

  function Counted(bs: seq<Block>, k: nat, n: nat): seq<Block>
    requires k < |bs|
  {
    bs[k := bs[k].(records := n)]
  }

  /** Where a definition goes: to the block a BLOCKINFO record named, or to the current block. */
  function Defined(f: Frame, sc: Scope, g: Def): (r: Next)
    ensures g.s.bad ==> r.s.bad
    ensures !r.s.bad ==> r.More? && r.s == g.s.(info := r.s.info)
  {
    if g.s.bad then Done(g.s)
    else if f.id == 0 && !f.top then
      if sc.target.None? || !ArraysOk(g.a) then Done(g.s.Fail())
      else More(sc, g.s.(info := g.s.info[sc.target.value := Known(g.s, sc.target.value) + [g.a]]))
    else if |sc.abbrevs| + 1 > 4096 || !ArraysOk(g.a) then Done(g.s.Fail())
    else More(sc.(abbrevs := sc.abbrevs + [g.a]), g.s)
  }

  /** The abbreviations BLOCKINFO has given a block. */
  function Known(s: St, id: nat): seq<Abbrev> { if id in s.info then s.info[id] else [] }

  /** One record more, of the given block and extent. */
  predicate OneMore(rs: seq<Record>, qs: seq<Record>, id: nat, start: nat, end: nat) {
    && |qs| == |rs| + 1 && qs[..|rs|] == rs
    && qs[|rs|].block == id && qs[|rs|].start == start && qs[|rs|].end == end
  }

  function RecordItem(d: seq<byte>, f: Frame, sc: Scope, start: nat, code: nat, t: St): (r: Next)
    requires FrameOk(d, f)
    ensures t.bad ==> r.s.bad
    ensures !r.s.bad ==>
      && r.More? && t.p <= r.s.p && (t.p <= f.end ==> r.s.p <= f.end) && r.s.blocks == t.blocks
      && OneMore(t.records, r.s.records, f.id, start, r.s.p)
  {
    if code > 3 && code - 4 >= |sc.abbrevs| then Done(t.Fail())
    else
      var q := RecordAt(d, f.end, code == 3, if code > 3 then sc.abbrevs[code - 4] else [], t);
      if q.s.bad then Done(q.s) else Kept(f, sc, start, code, q)
  }

  /** A record joins the plan; in BLOCKINFO, SETBID names the block that definitions are for. */
  function Kept(f: Frame, sc: Scope, start: nat, code: nat, q: Rec): (r: Next)
    requires !q.s.bad && |q.vs| > 0
    ensures !r.s.bad ==>
      && r.More? && r.s == q.s.(records := r.s.records)
      && OneMore(q.s.records, r.s.records, f.id, start, q.s.p)
  {
    var u := q.s.(records := q.s.records + [Record(f.id, q.vs[0], code, start, q.s.p, |q.vs| - 1, q.vs)]);
    if |q.s.records| >= MAX_RECORDS then Done(q.s.Fail())
    else if f.id != 0 || q.vs[0] != 1 then More(sc, u)
    else if |q.vs| != 2 then Done(u.Fail())
    else More(sc.(target := Some(q.vs[1])), u)
  }

  /** The end of a block: alignment, exactly at the block's end. */
  function EndBlock(d: seq<byte>, f: Frame, t: St): (r: St)
    requires FrameOk(d, f)
    ensures t.bad ==> r.bad
    ensures !r.bad ==> r == t.(p := f.end) && t.p <= f.end
  {
    var r := Align(d, f.end, t);
    if f.top || r.bad || r.p != f.end then t.Fail() else r
  }

  /** One item of a block: an abbreviation code and what it announces. */
  function Item(d: seq<byte>, f: Frame, sc: Scope, s: St): (r: Next)
    requires FrameOk(d, f) && s.p < f.end
    ensures s.bad ==> r.s.bad
    ensures !r.s.bad ==> s.p < r.s.p <= f.end && |r.s.blocks| >= |s.blocks| && |r.s.records| >= |s.records|
    decreases f.end - s.p, 0
  {
    var code, t := BitsValue(d, f.end, f.width, s), Bits(d, f.end, f.width, s);
    if t.bad then Done(t)
    else if code == 0 then Done(EndBlock(d, f, t))
    else if code == 1 then
      var h := HeadAt(d, f.end, t);
      if h.s.bad then Done(h.s) else More(sc, SubBlock(d, f, s.p, h))
    else if code == 2 then Defined(f, sc, Definition(d, f.end, t))
    else RecordItem(d, f, sc, s.p, code, t)
  }

  /** The items of a block from `s` on; only the top level may end without an end marker. */
  function Items(d: seq<byte>, f: Frame, sc: Scope, s: St): (r: St)
    requires FrameOk(d, f)
    ensures s.bad ==> r.bad
    ensures !r.bad ==> s.p <= r.p && |r.blocks| >= |s.blocks| && |r.records| >= |s.records|
    decreases f.end - s.p, 1
  {
    if s.bad || s.p >= f.end then (if f.top then s else s.Fail())
    else
      var x := Item(d, f, sc, s);
      if x.Done? || x.s.bad then x.s else Items(d, f, x.sc, x.s)
  }

  /** A block: its nesting, width and the number of blocks are limited. */
  function BlockAt(d: seq<byte>, f: Frame, s: St): (r: St)
    requires FrameOk(d, f)
    ensures s.bad ==> r.bad
    ensures !r.bad ==> s.p <= r.p && |r.blocks| >= |s.blocks| && |r.records| >= |s.records|
    decreases f.end - s.p, 2
  {
    if f.depth > MAX_DEPTH || |s.blocks| > MAX_BLOCKS then s.Fail()
    else Items(d, f, Scope(Known(s, f.id), None), s)
  }

  /** The envelope: magic bytes and whole words. */
  predicate Envelope(d: seq<byte>) {
    8 <= |d| <= MAX_SOURCE && |d| % 4 == 0 && d[0] == 0x42 && d[1] == 0x43 && d[2] == 0xC0 && d[3] == 0xDE
  }

  function Start(): St { St(32, false, 0, 0, 0, map[], [], []) }

  datatype Plan = Plan(blocks: seq<Block>, records: seq<Record>, abbrevs: nat)

  function ParsePlan(d: seq<byte>): Option<Plan> {
    if !Envelope(d) then None
    else
      var r := BlockAt(d, Frame(TOP, 2, 8 * |d|, 0, true), Start());
      if r.bad then None else Some(Plan(r.blocks, r.records, r.abbrevs))
  }
}
