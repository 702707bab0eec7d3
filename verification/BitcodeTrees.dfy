/** What the reader of LLVM bitstreams accepts is a written tree: with `BitcodeReads`, it accepts exactly those. */
module BitcodeTrees {
  import opened Bytes
  import opened BitcodeBits
  import opened BitcodeModel
  import opened BitcodeWriter
  import opened BitcodeReads

  // ---- tokens ----

  /** The tokens stand at the cursor of `s`, and the reader has gone to their end. */
  predicate Passed(d: seq<byte>, s: St, ks: Tokens, p: nat) { HoldsAt(d, s.p, ks) && EndOf(s.p, ks) == p }

  lemma PassedThen(d: seq<byte>, p: nat, k: Token, ks: Tokens)
    requires TokenAt(d, p, k) && HoldsAt(d, TokenEnd(p, k), ks)
    ensures HoldsAt(d, p, Then(k, ks)) && EndOf(p, Then(k, ks)) == EndOf(TokenEnd(p, k), ks)
  {}

  lemma PassedCat(d: seq<byte>, p: nat, xs: Tokens, ys: Tokens)
    requires HoldsAt(d, p, xs) && HoldsAt(d, EndOf(p, xs), ys)
    ensures HoldsAt(d, p, Cat(xs, ys)) && EndOf(p, Cat(xs, ys)) == EndOf(EndOf(p, xs), ys)
  {
    EndCat(p, xs, ys);
    HoldsCat(d, p, xs, ys);
  }

  lemma PassedUnit(d: seq<byte>, p: nat, k: Token)
    requires TokenAt(d, p, k)
    ensures HoldsAt(d, p, Unit(k)) && EndOf(p, Unit(k)) == TokenEnd(p, k)
  {
    PassedThen(d, p, k, End);
  }

  lemma FixAt(d: seq<byte>, end: nat, n: nat, s: St)
    requires Inside(d, end) && !Bits(d, end, n, s).bad
    ensures n <= 64 && TokenAt(d, s.p, Fix(n, BitsValue(d, end, n, s))) && Bits(d, end, n, s) == s.(p := TokenEnd(s.p, Fix(n, 0)))
  {}

  lemma PadAt(d: seq<byte>, end: nat, s: St)
    requires Inside(d, end) && !Align(d, end, s).bad
    ensures TokenAt(d, s.p, Pad) && Align(d, end, s) == s.(p := TokenEnd(s.p, Pad))
  {}

  /** A field of `n` bits is its low part and its top bit. */
  lemma {:induction false} TopBit(x: nat, k: nat)
    requires x < Pow2(k + 1)
    ensures Low(x, k) < Pow2(k) && x == Low(x, k) + (if Shr(x, k) == 0 then 0 else Pow2(k))
  {
    if k > 0 { TopBit(x / 2, k - 1); }
  }

  lemma {:induction false} FindChunks(d: seq<byte>, end: nat, n: nat, shift: nat, s: St) returns (ds: seq<nat>)
    requires Inside(d, end) && 2 <= n <= 32 && !Chunks(d, end, n, shift, s).bad
    ensures ds != [] && HasChunks(d, s.p, n, ds) && WordFits(n, shift, ds)
    ensures Chunks(d, end, n, shift, s) == s.(p := s.p + ChunksLength(n, ds)) && ChunksValue(d, end, n, shift, s) == Total(n, ds)
    decreases 64 - shift
  {
    var x := BitsValue(d, end, n, s);
    FieldBound(d, s.p, n);
    TopBit(x, n - 1);
    var y := Low(x, n - 1);
    if LastChunk(d, end, n, s) {
      ds := [y];
    } else {
      var tail := FindChunks(d, end, n, shift + n - 1, Bits(d, end, n, s));
      ds := [y] + tail;
      assert ds[1..] == tail;
    }
  }

  lemma ChunkAt(d: seq<byte>, end: nat, n: nat, s: St) returns (ds: seq<nat>)
    requires Inside(d, end) && !Vbr(d, end, n, s).bad
    ensures TokenAt(d, s.p, Chunk(n, ds)) && Vbr(d, end, n, s) == s.(p := TokenEnd(s.p, Chunk(n, ds))) && VbrValue(d, end, n, s) == Total(n, ds)
  {
    ds := FindChunks(d, end, n, 0, s);
  }

  // ---- definitions ----

  /** Operand `i` of `n` is where it may be. */
  predicate OpFits(o: Op, i: nat, n: nat) { o.Ok() && (o.ArrayOp? ==> i + 2 == n) && (o.BlobOp? ==> i + 1 == n) }

  lemma FindOp(d: seq<byte>, end: nat, n: nat, i: nat, s: St) returns (o: Op)
    requires Inside(d, end) && !s.bad && !AfterOperand(d, end, n, i, s).bad
    ensures OpFits(o, i, n) && o.Coded() == OperandAt(d, end, s)
    ensures Passed(d, s, OpTokens(o), AfterOperand(d, end, n, i, s).p)
  {
    var t := Bits(d, end, 1, s);
    FixAt(d, end, 1, s);
    if BitsValue(d, end, 1, s) != 0 {
      FieldBound(d, s.p, 1);
      var ds := ChunkAt(d, end, 8, t);
      o := LitOp(ds);
      PassedUnit(d, t.p, Chunk(8, ds));
      PassedThen(d, s.p, Fix(1, 1), Unit(Chunk(8, ds)));
    } else {
      o := FindCoded(d, end, n, i, s, t);
    }
  }

  lemma FindCoded(d: seq<byte>, end: nat, n: nat, i: nat, s: St, t: St) returns (o: Op)
    requires Inside(d, end) && !s.bad && !AfterOperand(d, end, n, i, s).bad && t == Bits(d, end, 1, s) && !t.bad && BitsValue(d, end, 1, s) == 0
    ensures OpFits(o, i, n) && o.Coded() == OperandAt(d, end, s)
    ensures Passed(d, s, OpTokens(o), AfterOperand(d, end, n, i, s).p)
  {
    FixAt(d, end, 1, s);
    FixAt(d, end, 3, t);
    var e, u := BitsValue(d, end, 3, t), Bits(d, end, 3, t);
    if e == 1 || e == 2 {
      var ds := ChunkAt(d, end, 5, u);
      o := if e == 1 then FixedOp(ds) else VbrOp(ds);
      PassedUnit(d, u.p, Chunk(5, ds));
      PassedThen(d, t.p, Fix(3, e), Unit(Chunk(5, ds)));
      PassedThen(d, s.p, Fix(1, 0), Then(Fix(3, e), Unit(Chunk(5, ds))));
    } else {
      o := if e == 3 then ArrayOp else if e == 4 then Char6Op else BlobOp;
      PassedUnit(d, t.p, Fix(3, e));
      PassedThen(d, s.p, Fix(1, 0), Unit(Fix(3, e)));
    }
  }

  /** The operands found so far, and their coded forms. */
  predicate OpsFit(ops: seq<Op>, n: nat, a: seq<Operand>) {
    |ops| <= n && a == Code(ops) && forall i :: 0 <= i < |ops| ==> OpFits(ops[i], i, n)
  }

  lemma OpsMore(ops: seq<Op>, n: nat, a: seq<Operand>, o: Op)
    requires OpsFit(ops, n, a) && |ops| < n && OpFits(o, |ops|, n)
    ensures OpsFit(ops + [o], n, a + [o.Coded()])
  {}

  lemma {:induction false} FindOps(d: seq<byte>, end: nat, n: nat, a: seq<Operand>, s: St, prev: seq<Op>) returns (ops: seq<Op>)
    requires Inside(d, end) && !s.bad && !Operands(d, end, n, a, s).s.bad && OpsFit(prev, n, a)
    ensures OpsFit(ops, n, Operands(d, end, n, a, s).a) && |ops| == n && |prev| <= n
    ensures Passed(d, s, OpsTokens(ops, |prev|), Operands(d, end, n, a, s).s.p) && prev == ops[..|prev|]
    decreases n - |a|
  {
    if |a| >= n {
      ops := prev;
    } else {
      var o := FindOp(d, end, n, |a|, s);
      OpsMore(prev, n, a, o);
      var t := AfterOperand(d, end, n, |a|, s);
      ops := FindOps(d, end, n, a + [o.Coded()], t, prev + [o]);
      assert ops[..|prev|] == ops[..|prev| + 1][..|prev|];
      assert ops[|prev|] == ops[..|prev| + 1][|prev|];
      PassedCat(d, s.p, OpTokens(o), OpsTokens(ops, |prev| + 1));
    }
  }

  lemma OpsFormed(ops: seq<Op>, a: seq<Operand>)
    requires OpsFit(ops, |ops|, a) && 0 < |ops| <= 256 && ArraysOk(a)
    ensures OpsOk(ops)
  {
    var n := |ops|;
    if n >= 2 && ops[n - 2].ArrayOp? { assert Scalar(a[n - 1]); }
  }

  lemma FindDefinition(d: seq<byte>, end: nat, s: St) returns (count: seq<nat>, ops: seq<Op>)
    requires Inside(d, end) && !Definition(d, end, s).s.bad
    ensures OpsOk(ops) && Total(5, count) == |ops| && Definition(d, end, s).a == Code(ops)
    ensures s.operands + |ops| <= 0x10_0000 && s.abbrevs + 1 <= 65536 && !s.bad
    ensures Passed(d, s, Then(Chunk(5, count), OpsTokens(ops, 0)), Definition(d, end, s).s.p)
    ensures Definition(d, end, s).s == s.(p := Definition(d, end, s).s.p, operands := s.operands + |ops|, abbrevs := s.abbrevs + 1)
  {
    var t := Opened(d, end, s);
    count := ChunkAt(d, end, 5, s);
    var n := VbrValue(d, end, 5, s);
    var g := Operands(d, end, n, [], t);
    ops := FindOps(d, end, n, [], t, []);
    OpsFormed(ops, g.a);
    PassedThen(d, s.p, Chunk(5, count), OpsTokens(ops, 0));
  }

  // ---- records ----

  lemma FindCell(d: seq<byte>, end: nat, o: Op, r: Rec) returns (c: Cell)
    requires Inside(d, end) && o.Ok() && o.Scalar() && !r.s.bad && !AddOne(d, end, o.Coded(), r).s.bad
    ensures CellOk(o, c) && HoldsAt(d, r.s.p, CellTokens(o, c)) && r.s.values + 1 <= Limit(d)
    ensures AddOne(d, end, o.Coded(), r) == Rec(r.s.(p := EndOf(r.s.p, CellTokens(o, c)), values := r.s.values + 1), r.vs + [CellValue(o, c)])
  {
    match o
    case LitOp(_) => c := Given;
    case FixedOp(_) =>
      FixAt(d, end, o.Width(), r.s);
      c := Raw(BitsValue(d, end, o.Width(), r.s));
    case VbrOp(_) =>
      var ds := ChunkAt(d, end, o.Width(), r.s);
      c := Digits(ds);
    case Char6Op =>
      FixAt(d, end, 6, r.s);
      FieldBound(d, r.s.p, 6);
      c := Raw(BitsValue(d, end, 6, r.s));
      SixBits();
      AlphabetIs(c.v);
  }

  lemma SixBits()
    ensures Pow2(6) == 64
  {}

  /** What `n` values of one type leave behind. */
  ghost predicate TailFound(d: seq<byte>, o: Op, r: Rec, tail: seq<Cell>, i: nat, q: Rec)
    requires TailOk(o, tail) && i <= |tail|
  {
    && HoldsAt(d, r.s.p, TailTokens(o, tail, i)) && r.s.values + (|tail| - i) <= Limit(d)
    && q == TailRead(r.s, o, tail, i, r.vs)
  }

  /** The record after the elements from the `i`-th on. */
  function TailRead(s: St, o: Op, tail: seq<Cell>, i: nat, vs: seq<nat>): Rec
    requires TailOk(o, tail) && i <= |tail|
    decreases |tail| - i
  {
    if i == |tail| then Rec(s, vs)
    else TailRead(s.(p := EndOf(s.p, CellTokens(o, tail[i])), values := s.values + 1), o, tail, i + 1, vs + [CellValue(o, tail[i])])
  }

  lemma {:induction false} TailReadIs(s: St, o: Op, tail: seq<Cell>, i: nat, vs: seq<nat>)
    requires TailOk(o, tail) && i <= |tail|
    ensures TailRead(s, o, tail, i, vs)
         == Rec(s.(p := EndOf(s.p, TailTokens(o, tail, i)), values := s.values + (|tail| - i)), vs + TailValues(o, tail)[i..])
    decreases |tail| - i
  {
    if i < |tail| {
      EndCat(s.p, CellTokens(o, tail[i]), TailTokens(o, tail, i + 1));
      Shift(vs, TailValues(o, tail), i);
      TailReadIs(s.(p := EndOf(s.p, CellTokens(o, tail[i])), values := s.values + 1), o, tail, i + 1, vs + [CellValue(o, tail[i])]);
    }
  }

  ghost predicate Extends<T>(a: seq<T>, b: seq<T>) { |a| <= |b| && a == b[..|a|] }

  lemma ExtendsMore<T>(a: seq<T>, x: T, b: seq<T>)
    requires Extends(a + [x], b)
    ensures Extends(a, b) && b[|a|] == x
  {
    assert (a + [x])[..|a|] == a && b[..|a| + 1][..|a|] == b[..|a|] && b[..|a| + 1][|a|] == x;
  }

  lemma {:induction false} FindTail(d: seq<byte>, end: nat, o: Op, n: nat, r: Rec, prev: seq<Cell>) returns (tail: seq<Cell>)
    requires Inside(d, end) && o.Scalar() && !r.s.bad && !Adds(d, end, o.Coded(), n, r).s.bad && TailOk(o, prev) && r.s.values <= Limit(d)
    ensures TailOk(o, tail) && |tail| == |prev| + n && Extends(prev, tail)
    ensures TailFound(d, o, r, tail, |prev|, Adds(d, end, o.Coded(), n, r))
    decreases n
  {
    if n == 0 {
      tail := prev;
    } else {
      var c := FindCell(d, end, o, r);
      var m := AddOne(d, end, o.Coded(), r);
      tail := FindTail(d, end, o, n - 1, m, prev + [c]);
      ExtendsMore(prev, c, tail);
      PassedCat(d, r.s.p, CellTokens(o, c), TailTokens(o, tail, |prev| + 1));
    }
  }

  lemma FindArray(d: seq<byte>, end: nat, o: Op, r: Rec) returns (count: seq<nat>, tail: seq<Cell>)
    requires Inside(d, end) && o.Ok() && o.Scalar() && !r.s.bad && !BitcodeModel.Array(d, end, o.Coded(), r).s.bad && r.s.values <= Limit(d)
    ensures TailOk(o, tail) && Total(6, count) == |tail| && HoldsAt(d, r.s.p, ArrayTokens(o, count, tail)) && r.s.values + |tail| <= Limit(d)
    ensures BitcodeModel.Array(d, end, o.Coded(), r)
         == Rec(r.s.(p := EndOf(r.s.p, ArrayTokens(o, count, tail)), values := r.s.values + |tail|), r.vs + TailValues(o, tail))
  {
    count := ChunkAt(d, end, 6, r.s);
    var n, t := VbrValue(d, end, 6, r.s), Vbr(d, end, 6, r.s);
    tail := FindTail(d, end, o, n, Rec(t, r.vs), []);
    TailReadIs(t, o, tail, 0, r.vs);
    assert TailValues(o, tail)[0..] == TailValues(o, tail);
    PassedThen(d, r.s.p, Chunk(6, count), TailTokens(o, tail, 0));
  }

  lemma FindBlob(d: seq<byte>, end: nat, r: Rec) returns (count: seq<nat>, tail: seq<Cell>)
    requires Inside(d, end) && !r.s.bad && !BitcodeModel.Blob(d, end, r).s.bad && r.s.values <= Limit(d)
    ensures TailOk(ByteOp, tail) && Total(6, count) == |tail| <= MAX_BLOB && HoldsAt(d, r.s.p, BlobTokens(count, tail)) && r.s.values + |tail| <= Limit(d)
    ensures BitcodeModel.Blob(d, end, r)
         == Rec(r.s.(p := EndOf(r.s.p, BlobTokens(count, tail)), values := r.s.values + |tail|), r.vs + TailValues(ByteOp, tail))
  {
    count := ChunkAt(d, end, 6, r.s);
    var n, u := VbrValue(d, end, 6, r.s), Vbr(d, end, 6, r.s);
    PadAt(d, end, u);
    var t := Align(d, end, u);
    tail := FindBytes(d, end, n, Rec(t, r.vs));
    PassedThen(d, u.p, Pad, Cat(TailTokens(ByteOp, tail, 0), Unit(Pad)));
    PassedThen(d, r.s.p, Chunk(6, count), Then(Pad, Cat(TailTokens(ByteOp, tail, 0), Unit(Pad))));
  }

  /** The bytes of a blob and the zeros after them. */
  lemma FindBytes(d: seq<byte>, end: nat, n: nat, r: Rec) returns (tail: seq<Cell>)
    requires Inside(d, end) && !r.s.bad && r.s.values <= Limit(d) && !Align(d, end, Adds(d, end, BYTE, n, r).s).bad
    ensures TailOk(ByteOp, tail) && |tail| == n && r.s.values + n <= Limit(d)
    ensures HoldsAt(d, r.s.p, Cat(TailTokens(ByteOp, tail, 0), Unit(Pad))) && Adds(d, end, BYTE, n, r).vs == r.vs + TailValues(ByteOp, tail)
    ensures Align(d, end, Adds(d, end, BYTE, n, r).s)
         == r.s.(p := EndOf(r.s.p, Cat(TailTokens(ByteOp, tail, 0), Unit(Pad))), values := r.s.values + n)
  {
    ByteOpIs();
    tail := FindTail(d, end, ByteOp, n, r, []);
    TailReadIs(r.s, ByteOp, tail, 0, r.vs);
    assert TailValues(ByteOp, tail)[0..] == TailValues(ByteOp, tail);
    var q := Adds(d, end, BYTE, n, r).s;
    PadAt(d, end, q);
    PassedUnit(d, q.p, Pad);
    PassedCat(d, r.s.p, TailTokens(ByteOp, tail, 0), Unit(Pad));
  }

  /** The scalar fields of an abbreviated record. */
  lemma {:induction false} FindCells(d: seq<byte>, end: nat, ops: seq<Op>, i: nat, r: Rec, prev: seq<Cell>) returns (cells: seq<Cell>, q: Rec)
    requires OpsOk(ops) && ArraysOk(Code(ops)) && Inside(d, end) && !r.s.bad && !Fields(d, end, Code(ops), i, r).s.bad && r.s.values <= Limit(d)
    requires CellsOk(ops, prev) && |prev| == i <= |ops| - TailWidth(ops)
    ensures CellsOk(ops, cells) && |cells| == |ops| - TailWidth(ops) && Extends(prev, cells)
    ensures HoldsAt(d, r.s.p, CellsTokens(ops, cells, i)) && q == CellsRead(r.s, ops, cells, i, r.vs) && !q.s.bad && q.s.values <= Limit(d)
    ensures Fields(d, end, Code(ops), i, r) == Fields(d, end, Code(ops), |cells|, q)
    decreases |ops| - i
  {
    if i == |ops| - TailWidth(ops) {
      cells, q := prev, r;
    } else {
      FieldsMore(d, end, Code(ops), i, r);
      var m := FieldStep(d, end, Code(ops), i, r);
      var c := FindCell(d, end, ops[i], r);
      cells, q := FindCells(d, end, ops, i + 1, m, prev + [c]);
      ExtendsMore(prev, c, cells);
      PassedCat(d, r.s.p, CellTokens(ops[i], c), CellsTokens(ops, cells, i + 1));
    }
  }

  /** The array or blob at the end of an abbreviated record. */
  lemma FindShortTail(d: seq<byte>, end: nat, ops: seq<Op>, k: nat, r: Rec) returns (count: seq<nat>, tail: seq<Cell>)
    requires OpsOk(ops) && ArraysOk(Code(ops)) && Inside(d, end) && !r.s.bad && !Fields(d, end, Code(ops), k, r).s.bad && r.s.values <= Limit(d)
    requires k == |ops| - TailWidth(ops)
    ensures TailWidth(ops) == 0 ==> tail == [] && Fields(d, end, Code(ops), k, r) == r
    ensures TailWidth(ops) == 1 ==>
      && TailOk(ByteOp, tail) && Total(6, count) == |tail| <= MAX_BLOB && HoldsAt(d, r.s.p, BlobTokens(count, tail)) && r.s.values + |tail| <= Limit(d)
      && Fields(d, end, Code(ops), k, r) == Rec(r.s.(p := EndOf(r.s.p, BlobTokens(count, tail)), values := r.s.values + |tail|), r.vs + TailValues(ByteOp, tail))
    ensures TailWidth(ops) == 2 ==>
      && var o := ops[|ops| - 1];
         && TailOk(o, tail) && Total(6, count) == |tail| && HoldsAt(d, r.s.p, ArrayTokens(o, count, tail)) && r.s.values + |tail| <= Limit(d)
         && Fields(d, end, Code(ops), k, r) == Rec(r.s.(p := EndOf(r.s.p, ArrayTokens(o, count, tail)), values := r.s.values + |tail|), r.vs + TailValues(o, tail))
  {
    count, tail := [], [];
    if k < |ops| { FieldsMore(d, end, Code(ops), k, r); }
    if TailWidth(ops) == 1 {
      count, tail := FindBlob(d, end, r);
    } else if TailWidth(ops) == 2 {
      count, tail := FindArray(d, end, ops[|ops| - 1], r);
    }
  }

  lemma FindShort(d: seq<byte>, end: nat, abbrev: nat, ops: seq<Op>, s: St) returns (e: Entry)
    requires OpsOk(ops) && ArraysOk(Code(ops)) && Inside(d, end) && !s.bad && !Fields(d, end, Code(ops), 0, Rec(s, [])).s.bad
    requires s.values <= Limit(d) && abbrev >= 4
    ensures e.Short? && ShortOk(e) && e.abbrev == abbrev && e.ops == ops && HoldsAt(d, s.p, ShortTokens(e)) && s.values + |Values(e)| <= Limit(d)
    ensures Fields(d, end, Code(ops), 0, Rec(s, [])) == Rec(s.(p := EndOf(s.p, ShortTokens(e)), values := s.values + |Values(e)|), Values(e))
  {
    var cells, q := FindCells(d, end, ops, 0, Rec(s, []), []);
    CellsReadIs(s, ops, cells, 0, []);
    assert [] + CellValues(ops, cells)[0..] == CellValues(ops, cells);
    var count, tail := FindShortTail(d, end, ops, |cells|, q);
    e := Short(abbrev, ops, cells, count, tail);
    PassedCat(d, s.p, CellsTokens(ops, cells, 0), ShortTail(e));
  }

  lemma {:induction false} FindValues(d: seq<byte>, end: nat, n: nat, r: Rec, prev: seq<seq<nat>>) returns (values: seq<seq<nat>>)
    requires Inside(d, end) && !r.s.bad && !Adds(d, end, VBR6, n, r).s.bad && r.s.values <= Limit(d)
    ensures |values| == |prev| + n && Extends(prev, values) && HoldsAt(d, r.s.p, DigitsTokens(values, |prev|)) && r.s.values + n <= Limit(d)
    ensures Adds(d, end, VBR6, n, r) == ValuesRead(r.s, values, |prev|, r.vs)
    decreases n
  {
    if n == 0 {
      values := prev;
    } else {
      var ds := ChunkAt(d, end, 6, r.s);
      values := FindValues(d, end, n - 1, AddOne(d, end, VBR6, r), prev + [ds]);
      ExtendsMore(prev, ds, values);
      PassedThen(d, r.s.p, Chunk(6, ds), DigitsTokens(values, |prev| + 1));
    }
  }

  lemma FindCounted(d: seq<byte>, end: nat, r: Rec) returns (count: seq<nat>, values: seq<seq<nat>>)
    requires Inside(d, end) && !r.s.bad && !BitcodeModel.Array(d, end, VBR6, r).s.bad && r.s.values <= Limit(d)
    ensures Total(6, count) == |values| && HoldsAt(d, r.s.p, Then(Chunk(6, count), DigitsTokens(values, 0))) && r.s.values + |values| <= Limit(d)
    ensures BitcodeModel.Array(d, end, VBR6, r)
         == Rec(r.s.(p := EndOf(r.s.p, Then(Chunk(6, count), DigitsTokens(values, 0))), values := r.s.values + |values|), r.vs + Totals(values))
  {
    count := ChunkAt(d, end, 6, r.s);
    var n, t := VbrValue(d, end, 6, r.s), Vbr(d, end, 6, r.s);
    values := FindValues(d, end, n, Rec(t, r.vs), []);
    ValuesReadIs(t, values, 0, r.vs);
    assert Totals(values)[0..] == Totals(values);
    PassedThen(d, r.s.p, Chunk(6, count), DigitsTokens(values, 0));
  }

  lemma FindPlain(d: seq<byte>, end: nat, s: St) returns (e: Entry)
    requires Inside(d, end) && !s.bad && s.values <= Limit(d)
    requires !BitcodeModel.Array(d, end, VBR6, AddOne(d, end, VBR6, Rec(s, []))).s.bad
    ensures e.Plain? && Formed(e) && HoldsAt(d, s.p, PlainTokens(e)) && s.values + |Values(e)| <= Limit(d)
    ensures BitcodeModel.Array(d, end, VBR6, AddOne(d, end, VBR6, Rec(s, [])))
         == Rec(s.(p := EndOf(s.p, PlainTokens(e)), values := s.values + |Values(e)|), Values(e))
  {
    var r := AddOne(d, end, VBR6, Rec(s, []));
    var code := ChunkAt(d, end, 6, s);
    assert [] + [Total(6, code)] == [Total(6, code)];
    var count, values := FindCounted(d, end, r);
    e := Plain(code, count, values);
    PassedThen(d, s.p, Chunk(6, code), Then(Chunk(6, count), DigitsTokens(values, 0)));
  }

  /** An abbreviation that was read stands for operands of a tree. */
  ghost predicate Coded(a: seq<Operand>) { exists ops :: OpsOk(ops) && a == Code(ops) }

  ghost predicate AllCoded(aa: seq<Abbrev>) { forall i :: 0 <= i < |aa| ==> Coded(aa[i]) }

  ghost predicate InfoCoded(info: map<nat, seq<Abbrev>>) { forall id :: id in info ==> AllCoded(info[id]) }

  lemma FindRecordAt(d: seq<byte>, end: nat, sc: Scope, code: nat, s: St) returns (e: Entry)
    requires Inside(d, end) && !s.bad && s.values <= Limit(d) && code >= 3 && AllCoded(sc.abbrevs) && (code > 3 ==> code - 4 < |sc.abbrevs|)
    requires !RecordAt(d, end, code == 3, if code > 3 then sc.abbrevs[code - 4] else [], s).s.bad
    ensures IsRecord(e) && Formed(e) && CodeOf(e) == code && HoldsAt(d, s.p, RecordTokens(e)) && s.values + |Values(e)| <= Limit(d) && |Values(e)| > 0
    ensures e.Short? ==> sc.abbrevs[code - 4] == Code(e.ops)
    ensures RecordAt(d, end, code == 3, if code > 3 then sc.abbrevs[code - 4] else [], s)
         == Rec(s.(p := EndOf(s.p, RecordTokens(e)), values := s.values + |Values(e)|), Values(e))
  {
    if code == 3 {
      e := FindPlain(d, end, s);
    } else {
      assert Coded(sc.abbrevs[code - 4]);
      var ops :| OpsOk(ops) && sc.abbrevs[code - 4] == Code(ops);
      e := FindShort(d, end, code, ops, s);
    }
  }

  /** A record that has been read, from behind its abbreviation code; `s` is where the code stands. */
  lemma FindRecord(d: seq<byte>, f: Frame, sc: Scope, s: St, code: nat, t: St) returns (e: Entry)
    requires FrameOk(d, f) && !s.bad && t == s.(p := t.p) && s.values <= Limit(d) && code >= 3 && AllCoded(sc.abbrevs)
    requires !RecordItem(d, f, sc, s.p, code, t).s.bad
    ensures IsRecord(e) && Formed(e) && CodeOf(e) == code && HoldsAt(d, t.p, RecordTokens(e)) && Fitting(f.id, f.width, f.depth, e, sc, s)
    ensures s.values + |Values(e)| <= Limit(d) && |s.records| < MAX_RECORDS
    ensures var o := RecordAfter(f.id, e, sc, s, EndOf(t.p, RecordTokens(e)));
            RecordItem(d, f, sc, s.p, code, t) == More(o.sc, o.s)
  {
    e := FindRecordAt(d, f.end, sc, code, t);
    KeptFits(f, sc, s, e, EndOf(t.p, RecordTokens(e)));
    KeptAfter(f, sc, s, e, EndOf(t.p, RecordTokens(e)));
  }

  lemma KeptFits(f: Frame, sc: Scope, s: St, e: Entry, p: nat)
    requires IsRecord(e) && Formed(e) && |Values(e)| > 0 && !s.bad
    requires !Kept(f, sc, s.p, CodeOf(e), Rec(s.(p := p, values := s.values + |Values(e)|), Values(e))).s.bad
    ensures RecordFitting(f.id, e) && |s.records| < MAX_RECORDS
  {}

  // ---- blocks ----

  /** A header that has been read. */
  lemma FindHead(d: seq<byte>, end: nat, s: St) returns (id: seq<nat>, width: seq<nat>)
    requires Inside(d, end) && !HeadAt(d, end, s).s.bad
    ensures HeadStands(d, s, id, width, HeadAt(d, end, s)) && HeadAt(d, end, s).finish <= end
  {
    id := ChunkAt(d, end, 8, s);
    var t := Vbr(d, end, 8, s);
    width := ChunkAt(d, end, 4, t);
    var u := Vbr(d, end, 4, t);
    PadAt(d, end, u);
    HeadIs(d, end, s, u);
    FindExtent(d, end, Total(8, id), Total(4, width), Align(d, end, u));
  }

  /** The identifier, the width and the number of words of a block stand at `s`. */
  ghost predicate HeadStands(d: seq<byte>, s: St, id: seq<nat>, width: seq<nat>, h: Head) {
    && h == Head(s.(p := HeadEnd(s.p, id, width)), Total(8, id), Total(4, width), h.finish) && 2 <= h.width <= 32 && h.s.p <= 8 * |d|
    && TokenAt(d, s.p, Chunk(8, id))
    && var p := s.p + ChunksLength(8, id);
       && TokenAt(d, p, Chunk(4, width))
       && var q := p + ChunksLength(4, width);
          && TokenAt(d, q, Pad) && 32 * Field(d, q + Gap(q), 32) == h.finish - h.s.p
  }

  /** With its body it is a block. */
  lemma HeadAndBody(d: seq<byte>, s: St, id: seq<nat>, width: seq<nat>, h: Head, body: Tokens)
    requires HeadStands(d, s, id, width, h) && HoldsAt(d, h.s.p, body) && EndOf(h.s.p, body) == h.finish <= 8 * |d|
    ensures HoldsAt(d, s.p, HeadTokens(id, width, body)) && EndOf(s.p, HeadTokens(id, width, body)) == h.finish
  {
    var p := s.p + ChunksLength(8, id);
    var q := p + ChunksLength(4, width);
    SubAt(d, q + Gap(q), h.finish, body);
    PassedThree(d, s.p, Chunk(8, id), Chunk(4, width), Pad, Unit(Sub(body)));
  }

  lemma SubAt(d: seq<byte>, p: nat, end: nat, body: Tokens)
    requires p + 32 <= 8 * |d| && 32 * Field(d, p, 32) == end - (p + 32) && HoldsAt(d, p + 32, body) && EndOf(p + 32, body) == end <= 8 * |d|
    ensures HoldsAt(d, p, Unit(Sub(body))) && EndOf(p, Unit(Sub(body))) == end
  {
    PassedUnit(d, p, Sub(body));
  }

  lemma PassedThree(d: seq<byte>, p: nat, a: Token, b: Token, c: Token, ks: Tokens)
    requires TokenAt(d, p, a) && TokenAt(d, TokenEnd(p, a), b) && TokenAt(d, TokenEnd(TokenEnd(p, a), b), c)
    requires HoldsAt(d, TokenEnd(TokenEnd(TokenEnd(p, a), b), c), ks)
    ensures HoldsAt(d, p, Then(a, Then(b, Then(c, ks)))) && EndOf(p, Then(a, Then(b, Then(c, ks)))) == EndOf(TokenEnd(TokenEnd(TokenEnd(p, a), b), c), ks)
  {
    PassedThen(d, TokenEnd(TokenEnd(p, a), b), c, ks);
    PassedThen(d, TokenEnd(p, a), b, Then(c, ks));
    PassedThen(d, p, a, Then(b, Then(c, ks)));
  }

  lemma FindExtent(d: seq<byte>, end: nat, id: nat, w: nat, s: St)
    requires Inside(d, end) && !Extent(d, end, id, w, s).s.bad
    ensures var h := Extent(d, end, id, w, s);
            h == Head(s.(p := s.p + 32), id, w, h.finish) && s.p + 32 <= 8 * |d| && 32 * Field(d, s.p, 32) == h.finish - (s.p + 32)
  {}

  /** The reader's state between entries: within the totals, every abbreviation read from a tree. */
  ghost predicate Sound(d: seq<byte>, sc: Scope, s: St) {
    !s.bad && Bounded(d, s) && AllCoded(sc.abbrevs) && InfoCoded(s.info)
  }

  /** Entry `e` stands at `s`, and the reader has read it. */
  ghost predicate EntryFound(d: seq<byte>, f: Frame, sc: Scope, s: St, e: Entry, x: BitcodeModel.Next) {
    && Formed(e) && Fitting(f.id, f.width, f.depth, e, sc, s)
    && var o := EntryAfter(f.id, f.width, e, sc, s);
       && Passed(d, s, EntryTokens(e, f.width), o.s.p) && x == More(o.sc, o.s) && Sound(d, o.sc, o.s)
  }

  /** The entries `es` stand at `s`, and `o` is what they leave. */
  ghost predicate EntriesFound(d: seq<byte>, f: Frame, sc: Scope, s: St, es: Entries, o: Out) {
    && AllFormed(es) && AllFitting(f.id, f.width, f.depth, es, sc, s) && o == EntriesAfter(f.id, f.width, es, sc, s)
    && Passed(d, s, EntriesTokens(es, f.width), o.s.p) && Sound(d, o.sc, o.s)
  }

  lemma InfoMore(info: map<nat, seq<Abbrev>>, id: nat, ops: seq<Op>)
    requires InfoCoded(info) && OpsOk(ops) && ArraysOk(Code(ops))
    ensures InfoCoded(info[id := GivenTo(info, id) + [Code(ops)]])
  {
    var aa := GivenTo(info, id) + [Code(ops)];
    forall i | 0 <= i < |aa| ensures Coded(aa[i]) {
      if i < |aa| - 1 { assert AllCoded(info[id]) && aa[i] == info[id][i]; }
    }
  }

  lemma CodedMore(aa: seq<Abbrev>, ops: seq<Op>)
    requires AllCoded(aa) && OpsOk(ops) && ArraysOk(Code(ops))
    ensures AllCoded(aa + [Code(ops)])
  {
    var bb := aa + [Code(ops)];
    forall i | 0 <= i < |bb| ensures Coded(bb[i]) {
      if i < |aa| { assert bb[i] == aa[i]; }
    }
  }

  lemma FindDefine(d: seq<byte>, f: Frame, sc: Scope, s: St) returns (e: Entry)
    requires FrameOk(d, f) && (f.top ==> f.id != 0) && s.p < f.end && Sound(d, sc, s) && !Item(d, f, sc, s).s.bad
    requires BitsValue(d, f.end, f.width, s) == 2
    ensures EntryFound(d, f, sc, s, e, Item(d, f, sc, s))
  {
    FixAt(d, f.end, f.width, s);
    var t := Bits(d, f.end, f.width, s);
    var count, ops := FindDefinition(d, f.end, t);
    e := Define(count, ops);
    PassedThen(d, s.p, Fix(f.width, 2), Then(Chunk(5, count), OpsTokens(ops, 0)));
    CodeArrays(ops);
    if f.id == 0 { InfoMore(s.info, sc.target.value, ops); } else { CodedMore(sc.abbrevs, ops); }
  }

  lemma FindRecordEntry(d: seq<byte>, f: Frame, sc: Scope, s: St) returns (e: Entry)
    requires FrameOk(d, f) && s.p < f.end && Sound(d, sc, s) && !Item(d, f, sc, s).s.bad
    requires BitsValue(d, f.end, f.width, s) >= 3
    ensures EntryFound(d, f, sc, s, e, Item(d, f, sc, s))
  {
    FixAt(d, f.end, f.width, s);
    var code, t := BitsValue(d, f.end, f.width, s), Bits(d, f.end, f.width, s);
    ItemIsRecord(d, f, sc, s, code);
    e := FindRecord(d, f, sc, s, code, t);
    RecordPassed(d, s, e, f.width, t.p);
    RecordFound(d, f, sc, s, e, EndOf(t.p, RecordTokens(e)));
  }

  lemma RecordPassed(d: seq<byte>, s: St, e: Entry, w: nat, p: nat)
    requires IsRecord(e) && Formed(e) && TokenAt(d, s.p, Fix(w, CodeOf(e))) && p == s.p + w && HoldsAt(d, p, RecordTokens(e))
    ensures Passed(d, s, EntryTokens(e, w), EndOf(p, RecordTokens(e)))
  {
    PassedThen(d, s.p, Fix(w, CodeOf(e)), RecordTokens(e));
  }

  lemma RecordFound(d: seq<byte>, f: Frame, sc: Scope, s: St, e: Entry, p: nat)
    requires IsRecord(e) && Formed(e) && Sound(d, sc, s) && s.values + |Values(e)| <= Limit(d) && |s.records| < MAX_RECORDS
    requires Fitting(f.id, f.width, f.depth, e, sc, s) && Passed(d, s, EntryTokens(e, f.width), p)
    ensures var o := RecordAfter(f.id, e, sc, s, p); EntryFound(d, f, sc, s, e, More(o.sc, o.s))
  {
    RecordSound(d, f, sc, s, e, p);
  }

  lemma RecordSound(d: seq<byte>, f: Frame, sc: Scope, s: St, e: Entry, p: nat)
    requires IsRecord(e) && Formed(e) && Sound(d, sc, s) && s.values + |Values(e)| <= Limit(d) && |s.records| < MAX_RECORDS
    ensures var o := RecordAfter(f.id, e, sc, s, p); Sound(d, o.sc, o.s) && o.sc.abbrevs == sc.abbrevs && (|Values(e)| > 0 ==> o.s.p == p)
  {}

  lemma {:induction false} FindNest(d: seq<byte>, f: Frame, sc: Scope, s: St) returns (e: Entry)
    requires FrameOk(d, f) && s.p < f.end && Sound(d, sc, s) && !Item(d, f, sc, s).s.bad
    requires BitsValue(d, f.end, f.width, s) == 1
    ensures EntryFound(d, f, sc, s, e, Item(d, f, sc, s))
    decreases f.end - s.p, 0
  {
    var n := NestBegins(d, f, sc, s);
    var es := FindBody(d, n.g, n.u);
    e := NestEnds(d, f, sc, s, n, es);
  }

  /** A nested block that has been entered: its header, its frame, and the state its body is read from. */
  datatype Begun = Begun(id: seq<nat>, width: seq<nat>, h: Head, g: Frame, u: St)

  ghost predicate Begins(d: seq<byte>, f: Frame, sc: Scope, s: St, n: Begun) {
    && FrameOk(d, f) && TokenAt(d, s.p, Fix(f.width, 1)) && HeadStands(d, s.(p := s.p + f.width), n.id, n.width, n.h)
    && n.h.s.p <= n.h.finish <= f.end && f.depth < MAX_DEPTH && n.g == Frame(n.h.id, n.h.width, n.h.finish, f.depth + 1, false)
    && n.u == n.h.s.(blocks := n.h.s.blocks + [Block(n.h.id, s.p, n.h.s.p, n.h.finish, n.h.width, 0)])
    && s.p < f.end && Item(d, f, sc, s) == More(sc, SubBlock(d, f, s.p, n.h))
  }

  lemma NestBegins(d: seq<byte>, f: Frame, sc: Scope, s: St) returns (n: Begun)
    requires FrameOk(d, f) && s.p < f.end && Sound(d, sc, s) && !Item(d, f, sc, s).s.bad
    requires BitsValue(d, f.end, f.width, s) == 1
    ensures Begins(d, f, sc, s, n) && FrameOk(d, n.g) && n.g.end - n.u.p < f.end - s.p
    ensures !n.u.bad && !BlockAt(d, n.g, n.u).bad && InfoCoded(n.u.info) && Bounded(d, n.u)
  {
    var t := s.(p := s.p + f.width);
    var h := HeadAt(d, f.end, t);
    ItemIsBlock(d, f, sc, s);
    var id, width := FindHead(d, f.end, t);
    SubBlockMeans(d, f, s.p, h);
    n := Begun(id, width, h, Frame(h.id, h.width, h.finish, f.depth + 1, false),
               h.s.(blocks := h.s.blocks + [Block(h.id, s.p, h.s.p, h.finish, h.width, 0)]));
  }

  lemma NestEnds(d: seq<byte>, f: Frame, sc: Scope, s: St, n: Begun, es: Entries) returns (e: Entry)
    requires Begins(d, f, sc, s, n) && Sound(d, sc, s) && FrameOk(d, n.g) && BodyFound(d, n.g, n.u, es)
    ensures EntryFound(d, f, sc, s, e, Item(d, f, sc, s))
  {
    e := Nest(n.id, n.width, es);
    NestSpelt(d, s, f.width, n.id, n.width, n.h, es);
    NestFound(d, f, sc, s, e, n.h, n.u);
  }

  lemma NestSpelt(d: seq<byte>, s: St, w: nat, id: seq<nat>, width: seq<nat>, h: Head, es: Entries)
    requires TokenAt(d, s.p, Fix(w, 1)) && HeadStands(d, s.(p := s.p + w), id, width, h) && h.finish <= 8 * |d|
    requires AllFormed(es) && Passed(d, h.s, BodyTokens(es, h.width), h.finish)
    ensures Formed(Nest(id, width, es)) && Passed(d, s, EntryTokens(Nest(id, width, es), w), h.finish)
  {
    var body := BodyTokens(es, h.width);
    HeadAndBody(d, s.(p := s.p + w), id, width, h, body);
    NestPassed(d, s, Nest(id, width, es), w, h.finish, body);
  }

  /** The body of a block has been read to its end. */
  ghost predicate BodyFound(d: seq<byte>, f: Frame, s: St, es: Entries)
    requires FrameOk(d, f)
  {
    var sc := Scope(GivenTo(s.info, f.id), None);
    && AllFormed(es) && EntriesFound(d, f, sc, s, es, EntriesAfter(f.id, f.width, es, sc, s))
    && BlockAt(d, f, s) == EntriesAfter(f.id, f.width, es, sc, s).s.(p := f.end) && Passed(d, s, BodyTokens(es, f.width), f.end)
  }

  lemma ItemIsBlock(d: seq<byte>, f: Frame, sc: Scope, s: St)
    requires FrameOk(d, f) && s.p < f.end && !s.bad && !Item(d, f, sc, s).s.bad && BitsValue(d, f.end, f.width, s) == 1
    ensures TokenAt(d, s.p, Fix(f.width, 1))
    ensures var h := HeadAt(d, f.end, s.(p := s.p + f.width)); !h.s.bad && Item(d, f, sc, s) == More(sc, SubBlock(d, f, s.p, h))
  {
    FixAt(d, f.end, f.width, s);
  }

  lemma SubBlockMeans(d: seq<byte>, f: Frame, start: nat, h: Head)
    requires FrameOk(d, f) && h.s.p <= h.finish <= f.end && 2 <= h.width <= 32 && !SubBlock(d, f, start, h).bad
    ensures var u := h.s.(blocks := h.s.blocks + [Block(h.id, start, h.s.p, h.finish, h.width, 0)]);
            !u.bad && !BlockAt(d, Frame(h.id, h.width, h.finish, f.depth + 1, false), u).bad && |u.blocks| <= MAX_BLOCKS && f.depth < MAX_DEPTH
  {}

  lemma NestPassed(d: seq<byte>, s: St, e: Entry, w: nat, end: nat, body: Tokens)
    requires e.Nest? && Formed(e) && TokenAt(d, s.p, Fix(w, 1)) && body == BodyTokens(e.entries, Total(4, e.width))
    requires HoldsAt(d, s.p + w, HeadTokens(e.id, e.width, body)) && EndOf(s.p + w, HeadTokens(e.id, e.width, body)) == end
    ensures Passed(d, s, EntryTokens(e, w), end)
  {
    PassedThen(d, s.p, Fix(w, 1), HeadTokens(e.id, e.width, body));
  }

  /** A block whose entries have been found. */
  lemma NestFound(d: seq<byte>, f: Frame, sc: Scope, s: St, e: Entry, h: Head, u: St)
    requires FrameOk(d, f) && e.Nest? && Formed(e) && Sound(d, sc, s) && f.depth < MAX_DEPTH && h.s.p <= h.finish <= f.end
    requires h == Head(s.(p := HeadEnd(s.p + f.width, e.id, e.width)), Total(8, e.id), Total(4, e.width), EndOf(s.p, EntryTokens(e, f.width)))
    requires u == h.s.(blocks := h.s.blocks + [Block(h.id, s.p, h.s.p, h.finish, h.width, 0)])
    requires var g := Frame(h.id, h.width, h.finish, f.depth + 1, false); FrameOk(d, g) && BodyFound(d, g, u, e.entries)
    requires Passed(d, s, EntryTokens(e, f.width), h.finish)
    ensures EntryFound(d, f, sc, s, e, More(sc, SubBlock(d, f, s.p, h)))
  {
    assert NestStart(f.width, e, s) == u;
    RecordsNested(f.id, f.width, f.depth, e, sc, s);
    WholeNest(d, f, s, e, h, EntriesAfter(h.id, h.width, e.entries, Scope(GivenTo(s.info, h.id), None), u).s);
  }

  /** A nested block, to its end. */
  lemma {:induction false} FindBody(d: seq<byte>, f: Frame, s: St) returns (es: Entries)
    requires FrameOk(d, f) && !f.top && !s.bad && !BlockAt(d, f, s).bad && InfoCoded(s.info) && Bounded(d, s)
    ensures BodyFound(d, f, s, es)
    decreases f.end - s.p, 2
  {
    var sc := Scope(GivenTo(s.info, f.id), None);
    assert AllCoded(sc.abbrevs);
    var o;
    es, o := FindEntries(d, f, sc, s);
    PassedCat(d, s.p, EntriesTokens(es, f.width), Then(Fix(f.width, 0), Unit(Pad)));
  }

  /** The entries of a block, to its end marker; those of the top level, to the end of the file. */
  lemma {:induction false} FindEntries(d: seq<byte>, f: Frame, sc: Scope, s: St) returns (es: Entries, o: Out)
    requires FrameOk(d, f) && (f.top ==> f.id != 0) && Sound(d, sc, s) && !Items(d, f, sc, s).bad
    ensures EntriesFound(d, f, sc, s, es, o)
    ensures f.top ==> Items(d, f, sc, s) == o.s
    ensures !f.top ==> Items(d, f, sc, s) == o.s.(p := f.end) && Passed(d, o.s, Then(Fix(f.width, 0), Unit(Pad)), f.end)
    decreases f.end - s.p, 1
  {
    es, o := NoEntries, Out(sc, s);
    if s.p < f.end {
      var code := BitsValue(d, f.end, f.width, s);
      if code == 0 {
        FindEnd(d, f, sc, s);
      } else {
        var e;
        if code == 1 { e := FindNest(d, f, sc, s); } else if code == 2 { e := FindDefine(d, f, sc, s); } else { e := FindRecordEntry(d, f, sc, s); }
        var x := Item(d, f, sc, s);
        var rest;
        rest, o := FindEntries(d, f, x.sc, x.s);
        es := MoreEntries(e, rest);
        PassedCat(d, s.p, EntryTokens(e, f.width), EntriesTokens(rest, f.width));
      }
    }
  }

  lemma FindEnd(d: seq<byte>, f: Frame, sc: Scope, s: St)
    requires FrameOk(d, f) && s.p < f.end && !s.bad && !Items(d, f, sc, s).bad && BitsValue(d, f.end, f.width, s) == 0
    ensures !f.top && Items(d, f, sc, s) == s.(p := f.end) && Passed(d, s, Then(Fix(f.width, 0), Unit(Pad)), f.end)
  {
    var t := Bits(d, f.end, f.width, s);
    assert !t.bad;
    FixAt(d, f.end, f.width, s);
    PadAt(d, f.end, t);
    PassedUnit(d, t.p, Pad);
    PassedThen(d, s.p, Fix(f.width, 0), Unit(Pad));
  }

  /** A file is parsed, to the plan `p`, exactly when it is written from a tree within the limits that stands for `p`. */
  lemma TreesOnly(d: seq<byte>, p: Plan)
    ensures ParsePlan(d) == Some(p) <==> Written(d, p)
  {
    if ParsePlan(d) == Some(p) {
      var f := Frame(TOP, 2, 8 * |d|, 0, true);
      var es, o := FindEntries(d, f, Scope([], None), Start());
      BitcodeShape.TopEnds(d, f, Scope([], None), Start());
      assert WrittenFrom(d, es) && Readable(d, es);
    }
    if es :| WrittenFrom(d, es) && Readable(d, es) && p == PlanFrom(es) { WrittenParses(d, es); }
  }

  ghost predicate Written(d: seq<byte>, p: Plan) {
    exists es :: WrittenFrom(d, es) && Readable(d, es) && p == PlanFrom(es)
  }
}
