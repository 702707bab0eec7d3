/** The reader of LLVM bitstreams gives back, for every written tree within its limits, the plan of that tree. */
module BitcodeReads {
  import opened Bytes
  import opened BitcodeBits
  import opened BitcodeModel
  import opened BitcodeShape
  import opened BitcodeWriter

  // ---- tokens ----

  lemma {:induction false} EndCat(p: nat, xs: Tokens, ys: Tokens)
    ensures EndOf(p, Cat(xs, ys)) == EndOf(EndOf(p, xs), ys)
    decreases xs
  {
    if xs.Then? { EndCat(TokenEnd(p, xs.head), xs.tail, ys); }
  }

  lemma {:induction false} HoldsCat(d: seq<byte>, p: nat, xs: Tokens, ys: Tokens)
    ensures HoldsAt(d, p, Cat(xs, ys)) <==> HoldsAt(d, p, xs) && HoldsAt(d, EndOf(p, xs), ys)
    decreases xs
  {
    if xs.Then? { HoldsCat(d, TokenEnd(p, xs.head), xs.tail, ys); }
  }

  /** The tokens stand at the cursor, before `end`. */
  predicate Here(d: seq<byte>, end: nat, s: St, ks: Tokens) {
    !s.bad && Inside(d, end) && HoldsAt(d, s.p, ks) && EndOf(s.p, ks) <= end
  }

  lemma HereCat(d: seq<byte>, end: nat, s: St, xs: Tokens, ys: Tokens)
    requires Here(d, end, s, Cat(xs, ys))
    ensures Here(d, end, s, xs) && EndOf(s.p, Cat(xs, ys)) == EndOf(EndOf(s.p, xs), ys)
    ensures HoldsAt(d, EndOf(s.p, xs), ys) && EndOf(EndOf(s.p, xs), ys) <= end
  {
    EndCat(s.p, xs, ys);
    HoldsCat(d, s.p, xs, ys);
  }

  lemma FirstHere(d: seq<byte>, end: nat, s: St, k: Token, ks: Tokens)
    requires Here(d, end, s, Then(k, ks))
    ensures TokenAt(d, s.p, k) && TokenEnd(s.p, k) <= end && EndOf(s.p, Then(k, ks)) == EndOf(TokenEnd(s.p, k), ks)
    ensures Here(d, end, s.(p := TokenEnd(s.p, k)), ks)
  {}

  lemma ReadFix(d: seq<byte>, end: nat, s: St, n: nat, v: nat, ks: Tokens)
    requires Here(d, end, s, Then(Fix(n, v), ks)) && n <= 64
    ensures Bits(d, end, n, s) == s.(p := s.p + n) && BitsValue(d, end, n, s) == v
    ensures Here(d, end, s.(p := s.p + n), ks) && EndOf(s.p, Then(Fix(n, v), ks)) == EndOf(s.p + n, ks)
  {
    FirstHere(d, end, s, Fix(n, v), ks);
  }

  lemma ReadChunk(d: seq<byte>, end: nat, s: St, n: nat, ds: seq<nat>, ks: Tokens)
    requires Here(d, end, s, Then(Chunk(n, ds), ks))
    ensures 2 <= n <= 32 && Vbr(d, end, n, s) == s.(p := s.p + ChunksLength(n, ds)) && VbrValue(d, end, n, s) == Total(n, ds)
    ensures Here(d, end, s.(p := s.p + ChunksLength(n, ds)), ks) && EndOf(s.p, Then(Chunk(n, ds), ks)) == EndOf(s.p + ChunksLength(n, ds), ks)
  {
    FirstHere(d, end, s, Chunk(n, ds), ks);
    VbrReadsBack(d, end, n, s, ds);
  }

  lemma ReadPad(d: seq<byte>, end: nat, s: St, ks: Tokens)
    requires Here(d, end, s, Then(Pad, ks))
    ensures Align(d, end, s) == s.(p := s.p + Gap(s.p))
    ensures Here(d, end, s.(p := s.p + Gap(s.p)), ks) && EndOf(s.p, Then(Pad, ks)) == EndOf(s.p + Gap(s.p), ks)
  {
    FirstHere(d, end, s, Pad, ks);
  }

  // ---- definitions ----

  lemma ReadOp(d: seq<byte>, end: nat, s: St, ops: seq<Op>, i: nat)
    requires OpsOk(ops) && i < |ops| && Here(d, end, s, OpTokens(ops[i]))
    ensures AfterOperand(d, end, |ops|, i, s) == s.(p := EndOf(s.p, OpTokens(ops[i]))) && OperandAt(d, end, s) == ops[i].Coded()
  {
    var o := ops[i];
    match o
    case LitOp(ds) =>
      ReadFix(d, end, s, 1, 1, Unit(Chunk(8, ds)));
      ReadChunk(d, end, s.(p := s.p + 1), 8, ds, End);
    case FixedOp(ds) => ReadWide(d, end, s, 1, ds);
    case VbrOp(ds) => ReadWide(d, end, s, 2, ds);
    case ArrayOp => ReadBare(d, end, s, 3);
    case Char6Op => ReadBare(d, end, s, 4);
    case BlobOp => ReadBare(d, end, s, 5);
  }

  lemma ReadBare(d: seq<byte>, end: nat, s: St, e: nat)
    requires Here(d, end, s, Then(Fix(1, 0), Unit(Fix(3, e))))
    ensures var t := Bits(d, end, 1, s); var u := Bits(d, end, 3, t);
            && !t.bad && BitsValue(d, end, 1, s) == 0 && !u.bad && BitsValue(d, end, 3, t) == e
            && u == s.(p := EndOf(s.p, Then(Fix(1, 0), Unit(Fix(3, e)))))
  {
    ReadFix(d, end, s, 1, 0, Unit(Fix(3, e)));
    ReadFix(d, end, s.(p := s.p + 1), 3, e, End);
  }

  lemma ReadWide(d: seq<byte>, end: nat, s: St, e: nat, ds: seq<nat>)
    requires Here(d, end, s, Then(Fix(1, 0), Then(Fix(3, e), Unit(Chunk(5, ds)))))
    ensures var t := Bits(d, end, 1, s); var u := Bits(d, end, 3, t);
            && !t.bad && BitsValue(d, end, 1, s) == 0 && !u.bad && BitsValue(d, end, 3, t) == e
            && Vbr(d, end, 5, u) == s.(p := EndOf(s.p, Then(Fix(1, 0), Then(Fix(3, e), Unit(Chunk(5, ds)))))) && VbrValue(d, end, 5, u) == Total(5, ds)
  {
    ReadFix(d, end, s, 1, 0, Then(Fix(3, e), Unit(Chunk(5, ds))));
    ReadFix(d, end, s.(p := s.p + 1), 3, e, Unit(Chunk(5, ds)));
    ReadChunk(d, end, s.(p := s.p + 4), 5, ds, End);
  }

  lemma {:induction false} ReadOps(d: seq<byte>, end: nat, s: St, ops: seq<Op>, i: nat, a: seq<Operand>)
    requires OpsOk(ops) && i <= |ops| && |a| == i && Here(d, end, s, OpsTokens(ops, i))
    requires forall k :: 0 <= k < i ==> a[k] == ops[k].Coded()
    ensures Operands(d, end, |ops|, a, s) == Def(s.(p := EndOf(s.p, OpsTokens(ops, i))), Code(ops))
    decreases |ops| - i
  {
    if i < |ops| {
      HereCat(d, end, s, OpTokens(ops[i]), OpsTokens(ops, i + 1));
      ReadOp(d, end, s, ops, i);
      ReadOps(d, end, s.(p := EndOf(s.p, OpTokens(ops[i]))), ops, i + 1, a + [ops[i].Coded()]);
    } else {
      assert a == Code(ops);
    }
  }

  /** A definition, after its abbreviation code. */
  lemma ReadDefinition(d: seq<byte>, end: nat, s: St, count: seq<nat>, ops: seq<Op>)
    requires OpsOk(ops) && Total(5, count) == |ops| && Here(d, end, s, Then(Chunk(5, count), OpsTokens(ops, 0)))
    requires s.operands + |ops| <= 0x10_0000 && s.abbrevs + 1 <= 65536
    ensures Definition(d, end, s)
         == Def(s.(p := EndOf(s.p, Then(Chunk(5, count), OpsTokens(ops, 0))), operands := s.operands + |ops|, abbrevs := s.abbrevs + 1), Code(ops))
  {
    var t := ReadOpened(d, end, s, count, |ops|, OpsTokens(ops, 0));
    ReadOps(d, end, t, ops, 0, []);
    CodeArrays(ops);
    Closed(t.(p := EndOf(t.p, OpsTokens(ops, 0))), Code(ops));
  }

  lemma ReadOpened(d: seq<byte>, end: nat, s: St, count: seq<nat>, n: nat, after: Tokens) returns (t: St)
    requires Here(d, end, s, Then(Chunk(5, count), after)) && Total(5, count) == n && 0 < n <= 256 && s.operands + n <= 0x10_0000
    ensures t == s.(p := s.p + ChunksLength(5, count), operands := s.operands + n) && Opened(d, end, s) == t && VbrValue(d, end, 5, s) == n
    ensures Here(d, end, t, after) && EndOf(s.p, Then(Chunk(5, count), after)) == EndOf(t.p, after)
  {
    ReadChunk(d, end, s, 5, count, after);
    t := s.(p := s.p + ChunksLength(5, count), operands := s.operands + n);
  }

  lemma Closed(s: St, a: seq<Operand>)
    requires !s.bad && ArraysOk(a) && s.abbrevs + 1 <= 65536
    ensures Close(Def(s, a)) == Def(s.(abbrevs := s.abbrevs + 1), a)
  {}

  // ---- values ----

  lemma AlphabetIs(x: nat)
    requires x < 64
    ensures Char6(x) == Letter(x) as nat
  {}

  /** One value of a record. */
  lemma ReadCell(d: seq<byte>, end: nat, s: St, o: Op, c: Cell, vs: seq<nat>)
    requires CellOk(o, c) && o.Ok() && Here(d, end, s, CellTokens(o, c)) && s.values + 1 <= Limit(d)
    ensures AddOne(d, end, o.Coded(), Rec(s, vs)) == Rec(s.(p := EndOf(s.p, CellTokens(o, c)), values := s.values + 1), vs + [CellValue(o, c)])
  {
    match o
    case LitOp(_) =>
    case FixedOp(_) => ReadFix(d, end, s, o.Width(), c.v, End);
    case VbrOp(_) => ReadChunk(d, end, s, o.Width(), c.ds, End);
    case Char6Op =>
      ReadFix(d, end, s, 6, c.v, End);
      AlphabetIs(c.v);
  }

  /** The elements of an array or a blob from the `i`-th on. */
  lemma {:induction false} ReadTail(d: seq<byte>, end: nat, s: St, o: Op, tail: seq<Cell>, i: nat, vs: seq<nat>)
    requires TailOk(o, tail) && i <= |tail| && Here(d, end, s, TailTokens(o, tail, i)) && s.values + (|tail| - i) <= Limit(d)
    ensures Adds(d, end, o.Coded(), |tail| - i, Rec(s, vs))
         == Rec(s.(p := EndOf(s.p, TailTokens(o, tail, i)), values := s.values + (|tail| - i)), vs + TailValues(o, tail)[i..])
    decreases |tail| - i
  {
    if i < |tail| {
      HereCat(d, end, s, CellTokens(o, tail[i]), TailTokens(o, tail, i + 1));
      ReadCell(d, end, s, o, tail[i], vs);
      var t := s.(p := EndOf(s.p, CellTokens(o, tail[i])), values := s.values + 1);
      var ws := vs + [CellValue(o, tail[i])];
      ReadTail(d, end, t, o, tail, i + 1, ws);
      Shift(vs, TailValues(o, tail), i);
    } else {
      assert vs + TailValues(o, tail)[i..] == vs;
    }
  }

  /** The number of values, of an array or of a plain record. */
  lemma ReadCount(d: seq<byte>, end: nat, s: St, count: seq<nat>, n: nat, o: Operand, vs: seq<nat>, after: Tokens) returns (t: St)
    requires Total(6, count) == n && Here(d, end, s, Then(Chunk(6, count), after)) && s.values + n <= Limit(d)
    ensures t == s.(p := s.p + ChunksLength(6, count)) && Here(d, end, t, after) && EndOf(s.p, Then(Chunk(6, count), after)) == EndOf(t.p, after)
    ensures BitcodeModel.Array(d, end, o, Rec(s, vs)) == Adds(d, end, o, n, Rec(t, vs))
  {
    ReadChunk(d, end, s, 6, count, after);
    t := s.(p := s.p + ChunksLength(6, count));
  }

  lemma ReadArray(d: seq<byte>, end: nat, s: St, o: Op, count: seq<nat>, tail: seq<Cell>, vs: seq<nat>)
    requires TailOk(o, tail) && Total(6, count) == |tail| && Here(d, end, s, ArrayTokens(o, count, tail))
    requires s.values + |tail| <= Limit(d)
    ensures BitcodeModel.Array(d, end, o.Coded(), Rec(s, vs))
         == Rec(s.(p := EndOf(s.p, ArrayTokens(o, count, tail)), values := s.values + |tail|), vs + TailValues(o, tail))
  {
    var t := ReadCount(d, end, s, count, |tail|, o.Coded(), vs, TailTokens(o, tail, 0));
    ReadTail(d, end, t, o, tail, 0, vs);
    assert TailValues(o, tail)[0..] == TailValues(o, tail);
  }

  lemma ByteOpIs()
    ensures ByteOp.Ok() && ByteOp.Width() == 8 && ByteOp.Coded() == BYTE
  {}

  lemma {:induction false} BytesEnd(p: nat, tail: seq<Cell>, i: nat)
    requires TailOk(ByteOp, tail) && i <= |tail|
    ensures EndOf(p, TailTokens(ByteOp, tail, i)) == p + 8 * (|tail| - i)
    decreases |tail| - i
  {
    if i < |tail| {
      EndCat(p, CellTokens(ByteOp, tail[i]), TailTokens(ByteOp, tail, i + 1));
      BytesEnd(p + 8, tail, i + 1);
    }
  }

  /** The bytes of a blob, between their alignments. */
  lemma ReadBytes(d: seq<byte>, end: nat, s: St, tail: seq<Cell>, vs: seq<nat>)
    requires TailOk(ByteOp, tail) && s.values + |tail| <= Limit(d) && Here(d, end, s, Cat(TailTokens(ByteOp, tail, 0), Unit(Pad)))
    ensures |tail| <= (end - s.p) / 8
    ensures var q := Adds(d, end, BYTE, |tail|, Rec(s, vs));
            Rec(Align(d, end, q.s), q.vs)
            == Rec(s.(p := EndOf(s.p, Cat(TailTokens(ByteOp, tail, 0), Unit(Pad))), values := s.values + |tail|), vs + TailValues(ByteOp, tail))
  {
    HereCat(d, end, s, TailTokens(ByteOp, tail, 0), Unit(Pad));
    ByteOpIs();
    BytesEnd(s.p, tail, 0);
    ReadTail(d, end, s, ByteOp, tail, 0, vs);
    assert TailValues(ByteOp, tail)[0..] == TailValues(ByteOp, tail);
    ReadPad(d, end, s.(p := EndOf(s.p, TailTokens(ByteOp, tail, 0)), values := s.values + |tail|), End);
  }

  lemma ReadBlob(d: seq<byte>, end: nat, s: St, count: seq<nat>, tail: seq<Cell>, vs: seq<nat>)
    requires TailOk(ByteOp, tail) && Total(6, count) == |tail| <= MAX_BLOB && s.values + |tail| <= Limit(d)
    requires Here(d, end, s, BlobTokens(count, tail))
    ensures BitcodeModel.Blob(d, end, Rec(s, vs))
         == Rec(s.(p := EndOf(s.p, BlobTokens(count, tail)), values := s.values + |tail|), vs + TailValues(ByteOp, tail))
  {
    var after := Cat(TailTokens(ByteOp, tail, 0), Unit(Pad));
    ReadChunk(d, end, s, 6, count, Then(Pad, after));
    var t := s.(p := s.p + ChunksLength(6, count));
    ReadPad(d, end, t, after);
    ReadBytes(d, end, t.(p := t.p + Gap(t.p)), tail, vs);
  }

  // ---- records ----

  lemma FieldsMore(d: seq<byte>, end: nat, a: Abbrev, i: nat, r: Rec)
    requires Inside(d, end) && i < |a| && !r.s.bad
    ensures Fields(d, end, a, i, r) == Fields(d, end, a, i + FieldWidth(a[i]), FieldStep(d, end, a, i, r))
  {}

  lemma Shift<T>(vs: seq<T>, xs: seq<T>, i: nat)
    requires i < |xs|
    ensures (vs + [xs[i]]) + xs[i + 1..] == vs + xs[i..]
  {}

  /** One scalar field of an abbreviated record. */
  lemma ReadField(d: seq<byte>, end: nat, s: St, ops: seq<Op>, cells: seq<Cell>, i: nat, vs: seq<nat>)
    requires OpsOk(ops) && ArraysOk(Code(ops)) && CellsOk(ops, cells) && i < |cells| == |ops| - TailWidth(ops)
    requires Here(d, end, s, CellTokens(ops[i], cells[i])) && s.values + 1 <= Limit(d)
    ensures Fields(d, end, Code(ops), i, Rec(s, vs))
         == Fields(d, end, Code(ops), i + 1,
                   Rec(s.(p := EndOf(s.p, CellTokens(ops[i], cells[i])), values := s.values + 1), vs + [CellValue(ops[i], cells[i])]))
  {
    ReadCell(d, end, s, ops[i], cells[i], vs);
    FieldsMore(d, end, Code(ops), i, Rec(s, vs));
  }

  /** The record after its scalar fields from the `i`-th on. */
  function CellsRead(s: St, ops: seq<Op>, cells: seq<Cell>, i: nat, vs: seq<nat>): Rec
    requires CellsOk(ops, cells) && i <= |cells|
    decreases |cells| - i
  {
    if i == |cells| then Rec(s, vs)
    else CellsRead(s.(p := EndOf(s.p, CellTokens(ops[i], cells[i])), values := s.values + 1), ops, cells, i + 1, vs + [CellValue(ops[i], cells[i])])
  }

  lemma {:induction false} CellsReadIs(s: St, ops: seq<Op>, cells: seq<Cell>, i: nat, vs: seq<nat>)
    requires CellsOk(ops, cells) && i <= |cells|
    ensures CellsRead(s, ops, cells, i, vs)
         == Rec(s.(p := EndOf(s.p, CellsTokens(ops, cells, i)), values := s.values + (|cells| - i)), vs + CellValues(ops, cells)[i..])
    decreases |cells| - i
  {
    if i < |cells| {
      EndCat(s.p, CellTokens(ops[i], cells[i]), CellsTokens(ops, cells, i + 1));
      Shift(vs, CellValues(ops, cells), i);
      CellsReadIs(s.(p := EndOf(s.p, CellTokens(ops[i], cells[i])), values := s.values + 1), ops, cells, i + 1, vs + [CellValue(ops[i], cells[i])]);
    }
  }

  /** The scalar fields of an abbreviated record. */
  lemma {:induction false} ReadCells(d: seq<byte>, end: nat, s: St, ops: seq<Op>, cells: seq<Cell>, i: nat, vs: seq<nat>, q: Rec)
    requires OpsOk(ops) && ArraysOk(Code(ops)) && CellsOk(ops, cells) && |cells| == |ops| - TailWidth(ops) && i <= |cells|
    requires Here(d, end, s, CellsTokens(ops, cells, i)) && s.values + (|cells| - i) <= Limit(d) && q == CellsRead(s, ops, cells, i, vs)
    ensures Fields(d, end, Code(ops), i, Rec(s, vs)) == Fields(d, end, Code(ops), |cells|, q)
    decreases |cells| - i
  {
    if i < |cells| {
      HereCat(d, end, s, CellTokens(ops[i], cells[i]), CellsTokens(ops, cells, i + 1));
      ReadField(d, end, s, ops, cells, i, vs);
      ReadCells(d, end, s.(p := EndOf(s.p, CellTokens(ops[i], cells[i])), values := s.values + 1), ops, cells, i + 1,
                vs + [CellValue(ops[i], cells[i])], q);
    }
  }

  /** The array or the blob that ends an abbreviated record. */
  lemma ReadShortTail(d: seq<byte>, end: nat, s: St, e: Entry, vs: seq<nat>)
    requires e.Short? && ShortOk(e) && ArraysOk(Code(e.ops)) && Here(d, end, s, ShortTail(e)) && s.values + |ShortTailValues(e)| <= Limit(d)
    ensures Fields(d, end, Code(e.ops), |e.cells|, Rec(s, vs))
         == Rec(s.(p := EndOf(s.p, ShortTail(e)), values := s.values + |ShortTailValues(e)|), vs + ShortTailValues(e))
  {
    var a, k := Code(e.ops), |e.cells|;
    if k < |a| { FieldsMore(d, end, a, k, Rec(s, vs)); }
    if TailWidth(e.ops) == 2 {
      ReadArray(d, end, s, e.ops[|e.ops| - 1], e.count, e.tail, vs);
    } else if TailWidth(e.ops) == 1 {
      ReadBlob(d, end, s, e.count, e.tail, vs);
    }
  }

  lemma ReadShort(d: seq<byte>, end: nat, s: St, e: Entry)
    requires e.Short? && ShortOk(e) && ArraysOk(Code(e.ops)) && Here(d, end, s, ShortTokens(e)) && s.values + |Values(e)| <= Limit(d)
    ensures Fields(d, end, Code(e.ops), 0, Rec(s, [])) == Rec(s.(p := EndOf(s.p, ShortTokens(e)), values := s.values + |Values(e)|), Values(e))
  {
    HereCat(d, end, s, CellsTokens(e.ops, e.cells, 0), ShortTail(e));
    assert [] + CellValues(e.ops, e.cells)[0..] == CellValues(e.ops, e.cells);
    var t, vs := s.(p := EndOf(s.p, CellsTokens(e.ops, e.cells, 0)), values := s.values + |e.cells|), CellValues(e.ops, e.cells);
    CellsReadIs(s, e.ops, e.cells, 0, []);
    ReadCells(d, end, s, e.ops, e.cells, 0, [], Rec(t, vs));
    ReadShortTail(d, end, t, e, vs);
  }

  /** One value of a plain record. */
  lemma ReadDigits(d: seq<byte>, end: nat, s: St, ds: seq<nat>, ks: Tokens, vs: seq<nat>)
    requires Here(d, end, s, Then(Chunk(6, ds), ks)) && s.values + 1 <= Limit(d)
    ensures var t := s.(p := s.p + ChunksLength(6, ds), values := s.values + 1);
            && AddOne(d, end, VBR6, Rec(s, vs)) == Rec(t, vs + [Total(6, ds)])
            && Here(d, end, t, ks) && EndOf(s.p, Then(Chunk(6, ds), ks)) == EndOf(t.p, ks)
  {
    ReadChunk(d, end, s, 6, ds, ks);
  }

  /** The record after the values of a plain record from the `i`-th on. */
  function ValuesRead(s: St, values: seq<seq<nat>>, i: nat, vs: seq<nat>): Rec
    requires i <= |values|
    decreases |values| - i
  {
    if i == |values| then Rec(s, vs)
    else ValuesRead(s.(p := s.p + ChunksLength(6, values[i]), values := s.values + 1), values, i + 1, vs + [Total(6, values[i])])
  }

  lemma {:induction false} ValuesReadIs(s: St, values: seq<seq<nat>>, i: nat, vs: seq<nat>)
    requires i <= |values|
    ensures ValuesRead(s, values, i, vs)
         == Rec(s.(p := EndOf(s.p, DigitsTokens(values, i)), values := s.values + (|values| - i)), vs + Totals(values)[i..])
    decreases |values| - i
  {
    if i < |values| {
      Shift(vs, Totals(values), i);
      ValuesReadIs(s.(p := s.p + ChunksLength(6, values[i]), values := s.values + 1), values, i + 1, vs + [Total(6, values[i])]);
    }
  }

  lemma {:induction false} ReadValues(d: seq<byte>, end: nat, s: St, values: seq<seq<nat>>, i: nat, vs: seq<nat>)
    requires i <= |values| && Here(d, end, s, DigitsTokens(values, i)) && s.values + (|values| - i) <= Limit(d)
    ensures Adds(d, end, VBR6, |values| - i, Rec(s, vs)) == ValuesRead(s, values, i, vs)
    decreases |values| - i
  {
    if i < |values| {
      ReadDigits(d, end, s, values[i], DigitsTokens(values, i + 1), vs);
      ReadValues(d, end, s.(p := s.p + ChunksLength(6, values[i]), values := s.values + 1), values, i + 1, vs + [Total(6, values[i])]);
    }
  }

  /** The operands of a plain record, after their number. */
  lemma ReadCounted(d: seq<byte>, end: nat, s: St, count: seq<nat>, values: seq<seq<nat>>, vs: seq<nat>)
    requires Total(6, count) == |values| && Here(d, end, s, Then(Chunk(6, count), DigitsTokens(values, 0))) && s.values + |values| <= Limit(d)
    ensures BitcodeModel.Array(d, end, VBR6, Rec(s, vs))
         == Rec(s.(p := EndOf(s.p, Then(Chunk(6, count), DigitsTokens(values, 0))), values := s.values + |values|), vs + Totals(values))
  {
    var t := ReadCount(d, end, s, count, |values|, VBR6, vs, DigitsTokens(values, 0));
    ReadValues(d, end, t, values, 0, vs);
    ValuesReadIs(t, values, 0, vs);
    assert Totals(values)[0..] == Totals(values);
  }

  lemma ReadPlain(d: seq<byte>, end: nat, s: St, e: Entry)
    requires e.Plain? && Formed(e) && Here(d, end, s, PlainTokens(e)) && s.values + |Values(e)| <= Limit(d)
    ensures BitcodeModel.Array(d, end, VBR6, AddOne(d, end, VBR6, Rec(s, [])))
         == Rec(s.(p := EndOf(s.p, PlainTokens(e)), values := s.values + |Values(e)|), Values(e))
  {
    ReadDigits(d, end, s, e.code, Then(Chunk(6, e.count), DigitsTokens(e.values, 0)), []);
    assert [] + [Total(6, e.code)] == [Total(6, e.code)];
    ReadCounted(d, end, s.(p := s.p + ChunksLength(6, e.code), values := s.values + 1), e.count, e.values, [Total(6, e.code)]);
  }

  /** What follows the abbreviation code of a record. */
  function RecordTokens(e: Entry): Tokens
    requires IsRecord(e) && Formed(e)
  {
    if e.Plain? then PlainTokens(e) else ShortTokens(e)
  }

  function CodeOf(e: Entry): nat
    requires IsRecord(e)
  {
    if e.Plain? then 3 else e.abbrev
  }

  lemma RecordRead(d: seq<byte>, end: nat, s: St, sc: Scope, e: Entry)
    requires Inside(d, end) && IsRecord(e) && Formed(e) && |Values(e)| > 0 && Here(d, end, s, RecordTokens(e)) && s.values + |Values(e)| <= Limit(d)
    requires e.Short? ==> e.abbrev - 4 < |sc.abbrevs| && sc.abbrevs[e.abbrev - 4] == Code(e.ops)
    ensures RecordAt(d, end, CodeOf(e) == 3, if CodeOf(e) > 3 then sc.abbrevs[CodeOf(e) - 4] else [], s)
         == Rec(s.(p := EndOf(s.p, RecordTokens(e)), values := s.values + |Values(e)|), Values(e))
  {
    if e.Plain? {
      ReadPlain(d, end, s, e);
    } else {
      CodeArrays(e.ops);
      ReadShort(d, end, s, e);
    }
  }

  /** A record that has been read joins the plan. */
  lemma KeptAfter(f: Frame, sc: Scope, s: St, e: Entry, p: nat)
    requires IsRecord(e) && Formed(e) && RecordFitting(f.id, e) && |s.records| < MAX_RECORDS && !s.bad
    ensures var o := RecordAfter(f.id, e, sc, s, p);
            Kept(f, sc, s.p, CodeOf(e), Rec(s.(p := p, values := s.values + |Values(e)|), Values(e))) == More(o.sc, o.s)
  {}

  /** A record, after its abbreviation code; `s` is where the code stands. */
  lemma ReadRecord(d: seq<byte>, f: Frame, sc: Scope, s: St, e: Entry, t: St)
    requires FrameOk(d, f) && IsRecord(e) && Formed(e) && Fitting(f.id, f.width, f.depth, e, sc, s)
    requires Here(d, f.end, t, RecordTokens(e)) && t == s.(p := t.p)
    requires s.values + |Values(e)| <= Limit(d) && |s.records| < MAX_RECORDS
    ensures var o := RecordAfter(f.id, e, sc, s, EndOf(t.p, RecordTokens(e)));
            RecordItem(d, f, sc, s.p, CodeOf(e), t) == More(o.sc, o.s)
  {
    RecordRead(d, f.end, t, sc, e);
    KeptAfter(f, sc, s, e, EndOf(t.p, RecordTokens(e)));
  }

  // ---- blocks ----

  lemma ReadSub(d: seq<byte>, end: nat, s: St, body: Tokens, id: nat, w: nat)
    requires Here(d, end, s, Unit(Sub(body))) && 2 <= w <= 32
    ensures Extent(d, end, id, w, s) == Head(s.(p := s.p + 32), id, w, EndOf(s.p + 32, body)) && EndOf(s.p, Unit(Sub(body))) == EndOf(s.p + 32, body)
    ensures Here(d, EndOf(s.p + 32, body), s.(p := s.p + 32), body) && EndOf(s.p + 32, body) <= end
  {
    FirstHere(d, end, s, Sub(body), End);
  }

  lemma ReadHead(d: seq<byte>, end: nat, s: St, id: seq<nat>, width: seq<nat>, body: Tokens)
    requires Here(d, end, s, HeadTokens(id, width, body)) && 2 <= Total(4, width) <= 32
    ensures var p, q := HeadEnd(s.p, id, width), EndOf(s.p, HeadTokens(id, width, body));
            && HeadAt(d, end, s) == Head(s.(p := p), Total(8, id), Total(4, width), q)
            && q == EndOf(p, body) <= end && Here(d, q, s.(p := p), body)
  {
    ReadHeadOf(d, end, s, id, width, Unit(Sub(body)), body, EndOf(s.p, HeadTokens(id, width, body)));
  }

  lemma ReadHeadOf(d: seq<byte>, end: nat, s: St, id: seq<nat>, width: seq<nat>, after: Tokens, body: Tokens, q: nat)
    requires Here(d, end, s, Then(Chunk(8, id), Then(Chunk(4, width), Then(Pad, after)))) && 2 <= Total(4, width) <= 32
    requires after == Unit(Sub(body)) && q == EndOf(s.p, Then(Chunk(8, id), Then(Chunk(4, width), Then(Pad, after))))
    ensures HeadAt(d, end, s) == Head(s.(p := HeadEnd(s.p, id, width)), Total(8, id), Total(4, width), q)
    ensures q == EndOf(HeadEnd(s.p, id, width), body) <= end && Here(d, q, s.(p := HeadEnd(s.p, id, width)), body)
  {
    var u := ReadHeadStart(d, end, s, id, width, after);
    ReadAligned(d, end, u, body, Total(8, id), Total(4, width), HeadEnd(s.p, id, width), q);
  }

  lemma ReadHeadStart(d: seq<byte>, end: nat, s: St, id: seq<nat>, width: seq<nat>, after: Tokens) returns (u: St)
    requires Here(d, end, s, Then(Chunk(8, id), Then(Chunk(4, width), Then(Pad, after))))
    ensures u == s.(p := s.p + ChunksLength(8, id) + ChunksLength(4, width))
    ensures HeadAt(d, end, s) == Extent(d, end, Total(8, id), Total(4, width), Align(d, end, u))
    ensures Here(d, end, u, Then(Pad, after)) && EndOf(s.p, Then(Chunk(8, id), Then(Chunk(4, width), Then(Pad, after)))) == EndOf(u.p, Then(Pad, after))
  {
    u := ReadIdAndWidth(d, end, s, id, width, after);
    HeadIs(d, end, s, u);
  }

  lemma HeadIs(d: seq<byte>, end: nat, s: St, u: St)
    requires Inside(d, end) && u == Vbr(d, end, 4, Vbr(d, end, 8, s))
    ensures HeadAt(d, end, s) == Extent(d, end, VbrValue(d, end, 8, s), VbrValue(d, end, 4, Vbr(d, end, 8, s)), Align(d, end, u))
  {}

  lemma ReadAligned(d: seq<byte>, end: nat, s: St, body: Tokens, id: nat, w: nat, p: nat, q: nat)
    requires Here(d, end, s, Then(Pad, Unit(Sub(body)))) && 2 <= w <= 32
    requires p == s.p + Gap(s.p) + 32 && q == EndOf(s.p, Then(Pad, Unit(Sub(body))))
    ensures Extent(d, end, id, w, Align(d, end, s)) == Head(s.(p := p), id, w, q)
    ensures q == EndOf(p, body) <= end && Here(d, q, s.(p := p), body)
  {
    ReadPad(d, end, s, Unit(Sub(body)));
    ReadSub(d, end, s.(p := s.p + Gap(s.p)), body, id, w);
  }

  lemma ReadIdAndWidth(d: seq<byte>, end: nat, s: St, id: seq<nat>, width: seq<nat>, after: Tokens) returns (u: St)
    requires Here(d, end, s, Then(Chunk(8, id), Then(Chunk(4, width), Then(Pad, after))))
    ensures u == s.(p := s.p + ChunksLength(8, id) + ChunksLength(4, width))
    ensures Vbr(d, end, 4, Vbr(d, end, 8, s)) == u && VbrValue(d, end, 8, s) == Total(8, id) && VbrValue(d, end, 4, Vbr(d, end, 8, s)) == Total(4, width)
    ensures Here(d, end, u, Then(Pad, after)) && EndOf(s.p, Then(Chunk(8, id), Then(Chunk(4, width), Then(Pad, after)))) == EndOf(u.p, Then(Pad, after))
  {
    ReadChunk(d, end, s, 8, id, Then(Chunk(4, width), Then(Pad, after)));
    var t := s.(p := s.p + ChunksLength(8, id));
    ReadChunk(d, end, t, 4, width, Then(Pad, after));
    u := t.(p := t.p + ChunksLength(4, width));
  }

  lemma ReadDefine(d: seq<byte>, f: Frame, sc: Scope, s: St, e: Entry)
    requires FrameOk(d, f) && e.Define? && Formed(e) && Fitting(f.id, f.width, f.depth, e, sc, s) && (f.top ==> f.id != 0)
    requires Here(d, f.end, s, EntryTokens(e, f.width)) && s.operands + |e.ops| <= 0x10_0000 && s.abbrevs + 1 <= 65536 && s.p < f.end
    ensures var o := DefineAfter(f.id, e, sc, s, EndOf(s.p, EntryTokens(e, f.width))); Item(d, f, sc, s) == More(o.sc, o.s)
  {
    var after := Then(Chunk(5, e.count), OpsTokens(e.ops, 0));
    ReadFix(d, f.end, s, f.width, 2, after);
    ReadDefinition(d, f.end, s.(p := s.p + f.width), e.count, e.ops);
    CodeArrays(e.ops);
  }

  lemma ReadRecordEntry(d: seq<byte>, f: Frame, sc: Scope, s: St, e: Entry)
    requires FrameOk(d, f) && IsRecord(e) && Formed(e) && Fitting(f.id, f.width, f.depth, e, sc, s)
    requires Here(d, f.end, s, EntryTokens(e, f.width)) && s.p < f.end
    requires s.values + |Values(e)| <= Limit(d) && |s.records| < MAX_RECORDS
    ensures var o := RecordAfter(f.id, e, sc, s, EndOf(s.p, EntryTokens(e, f.width))); Item(d, f, sc, s) == More(o.sc, o.s)
  {
    ReadFix(d, f.end, s, f.width, CodeOf(e), RecordTokens(e));
    ReadRecord(d, f, sc, s, e, s.(p := s.p + f.width));
    ItemIsRecord(d, f, sc, s, CodeOf(e));
  }

  lemma ItemIsRecord(d: seq<byte>, f: Frame, sc: Scope, s: St, code: nat)
    requires FrameOk(d, f) && s.p < f.end && !Bits(d, f.end, f.width, s).bad && BitsValue(d, f.end, f.width, s) == code >= 3
    ensures Item(d, f, sc, s) == RecordItem(d, f, sc, s.p, code, Bits(d, f.end, f.width, s))
  {}

  /** The tree adds as many records as it holds. */
  lemma {:induction false} RecordsAdded(id: nat, w: nat, depth: nat, es: Entries, sc: Scope, s: St)
    requires AllFormed(es) && AllFitting(id, w, depth, es, sc, s)
    ensures |EntriesAfter(id, w, es, sc, s).s.records| == |s.records| + RecordCount(es)
    decreases es, 0
  {
    if es.MoreEntries? {
      var o := EntryAfter(id, w, es.first, sc, s);
      RecordsAdded(id, w, depth, es.rest, o.sc, o.s);
      if es.first.Nest? { RecordsNested(id, w, depth, es.first, sc, s); }
    }
  }

  lemma {:induction false} RecordsNested(id: nat, w: nat, depth: nat, e: Entry, sc: Scope, s: St)
    requires e.Nest? && Formed(e) && Fitting(id, w, depth, e, sc, s)
    ensures |EntryAfter(id, w, e, sc, s).s.records| == |s.records| + RecordCount(e.entries)
    decreases e, 0
  {
    var inner := Total(8, e.id);
    RecordsAdded(inner, Total(4, e.width), depth + 1, e.entries, Scope(GivenTo(s.info, inner), None), NestStart(w, e, s));
  }

  /** The end of a block. */
  lemma ReadEnd(d: seq<byte>, f: Frame, sc: Scope, s: St)
    requires FrameOk(d, f) && !f.top && Here(d, f.end, s, Then(Fix(f.width, 0), Unit(Pad))) && EndOf(s.p, Then(Fix(f.width, 0), Unit(Pad))) == f.end
    ensures Items(d, f, sc, s) == s.(p := f.end)
  {
    ReadFix(d, f.end, s, f.width, 0, Unit(Pad));
    ReadPad(d, f.end, s.(p := s.p + f.width), End);
  }

  /** Nothing of the frame but its state differs. */
  predicate FrameFor(d: seq<byte>, f: Frame, sc: Scope, s: St, es: Entries) {
    FrameOk(d, f) && (f.top ==> f.id != 0) && AllFormed(es) && AllFitting(f.id, f.width, f.depth, es, sc, s)
  }

  /** The entries of a block are read one by one. */
  lemma {:induction false} ReadEntries(d: seq<byte>, f: Frame, sc: Scope, s: St, es: Entries)
    requires FrameFor(d, f, sc, s, es) && Here(d, f.end, s, EntriesTokens(es, f.width))
    requires Bounded(d, EntriesAfter(f.id, f.width, es, sc, s).s)
    ensures var o := EntriesAfter(f.id, f.width, es, sc, s);
            !o.s.bad && Items(d, f, sc, s) == Items(d, f, o.sc, o.s) && o.s.p == EndOf(s.p, EntriesTokens(es, f.width))
    decreases es, 0
  {
    if es.MoreEntries? {
      var o := EntryAfter(f.id, f.width, es.first, sc, s);
      HereCat(d, f.end, s, EntryTokens(es.first, f.width), EntriesTokens(es.rest, f.width));
      ReadEntry(d, f, sc, s, es.first);
      ReadEntries(d, f, o.sc, o.s, es.rest);
      ItemsStep(d, f, sc, s, o);
    }
  }

  lemma ItemsStep(d: seq<byte>, f: Frame, sc: Scope, s: St, o: Out)
    requires FrameOk(d, f) && !s.bad && s.p < f.end && !o.s.bad && Item(d, f, sc, s) == More(o.sc, o.s)
    ensures Items(d, f, sc, s) == Items(d, f, o.sc, o.s)
  {}

  lemma {:induction false} ReadEntry(d: seq<byte>, f: Frame, sc: Scope, s: St, e: Entry)
    requires FrameOk(d, f) && (f.top ==> f.id != 0) && Formed(e) && Fitting(f.id, f.width, f.depth, e, sc, s)
    requires Here(d, f.end, s, EntryTokens(e, f.width)) && Bounded(d, EntryAfter(f.id, f.width, e, sc, s).s)
    ensures var o := EntryAfter(f.id, f.width, e, sc, s);
            s.p < f.end && !o.s.bad && Item(d, f, sc, s) == More(o.sc, o.s) && o.s.p == EndOf(s.p, EntryTokens(e, f.width))
    decreases e, 1
  {
    EntryBegins(e, f.width, s.p);
    match e
    case Define(_, _) => ReadDefine(d, f, sc, s, e);
    case Plain(_, _, _) => ReadRecordEntry(d, f, sc, s, e);
    case Short(_, _, _, _, _) => ReadRecordEntry(d, f, sc, s, e);
    case Nest(_, _, _) => ReadNest(d, f, sc, s, e);
  }

  lemma EntryBegins(e: Entry, w: nat, p: nat)
    requires Formed(e)
    ensures EntryTokens(e, w).Then? && EntryTokens(e, w).head.Fix? && EntryTokens(e, w).head.n == w && EndOf(p, EntryTokens(e, w)) >= p + w
  {}

  /** A nested block, from its abbreviation code on. */
  lemma {:induction false} ReadNest(d: seq<byte>, f: Frame, sc: Scope, s: St, e: Entry)
    requires FrameOk(d, f) && e.Nest? && Formed(e) && Fitting(f.id, f.width, f.depth, e, sc, s) && s.p < f.end
    requires Here(d, f.end, s, EntryTokens(e, f.width)) && Bounded(d, EntryAfter(f.id, f.width, e, sc, s).s)
    ensures var o := EntryAfter(f.id, f.width, e, sc, s); Item(d, f, sc, s) == More(o.sc, o.s)
    decreases e, 0
  {
    var id, w := Total(8, e.id), Total(4, e.width);
    var p, end := HeadEnd(s.p + f.width, e.id, e.width), EndOf(s.p, EntryTokens(e, f.width));
    ReadNestHead(d, f, sc, s, e);
    ReadBody(d, Frame(id, w, end, f.depth + 1, false), NestStart(f.width, e, s), e.entries);
    RecordsNested(f.id, f.width, f.depth, e, sc, s);
    var t := EntriesAfter(id, w, e.entries, Scope(GivenTo(s.info, id), None), NestStart(f.width, e, s)).s;
    WholeNest(d, f, s, e, Head(s.(p := p), id, w, end), t);
  }

  lemma ReadNestHead(d: seq<byte>, f: Frame, sc: Scope, s: St, e: Entry)
    requires FrameOk(d, f) && e.Nest? && Formed(e) && Here(d, f.end, s, EntryTokens(e, f.width)) && s.p < f.end
    ensures var p, end, body := HeadEnd(s.p + f.width, e.id, e.width), EndOf(s.p, EntryTokens(e, f.width)), BodyTokens(e.entries, Total(4, e.width));
            && p <= end <= f.end && EndOf(p, body) == end && Here(d, end, s.(p := p), body)
            && Item(d, f, sc, s) == More(sc, SubBlock(d, f, s.p, Head(s.(p := p), Total(8, e.id), Total(4, e.width), end)))
  {
    var body := BodyTokens(e.entries, Total(4, e.width));
    ReadFix(d, f.end, s, f.width, 1, HeadTokens(e.id, e.width, body));
    ReadHead(d, f.end, s.(p := s.p + f.width), e.id, e.width, body);
  }

  /** A block whose body is read as `t` is listed with the records of its subtree. */
  lemma WholeNest(d: seq<byte>, f: Frame, s: St, e: Entry, h: Head, t: St)
    requires FrameOk(d, f) && e.Nest? && Formed(e) && !t.bad && !s.bad
    requires h == Head(s.(p := HeadEnd(s.p + f.width, e.id, e.width)), Total(8, e.id), Total(4, e.width), EndOf(s.p, EntryTokens(e, f.width)))
    requires h.s.p <= h.finish <= f.end && |s.blocks| < |t.blocks| && |t.records| == |s.records| + RecordCount(e.entries)
    requires BlockAt(d, Frame(h.id, h.width, h.finish, f.depth + 1, false), NestStart(f.width, e, s)) == t.(p := h.finish)
    ensures SubBlock(d, f, s.p, h) == NestEnd(f.width, e, s, t)
  {
    assert NestStart(f.width, e, s) == h.s.(blocks := h.s.blocks + [Block(h.id, s.p, h.s.p, h.finish, h.width, 0)]);
  }

  /** The body of a nested block, to its end. */
  lemma {:induction false} ReadBody(d: seq<byte>, f: Frame, s: St, es: Entries)
    requires FrameFor(d, f, Scope(GivenTo(s.info, f.id), None), s, es) && !f.top && f.depth <= MAX_DEPTH && |s.blocks| <= MAX_BLOCKS
    requires Here(d, f.end, s, BodyTokens(es, f.width)) && EndOf(s.p, BodyTokens(es, f.width)) == f.end
    requires Bounded(d, EntriesAfter(f.id, f.width, es, Scope(GivenTo(s.info, f.id), None), s).s)
    ensures BlockAt(d, f, s) == EntriesAfter(f.id, f.width, es, Scope(GivenTo(s.info, f.id), None), s).s.(p := f.end)
    decreases es, 1
  {
    var sc := Scope(GivenTo(s.info, f.id), None);
    HereCat(d, f.end, s, EntriesTokens(es, f.width), Then(Fix(f.width, 0), Unit(Pad)));
    ReadEntries(d, f, sc, s, es);
    var o := EntriesAfter(f.id, f.width, es, sc, s);
    ReadEnd(d, f, o.sc, o.s);
  }

  /** A written file is parsed, to the plan of its tree. */
  lemma WrittenParses(d: seq<byte>, es: Entries)
    requires WrittenFrom(d, es) && Readable(d, es)
    ensures ParsePlan(d) == Some(PlanFrom(es))
  {
    var f, sc := Frame(TOP, 2, 8 * |d|, 0, true), Scope([], None);
    ReadEntries(d, f, sc, Start(), es);
  }
}
