/** The method-body parser accepts exactly the assembled bodies, as what they stand for. */
module CilReads {
  import opened Bytes
  import opened CilModel
  import opened CilAssembly

  // ---- numbers ----

  /** Byte `i` of `x` stands at `p + i`. */
  predicate ByteIs(v: seq<byte>, p: nat, x: seq<byte>, i: nat) { i < |x| && p + i < |v| && v[p + i] == x[i] }

  /** The bytes `x` stand at `p`. */
  ghost predicate Holds(v: seq<byte>, p: nat, x: seq<byte>) {
    p + |x| <= |v| && forall i: nat {:trigger ByteIs(v, p, x, i)} :: i < |x| ==> ByteIs(v, p, x, i)
  }

  lemma {:induction false} HoldsSlice(v: seq<byte>, p: nat, n: nat)
    requires p + n <= |v|
    ensures Holds(v, p, v[p..p + n])
  {}

  lemma {:induction false} HoldsPrefix(v: seq<byte>, x: seq<byte>)
    ensures Holds(v, 0, x) <==> |x| <= |v| && v[..|x|] == x
  {
    if Holds(v, 0, x) {
      forall i: nat | i < |x| ensures v[i] == x[i] { assert ByteIs(v, 0, x, i); }
    }
  }

  lemma {:induction false} HasNone(v: seq<byte>, p: nat)
    ensures Holds(v, p, []) <==> p <= |v|
  {}

  lemma {:induction false} HasOne(v: seq<byte>, p: nat, x: byte)
    ensures Holds(v, p, [x]) <==> p < |v| && v[p] == x
  {
    if Holds(v, p, [x]) { assert ByteIs(v, p, [x], 0); }
  }

  lemma {:induction false} HasPair(v: seq<byte>, p: nat, x: byte, y: byte)
    ensures Holds(v, p, [x, y]) <==> p + 2 <= |v| && v[p] == x && v[p + 1] == y
  {
    if Holds(v, p, [x, y]) { assert ByteIs(v, p, [x, y], 0) && ByteIs(v, p, [x, y], 1); }
  }

  lemma {:induction false} HasConcat(v: seq<byte>, p: nat, x: seq<byte>, y: seq<byte>)
    ensures Holds(v, p, x + y) <==> Holds(v, p, x) && Holds(v, p + |x|, y)
  {
    if Holds(v, p, x + y) {
      forall i: nat {:trigger ByteIs(v, p, x, i)} | i < |x| ensures ByteIs(v, p, x, i) { assert ByteIs(v, p, x + y, i) && (x + y)[i] == x[i]; }
      forall i: nat {:trigger ByteIs(v, p + |x|, y, i)} | i < |y| ensures ByteIs(v, p + |x|, y, i) {
        assert ByteIs(v, p, x + y, |x| + i) && (x + y)[|x| + i] == y[i];
      }
    }
    if Holds(v, p, x) && Holds(v, p + |x|, y) { HoldsAppend(v, p, x, y); }
  }

  lemma {:induction false} HoldsAppend(v: seq<byte>, p: nat, x: seq<byte>, y: seq<byte>)
    requires Holds(v, p, x) && Holds(v, p + |x|, y)
    ensures Holds(v, p, x + y)
  {
    forall i: nat {:trigger ByteIs(v, p, x + y, i)} | i < |x + y| ensures ByteIs(v, p, x + y, i) {
      if i < |x| { assert ByteIs(v, p, x, i); } else { assert ByteIs(v, p + |x|, y, i - |x|); }
    }
  }

  lemma {:induction false} TwoHas(v: seq<byte>, p: nat, x: nat)
    requires x < 0x1_0000
    ensures Holds(v, p, Two(x)) <==> p + 2 <= |v| && U16At(v, p) == x
  {
    HasPair(v, p, x % 0x100, x / 0x100);
  }

  lemma {:induction false} FourHas(v: seq<byte>, p: nat, x: nat)
    requires x < B32
    ensures Holds(v, p, Four(x)) <==> p + 4 <= |v| && U32At(v, p) == x
  {
    HasConcat(v, p, Two(x % 0x1_0000), Two(x / 0x1_0000));
    TwoHas(v, p, x % 0x1_0000);
    TwoHas(v, p + 2, x / 0x1_0000);
  }

  // ---- instructions ----

  /** The parser's operand kind for a format. */
  function KindOf(f: Option<Format>): Opd {
    if f.None? then Illegal
    else if f.value.Plain().Some? then Raw(f.value.Plain().value)
    else if f.value.InlineSwitch? then Switch
    else Token(f.value.Reference().value)
  }

  lemma {:induction false} OneByteKind(op: byte)
    ensures Opd1(op) == KindOf(OneByte(op))
  {}

  lemma {:induction false} TwoByteKind(op: byte)
    ensures TwoByte(op) == None || op < 32
    ensures Opd2(op) == KindOf(TwoByte(op))
  {}

  lemma {:induction false} TokenIs(c: Class, v: nat)
    ensures ValidTok(v, c) <==> Names(c, v / 0x100_0000, v % 0x100_0000)
  {}

  lemma {:induction false} TokenParts(v: nat, t: nat, r: nat)
    requires r < 0x100_0000 && v == TokenValue(t, r)
    ensures v / 0x100_0000 == t && v % 0x100_0000 == r
  {}

  /** The opcode of an instruction. */
  lemma {:induction false} OpIs(v: seq<byte>, p: nat, end: nat, i: Ins)
    requires p < end <= |v| && Opcode(i) && Holds(v, p, OpBytes(i)) && (i.prefixed ==> p + 1 < end)
    ensures OpdAt(v, p, end) == (KindOf(Some(i.format)), p + |OpBytes(i)|)
  {
    OneByteKind(i.op);
    TwoByteKind(i.op);
    if i.prefixed { HasPair(v, p, 0xfe, i.op); } else { HasOne(v, p, i.op); }
  }

  lemma {:induction false} ReadTargets(v: seq<byte>, q: nat, end: nat, ts: List<nat>, strict: bool)
    requires Length(ts) < B32 && TargetsFit(ts) && Holds(v, q, Four(Length(ts)) + TargetBytes(ts)) && q + 4 + 4 * Length(ts) <= end <= |v|
    ensures InstrOf(v, Switch, q, end, strict) == Some(Instr(q + 4 + 4 * Length(ts), None))
  {
    HasConcat(v, q, Four(Length(ts)), TargetBytes(ts));
    FourHas(v, q, Length(ts));
    assert 4 * Length(ts) <= end - q - 4;
  }

  lemma {:induction false} ReadRef(v: seq<byte>, q: nat, end: nat, c: Class, table: nat, row: nat, strict: bool)
    requires IsToken(table, row) && (strict ==> Names(c, table, row)) && Holds(v, q, Four(TokenValue(table, row))) && q + 4 <= end <= |v|
    ensures InstrOf(v, Token(c), q, end, strict) == Some(Instr(q + 4, Some(Tok(q, c, TokenValue(table, row)))))
  {
    FourHas(v, q, TokenValue(table, row));
    TokenParts(TokenValue(table, row), table, row);
    TokenIs(c, TokenValue(table, row));
  }

  /** An operand that stands at `q`. */
  lemma {:induction false} ReadArg(v: seq<byte>, q: nat, end: nat, i: Ins, strict: bool)
    requires InsOk(i, strict) && Holds(v, q, ArgBytes(i, strict)) && q + |ArgBytes(i, strict)| <= end <= |v|
    ensures InstrOf(v, KindOf(Some(i.format)), q, end, strict)
         == Some(Instr(q + |ArgBytes(i, strict)|,
                       if i.arg.Ref? then Some(Tok(q, i.format.Reference().value, TokenValue(i.arg.table, i.arg.row))) else None))
  {
    match i.arg
    case Bytes(_) =>
    case Targets(ts) => ReadTargets(v, q, end, ts, strict);
    case Ref(table, row) => ReadRef(v, q, end, i.format.Reference().value, table, row, strict);
  }

  lemma {:induction false} ReadIns(v: seq<byte>, p: nat, end: nat, i: Ins, strict: bool)
    requires Opcode(i) && InsOk(i, strict) && Holds(v, p, InsBytes(i, strict)) && p + |InsBytes(i, strict)| <= end <= |v|
    ensures p < end && InstrAt(v, p, end, strict) == Some(Instr(p + |InsBytes(i, strict)|, InsTok(i, strict, p)))
  {
    HasConcat(v, p, OpBytes(i), ArgBytes(i, strict));
    OpIs(v, p, end, i);
    ReadArg(v, p + |OpBytes(i)|, end, i, strict);
  }

  lemma {:induction false} CodeStep(v: seq<byte>, p: nat, end: nat, strict: bool, acc: seq<Tok>, x: Instr)
    requires p < end <= |v| && InstrAt(v, p, end, strict) == Some(x)
    ensures Code(v, p, end, strict, acc) == Code(v, x.next, end, strict, Append(acc, x.tok))
  {}

  /** The first instruction, and the others behind it. */
  lemma {:induction false} FirstIns(v: seq<byte>, p: nat, ins: List<Ins>, strict: bool, q: nat)
    requires ins.Cons? && CodeOk(ins, strict) && Holds(v, p, CodeBytes(ins, strict)) && q == p + |InsBytes(ins.head, strict)|
    ensures InsOk(ins.head, strict) && Holds(v, p, InsBytes(ins.head, strict)) && CodeOk(ins.tail, strict) && Holds(v, q, CodeBytes(ins.tail, strict))
    ensures p + |CodeBytes(ins, strict)| == q + |CodeBytes(ins.tail, strict)|
  {
    HasConcat(v, p, InsBytes(ins.head, strict), CodeBytes(ins.tail, strict));
  }

  /** The tokens after `acc`. */
  function ToksAfter(ins: List<Ins>, strict: bool, p: nat, acc: seq<Tok>): seq<Tok>
    requires CodeOk(ins, strict)
    decreases ins
  {
    if ins.Nil? then acc else ToksAfter(ins.tail, strict, p + |InsBytes(ins.head, strict)|, Append(acc, InsTok(ins.head, strict, p)))
  }

  lemma {:induction false} ToksAfterIs(ins: List<Ins>, strict: bool, p: nat, acc: seq<Tok>)
    requires CodeOk(ins, strict)
    ensures ToksAfter(ins, strict, p, acc) == acc + CodeToks(ins, strict, p)
    decreases ins
  {
    if ins.Cons? {
      var q, t := p + |InsBytes(ins.head, strict)|, InsTok(ins.head, strict, p);
      ToksAfterIs(ins.tail, strict, q, Append(acc, t));
      if t.Some? { Glue(acc, [t.value], CodeToks(ins.tail, strict, q)); }
    }
  }

  lemma {:induction false} OpcodesTail(ins: List<Ins>)
    requires ins.Cons? && Opcodes(ins)
    ensures Opcode(ins.head) && Opcodes(ins.tail)
  {
    assert In(ins.head, ins);
    forall i {:trigger In(i, ins.tail)} | In(i, ins.tail) ensures Opcode(i) { assert In(i, ins); }
  }

  lemma {:induction false} OpcodesCons(i: Ins, ins: List<Ins>)
    requires Opcode(i) && Opcodes(ins)
    ensures Opcodes(Cons(i, ins))
  {
    forall j {:trigger In(j, Cons(i, ins))} | In(j, Cons(i, ins)) ensures Opcode(j) { if j != i { assert In(j, ins); } }
  }

  /** The first instruction is read. */
  lemma {:induction false} ReadFirst(v: seq<byte>, p: nat, end: nat, ins: List<Ins>, strict: bool, acc: seq<Tok>, q: nat, acc': seq<Tok>)
    requires ins.Cons? && CodeOk(ins, strict) && Opcodes(ins) && Holds(v, p, CodeBytes(ins, strict)) && p + |CodeBytes(ins, strict)| == end <= |v|
    requires q == p + |InsBytes(ins.head, strict)| && acc' == Append(acc, InsTok(ins.head, strict, p))
    ensures p < end && q <= end && Code(v, p, end, strict, acc) == Code(v, q, end, strict, acc')
    ensures CodeOk(ins.tail, strict) && Opcodes(ins.tail) && Holds(v, q, CodeBytes(ins.tail, strict)) && q + |CodeBytes(ins.tail, strict)| == end
    ensures ToksAfter(ins, strict, p, acc) == ToksAfter(ins.tail, strict, q, acc')
  {
    FirstIns(v, p, ins, strict, q);
    OpcodesTail(ins);
    ReadIns(v, p, end, ins.head, strict);
    CodeStep(v, p, end, strict, acc, Instr(q, InsTok(ins.head, strict, p)));
  }

  lemma {:induction false} ReadCode(v: seq<byte>, p: nat, end: nat, ins: List<Ins>, strict: bool, acc: seq<Tok>, ts: seq<Tok>)
    requires CodeOk(ins, strict) && Opcodes(ins) && Holds(v, p, CodeBytes(ins, strict)) && p + |CodeBytes(ins, strict)| == end <= |v|
    requires ts == ToksAfter(ins, strict, p, acc)
    ensures Code(v, p, end, strict, acc) == Some(ts)
    decreases ins
  {
    if ins.Nil? {
      ReadNothing(v, p, strict, acc);
    } else {
      var q, acc' := p + |InsBytes(ins.head, strict)|, Append(acc, InsTok(ins.head, strict, p));
      ReadFirst(v, p, end, ins, strict, acc, q, acc');
      ReadCode(v, q, end, ins.tail, strict, acc', ts);
    }
  }

  lemma {:induction false} ReadNothing(v: seq<byte>, p: nat, strict: bool, acc: seq<Tok>)
    requires p <= |v|
    ensures Code(v, p, p, strict, acc) == Some(acc)
  {}

  // ---- and back ----

  lemma {:induction false} FindTargets(v: seq<byte>, q: nat, n: nat) returns (ts: List<nat>)
    requires q + 4 * n <= |v|
    ensures Length(ts) == n && TargetsFit(ts) && Holds(v, q, TargetBytes(ts))
    decreases n
  {
    ts := Nil;
    if n > 0 {
      var x := U32At(v, q);
      var tail := FindTargets(v, q + 4, n - 1);
      FourHas(v, q, x);
      ts := Cons(x, tail);
      HasConcat(v, q, Four(x), TargetBytes(tail));
    }
  }

  /** The operand that was read. */
  lemma {:induction false} FindArg(v: seq<byte>, q: nat, end: nat, f: Format, strict: bool) returns (a: Arg)
    requires end <= |v| && InstrOf(v, KindOf(Some(f)), q, end, strict).Some?
    ensures forall prefixed, op :: var i := Ins(prefixed, op, f, a);
            InsOk(i, strict) && Holds(v, q, ArgBytes(i, strict)) && q + |ArgBytes(i, strict)| <= end
  {
    if f.Plain().Some? {
      var b := v[q..q + f.Plain().value];
      HoldsSlice(v, q, f.Plain().value);
      a := Arg.Bytes(b);
    } else if f.InlineSwitch? {
      var n := U32At(v, q);
      assert 4 * n <= end - q - 4;
      var ts := FindTargets(v, q + 4, n);
      FourHas(v, q, n);
      HasConcat(v, q, Four(n), TargetBytes(ts));
      a := Targets(ts);
    } else {
      var x := U32At(v, q);
      TokenIs(f.Reference().value, x);
      FourHas(v, q, x);
      a := Ref(x / 0x100_0000, x % 0x100_0000);
      assert TokenValue(x / 0x100_0000, x % 0x100_0000) == x;
    }
  }

  /** The opcode that was read, with any operand. */
  lemma {:induction false} FindOp(v: seq<byte>, p: nat, end: nat, a: Arg) returns (i: Ins)
    requires p < end <= |v| && OpdAt(v, p, end).0 != Illegal
    ensures Opcode(i) && i.arg == a && Holds(v, p, OpBytes(i)) && OpdAt(v, p, end) == (KindOf(Some(i.format)), p + |OpBytes(i)|) && p + |OpBytes(i)| <= end
  {
    if v[p] == 0xfe {
      TwoByteKind(v[p + 1]);
      i := Ins(true, v[p + 1], TwoByte(v[p + 1]).value, a);
      HasPair(v, p, 0xfe, v[p + 1]);
    } else {
      OneByteKind(v[p]);
      i := Ins(false, v[p], OneByte(v[p]).value, a);
      HasOne(v, p, v[p]);
    }
  }

  lemma {:induction false} FindIns(v: seq<byte>, p: nat, end: nat, strict: bool) returns (i: Ins)
    requires p < end <= |v| && InstrAt(v, p, end, strict).Some?
    ensures Opcode(i) && InsOk(i, strict) && Holds(v, p, InsBytes(i, strict)) && p + |InsBytes(i, strict)| <= end
  {
    var j := FindOp(v, p, end, Arg.Bytes([]));
    var a := FindArg(v, p + |OpBytes(j)|, end, j.format, strict);
    i := j.(arg := a);
    assert i == Ins(j.prefixed, j.op, j.format, a);
    HasConcat(v, p, OpBytes(i), ArgBytes(i, strict));
  }

  lemma {:induction false} JoinCode(v: seq<byte>, p: nat, i: Ins, rest: List<Ins>, strict: bool)
    requires InsOk(i, strict) && CodeOk(rest, strict)
    requires Holds(v, p, InsBytes(i, strict)) && Holds(v, p + |InsBytes(i, strict)|, CodeBytes(rest, strict))
    ensures CodeOk(Cons(i, rest), strict) && Holds(v, p, CodeBytes(Cons(i, rest), strict))
    ensures |CodeBytes(Cons(i, rest), strict)| == |InsBytes(i, strict)| + |CodeBytes(rest, strict)|
  {
    HasConcat(v, p, InsBytes(i, strict), CodeBytes(rest, strict));
  }

  /** The first instruction of code that was walked, and where the others begin. */
  lemma {:induction false} FindFirst(v: seq<byte>, p: nat, end: nat, strict: bool, acc: seq<Tok>) returns (i: Ins, q: nat, acc': seq<Tok>)
    requires p < end <= |v| && Code(v, p, end, strict, acc).Some?
    ensures Opcode(i) && InsOk(i, strict) && Holds(v, p, InsBytes(i, strict)) && q == p + |InsBytes(i, strict)|
    ensures p < q <= end && Code(v, q, end, strict, acc').Some?
  {
    var x := InstrAt(v, p, end, strict).value;
    i := FindIns(v, p, end, strict);
    ReadIns(v, p, end, i, strict);
    CodeStep(v, p, end, strict, acc, x);
    q, acc' := x.next, Append(acc, x.tok);
  }

  lemma {:induction false} FindCode(v: seq<byte>, p: nat, end: nat, strict: bool, acc: seq<Tok>) returns (ins: List<Ins>)
    requires p <= end <= |v| && Code(v, p, end, strict, acc).Some?
    ensures CodeOk(ins, strict) && Opcodes(ins) && Holds(v, p, CodeBytes(ins, strict)) && p + |CodeBytes(ins, strict)| == end
    decreases end - p
  {
    ins := Nil;
    if p < end {
      var i, q, acc' := FindFirst(v, p, end, strict, acc);
      var rest := FindCode(v, q, end, strict, acc');
      ins := Cons(i, rest);
      JoinAll(v, p, end, i, q, rest, ins, strict);
    }
  }

  /** An instruction and the code behind it. */
  lemma {:induction false} JoinAll(v: seq<byte>, p: nat, end: nat, i: Ins, q: nat, rest: List<Ins>, ins: List<Ins>, strict: bool)
    requires Opcode(i) && InsOk(i, strict) && Holds(v, p, InsBytes(i, strict)) && q == p + |InsBytes(i, strict)| && ins == Cons(i, rest)
    requires CodeOk(rest, strict) && Opcodes(rest) && Holds(v, q, CodeBytes(rest, strict)) && q + |CodeBytes(rest, strict)| == end
    ensures CodeOk(ins, strict) && Opcodes(ins) && Holds(v, p, CodeBytes(ins, strict)) && p + |CodeBytes(ins, strict)| == end
  {
    JoinCode(v, p, i, rest, strict);
    OpcodesCons(i, rest);
  }

  // ---- exception clauses ----

  lemma {:induction false} FatHas(v: seq<byte>, q: nat, c: Handler)
    requires HandlerFits(c, true)
    ensures Holds(v, q, HandlerBytes(c, true)) <==>
      && q + 24 <= |v| && U32At(v, q) == c.flags && U32At(v, q + 4) == c.tryOff && U32At(v, q + 8) == c.tryLen
      && U32At(v, q + 12) == c.handlerOff && U32At(v, q + 16) == c.handlerLen && U32At(v, q + 20) == c.last
  {
    var a := Four(c.flags) + Four(c.tryOff);
    var b := a + Four(c.tryLen);
    var d := b + Four(c.handlerOff);
    HasConcat(v, q, d + Four(c.handlerLen), Four(c.last));
    HasConcat(v, q, d, Four(c.handlerLen));
    HasConcat(v, q, b, Four(c.handlerOff));
    HasConcat(v, q, a, Four(c.tryLen));
    HasConcat(v, q, Four(c.flags), Four(c.tryOff));
    FourHas(v, q, c.flags);
    FourHas(v, q + 4, c.tryOff);
    FourHas(v, q + 8, c.tryLen);
    FourHas(v, q + 12, c.handlerOff);
    FourHas(v, q + 16, c.handlerLen);
    FourHas(v, q + 20, c.last);
  }

  lemma {:induction false} SmallHas(v: seq<byte>, q: nat, c: Handler)
    requires HandlerFits(c, false)
    ensures Holds(v, q, HandlerBytes(c, false)) <==>
      && q + 12 <= |v| && U16At(v, q) == c.flags && U16At(v, q + 2) == c.tryOff && v[q + 4] == c.tryLen
      && U16At(v, q + 5) == c.handlerOff && v[q + 7] == c.handlerLen && U32At(v, q + 8) == c.last
  {
    var a := Two(c.flags) + Two(c.tryOff);
    var b := a + [c.tryLen];
    var d := b + Two(c.handlerOff);
    HasConcat(v, q, d + [c.handlerLen], Four(c.last));
    HasConcat(v, q, d, [c.handlerLen]);
    HasConcat(v, q, b, Two(c.handlerOff));
    HasConcat(v, q, a, [c.tryLen]);
    HasConcat(v, q, Two(c.flags), Two(c.tryOff));
    TwoHas(v, q, c.flags);
    TwoHas(v, q + 2, c.tryOff);
    HasOne(v, q + 4, c.tryLen);
    TwoHas(v, q + 5, c.handlerOff);
    HasOne(v, q + 7, c.handlerLen);
    FourHas(v, q + 8, c.last);
  }

  /** The fields of a clause are read at their places. */
  lemma {:induction false} FieldsAt(v: seq<byte>, q: nat, fat: bool)
    requires q + ClauseSize(fat) <= |v|
    ensures FieldsOf(fat, v[q..TokPlace(q, fat)])
         == if fat then Fields(U32At(v, q), U32At(v, q + 4), U32At(v, q + 8), U32At(v, q + 12), U32At(v, q + 16))
            else Fields(U16At(v, q), U16At(v, q + 2), v[q + 4], U16At(v, q + 5), v[q + 7])
  {}

  lemma {:induction false} HandlerHas(v: seq<byte>, q: nat, fat: bool, c: Handler)
    requires HandlerFits(c, fat)
    ensures Holds(v, q, HandlerBytes(c, fat)) <==>
      q + ClauseSize(fat) <= |v| && ClauseAt(v, q, fat) == ClauseOf(c, fat, q) && U32At(v, TokPlace(q, fat)) == c.last
  {
    if fat { FatHas(v, q, c); } else { SmallHas(v, q, c); }
    if q + ClauseSize(fat) <= |v| { FieldsAt(v, q, fat); }
  }

  lemma {:induction false} HandlerStrict(c: Handler, fat: bool, strict: bool, q: nat)
    requires HandlerFits(c, fat)
    ensures HandlerOk(c, fat, strict) <==> ClauseOk(ClauseOf(c, fat, q), strict)
  {
    TokenIs(TkType, c.last);
  }

  lemma {:induction false} ListStep(v: seq<byte>, q: nat, n: nat, fat: bool)
    requires 0 < n && q + ClauseSpan(fat, n) <= |v|
    ensures ClauseList(v, q, n, fat) == [ClauseAt(v, q, fat)] + ClauseList(v, q + ClauseSize(fat), n - 1, fat)
  {
    var a, b := ClauseList(v, q, n, fat), [ClauseAt(v, q, fat)] + ClauseList(v, q + ClauseSize(fat), n - 1, fat);
    forall i | 0 <= i < n ensures a[i] == b[i] {
      if i > 0 { assert ClauseStart(q, fat, i) == ClauseStart(q + ClauseSize(fat), fat, i - 1); }
    }
  }

  lemma {:induction false} AllOkStep(c: Clause, cs: seq<Clause>, strict: bool)
    ensures AllOk([c] + cs, strict) <==> ClauseOk(c, strict) && AllOk(cs, strict)
  {
    if AllOk([c] + cs, strict) {
      assert ([c] + cs)[0] == c;
      forall i | 0 <= i < |cs| ensures ClauseOk(cs[i], strict) { assert ([c] + cs)[i + 1] == cs[i]; }
    }
  }

  lemma {:induction false} ReadTable(v: seq<byte>, q: nat, hs: List<Handler>, fat: bool, strict: bool)
    requires HandlersOk(hs, fat, strict) && Holds(v, q, HandlersBytes(hs, fat, strict))
    ensures q + ClauseSpan(fat, Length(hs)) <= |v|
    ensures ClauseList(v, q, Length(hs), fat) == TableClauses(hs, fat, q) && AllOk(ClauseList(v, q, Length(hs), fat), strict)
    decreases hs
  {
    if hs.Cons? {
      var c, rest := hs.head, hs.tail;
      HasConcat(v, q, HandlerBytes(c, fat), HandlersBytes(rest, fat, strict));
      HandlerHas(v, q, fat, c);
      HandlerStrict(c, fat, strict, q);
      ReadTable(v, q + ClauseSize(fat), rest, fat, strict);
      ListStep(v, q, Length(hs), fat);
      AllOkStep(ClauseAt(v, q, fat), ClauseList(v, q + ClauseSize(fat), Length(rest), fat), strict);
    }
  }

  lemma {:induction false} FindHandler(v: seq<byte>, q: nat, fat: bool, strict: bool) returns (c: Handler)
    requires q + ClauseSize(fat) <= |v| && ClauseOk(ClauseAt(v, q, fat), strict)
    ensures HandlerOk(c, fat, strict) && Holds(v, q, HandlerBytes(c, fat))
  {
    FieldsAt(v, q, fat);
    var f := ClauseAt(v, q, fat).fields;
    c := Handler(f.flags, f.tryOff, f.tryLen, f.handlerOff, f.handlerLen, U32At(v, TokPlace(q, fat)));
    HandlerHas(v, q, fat, c);
    HandlerStrict(c, fat, strict, q);
  }

  lemma {:induction false} FindTable(v: seq<byte>, q: nat, n: nat, fat: bool, strict: bool) returns (hs: List<Handler>)
    requires q + ClauseSpan(fat, n) <= |v| && AllOk(ClauseList(v, q, n, fat), strict)
    ensures Length(hs) == n && HandlersOk(hs, fat, strict) && Holds(v, q, HandlersBytes(hs, fat, strict))
    decreases n
  {
    hs := Nil;
    if n > 0 {
      ListStep(v, q, n, fat);
      AllOkStep(ClauseAt(v, q, fat), ClauseList(v, q + ClauseSize(fat), n - 1, fat), strict);
      var c := FindHandler(v, q, fat, strict);
      var rest := FindTable(v, q + ClauseSize(fat), n - 1, fat, strict);
      hs := Cons(c, rest);
      HasConcat(v, q, HandlerBytes(c, fat), HandlersBytes(rest, fat, strict));
    }
  }

  // ---- sections ----

  lemma {:induction false} KindBits(s: Part, more: bool)
    ensures KindByte(s, more) % 0x40 == (if s.content.Table? then 1 else 2) && (KindByte(s, more) / 0x40 % 2 == 1 <==> s.fat) && (KindByte(s, more) >= 0x80 <==> more)
  {}

  function SizeBytes(s: Part, n: nat): (r: seq<byte>)
    requires |s.reserved| == (if s.fat then 0 else 2) && n < if s.fat then 0x100_0000 else 0x100
    ensures |r| == 3
  {
    if s.fat then Two(n % 0x1_0000) + [n / 0x1_0000] else [n] + s.reserved
  }

  /** The header of a section: its kind and its size. */
  lemma {:induction false} SizeHas(v: seq<byte>, p: nat, s: Part, more: bool, n: nat)
    requires |s.reserved| == (if s.fat then 0 else 2) && n < (if s.fat then 0x100_0000 else 0x100) && Holds(v, p, [KindByte(s, more)] + SizeBytes(s, n))
    ensures p + 4 <= |v| && v[p] == KindByte(s, more) && SectionSize(v, p) == n
  {
    HasConcat(v, p, [KindByte(s, more)], SizeBytes(s, n));
    HasOne(v, p, KindByte(s, more));
    KindBits(s, more);
    if s.fat {
      HasConcat(v, p + 1, Two(n % 0x1_0000), [n / 0x1_0000]);
      TwoHas(v, p + 1, n % 0x1_0000);
      HasOne(v, p + 3, n / 0x1_0000);
    } else {
      HasConcat(v, p + 1, [n], s.reserved);
      HasOne(v, p + 1, n);
    }
  }

  lemma {:induction false} CountIs(fat: bool, n: nat)
    ensures WholeClauses(fat, ClauseSpan(fat, n)) && ClauseCount(fat, ClauseSpan(fat, n)) == n
  {}

  /** A section that stands at `p`. */
  lemma {:induction false} ReadPart(v: seq<byte>, p: nat, s: Part, more: bool, strict: bool, acc: seq<Clause>)
    requires PartOk(s, strict) && Holds(v, p, PartBytes(s, more, strict))
    ensures p + 4 <= |v| && SectionSize(v, p) == |PartBytes(s, more, strict)| && p + SectionSize(v, p) <= |v| && (MoreSections(v, p) <==> more)
    ensures Section(v, p, strict, acc) == Some(acc + PartClauses(s, p))
  {
    var content := ContentBytes(s.content, s.fat, strict);
    var n := 4 + |content|;
    HasConcat(v, p, [KindByte(s, more)] + SizeBytes(s, n), content);
    SizeHas(v, p, s, more, n);
    KindBits(s, more);
    if s.content.Table? {
      var hs := s.content.handlers;
      ReadTable(v, p + 4, hs, s.fat, strict);
      CountIs(s.fat, Length(hs));
    } else {
      assert acc + [] == acc;
    }
  }

  lemma {:induction false} PadIs(p: nat, k: nat)
    requires k < 4 && (p + k) % 4 == 0
    ensures Align4(p) == p + k
  {}

  lemma {:induction false} SectionsStep(v: seq<byte>, p: nat, strict: bool, acc: seq<Clause>, cs: seq<Clause>)
    requires p + 4 <= |v| && 4 <= SectionSize(v, p) && p + SectionSize(v, p) <= |v| && Section(v, p, strict, acc) == Some(cs)
    ensures Sections(v, p, strict, acc)
         == if MoreSections(v, p) then Sections(v, Align4(p + SectionSize(v, p)), strict, cs) else Some((cs, p + SectionSize(v, p)))
  {}

  /** The first of several sections, between the bytes that align it and the others. */
  lemma {:induction false} FirstPart(v: seq<byte>, p: nat, ss: List<Part>, strict: bool, q: nat, e: nat)
    requires ss.Cons? && PartsOk(ss, strict, p) && Holds(v, p, PartsBytes(ss, strict, p))
    requires q == p + |ss.head.pad| && e == q + |PartBytes(ss.head, ss.tail.Cons?, strict)|
    ensures Align4(p) == q && Holds(v, q, PartBytes(ss.head, ss.tail.Cons?, strict)) && PartsOk(ss.tail, strict, e) && Holds(v, e, PartsBytes(ss.tail, strict, e))
    ensures p + |PartsBytes(ss, strict, p)| == e + |PartsBytes(ss.tail, strict, e)|
  {
    var b, rest := PartBytes(ss.head, ss.tail.Cons?, strict), PartsBytes(ss.tail, strict, e);
    PadIs(p, |ss.head.pad|);
    HasConcat(v, p, ss.head.pad, b + rest);
    HasConcat(v, q, b, rest);
  }

  /** The clauses after `acc`. */
  function ClausesAfter(ss: List<Part>, strict: bool, p: nat, acc: seq<Clause>): seq<Clause>
    requires PartsOk(ss, strict, p)
    decreases ss
  {
    if ss.Nil? then acc
    else
      var q := p + |ss.head.pad|;
      ClausesAfter(ss.tail, strict, q + |PartBytes(ss.head, ss.tail.Cons?, strict)|, acc + PartClauses(ss.head, q))
  }

  lemma {:induction false} ClausesAfterIs(ss: List<Part>, strict: bool, p: nat, acc: seq<Clause>)
    requires PartsOk(ss, strict, p)
    ensures ClausesAfter(ss, strict, p, acc) == acc + PartsClauses(ss, strict, p)
    decreases ss
  {
    if ss.Cons? {
      var q := p + |ss.head.pad|;
      var e := q + |PartBytes(ss.head, ss.tail.Cons?, strict)|;
      ClausesAfterIs(ss.tail, strict, e, acc + PartClauses(ss.head, q));
      Glue(acc, PartClauses(ss.head, q), PartsClauses(ss.tail, strict, e));
    }
  }

  lemma {:induction false} ReadParts(v: seq<byte>, p: nat, ss: List<Part>, strict: bool, acc: seq<Clause>)
    requires ss.Cons? && PartsOk(ss, strict, p) && Holds(v, p, PartsBytes(ss, strict, p))
    ensures Sections(v, Align4(p), strict, acc) == Some((ClausesAfter(ss, strict, p, acc), p + |PartsBytes(ss, strict, p)|))
    decreases ss
  {
    var q := p + |ss.head.pad|;
    var e := q + |PartBytes(ss.head, ss.tail.Cons?, strict)|;
    FirstPart(v, p, ss, strict, q, e);
    ReadPart(v, q, ss.head, ss.tail.Cons?, strict, acc);
    SectionsStep(v, q, strict, acc, acc + PartClauses(ss.head, q));
    if ss.tail.Cons? { ReadParts(v, e, ss.tail, strict, acc + PartClauses(ss.head, q)); }
  }

  // ---- and back ----

  lemma {:induction false} FindSize(v: seq<byte>, p: nat, s: Part, more: bool, n: nat)
    requires p + 4 <= |v| && SectionSize(v, p) == n && v[p] == KindByte(s, more) && s.reserved == if s.fat then [] else v[p + 2..p + 4]
    ensures n < (if s.fat then 0x100_0000 else 0x100) && Holds(v, p, [KindByte(s, more)] + SizeBytes(s, n))
  {
    KindBits(s, more);
    HasOne(v, p, KindByte(s, more));
    if s.fat {
      TwoHas(v, p + 1, n % 0x1_0000);
      HasOne(v, p + 3, n / 0x1_0000);
      HasConcat(v, p + 1, Two(n % 0x1_0000), [n / 0x1_0000]);
    } else {
      HasOne(v, p + 1, n);
      HoldsSlice(v, p + 2, 2);
      HasConcat(v, p + 1, [n], s.reserved);
    }
    HasConcat(v, p, [KindByte(s, more)], SizeBytes(s, n));
  }

  lemma {:induction false} KindFrom(k: byte, s: Part, more: bool)
    requires (k % 0x40 == if s.content.Table? then 1 else 2) && (k / 0x40 % 2 == 1 <==> s.fat) && (k >= 0x80 <==> more)
    ensures KindByte(s, more) == k
  {}

  /** The content of a section that was read. */
  lemma {:induction false} FindContent(v: seq<byte>, p: nat, strict: bool, acc: seq<Clause>) returns (c: Content)
    requires p + 4 <= |v| && 4 <= SectionSize(v, p) && p + SectionSize(v, p) <= |v| && Section(v, p, strict, acc).Some?
    ensures ContentOk(c, FatSection(v, p), strict) && Holds(v, p + 4, ContentBytes(c, FatSection(v, p), strict))
    ensures 4 + |ContentBytes(c, FatSection(v, p), strict)| == SectionSize(v, p) && (v[p] % 0x40 == if c.Table? then 1 else 2)
  {
    var fat, n := FatSection(v, p), SectionSize(v, p) - 4;
    if v[p] % 0x40 == 1 {
      SpanIs(fat, n);
      var hs := FindTable(v, p + 4, ClauseCount(fat, n), fat, strict);
      c := Table(hs);
    } else {
      var b := v[p + 4..p + 4 + n];
      HoldsSlice(v, p + 4, n);
      c := Obsolete(b);
    }
  }

  lemma {:induction false} SpanIs(fat: bool, n: nat)
    requires WholeClauses(fat, n)
    ensures ClauseSpan(fat, ClauseCount(fat, n)) == n
  {}

  lemma {:induction false} FindPart(v: seq<byte>, p: nat, q: nat, strict: bool, acc: seq<Clause>) returns (s: Part)
    requires q + 4 <= |v| && 4 <= SectionSize(v, q) && q + SectionSize(v, q) <= |v| && Section(v, q, strict, acc).Some?
    requires p <= q < p + 4
    ensures PartOk(s, strict) && s.pad == v[p..q] && Holds(v, q, PartBytes(s, MoreSections(v, q), strict))
  {
    var c := FindContent(v, q, strict, acc);
    var fat, more, n := FatSection(v, q), MoreSections(v, q), SectionSize(v, q);
    s := Part(v[p..q], fat, if fat then [] else v[q + 2..q + 4], c);
    KindFrom(v[q], s, more);
    FindSize(v, q, s, more, n);
    HasConcat(v, q, [KindByte(s, more)] + SizeBytes(s, n), ContentBytes(c, fat, strict));
  }

  lemma {:induction false} Aligned(p: nat)
    ensures p <= Align4(p) < p + 4 && Align4(p) % 4 == 0
  {}

  lemma {:induction false} FindParts(v: seq<byte>, p: nat, strict: bool, acc: seq<Clause>) returns (ss: List<Part>)
    requires Sections(v, Align4(p), strict, acc).Some?
    ensures ss.Cons? && PartsOk(ss, strict, p) && Holds(v, p, PartsBytes(ss, strict, p))
    decreases |v| - p
  {
    var q := Align4(p);
    Aligned(p);
    var s := FindPart(v, p, q, strict, acc);
    ReadPart(v, q, s, MoreSections(v, q), strict, acc);
    var e := q + |PartBytes(s, MoreSections(v, q), strict)|;
    SectionsStep(v, q, strict, acc, acc + PartClauses(s, q));
    var rest: List<Part> := Nil;
    if MoreSections(v, q) {
      rest := FindParts(v, e, strict, acc + PartClauses(s, q));
    } else {
      HasNone(v, e);
    }
    ss := Cons(s, rest);
    JoinParts(v, p, q, e, s, rest, strict);
  }

  lemma {:induction false} JoinParts(v: seq<byte>, p: nat, q: nat, e: nat, s: Part, rest: List<Part>, strict: bool)
    requires p <= q <= |v| && q < p + 4 && q % 4 == 0 && PartOk(s, strict) && s.pad == v[p..q] && Holds(v, q, PartBytes(s, rest.Cons?, strict))
    requires e == q + |PartBytes(s, rest.Cons?, strict)| && PartsOk(rest, strict, e) && Holds(v, e, PartsBytes(rest, strict, e))
    ensures PartsOk(Cons(s, rest), strict, p) && Holds(v, p, PartsBytes(Cons(s, rest), strict, p))
  {
    HoldsSlice(v, p, q - p);
    var b := PartBytes(s, rest.Cons?, strict);
    HasConcat(v, q, b, PartsBytes(rest, strict, e));
    HasConcat(v, p, s.pad, b + PartsBytes(rest, strict, e));
  }

  // ---- bodies ----

  /** The header an assembled body stands for. */
  function HeaderOf(t: Asm, strict: bool): Header
    requires AsmOk(t, strict)
  {
    var n := |CodeBytes(t.ins, strict)|;
    if t.Tiny? then Header(false, 1, n, 0, 0, false) else Header(true, 12, n, t.maxStack, t.local, t.parts.Cons?)
  }

  predicate FatFits(low: byte, high: byte, maxStack: nat, n: nat, local: nat, strict: bool) {
    && low % 4 == 3 && high / 16 == 3 && maxStack < 0x1_0000 && n <= MAX_CODE && local < B32
    && (strict && local != 0 ==> local / 0x100_0000 == STAND_ALONE_SIG)
  }

  lemma {:induction false} FatHeaderHas(v: seq<byte>, low: byte, high: byte, maxStack: nat, n: nat, local: nat)
    requires maxStack < 0x1_0000 && n < B32 && local < B32
    ensures Holds(v, 0, FatHeader(low, high, maxStack, n, local)) <==>
      12 <= |v| && v[0] == low && v[1] == high && U16At(v, 2) == maxStack && U32At(v, 4) == n && U32At(v, 8) == local
  {
    var a := [low, high] + Two(maxStack);
    HasConcat(v, 0, a + Four(n), Four(local));
    HasConcat(v, 0, a, Four(n));
    HasConcat(v, 0, [low, high], Two(maxStack));
    HasPair(v, 0, low, high);
    TwoHas(v, 2, maxStack);
    FourHas(v, 4, n);
    FourHas(v, 8, local);
  }

  lemma {:induction false} FatHeaderAt(v: seq<byte>, low: byte, high: byte, maxStack: nat, n: nat, local: nat, strict: bool)
    requires FatFits(low, high, maxStack, n, local, strict) && Holds(v, 0, FatHeader(low, high, maxStack, n, local))
    ensures 12 <= |v| && HeaderAt(v, strict) == Some(Header(true, 12, n, maxStack, local, low / 8 % 2 == 1))
  {
    FatHeaderHas(v, low, high, maxStack, n, local);
  }

  lemma {:induction false} TinyHeaderAt(v: seq<byte>, n: nat, strict: bool)
    requires n < 64 && Holds(v, 0, [4 * n + 2])
    ensures |v| > 0 && HeaderAt(v, strict) == Some(Header(false, 1, n, 0, 0, false))
  {
    HasOne(v, 0, 4 * n + 2);
  }

  lemma {:induction false} ReadHeader(v: seq<byte>, t: Asm, strict: bool)
    requires AsmOk(t, strict) && Holds(v, 0, HeaderBytes(t, strict))
    ensures |v| > 0 && HeaderAt(v, strict) == Some(HeaderOf(t, strict))
  {
    var n := |CodeBytes(t.ins, strict)|;
    if t.Tiny? { TinyHeaderAt(v, n, strict); } else { FatHeaderAt(v, t.low, t.high, t.maxStack, n, t.local, strict); }
  }

  /** The parts of an assembled body stand one after the other. */
  lemma {:induction false} AsmParts(v: seq<byte>, t: Asm, strict: bool)
    requires AsmOk(t, strict)
    ensures var h, code := HeaderLength(t), CodeBytes(t.ins, strict);
            && (Holds(v, 0, AsmBytes(t, strict)) <==>
                Holds(v, 0, HeaderBytes(t, strict)) && Holds(v, h, code) && (t.Fat? ==> Holds(v, h + |code|, PartsBytes(t.parts, strict, 12 + |code|))))
            && |AsmBytes(t, strict)| == h + |code| + if t.Tiny? then 0 else |PartsBytes(t.parts, strict, 12 + |code|)|
  {
    var code := CodeBytes(t.ins, strict);
    var rest := if t.Tiny? then [] else PartsBytes(t.parts, strict, 12 + |code|);
    HasConcat(v, 0, HeaderBytes(t, strict), code + rest);
    HasConcat(v, HeaderLength(t), code, rest);
    if Holds(v, HeaderLength(t), code) {
      HasNone(v, HeaderLength(t) + |code|);
    }
  }

  lemma {:induction false} ReadAsmCode(v: seq<byte>, p: nat, ins: List<Ins>, strict: bool)
    requires CodeOk(ins, strict) && Opcodes(ins) && Holds(v, p, CodeBytes(ins, strict))
    ensures p + |CodeBytes(ins, strict)| <= |v| && Code(v, p, p + |CodeBytes(ins, strict)|, strict, []) == Some(CodeToks(ins, strict, p))
  {
    ReadCode(v, p, p + |CodeBytes(ins, strict)|, ins, strict, [], ToksAfter(ins, strict, p, []));
    ToksAfterIs(ins, strict, p, []);
    assert [] + CodeToks(ins, strict, p) == CodeToks(ins, strict, p);
  }

  lemma {:induction false} ReadAsmParts(v: seq<byte>, p: nat, ss: List<Part>, strict: bool)
    requires ss.Cons? && PartsOk(ss, strict, p) && Holds(v, p, PartsBytes(ss, strict, p))
    ensures Align4(p) == p + |ss.head.pad|
    ensures Sections(v, Align4(p), strict, []) == Some((PartsClauses(ss, strict, p), p + |PartsBytes(ss, strict, p)|))
  {
    PadIs(p, |ss.head.pad|);
    ReadParts(v, p, ss, strict, []);
    ClausesAfterIs(ss, strict, p, []);
    assert [] + PartsClauses(ss, strict, p) == PartsClauses(ss, strict, p);
  }

  function PartsOf(t: Asm): List<Part> { if t.Tiny? then Nil else t.parts }

  function CodeEnd(t: Asm, strict: bool): nat
    requires AsmOk(t, strict)
  {
    HeaderLength(t) + |CodeBytes(t.ins, strict)|
  }

  /** The clauses of sections after position `p`, and where the last one ends. */
  function SectionsOf(ss: List<Part>, strict: bool, p: nat): Option<(seq<Clause>, nat)>
    requires PartsOk(ss, strict, p)
  {
    if ss.Nil? then None else Some((PartsClauses(ss, strict, p), p + |PartsBytes(ss, strict, p)|))
  }

  lemma {:induction false} SectionsRead(v: seq<byte>, ss: List<Part>, strict: bool, p: nat)
    requires PartsOk(ss, strict, p) && Holds(v, p, PartsBytes(ss, strict, p))
    ensures SectionsOf(ss, strict, p) == if ss.Cons? then Sections(v, Align4(p), strict, []) else None
  {
    if ss.Cons? {
      ReadAsmParts(v, p, ss, strict);
      assert SectionsOf(ss, strict, p) == Some((PartsClauses(ss, strict, p), p + |PartsBytes(ss, strict, p)|));
    }
  }

  lemma {:induction false} PartsStand(v: seq<byte>, t: Asm, strict: bool, p: nat)
    requires AsmOk(t, strict) && p == CodeEnd(t, strict) && Holds(v, 0, AsmBytes(t, strict))
    ensures PartsOk(PartsOf(t), strict, p) && Holds(v, p, PartsBytes(PartsOf(t), strict, p))
  {
    AsmParts(v, t, strict);
    if Holds(v, HeaderLength(t), CodeBytes(t.ins, strict)) { HasNone(v, p); }
  }

  lemma {:induction false} PartsAligned(t: Asm, strict: bool, p: nat)
    requires AsmOk(t, strict) && p == CodeEnd(t, strict)
    ensures PartsOk(PartsOf(t), strict, p)
    ensures PartsOf(t).Cons? ==> Align4(p) == p + |PartsOf(t).head.pad|
  {
    if PartsOf(t).Cons? { PadIs(p, |t.parts.head.pad|); }
  }

  lemma {:induction false} BodyMade(v: seq<byte>, t: Asm, strict: bool, p: nat)
    requires AsmOk(t, strict) && p == CodeEnd(t, strict) && PartsOk(PartsOf(t), strict, p)
    ensures Assemble(HeaderOf(t, strict), Some(CodeToks(t.ins, strict, HeaderLength(t))), SectionsOf(PartsOf(t), strict, p)) == Some(BodyOf(t, strict))
  {
    AsmParts(v, t, strict);
    PartsAligned(t, strict, p);
  }

  /** A body is read as what it stands for. */
  lemma {:induction false} ReadAsm(v: seq<byte>, t: Asm, strict: bool)
    requires AsmOk(t, strict) && Opcodes(t.ins) && Holds(v, 0, AsmBytes(t, strict))
    ensures BodyAt(v, strict) == Some(BodyOf(t, strict))
  {
    var p := CodeEnd(t, strict);
    AsmParts(v, t, strict);
    ReadHeader(v, t, strict);
    ReadAsmCode(v, HeaderLength(t), t.ins, strict);
    PartsStand(v, t, strict, p);
    SectionsRead(v, PartsOf(t), strict, p);
    BodyMade(v, t, strict, p);
    BodyFrom(v, strict, HeaderOf(t, strict), Some(CodeToks(t.ins, strict, HeaderLength(t))), SectionsOf(PartsOf(t), strict, p));
  }

  lemma {:induction false} BodyFrom(v: seq<byte>, strict: bool, h: Header, toks: Option<seq<Tok>>, s: Option<(seq<Clause>, nat)>)
    requires |v| > 0 && HeaderAt(v, strict) == Some(h) && h.hdrLen + h.codeLen <= |v| && Code(v, h.hdrLen, h.hdrLen + h.codeLen, strict, []) == toks
    requires s == if h.sections then Sections(v, Align4(h.hdrLen + h.codeLen), strict, []) else None
    ensures BodyAt(v, strict) == Assemble(h, toks, s)
  {}

  // ---- and back ----

  lemma {:induction false} FindFat(v: seq<byte>, strict: bool)
    requires |v| > 0 && HeaderAt(v, strict).Some? && HeaderAt(v, strict).value.fat
    ensures var h := HeaderAt(v, strict).value;
            && 12 <= |v| && h.hdrLen == 12 && FatFits(v[0], v[1], h.maxStack, h.codeLen, h.localTok, strict) && (h.sections <==> v[0] / 8 % 2 == 1)
            && Holds(v, 0, FatHeader(v[0], v[1], h.maxStack, h.codeLen, h.localTok))
  {
    var h := HeaderAt(v, strict).value;
    FatHeaderHas(v, v[0], v[1], h.maxStack, h.codeLen, h.localTok);
  }

  lemma {:induction false} FindAsm(v: seq<byte>, strict: bool) returns (t: Asm)
    requires BodyAt(v, strict).Some?
    ensures AsmOk(t, strict) && Opcodes(t.ins) && Holds(v, 0, AsmBytes(t, strict))
  {
    var h := HeaderAt(v, strict).value;
    var end := h.hdrLen + h.codeLen;
    var ins := FindCode(v, h.hdrLen, end, strict, []);
    if h.fat {
      FindFat(v, strict);
      var parts := Nil;
      if h.sections { parts := FindParts(v, end, strict, []); } else { HasNone(v, end); }
      t := FatMade(v, strict, h, ins, parts);
    } else {
      t := Tiny(ins);
      HasOne(v, 0, v[0]);
      AsmParts(v, t, strict);
    }
  }

  lemma {:induction false} FatMade(v: seq<byte>, strict: bool, h: Header, ins: List<Ins>, parts: List<Part>) returns (t: Asm)
    requires |v| > 1 && h.hdrLen == 12 && FatFits(v[0], v[1], h.maxStack, h.codeLen, h.localTok, strict)
    requires Holds(v, 0, FatHeader(v[0], v[1], h.maxStack, h.codeLen, h.localTok))
    requires CodeOk(ins, strict) && |CodeBytes(ins, strict)| == h.codeLen && Holds(v, 12, CodeBytes(ins, strict))
    requires (v[0] / 8 % 2 == 1 <==> parts.Cons?) && PartsOk(parts, strict, 12 + h.codeLen) && Holds(v, 12 + h.codeLen, PartsBytes(parts, strict, 12 + h.codeLen))
    ensures AsmOk(t, strict) && Holds(v, 0, AsmBytes(t, strict)) && t.ins == ins
  {
    t := Fat(ins, v[0], v[1], h.maxStack, h.localTok, parts);
    AsmParts(v, t, strict);
  }

  /** The bytes begin with some assembled body that stands for `b`. */
  ghost predicate Assembled(v: seq<byte>, strict: bool, b: Body) {
    exists t :: AsmOk(t, strict) && Opcodes(t.ins) && BeginsWith(v, AsmBytes(t, strict)) && b == BodyOf(t, strict)
  }

  predicate BeginsWith(v: seq<byte>, x: seq<byte>) { |x| <= |v| && v[..|x|] == x }

  /** Bytes parse as a body exactly when they begin with an assembled one, and as what that one stands for. */
  lemma {:induction false} BodiesOnly(v: seq<byte>, strict: bool, b: Body)
    ensures BodyAt(v, strict) == Some(b) <==> Assembled(v, strict, b)
  {
    if BodyAt(v, strict) == Some(b) {
      var t := FindAsm(v, strict);
      HoldsPrefix(v, AsmBytes(t, strict));
      ReadAsm(v, t, strict);
    }
    if t :| AsmOk(t, strict) && Opcodes(t.ins) && BeginsWith(v, AsmBytes(t, strict)) && b == BodyOf(t, strict) {
      HoldsPrefix(v, AsmBytes(t, strict));
      ReadAsm(v, t, strict);
    }
  }

  lemma {:induction false} SomeBody(v: seq<byte>, strict: bool)
    ensures BodyAt(v, strict).Some? <==> exists b :: Assembled(v, strict, b)
    ensures BodyAt(v, strict).Some? ==> Assembled(v, strict, BodyAt(v, strict).value)
  {
    if BodyAt(v, strict).Some? { BodiesOnly(v, strict, BodyAt(v, strict).value); }
    if b :| Assembled(v, strict, b) { BodiesOnly(v, strict, b); }
  }
}
