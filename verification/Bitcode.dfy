/** The bitstream reader as it runs (bitcodez3/parse.go). */
module Bitcode {
  import opened Bytes
  import opened BitcodeBits
  import opened BitcodeModel
  import BitcodeTrees

  const NOTHING := St(0, true, 0, 0, 0, map[], [], [])

  /** A failed state stands for nothing but failure. */
  function Norm(s: St): St { if s.bad then NOTHING else s }

  /** The cursor, the limit of the block being read, the counters, and the plan so far. */
  class Reader {
    const d: seq<byte>
    var pos: nat
    var end: nat
    var err: bool
    var values: nat
    var abbrevs: nat
    var abbrevOperands: nat
    var info: map<nat, seq<Abbrev>>
    var blocks: seq<Block>
    var records: seq<Record>

    constructor (d: seq<byte>)
      ensures this.d == d && end == 8 * |d| && Value() == Start()
    {
      this.d, pos, end, err, values, abbrevs, abbrevOperands := d, 32, 8 * |d|, false, 0, 0, 0;
      info, blocks, records := map[], [], [];
    }

    ghost function Value(): St
      reads this
    {
      Norm(St(pos, err, values, abbrevs, abbrevOperands, info, blocks, records))
    }

    method ReadBits(n: nat) returns (v: nat)
      requires Inside(d, end)
      modifies this`pos, this`err
      ensures Value() == Norm(Bits(d, end, n, old(Value()))) && v == BitsValue(d, end, n, old(Value()))
    {
      if err {
        return 0;
      }
      if n > 64 || pos > end || n > end - pos {
        err := true;
        return 0;
      }
      v := ReadField(d, pos, n);
      pos := pos + n;
    }

    /** Accumulates chunks until one without the continuation bit; a value over 64 bits fails. */
    method ReadVbr(n: nat) returns (v: nat)
      requires Inside(d, end)
      modifies this`pos, this`err
      ensures Value() == Norm(Vbr(d, end, n, old(Value())))
      ensures !err ==> v == VbrValue(d, end, n, old(Value()))
    {
      if n < 2 || n > 32 {
        err := true;
        return 0;
      }
      v := 0;
      var i, shift: nat := 0, 0;
      ghost var from := Value();
      while i < 64 && !err
        invariant i <= shift && VbrPart(d, end, n, shift, v, Value(), from)
      {
        VbrStep(d, end, n, shift, v, Value(), from);
        var x := ReadBits(n);
        var part := Low(x, n - 1);
        if shift >= 64 || part >= Pow2(64 - shift) {
          err := true;
          return 0;
        }
        v := v + Shl(part, shift);
        if Shr(x, n - 1) == 0 {
          return;
        }
        i, shift := i + 1, shift + n - 1;
      }
      err := true;
      return 0;
    }

    method ReadAlign()
      requires Inside(d, end)
      modifies this`pos, this`err
      ensures Value() == Norm(Align(d, end, old(Value())))
    {
      var n := (32 - pos % 32) % 32;
      var v := ReadBits(n);
      if v != 0 {
        err := true;
      }
    }

    /** An operand of a definition. */
    method ReadOperand(n: nat, i: nat) returns (o: Operand)
      requires Inside(d, end)
      modifies this`pos, this`err
      ensures Value() == Norm(AfterOperand(d, end, n, i, old(Value())))
      ensures !err ==> o == OperandAt(d, end, old(Value()))
    {
      var flag := ReadBits(1);
      if flag != 0 {
        var v := ReadVbr(8);
        return Operand(true, v, 0, 0);
      }
      var e := ReadBits(3);
      o := Operand(false, 0, e, 0);
      if e == 1 || e == 2 {
        var w := ReadVbr(5);
        o := Operand(false, 0, e, w);
        if w > 32 || (e == 2 && w < 2) {
          err := true;
        }
      } else if e == 3 {
        if i + 2 != n {
          err := true;
        }
      } else if e == 4 {
      } else if e == 5 {
        if i + 1 != n {
          err := true;
        }
      } else {
        err := true;
      }
    }

    method ReadDefinition() returns (a: Abbrev)
      requires Inside(d, end)
      modifies this`pos, this`err, this`abbrevs, this`abbrevOperands
      ensures Value() == Norm(Definition(d, end, old(Value())).s)
      ensures !err ==> a == Definition(d, end, old(Value())).a
    {
      var n := BeginDefinition();
      if err {
        return [];
      }
      var x := ReadOperands(n);
      a := EndDefinition(x);
    }

    /** The operand count, and the limit on operands in all. */
    method BeginDefinition() returns (n: nat)
      requires Inside(d, end)
      modifies this`pos, this`err, this`abbrevOperands
      ensures Value() == Norm(Opened(d, end, old(Value())))
      ensures !err ==> n == VbrValue(d, end, 5, old(Value()))
    {
      n := ReadVbr(5);
      if err || n == 0 || n > 256 {
        err := true;
        return;
      }
      abbrevOperands := abbrevOperands + n;
      if abbrevOperands > 0x10_0000 {
        err := true;
      }
    }

    /** The array checks and the limit on the number of definitions. */
    method EndDefinition(x: seq<Operand>) returns (a: Abbrev)
      modifies this`err, this`abbrevs
      ensures Value() == Norm(Close(Def(old(Value()), x)).s)
      ensures !err ==> a == x
    {
      var ok := CheckArrays(x);
      abbrevs := abbrevs + 1;
      if !ok || abbrevs > 65536 {
        err := true;
        return [];
      }
      a := x;
    }

    method ReadOperands(n: nat) returns (x: seq<Operand>)
      requires Inside(d, end)
      modifies this`pos, this`err
      ensures Value() == Norm(Operands(d, end, n, [], old(Value())).s)
      ensures !err ==> x == Operands(d, end, n, [], old(Value())).a
    {
      x := [];
      while |x| < n && !err
        invariant |x| <= n
        invariant Norm(Operands(d, end, n, x, Value()).s) == Norm(Operands(d, end, n, [], old(Value())).s)
        invariant !Operands(d, end, n, [], old(Value())).s.bad ==>
          Operands(d, end, n, x, Value()).a == Operands(d, end, n, [], old(Value())).a
        decreases n - |x|
      {
        var o := ReadOperand(n, |x|);
        x := x + [o];
      }
    }

    /** Every array must be followed by a scalar element type. */
    static method CheckArrays(x: seq<Operand>) returns (ok: bool)
      ensures ok == ArraysOk(x)
    {
      for i := 0 to |x|
        invariant forall k :: 0 <= k < i && x[k].encoding == 3 ==> k + 1 < |x| && Scalar(x[k + 1])
      {
        if x[i].encoding == 3 {
          if i + 1 >= |x| || x[i + 1].literal || x[i + 1].encoding == 3 || x[i + 1].encoding == 5 {
            return false;
          }
        }
      }
      return true;
    }

    method ReadValue(o: Operand) returns (v: nat)
      requires Inside(d, end)
      modifies this`pos, this`err
      ensures Value() == Norm(AfterValue(d, end, o, old(Value())))
      ensures !err ==> v == BitcodeModel.Value(d, end, o, old(Value()))
    {
      if o.literal {
        return o.value;
      }
      if o.encoding == 1 {
        v := ReadBits(o.width);
      } else if o.encoding == 2 {
        v := ReadVbr(o.width);
      } else if o.encoding == 4 {
        v := ReadBits(6);
        v := Char6(v);
      } else {
        err := true;
        v := 0;
      }
    }

    /** Reads `n` values of one type into a record, counting them. */
    method AddValues(o: Operand, n: nat, vs: seq<nat>) returns (ws: seq<nat>)
      requires Inside(d, end)
      modifies this`pos, this`err, this`values
      ensures Value() == Norm(Adds(d, end, o, n, Rec(old(Value()), vs)).s)
      ensures !err ==> ws == Adds(d, end, o, n, Rec(old(Value()), vs)).vs
    {
      ws := vs;
      var j := 0;
      while j < n && !err
        invariant j <= n
        invariant Norm(Adds(d, end, o, n - j, Rec(Value(), ws)).s) == Norm(Adds(d, end, o, n, Rec(old(Value()), vs)).s)
        invariant !Adds(d, end, o, n, Rec(old(Value()), vs)).s.bad ==>
          Adds(d, end, o, n - j, Rec(Value(), ws)).vs == Adds(d, end, o, n, Rec(old(Value()), vs)).vs
      {
        ws := AddValue(o, ws);
        j := j + 1;
      }
    }

    /** Reads one value; there is a limit to how many a file may hold. */
    method AddValue(o: Operand, vs: seq<nat>) returns (ws: seq<nat>)
      requires Inside(d, end)
      modifies this`pos, this`err, this`values
      ensures Value() == Norm(AddOne(d, end, o, Rec(old(Value()), vs)).s)
      ensures !err ==> ws == AddOne(d, end, o, Rec(old(Value()), vs)).vs
    {
      var v := ReadValue(o);
      values := values + 1;
      if values > Limit(d) {
        err := true;
      }
      ws := vs + [v];
    }

    method AddArray(o: Operand, vs: seq<nat>) returns (ws: seq<nat>)
      requires Inside(d, end)
      modifies this`pos, this`err, this`values
      ensures Value() == Norm(Array(d, end, o, Rec(old(Value()), vs)).s)
      ensures !err ==> ws == Array(d, end, o, Rec(old(Value()), vs)).vs
    {
      var n := ReadVbr(6);
      if n > (if values < Limit(d) then Limit(d) - values else 0) {
        err := true;
      }
      ws := AddValues(o, n, vs);
    }

    method AddBlob(vs: seq<nat>) returns (ws: seq<nat>)
      requires Inside(d, end)
      modifies this`pos, this`err, this`values
      ensures Value() == Norm(Blob(d, end, Rec(old(Value()), vs)).s)
      ensures !err ==> ws == Blob(d, end, Rec(old(Value()), vs)).vs
    {
      var n := ReadVbr(6);
      ReadAlign();
      if n > (if values < Limit(d) then Limit(d) - values else 0) || n > MAX_BLOB || pos > end || n > (end - pos) / 8 {
        err := true;
        return vs;
      }
      ws := AddValues(BYTE, n, vs);
      ReadAlign();
    }

    /** The values of a record, through an abbreviation or plain. */
    method ReadRecord(plain: bool, a: Abbrev) returns (vs: seq<nat>)
      requires Inside(d, end)
      modifies this`pos, this`err, this`values
      ensures Value() == Norm(RecordAt(d, end, plain, a, old(Value())).s)
      ensures !err ==> vs == RecordAt(d, end, plain, a, old(Value())).vs
    {
      vs := [];
      if plain {
        vs := AddValue(VBR6, vs);
        vs := AddArray(VBR6, vs);
      } else {
        vs := ReadFields(a);
      }
      if |vs| == 0 {
        err := true;
      }
    }

    method ReadFields(a: Abbrev) returns (vs: seq<nat>)
      requires Inside(d, end)
      modifies this`pos, this`err, this`values
      ensures Value() == Norm(Fields(d, end, a, 0, Rec(old(Value()), [])).s)
      ensures !err ==> vs == Fields(d, end, a, 0, Rec(old(Value()), [])).vs
    {
      vs := [];
      var i := 0;
      while i < |a| && !err
        invariant Norm(Fields(d, end, a, i, Rec(Value(), vs)).s) == Norm(Fields(d, end, a, 0, Rec(old(Value()), [])).s)
        invariant !Fields(d, end, a, 0, Rec(old(Value()), [])).s.bad ==>
          Fields(d, end, a, i, Rec(Value(), vs)).vs == Fields(d, end, a, 0, Rec(old(Value()), [])).vs
      {
        vs := AddField(a, i, vs);
        i := i + FieldWidth(a[i]);
      }
    }

    /** One operand of an abbreviation, with its element type if it is an array. */
    method AddField(a: Abbrev, i: nat, vs: seq<nat>) returns (ws: seq<nat>)
      requires Inside(d, end) && i < |a|
      modifies this`pos, this`err, this`values
      ensures Value() == Norm(FieldStep(d, end, a, i, Rec(old(Value()), vs)).s)
      ensures !err ==> ws == FieldStep(d, end, a, i, Rec(old(Value()), vs)).vs
    {
      if a[i].encoding == 3 {
        ws := AddArray(a[i + 1], vs);
      } else if a[i].encoding == 5 {
        ws := AddBlob(vs);
      } else {
        ws := AddValue(a[i], vs);
      }
    }

    // ---- blocks ----

    /** A sub-block's identifier, width and end. */
    method ReadHead() returns (id: nat, w: nat, finish: nat)
      requires Inside(d, end)
      modifies this`pos, this`err
      ensures Value() == Norm(HeadAt(d, end, old(Value())).s)
      ensures !err ==> Head(Value(), id, w, finish) == HeadAt(d, end, old(Value()))
    {
      id := ReadVbr(8);
      w := ReadVbr(4);
      ReadAlign();
      finish := ReadExtent(id, w);
    }

    method ReadExtent(id: nat, w: nat) returns (finish: nat)
      requires Inside(d, end)
      modifies this`pos, this`err
      ensures Value() == Norm(Extent(d, end, id, w, old(Value())).s)
      ensures !err ==> Head(Value(), id, w, finish) == Extent(d, end, id, w, old(Value()))
    {
      var words := ReadBits(32);
      if err || words > (end - pos) / 32 || w < 2 || w > 32 {
        err := true;
        return 0;
      }
      finish := pos + words * 32;
    }

    /** A whole sub-block: its place in the plan is taken before it is read, its record count after. */
    method ReadSubBlock(f: Frame, start: nat, id: nat, w: nat, finish: nat)
      requires FrameOk(d, f) && end == f.end && !err && pos <= finish <= f.end && 2 <= w <= 32
      modifies this
      ensures end == old(end) && Value() == Norm(SubBlock(d, f, start, Head(old(Value()), id, w, finish)))
      decreases finish - pos, 3
    {
      var index := |blocks|;
      blocks := blocks + [Block(id, start, pos, finish, w, 0)];
      var before := |records|;
      ReadBlock(Frame(id, w, finish, f.depth + 1, false));
      if err || pos != finish {
        err := true;
        return;
      }
      blocks := blocks[index := blocks[index].(records := |records| - before)];
    }

    method DefineAbbrev(f: Frame, sc: Scope) returns (sc': Scope)
      requires FrameOk(d, f) && end == f.end
      modifies this`pos, this`err, this`abbrevs, this`abbrevOperands, this`info
      ensures Value() == Norm(Defined(f, sc, Definition(d, end, old(Value()))).s)
      ensures !err ==> sc' == Defined(f, sc, Definition(d, end, old(Value()))).sc
    {
      sc' := sc;
      var a := ReadDefinition();
      if err {
        return;
      }
      if f.id == 0 && !f.top {
        if sc.target.None? {
          err := true;
          return;
        }
        var t := sc.target.value;
        info := info[t := (if t in info then info[t] else []) + [a]];
      } else {
        if |sc.abbrevs| + 1 > 4096 {
          err := true;
          return;
        }
        sc' := sc.(abbrevs := sc.abbrevs + [a]);
      }
    }

    method ReadRecordItem(f: Frame, sc: Scope, start: nat, code: nat) returns (sc': Scope)
      requires FrameOk(d, f) && end == f.end && !err
      modifies this`pos, this`err, this`values, this`records
      ensures Value() == Norm(RecordItem(d, f, sc, start, code, old(Value())).s)
      ensures !err ==> RecordItem(d, f, sc, start, code, old(Value())).More? && sc' == RecordItem(d, f, sc, start, code, old(Value())).sc
    {
      sc' := sc;
      if code > 3 && code - 4 >= |sc.abbrevs| {
        err := true;
        return;
      }
      var vs := ReadRecord(code == 3, if code > 3 then sc.abbrevs[code - 4] else []);
      if err {
        return;
      }
      sc' := KeepRecord(f, sc, start, code, vs);
    }

    /** Adds a record to the plan; in BLOCKINFO, SETBID names the block that definitions are for. */
    method KeepRecord(f: Frame, sc: Scope, start: nat, code: nat, vs: seq<nat>) returns (sc': Scope)
      requires !err && |vs| > 0
      modifies this`err, this`records
      ensures Value() == Norm(Kept(f, sc, start, code, Rec(old(Value()), vs)).s)
      ensures !err ==> More(sc', Value()) == Kept(f, sc, start, code, Rec(old(Value()), vs))
    {
      sc' := sc;
      if |records| >= MAX_RECORDS {
        err := true;
        return;
      }
      records := records + [Record(f.id, vs[0], code, start, pos, |vs| - 1, vs)];
      if f.id == 0 && vs[0] == 1 {
        if |vs| != 2 {
          err := true;
          return;
        }
        sc' := sc.(target := Some(vs[1]));
      }
    }

    /** One item of a block; `done` at the end marker. */
    method ReadItem(f: Frame, sc: Scope) returns (sc': Scope, done: bool)
      requires FrameOk(d, f) && end == f.end && !err && pos < end
      modifies this
      ensures end == old(end) && Value() == Norm(Item(d, f, sc, old(Value())).s)
      ensures !err ==> Item(d, f, sc, old(Value())) == if done then Done(Value()) else More(sc', Value())
      decreases f.end - pos, 0
    {
      var start := pos;
      sc', done := sc, false;
      var code := ReadBits(f.width);
      if err {
        return;
      }
      if code == 0 {
        done := true;
        ReadAlign();
        if f.top || pos != end {
          err := true;
        }
      } else if code == 1 {
        var id, w, finish := ReadHead();
        if !err {
          ReadSubBlock(f, start, id, w, finish);
        }
      } else if code == 2 {
        sc' := DefineAbbrev(f, sc);
      } else {
        sc' := ReadRecordItem(f, sc, start, code);
      }
    }

    /** The items of a block. */
    method ReadItems(f: Frame, sc: Scope)
      requires FrameOk(d, f) && end == f.end && !err
      modifies this
      ensures end == old(end) && Value() == Norm(Items(d, f, sc, old(Value())))
      decreases f.end - pos, 1
    {
      var local := sc;
      ghost var want := Rest(d, f, sc, Value());
      while pos < end && !err
        invariant end == f.end && (!err ==> pos >= old(pos))
        invariant Rest(d, f, local, Value()) == want
        decreases if err then 0 else 1, f.end - pos
      {
        ghost var was := Value();
        var next, done := ReadItem(f, local);
        UnrollItems(d, f, local, was, next);
        if done {
          return;
        }
        local := next;
      }
      EndItems(d, f, local, Value());
      if !f.top {
        err := true;
      }
    }

    /** A block, read within its own end; the limits on nesting and number are checked first. */
    method ReadBlock(f: Frame)
      requires FrameOk(d, f) && !err
      modifies this
      ensures end == old(end) && Value() == Norm(BlockAt(d, f, old(Value())))
      decreases f.end - pos, 2
    {
      if f.depth > MAX_DEPTH || |blocks| > MAX_BLOCKS {
        err := true;
        return;
      }
      var outer := end;
      end := f.end;
      ReadItems(f, Scope(if f.id in info then info[f.id] else [], None));
      end := outer;
    }
  }

  /** Parses a bitcode file: its blocks and records, or nothing. */
  method Parse(d: seq<byte>) returns (r: Option<Plan>)
    ensures r == ParsePlan(d)
    ensures forall p :: r == Some(p) <==> BitcodeTrees.Written(d, p)
  {
    forall p { BitcodeTrees.TreesOnly(d, p); }
    if |d| < 8 || |d| > MAX_SOURCE || |d| % 4 != 0 || d[..4] != [0x42, 0x43, 0xC0, 0xDE] {
      return None;
    }
    var reader := new Reader(d);
    reader.ReadBlock(Frame(TOP, 2, 8 * |d|, 0, true));
    if reader.err {
      return None;
    }
    return Some(Plan(reader.blocks, reader.records, reader.abbrevs));
  }

  ghost function Rest(d: seq<byte>, f: Frame, sc: Scope, s: St): St
    requires FrameOk(d, f)
  {
    Norm(Items(d, f, sc, s))
  }

  /** The first item, then the others; a failure stays one. */
  lemma UnrollItems(d: seq<byte>, f: Frame, sc: Scope, s: St, sc': Scope)
    requires FrameOk(d, f) && !s.bad && s.p < f.end
    ensures Rest(d, f, sc', NOTHING) == NOTHING
    ensures var x := Item(d, f, sc, s);
            Rest(d, f, sc, s) == if x.Done? || x.s.bad then Norm(x.s) else Rest(d, f, x.sc, x.s)
  {}

  lemma EndItems(d: seq<byte>, f: Frame, sc: Scope, s: St)
    requires FrameOk(d, f) && (s.bad || s.p >= f.end)
    ensures Rest(d, f, sc, s) == Norm(if f.top then s else s.Fail())
  {}

  /** Reading the chunks from `s` on completes the integer that starts at `from`, of which `v` is the part so far. */
  ghost predicate VbrPart(d: seq<byte>, end: nat, n: nat, shift: nat, v: nat, s: St, from: St)
    requires Inside(d, end) && n >= 2
  {
    && Norm(Chunks(d, end, n, shift, s)) == Norm(Chunks(d, end, n, 0, from))
    && (!Chunks(d, end, n, shift, s).bad ==> v + Shl(ChunksValue(d, end, n, shift, s), shift) == ChunksValue(d, end, n, 0, from))
  }

  lemma VbrStep(d: seq<byte>, end: nat, n: nat, shift: nat, v: nat, s: St, from: St)
    requires Inside(d, end) && n >= 2 && VbrPart(d, end, n, shift, v, s, from)
    ensures var x, t := BitsValue(d, end, n, s), Bits(d, end, n, s);
            var sum := v + Shl(Low(x, n - 1), shift);
            && (!ChunkOk(d, end, n, shift, s) ==> Chunks(d, end, n, 0, from).bad)
            && (ChunkOk(d, end, n, shift, s) && Shr(x, n - 1) == 0 ==>
                  Norm(t) == Norm(Chunks(d, end, n, 0, from)) && (!t.bad ==> sum == ChunksValue(d, end, n, 0, from)))
            && (ChunkOk(d, end, n, shift, s) && Shr(x, n - 1) != 0 ==> VbrPart(d, end, n, shift + n - 1, sum, t, from))
  {
    UnrollChunks(d, end, n, shift, v, s);
  }

  /** One chunk, then the others. */
  lemma UnrollChunks(d: seq<byte>, end: nat, n: nat, shift: nat, v: nat, s: St)
    requires Inside(d, end) && n >= 2
    ensures var x, t := BitsValue(d, end, n, s), Bits(d, end, n, s);
            var sum := v + Shl(Low(x, n - 1), shift);
            var r, all := Chunks(d, end, n, shift, s), v + Shl(ChunksValue(d, end, n, shift, s), shift);
            && (!ChunkOk(d, end, n, shift, s) ==> r.bad)
            && (ChunkOk(d, end, n, shift, s) && Shr(x, n - 1) == 0 ==> r == t && all == sum)
            && (ChunkOk(d, end, n, shift, s) && Shr(x, n - 1) != 0 ==>
                  && r == Chunks(d, end, n, shift + n - 1, t)
                  && all == sum + Shl(ChunksValue(d, end, n, shift + n - 1, t), shift + n - 1))
  {
    var x, t := BitsValue(d, end, n, s), Bits(d, end, n, s);
    ShlParts(Low(x, n - 1), ChunksValue(d, end, n, shift + n - 1, t), n - 1, shift);
  }
}
