/**
 Assembled method bodies (ECMA-335, section II.25.4 and partition III): instructions by operand
 format, exception clauses and sections, the bytes they are written as, and the tokens they
 hold. The parser of clrz3/cil.go accepts exactly these.
 */
module CilAssembly {
  import opened Bytes
  import opened CilModel

  datatype List<T> = Nil | Cons(head: T, tail: List<T>)

  function Length<T>(xs: List<T>): nat { if xs.Nil? then 0 else 1 + Length(xs.tail) }

  // ---- numbers ----

  function Two(x: nat): (r: seq<byte>)
    requires x < 0x1_0000
    ensures |r| == 2
  {
    [x % 0x100, x / 0x100]
  }

  function Four(x: nat): (r: seq<byte>)
    requires x < B32
    ensures |r| == 4
  {
    Two(x % 0x1_0000) + Two(x / 0x1_0000)
  }

  // ---- instructions ----

  /** The operand formats of the instruction set. */
  datatype Format =
    | InlineNone | ShortInlineVar | ShortInlineI | ShortInlineBrTarget | InlineVar | InlineI | ShortInlineR | InlineBrTarget
    | InlineI8 | InlineR | InlineSwitch | InlineMethod | InlineField | InlineType | InlineSig | InlineString | InlineTok
  {
    /** The bytes of an operand that is no token. */
    function Plain(): Option<nat> {
      match this
      case InlineNone => Some(0)
      case ShortInlineVar => Some(1)
      case ShortInlineI => Some(1)
      case ShortInlineBrTarget => Some(1)
      case InlineVar => Some(2)
      case InlineI => Some(4)
      case ShortInlineR => Some(4)
      case InlineBrTarget => Some(4)
      case InlineI8 => Some(8)
      case InlineR => Some(8)
      case _ => None
    }

    function Reference(): Option<Class> {
      match this
      case InlineMethod => Some(TkMethod)
      case InlineField => Some(TkField)
      case InlineType => Some(TkType)
      case InlineSig => Some(TkSig)
      case InlineString => Some(TkString)
      case InlineTok => Some(TkAny)
      case _ => None
    }
  }

  /** The format of a one-byte opcode. */
  function OneByte(op: byte): Option<Format> {
    if op <= 0x0d then Some(InlineNone) // nop to stloc.3
    else if 0x0e <= op <= 0x13 then Some(ShortInlineVar) // ldarg.s to stloc.s
    else if 0x14 <= op <= 0x1e then Some(InlineNone) // ldnull to ldc.i4.8
    else if op == 0x1f then Some(ShortInlineI) // ldc.i4.s
    else if op == 0x20 then Some(InlineI) // ldc.i4
    else if op == 0x21 then Some(InlineI8) // ldc.i8
    else if op == 0x22 then Some(ShortInlineR) // ldc.r4
    else if op == 0x23 then Some(InlineR) // ldc.r8
    else if 0x25 <= op <= 0x26 then Some(InlineNone) // dup, pop
    else if 0x27 <= op <= 0x28 then Some(InlineMethod) // jmp, call
    else if op == 0x29 then Some(InlineSig) // calli
    else if op == 0x2a then Some(InlineNone) // ret
    else if 0x2b <= op <= 0x37 then Some(ShortInlineBrTarget) // br.s to blt.un.s
    else if 0x38 <= op <= 0x44 then Some(InlineBrTarget) // br to blt.un
    else if op == 0x45 then Some(InlineSwitch) // switch
    else if 0x46 <= op <= 0x6e then Some(InlineNone) // ldind.i1 to conv.u8
    else if op == 0x6f then Some(InlineMethod) // callvirt
    else if 0x70 <= op <= 0x71 then Some(InlineType) // cpobj, ldobj
    else if op == 0x72 then Some(InlineString) // ldstr
    else if op == 0x73 then Some(InlineMethod) // newobj
    else if 0x74 <= op <= 0x75 then Some(InlineType) // castclass, isinst
    else if op == 0x76 then Some(InlineNone) // conv.r.un
    else if op == 0x79 then Some(InlineType) // unbox
    else if op == 0x7a then Some(InlineNone) // throw
    else if 0x7b <= op <= 0x80 then Some(InlineField) // ldfld to stsfld
    else if op == 0x81 then Some(InlineType) // stobj
    else if 0x82 <= op <= 0x8b then Some(InlineNone) // conv.ovf.i1.un to conv.ovf.u.un
    else if 0x8c <= op <= 0x8d then Some(InlineType) // box, newarr
    else if op == 0x8e then Some(InlineNone) // ldlen
    else if op == 0x8f then Some(InlineType) // ldelema
    else if 0x90 <= op <= 0xa2 then Some(InlineNone) // ldelem.i1 to stelem.ref
    else if 0xa3 <= op <= 0xa5 then Some(InlineType) // ldelem, stelem, unbox.any
    else if 0xb3 <= op <= 0xba then Some(InlineNone) // conv.ovf.i1 to conv.ovf.u8
    else if op == 0xc2 then Some(InlineType) // refanyval
    else if op == 0xc3 then Some(InlineNone) // ckfinite
    else if op == 0xc6 then Some(InlineType) // mkrefany
    else if op == 0xd0 then Some(InlineTok) // ldtoken
    else if 0xd1 <= op <= 0xdc then Some(InlineNone) // conv.u2 to endfinally
    else if op == 0xdd then Some(InlineBrTarget) // leave
    else if op == 0xde then Some(ShortInlineBrTarget) // leave.s
    else if 0xdf <= op <= 0xe0 then Some(InlineNone) // stind.i, conv.u
    else None
  }

  /** The format of an opcode after the prefix byte 0xFE. */
  function TwoByte(op: byte): Option<Format> {
    if op <= 0x05 then Some(InlineNone) // arglist to clt.un
    else if 0x06 <= op <= 0x07 then Some(InlineMethod) // ldftn, ldvirtftn
    else if 0x09 <= op <= 0x0e then Some(InlineVar) // ldarg to stloc
    else if op == 0x0f then Some(InlineNone) // localloc
    else if op == 0x11 then Some(InlineNone) // endfilter
    else if op == 0x12 then Some(ShortInlineI) // unaligned.
    else if 0x13 <= op <= 0x14 then Some(InlineNone) // volatile., tail.
    else if 0x15 <= op <= 0x16 then Some(InlineType) // initobj, constrained.
    else if 0x17 <= op <= 0x18 then Some(InlineNone) // cpblk, initblk
    else if op == 0x19 then Some(ShortInlineI) // no.
    else if op == 0x1a then Some(InlineNone) // rethrow
    else if op == 0x1c then Some(InlineType) // sizeof
    else if 0x1d <= op <= 0x1e then Some(InlineNone) // refanytype, readonly.
    else None
  }

  /** An instruction: its opcode, behind the prefix or not, the format of its operand, and the operand. */
  datatype Ins = Ins(prefixed: bool, op: byte, format: Format, arg: Arg)

  /** Plain bytes, the targets of a switch, or a token. */
  datatype Arg = Bytes(b: seq<byte>) | Targets(ts: List<nat>) | Ref(table: nat, row: nat)

  /** The opcode has the format; the prefix byte is no opcode. */
  predicate Opcode(i: Ins) { if i.prefixed then TwoByte(i.op) == Some(i.format) else i.op != 0xfe && OneByte(i.op) == Some(i.format) }

  const TYPE_REF := 0x01
  const TYPE_DEF := 0x02
  const FIELD := 0x04
  const METHOD_DEF := 0x06
  const MEMBER_REF := 0x0a
  const STAND_ALONE_SIG := 0x11
  const TYPE_SPEC := 0x1b
  const METHOD_SPEC := 0x2b
  const USER_STRING := 0x70

  /** The tables that a token of a class may name. */
  function Tables(c: Class): set<nat> {
    match c
    case TkMethod => {METHOD_DEF, MEMBER_REF, METHOD_SPEC}
    case TkField => {FIELD, MEMBER_REF}
    case TkType => {TYPE_REF, TYPE_DEF, TYPE_SPEC}
    case TkSig => {STAND_ALONE_SIG}
    case TkString => {USER_STRING}
    case TkAny => {TYPE_REF, TYPE_DEF, TYPE_SPEC, FIELD, METHOD_DEF, MEMBER_REF, METHOD_SPEC}
  }

  predicate IsToken(table: nat, row: nat) { table < 0x100 && row < 0x100_0000 }

  function TokenValue(table: nat, row: nat): nat { 0x100_0000 * table + row }

  /** A row of one of the tables; strings are no rows. */
  predicate Names(c: Class, table: nat, row: nat) { table in Tables(c) && (c.TkString? || row != 0) }

  /** The operand is one of its format. */
  predicate InsOk(i: Ins, strict: bool) {
    match i.arg
    case Bytes(b) => i.format.Plain() == Some(|b|)
    case Targets(ts) => i.format.InlineSwitch? && Length(ts) < B32 && TargetsFit(ts)
    case Ref(table, row) => i.format.Reference().Some? && IsToken(table, row) && (strict ==> Names(i.format.Reference().value, table, row))
  }

  predicate CodeOk(ins: List<Ins>, strict: bool) { ins.Nil? || (InsOk(ins.head, strict) && CodeOk(ins.tail, strict)) }

  predicate In(i: Ins, ins: List<Ins>) { ins.Cons? && (i == ins.head || In(i, ins.tail)) }

  /** Every opcode has the format of its instruction. */
  ghost predicate Opcodes(ins: List<Ins>) { forall i {:trigger In(i, ins)} :: In(i, ins) ==> Opcode(i) }

  predicate TargetsFit(ts: List<nat>) { ts.Nil? || (ts.head < B32 && TargetsFit(ts.tail)) }

  function TargetBytes(ts: List<nat>): (r: seq<byte>)
    requires TargetsFit(ts)
    ensures |r| == 4 * Length(ts)
  {
    if ts.Nil? then [] else Four(ts.head) + TargetBytes(ts.tail)
  }

  function OpBytes(i: Ins): seq<byte> { if i.prefixed then [0xfe, i.op] else [i.op] }

  function ArgBytes(i: Ins, strict: bool): seq<byte>
    requires InsOk(i, strict)
  {
    match i.arg
    case Bytes(b) => b
    case Targets(ts) => Four(Length(ts)) + TargetBytes(ts)
    case Ref(table, row) => Four(TokenValue(table, row))
  }

  function InsBytes(i: Ins, strict: bool): seq<byte>
    requires InsOk(i, strict)
  {
    OpBytes(i) + ArgBytes(i, strict)
  }

  function CodeBytes(ins: List<Ins>, strict: bool): seq<byte>
    requires CodeOk(ins, strict)
  {
    if ins.Nil? then [] else InsBytes(ins.head, strict) + CodeBytes(ins.tail, strict)
  }

  /** The token of an instruction that begins at `p`. */
  function InsTok(i: Ins, strict: bool, p: nat): Option<Tok>
    requires InsOk(i, strict)
  {
    if i.arg.Ref? then Some(Tok(p + |OpBytes(i)|, i.format.Reference().value, TokenValue(i.arg.table, i.arg.row))) else None
  }

  /** The tokens of the instructions, which begin at `p`. */
  function CodeToks(ins: List<Ins>, strict: bool, p: nat): seq<Tok>
    requires CodeOk(ins, strict)
  {
    if ins.Nil? then []
    else
      var rest := CodeToks(ins.tail, strict, p + |InsBytes(ins.head, strict)|);
      match InsTok(ins.head, strict, p)
      case None => rest
      case Some(t) => [t] + rest
  }

  // ---- exception clauses ----

  /** An exception clause: a typed catch, whose class is a token, or another kind with its last word. */
  datatype Handler = Handler(flags: nat, tryOff: nat, tryLen: nat, handlerOff: nat, handlerLen: nat, last: nat)

  /** The widths of its fields. */
  predicate HandlerFits(c: Handler, fat: bool) {
    && c.last < B32
    && if fat then c.flags < B32 && c.tryOff < B32 && c.tryLen < B32 && c.handlerOff < B32 && c.handlerLen < B32
       else c.flags < 0x1_0000 && c.tryOff < 0x1_0000 && c.tryLen < 0x100 && c.handlerOff < 0x1_0000 && c.handlerLen < 0x100
  }

  /** Flags of zero: the clause catches the exceptions of a type. */
  predicate HandlerOk(c: Handler, fat: bool, strict: bool) {
    HandlerFits(c, fat) && (strict && c.flags == 0 ==> Names(TkType, c.last / 0x100_0000, c.last % 0x100_0000))
  }

  function HandlerBytes(c: Handler, fat: bool): (r: seq<byte>)
    requires HandlerFits(c, fat)
    ensures |r| == if fat then 24 else 12
  {
    if fat then Four(c.flags) + Four(c.tryOff) + Four(c.tryLen) + Four(c.handlerOff) + Four(c.handlerLen) + Four(c.last)
    else Two(c.flags) + Two(c.tryOff) + [c.tryLen] + Two(c.handlerOff) + [c.handlerLen] + Four(c.last)
  }

  /** The clause of a handler at `q`. */
  function ClauseOf(c: Handler, fat: bool, q: nat): Clause {
    Clause(q, fat, Fields(c.flags, c.tryOff, c.tryLen, c.handlerOff, c.handlerLen),
           if c.flags == 0 then Some((q + if fat then 20 else 8, c.last)) else None)
  }

  // ---- sections ----

  /** A section, after the bytes that align it; a small one has two reserved bytes in its header. */
  datatype Part = Part(pad: seq<byte>, fat: bool, reserved: seq<byte>, content: Content)

  datatype Content = Table(handlers: List<Handler>) | Obsolete(b: seq<byte>)

  predicate ContentOk(c: Content, fat: bool, strict: bool) {
    match c
    case Table(hs) => Length(hs) <= MAX_CLAUSES && HandlersOk(hs, fat, strict)
    case Obsolete(_) => true
  }

  predicate HandlersOk(hs: List<Handler>, fat: bool, strict: bool) { hs.Nil? || (HandlerOk(hs.head, fat, strict) && HandlersOk(hs.tail, fat, strict)) }

  function HandlersBytes(hs: List<Handler>, fat: bool, strict: bool): (r: seq<byte>)
    requires HandlersOk(hs, fat, strict)
    ensures |r| == ClauseSpan(fat, Length(hs))
  {
    if hs.Nil? then [] else HandlerBytes(hs.head, fat) + HandlersBytes(hs.tail, fat, strict)
  }

  function ContentBytes(c: Content, fat: bool, strict: bool): seq<byte>
    requires ContentOk(c, fat, strict)
  {
    match c
    case Table(hs) => HandlersBytes(hs, fat, strict)
    case Obsolete(b) => b
  }

  /** The size of a section counts its header of four bytes. */
  predicate PartOk(s: Part, strict: bool) {
    && ContentOk(s.content, s.fat, strict) && |s.reserved| == (if s.fat then 0 else 2)
    && 4 + |ContentBytes(s.content, s.fat, strict)| < if s.fat then 0x100_0000 else 0x100
  }

  /** The kind byte: the content, whether the section is fat, and whether another one follows. */
  function KindByte(s: Part, more: bool): byte {
    (if s.content.Table? then 0x01 else 0x02) + (if s.fat then 0x40 else 0) + if more then 0x80 else 0
  }

  function PartBytes(s: Part, more: bool, strict: bool): (r: seq<byte>)
    requires PartOk(s, strict)
    ensures |r| == 4 + |ContentBytes(s.content, s.fat, strict)|
  {
    var content := ContentBytes(s.content, s.fat, strict);
    var n := 4 + |content|;
    [KindByte(s, more)] + (if s.fat then Two(n % 0x1_0000) + [n / 0x1_0000] else [n] + s.reserved) + content
  }

  /** Sections that begin, aligned or not, at `p`. */
  predicate PartsOk(ss: List<Part>, strict: bool, p: nat)
    decreases ss
  {
    ss.Nil? || (PartOk(ss.head, strict) && (p + |ss.head.pad|) % 4 == 0 && |ss.head.pad| < 4
                 && PartsOk(ss.tail, strict, p + |ss.head.pad| + |PartBytes(ss.head, ss.tail.Cons?, strict)|))
  }

  function PartsBytes(ss: List<Part>, strict: bool, p: nat): seq<byte>
    requires PartsOk(ss, strict, p)
    decreases ss
  {
    if ss.Nil? then []
    else
      var b := PartBytes(ss.head, ss.tail.Cons?, strict);
      ss.head.pad + (b + PartsBytes(ss.tail, strict, p + |ss.head.pad| + |b|))
  }

  /** The clauses of a table at `q`. */
  function TableClauses(hs: List<Handler>, fat: bool, q: nat): (r: seq<Clause>)
    ensures |r| == Length(hs)
  {
    if hs.Nil? then [] else [ClauseOf(hs.head, fat, q)] + TableClauses(hs.tail, fat, q + if fat then 24 else 12)
  }

  function PartClauses(s: Part, q: nat): seq<Clause> { if s.content.Table? then TableClauses(s.content.handlers, s.fat, q + 4) else [] }

  function PartsClauses(ss: List<Part>, strict: bool, p: nat): seq<Clause>
    requires PartsOk(ss, strict, p)
    decreases ss
  {
    if ss.Nil? then []
    else
      var q := p + |ss.head.pad|;
      PartClauses(ss.head, q) + PartsClauses(ss.tail, strict, q + |PartBytes(ss.head, ss.tail.Cons?, strict)|)
  }

  // ---- bodies ----

  /** A tiny body, or a fat one with the flag bits that have no meaning here, its locals token and its sections. */
  datatype Asm =
    | Tiny(ins: List<Ins>)
    | Fat(ins: List<Ins>, low: byte, high: byte, maxStack: nat, local: nat, parts: List<Part>)

  function HeaderLength(t: Asm): nat { if t.Tiny? then 1 else 12 }

  predicate AsmOk(t: Asm, strict: bool) {
    && CodeOk(t.ins, strict)
    && var n := |CodeBytes(t.ins, strict)|;
       match t
       case Tiny(_) => n < 64
       case Fat(_, low, high, maxStack, local, parts) =>
         && n <= MAX_CODE && low % 4 == 3 && (low / 8 % 2 == 1 <==> parts.Cons?) && high / 16 == 3 && maxStack < 0x1_0000 && local < B32
         && (strict && local != 0 ==> local / 0x100_0000 == STAND_ALONE_SIG) && PartsOk(parts, strict, 12 + n)
  }

  function FatHeader(low: byte, high: byte, maxStack: nat, n: nat, local: nat): (r: seq<byte>)
    requires maxStack < 0x1_0000 && n < B32 && local < B32
    ensures |r| == 12
  {
    [low, high] + Two(maxStack) + Four(n) + Four(local)
  }

  function HeaderBytes(t: Asm, strict: bool): (r: seq<byte>)
    requires AsmOk(t, strict)
    ensures |r| == HeaderLength(t)
  {
    var n := |CodeBytes(t.ins, strict)|;
    match t
    case Tiny(_) => [4 * n + 2]
    case Fat(_, low, high, maxStack, local, _) => FatHeader(low, high, maxStack, n, local)
  }

  function AsmBytes(t: Asm, strict: bool): seq<byte>
    requires AsmOk(t, strict)
  {
    var code := CodeBytes(t.ins, strict);
    HeaderBytes(t, strict) + (code + if t.Tiny? then [] else PartsBytes(t.parts, strict, 12 + |code|))
  }

  /** The parsed body that an assembled one stands for. */
  function BodyOf(t: Asm, strict: bool): Body
    requires AsmOk(t, strict)
  {
    var h, n := HeaderLength(t), |CodeBytes(t.ins, strict)|;
    var toks, end := CodeToks(t.ins, strict, h), |AsmBytes(t, strict)|;
    if t.Tiny? then Body(0, end, false, h, h, n, 0, 0, 0, [], toks, 0, 0)
    else if t.parts.Nil? then Body(0, end, true, h, h, n, t.maxStack, 8, t.local, [], toks, 0, 0)
    else Body(0, end, true, h, h, n, t.maxStack, 8, t.local, PartsClauses(t.parts, strict, h + n), toks, h + n + |t.parts.head.pad|, end)
  }
}
