/**
 CIL method bodies (clrz3/cil.go; ECMA-335 section II.25.4 and the opcode tables of partition III).
 Offsets here are relative to the start of the body.
 */
module CilModel {
  import opened Bytes

  const MAX_CODE := 0x400_0000
  const MAX_CLAUSES := 0x1_0000

  /** Token operand classes. */
  datatype Class = TkMethod | TkField | TkType | TkSig | TkString | TkAny

  /** Operands by opcode. */
  datatype Opd = Illegal | Raw(size: nat) | Switch | Token(cls: Class)

  function Opd1(op: byte): Opd {
    if op <= 0x0d || 0x14 <= op <= 0x1e || 0x25 <= op <= 0x26 || op == 0x2a || 0x46 <= op <= 0x6e || op == 0x76 || op == 0x7a
       || 0x82 <= op <= 0x8b || op == 0x8e || 0x90 <= op <= 0xa2 || 0xb3 <= op <= 0xba || op == 0xc3 || 0xd1 <= op <= 0xdc || 0xdf <= op <= 0xe0
    then Raw(0)
    else if 0x0e <= op <= 0x13 || op == 0x1f || 0x2b <= op <= 0x37 || op == 0xde then Raw(1)
    else if op == 0x20 || op == 0x22 || 0x38 <= op <= 0x44 || op == 0xdd then Raw(4)
    else if op == 0x21 || op == 0x23 then Raw(8)
    else if op == 0x45 then Switch
    else if op == 0x27 || op == 0x28 || op == 0x6f || op == 0x73 then Token(TkMethod)
    else if 0x7b <= op <= 0x80 then Token(TkField)
    else if op == 0x70 || op == 0x71 || op == 0x74 || op == 0x75 || op == 0x79 || op == 0x81 || op == 0x8c || op == 0x8d || op == 0x8f
            || 0xa3 <= op <= 0xa5 || op == 0xc2 || op == 0xc6
    then Token(TkType)
    else if op == 0x29 then Token(TkSig)
    else if op == 0x72 then Token(TkString)
    else if op == 0xd0 then Token(TkAny)
    else Illegal
  }

  /** Opcodes after the 0xFE prefix. */
  function Opd2(op: byte): Opd {
    if op <= 0x05 || op == 0x0f || op == 0x11 || op == 0x13 || op == 0x14 || op == 0x17 || op == 0x18 || op == 0x1a || op == 0x1d || op == 0x1e
    then Raw(0)
    else if op == 0x12 || op == 0x19 then Raw(1)
    else if 0x09 <= op <= 0x0e then Raw(2)
    else if op == 0x06 || op == 0x07 then Token(TkMethod)
    else if op == 0x15 || op == 0x16 || op == 0x1c then Token(TkType)
    else Illegal
  }

  function U16At(v: seq<byte>, p: nat): nat
    requires p + 2 <= |v|
  {
    Word(v[p], v[p + 1])
  }

  function Word(a: int, b: int): int { a + 0x100 * b }

  function U32At(v: seq<byte>, p: nat): nat
    requires p + 4 <= |v|
  {
    U16At(v, p) + 0x1_0000 * U16At(v, p + 2)
  }

  /** A plausible token of a class: its table is in the class and its row is not zero. */
  predicate ValidTok(v: nat, cls: Class) {
    var t, r := v / 0x100_0000, v % 0x100_0000;
    match cls
    case TkString => t == 0x70
    case TkSig => t == 0x11 && r != 0
    case TkMethod => (t == 0x06 || t == 0x0a || t == 0x2b) && r != 0
    case TkField => (t == 0x04 || t == 0x0a) && r != 0
    case TkType => (t == 0x02 || t == 0x01 || t == 0x1b) && r != 0
    case TkAny => (t == 0x02 || t == 0x01 || t == 0x1b || t == 0x04 || t == 0x06 || t == 0x0a || t == 0x2b) && r != 0
  }

  // ---- code ----

  /** A token operand: where it is, its class and value. */
  datatype Tok = Tok(off: nat, cls: Class, val: nat)

  /** An instruction: where the next one starts, and its token operand if it has one. */
  datatype Instr = Instr(next: nat, tok: Option<Tok>)

  /** The operand kind of the instruction at `p`, and where the operand starts. */
  function OpdAt(v: seq<byte>, p: nat, end: nat): (Opd, nat)
    requires p < end <= |v|
  {
    if v[p] != 0xfe then (Opd1(v[p]), p + 1)
    else if p + 1 >= end || v[p + 1] >= 32 then (Illegal, p + 1)
    else (Opd2(v[p + 1]), p + 2)
  }

  function InstrAt(v: seq<byte>, p: nat, end: nat, strict: bool): (r: Option<Instr>)
    requires p < end <= |v|
    ensures r.Some? ==> p < r.value.next <= end
    ensures r.Some? && r.value.tok.Some? ==> p < r.value.tok.value.off && r.value.tok.value.off + 4 == r.value.next
  {
    var (o, q) := OpdAt(v, p, end);
    InstrOf(v, o, q, end, strict)
  }

  /** An instruction from its operand kind and where its operand starts. */
  function InstrOf(v: seq<byte>, o: Opd, q: nat, end: nat, strict: bool): (r: Option<Instr>)
    requires end <= |v|
    ensures r.Some? ==> q <= r.value.next <= end
    ensures r.Some? && r.value.tok.Some? ==> q == r.value.tok.value.off && q + 4 == r.value.next
  {
    match o
    case Illegal => None
    case Raw(n) => if q + n > end then None else Some(Instr(q + n, None))
    case Switch =>
      if q + 4 > end || U32At(v, q) > (end - q - 4) / 4 then None else Some(Instr(q + 4 + 4 * U32At(v, q), None))
    case Token(c) =>
      if q + 4 > end || (strict && !ValidTok(U32At(v, q), c)) then None else Some(Instr(q + 4, Some(Tok(q, c, U32At(v, q)))))
  }

  /** The token operands of the code from `p`, after `acc`; none when the instructions do not end at `end` exactly. */
  function Code(v: seq<byte>, p: nat, end: nat, strict: bool, acc: seq<Tok>): Option<seq<Tok>>
    requires p <= end <= |v|
    decreases end - p
  {
    if p == end then Some(acc)
    else
      var i := InstrAt(v, p, end, strict);
      if i.None? then None else Code(v, i.value.next, end, strict, Append(acc, i.value.tok))
  }

  // ---- exception clauses ----

  /** The fixed fields of an exception-handling clause. */
  datatype Fields = Fields(flags: nat, tryOff: nat, tryLen: nat, handlerOff: nat, handlerLen: nat)

  /** An exception-handling clause; a typed catch carries a class token (its offset and value). */
  datatype Clause = Clause(off: nat, fat: bool, fields: Fields, tok: Option<(nat, nat)>)

  function ClauseSize(fat: bool): nat { if fat then 24 else 12 }

  /** The size of `n` clauses, and how many fit a number of bytes exactly. */
  function ClauseSpan(fat: bool, n: nat): nat { if fat then 24 * n else 12 * n }

  function ClauseCount(fat: bool, bytes: nat): nat { if fat then bytes / 24 else bytes / 12 }

  predicate WholeClauses(fat: bool, bytes: nat) { if fat then bytes % 24 == 0 else bytes % 12 == 0 }

  /** Where the class token of a clause is. */
  function TokPlace(q: nat, fat: bool): nat { if fat then q + 20 else q + 8 }

  /** The fields from the bytes before the class token. */
  function FieldsOf(fat: bool, s: seq<byte>): Fields
    requires |s| == if fat then 20 else 8
  {
    if fat then Fields(U32At(s, 0), U32At(s, 4), U32At(s, 8), U32At(s, 12), U32At(s, 16))
    else Fields(U16At(s, 0), U16At(s, 2), s[4], U16At(s, 5), s[7])
  }

  function ClauseAt(v: seq<byte>, q: nat, fat: bool): Clause
    requires q + ClauseSize(fat) <= |v|
  {
    var f, t := FieldsOf(fat, v[q..TokPlace(q, fat)]), TokPlace(q, fat);
    Clause(q, fat, f, if f.flags == 0 then Some((t, U32At(v, t))) else None)
  }

  predicate ClauseOk(c: Clause, strict: bool) { strict && c.tok.Some? ==> ValidTok(c.tok.value.1, TkType) }

  /** Where clause `i` of a table at `q` starts. */
  function ClauseStart(q: nat, fat: bool, i: nat): nat { q + ClauseSpan(fat, i) }

  function ClauseList(v: seq<byte>, q: nat, n: nat, fat: bool): (r: seq<Clause>)
    requires q + ClauseSpan(fat, n) <= |v|
    ensures |r| == n && forall i :: 0 <= i < n ==> ClauseStart(q, fat, i) + ClauseSize(fat) <= |v| && r[i] == ClauseAt(v, ClauseStart(q, fat, i), fat)
  {
    seq(n, i requires 0 <= i < n => ClauseAt(v, ClauseStart(q, fat, i), fat))
  }

  predicate AllOk(cs: seq<Clause>, strict: bool) { forall i :: 0 <= i < |cs| ==> ClauseOk(cs[i], strict) }

  /** The `n` clauses of a table at `q`, after `acc`. */
  function Clauses(v: seq<byte>, q: nat, n: nat, fat: bool, strict: bool, acc: seq<Clause>): Option<seq<Clause>>
    requires q + ClauseSpan(fat, n) <= |v|
  {
    if AllOk(ClauseList(v, q, n, fat), strict) then Some(acc + ClauseList(v, q, n, fat)) else None
  }

  // ---- sections ----

  /** A section header: kind byte and size. */
  function SectionSize(v: seq<byte>, p: nat): nat
    requires p + 4 <= |v|
  {
    if v[p] / 0x40 % 2 == 1 then Word(v[p + 1], v[p + 2]) + 0x1_0000 * Word(v[p + 3], 0) else v[p + 1]
  }

  predicate FatSection(v: seq<byte>, p: nat)
    requires p < |v|
  {
    v[p] / 0x40 % 2 == 1
  }

  predicate MoreSections(v: seq<byte>, p: nat)
    requires p < |v|
  {
    v[p] >= 0x80
  }

  function Align4(x: nat): nat { (x + 3) / 4 * 4 }

  /** The clauses of one section, after `acc`. */
  function Section(v: seq<byte>, p: nat, strict: bool, acc: seq<Clause>): Option<seq<Clause>>
    requires p + 4 <= |v| && 4 <= SectionSize(v, p) && p + SectionSize(v, p) <= |v|
  {
    var kind, bytes, fat := v[p] % 0x40, SectionSize(v, p) - 4, FatSection(v, p);
    if kind == 1 then
      if !WholeClauses(fat, bytes) || ClauseCount(fat, bytes) > MAX_CLAUSES then None
      else Clauses(v, p + 4, ClauseCount(fat, bytes), fat, strict, acc)
    else if kind == 2 then Some(acc)
    else None
  }

  /** The clauses of the sections from `p` on, after `acc`, and where the last section ends. */
  function Sections(v: seq<byte>, p: nat, strict: bool, acc: seq<Clause>): Option<(seq<Clause>, nat)>
    decreases |v| - p
  {
    if p + 4 > |v| || SectionSize(v, p) < 4 || p + SectionSize(v, p) > |v| then None
    else
      var cs := Section(v, p, strict, acc);
      if cs.None? then None
      else if !MoreSections(v, p) then Some((cs.value, p + SectionSize(v, p)))
      else Sections(v, Align4(p + SectionSize(v, p)), strict, cs.value)
  }

  // ---- bodies ----

  /** The header of a body: its length, the code length, and for a fat one the rest. */
  datatype Header = Header(fat: bool, hdrLen: nat, codeLen: nat, maxStack: nat, localTok: nat, sections: bool)

  function HeaderAt(v: seq<byte>, strict: bool): Option<Header>
    requires |v| > 0
  {
    if v[0] % 4 == 2 then Some(Header(false, 1, v[0] / 4, 0, 0, false))
    else if v[0] % 4 != 3 || |v| < 12 || v[1] / 16 != 3 || U32At(v, 4) > MAX_CODE then None
    else if strict && U32At(v, 8) != 0 && U32At(v, 8) / 0x100_0000 != 0x11 then None
    else Some(Header(true, 12, U32At(v, 4), U16At(v, 2), U32At(v, 8), v[0] / 8 % 2 == 1))
  }

  /** A parsed body; offsets that do not apply are zero. */
  datatype Body = Body(off: nat, end: nat, fat: bool, hdrLen: nat, codeOff: nat, codeLen: nat, maxStack: nat, localOff: nat, localTok: nat,
                       clauses: seq<Clause>, toks: seq<Tok>, secOff: nat, secEnd: nat)

  function Plain(h: Header, toks: seq<Tok>): Body {
    Body(0, h.hdrLen + h.codeLen, h.fat, h.hdrLen, h.hdrLen, h.codeLen, h.maxStack, if h.fat then 8 else 0, h.localTok, [], toks, 0, 0)
  }

  /** The body at the start of `v`. */
  function BodyAt(v: seq<byte>, strict: bool): Option<Body> {
    if |v| == 0 || HeaderAt(v, strict).None? then None
    else
      var h := HeaderAt(v, strict).value;
      if h.hdrLen + h.codeLen > |v| then None
      else
        Assemble(h, Code(v, h.hdrLen, h.hdrLen + h.codeLen, strict, []),
                 if h.sections then Sections(v, Align4(h.hdrLen + h.codeLen), strict, []) else None)
  }

  /** A body from its header, its code and its sections, if it has any. */
  function Assemble(h: Header, toks: Option<seq<Tok>>, s: Option<(seq<Clause>, nat)>): Option<Body> {
    if toks.None? then None else if !h.sections then Some(Plain(h, toks.value)) else Extend(h, toks.value, s)
  }

  /** A body with its sections. */
  function Extend(h: Header, toks: seq<Tok>, s: Option<(seq<Clause>, nat)>): Option<Body> {
    if s.None? then None
    else Some(Plain(h, toks).(end := s.value.1, clauses := s.value.0, secOff := Align4(h.hdrLen + h.codeLen), secEnd := s.value.1))
  }

  // ---- file offsets ----

  function MoveTok(t: Tok, off: nat): Tok { t.(off := t.off + off) }

  function MoveClause(c: Clause, off: nat): Clause {
    c.(off := c.off + off, tok := if c.tok.Some? then Some((c.tok.value.0 + off, c.tok.value.1)) else None)
  }

  function MoveToks(ts: seq<Tok>, off: nat): (r: seq<Tok>)
    ensures |r| == |ts| && forall i :: 0 <= i < |ts| ==> r[i] == MoveTok(ts[i], off)
  {
    seq(|ts|, i requires 0 <= i < |ts| => MoveTok(ts[i], off))
  }

  function MoveClauses(cs: seq<Clause>, off: nat): (r: seq<Clause>)
    ensures |r| == |cs| && forall i :: 0 <= i < |cs| ==> r[i] == MoveClause(cs[i], off)
  {
    seq(|cs|, i requires 0 <= i < |cs| => MoveClause(cs[i], off))
  }

  /** The body in file offsets. */
  function Rebase(b: Body, off: nat): Body {
    Body(off, b.end + off, b.fat, b.hdrLen, b.codeOff + off, b.codeLen, b.maxStack, if b.localOff == 0 then 0 else b.localOff + off, b.localTok,
         MoveClauses(b.clauses, off), MoveToks(b.toks, off), if b.secOff == 0 then 0 else b.secOff + off, if b.secEnd == 0 then 0 else b.secEnd + off)
  }

  /** `ParseBody`: the body at file offset `off`, if there is one. */
  function ParseBody(d: seq<byte>, off: int, strict: bool): Option<Body> {
    if off < 0 || off >= |d| then None
    else
      var b := BodyAt(d[off..], strict);
      if b.None? then None else Some(Rebase(b.value, off))
  }
}
