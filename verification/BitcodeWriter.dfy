/**
 A writer of LLVM bitstreams (LLVM Bitcode File Format, section "Bitstream Format"): trees of
 blocks, abbreviation definitions and records, the bits they are written as, and the plan
 that they stand for. It knows nothing of the reader of bitcodez3/parse.go.
 */
module BitcodeWriter {
  import opened Bytes
  import opened BitcodeBits
  import opened BitcodeModel

  // ---- tokens ----

  /** A fixed field, a variable-width integer by its digits, zeros up to a word, or words preceded by their number. */
  datatype Token = Fix(n: nat, v: nat) | Chunk(n: nat, ds: seq<nat>) | Pad | Sub(body: Tokens)

  datatype Tokens = End | Then(head: Token, tail: Tokens)

  function Cat(xs: Tokens, ys: Tokens): Tokens { if xs.End? then ys else Then(xs.head, Cat(xs.tail, ys)) }

  function Unit(k: Token): Tokens { Then(k, End) }

  /** Where a token that begins at bit `p` ends. */
  function TokenEnd(p: nat, k: Token): (r: nat)
    ensures r >= p
    decreases k, 0
  {
    match k
    case Fix(n, _) => p + n
    case Chunk(n, ds) => p + ChunksLength(n, ds)
    case Pad => p + Gap(p)
    case Sub(body) => EndOf(p + 32, body)
  }

  function EndOf(p: nat, ks: Tokens): (r: nat)
    ensures r >= p
    decreases ks, 0
  {
    if ks.End? then p else EndOf(TokenEnd(p, ks.head), ks.tail)
  }

  /** The data holds the token at bit `p`. */
  predicate TokenAt(d: seq<byte>, p: nat, k: Token)
    decreases k, 0
  {
    && TokenEnd(p, k) <= 8 * |d|
    && match k
       case Fix(n, v) => Field(d, p, n) == v
       case Chunk(n, ds) => 2 <= n <= 32 && HasChunks(d, p, n, ds) && WordFits(n, 0, ds)
       case Pad => Field(d, p, Gap(p)) == 0
       case Sub(body) => p + 32 <= 8 * |d| && 32 * Field(d, p, 32) == EndOf(p + 32, body) - (p + 32) && HoldsAt(d, p + 32, body)
  }

  predicate HoldsAt(d: seq<byte>, p: nat, ks: Tokens)
    decreases ks, 0
  {
    ks.End? || (TokenAt(d, p, ks.head) && HoldsAt(d, TokenEnd(p, ks.head), ks.tail))
  }

  // ---- trees ----

  /** An operand of an abbreviation; numbers are given by the digits they are written in. */
  datatype Op = LitOp(ds: seq<nat>) | FixedOp(ds: seq<nat>) | VbrOp(ds: seq<nat>) | ArrayOp | Char6Op | BlobOp {
    function Width(): nat { if FixedOp? || VbrOp? then Total(5, ds) else 0 }

    predicate Scalar() { LitOp? || FixedOp? || VbrOp? || Char6Op? }

    predicate Ok() { (FixedOp? ==> Width() <= 32) && (VbrOp? ==> 2 <= Width() <= 32) }

    /** The number of its encoding in the format. */
    function Coded(): Operand {
      match this
      case LitOp(_) => Operand(true, Total(8, ds), 0, 0)
      case FixedOp(_) => Operand(false, 0, 1, Width())
      case VbrOp(_) => Operand(false, 0, 2, Width())
      case ArrayOp => Operand(false, 0, 3, 0)
      case Char6Op => Operand(false, 0, 4, 0)
      case BlobOp => Operand(false, 0, 5, 0)
    }
  }

  /** One value: the literal's, a field's bits, or digits. */
  datatype Cell = Given | Raw(v: nat) | Digits(ds: seq<nat>)

  datatype Entry =
    | Define(count: seq<nat>, ops: seq<Op>)
    | Plain(code: seq<nat>, count: seq<nat>, values: seq<seq<nat>>)
    | Short(abbrev: nat, ops: seq<Op>, cells: seq<Cell>, count: seq<nat>, tail: seq<Cell>)
    | Nest(id: seq<nat>, width: seq<nat>, entries: Entries)

  datatype Entries = NoEntries | MoreEntries(first: Entry, rest: Entries)

  /** How many operands the array or the blob at the end of an abbreviation takes. */
  function TailWidth(ops: seq<Op>): (n: nat)
    ensures n <= |ops|
  {
    if |ops| >= 2 && ops[|ops| - 2].ArrayOp? then 2 else if |ops| >= 1 && ops[|ops| - 1].BlobOp? then 1 else 0
  }

  /** Scalars, then at most an array of a scalar that is no literal, or a blob. */
  predicate OpsOk(ops: seq<Op>) {
    && 0 < |ops| <= 256 && (forall i :: 0 <= i < |ops| ==> ops[i].Ok())
    && (forall i :: 0 <= i < |ops| - TailWidth(ops) ==> ops[i].Scalar())
    && (TailWidth(ops) == 2 ==> ops[|ops| - 1].Scalar() && !ops[|ops| - 1].LitOp?)
  }

  /** The characters of six bits: a to z, A to Z, 0 to 9, full stop, underscore. */
  function Letter(x: nat): char
    requires x < 64
  {
    if x < 26 then 'a' + x as char
    else if x < 52 then 'A' + (x - 26) as char
    else if x < 62 then '0' + (x - 52) as char
    else if x == 62 then '.' else '_'
  }

  predicate CellOk(o: Op, c: Cell) {
    match o
    case LitOp(_) => c.Given?
    case FixedOp(_) => c.Raw?
    case VbrOp(_) => c.Digits?
    case Char6Op => c.Raw? && c.v < 64
    case _ => false
  }

  function CellValue(o: Op, c: Cell): nat
    requires CellOk(o, c) && o.Ok()
  {
    match o
    case LitOp(ds) => Total(8, ds)
    case FixedOp(_) => c.v
    case VbrOp(_) => Total(o.Width(), c.ds)
    case Char6Op => Letter(c.v) as nat
  }

  // ---- tokens of a tree ----

  function OpTokens(o: Op): Tokens {
    match o
    case LitOp(ds) => Then(Fix(1, 1), Unit(Chunk(8, ds)))
    case FixedOp(ds) => Then(Fix(1, 0), Then(Fix(3, 1), Unit(Chunk(5, ds))))
    case VbrOp(ds) => Then(Fix(1, 0), Then(Fix(3, 2), Unit(Chunk(5, ds))))
    case ArrayOp => Then(Fix(1, 0), Unit(Fix(3, 3)))
    case Char6Op => Then(Fix(1, 0), Unit(Fix(3, 4)))
    case BlobOp => Then(Fix(1, 0), Unit(Fix(3, 5)))
  }

  /** The operands from the `i`-th on. */
  function OpsTokens(ops: seq<Op>, i: nat): Tokens
    decreases |ops| - i
  {
    if i >= |ops| then End else Cat(OpTokens(ops[i]), OpsTokens(ops, i + 1))
  }

  function CellTokens(o: Op, c: Cell): Tokens
    requires CellOk(o, c)
  {
    match o
    case LitOp(_) => End
    case FixedOp(_) => Unit(Fix(o.Width(), c.v))
    case VbrOp(_) => Unit(Chunk(o.Width(), c.ds))
    case Char6Op => Unit(Fix(6, c.v))
  }

  predicate CellsOk(ops: seq<Op>, cells: seq<Cell>) {
    |cells| <= |ops| && forall i :: 0 <= i < |cells| ==> CellOk(ops[i], cells[i]) && ops[i].Ok()
  }

  /** The scalar fields from the `i`-th on. */
  function CellsTokens(ops: seq<Op>, cells: seq<Cell>, i: nat): Tokens
    requires CellsOk(ops, cells)
    decreases |cells| - i
  {
    if i >= |cells| then End else Cat(CellTokens(ops[i], cells[i]), CellsTokens(ops, cells, i + 1))
  }

  predicate TailOk(o: Op, tail: seq<Cell>) { o.Ok() && forall i :: 0 <= i < |tail| ==> CellOk(o, tail[i]) }

  /** The elements of an array from the `i`-th on. */
  function TailTokens(o: Op, tail: seq<Cell>, i: nat): Tokens
    requires TailOk(o, tail)
    decreases |tail| - i
  {
    if i >= |tail| then End else Cat(CellTokens(o, tail[i]), TailTokens(o, tail, i + 1))
  }

  /** The bytes of a blob are 8-bit fields. */
  const ByteOp := FixedOp([8])

  function ArrayTokens(o: Op, count: seq<nat>, tail: seq<Cell>): Tokens
    requires TailOk(o, tail)
  {
    Then(Chunk(6, count), TailTokens(o, tail, 0))
  }

  /** Bytes between 32-bit boundaries. */
  function BlobTokens(count: seq<nat>, tail: seq<Cell>): Tokens
    requires TailOk(ByteOp, tail)
  {
    Then(Chunk(6, count), Then(Pad, Cat(TailTokens(ByteOp, tail, 0), Unit(Pad))))
  }

  predicate ShortOk(e: Entry)
    requires e.Short?
  {
    && OpsOk(e.ops) && CellsOk(e.ops, e.cells) && |e.cells| == |e.ops| - TailWidth(e.ops) && e.abbrev >= 4
    && match TailWidth(e.ops)
       case 2 => TailOk(e.ops[|e.ops| - 1], e.tail) && Total(6, e.count) == |e.tail|
       case 1 => TailOk(ByteOp, e.tail) && Total(6, e.count) == |e.tail| <= MAX_BLOB
       case _ => e.tail == []
  }

  function ShortTail(e: Entry): Tokens
    requires e.Short? && ShortOk(e)
  {
    match TailWidth(e.ops)
    case 2 => ArrayTokens(e.ops[|e.ops| - 1], e.count, e.tail)
    case 1 => BlobTokens(e.count, e.tail)
    case _ => End
  }

  function DigitsTokens(values: seq<seq<nat>>, i: nat): Tokens
    decreases |values| - i
  {
    if i >= |values| then End else Then(Chunk(6, values[i]), DigitsTokens(values, i + 1))
  }

  /** What follows the abbreviation code of an entry that is no block. */
  function PlainTokens(e: Entry): Tokens
    requires e.Plain?
  {
    Then(Chunk(6, e.code), Then(Chunk(6, e.count), DigitsTokens(e.values, 0)))
  }

  function ShortTokens(e: Entry): Tokens
    requires e.Short? && ShortOk(e)
  {
    Cat(CellsTokens(e.ops, e.cells, 0), ShortTail(e))
  }

  /** Every entry is spelled out: its parts fit each other. */
  predicate Formed(e: Entry) {
    match e
    case Define(count, ops) => OpsOk(ops) && Total(5, count) == |ops|
    case Plain(_, count, values) => Total(6, count) == |values|
    case Short(_, _, _, _, _) => ShortOk(e)
    case Nest(_, width, entries) => 2 <= Total(4, width) <= 32 && AllFormed(entries)
  }

  predicate AllFormed(es: Entries) { es.NoEntries? || (Formed(es.first) && AllFormed(es.rest)) }

  /** An entry of a block whose abbreviation codes have `w` bits. */
  function EntryTokens(e: Entry, w: nat): Tokens
    requires Formed(e)
    decreases e, 0
  {
    match e
    case Define(count, ops) => Then(Fix(w, 2), Then(Chunk(5, count), OpsTokens(ops, 0)))
    case Plain(_, _, _) => Then(Fix(w, 3), PlainTokens(e))
    case Short(abbrev, _, _, _, _) => Then(Fix(w, abbrev), ShortTokens(e))
    case Nest(id, width, entries) =>
      Then(Fix(w, 1), HeadTokens(id, width, BodyTokens(entries, Total(4, width))))
  }

  function HeadTokens(id: seq<nat>, width: seq<nat>, body: Tokens): Tokens {
    Then(Chunk(8, id), Then(Chunk(4, width), Then(Pad, Unit(Sub(body)))))
  }

  /** The entries of a block and its end. */
  function BodyTokens(es: Entries, w: nat): Tokens
    requires AllFormed(es)
    decreases es, 1
  {
    Cat(EntriesTokens(es, w), Then(Fix(w, 0), Unit(Pad)))
  }

  function EntriesTokens(es: Entries, w: nat): Tokens
    requires AllFormed(es)
    decreases es, 0
  {
    if es.NoEntries? then End else Cat(EntryTokens(es.first, w), EntriesTokens(es.rest, w))
  }

  // ---- what a tree stands for ----

  function Code(ops: seq<Op>): (a: seq<Operand>)
    ensures |a| == |ops| && forall i :: 0 <= i < |a| ==> a[i] == ops[i].Coded()
  {
    seq(|ops|, i requires 0 <= i < |ops| => ops[i].Coded())
  }

  lemma CodeArrays(ops: seq<Op>)
    requires OpsOk(ops)
    ensures ArraysOk(Code(ops))
  {}

  function CellValues(ops: seq<Op>, cells: seq<Cell>): (vs: seq<nat>)
    requires CellsOk(ops, cells)
    ensures |vs| == |cells|
  {
    seq(|cells|, i requires 0 <= i < |cells| => CellValue(ops[i], cells[i]))
  }

  function TailValues(o: Op, tail: seq<Cell>): (vs: seq<nat>)
    requires TailOk(o, tail)
    ensures |vs| == |tail|
  {
    seq(|tail|, i requires 0 <= i < |tail| => CellValue(o, tail[i]))
  }

  function Totals(values: seq<seq<nat>>): (vs: seq<nat>)
    ensures |vs| == |values|
  {
    seq(|values|, i requires 0 <= i < |values| => Total(6, values[i]))
  }

  predicate IsRecord(e: Entry) { e.Plain? || e.Short? }

  /** The values of the array or the blob of a record. */
  function ShortTailValues(e: Entry): seq<nat>
    requires e.Short? && ShortOk(e)
  {
    match TailWidth(e.ops)
    case 2 => TailValues(e.ops[|e.ops| - 1], e.tail)
    case 1 => TailValues(ByteOp, e.tail)
    case _ => []
  }

  /** The values of a record, its code first. */
  function Values(e: Entry): seq<nat>
    requires IsRecord(e) && Formed(e)
  {
    match e
    case Plain(code, _, values) => [Total(6, code)] + Totals(values)
    case Short(_, ops, cells, _, _) => CellValues(ops, cells) + ShortTailValues(e)
  }

  /** The records of a subtree. */
  function RecordCount(es: Entries): nat {
    if es.NoEntries? then 0
    else (match es.first case Nest(_, _, entries) => RecordCount(entries) case Define(_, _) => 0 case _ => 1) + RecordCount(es.rest)
  }

  /** The abbreviations BLOCKINFO has given the blocks with an identifier. */
  function GivenTo(info: map<nat, seq<Abbrev>>, id: nat): seq<Abbrev> { if id in info then info[id] else [] }

  datatype Out = Out(sc: Scope, s: St)

  function DefineAfter(id: nat, e: Entry, sc: Scope, s: St, p: nat): Out
    requires e.Define? && Formed(e)
  {
    CodeArrays(e.ops);
    var t := s.(p := p, operands := s.operands + |e.ops|, abbrevs := s.abbrevs + 1);
    if id != 0 then Out(sc.(abbrevs := sc.abbrevs + [Code(e.ops)]), t)
    else if sc.target.None? then Out(sc, t)
    else Out(sc, t.(info := s.info[sc.target.value := GivenTo(s.info, sc.target.value) + [Code(e.ops)]]))
  }

  /** A record joins the plan. SETBID, in BLOCKINFO, names the blocks that definitions are for. */
  function RecordAfter(id: nat, e: Entry, sc: Scope, s: St, p: nat): Out
    requires IsRecord(e) && Formed(e)
  {
    var vs, code := Values(e), if e.Plain? then 3 else e.abbrev;
    if vs == [] then Out(sc, s)
    else
      var t := s.(p := p, values := s.values + |vs|, records := s.records + [Record(id, vs[0], code, s.p, p, |vs| - 1, vs)]);
      Out(if id == 0 && vs[0] == 1 && |vs| == 2 then sc.(target := Some(vs[1])) else sc, t)
  }

  /** Where the body behind a header begins: two integers, zeros, and the number of words. */
  function HeadEnd(p: nat, id: seq<nat>, width: seq<nat>): nat {
    var q := p + ChunksLength(8, id) + ChunksLength(4, width);
    q + Gap(q) + 32
  }

  /** Where the entries of a nested block begin; the block is listed before the blocks in it. */
  function NestStart(w: nat, e: Entry, s: St): St
    requires e.Nest? && Formed(e)
  {
    var body, end := HeadEnd(s.p + w, e.id, e.width), EndOf(s.p, EntryTokens(e, w));
    s.(p := body, blocks := s.blocks + [Block(Total(8, e.id), s.p, body, end, Total(4, e.width), 0)])
  }

  /** Where they end: the block has the records of its subtree. */
  function NestEnd(w: nat, e: Entry, s: St, t: St): St
    requires e.Nest? && Formed(e) && |s.blocks| < |t.blocks|
  {
    t.(p := EndOf(s.p, EntryTokens(e, w)), blocks := t.blocks[|s.blocks| := t.blocks[|s.blocks|].(records := RecordCount(e.entries))])
  }

  /** What an entry of block `id` adds: `p` moves to its end. */
  function EntryAfter(id: nat, w: nat, e: Entry, sc: Scope, s: St): (o: Out)
    requires Formed(e)
    ensures Grown(s, o.s)
    decreases e, 0
  {
    var p := EndOf(s.p, EntryTokens(e, w));
    match e
    case Define(_, _) => DefineAfter(id, e, sc, s, p)
    case Plain(_, _, _) => RecordAfter(id, e, sc, s, p)
    case Short(_, _, _, _, _) => RecordAfter(id, e, sc, s, p)
    case Nest(ds, width, entries) =>
      var inner := Total(8, ds);
      Out(sc, NestEnd(w, e, s, EntriesAfter(inner, Total(4, width), entries, Scope(GivenTo(s.info, inner), None), NestStart(w, e, s)).s))
  }

  function EntriesAfter(id: nat, w: nat, es: Entries, sc: Scope, s: St): (o: Out)
    requires AllFormed(es)
    ensures Grown(s, o.s)
    decreases es, 0
  {
    if es.NoEntries? then Out(sc, s)
    else
      var o := EntryAfter(id, w, es.first, sc, s);
      EntriesAfter(id, w, es.rest, o.sc, o.s)
  }

  /** Nothing is taken back. */
  predicate Grown(s: St, r: St) {
    && s.values <= r.values && s.abbrevs <= r.abbrevs && s.operands <= r.operands && |s.blocks| <= |r.blocks| && |s.records| <= |r.records|
    && (s.bad <==> r.bad)
  }

  // ---- which trees can be written ----

  /**
   An entry has its place in block `id`: definitions in BLOCKINFO follow a SETBID, which has one operand; a
   short record uses an abbreviation in force, first those BLOCKINFO gave the block, then its own; nesting is bounded.
   */
  predicate Fitting(id: nat, w: nat, depth: nat, e: Entry, sc: Scope, s: St)
    requires Formed(e)
    decreases e, 0
  {
    match e
    case Define(_, _) => if id == 0 then sc.target.Some? else |sc.abbrevs| < 4096
    case Plain(_, _, _) => RecordFitting(id, e)
    case Short(abbrev, ops, _, _, _) => RecordFitting(id, e) && abbrev - 4 < |sc.abbrevs| && sc.abbrevs[abbrev - 4] == Code(ops)
    case Nest(ds, width, entries) =>
      var inner := Total(8, ds);
      && depth < MAX_DEPTH
      && AllFitting(inner, Total(4, width), depth + 1, entries, Scope(GivenTo(s.info, inner), None), NestStart(w, e, s))
  }

  predicate RecordFitting(id: nat, e: Entry)
    requires IsRecord(e) && Formed(e)
  {
    |Values(e)| > 0 && (id == 0 && Values(e)[0] == 1 ==> |Values(e)| == 2)
  }

  predicate AllFitting(id: nat, w: nat, depth: nat, es: Entries, sc: Scope, s: St)
    requires AllFormed(es)
    decreases es, 0
  {
    es.NoEntries? ||
    (Fitting(id, w, depth, es.first, sc, s) &&
     AllFitting(id, w, depth, es.rest, EntryAfter(id, w, es.first, sc, s).sc, EntryAfter(id, w, es.first, sc, s).s))
  }

  /** The totals that a file may hold. */
  predicate Bounded(d: seq<byte>, s: St) {
    && s.values <= Limit(d) && s.abbrevs <= 65536 && s.operands <= 0x10_0000 && |s.blocks| <= MAX_BLOCKS && |s.records| <= MAX_RECORDS
  }

  /** The file `d` is written from the tree `es`. */
  predicate WrittenFrom(d: seq<byte>, es: Entries) {
    && AllFormed(es) && Envelope(d) && HoldsAt(d, 32, EntriesTokens(es, 2)) && EndOf(32, EntriesTokens(es, 2)) == 8 * |d|
  }

  function Whole(es: Entries): St
    requires AllFormed(es)
  {
    EntriesAfter(TOP, 2, es, Scope([], None), St(32, false, 0, 0, 0, map[], [], [])).s
  }

  /** The tree is within the limits of the reader. */
  predicate Readable(d: seq<byte>, es: Entries)
    requires AllFormed(es)
  {
    AllFitting(TOP, 2, 0, es, Scope([], None), St(32, false, 0, 0, 0, map[], [], [])) && Bounded(d, Whole(es))
  }

  /** The plan that a tree stands for. */
  function PlanFrom(es: Entries): Plan
    requires AllFormed(es)
  {
    Plan(Whole(es).blocks, Whole(es).records, Whole(es).abbrevs)
  }
}
