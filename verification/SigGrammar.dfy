/**
 The grammar of signatures (ECMA-335, section II.23.2) as the parser of clrz3/sig.go reads it:
 types, parameters, methods and blob kinds, spelled as bytes with the places of their type
 references. The parser accepts exactly the blobs that some signature spells.
 */
module SigGrammar {
  import opened Bytes
  import opened SigModel

  /** A compressed integer, in the width it is written in. */
  datatype Num = Num(width: nat, val: nat) {
    predicate Ok() { (width == 1 && val < 0x80) || (width == 2 && val < 0x4000) || (width == 4 && val < 0x2000_0000) }

    function Spelled(): (r: seq<byte>)
      requires Ok()
      ensures |r| == width
    {
      if width == 1 then [val]
      else if width == 2 then [0x80 + val / 0x100, val % 0x100]
      else [0xC0 + val / 0x100_0000, val / 0x1_0000 % 0x100, val / 0x100 % 0x100, val % 0x100]
    }
  }

  // ---- signatures ----

  /** A custom modifier: required or optional. */
  datatype Mod = Mod(required: bool, ref: Num) {
    function Code(): byte { if required then 0x1f else 0x20 }
  }

  datatype Type =
    | Prim(code: byte)
    | Ptr(mods: seq<Mod>, target: Type)
    | VoidPtr(mods: seq<Mod>)
    | ByRef(target: Type)
    | Defined(value: bool, ref: Num)
    | Var(ofMethod: bool, index: Num)
    | Array(element: Type, rank: Num, sizes: List, bounds: List)
    | Generic(value: bool, ref: Num, count: Num, args: Types)
    | FnPtr(callee: Meth)
    | Vector(mods: seq<Mod>, element: Type)

  datatype Types = NoTypes | MoreTypes(head: Type, tail: Types)

  /** A counted list of integers. */
  datatype List = List(count: Num, items: seq<Num>)

  datatype Body = RefTo(target: Type) | TypedRef | Void | Plain(bare: Type)

  datatype Par = Par(mods: seq<Mod>, body: Body)

  /** Each parameter, with the sentinel before it or not. */
  datatype Pars = NoPars | MorePars(sentinel: bool, head: Par, tail: Pars)

  datatype Meth = Meth(convention: byte, generics: Option<Num>, count: Num, ret: Par, pars: Pars)

  datatype LocalMod = Modified(mod: Mod) | Pinned

  datatype Local = Local(mods: seq<LocalMod>, byRef: bool, kind: Type)

  datatype Sig =
    | MethodSig(meth: Meth)
    | FieldSig(mods: seq<Mod>, ofType: Type)
    | LocalsSig(count: Num, locals: seq<Local>)
    | PropertySig(flags: byte, count: Num, value: Par, pars: seq<Par>)
    | TypeSpec(spec: Type)
    | MethodSpec(count: Num, args: Types)
  {
    function Kind(): Kind {
      match this
      case MethodSig(_) => MethodBlob
      case FieldSig(_, _) => FieldBlob
      case LocalsSig(_, _) => LocalBlob
      case PropertySig(_, _, _, _) => PropBlob
      case TypeSpec(_) => TypeBlob
      case MethodSpec(_, _) => InstBlob
    }
  }

  // ---- well-formed signatures ----

  function Length(ts: Types): nat { if ts.NoTypes? then 0 else 1 + Length(ts.tail) }

  function Arity(ps: Pars): nat { if ps.NoPars? then 0 else 1 + Arity(ps.tail) }

  /** The types of ECMA-335 without further parts: the built-in ones, TYPEDBYREF, I, U and OBJECT. */
  predicate BuiltIn(c: byte) { (0x02 <= c <= 0x0e) || c == 0x16 || c == 0x18 || c == 0x19 || c == 0x1c }

  predicate ListOk(l: List) { l.count.val == |l.items| }

  predicate TypeOk(t: Type) {
    match t
    case Prim(c) => BuiltIn(c)
    case Ptr(_, to) => TypeOk(to)
    case VoidPtr(_) => true
    case ByRef(to) => TypeOk(to)
    case Defined(_, _) => true
    case Var(_, _) => true
    case Array(e, _, sizes, bounds) => TypeOk(e) && ListOk(sizes) && ListOk(bounds)
    case Generic(_, _, count, args) => TypesOk(args) && count.val == Length(args) > 0
    case FnPtr(m) => MethOk(m)
    case Vector(_, e) => TypeOk(e)
  }

  predicate TypesOk(ts: Types) { ts.NoTypes? || (TypeOk(ts.head) && TypesOk(ts.tail)) }

  /** BYREF and TYPEDBYREF are parameter forms of their own; only a return type may be VOID. */
  predicate ParOk(p: Par, ret: bool) {
    match p.body
    case RefTo(t) => TypeOk(t)
    case TypedRef => true
    case Void => ret
    case Plain(t) => TypeOk(t) && !t.ByRef? && t != Prim(0x16)
  }

  predicate ParsOk(ps: Pars) { ps.NoPars? || (ParOk(ps.head, false) && ParsOk(ps.tail)) }

  predicate MethOk(m: Meth) {
    && m.convention % 16 <= 5 && (m.generics.Some? <==> (m.convention / 16) % 2 == 1)
    && ParOk(m.ret, true) && ParsOk(m.pars) && m.count.val == Arity(m.pars)
  }

  predicate LocalOk(l: Local) { TypeOk(l.kind) && (l.kind.ByRef? ==> l.byRef) }

  predicate SigOk(s: Sig) {
    match s
    case MethodSig(m) => MethOk(m)
    case FieldSig(_, t) => TypeOk(t)
    case LocalsSig(count, ls) => count.val == |ls| && forall i :: 0 <= i < |ls| ==> LocalOk(ls[i])
    case PropertySig(flags, count, t, ps) =>
      flags % 16 == 8 && count.val == |ps| && ParOk(t, false) && forall i :: 0 <= i < |ps| ==> ParOk(ps[i], false)
    case TypeSpec(t) => TypeOk(t)
    case MethodSpec(count, args) => TypesOk(args) && count.val == Length(args) > 0
  }

  // ---- nesting ----

  function Max(a: nat, b: nat): nat { if a < b then b else a }

  /** How deep types and methods nest. */
  function Depth(t: Type): nat {
    match t
    case Ptr(_, to) => 1 + Depth(to)
    case ByRef(to) => 1 + Depth(to)
    case Array(e, _, _, _) => 1 + Depth(e)
    case Generic(_, _, _, args) => 1 + TypesDepth(args)
    case FnPtr(m) => 1 + MethDepth(m)
    case Vector(_, e) => 1 + Depth(e)
    case _ => 1
  }

  function TypesDepth(ts: Types): nat { if ts.NoTypes? then 0 else Max(Depth(ts.head), TypesDepth(ts.tail)) }

  function ParDepth(p: Par): nat {
    match p.body
    case RefTo(t) => Depth(t)
    case TypedRef => 0
    case Void => 0
    case Plain(t) => Depth(t)
  }

  function ParsDepth(ps: Pars): nat { if ps.NoPars? then 0 else Max(ParDepth(ps.head), ParsDepth(ps.tail)) }

  function MethDepth(m: Meth): nat { 1 + Max(ParDepth(m.ret), ParsDepth(m.pars)) }

  predicate SigWithin(s: Sig, n: nat) {
    match s
    case MethodSig(m) => MethDepth(m) <= n
    case FieldSig(_, t) => Depth(t) <= n
    case LocalsSig(_, ls) => forall i :: 0 <= i < |ls| ==> Depth(ls[i].kind) <= n
    case PropertySig(_, _, t, ps) => ParDepth(t) <= n && forall i :: 0 <= i < |ps| ==> ParDepth(ps[i]) <= n
    case TypeSpec(t) => Depth(t) <= n
    case MethodSpec(_, args) => TypesDepth(args) <= n
  }

  // ---- spelling ----

  /** A byte, an integer, or a reference to a type. */
  datatype Token = Lit(c: byte) | Int(n: Num) | Ref(n: Num)

  datatype Tokens = End | Then(head: Token, tail: Tokens)

  // The `...Then(x, rest)` functions give the tokens of `x` followed by `rest`.

  function ModsThen(ms: seq<Mod>, rest: Tokens): Tokens {
    if ms == [] then rest else Then(Lit(ms[0].Code()), Then(Ref(ms[0].ref), ModsThen(ms[1..], rest)))
  }

  function NumsThen(ns: seq<Num>, rest: Tokens): Tokens {
    if ns == [] then rest else Then(Int(ns[0]), NumsThen(ns[1..], rest))
  }

  function ListThen(l: List, rest: Tokens): Tokens { Then(Int(l.count), NumsThen(l.items, rest)) }

  function TypeThen(t: Type, rest: Tokens): Tokens {
    match t
    case Prim(c) => Then(Lit(c), rest)
    case Ptr(ms, to) => Then(Lit(0x0f), ModsThen(ms, TypeThen(to, rest)))
    case VoidPtr(ms) => Then(Lit(0x0f), ModsThen(ms, Then(Lit(0x01), rest)))
    case ByRef(to) => Then(Lit(0x10), TypeThen(to, rest))
    case Defined(value, ref) => Then(Lit(if value then 0x11 else 0x12), Then(Ref(ref), rest))
    case Var(ofMethod, index) => Then(Lit(if ofMethod then 0x1e else 0x13), Then(Int(index), rest))
    case Array(e, rank, sizes, bounds) => Then(Lit(0x14), TypeThen(e, Then(Int(rank), ListThen(sizes, ListThen(bounds, rest)))))
    case Generic(value, ref, count, args) =>
      Then(Lit(0x15), Then(Lit(if value then 0x11 else 0x12), Then(Ref(ref), Then(Int(count), TypesThen(args, rest)))))
    case FnPtr(m) => Then(Lit(0x1b), MethThen(m, rest))
    case Vector(ms, e) => Then(Lit(0x1d), ModsThen(ms, TypeThen(e, rest)))
  }

  function TypesThen(ts: Types, rest: Tokens): Tokens {
    if ts.NoTypes? then rest else TypeThen(ts.head, TypesThen(ts.tail, rest))
  }

  function BodyThen(b: Body, rest: Tokens): Tokens {
    match b
    case RefTo(t) => Then(Lit(0x10), TypeThen(t, rest))
    case TypedRef => Then(Lit(0x16), rest)
    case Void => Then(Lit(0x01), rest)
    case Plain(t) => TypeThen(t, rest)
  }

  function ParThen(p: Par, rest: Tokens): Tokens { ModsThen(p.mods, BodyThen(p.body, rest)) }

  function ParsThen(ps: Pars, rest: Tokens): Tokens {
    if ps.NoPars? then rest
    else if ps.sentinel then Then(Lit(0x41), ParThen(ps.head, ParsThen(ps.tail, rest)))
    else ParThen(ps.head, ParsThen(ps.tail, rest))
  }

  function MethThen(m: Meth, rest: Tokens): Tokens {
    var tail := Then(Int(m.count), ParThen(m.ret, ParsThen(m.pars, rest)));
    Then(Lit(m.convention), if m.generics.Some? then Then(Int(m.generics.value), tail) else tail)
  }

  function LocalModsThen(ms: seq<LocalMod>, rest: Tokens): Tokens {
    if ms == [] then rest
    else
      match ms[0]
      case Modified(m) => Then(Lit(m.Code()), Then(Ref(m.ref), LocalModsThen(ms[1..], rest)))
      case Pinned => Then(Lit(0x45), LocalModsThen(ms[1..], rest))
  }

  function LocalThen(l: Local, rest: Tokens): Tokens {
    LocalModsThen(l.mods, if l.byRef then Then(Lit(0x10), TypeThen(l.kind, rest)) else TypeThen(l.kind, rest))
  }

  function LocalsThen(ls: seq<Local>, rest: Tokens): Tokens {
    if ls == [] then rest else LocalThen(ls[0], LocalsThen(ls[1..], rest))
  }

  function ParListThen(ps: seq<Par>, rest: Tokens): Tokens {
    if ps == [] then rest else ParThen(ps[0], ParListThen(ps[1..], rest))
  }

  function SigTokens(s: Sig): Tokens {
    match s
    case MethodSig(m) => MethThen(m, End)
    case FieldSig(ms, t) => Then(Lit(0x06), ModsThen(ms, TypeThen(t, End)))
    case LocalsSig(count, ls) => Then(Lit(0x07), Then(Int(count), LocalsThen(ls, End)))
    case PropertySig(flags, count, t, ps) => Then(Lit(flags), Then(Int(count), ParThen(t, ParListThen(ps, End))))
    case TypeSpec(t) => TypeThen(t, End)
    case MethodSpec(count, args) => Then(Lit(0x0a), Then(Int(count), TypesThen(args, End)))
  }

  // ---- bytes and places of tokens ----

  predicate NumsOk(ks: Tokens) {
    ks.End? || ((ks.head.Lit? || ks.head.n.Ok()) && NumsOk(ks.tail))
  }

  function Spelled(ks: Tokens): seq<byte>
    requires NumsOk(ks)
  {
    match ks
    case End => []
    case Then(Lit(c), tail) => [c] + Spelled(tail)
    case Then(Int(n), tail) => n.Spelled() + Spelled(tail)
    case Then(Ref(n), tail) => n.Spelled() + Spelled(tail)
  }

  /** The type references of tokens that begin at `p`. */
  function Refs(ks: Tokens, p: nat): seq<Slot> {
    match ks
    case End => []
    case Then(Lit(_), tail) => Refs(tail, p + 1)
    case Then(Int(n), tail) => Refs(tail, p + n.width)
    case Then(Ref(n), tail) => [Slot(p, n.width, n.val)] + Refs(tail, p + n.width)
  }

  /** The blob `b` is the signature `s`, and `slots` are its type references. */
  ghost predicate Spells(s: Sig, b: seq<byte>, strict: bool, slots: seq<Slot>) {
    && SigOk(s) && SigWithin(s, MAX_DEPTH) && NumsOk(SigTokens(s)) && b == Spelled(SigTokens(s)) && slots == Refs(SigTokens(s), 0)
    && |slots| <= MAX_SLOTS && (strict ==> forall k :: 0 <= k < |slots| ==> Plausible(slots[k].val))
  }
}
