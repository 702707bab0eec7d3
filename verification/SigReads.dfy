/** The walk over a signature follows its grammar: it reads every signature, and what it accepts is one. */
module SigReads {
  import opened Bytes
  import opened SigModel
  import opened SigSteps
  import opened SigGrammar

  // ---- reading tokens ----

  predicate NumAt(b: seq<byte>, p: nat, n: Num) { CuAt(b, p) == Some((n.val, n.width)) }

  /** The state after token `k`, if it stands at the cursor. */
  function Next(b: seq<byte>, strict: bool, s: St, k: Token): (r: Option<St>)
    ensures r.Some? && !s.bad ==> !r.value.bad && r.value.p > s.p
  {
    match k
    case Lit(c) => if s.p < |b| && b[s.p] == c then Some(s.Skip()) else None
    case Int(n) => if NumAt(b, s.p, n) then Some(s.(p := s.p + n.width)) else None
    case Ref(n) =>
      if NumAt(b, s.p, n) && (strict ==> Plausible(n.val)) && |s.slots| < MAX_SLOTS
      then Some(s.(p := s.p + n.width, slots := s.slots + [Slot(s.p, n.width, n.val)]))
      else None
  }

  function Run(b: seq<byte>, strict: bool, s: St, ks: Tokens): Option<St>
    decreases ks
  {
    if ks.End? then Some(s)
    else
      var r := Next(b, strict, s, ks.head);
      if r.None? then None else Run(b, strict, r.value, ks.tail)
  }

  /** From `s` the tokens `ks` are read as far as `r`, where `rest` begins. */
  ghost predicate Leads(b: seq<byte>, strict: bool, s: St, ks: Tokens, r: St, rest: Tokens) {
    !s.bad && !r.bad && Run(b, strict, s, ks) == Run(b, strict, r, rest)
  }

  /** The tokens from `s` on are there. */
  ghost predicate Stands(b: seq<byte>, strict: bool, s: St, ks: Tokens) { !s.bad && Run(b, strict, s, ks).Some? }

  /** As `Leads`, and the rest is there. */
  ghost predicate Passes(b: seq<byte>, strict: bool, s: St, ks: Tokens, r: St, rest: Tokens) {
    Leads(b, strict, s, ks, r, rest) && Stands(b, strict, r, rest)
  }

  /** One token is read. */
  lemma Advance(b: seq<byte>, strict: bool, s: St, k: Token, ks: Tokens) returns (m: St)
    requires Stands(b, strict, s, Then(k, ks))
    ensures Next(b, strict, s, k) == Some(m) && Passes(b, strict, s, Then(k, ks), m, ks)
  {
    m := Next(b, strict, s, k).value;
  }

  /** A token before tokens that lead on. */
  lemma Precede(b: seq<byte>, strict: bool, s: St, k: Token, m: St, ks: Tokens, r: St, rest: Tokens)
    requires !s.bad && Next(b, strict, s, k) == Some(m) && Leads(b, strict, m, ks, r, rest)
    ensures Leads(b, strict, s, Then(k, ks), r, rest)
  {}

  lemma PeekFirst(b: seq<byte>, strict: bool, s: St, ks: Tokens)
    requires Stands(b, strict, s, ks) && ks.Then? && ks.head.Lit?
    ensures Peek(b, s) == ks.head.c
  {}

  function Size(ks: Tokens): nat { if ks.End? then 0 else 1 + Size(ks.tail) }

  lemma {:induction false} RunLength(b: seq<byte>, strict: bool, s: St, ks: Tokens)
    requires Stands(b, strict, s, ks) && s.p <= |b|
    ensures Size(ks) <= |b| - s.p
    decreases ks
  {
    if ks.Then? { RunLength(b, strict, Next(b, strict, s, ks.head).value, ks.tail); }
  }

  /** The first token is this byte. */
  predicate Opens(ks: Tokens, c: byte) { ks.Then? && ks.head == Lit(c) }

  predicate NoMod(ks: Tokens) { ks.Then? && ks.head.Lit? && !IsMod(ks.head.c) }

  // ---- modifiers and lists ----

  lemma {:induction false} ReadMods(b: seq<byte>, strict: bool, s: St, ms: seq<Mod>, rest: Tokens)
    requires Stands(b, strict, s, ModsThen(ms, rest)) && NoMod(rest)
    ensures Passes(b, strict, s, ModsThen(ms, rest), Mods(b, strict, s), rest)
    decreases |ms|
  {
    if ms != [] {
      var m := Advance(b, strict, s, Lit(ms[0].Code()), Then(Ref(ms[0].ref), ModsThen(ms[1..], rest)));
      var n := Advance(b, strict, m, Ref(ms[0].ref), ModsThen(ms[1..], rest));
      ReadMods(b, strict, n, ms[1..], rest);
    }
  }

  lemma NumOf(b: seq<byte>, p: nat) returns (n: Num)
    requires CuAt(b, p).Some?
    ensures NumAt(b, p, n)
  {
    n := Num(CuAt(b, p).value.1, CuAt(b, p).value.0);
  }

  lemma {:induction false} FindMods(b: seq<byte>, strict: bool, s: St, rest: Tokens) returns (ms: seq<Mod>)
    requires !s.bad && !Mods(b, strict, s).bad
    ensures Leads(b, strict, s, ModsThen(ms, rest), Mods(b, strict, s), rest)
    decreases |b| - s.p
  {
    ms := [];
    if IsMod(Peek(b, s)) {
      var m := TypeRef(b, strict, s.Skip());
      var n := NumOf(b, s.p + 1);
      var tail := FindMods(b, strict, m, rest);
      ms := [Mod(b[s.p] == 0x1f, n)] + tail;
      assert ms[1..] == tail;
    }
  }

  lemma {:induction false} ReadNums(b: seq<byte>, strict: bool, s: St, ns: seq<Num>, rest: Tokens)
    requires Stands(b, strict, s, NumsThen(ns, rest))
    ensures Passes(b, strict, s, NumsThen(ns, rest), Cus(b, |ns|, s), rest)
    decreases |ns|
  {
    if ns != [] {
      ReadNums(b, strict, CuStep(b)(s), ns[1..], rest);
    }
  }

  lemma {:induction false} FindNums(b: seq<byte>, strict: bool, s: St, n: nat, rest: Tokens) returns (ns: seq<Num>)
    requires !s.bad && !Cus(b, n, s).bad
    ensures |ns| == n && Leads(b, strict, s, NumsThen(ns, rest), Cus(b, n, s), rest)
    decreases n
  {
    ns := [];
    if n > 0 {
      var m := CuStep(b)(s);
      assert !m.bad;
      var x := NumOf(b, s.p);
      var tail := FindNums(b, strict, m, n - 1, rest);
      ns := [x] + tail;
      assert ns[1..] == tail;
    }
  }

  lemma {:induction false} NumsSize(ns: seq<Num>, rest: Tokens)
    ensures Size(NumsThen(ns, rest)) == |ns| + Size(rest)
  {
    if ns != [] { NumsSize(ns[1..], rest); }
  }

  /** A count of items that follow is plausible. */
  lemma ReadCount(b: seq<byte>, strict: bool, s: St, n: Num, rest: Tokens)
    requires Stands(b, strict, s, Then(Int(n), rest)) && n.val <= Size(rest)
    ensures Passes(b, strict, s, Then(Int(n), rest), Count(b, s), rest) && CountValue(b, s) == n.val
  {
    RunLength(b, strict, Next(b, strict, s, Int(n)).value, rest);
  }

  lemma FindCount(b: seq<byte>, strict: bool, s: St, rest: Tokens) returns (n: Num)
    requires !s.bad && !Count(b, s).bad
    ensures Leads(b, strict, s, Then(Int(n), rest), Count(b, s), rest) && CountValue(b, s) == n.val
  {
    n := NumOf(b, s.p);
  }

  function Counted(b: seq<byte>, s: St): St { Cus(b, CountValue(b, s), Count(b, s)) }

  lemma ReadList(b: seq<byte>, strict: bool, s: St, l: List, rest: Tokens)
    requires Stands(b, strict, s, ListThen(l, rest)) && ListOk(l)
    ensures Passes(b, strict, s, ListThen(l, rest), Counted(b, s), rest)
  {
    NumsSize(l.items, rest);
    ReadCount(b, strict, s, l.count, NumsThen(l.items, rest));
    ReadNums(b, strict, Count(b, s), l.items, rest);
  }

  lemma FindList(b: seq<byte>, strict: bool, s: St, rest: Tokens) returns (l: List)
    requires !s.bad && !Counted(b, s).bad
    ensures ListOk(l) && Leads(b, strict, s, ListThen(l, rest), Counted(b, s), rest)
  {
    var items := FindNums(b, strict, Count(b, s), CountValue(b, s), rest);
    var n := FindCount(b, strict, s, NumsThen(items, rest));
    l := List(n, items);
  }

  // ---- sizes and first tokens ----

  lemma {:induction false} TypeOpens(t: Type, rest: Tokens)
    requires TypeOk(t)
    ensures NoMod(TypeThen(t, rest)) && TypeThen(t, rest).head.c !in {0x01, 0x41, 0x45}
    ensures TypeThen(t, rest).head.c == 0x10 <==> t.ByRef?
    ensures TypeThen(t, rest).head.c == 0x16 <==> t == Prim(0x16)
  {}

  lemma {:induction false} ModsSize(ms: seq<Mod>, rest: Tokens)
    ensures Size(ModsThen(ms, rest)) >= Size(rest)
  {
    if ms != [] { ModsSize(ms[1..], rest); }
  }

  lemma {:induction false} TypeSize(t: Type, rest: Tokens)
    ensures Size(TypeThen(t, rest)) > Size(rest)
    decreases t, 0
  {
    match t
    case Prim(_) =>
    case Ptr(ms, to) =>
      TypeSize(to, rest);
      ModsSize(ms, TypeThen(to, rest));
    case VoidPtr(ms) => ModsSize(ms, Then(Lit(0x01), rest));
    case ByRef(to) => TypeSize(to, rest);
    case Defined(_, _) =>
    case Var(_, _) =>
    case Array(e, rank, sizes, bounds) =>
      NumsSize(bounds.items, rest);
      NumsSize(sizes.items, ListThen(bounds, rest));
      TypeSize(e, Then(Int(rank), ListThen(sizes, ListThen(bounds, rest))));
    case Generic(_, ref, count, args) =>
      TypesSize(args, rest);
      assert Size(Then(Ref(ref), Then(Int(count), TypesThen(args, rest)))) > Size(rest);
    case FnPtr(m) => MethSize(m, rest);
    case Vector(ms, e) =>
      TypeSize(e, rest);
      ModsSize(ms, TypeThen(e, rest));
  }

  lemma {:induction false} TypesSize(ts: Types, rest: Tokens)
    ensures Size(TypesThen(ts, rest)) >= Length(ts) + Size(rest)
    decreases ts, 0
  {
    if ts.MoreTypes? {
      TypesSize(ts.tail, rest);
      TypeSize(ts.head, TypesThen(ts.tail, rest));
    }
  }

  lemma {:induction false} ParSize(p: Par, rest: Tokens)
    ensures Size(ParThen(p, rest)) > Size(rest)
    decreases p, 0
  {
    ModsSize(p.mods, BodyThen(p.body, rest));
    match p.body
    case RefTo(t) => TypeSize(t, rest);
    case TypedRef =>
    case Void =>
    case Plain(t) => TypeSize(t, rest);
  }

  lemma {:induction false} ParsSize(ps: Pars, rest: Tokens)
    ensures Size(ParsThen(ps, rest)) >= Arity(ps) + Size(rest)
    decreases ps, 0
  {
    if ps.MorePars? {
      ParsSize(ps.tail, rest);
      ParSize(ps.head, ParsThen(ps.tail, rest));
    }
  }

  lemma {:induction false} MethSize(m: Meth, rest: Tokens)
    ensures Size(MethThen(m, rest)) > Size(rest)
    decreases m, 0
  {
    ParsSize(m.pars, rest);
    ParSize(m.ret, ParsThen(m.pars, rest));
    assert Size(Then(Int(m.count), ParThen(m.ret, ParsThen(m.pars, rest)))) > Size(rest);
  }

  // ---- what is spelled is read ----

  /** A type that nests no deeper than there is room is read to its end. */
  lemma {:induction false} ReadType(b: seq<byte>, strict: bool, d: nat, s: St, t: Type, rest: Tokens)
    requires TypeOk(t) && d + Depth(t) <= MAX_DEPTH && Stands(b, strict, s, TypeThen(t, rest))
    ensures Passes(b, strict, s, TypeThen(t, rest), Typ(b, strict, d, s), rest)
    decreases t, 1
  {
    match t
    case Prim(c) =>
      var m := Advance(b, strict, s, Lit(c), rest);
    case Ptr(_, _) => ReadPtr(b, strict, d, s, t, rest);
    case VoidPtr(ms) => ReadVoidPtr(b, strict, d, s, ms, rest);
    case ByRef(to) =>
      var m := Advance(b, strict, s, Lit(0x10), TypeThen(to, rest));
      ReadType(b, strict, d + 1, m, to, rest);
    case Defined(value, ref) =>
      var m := Advance(b, strict, s, Lit(if value then 0x11 else 0x12), Then(Ref(ref), rest));
      m := Advance(b, strict, m, Ref(ref), rest);
    case Var(ofMethod, index) =>
      var m := Advance(b, strict, s, Lit(if ofMethod then 0x1e else 0x13), Then(Int(index), rest));
      m := Advance(b, strict, m, Int(index), rest);
    case Array(_, _, _, _) => ReadArray(b, strict, d, s, t, rest);
    case Generic(_, _, _, _) => ReadGeneric(b, strict, d, s, t, rest);
    case FnPtr(_) => ReadFnPtr(b, strict, d, s, t, rest);
    case Vector(_, _) => ReadVector(b, strict, d, s, t, rest);
  }

  lemma {:induction false} ReadFnPtr(b: seq<byte>, strict: bool, d: nat, s: St, t: Type, rest: Tokens)
    requires t.FnPtr? && TypeOk(t) && d + Depth(t) <= MAX_DEPTH && Stands(b, strict, s, TypeThen(t, rest))
    ensures Passes(b, strict, s, TypeThen(t, rest), Typ(b, strict, d, s), rest)
    decreases t, 0
  {
    var m := Advance(b, strict, s, Lit(0x1b), MethThen(t.callee, rest));
    ReadMeth(b, strict, d + 1, m, t.callee, rest);
  }

  lemma {:induction false} ReadVector(b: seq<byte>, strict: bool, d: nat, s: St, t: Type, rest: Tokens)
    requires t.Vector? && TypeOk(t) && d + Depth(t) <= MAX_DEPTH && Stands(b, strict, s, TypeThen(t, rest))
    ensures Passes(b, strict, s, TypeThen(t, rest), Typ(b, strict, d, s), rest)
    decreases t, 0
  {
    var m := Advance(b, strict, s, Lit(0x1d), ModsThen(t.mods, TypeThen(t.element, rest)));
    TypeOpens(t.element, rest);
    ReadMods(b, strict, m, t.mods, TypeThen(t.element, rest));
    ReadType(b, strict, d + 1, Mods(b, strict, m), t.element, rest);
  }

  lemma {:induction false} ReadPtr(b: seq<byte>, strict: bool, d: nat, s: St, t: Type, rest: Tokens)
    requires t.Ptr? && TypeOk(t) && d + Depth(t) <= MAX_DEPTH && Stands(b, strict, s, TypeThen(t, rest))
    ensures Passes(b, strict, s, TypeThen(t, rest), Typ(b, strict, d, s), rest)
    decreases t, 0
  {
    var after := TypeThen(t.target, rest);
    var m := Advance(b, strict, s, Lit(0x0f), ModsThen(t.mods, after));
    TypeOpens(t.target, rest);
    ReadMods(b, strict, m, t.mods, after);
    var n := Mods(b, strict, m);
    PeekFirst(b, strict, n, after);
    ReadType(b, strict, d + 1, n, t.target, rest);
    assert Pointer(b, strict, d + 1, n) == Typ(b, strict, d + 1, n);
  }

  lemma ReadVoidPtr(b: seq<byte>, strict: bool, d: nat, s: St, ms: seq<Mod>, rest: Tokens)
    requires d < MAX_DEPTH && Stands(b, strict, s, TypeThen(VoidPtr(ms), rest))
    ensures Passes(b, strict, s, TypeThen(VoidPtr(ms), rest), Typ(b, strict, d, s), rest)
  {
    var m := Advance(b, strict, s, Lit(0x0f), ModsThen(ms, Then(Lit(0x01), rest)));
    ReadMods(b, strict, m, ms, Then(Lit(0x01), rest));
    var n := Mods(b, strict, m);
    var q := Advance(b, strict, n, Lit(0x01), rest);
    assert Pointer(b, strict, d + 1, n) == q;
  }

  lemma {:induction false} ReadArray(b: seq<byte>, strict: bool, d: nat, s: St, t: Type, rest: Tokens)
    requires t.Array? && TypeOk(t) && d + Depth(t) <= MAX_DEPTH && Stands(b, strict, s, TypeThen(t, rest))
    ensures Passes(b, strict, s, TypeThen(t, rest), Typ(b, strict, d, s), rest)
    decreases t, 0
  {
    var after := ListThen(t.sizes, ListThen(t.bounds, rest));
    var m := Advance(b, strict, s, Lit(0x14), TypeThen(t.element, Then(Int(t.rank), after)));
    ReadType(b, strict, d + 1, m, t.element, Then(Int(t.rank), after));
    ReadShape(b, strict, Typ(b, strict, d + 1, m), t, rest);
  }

  lemma ReadShape(b: seq<byte>, strict: bool, s: St, t: Type, rest: Tokens)
    requires t.Array? && ListOk(t.sizes) && ListOk(t.bounds)
    requires Stands(b, strict, s, Then(Int(t.rank), ListThen(t.sizes, ListThen(t.bounds, rest))))
    ensures Passes(b, strict, s, Then(Int(t.rank), ListThen(t.sizes, ListThen(t.bounds, rest))), Shape(b, Cu(b, s)), rest)
  {
    var n := Advance(b, strict, s, Int(t.rank), ListThen(t.sizes, ListThen(t.bounds, rest)));
    ReadList(b, strict, n, t.sizes, ListThen(t.bounds, rest));
    ReadList(b, strict, Counted(b, n), t.bounds, rest);
    assert Shape(b, n) == Counted(b, Counted(b, n));
  }

  lemma {:induction false} ReadGeneric(b: seq<byte>, strict: bool, d: nat, s: St, t: Type, rest: Tokens)
    requires t.Generic? && TypeOk(t) && d + Depth(t) <= MAX_DEPTH && Stands(b, strict, s, TypeThen(t, rest))
    ensures Passes(b, strict, s, TypeThen(t, rest), Typ(b, strict, d, s), rest)
    decreases t, 0
  {
    var c: byte, args := if t.value then 0x11 else 0x12, TypesThen(t.args, rest);
    var m := Advance(b, strict, s, Lit(0x15), Then(Lit(c), Then(Ref(t.ref), Then(Int(t.count), args))));
    var n := Advance(b, strict, m, Lit(c), Then(Ref(t.ref), Then(Int(t.count), args)));
    var q := Advance(b, strict, n, Ref(t.ref), Then(Int(t.count), args));
    ReadArguments(b, strict, d + 1, q, t.count, t.args, rest);
  }

  lemma {:induction false} ReadArguments(b: seq<byte>, strict: bool, d: nat, s: St, count: Num, args: Types, rest: Tokens)
    requires TypesOk(args) && count.val == Length(args) > 0 && d + TypesDepth(args) <= MAX_DEPTH
    requires Stands(b, strict, s, Then(Int(count), TypesThen(args, rest)))
    ensures Passes(b, strict, s, Then(Int(count), TypesThen(args, rest)), Arguments(b, strict, d, s), rest)
    decreases args, 1
  {
    TypesSize(args, rest);
    ReadCount(b, strict, s, count, TypesThen(args, rest));
    ReadTypes(b, strict, d, Count(b, s), args, rest);
  }

  lemma {:induction false} ReadTypes(b: seq<byte>, strict: bool, d: nat, s: St, ts: Types, rest: Tokens)
    requires TypesOk(ts) && d + TypesDepth(ts) <= MAX_DEPTH && Stands(b, strict, s, TypesThen(ts, rest))
    ensures Passes(b, strict, s, TypesThen(ts, rest), SigModel.Types(b, strict, d, Length(ts), s), rest)
    decreases ts, 0
  {
    if ts.MoreTypes? {
      ReadType(b, strict, d, s, ts.head, TypesThen(ts.tail, rest));
      ReadTypes(b, strict, d, TypStep(b, strict, d)(s), ts.tail, rest);
    }
  }

  lemma {:induction false} ReadPar(b: seq<byte>, strict: bool, d: nat, ret: bool, s: St, p: Par, rest: Tokens)
    requires ParOk(p, ret) && d + ParDepth(p) <= MAX_DEPTH && Stands(b, strict, s, ParThen(p, rest))
    ensures Passes(b, strict, s, ParThen(p, rest), Param(b, strict, d, ret, s), rest)
    decreases p, 0
  {
    var m := Mods(b, strict, s);
    match p.body
    case RefTo(t) =>
      ReadMods(b, strict, s, p.mods, BodyThen(p.body, rest));
      var n := Advance(b, strict, m, Lit(0x10), TypeThen(t, rest));
      ReadType(b, strict, d, n, t, rest);
    case TypedRef =>
      ReadMods(b, strict, s, p.mods, BodyThen(p.body, rest));
      var n := Advance(b, strict, m, Lit(0x16), rest);
    case Void =>
      ReadMods(b, strict, s, p.mods, BodyThen(p.body, rest));
      var n := Advance(b, strict, m, Lit(0x01), rest);
    case Plain(t) =>
      TypeOpens(t, rest);
      assert BodyThen(p.body, rest) == TypeThen(t, rest);
      ReadMods(b, strict, s, p.mods, TypeThen(t, rest));
      PeekFirst(b, strict, m, TypeThen(t, rest));
      ReadType(b, strict, d, m, t, rest);
  }

  lemma {:induction false} ReadPars(b: seq<byte>, strict: bool, d: nat, s: St, ps: Pars, rest: Tokens)
    requires ParsOk(ps) && d + ParsDepth(ps) <= MAX_DEPTH && Stands(b, strict, s, ParsThen(ps, rest))
    ensures Passes(b, strict, s, ParsThen(ps, rest), Params(b, strict, d, Arity(ps), s), rest)
    decreases ps, 0
  {
    if ps.MorePars? {
      ReadNextPar(b, strict, d, s, ps.sentinel, ps.head, ParsThen(ps.tail, rest));
      ReadPars(b, strict, d, ParamStep(b, strict, d)(s), ps.tail, rest);
    }
  }

  function NextParThen(sentinel: bool, p: Par, rest: Tokens): Tokens {
    if sentinel then Then(Lit(0x41), ParThen(p, rest)) else ParThen(p, rest)
  }

  lemma {:induction false} ReadNextPar(b: seq<byte>, strict: bool, d: nat, s: St, sentinel: bool, p: Par, rest: Tokens)
    requires ParOk(p, false) && d + ParDepth(p) <= MAX_DEPTH && Stands(b, strict, s, NextParThen(sentinel, p, rest))
    ensures Passes(b, strict, s, NextParThen(sentinel, p, rest), NextParam(b, strict, d, s), rest)
    decreases p, 1
  {
    if sentinel {
      var m := Advance(b, strict, s, Lit(0x41), ParThen(p, rest));
      ReadPar(b, strict, d, false, m, p, rest);
    } else {
      ParOpens(p, rest);
      ReadPar(b, strict, d, false, s, p, rest);
    }
  }

  lemma ParOpens(p: Par, rest: Tokens)
    requires ParOk(p, false)
    ensures ParThen(p, rest).Then? && ParThen(p, rest).head.Lit? && ParThen(p, rest).head.c != 0x41
  {
    if p.body.Plain? { TypeOpens(p.body.bare, rest); }
  }

  lemma {:induction false} ReadMeth(b: seq<byte>, strict: bool, d: nat, s: St, f: Meth, rest: Tokens)
    requires MethOk(f) && d + MethDepth(f) <= MAX_DEPTH && Stands(b, strict, s, MethThen(f, rest))
    ensures Passes(b, strict, s, MethThen(f, rest), Method(b, strict, d, s), rest)
    decreases f, 1
  {
    var tail := Then(Int(f.count), ParThen(f.ret, ParsThen(f.pars, rest)));
    var m := Advance(b, strict, s, Lit(f.convention), if f.generics.Some? then Then(Int(f.generics.value), tail) else tail);
    if f.generics.Some? { m := Advance(b, strict, m, Int(f.generics.value), tail); }
    assert m == Convention(b, s);
    ReadSignature(b, strict, d + 1, m, f, rest);
  }

  lemma {:induction false} ReadSignature(b: seq<byte>, strict: bool, d: nat, s: St, f: Meth, rest: Tokens)
    requires MethOk(f) && d + ParDepth(f.ret) <= MAX_DEPTH && d + ParsDepth(f.pars) <= MAX_DEPTH
    requires Stands(b, strict, s, Then(Int(f.count), ParThen(f.ret, ParsThen(f.pars, rest))))
    ensures Passes(b, strict, s, Then(Int(f.count), ParThen(f.ret, ParsThen(f.pars, rest))), Signature(b, strict, d, s), rest)
    decreases f, 0
  {
    var after := ParsThen(f.pars, rest);
    ParsSize(f.pars, rest);
    ParSize(f.ret, after);
    ReadCount(b, strict, s, f.count, ParThen(f.ret, after));
    ReadPar(b, strict, d, true, Count(b, s), f.ret, after);
    ReadPars(b, strict, d, Param(b, strict, d, true, Count(b, s)), f.pars, rest);
  }

  // ---- what is read is spelled ----

  /** `t` spells what `Typ` read. */
  ghost predicate Found(b: seq<byte>, strict: bool, d: nat, s: St, t: Type, rest: Tokens) {
    && TypeOk(t) && d + Depth(t) <= MAX_DEPTH && Leads(b, strict, s, TypeThen(t, rest), Typ(b, strict, d, s), rest)
    && (t.ByRef? ==> ByteValue(b, s) == 0x10) && (t == Prim(0x16) ==> ByteValue(b, s) == 0x16)
  }

  lemma {:induction false} FindType(b: seq<byte>, strict: bool, d: nat, s: St, rest: Tokens) returns (t: Type)
    requires !s.bad && !Typ(b, strict, d, s).bad
    ensures Found(b, strict, d, s, t, rest)
    decreases MAX_DEPTH - d, 4, 0
  {
    var m, c := Byte(b, s), ByteValue(b, s);
    if c == 0x0f {
      t := FindPtr(b, strict, d, s, rest);
    } else if c == 0x10 {
      var to := FindType(b, strict, d + 1, m, rest);
      t := ByRef(to);
    } else if c == 0x14 {
      t := FindArray(b, strict, d, s, rest);
    } else if c == 0x15 {
      t := FindGeneric(b, strict, d, s, rest);
    } else if c == 0x1b {
      var f := FindMeth(b, strict, d + 1, m, rest);
      t := FnPtr(f);
    } else if c == 0x1d {
      t := FindVector(b, strict, d, s, rest);
    } else {
      t := FindLeaf(b, strict, d, s, rest);
    }
  }

  lemma FindLeaf(b: seq<byte>, strict: bool, d: nat, s: St, rest: Tokens) returns (t: Type)
    requires !s.bad && !Typ(b, strict, d, s).bad && ByteValue(b, s) !in {0x0f, 0x10, 0x14, 0x15, 0x1b, 0x1d}
    ensures Found(b, strict, d, s, t, rest)
  {
    var m, c := Byte(b, s), ByteValue(b, s);
    if BuiltIn(c) {
      t := Prim(c);
    } else {
      var n := NumOf(b, m.p);
      t := if c == 0x11 || c == 0x12 then Defined(c == 0x11, n) else Var(c == 0x1e, n);
    }
  }

  lemma {:induction false} FindVector(b: seq<byte>, strict: bool, d: nat, s: St, rest: Tokens) returns (t: Type)
    requires !s.bad && !Typ(b, strict, d, s).bad && ByteValue(b, s) == 0x1d
    ensures Found(b, strict, d, s, t, rest)
    decreases MAX_DEPTH - d, 3
  {
    var m := Byte(b, s);
    var e := FindType(b, strict, d + 1, Mods(b, strict, m), rest);
    var ms := FindMods(b, strict, m, TypeThen(e, rest));
    t := Vector(ms, e);
  }

  lemma {:induction false} FindPtr(b: seq<byte>, strict: bool, d: nat, s: St, rest: Tokens) returns (t: Type)
    requires !s.bad && !Typ(b, strict, d, s).bad && ByteValue(b, s) == 0x0f
    ensures Found(b, strict, d, s, t, rest)
    decreases MAX_DEPTH - d, 3
  {
    var m := Byte(b, s);
    var n := Mods(b, strict, m);
    assert Typ(b, strict, d, s) == Pointer(b, strict, d + 1, n);
    if Peek(b, n) == 0x01 {
      var ms := FindMods(b, strict, m, Then(Lit(0x01), rest));
      t := VoidPtr(ms);
    } else {
      var to := FindType(b, strict, d + 1, n, rest);
      var ms := FindMods(b, strict, m, TypeThen(to, rest));
      t := Ptr(ms, to);
    }
  }

  lemma {:induction false} FindArray(b: seq<byte>, strict: bool, d: nat, s: St, rest: Tokens) returns (t: Type)
    requires !s.bad && !Typ(b, strict, d, s).bad && ByteValue(b, s) == 0x14
    ensures Found(b, strict, d, s, t, rest)
    decreases MAX_DEPTH - d, 3
  {
    var m := Byte(b, s);
    var e := Typ(b, strict, d + 1, m);
    assert Typ(b, strict, d, s) == Shape(b, Cu(b, e));
    var rank, sizes, bounds := FindShape(b, strict, e, rest);
    var element := FindType(b, strict, d + 1, m, Then(Int(rank), ListThen(sizes, ListThen(bounds, rest))));
    t := Array(element, rank, sizes, bounds);
  }

  lemma FindShape(b: seq<byte>, strict: bool, s: St, rest: Tokens) returns (rank: Num, sizes: List, bounds: List)
    requires !Shape(b, Cu(b, s)).bad
    ensures ListOk(sizes) && ListOk(bounds)
    ensures Leads(b, strict, s, Then(Int(rank), ListThen(sizes, ListThen(bounds, rest))), Shape(b, Cu(b, s)), rest)
  {
    var m := Cu(b, s);
    assert Shape(b, m) == Counted(b, Counted(b, m));
    bounds := FindList(b, strict, Counted(b, m), rest);
    sizes := FindList(b, strict, m, ListThen(bounds, rest));
    rank := NumOf(b, s.p);
  }

  lemma {:induction false} FindGeneric(b: seq<byte>, strict: bool, d: nat, s: St, rest: Tokens) returns (t: Type)
    requires !s.bad && !Typ(b, strict, d, s).bad && ByteValue(b, s) == 0x15
    ensures Found(b, strict, d, s, t, rest)
    decreases MAX_DEPTH - d, 3
  {
    var m := Byte(b, s);
    var n := Byte(b, m);
    var q := TypeRef(b, strict, n);
    assert Typ(b, strict, d, s) == Arguments(b, strict, d + 1, q);
    var args := FindTypes(b, strict, d + 1, CountValue(b, q), Count(b, q), rest);
    var count := FindCount(b, strict, q, TypesThen(args, rest));
    var ref := NumOf(b, n.p);
    t := Generic(ByteValue(b, m) == 0x11, ref, count, args);
    var after := Then(Int(count), TypesThen(args, rest));
    var r := Typ(b, strict, d, s);
    Precede(b, strict, n, Ref(ref), q, after, r, rest);
    Precede(b, strict, m, Lit(ByteValue(b, m)), n, Then(Ref(ref), after), r, rest);
  }

  lemma {:induction false} FindTypes(b: seq<byte>, strict: bool, d: nat, n: nat, s: St, rest: Tokens) returns (ts: Types)
    requires d <= MAX_DEPTH && !s.bad && !SigModel.Types(b, strict, d, n, s).bad
    ensures TypesOk(ts) && Length(ts) == n && d + TypesDepth(ts) <= MAX_DEPTH
    ensures Leads(b, strict, s, TypesThen(ts, rest), SigModel.Types(b, strict, d, n, s), rest)
    decreases MAX_DEPTH - d, 5, n
  {
    ts := NoTypes;
    if n > 0 {
      var m := TypStep(b, strict, d)(s);
      assert m == Typ(b, strict, d, s) && !m.bad;
      var tail := FindTypes(b, strict, d, n - 1, m, rest);
      var head := FindType(b, strict, d, s, TypesThen(tail, rest));
      ts := MoreTypes(head, tail);
    }
  }

  lemma {:induction false} FindPar(b: seq<byte>, strict: bool, d: nat, ret: bool, s: St, rest: Tokens) returns (p: Par)
    requires d <= MAX_DEPTH && !s.bad && !Param(b, strict, d, ret, s).bad
    ensures ParOk(p, ret) && d + ParDepth(p) <= MAX_DEPTH
    ensures Leads(b, strict, s, ParThen(p, rest), Param(b, strict, d, ret, s), rest)
    decreases MAX_DEPTH - d, 5, 0
  {
    var m := Mods(b, strict, s);
    assert Param(b, strict, d, ret, s) == AfterMods(b, strict, d, ret, m);
    var body := FindBody(b, strict, d, ret, m, rest);
    var ms := FindMods(b, strict, s, BodyThen(body, rest));
    p := Par(ms, body);
  }

  lemma {:induction false} FindBody(b: seq<byte>, strict: bool, d: nat, ret: bool, s: St, rest: Tokens) returns (body: Body)
    requires d <= MAX_DEPTH && !s.bad && !AfterMods(b, strict, d, ret, s).bad
    ensures ParOk(Par([], body), ret) && d + ParDepth(Par([], body)) <= MAX_DEPTH
    ensures Leads(b, strict, s, BodyThen(body, rest), AfterMods(b, strict, d, ret, s), rest)
    decreases MAX_DEPTH - d, 4, 1
  {
    var c := Peek(b, s);
    if c == 0x10 {
      var t := FindType(b, strict, d, s.Skip(), rest);
      body := RefTo(t);
    } else if c == 0x16 {
      body := TypedRef;
    } else if c == 0x01 {
      body := Void;
    } else {
      var t := FindType(b, strict, d, s, rest);
      body := Plain(t);
    }
  }

  lemma {:induction false} FindPars(b: seq<byte>, strict: bool, d: nat, n: nat, s: St, rest: Tokens) returns (ps: Pars)
    requires d <= MAX_DEPTH && !s.bad && !Params(b, strict, d, n, s).bad
    ensures ParsOk(ps) && Arity(ps) == n && d + ParsDepth(ps) <= MAX_DEPTH
    ensures Leads(b, strict, s, ParsThen(ps, rest), Params(b, strict, d, n, s), rest)
    decreases MAX_DEPTH - d, 6, n
  {
    ps := NoPars;
    if n > 0 {
      var m := ParamStep(b, strict, d)(s);
      assert m == NextParam(b, strict, d, s) && !m.bad;
      var tail := FindPars(b, strict, d, n - 1, m, rest);
      var head := FindPar(b, strict, d, false, PastSentinel(b, s), ParsThen(tail, rest));
      ps := MorePars(Peek(b, s) == 0x41, head, tail);
    }
  }

  lemma {:induction false} FindMeth(b: seq<byte>, strict: bool, d: nat, s: St, rest: Tokens) returns (f: Meth)
    requires !s.bad && !Method(b, strict, d, s).bad
    ensures MethOk(f) && d + MethDepth(f) <= MAX_DEPTH
    ensures Leads(b, strict, s, MethThen(f, rest), Method(b, strict, d, s), rest)
    decreases MAX_DEPTH - d, 4, 0
  {
    var m := Convention(b, s);
    assert Method(b, strict, d, s) == Signature(b, strict, d + 1, m);
    var count, ret, pars := FindSignature(b, strict, d + 1, m, rest);
    var generics := FindConvention(b, strict, s, Then(Int(count), ParThen(ret, ParsThen(pars, rest))));
    f := Meth(ByteValue(b, s), generics, count, ret, pars);
  }

  function ConventionThen(c: byte, generics: Option<Num>, rest: Tokens): Tokens {
    Then(Lit(c), if generics.Some? then Then(Int(generics.value), rest) else rest)
  }

  lemma FindConvention(b: seq<byte>, strict: bool, s: St, rest: Tokens) returns (generics: Option<Num>)
    requires !s.bad && !Convention(b, s).bad
    ensures generics.Some? <==> (ByteValue(b, s) / 16) % 2 == 1
    ensures Leads(b, strict, s, ConventionThen(ByteValue(b, s), generics, rest), Convention(b, s), rest)
  {
    generics := None;
    if (ByteValue(b, s) / 16) % 2 == 1 {
      var n := NumOf(b, s.p + 1);
      generics := Some(n);
      assert Next(b, strict, s.Skip(), Int(n)) == Some(Convention(b, s));
    }
  }

  lemma {:induction false} FindSignature(b: seq<byte>, strict: bool, d: nat, s: St, rest: Tokens) returns (count: Num, ret: Par, pars: Pars)
    requires d <= MAX_DEPTH && !s.bad && !Signature(b, strict, d, s).bad
    ensures ParOk(ret, true) && ParsOk(pars) && count.val == Arity(pars) && d + ParDepth(ret) <= MAX_DEPTH && d + ParsDepth(pars) <= MAX_DEPTH
    ensures Leads(b, strict, s, Then(Int(count), ParThen(ret, ParsThen(pars, rest))), Signature(b, strict, d, s), rest)
    decreases MAX_DEPTH - d, 7, 0
  {
    var c := Count(b, s);
    pars := FindPars(b, strict, d, CountValue(b, s), Param(b, strict, d, true, c), rest);
    ret := FindPar(b, strict, d, true, c, ParsThen(pars, rest));
    count := FindCount(b, strict, s, ParThen(ret, ParsThen(pars, rest)));
  }

  // ---- locals and properties ----

  predicate NoLocalMod(ks: Tokens) { NoMod(ks) && ks.head.c != 0x45 }

  lemma {:induction false} ReadLocalMods(b: seq<byte>, strict: bool, s: St, ms: seq<LocalMod>, rest: Tokens)
    requires Stands(b, strict, s, LocalModsThen(ms, rest)) && NoLocalMod(rest)
    ensures Passes(b, strict, s, LocalModsThen(ms, rest), LocalMods(b, strict, s), rest)
    decreases |ms|
  {
    if ms != [] {
      var tail := LocalModsThen(ms[1..], rest);
      match ms[0] {
        case Modified(x) =>
          var m := Advance(b, strict, s, Lit(x.Code()), Then(Ref(x.ref), tail));
          var n := Advance(b, strict, m, Ref(x.ref), tail);
          ReadLocalMods(b, strict, n, ms[1..], rest);
        case Pinned =>
          var m := Advance(b, strict, s, Lit(0x45), tail);
          ReadLocalMods(b, strict, m, ms[1..], rest);
      }
    }
  }

  lemma {:induction false} FindLocalMods(b: seq<byte>, strict: bool, s: St, rest: Tokens) returns (ms: seq<LocalMod>)
    requires !s.bad && !LocalMods(b, strict, s).bad
    ensures Leads(b, strict, s, LocalModsThen(ms, rest), LocalMods(b, strict, s), rest)
    decreases |b| - s.p
  {
    ms := [];
    if IsMod(Peek(b, s)) {
      var n := NumOf(b, s.p + 1);
      var tail := FindLocalMods(b, strict, TypeRef(b, strict, s.Skip()), rest);
      ms := [Modified(Mod(b[s.p] == 0x1f, n))] + tail;
      assert ms[1..] == tail;
    } else if Peek(b, s) == 0x45 {
      var tail := FindLocalMods(b, strict, s.Skip(), rest);
      ms := [Pinned] + tail;
      assert ms[1..] == tail;
    }
  }

  function LocalTypeThen(byRef: bool, t: Type, rest: Tokens): Tokens {
    if byRef then Then(Lit(0x10), TypeThen(t, rest)) else TypeThen(t, rest)
  }

  lemma ReadLocalType(b: seq<byte>, strict: bool, d: nat, s: St, byRef: bool, t: Type, rest: Tokens)
    requires TypeOk(t) && (t.ByRef? ==> byRef) && d + Depth(t) <= MAX_DEPTH && Stands(b, strict, s, LocalTypeThen(byRef, t, rest))
    ensures Passes(b, strict, s, LocalTypeThen(byRef, t, rest), AfterLocalMods(b, strict, d, s), rest)
  {
    TypeOpens(t, rest);
    var q := s;
    if byRef { q := Advance(b, strict, s, Lit(0x10), TypeThen(t, rest)); }
    PeekFirst(b, strict, q, TypeThen(t, rest));
    ReadType(b, strict, d, q, t, rest);
  }

  lemma ReadLocal(b: seq<byte>, strict: bool, d: nat, s: St, l: Local, rest: Tokens)
    requires LocalOk(l) && d + Depth(l.kind) <= MAX_DEPTH && Stands(b, strict, s, LocalThen(l, rest))
    ensures Passes(b, strict, s, LocalThen(l, rest), SigModel.Local(b, strict, d, s), rest)
  {
    TypeOpens(l.kind, rest);
    ReadLocalMods(b, strict, s, l.mods, LocalTypeThen(l.byRef, l.kind, rest));
    ReadLocalType(b, strict, d, LocalMods(b, strict, s), l.byRef, l.kind, rest);
  }

  lemma FindLocal(b: seq<byte>, strict: bool, d: nat, s: St, rest: Tokens) returns (l: Local)
    requires d < MAX_DEPTH && !s.bad && !SigModel.Local(b, strict, d, s).bad
    ensures LocalOk(l) && d + Depth(l.kind) <= MAX_DEPTH && Leads(b, strict, s, LocalThen(l, rest), SigModel.Local(b, strict, d, s), rest)
  {
    var m := LocalMods(b, strict, s);
    assert SigModel.Local(b, strict, d, s) == AfterLocalMods(b, strict, d, m);
    assert !m.bad;
    var byRef := Peek(b, m) == 0x10;
    var q := if byRef then m.Skip() else m;
    var t := Prim(0x16);
    if Peek(b, q) != 0x16 { t := FindType(b, strict, d, q, rest); }
    assert Leads(b, strict, q, TypeThen(t, rest), AfterLocalMods(b, strict, d, m), rest);
    assert Leads(b, strict, m, LocalTypeThen(byRef, t, rest), AfterLocalMods(b, strict, d, m), rest);
    var ms := FindLocalMods(b, strict, s, LocalTypeThen(byRef, t, rest));
    l := Local(ms, byRef, t);
  }

  predicate LocalsFit(ls: seq<Local>, d: nat) { forall i :: 0 <= i < |ls| ==> LocalOk(ls[i]) && d + Depth(ls[i].kind) <= MAX_DEPTH }

  lemma {:induction false} ReadLocals(b: seq<byte>, strict: bool, d: nat, s: St, ls: seq<Local>, rest: Tokens)
    requires d <= MAX_DEPTH && LocalsFit(ls, d) && Stands(b, strict, s, LocalsThen(ls, rest))
    ensures Passes(b, strict, s, LocalsThen(ls, rest), Locals(b, strict, d, |ls|, s), rest)
    decreases |ls|
  {
    if ls != [] {
      ReadLocal(b, strict, d, s, ls[0], LocalsThen(ls[1..], rest));
      ReadLocals(b, strict, d, LocalStep(b, strict, d)(s), ls[1..], rest);
    }
  }

  lemma {:induction false} FindLocals(b: seq<byte>, strict: bool, d: nat, n: nat, s: St, rest: Tokens) returns (ls: seq<Local>)
    requires d < MAX_DEPTH && !s.bad && !Locals(b, strict, d, n, s).bad
    ensures |ls| == n && LocalsFit(ls, d) && Leads(b, strict, s, LocalsThen(ls, rest), Locals(b, strict, d, n, s), rest)
    decreases n
  {
    ls := [];
    if n > 0 {
      var m := LocalStep(b, strict, d)(s);
      assert m == SigModel.Local(b, strict, d, s) && !m.bad;
      var tail := FindLocals(b, strict, d, n - 1, m, rest);
      var l := FindLocal(b, strict, d, s, LocalsThen(tail, rest));
      ls := [l] + tail;
      assert ls[1..] == tail;
    }
  }

  lemma {:induction false} LocalModsSize(ms: seq<LocalMod>, rest: Tokens)
    ensures Size(LocalModsThen(ms, rest)) >= Size(rest)
  {
    if ms != [] { LocalModsSize(ms[1..], rest); }
  }

  lemma {:induction false} LocalsSize(ls: seq<Local>, rest: Tokens)
    ensures Size(LocalsThen(ls, rest)) >= |ls| + Size(rest)
  {
    if ls != [] {
      var tail := LocalsThen(ls[1..], rest);
      LocalsSize(ls[1..], rest);
      TypeSize(ls[0].kind, tail);
      LocalModsSize(ls[0].mods, LocalTypeThen(ls[0].byRef, ls[0].kind, tail));
    }
  }

  predicate ParsFit(ps: seq<Par>, d: nat) { forall i :: 0 <= i < |ps| ==> ParOk(ps[i], false) && d + ParDepth(ps[i]) <= MAX_DEPTH }

  lemma {:induction false} ReadParList(b: seq<byte>, strict: bool, d: nat, s: St, ps: seq<Par>, rest: Tokens)
    requires d <= MAX_DEPTH && ParsFit(ps, d) && Stands(b, strict, s, ParListThen(ps, rest))
    ensures Passes(b, strict, s, ParListThen(ps, rest), PropParams(b, strict, d, |ps|, s), rest)
    decreases |ps|
  {
    if ps != [] {
      ReadPar(b, strict, d, false, s, ps[0], ParListThen(ps[1..], rest));
      ReadParList(b, strict, d, PropParamStep(b, strict, d)(s), ps[1..], rest);
    }
  }

  lemma {:induction false} FindParList(b: seq<byte>, strict: bool, d: nat, n: nat, s: St, rest: Tokens) returns (ps: seq<Par>)
    requires d <= MAX_DEPTH && !s.bad && !PropParams(b, strict, d, n, s).bad
    ensures |ps| == n && ParsFit(ps, d) && Leads(b, strict, s, ParListThen(ps, rest), PropParams(b, strict, d, n, s), rest)
    decreases n
  {
    ps := [];
    if n > 0 {
      var m := PropParamStep(b, strict, d)(s);
      assert m == Param(b, strict, d, false, s) && !m.bad;
      var tail := FindParList(b, strict, d, n - 1, m, rest);
      var p := FindPar(b, strict, d, false, s, ParListThen(tail, rest));
      ps := [p] + tail;
      assert ps[1..] == tail;
    }
  }

  lemma {:induction false} ParListSize(ps: seq<Par>, rest: Tokens)
    ensures Size(ParListThen(ps, rest)) >= |ps| + Size(rest)
  {
    if ps != [] {
      ParListSize(ps[1..], rest);
      ParSize(ps[0], ParListThen(ps[1..], rest));
    }
  }

  // ---- blobs ----

  const START := St(0, [], false)

  /** A signature that stands in a blob of its kind is walked to its end. */
  lemma ReadSig(b: seq<byte>, strict: bool, g: Sig)
    requires SigOk(g) && SigWithin(g, MAX_DEPTH) && Stands(b, strict, START, SigTokens(g))
    ensures Passes(b, strict, START, SigTokens(g), Walk(g.Kind(), b, strict), End)
  {
    match g
    case MethodSig(f) => ReadMeth(b, strict, 0, START, f, End);
    case FieldSig(ms, t) =>
      var m := Advance(b, strict, START, Lit(0x06), ModsThen(ms, TypeThen(t, End)));
      TypeOpens(t, End);
      ReadMods(b, strict, m, ms, TypeThen(t, End));
      ReadType(b, strict, 0, Mods(b, strict, m), t, End);
    case LocalsSig(_, _) => ReadLocalsSig(b, strict, g);
    case PropertySig(_, _, _, _) => ReadProperty(b, strict, g);
    case TypeSpec(t) => ReadType(b, strict, 0, START, t, End);
    case MethodSpec(count, args) =>
      var m := Advance(b, strict, START, Lit(0x0a), Then(Int(count), TypesThen(args, End)));
      ReadArguments(b, strict, 0, m, count, args, End);
  }

  lemma ReadLocalsSig(b: seq<byte>, strict: bool, g: Sig)
    requires g.LocalsSig? && SigOk(g) && SigWithin(g, MAX_DEPTH) && Stands(b, strict, START, SigTokens(g))
    ensures Passes(b, strict, START, SigTokens(g), Walk(LocalBlob, b, strict), End)
  {
    var m := Advance(b, strict, START, Lit(0x07), Then(Int(g.count), LocalsThen(g.locals, End)));
    LocalsSize(g.locals, End);
    ReadCount(b, strict, m, g.count, LocalsThen(g.locals, End));
    ReadLocals(b, strict, 0, Count(b, m), g.locals, End);
  }

  lemma ReadProperty(b: seq<byte>, strict: bool, g: Sig)
    requires g.PropertySig? && SigOk(g) && SigWithin(g, MAX_DEPTH) && Stands(b, strict, START, SigTokens(g))
    ensures Passes(b, strict, START, SigTokens(g), Walk(PropBlob, b, strict), End)
  {
    var after := ParListThen(g.pars, End);
    var m := Advance(b, strict, START, Lit(g.flags), Then(Int(g.count), ParThen(g.value, after)));
    ParListSize(g.pars, End);
    ParSize(g.value, after);
    ReadCount(b, strict, m, g.count, ParThen(g.value, after));
    ReadPar(b, strict, 0, false, Count(b, m), g.value, after);
    ReadParList(b, strict, 0, Param(b, strict, 0, false, Count(b, m)), g.pars, End);
  }

  /** A blob that is walked without failing begins with a signature of its kind. */
  lemma FindSig(kind: Kind, b: seq<byte>, strict: bool) returns (g: Sig)
    requires !Walk(kind, b, strict).bad
    ensures g.Kind() == kind && SigOk(g) && SigWithin(g, MAX_DEPTH) && Leads(b, strict, START, SigTokens(g), Walk(kind, b, strict), End)
  {
    var m := Byte(b, START);
    match kind
    case MethodBlob =>
      var f := FindMeth(b, strict, 0, START, End);
      g := MethodSig(f);
    case FieldBlob =>
      var t := FindType(b, strict, 0, Mods(b, strict, m), End);
      var ms := FindMods(b, strict, m, TypeThen(t, End));
      g := FieldSig(ms, t);
    case LocalBlob =>
      var ls := FindLocals(b, strict, 0, CountValue(b, m), Count(b, m), End);
      var count := FindCount(b, strict, m, LocalsThen(ls, End));
      g := LocalsSig(count, ls);
    case PropBlob => g := FindProperty(b, strict);
    case TypeBlob =>
      var t := FindType(b, strict, 0, START, End);
      g := TypeSpec(t);
    case InstBlob =>
      var args := FindTypes(b, strict, 0, CountValue(b, m), Count(b, m), End);
      var count := FindCount(b, strict, m, TypesThen(args, End));
      g := MethodSpec(count, args);
  }

  lemma FindProperty(b: seq<byte>, strict: bool) returns (g: Sig)
    requires !Walk(PropBlob, b, strict).bad
    ensures g.PropertySig? && SigOk(g) && SigWithin(g, MAX_DEPTH) && Leads(b, strict, START, SigTokens(g), Walk(PropBlob, b, strict), End)
  {
    var m := Byte(b, START);
    var c := Count(b, m);
    var ps := FindParList(b, strict, 0, CountValue(b, m), Param(b, strict, 0, false, c), End);
    var value := FindPar(b, strict, 0, false, c, ParListThen(ps, End));
    var count := FindCount(b, strict, m, ParThen(value, ParListThen(ps, End)));
    g := PropertySig(ByteValue(b, START), count, value, ps);
  }

  // ---- bytes ----

  lemma HasOne(b: seq<byte>, p: nat, x: byte)
    ensures Has(b, p, [x]) <==> p < |b| && b[p] == x
  {}

  lemma HasMore(b: seq<byte>, p: nat, x: byte, y: seq<byte>)
    ensures Has(b, p, [x] + y) <==> p < |b| && b[p] == x && Has(b, p + 1, y)
  {
    assert ([x] + y)[1..] == y;
  }

  lemma HasFour(b: seq<byte>, p: nat, w: byte, x: byte, y: byte, z: byte)
    ensures Has(b, p, [w, x, y, z]) <==> p + 4 <= |b| && b[p] == w && b[p + 1] == x && b[p + 2] == y && b[p + 3] == z
  {
    HasSlice(b, p, [w, x, y, z]);
  }

  lemma Wide(v: nat, w: byte, x: byte, y: byte, z: byte)
    requires v < 0x2000_0000 && 0xC0 <= w < 0xE0
    ensures Value4(w, x, y, z) == v <==>
      (w == 0xC0 + v / 0x100_0000 && x == v / 0x1_0000 % 0x100 && y == v / 0x100 % 0x100 && z == v % 0x100)
  {
    var v1 := v / 0x100;
    var v2 := v1 / 0x100;
    var v3 := v2 / 0x100;
    Quotients(v, v1, v2, v3);
    Digits4(v, v1, v2, v3);
    if Value4(w, x, y, z) == v { Unique4(w, x, y, z, 0xC0 + v3, v2 % 0x100, v1 % 0x100, v % 0x100); }
  }

  lemma Quotients(v: nat, v1: nat, v2: nat, v3: nat)
    requires v1 == v / 0x100 && v2 == v1 / 0x100 && v3 == v2 / 0x100
    ensures v2 == v / 0x1_0000 && v3 == v / 0x100_0000
  {}

  /** The compressed integer at `p` is `n` exactly when its bytes stand there. */
  lemma NumSpelled(b: seq<byte>, p: nat, n: Num)
    ensures NumAt(b, p, n) <==> n.Ok() && Has(b, p, n.Spelled())
  {
    var v := n.val;
    if n.width == 1 && v < 0x80 {
      HasOne(b, p, v);
    } else if n.width == 2 && v < 0x4000 {
      HasMore(b, p, 0x80 + v / 0x100, [v % 0x100]);
    } else if n.width == 4 && v < 0x2000_0000 {
      HasFour(b, p, 0xC0 + v / 0x100_0000, v / 0x1_0000 % 0x100, v / 0x100 % 0x100, v % 0x100);
      if p + 4 <= |b| && 0xC0 <= b[p] < 0xE0 { Wide(v, b[p], b[p + 1], b[p + 2], b[p + 3]); }
    }
  }

  predicate SlotsPlausible(f: seq<Slot>) { forall k :: 0 <= k < |f| ==> Plausible(f[k].val) }

  /** The new slots are within the limit, and plausible when that is asked. */
  predicate Allowed(strict: bool, s: St, f: seq<Slot>) { |s.slots| + |f| <= MAX_SLOTS && (strict ==> SlotsPlausible(f)) }

  /** Tokens that are read to the end of the blob spell the rest of it. */
  lemma {:induction false} RunSpells(b: seq<byte>, strict: bool, s: St, ks: Tokens, r: St)
    requires !s.bad && Run(b, strict, s, ks) == Some(r) && r.p == |b| && |s.slots| <= MAX_SLOTS
    ensures NumsOk(ks) && Ends(b, s.p, Spelled(ks)) && r.slots == s.slots + Refs(ks, s.p) && Allowed(strict, s, Refs(ks, s.p))
    decreases ks
  {
    if ks.Then? {
      var m := Next(b, strict, s, ks.head).value;
      RunSpells(b, strict, m, ks.tail, r);
      if ks.head.Lit? {
        HasAppend(b, s.p, [ks.head.c], Spelled(ks.tail));
      } else {
        NumSpelled(b, s.p, ks.head.n);
        HasAppend(b, s.p, ks.head.n.Spelled(), Spelled(ks.tail));
      }
      SlotsStep(strict, s, ks, m);
    }
  }

  lemma SlotsStep(strict: bool, s: St, ks: Tokens, m: St)
    requires ks.Then? && |s.slots| <= MAX_SLOTS
    requires m.p == s.p + (if ks.head.Lit? then 1 else ks.head.n.width)
    requires m.slots == if ks.head.Ref? then s.slots + [Slot(s.p, ks.head.n.width, ks.head.n.val)] else s.slots
    ensures m.slots + Refs(ks.tail, m.p) == s.slots + Refs(ks, s.p)
    ensures Allowed(strict, s, Refs(ks, s.p)) <==>
      Allowed(strict, m, Refs(ks.tail, m.p)) && (ks.head.Ref? ==> |s.slots| < MAX_SLOTS && (strict ==> Plausible(ks.head.n.val)))
  {
    if ks.head.Ref? {
      var x := Slot(s.p, ks.head.n.width, ks.head.n.val);
      assert Refs(ks, s.p) == [x] + Refs(ks.tail, m.p);
      if SlotsPlausible(Refs(ks, s.p)) {
        forall k | 0 <= k < |Refs(ks.tail, m.p)| ensures Plausible(Refs(ks.tail, m.p)[k].val) {
          assert Refs(ks, s.p)[k + 1] == Refs(ks.tail, m.p)[k];
        }
        assert Refs(ks, s.p)[0] == x;
      }
    }
  }

  /** And tokens that spell the rest of the blob are read to its end. */
  lemma {:induction false} SpelledRuns(b: seq<byte>, strict: bool, s: St, ks: Tokens) returns (r: St)
    requires !s.bad && NumsOk(ks) && Ends(b, s.p, Spelled(ks)) && Allowed(strict, s, Refs(ks, s.p))
    ensures Run(b, strict, s, ks) == Some(r) && r.p == |b| && r.slots == s.slots + Refs(ks, s.p)
    decreases ks
  {
    r := s;
    if ks.Then? {
      if ks.head.Lit? {
        EndsSplit(b, s.p, [ks.head.c], Spelled(ks.tail));
      } else {
        EndsSplit(b, s.p, ks.head.n.Spelled(), Spelled(ks.tail));
        NumSpelled(b, s.p, ks.head.n);
      }
      var p := s.p + if ks.head.Lit? then 1 else ks.head.n.width;
      var m := s.(p := p, slots := if ks.head.Ref? then s.slots + [Slot(s.p, ks.head.n.width, ks.head.n.val)] else s.slots);
      SlotsStep(strict, s, ks, m);
      assert Next(b, strict, s, ks.head) == Some(m);
      r := SpelledRuns(b, strict, m, ks.tail);
    }
  }

  /** The blob is some signature of this kind, and `slots` are its type references. */
  ghost predicate Spelt(kind: Kind, b: seq<byte>, strict: bool, slots: seq<Slot>) {
    exists g: Sig :: g.Kind() == kind && Spells(g, b, strict, slots)
  }

  /** A blob is accepted, with these references, exactly when some signature of its kind spells it. */
  lemma SignaturesOnly(kind: Kind, b: seq<byte>, strict: bool, slots: seq<Slot>)
    ensures ParseSig(kind, b, strict) == Some(slots) <==> Spelt(kind, b, strict, slots)
  {
    if ParseSig(kind, b, strict) == Some(slots) {
      var g := FindSig(kind, b, strict);
      RunSpells(b, strict, START, SigTokens(g), Walk(kind, b, strict));
      HasSlice(b, 0, Spelled(SigTokens(g)));
      assert Spells(g, b, strict, slots);
    }
    if g: Sig :| g.Kind() == kind && Spells(g, b, strict, slots) { SpelledParses(b, strict, g, slots); }
  }

  /** A signature within the limits is read back with exactly its type references. */
  lemma SpelledParses(b: seq<byte>, strict: bool, g: Sig, slots: seq<Slot>)
    requires Spells(g, b, strict, slots)
    ensures ParseSig(g.Kind(), b, strict) == Some(slots)
  {
    EndsAll(b);
    var r := SpelledRuns(b, strict, START, SigTokens(g));
    ReadSig(b, strict, g);
    var w := Walk(g.Kind(), b, strict);
    assert Run(b, strict, w, End) == Some(w);
    assert r.slots == slots;
  }
}
