/**
 Masking a signature keeps its shape: the walk over the masked blob, with reference values
 unchecked, takes the same path as the strict walk over the original.
 */
module SigMask {
  import opened Bytes
  import opened SigModel
  import opened SigSteps

  predicate Covered(f: seq<Slot>, i: int) { exists k :: 0 <= k < |f| && f[k].off <= i < f[k].End() }

  /** `c` is `b` with the values of the slots `f` cleared: other bytes are kept, and so are the widths. */
  ghost predicate Masked(b: seq<byte>, c: seq<byte>, f: seq<Slot>) {
    && |c| == |b|
    && (forall i :: 0 <= i < |b| && !Covered(f, i) ==> c[i] == b[i])
    && (forall k :: 0 <= k < |f| ==> CuAt(c, f[k].off) == Some((0, f[k].width)))
  }

  /** The slots found by `r` begin `f`; the others lie at or after the cursor. */
  ghost predicate Rest(f: seq<Slot>, r: St) {
    Prefix(r.slots, f) && forall k :: |r.slots| <= k < |f| ==> f[k].off >= r.p
  }

  /** The same place with slots of the same offsets and widths. */
  ghost predicate Same(s: St, t: St) {
    && !s.bad && !t.bad && t.p == s.p && |t.slots| == |s.slots|
    && forall k :: 0 <= k < |s.slots| ==> t.slots[k].off == s.slots[k].off && t.slots[k].width == s.slots[k].width
  }

  lemma RestBefore(b: seq<byte>, f: seq<Slot>, s: St, r: St)
    requires Good(b, s) && Step(b, s, r) && !r.bad && Rest(f, r)
    ensures Rest(f, s)
  {}

  lemma ByteSame(b: seq<byte>, c: seq<byte>, f: seq<Slot>, s: St, r: St)
    requires Masked(b, c, f) && Good(b, s) && Eats(b, s, r) && !r.bad && Rest(f, r)
    ensures s.p < |b| && c[s.p] == b[s.p] && Rest(f, s.Skip()) && Good(b, s.Skip())
  {
    SkipGood(b, s);
    RestBefore(b, f, s.Skip(), r);
    assert !Covered(f, s.p);
  }

  lemma CuSame(b: seq<byte>, c: seq<byte>, f: seq<Slot>, s: St)
    requires Masked(b, c, f) && Good(b, s) && !Cu(b, s).bad && Rest(f, Cu(b, s))
    ensures CuAt(c, s.p) == CuAt(b, s.p)
  {
    var r := Cu(b, s);
    forall i | s.p <= i < r.p ensures c[i] == b[i] {
      assert !Covered(f, i);
    }
  }

  lemma SimCu(b: seq<byte>, c: seq<byte>, f: seq<Slot>, s: St, t: St)
    requires Masked(b, c, f) && Good(b, s) && Same(s, t) && !Cu(b, s).bad && Rest(f, Cu(b, s))
    ensures Same(Cu(b, s), Cu(c, t))
  {
    CuSame(b, c, f, s);
  }

  lemma SimCount(b: seq<byte>, c: seq<byte>, f: seq<Slot>, s: St, t: St)
    requires Masked(b, c, f) && Good(b, s) && Same(s, t) && !Count(b, s).bad && Rest(f, Count(b, s))
    ensures Same(Count(b, s), Count(c, t)) && CountValue(c, t) == CountValue(b, s)
  {
    CuSame(b, c, f, s);
  }

  lemma SimTypeRef(b: seq<byte>, c: seq<byte>, f: seq<Slot>, s: St, t: St)
    requires Masked(b, c, f) && Good(b, s) && Same(s, t) && !TypeRef(b, true, s).bad && Rest(f, TypeRef(b, true, s))
    ensures Same(TypeRef(b, true, s), TypeRef(c, false, t))
  {
    var r := TypeRef(b, true, s);
    assert r.slots[|s.slots|] == f[|s.slots|];
  }

  /** Modifiers; the byte after them, if any, is no part of a slot. */
  lemma {:induction false} SimMods(b: seq<byte>, c: seq<byte>, f: seq<Slot>, s: St, t: St)
    requires Masked(b, c, f) && Good(b, s) && Same(s, t) && !Mods(b, true, s).bad && Rest(f, Mods(b, true, s))
    requires var r := Mods(b, true, s); r.p < |b| ==> c[r.p] == b[r.p]
    ensures Same(Mods(b, true, s), Mods(c, false, t))
    decreases |b| - s.p
  {
    var r := Mods(b, true, s);
    StepMods(b, true, s);
    if IsMod(Peek(b, s)) {
      ByteSame(b, c, f, s, r);
      var m := TypeRef(b, true, s.Skip());
      StepTypeRef(b, true, s.Skip());
      StepModsToo(b, true, m);
      RestBefore(b, f, m, r);
      SimTypeRef(b, c, f, s.Skip(), t.Skip());
      SimMods(b, c, f, m, TypeRef(c, false, t.Skip()));
    }
  }

  /** The two steps take matching states to matching states. */
  ghost predicate Matched(b: seq<byte>, f: seq<Slot>, step: St -> St, other: St -> St) {
    forall x, y {:trigger step(x), other(y)} ::
      Good(b, x) && Same(x, y) && !step(x).bad && Rest(f, step(x)) ==> Same(step(x), other(y))
  }

  lemma {:induction false} SimIterate(b: seq<byte>, f: seq<Slot>, step: St -> St, other: St -> St, n: nat, s: St, t: St)
    requires Steps(b, step) && Matched(b, f, step, other)
    requires Good(b, s) && Same(s, t) && !Iterate(step, n, s).bad && Rest(f, Iterate(step, n, s))
    ensures Same(Iterate(step, n, s), Iterate(other, n, t))
  {
    if n > 0 {
      var m := step(s);
      StepIterate(b, step, n - 1, m);
      RestBefore(b, f, m, Iterate(step, n - 1, m));
      assert Same(m, other(t));
      SimIterate(b, f, step, other, n - 1, m, other(t));
    }
  }

  lemma SimCus(b: seq<byte>, c: seq<byte>, f: seq<Slot>, n: nat, s: St, t: St)
    requires Masked(b, c, f) && Good(b, s) && Same(s, t) && !Cus(b, n, s).bad && Rest(f, Cus(b, n, s))
    ensures Same(Cus(b, n, s), Cus(c, n, t))
  {
    StepCus(b, n, s);
    forall x, y | Good(b, x) && Same(x, y) && !CuStep(b)(x).bad && Rest(f, CuStep(b)(x)) ensures Same(CuStep(b)(x), CuStep(c)(y)) {
      SimCu(b, c, f, x, y);
    }
    SimIterate(b, f, CuStep(b), CuStep(c), n, s, t);
  }

  lemma SimCounted(b: seq<byte>, c: seq<byte>, f: seq<Slot>, s: St, t: St)
    requires Masked(b, c, f) && Good(b, s) && Same(s, t)
    requires var r := Cus(b, CountValue(b, s), Count(b, s)); !r.bad && Rest(f, r)
    ensures Same(Cus(b, CountValue(b, s), Count(b, s)), Cus(c, CountValue(c, t), Count(c, t)))
  {
    var n, m := CountValue(b, s), Count(b, s);
    StepCount(b, s);
    StepCus(b, n, m);
    RestBefore(b, f, m, Cus(b, n, m));
    SimCount(b, c, f, s, t);
    SimCus(b, c, f, n, m, Count(c, t));
  }

  lemma SimShape(b: seq<byte>, c: seq<byte>, f: seq<Slot>, s: St, t: St)
    requires Masked(b, c, f) && Good(b, s) && Same(s, t) && !Shape(b, s).bad && Rest(f, Shape(b, s))
    ensures Same(Shape(b, s), Shape(c, t))
  {
    var m := Cus(b, CountValue(b, s), Count(b, s));
    StepCounted(b, s);
    StepCounted(b, m);
    RestBefore(b, f, m, Shape(b, s));
    SimCounted(b, c, f, s, t);
    SimCounted(b, c, f, m, Cus(c, CountValue(c, t), Count(c, t)));
  }

  lemma {:induction false} SimTyp(b: seq<byte>, c: seq<byte>, f: seq<Slot>, d: nat, s: St, t: St)
    requires Masked(b, c, f) && Good(b, s) && Same(s, t) && !Typ(b, true, d, s).bad && Rest(f, Typ(b, true, d, s))
    ensures Same(Typ(b, true, d, s), Typ(c, false, d, t))
    decreases MAX_DEPTH - d, 4, 0
  {
    StepTyp(b, true, d, s);
    ByteSame(b, c, f, s, Typ(b, true, d, s));
    SimElem(b, c, f, d + 1, b[s.p], s.Skip(), t.Skip());
  }

  lemma {:induction false} SimElem(b: seq<byte>, c: seq<byte>, f: seq<Slot>, d: nat, e: byte, s: St, t: St)
    requires 0 < d <= MAX_DEPTH && Masked(b, c, f) && Good(b, s) && Same(s, t) && !Elem(b, true, d, e, s).bad && Rest(f, Elem(b, true, d, e, s))
    ensures Same(Elem(b, true, d, e, s), Elem(c, false, d, e, t))
    decreases MAX_DEPTH - d, 5, 0
  {
    if Simple(e) {
    } else if e == 0x0f {
      SimPointer(b, c, f, d, s, t);
    } else if e == 0x10 {
      SimTyp(b, c, f, d, s, t);
    } else if e == 0x11 || e == 0x12 {
      SimTypeRef(b, c, f, s, t);
    } else if e == 0x13 || e == 0x1e {
      SimCu(b, c, f, s, t);
    } else if e == 0x14 {
      SimArray(b, c, f, d, s, t);
    } else if e == 0x15 {
      SimGeneric(b, c, f, d, s, t);
    } else if e == 0x1b {
      SimMethod(b, c, f, d, s, t);
    } else if e == 0x1d {
      SimModTyp(b, c, f, d, s, t);
    }
  }

  lemma {:induction false} SimPointer(b: seq<byte>, c: seq<byte>, f: seq<Slot>, d: nat, s: St, t: St)
    requires d <= MAX_DEPTH && Masked(b, c, f) && Good(b, s) && Same(s, t)
    requires var r := Pointer(b, true, d, Mods(b, true, s)); !r.bad && Rest(f, r)
    ensures Same(Pointer(b, true, d, Mods(b, true, s)), Pointer(c, false, d, Mods(c, false, t)))
    decreases MAX_DEPTH - d, 4, 1
  {
    var m := Mods(b, true, s);
    StepModsToo(b, true, s);
    StepPointer(b, true, d, m);
    ByteSame(b, c, f, m, Pointer(b, true, d, m));
    EatsSteps(b, m, Pointer(b, true, d, m));
    RestBefore(b, f, m, Pointer(b, true, d, m));
    SimMods(b, c, f, s, t);
    if Peek(b, m) != 0x01 { SimTyp(b, c, f, d, m, Mods(c, false, t)); }
  }

  /** A type after modifiers (SZARRAY, fields). */
  lemma {:induction false} SimModTyp(b: seq<byte>, c: seq<byte>, f: seq<Slot>, d: nat, s: St, t: St)
    requires d <= MAX_DEPTH && Masked(b, c, f) && Good(b, s) && Same(s, t)
    requires var r := Typ(b, true, d, Mods(b, true, s)); !r.bad && Rest(f, r)
    ensures Same(Typ(b, true, d, Mods(b, true, s)), Typ(c, false, d, Mods(c, false, t)))
    decreases MAX_DEPTH - d, 4, 1
  {
    var m := Mods(b, true, s);
    StepModsToo(b, true, s);
    StepTyp(b, true, d, m);
    ByteSame(b, c, f, m, Typ(b, true, d, m));
    EatsSteps(b, m, Typ(b, true, d, m));
    RestBefore(b, f, m, Typ(b, true, d, m));
    SimMods(b, c, f, s, t);
    SimTyp(b, c, f, d, m, Mods(c, false, t));
  }

  lemma {:induction false} SimArray(b: seq<byte>, c: seq<byte>, f: seq<Slot>, d: nat, s: St, t: St)
    requires 0 < d <= MAX_DEPTH && Masked(b, c, f) && Good(b, s) && Same(s, t)
    requires var r := Shape(b, Cu(b, Typ(b, true, d, s))); !r.bad && Rest(f, r)
    ensures Same(Shape(b, Cu(b, Typ(b, true, d, s))), Shape(c, Cu(c, Typ(c, false, d, t))))
    decreases MAX_DEPTH - d, 4, 1
  {
    var m := Typ(b, true, d, s);
    var q := Cu(b, m);
    StepTyp(b, true, d, s);
    EatsSteps(b, s, m);
    StepCu(b, m);
    StepShape(b, q);
    RestBefore(b, f, q, Shape(b, q));
    RestBefore(b, f, m, q);
    SimTyp(b, c, f, d, s, t);
    SimCu(b, c, f, m, Typ(c, false, d, t));
    SimShape(b, c, f, q, Cu(c, Typ(c, false, d, t)));
  }

  lemma {:induction false} SimGeneric(b: seq<byte>, c: seq<byte>, f: seq<Slot>, d: nat, s: St, t: St)
    requires 0 < d <= MAX_DEPTH && Masked(b, c, f) && Good(b, s) && Same(s, t)
    requires var r := Arguments(b, true, d, TypeRef(b, true, Byte(b, s))); !r.bad && Rest(f, r)
    ensures ByteValue(c, t) == ByteValue(b, s)
    ensures Same(Arguments(b, true, d, TypeRef(b, true, Byte(b, s))), Arguments(c, false, d, TypeRef(c, false, Byte(c, t))))
    decreases MAX_DEPTH - d, 4, 3
  {
    var r := Arguments(b, true, d, TypeRef(b, true, Byte(b, s)));
    StepGeneric(b, true, d, s);
    ByteSame(b, c, f, s, r);
    var m := TypeRef(b, true, s.Skip());
    StepTypeRef(b, true, s.Skip());
    StepArguments(b, true, d, m);
    RestBefore(b, f, m, r);
    SimTypeRef(b, c, f, s.Skip(), t.Skip());
    SimArguments(b, c, f, d, m, TypeRef(c, false, t.Skip()));
  }

  lemma {:induction false} SimArguments(b: seq<byte>, c: seq<byte>, f: seq<Slot>, d: nat, s: St, t: St)
    requires d <= MAX_DEPTH && Masked(b, c, f) && Good(b, s) && Same(s, t) && !Arguments(b, true, d, s).bad && Rest(f, Arguments(b, true, d, s))
    ensures Same(Arguments(b, true, d, s), Arguments(c, false, d, t))
    decreases MAX_DEPTH - d, 4, 2
  {
    var n, m := CountValue(b, s), Count(b, s);
    StepCount(b, s);
    StepTypes(b, true, d, n, m);
    RestBefore(b, f, m, Types(b, true, d, n, m));
    SimCount(b, c, f, s, t);
    SimTypes(b, c, f, d, n, m, Count(c, t));
  }

  lemma {:induction false} SimTypes(b: seq<byte>, c: seq<byte>, f: seq<Slot>, d: nat, n: nat, s: St, t: St)
    requires d <= MAX_DEPTH && Masked(b, c, f) && Good(b, s) && Same(s, t) && !Types(b, true, d, n, s).bad && Rest(f, Types(b, true, d, n, s))
    ensures Same(Types(b, true, d, n, s), Types(c, false, d, n, t))
    decreases MAX_DEPTH - d, 4, 1
  {
    StepTypes(b, true, d, n, s);
    var p, q := TypStep(b, true, d), TypStep(c, false, d);
    forall x, y | Good(b, x) && Same(x, y) && !p(x).bad && Rest(f, p(x)) ensures Same(p(x), q(y)) {
      SimTyp(b, c, f, d, x, y);
    }
    SimIterate(b, f, p, q, n, s, t);
  }

  lemma {:induction false} SimParam(b: seq<byte>, c: seq<byte>, f: seq<Slot>, d: nat, ret: bool, s: St, t: St)
    requires d <= MAX_DEPTH && Masked(b, c, f) && Good(b, s) && Same(s, t) && !Param(b, true, d, ret, s).bad && Rest(f, Param(b, true, d, ret, s))
    ensures Same(Param(b, true, d, ret, s), Param(c, false, d, ret, t))
    decreases MAX_DEPTH - d, 4, 2
  {
    var m, r := Mods(b, true, s), Param(b, true, d, ret, s);
    StepModsToo(b, true, s);
    StepAfterMods(b, true, d, ret, m);
    assert r == AfterMods(b, true, d, ret, m);
    ByteSame(b, c, f, m, r);
    EatsSteps(b, m, r);
    RestBefore(b, f, m, r);
    SimMods(b, c, f, s, t);
    SimAfterMods(b, c, f, d, ret, m, Mods(c, false, t));
  }

  lemma {:induction false} SimAfterMods(b: seq<byte>, c: seq<byte>, f: seq<Slot>, d: nat, ret: bool, m: St, t: St)
    requires d <= MAX_DEPTH && Masked(b, c, f) && Good(b, m) && Same(m, t)
    requires !AfterMods(b, true, d, ret, m).bad && Rest(f, AfterMods(b, true, d, ret, m)) && m.p < |b| && c[m.p] == b[m.p]
    ensures Same(AfterMods(b, true, d, ret, m), AfterMods(c, false, d, ret, t))
    decreases MAX_DEPTH - d, 4, 1
  {
    if Peek(b, m) == 0x10 {
      SkipGood(b, m);
      SimTyp(b, c, f, d, m.Skip(), t.Skip());
    } else if Peek(b, m) != 0x16 && Peek(b, m) != 0x01 {
      SimTyp(b, c, f, d, m, t);
    }
  }

  lemma {:induction false} SimSentinel(b: seq<byte>, c: seq<byte>, f: seq<Slot>, d: nat, s: St, t: St)
    requires d <= MAX_DEPTH && Masked(b, c, f) && Good(b, s) && Same(s, t)
    requires var r := NextParam(b, true, d, s); !r.bad && Rest(f, r)
    ensures Same(NextParam(b, true, d, s), NextParam(c, false, d, t))
    decreases MAX_DEPTH - d, 4, 3
  {
    StepSentinel(b, true, d, s);
    ByteSame(b, c, f, s, NextParam(b, true, d, s));
    SimParam(b, c, f, d, false, PastSentinel(b, s), PastSentinel(c, t));
  }

  lemma {:induction false} SimParams(b: seq<byte>, c: seq<byte>, f: seq<Slot>, d: nat, n: nat, s: St, t: St)
    requires d <= MAX_DEPTH && Masked(b, c, f) && Good(b, s) && Same(s, t) && !Params(b, true, d, n, s).bad && Rest(f, Params(b, true, d, n, s))
    ensures Same(Params(b, true, d, n, s), Params(c, false, d, n, t))
    decreases MAX_DEPTH - d, 4, 5
  {
    StepParams(b, true, d, n, s);
    var p, q := ParamStep(b, true, d), ParamStep(c, false, d);
    forall x, y | Good(b, x) && Same(x, y) && !p(x).bad && Rest(f, p(x)) ensures Same(p(x), q(y)) {
      SimSentinel(b, c, f, d, x, y);
    }
    SimIterate(b, f, p, q, n, s, t);
  }

  lemma {:induction false} SimMethod(b: seq<byte>, c: seq<byte>, f: seq<Slot>, d: nat, s: St, t: St)
    requires Masked(b, c, f) && Good(b, s) && Same(s, t) && !Method(b, true, d, s).bad && Rest(f, Method(b, true, d, s))
    ensures Same(Method(b, true, d, s), Method(c, false, d, t))
    decreases MAX_DEPTH - d, 4, 0
  {
    var r := Method(b, true, d, s);
    StepMethod(b, true, d, s);
    ByteSame(b, c, f, s, r);
    var m := Convention(b, s);
    StepConvention(b, s);
    StepSignature(b, true, d + 1, m);
    RestBefore(b, f, m, r);
    SimConvention(b, c, f, s, t);
    SimSignature(b, c, f, d + 1, m, Convention(c, t));
  }

  lemma SimConvention(b: seq<byte>, c: seq<byte>, f: seq<Slot>, s: St, t: St)
    requires Masked(b, c, f) && Good(b, s) && Same(s, t) && s.p < |b| && c[s.p] == b[s.p] && Good(b, s.Skip())
    requires !Convention(b, s).bad && Rest(f, Convention(b, s))
    ensures Same(Convention(b, s), Convention(c, t))
  {
    if (b[s.p] / 16) % 2 == 1 { SimCu(b, c, f, s.Skip(), t.Skip()); }
  }

  lemma {:induction false} SimSignature(b: seq<byte>, c: seq<byte>, f: seq<Slot>, d: nat, s: St, t: St)
    requires 0 < d <= MAX_DEPTH && Masked(b, c, f) && Good(b, s) && Same(s, t) && !Signature(b, true, d, s).bad && Rest(f, Signature(b, true, d, s))
    ensures Same(Signature(b, true, d, s), Signature(c, false, d, t))
    decreases MAX_DEPTH - d, 5, 0
  {
    var n, q := CountValue(b, s), Count(b, s);
    var m := Param(b, true, d, true, q);
    StepCount(b, s);
    StepParam(b, true, d, true, q);
    EatsSteps(b, q, m);
    StepParams(b, true, d, n, m);
    RestBefore(b, f, m, Signature(b, true, d, s));
    RestBefore(b, f, q, m);
    SimCount(b, c, f, s, t);
    SimParam(b, c, f, d, true, q, Count(c, t));
    SimParams(b, c, f, d, n, m, Param(c, false, d, true, Count(c, t)));
  }

  // ---- blob kinds ----

  lemma {:induction false} SimLocalMods(b: seq<byte>, c: seq<byte>, f: seq<Slot>, s: St, t: St)
    requires Masked(b, c, f) && Good(b, s) && Same(s, t) && !LocalMods(b, true, s).bad && Rest(f, LocalMods(b, true, s))
    requires var r := LocalMods(b, true, s); r.p < |b| ==> c[r.p] == b[r.p]
    ensures Same(LocalMods(b, true, s), LocalMods(c, false, t))
    decreases |b| - s.p
  {
    var r := LocalMods(b, true, s);
    StepLocalMods(b, true, s);
    if IsMod(Peek(b, s)) {
      ByteSame(b, c, f, s, r);
      var m := TypeRef(b, true, s.Skip());
      StepTypeRef(b, true, s.Skip());
      StepLocalMods(b, true, m);
      if r != m { EatsSteps(b, m, r); }
      RestBefore(b, f, m, r);
      SimTypeRef(b, c, f, s.Skip(), t.Skip());
      SimLocalMods(b, c, f, m, TypeRef(c, false, t.Skip()));
    } else if Peek(b, s) == 0x45 {
      ByteSame(b, c, f, s, r);
      SimLocalMods(b, c, f, s.Skip(), t.Skip());
    }
  }

  lemma SimAfterLocalMods(b: seq<byte>, c: seq<byte>, f: seq<Slot>, d: nat, m: St, t: St)
    requires d <= MAX_DEPTH && Masked(b, c, f) && Good(b, m) && Same(m, t)
    requires !AfterLocalMods(b, true, d, m).bad && Rest(f, AfterLocalMods(b, true, d, m)) && m.p < |b| && c[m.p] == b[m.p]
    ensures Same(AfterLocalMods(b, true, d, m), AfterLocalMods(c, false, d, t))
  {
    var q, u := if Peek(b, m) == 0x10 then m.Skip() else m, if Peek(c, t) == 0x10 then t.Skip() else t;
    if q != m { SkipGood(b, m); }
    var r := AfterLocalMods(b, true, d, m);
    if Peek(b, q) == 0x16 {
      SkipGood(b, q);
    } else {
      StepTyp(b, true, d, q);
    }
    ByteSame(b, c, f, q, r);
    if Peek(b, q) != 0x16 { SimTyp(b, c, f, d, q, u); }
  }

  lemma SimLocal(b: seq<byte>, c: seq<byte>, f: seq<Slot>, d: nat, s: St, t: St)
    requires d <= MAX_DEPTH && Masked(b, c, f) && Good(b, s) && Same(s, t) && !Local(b, true, d, s).bad && Rest(f, Local(b, true, d, s))
    ensures Same(Local(b, true, d, s), Local(c, false, d, t))
  {
    var m, r := LocalMods(b, true, s), Local(b, true, d, s);
    StepLocalMods(b, true, s);
    if m != s { EatsSteps(b, s, m); }
    StepAfterLocalMods(b, true, d, m);
    ByteSame(b, c, f, m, r);
    EatsSteps(b, m, r);
    RestBefore(b, f, m, r);
    SimLocalMods(b, c, f, s, t);
    SimAfterLocalMods(b, c, f, d, m, LocalMods(c, false, t));
  }

  lemma SimLocals(b: seq<byte>, c: seq<byte>, f: seq<Slot>, d: nat, n: nat, s: St, t: St)
    requires d <= MAX_DEPTH && Masked(b, c, f) && Good(b, s) && Same(s, t) && !Locals(b, true, d, n, s).bad && Rest(f, Locals(b, true, d, n, s))
    ensures Same(Locals(b, true, d, n, s), Locals(c, false, d, n, t))
  {
    StepLocals(b, true, d, n, s);
    var p, q := LocalStep(b, true, d), LocalStep(c, false, d);
    forall x, y | Good(b, x) && Same(x, y) && !p(x).bad && Rest(f, p(x)) ensures Same(p(x), q(y)) {
      SimLocal(b, c, f, d, x, y);
    }
    SimIterate(b, f, p, q, n, s, t);
  }

  lemma SimPropParams(b: seq<byte>, c: seq<byte>, f: seq<Slot>, d: nat, n: nat, s: St, t: St)
    requires d <= MAX_DEPTH && Masked(b, c, f) && Good(b, s) && Same(s, t)
    requires !PropParams(b, true, d, n, s).bad && Rest(f, PropParams(b, true, d, n, s))
    ensures Same(PropParams(b, true, d, n, s), PropParams(c, false, d, n, t))
  {
    StepPropParams(b, true, d, n, s);
    var p, q := PropParamStep(b, true, d), PropParamStep(c, false, d);
    forall x, y | Good(b, x) && Same(x, y) && !p(x).bad && Rest(f, p(x)) ensures Same(p(x), q(y)) {
      SimParam(b, c, f, d, false, x, y);
    }
    SimIterate(b, f, p, q, n, s, t);
  }

  /** A count and what it counts, at the start of a blob. */
  lemma SimLocalBody(b: seq<byte>, c: seq<byte>, f: seq<Slot>, d: nat, s: St, t: St)
    requires d <= MAX_DEPTH && Masked(b, c, f) && Good(b, s) && Same(s, t)
    requires var r := Locals(b, true, d, CountValue(b, s), Count(b, s)); !r.bad && Rest(f, r)
    ensures Same(Locals(b, true, d, CountValue(b, s), Count(b, s)), Locals(c, false, d, CountValue(c, t), Count(c, t)))
  {
    var n, m := CountValue(b, s), Count(b, s);
    StepCount(b, s);
    StepLocals(b, true, d, n, m);
    RestBefore(b, f, m, Locals(b, true, d, n, m));
    SimCount(b, c, f, s, t);
    SimLocals(b, c, f, d, n, m, Count(c, t));
  }

  lemma SimPropBody(b: seq<byte>, c: seq<byte>, f: seq<Slot>, s: St, t: St)
    requires Masked(b, c, f) && Good(b, s) && Same(s, t)
    requires var r := PropParams(b, true, 0, CountValue(b, s), Param(b, true, 0, false, Count(b, s))); !r.bad && Rest(f, r)
    ensures Same(PropParams(b, true, 0, CountValue(b, s), Param(b, true, 0, false, Count(b, s))),
                 PropParams(c, false, 0, CountValue(c, t), Param(c, false, 0, false, Count(c, t))))
  {
    var n, q := CountValue(b, s), Count(b, s);
    var m := Param(b, true, 0, false, q);
    var r := PropParams(b, true, 0, n, m);
    StepCount(b, s);
    StepParam(b, true, 0, false, q);
    EatsSteps(b, q, m);
    StepPropParams(b, true, 0, n, m);
    RestBefore(b, f, m, r);
    RestBefore(b, f, q, m);
    SimCount(b, c, f, s, t);
    SimParam(b, c, f, 0, false, q, Count(c, t));
    SimPropParams(b, c, f, 0, n, m, Param(c, false, 0, false, Count(c, t)));
  }

  lemma StepWalk(kind: Kind, b: seq<byte>, strict: bool)
    ensures Step(b, St(0, [], false), Walk(kind, b, strict))
    ensures !Walk(kind, b, strict).bad && !kind.TypeBlob? && !kind.MethodBlob? ==> Eats(b, St(0, [], false), Walk(kind, b, strict))
  {
    var s, r := St(0, [], false), Walk(kind, b, strict);
    if |b| > 0 && !r.bad {
      SkipGood(b, s);
      var m := s.Skip();
      match kind
      case MethodBlob =>
        StepMethod(b, strict, 0, s);
        EatsSteps(b, s, r);
      case TypeBlob =>
        StepTyp(b, strict, 0, s);
        EatsSteps(b, s, r);
      case FieldBlob =>
        StepModsToo(b, strict, m);
        StepTyp(b, strict, 0, Mods(b, strict, m));
        EatsSteps(b, Mods(b, strict, m), r);
        StepTrans(b, m, Mods(b, strict, m), r);
      case LocalBlob =>
        StepCount(b, m);
        StepLocals(b, strict, 0, CountValue(b, m), Count(b, m));
        StepTrans(b, m, Count(b, m), r);
      case PropBlob =>
        var q := Param(b, strict, 0, false, Count(b, m));
        StepCount(b, m);
        StepParam(b, strict, 0, false, Count(b, m));
        EatsSteps(b, Count(b, m), q);
        StepPropParams(b, strict, 0, CountValue(b, m), q);
        StepTrans(b, Count(b, m), q, r);
        StepTrans(b, m, Count(b, m), r);
      case InstBlob =>
        StepCount(b, m);
        StepTypes(b, strict, 0, CountValue(b, m), Count(b, m));
        StepTrans(b, m, Count(b, m), r);
      case Opaque =>
    }
  }

  /** The walk over the masked blob ends at the same place with the same slots. */
  lemma SimWalk(kind: Kind, b: seq<byte>, c: seq<byte>, f: seq<Slot>)
    requires var r := Walk(kind, b, true); !r.bad && f == r.slots && Masked(b, c, f)
    ensures Same(Walk(kind, b, true), Walk(kind, c, false))
  {
    var s, r := St(0, [], false), Walk(kind, b, true);
    StepWalk(kind, b, true);
    if kind.MethodBlob? {
      SimMethod(b, c, f, 0, s, s);
    } else if kind.TypeBlob? {
      SimTyp(b, c, f, 0, s, s);
    } else {
      ByteSame(b, c, f, s, r);
      var m := s.Skip();
      match kind
      case FieldBlob => SimModTyp(b, c, f, 0, m, m);
      case LocalBlob => SimLocalBody(b, c, f, 0, m, m);
      case PropBlob => SimPropBody(b, c, f, m, m);
      case InstBlob => SimInst(b, c, f, m);
    }
  }

  lemma SimInst(b: seq<byte>, c: seq<byte>, f: seq<Slot>, m: St)
    requires Masked(b, c, f) && Good(b, m) && CountValue(b, m) > 0
    requires var r := Types(b, true, 0, CountValue(b, m), Count(b, m)); !r.bad && Rest(f, r)
    ensures CountValue(c, m) == CountValue(b, m)
    ensures Same(Types(b, true, 0, CountValue(b, m), Count(b, m)), Types(c, false, 0, CountValue(c, m), Count(c, m)))
  {
    var n, q := CountValue(b, m), Count(b, m);
    StepCount(b, m);
    StepTypes(b, true, 0, n, q);
    RestBefore(b, f, q, Types(b, true, 0, n, q));
    SimCount(b, c, f, m, m);
    SimTypes(b, c, f, 0, n, q, Count(c, m));
  }
}
