/** What every step of the signature walk keeps: slots are recorded in order, behind the cursor. */
module SigSteps {
  import opened Bytes
  import opened SigModel

  ghost predicate SlotOk(b: seq<byte>, x: Slot) { CuAt(b, x.off) == Some((x.val, x.width)) }

  /** The slots so far: real compressed integers, in order, all before the cursor. */
  ghost predicate Good(b: seq<byte>, s: St) {
    && !s.bad && s.p <= |b|
    && (forall k :: 0 <= k < |s.slots| ==> SlotOk(b, s.slots[k]) && s.slots[k].End() <= s.p)
    && (forall k, l :: 0 <= k < l < |s.slots| ==> s.slots[k].End() <= s.slots[l].off)
  }

  predicate Prefix(a: seq<Slot>, b: seq<Slot>) {
    |a| <= |b| && forall k :: 0 <= k < |a| ==> b[k] == a[k]
  }

  /** From `s` to `r` the cursor moves on, and only slots at or after `s.p` are added. */
  ghost predicate Step(b: seq<byte>, s: St, r: St) {
    r.bad || (Good(b, r) && s.p <= r.p && Prefix(s.slots, r.slots) && forall k :: |s.slots| <= k < |r.slots| ==> r.slots[k].off >= s.p)
  }

  /** As `Step`, after a byte that is no part of a slot. */
  ghost predicate Eats(b: seq<byte>, s: St, r: St) { r.bad || (s.p < |b| && Step(b, s.Skip(), r)) }

  lemma StepTrans(b: seq<byte>, s: St, m: St, r: St)
    requires Step(b, s, m) && (m.bad ==> r.bad) && (!m.bad ==> Step(b, m, r))
    ensures Step(b, s, r)
  {}

  lemma EatsTrans(b: seq<byte>, s: St, m: St, r: St)
    requires Eats(b, s, m) && (m.bad ==> r.bad) && (!m.bad ==> Step(b, m, r))
    ensures Eats(b, s, r)
  {
    if !r.bad { StepTrans(b, s.Skip(), m, r); }
  }

  lemma EatsSteps(b: seq<byte>, s: St, r: St)
    requires Eats(b, s, r)
    ensures Step(b, s, r)
  {}

  lemma SkipGood(b: seq<byte>, s: St)
    requires Good(b, s) && s.p < |b|
    ensures Good(b, s.Skip()) && Eats(b, s, s.Skip())
  {}

  lemma StepCu(b: seq<byte>, s: St)
    requires Good(b, s)
    ensures Step(b, s, Cu(b, s))
  {}

  lemma StepCount(b: seq<byte>, s: St)
    requires Good(b, s)
    ensures Step(b, s, Count(b, s))
  {}

  lemma StepTypeRef(b: seq<byte>, strict: bool, s: St)
    requires Good(b, s)
    ensures Step(b, s, TypeRef(b, strict, s))
  {
    var r := TypeRef(b, strict, s);
    if !r.bad {
      assert SlotOk(b, r.slots[|s.slots|]);
      forall k | 0 <= k < |r.slots| ensures SlotOk(b, r.slots[k]) && r.slots[k].End() <= r.p {
        if k < |s.slots| { assert SlotOk(b, s.slots[k]); }
      }
    }
  }

  lemma {:induction false} StepMods(b: seq<byte>, strict: bool, s: St)
    requires Good(b, s)
    ensures var r := Mods(b, strict, s); r == s || Eats(b, s, r)
    decreases |b| - s.p
  {
    if IsMod(Peek(b, s)) {
      SkipGood(b, s);
      var m := TypeRef(b, strict, s.Skip());
      StepTypeRef(b, strict, s.Skip());
      if !m.bad {
        StepMods(b, strict, m);
        if Mods(b, strict, m) != m { EatsSteps(b, m, Mods(b, strict, m)); }
        EatsTrans(b, s, m, Mods(b, strict, m));
      }
    }
  }

  lemma StepModsToo(b: seq<byte>, strict: bool, s: St)
    requires Good(b, s)
    ensures Step(b, s, Mods(b, strict, s))
  {
    StepMods(b, strict, s);
    if Mods(b, strict, s) != s { EatsSteps(b, s, Mods(b, strict, s)); }
  }

  /** `step` keeps the slots in order. */
  ghost predicate Steps(b: seq<byte>, step: St -> St) {
    forall x {:trigger step(x)} :: Good(b, x) ==> Step(b, x, step(x))
  }

  lemma {:induction false} StepIterate(b: seq<byte>, step: St -> St, n: nat, s: St)
    requires Good(b, s) && Steps(b, step)
    ensures Step(b, s, Iterate(step, n, s))
  {
    if n > 0 {
      var m := step(s);
      if !m.bad { StepIterate(b, step, n - 1, m); }
      StepTrans(b, s, m, Iterate(step, n - 1, m));
    }
  }

  lemma StepCus(b: seq<byte>, n: nat, s: St)
    requires Good(b, s)
    ensures Steps(b, CuStep(b)) && Step(b, s, Cus(b, n, s))
  {
    forall x | Good(b, x) ensures Step(b, x, CuStep(b)(x)) { StepCu(b, x); }
    StepIterate(b, CuStep(b), n, s);
  }

  lemma StepCounted(b: seq<byte>, s: St)
    requires s.bad || Good(b, s)
    ensures s.bad ==> Cus(b, CountValue(b, s), Count(b, s)).bad
    ensures !s.bad ==> Step(b, s, Cus(b, CountValue(b, s), Count(b, s)))
  {
    var c := Count(b, s);
    if !s.bad {
      StepCount(b, s);
      if !c.bad { StepCus(b, CountValue(b, s), c); }
      StepTrans(b, s, c, Cus(b, CountValue(b, s), c));
    }
  }

  lemma StepShape(b: seq<byte>, s: St)
    requires Good(b, s)
    ensures Step(b, s, Shape(b, s))
  {
    var m := Cus(b, CountValue(b, s), Count(b, s));
    StepCounted(b, s);
    StepCounted(b, m);
    StepTrans(b, s, m, Shape(b, s));
  }

  lemma {:induction false} StepTyp(b: seq<byte>, strict: bool, d: nat, s: St)
    requires Good(b, s)
    ensures Eats(b, s, Typ(b, strict, d, s))
    decreases MAX_DEPTH - d, 4, 0
  {
    if d < MAX_DEPTH && s.p < |b| {
      SkipGood(b, s);
      StepElem(b, strict, d + 1, b[s.p], s.Skip());
    }
  }

  lemma {:induction false} StepElem(b: seq<byte>, strict: bool, d: nat, e: byte, s: St)
    requires 0 < d <= MAX_DEPTH && Good(b, s)
    ensures Step(b, s, Elem(b, strict, d, e, s))
    decreases MAX_DEPTH - d, 5, 0
  {
    var r := Elem(b, strict, d, e, s);
    if Simple(e) {
    } else if e == 0x0f || e == 0x1d {
      var m := Mods(b, strict, s);
      StepModsToo(b, strict, s);
      if !m.bad {
        StepTyp(b, strict, d, m);
        EatsSteps(b, m, Typ(b, strict, d, m));
        StepPointer(b, strict, d, m);
        EatsSteps(b, m, Pointer(b, strict, d, m));
      }
      StepTrans(b, s, m, r);
    } else if e == 0x10 {
      StepTyp(b, strict, d, s);
      EatsSteps(b, s, r);
    } else if e == 0x11 || e == 0x12 {
      StepTypeRef(b, strict, s);
    } else if e == 0x13 || e == 0x1e {
      StepCu(b, s);
    } else if e == 0x14 {
      StepArray(b, strict, d, s);
    } else if e == 0x15 {
      StepGeneric(b, strict, d, s);
    } else if e == 0x1b {
      StepMethod(b, strict, d, s);
      EatsSteps(b, s, r);
    }
  }

  lemma {:induction false} StepArray(b: seq<byte>, strict: bool, d: nat, s: St)
    requires 0 < d <= MAX_DEPTH && Good(b, s)
    ensures Step(b, s, Shape(b, Cu(b, Typ(b, strict, d, s))))
    decreases MAX_DEPTH - d, 4, 1
  {
    var m := Typ(b, strict, d, s);
    StepTyp(b, strict, d, s);
    EatsSteps(b, s, m);
    if !m.bad {
      StepCu(b, m);
      if !Cu(b, m).bad { StepShape(b, Cu(b, m)); }
      StepTrans(b, m, Cu(b, m), Shape(b, Cu(b, m)));
    }
    StepTrans(b, s, m, Shape(b, Cu(b, m)));
  }

  lemma {:induction false} StepGeneric(b: seq<byte>, strict: bool, d: nat, s: St)
    requires 0 < d <= MAX_DEPTH && Good(b, s)
    ensures Eats(b, s, Arguments(b, strict, d, TypeRef(b, strict, Byte(b, s))))
    decreases MAX_DEPTH - d, 4, 3
  {
    if s.p < |b| {
      SkipGood(b, s);
      var m := TypeRef(b, strict, s.Skip());
      StepTypeRef(b, strict, s.Skip());
      if !m.bad { StepArguments(b, strict, d, m); }
      EatsTrans(b, s, m, Arguments(b, strict, d, m));
    }
  }

  lemma {:induction false} StepPointer(b: seq<byte>, strict: bool, d: nat, s: St)
    requires d <= MAX_DEPTH && Good(b, s)
    ensures Eats(b, s, Pointer(b, strict, d, s))
    decreases MAX_DEPTH - d, 4, 1
  {
    if Peek(b, s) == 0x01 {
      SkipGood(b, s);
    } else {
      StepTyp(b, strict, d, s);
    }
  }

  lemma {:induction false} StepArguments(b: seq<byte>, strict: bool, d: nat, s: St)
    requires d <= MAX_DEPTH && Good(b, s)
    ensures Step(b, s, Arguments(b, strict, d, s))
    decreases MAX_DEPTH - d, 4, 2
  {
    var n, c := CountValue(b, s), Count(b, s);
    StepCount(b, s);
    if !c.bad { StepTypes(b, strict, d, n, c); }
    StepTrans(b, s, c, Types(b, strict, d, n, c));
  }

  lemma {:induction false} StepTypes(b: seq<byte>, strict: bool, d: nat, n: nat, s: St)
    requires d <= MAX_DEPTH && Good(b, s)
    ensures Steps(b, TypStep(b, strict, d)) && Step(b, s, Types(b, strict, d, n, s))
    decreases MAX_DEPTH - d, 4, 1
  {
    forall x | Good(b, x) ensures Step(b, x, TypStep(b, strict, d)(x)) {
      StepTyp(b, strict, d, x);
      EatsSteps(b, x, Typ(b, strict, d, x));
    }
    StepIterate(b, TypStep(b, strict, d), n, s);
  }

  lemma {:induction false} StepParam(b: seq<byte>, strict: bool, d: nat, ret: bool, s: St)
    requires d <= MAX_DEPTH && Good(b, s)
    ensures Eats(b, s, Param(b, strict, d, ret, s))
    decreases MAX_DEPTH - d, 4, 2
  {
    var m, r := Mods(b, strict, s), Param(b, strict, d, ret, s);
    StepMods(b, strict, s);
    if !m.bad {
      assert Eats(b, m, r) by { StepAfterMods(b, strict, d, ret, m); }
      if m != s {
        EatsSteps(b, m, r);
        EatsTrans(b, s, m, r);
      }
    }
  }

  /** A parameter after its modifiers. */
  function AfterMods(b: seq<byte>, strict: bool, d: nat, ret: bool, m: St): St
    requires d <= MAX_DEPTH
  {
    var c := Peek(b, m);
    if c == 0x10 then Typ(b, strict, d, m.Skip())
    else if c == 0x16 then m.Skip()
    else if c == 0x01 then (if ret then m.Skip() else m.Fail())
    else Typ(b, strict, d, m)
  }

  lemma {:induction false} StepAfterMods(b: seq<byte>, strict: bool, d: nat, ret: bool, m: St)
    requires d <= MAX_DEPTH && Good(b, m)
    ensures Eats(b, m, AfterMods(b, strict, d, ret, m))
    decreases MAX_DEPTH - d, 4, 1
  {
    var c := Peek(b, m);
    if c == 0x10 || c == 0x16 || c == 0x01 { SkipGood(b, m); }
    if c == 0x10 {
      StepTyp(b, strict, d, m.Skip());
      EatsSteps(b, m.Skip(), Typ(b, strict, d, m.Skip()));
    } else if c != 0x16 && c != 0x01 {
      StepTyp(b, strict, d, m);
    }
  }

  lemma {:induction false} StepParams(b: seq<byte>, strict: bool, d: nat, n: nat, s: St)
    requires d <= MAX_DEPTH && Good(b, s)
    ensures Steps(b, ParamStep(b, strict, d)) && Step(b, s, Params(b, strict, d, n, s))
    decreases MAX_DEPTH - d, 4, 4
  {
    forall x | Good(b, x) ensures Step(b, x, ParamStep(b, strict, d)(x)) {
      StepSentinel(b, strict, d, x);
      EatsSteps(b, x, NextParam(b, strict, d, x));
    }
    StepIterate(b, ParamStep(b, strict, d), n, s);
  }

  lemma {:induction false} StepSentinel(b: seq<byte>, strict: bool, d: nat, s: St)
    requires d <= MAX_DEPTH && Good(b, s)
    ensures Eats(b, s, NextParam(b, strict, d, s))
    decreases MAX_DEPTH - d, 4, 3
  {
    if Peek(b, s) == 0x41 {
      SkipGood(b, s);
      StepParam(b, strict, d, false, s.Skip());
      EatsSteps(b, s.Skip(), Param(b, strict, d, false, s.Skip()));
    } else {
      StepParam(b, strict, d, false, s);
    }
  }

  lemma {:induction false} StepMethod(b: seq<byte>, strict: bool, d: nat, s: St)
    requires Good(b, s)
    ensures Eats(b, s, Method(b, strict, d, s))
    decreases MAX_DEPTH - d, 4, 0
  {
    if d < MAX_DEPTH && s.p < |b| {
      var m := Convention(b, s);
      StepConvention(b, s);
      if !m.bad { StepSignature(b, strict, d + 1, m); }
      StepTrans(b, s.Skip(), m, Signature(b, strict, d + 1, m));
    }
  }

  lemma StepConvention(b: seq<byte>, s: St)
    requires Good(b, s) && s.p < |b|
    ensures Good(b, s.Skip()) && Step(b, s.Skip(), Convention(b, s))
  {
    SkipGood(b, s);
    StepCu(b, s.Skip());
  }

  lemma {:induction false} StepSignature(b: seq<byte>, strict: bool, d: nat, s: St)
    requires 0 < d <= MAX_DEPTH && Good(b, s)
    ensures Step(b, s, Signature(b, strict, d, s))
    decreases MAX_DEPTH - d, 5, 0
  {
    var c := Count(b, s);
    var m := Param(b, strict, d, true, c);
    StepCount(b, s);
    if !c.bad {
      StepParam(b, strict, d, true, c);
      EatsSteps(b, c, m);
      if !m.bad { StepParams(b, strict, d, CountValue(b, s), m); }
      StepTrans(b, c, m, Signature(b, strict, d, s));
    }
    StepTrans(b, s, c, Signature(b, strict, d, s));
  }

  // ---- blob kinds ----

  lemma {:induction false} StepLocalMods(b: seq<byte>, strict: bool, s: St)
    requires Good(b, s)
    ensures var r := LocalMods(b, strict, s); r == s || Eats(b, s, r)
    decreases |b| - s.p
  {
    var r := LocalMods(b, strict, s);
    if IsMod(Peek(b, s)) {
      SkipGood(b, s);
      var m := TypeRef(b, strict, s.Skip());
      StepTypeRef(b, strict, s.Skip());
      if !m.bad {
        StepLocalMods(b, strict, m);
        if r != m { EatsSteps(b, m, r); }
        EatsTrans(b, s, m, r);
      }
    } else if Peek(b, s) == 0x45 {
      SkipGood(b, s);
      StepLocalMods(b, strict, s.Skip());
      if r != s.Skip() { EatsSteps(b, s.Skip(), r); }
    }
  }

  /** A local variable after its modifiers. */
  function AfterLocalMods(b: seq<byte>, strict: bool, d: nat, m: St): St
    requires d <= MAX_DEPTH
  {
    var q := if Peek(b, m) == 0x10 then m.Skip() else m;
    if Peek(b, q) == 0x16 then q.Skip() else Typ(b, strict, d, q)
  }

  lemma StepAfterLocalMods(b: seq<byte>, strict: bool, d: nat, m: St)
    requires d <= MAX_DEPTH && Good(b, m)
    ensures Eats(b, m, AfterLocalMods(b, strict, d, m))
  {
    var q := if Peek(b, m) == 0x10 then m.Skip() else m;
    if Peek(b, m) == 0x10 { SkipGood(b, m); }
    var r := AfterLocalMods(b, strict, d, m);
    if Peek(b, q) == 0x16 {
      SkipGood(b, q);
    } else {
      StepTyp(b, strict, d, q);
    }
    if q != m { EatsSteps(b, q, r); }
  }

  lemma StepLocal(b: seq<byte>, strict: bool, d: nat, s: St)
    requires d <= MAX_DEPTH && Good(b, s)
    ensures Eats(b, s, Local(b, strict, d, s))
  {
    var m, r := LocalMods(b, strict, s), Local(b, strict, d, s);
    StepLocalMods(b, strict, s);
    if !m.bad {
      StepAfterLocalMods(b, strict, d, m);
      if m != s {
        EatsSteps(b, m, r);
        EatsTrans(b, s, m, r);
      }
    }
  }

  lemma StepLocals(b: seq<byte>, strict: bool, d: nat, n: nat, s: St)
    requires d <= MAX_DEPTH && Good(b, s)
    ensures Steps(b, LocalStep(b, strict, d)) && Step(b, s, Locals(b, strict, d, n, s))
  {
    forall x | Good(b, x) ensures Step(b, x, LocalStep(b, strict, d)(x)) {
      StepLocal(b, strict, d, x);
      EatsSteps(b, x, Local(b, strict, d, x));
    }
    StepIterate(b, LocalStep(b, strict, d), n, s);
  }

  lemma StepPropParams(b: seq<byte>, strict: bool, d: nat, n: nat, s: St)
    requires d <= MAX_DEPTH && Good(b, s)
    ensures Steps(b, PropParamStep(b, strict, d)) && Step(b, s, PropParams(b, strict, d, n, s))
  {
    forall x | Good(b, x) ensures Step(b, x, PropParamStep(b, strict, d)(x)) {
      StepParam(b, strict, d, false, x);
      EatsSteps(b, x, PropParam(b, strict, d, x));
    }
    StepIterate(b, PropParamStep(b, strict, d), n, s);
  }
}
