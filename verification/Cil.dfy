/** The method-body parser as it runs (clrz3/cil.go), and masking its token slots in place. */
module Cil {
  import opened Bytes
  import opened CilModel
  import opened CilMask
  import opened CilReads

  /** Walks the instructions of `v[p..end]` and collects their token operands. */
  method WalkCode(v: seq<byte>, start: nat, end: nat, strict: bool) returns (toks: Option<seq<Tok>>)
    requires start <= end <= |v|
    ensures toks == Code(v, start, end, strict, [])
  {
    var p, acc := start, [];
    while p < end
      invariant start <= p <= end && Code(v, p, end, strict, acc) == Code(v, start, end, strict, [])
    {
      var i := Step(v, p, end, strict);
      if i.None? {
        return None;
      }
      acc := Append(acc, i.value.tok);
      p := i.value.next;
    }
    return Some(acc);
  }

  /** One instruction. */
  method Step(v: seq<byte>, at: nat, end: nat, strict: bool) returns (r: Option<Instr>)
    requires at < end <= |v|
    ensures r == InstrAt(v, at, end, strict)
  {
    var p := at + 1;
    var o := Opd1(v[at]);
    if v[at] == 0xfe {
      if p >= end || v[p] >= 32 {
        return None;
      }
      o := Opd2(v[p]);
      p := p + 1;
    }
    match o {
      case Illegal => return None;
      case Raw(n) => return if p + n > end then None else Some(Instr(p + n, None));
      case Switch =>
        if p + 4 > end || U32At(v, p) > (end - p - 4) / 4 {
          return None;
        }
        return Some(Instr(p + 4 + 4 * U32At(v, p), None));
      case Token(c) =>
        if p + 4 > end || (strict && !ValidTok(U32At(v, p), c)) {
          return None;
        }
        return Some(Instr(p + 4, Some(Tok(p, c, U32At(v, p)))));
    }
  }

  /** The clauses of an exception table of `bytes` bytes at `start`. */
  method ReadClauses(v: seq<byte>, start: nat, n: nat, fat: bool, strict: bool, acc: seq<Clause>) returns (r: Option<seq<Clause>>)
    requires start + ClauseSpan(fat, n) <= |v|
    ensures r == Clauses(v, start, n, fat, strict, acc)
  {
    ghost var l := ClauseList(v, start, n, fat);
    var q, i, out := start, 0, acc;
    while i < n
      invariant 0 <= i <= n && q == ClauseStart(start, fat, i) && out == acc + l[..i]
      invariant forall k :: 0 <= k < i ==> ClauseOk(l[k], strict)
    {
      var c := ClauseAt(v, q, fat);
      assert l[i] == c;
      if strict && c.tok.Some? && !ValidTok(c.tok.value.1, TkType) {
        return None;
      }
      out := out + [c];
      q := q + ClauseSize(fat);
      i := i + 1;
    }
    assert l[..n] == l;
    return Some(out);
  }

  method ReadSection(v: seq<byte>, p: nat, strict: bool, acc: seq<Clause>) returns (r: Option<seq<Clause>>)
    requires p + 4 <= |v| && 4 <= SectionSize(v, p) && p + SectionSize(v, p) <= |v|
    ensures r == Section(v, p, strict, acc)
  {
    var kind, bytes, fat := v[p] % 0x40, SectionSize(v, p) - 4, FatSection(v, p);
    if kind == 1 {
      if !WholeClauses(fat, bytes) || ClauseCount(fat, bytes) > MAX_CLAUSES {
        return None;
      }
      r := ReadClauses(v, p + 4, ClauseCount(fat, bytes), fat, strict, acc);
    } else if kind == 2 {
      r := Some(acc);
    } else {
      r := None;
    }
  }

  /** The data sections after the code, 4-aligned from the start of the body. */
  method ReadSections(v: seq<byte>, start: nat, strict: bool) returns (r: Option<(seq<Clause>, nat)>)
    ensures r == Sections(v, start, strict, [])
  {
    var p, acc := start, [];
    while p + 4 <= |v| && SectionSize(v, p) >= 4 && p + SectionSize(v, p) <= |v|
      invariant Sections(v, p, strict, acc) == Sections(v, start, strict, [])
      decreases |v| - p
    {
      var cs := ReadSection(v, p, strict, acc);
      if cs.None? {
        return None;
      }
      acc := cs.value;
      var end := p + SectionSize(v, p);
      if !MoreSections(v, p) {
        return Some((acc, end));
      }
      Align4Up(end);
      p := Align4(end);
    }
    return None;
  }

  /** Parses the body at the start of `v`. */
  method ParseRelative(v: seq<byte>, strict: bool) returns (r: Option<Body>)
    ensures r == BodyAt(v, strict)
  {
    if |v| == 0 {
      return None;
    }
    var h := HeaderAt(v, strict);
    if h.None? || h.value.hdrLen + h.value.codeLen > |v| {
      return None;
    }
    var end := h.value.hdrLen + h.value.codeLen;
    var toks := WalkCode(v, h.value.hdrLen, end, strict);
    if toks.None? {
      return None;
    }
    if !h.value.sections {
      return Some(Plain(h.value, toks.value));
    }
    var s := ReadSections(v, Align4(end), strict);
    r := Extend(h.value, toks.value, s);
  }

  /** Parses the body at file offset `off`. */
  method Parse(d: seq<byte>, off: int, strict: bool) returns (r: Option<Body>)
    ensures r == ParseBody(d, off, strict)
    ensures r.Some? <==> 0 <= off < |d| && exists b :: Assembled(d[off..], strict, b)
    ensures r.Some? ==> exists b :: Assembled(d[off..], strict, b) && r.value == Rebase(b, off)
  {
    if off < 0 || off >= |d| {
      return None;
    }
    var b := ParseRelative(d[off..], strict);
    SomeBody(d[off..], strict);
    if b.None? {
      return None;
    }
    return Some(Rebase(b.value, off));
  }

  // ---- masking ----

  predicate Covered(s: seq<nat>, i: int) { exists k :: 0 <= k < |s| && s[k] <= i < s[k] + 4 }

  predicate CoveredTo(s: seq<nat>, n: int, i: int) { exists k :: 0 <= k < n && k < |s| && s[k] <= i < s[k] + 4 }

  /** Zeroes four-byte slots, in place, and nothing else. */
  method ZeroSlots(a: array<byte>, s: seq<nat>)
    requires Ordered(s, 0, a.Length)
    modifies a
    ensures forall i :: 0 <= i < a.Length && !Covered(s, i) ==> a[i] == old(a[i])
    ensures forall k :: 0 <= k < |s| ==> ZeroAt(a[..], s[k])
  {
    var k := 0;
    while k < |s|
      invariant 0 <= k <= |s|
      invariant forall i :: 0 <= i < a.Length && !CoveredTo(s, k, i) ==> a[i] == old(a[i])
      invariant forall j :: 0 <= j < k ==> ZeroAt(a[..], s[j])
    {
      var p := s[k];
      a[p], a[p + 1], a[p + 2], a[p + 3] := 0, 0, 0, 0;
      k := k + 1;
    }
  }

  lemma {:induction false} ClauseOffsElements(cs: seq<Clause>, k: nat, x: nat)
    requires k <= |cs|
    ensures x in ClauseOffs(cs, k) <==> exists i :: 0 <= i < k && cs[i].tok.Some? && cs[i].tok.value.0 == x
  {
    if k > 0 { ClauseOffsElements(cs, k - 1, x); }
  }

  /** The slots of a body are its local signature, its code tokens and its clause tokens. */
  lemma SlotElements(b: Body, x: nat)
    ensures x in Slots(b)
       <==> (b.fat && x == b.localOff)
            || (exists k :: 0 <= k < |b.toks| && b.toks[k].off == x)
            || (exists k :: 0 <= k < |b.clauses| && b.clauses[k].tok.Some? && b.clauses[k].tok.value.0 == x)
  {
    ClauseOffsElements(b.clauses, |b.clauses|, x);
    var l, t, c := if b.fat then [b.localOff] else [], TokOffs(b.toks), ClauseOffs(b.clauses, |b.clauses|);
    assert x in Slots(b) <==> x in l || x in t || x in c;
    assert x in t <==> exists k :: 0 <= k < |b.toks| && b.toks[k].off == x by {
      if k :| 0 <= k < |b.toks| && b.toks[k].off == x { assert t[k] == x; }
      if x in t {
        var k :| 0 <= k < |t| && t[k] == x;
        assert b.toks[k].off == x;
      }
    }
  }

  lemma ZeroedBySlots(v: seq<byte>, w: seq<byte>, b: Body)
    requires |w| == |v| && (b.fat ==> b.localOff == 8)
    requires forall i :: 0 <= i < |v| && !Covered(Slots(b), i) ==> w[i] == v[i]
    requires forall k :: 0 <= k < |Slots(b)| ==> ZeroAt(w, Slots(b)[k])
    ensures Zeroed(v, w, b)
  {
    var s := Slots(b);
    forall i | 0 <= i < |v| && !(b.fat && 8 <= i < 12) && !InTok(b.toks, i) && !InClauseTok(b.clauses, i) ensures w[i] == v[i] {
      if Covered(s, i) {
        var k :| 0 <= k < |s| && s[k] <= i < s[k] + 4;
        SlotElements(b, s[k]);
      }
    }
    forall x: nat | x in s ensures ZeroAt(w, x) {
      var k :| 0 <= k < |s| && s[k] == x;
    }
    if b.fat { SlotElements(b, 8); }
    forall k | 0 <= k < |b.toks| ensures ZeroAt(w, b.toks[k].off) { SlotElements(b, b.toks[k].off); }
    forall k | 0 <= k < |b.clauses| && b.clauses[k].tok.Some? ensures ZeroAt(w, b.clauses[k].tok.value.0) {
      SlotElements(b, b.clauses[k].tok.value.0);
    }
  }

  /**
   Parses a body strictly, zeroes its token slots in place, and parses what is left without
   checking values: the same body, its token values zero.
   */
  method MaskThenParse(a: array<byte>) returns (b: Option<Body>, again: Option<Body>)
    modifies a
    ensures b == BodyAt(old(a[..]), true)
    ensures b.Some? ==> Zeroed(old(a[..]), a[..], b.value) && again == Some(ZeroBody(b.value))
  {
    ghost var v := a[..];
    b := ParseRelative(a[..], true);
    again := None;
    if b.Some? {
      SlotsOrdered(v, true);
      OrderedWiden(Slots(b.value), 0, b.value.end, 0, a.Length);
      ZeroSlots(a, Slots(b.value));
      ZeroedBySlots(v, a[..], b.value);
      MaskedBody(v, a[..]);
      again := ParseRelative(a[..], false);
    }
  }
}
