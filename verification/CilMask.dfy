/**
 Token slots of a method body: in order, disjoint, inside the header, code and clauses; zeroing
 them leaves a body that parses, values unchecked, to the same structure.
 */
module CilMask {
  import opened Bytes
  import opened CilModel

  // ---- the slots of a body ----

  function TokOffs(ts: seq<Tok>): (r: seq<nat>)
    ensures |r| == |ts| && forall k :: 0 <= k < |ts| ==> r[k] == ts[k].off
  {
    seq(|ts|, k requires 0 <= k < |ts| => ts[k].off)
  }

  /** The class tokens of the first `k` clauses. */
  function ClauseOffs(cs: seq<Clause>, k: nat): seq<nat>
    requires k <= |cs|
  {
    if k == 0 then []
    else Append(ClauseOffs(cs, k - 1), if cs[k - 1].tok.Some? then Some(cs[k - 1].tok.value.0) else None)
  }

  /** Every token slot of a body: local signature, code, clauses. */
  function Slots(b: Body): seq<nat> {
    (if b.fat then [b.localOff] else []) + TokOffs(b.toks) + ClauseOffs(b.clauses, |b.clauses|)
  }

  /** Four-byte slots in order from `lo`, all before `hi`. */
  ghost predicate Ordered(s: seq<nat>, lo: nat, hi: nat) {
    && (forall k :: 0 <= k < |s| ==> lo <= s[k] && s[k] + 4 <= hi)
    && (forall k, l :: 0 <= k < l < |s| ==> s[k] + 4 <= s[l])
  }

  lemma OrderedConcat(a: seq<nat>, b: seq<nat>, lo: nat, mid: nat, hi: nat)
    requires Ordered(a, lo, mid) && Ordered(b, mid, hi) && lo <= mid <= hi
    ensures Ordered(a + b, lo, hi)
  {}

  lemma OrderedWiden(a: seq<nat>, lo: nat, hi: nat, lo': nat, hi': nat)
    requires Ordered(a, lo, hi) && lo' <= lo && hi <= hi'
    ensures Ordered(a, lo', hi')
  {}

  // ---- code ----

  /** The tokens after `acc`: in order, between `p` and `end`. */
  ghost predicate Extends(acc: seq<Tok>, ts: seq<Tok>, p: nat, end: nat) {
    && |acc| <= |ts| && (forall k :: 0 <= k < |acc| ==> ts[k] == acc[k])
    && Ordered(TokOffs(ts[|acc|..]), p, end)
  }

  lemma ExtendsMore(acc: seq<Tok>, x: Option<Tok>, ts: seq<Tok>, p: nat, q: nat, end: nat)
    requires Extends(Append(acc, x), ts, q, end) && p <= q <= end && (x.Some? ==> p <= x.value.off && x.value.off + 4 <= q)
    ensures Extends(acc, ts, p, end)
  {
    if x.Some? {
      var n := |acc|;
      assert Append(acc, x)[n] == x.value && ts[n] == x.value;
      var a, b := TokOffs(ts[n..]), TokOffs(ts[n + 1..]);
      assert forall k :: 1 <= k < |a| ==> a[k] == b[k - 1];
      assert a[0] == x.value.off;
    } else {
      OrderedWiden(TokOffs(ts[|acc|..]), q, end, p, end);
    }
  }

  lemma {:induction false} CodeExtends(v: seq<byte>, p: nat, end: nat, strict: bool, acc: seq<Tok>)
    requires p <= end <= |v| && Code(v, p, end, strict, acc).Some?
    ensures Extends(acc, Code(v, p, end, strict, acc).value, p, end)
    decreases end - p
  {
    if p < end {
      var i := InstrAt(v, p, end, strict).value;
      CodeExtends(v, i.next, end, strict, Append(acc, i.tok));
      ExtendsMore(acc, i.tok, Code(v, p, end, strict, acc).value, p, i.next, end);
    }
  }

  /** Instruction boundaries: from `p` to `end`, each one where the instruction before it stops. */
  ghost predicate Tiling(v: seq<byte>, p: nat, end: nat, strict: bool, cuts: seq<nat>)
    requires end <= |v|
  {
    && |cuts| > 0 && cuts[0] == p && cuts[|cuts| - 1] == end
    && forall k :: 0 <= k < |cuts| - 1 ==>
         cuts[k] < end && InstrAt(v, cuts[k], end, strict).Some? && InstrAt(v, cuts[k], end, strict).value.next == cuts[k + 1]
  }

  /** The instructions of parsed code tile it exactly. */
  lemma {:induction false} CodeTiles(v: seq<byte>, p: nat, end: nat, strict: bool, acc: seq<Tok>) returns (cuts: seq<nat>)
    requires p <= end <= |v| && Code(v, p, end, strict, acc).Some?
    ensures Tiling(v, p, end, strict, cuts)
    decreases end - p
  {
    if p == end {
      cuts := [p];
    } else {
      var i := InstrAt(v, p, end, strict).value;
      var rest := CodeTiles(v, i.next, end, strict, Append(acc, i.tok));
      cuts := [p] + rest;
      forall k | 0 <= k < |cuts| - 1
        ensures cuts[k] < end && InstrAt(v, cuts[k], end, strict).Some? && InstrAt(v, cuts[k], end, strict).value.next == cuts[k + 1]
      {
        if k > 0 { assert cuts[k] == rest[k - 1] && cuts[k + 1] == rest[k]; }
      }
    }
  }

  // ---- clauses ----

  ghost predicate ClausesExtend(acc: seq<Clause>, cs: seq<Clause>, p: nat, end: nat) {
    && ClausePrefix(acc, cs)
    && (forall k :: |acc| <= k < |cs| ==> InClause(cs[k], p, end))
    && (forall l, k :: |acc| <= l < k < |cs| ==> cs[l].off + ClauseSize(cs[l].fat) <= cs[k].off)
  }

  /** A clause, and its class token at its place, between `p` and `end`. */
  predicate InClause(c: Clause, p: nat, end: nat) {
    p <= c.off && c.off + ClauseSize(c.fat) <= end && (c.tok.Some? ==> c.tok.value.0 == TokPlace(c.off, c.fat))
  }

  lemma ClausesExtends(v: seq<byte>, q: nat, n: nat, fat: bool, strict: bool, acc: seq<Clause>)
    requires q + ClauseSpan(fat, n) <= |v| && Clauses(v, q, n, fat, strict, acc).Some?
    ensures ClausesExtend(acc, Clauses(v, q, n, fat, strict, acc).value, q, q + ClauseSpan(fat, n))
  {
    var l, cs := ClauseList(v, q, n, fat), Clauses(v, q, n, fat, strict, acc).value;
    forall k | |acc| <= k < |cs| ensures cs[k].off == ClauseStart(q, fat, k - |acc|) && cs[k].fat == fat && InClause(cs[k], q, q + ClauseSpan(fat, n)) {
      assert cs[k] == l[k - |acc|];
      ClauseShape(v, ClauseStart(q, fat, k - |acc|), fat);
    }
  }

  lemma ClausesChain(a: seq<Clause>, b: seq<Clause>, c: seq<Clause>, p: nat, q: nat, r: nat, end: nat)
    requires ClausesExtend(a, b, p, q) && ClausesExtend(b, c, r, end) && p <= q <= r <= end
    ensures ClausesExtend(a, c, p, end)
  {
    forall k | |a| <= k < |c| ensures InClause(c[k], p, end) {
      if k < |b| { assert c[k] == b[k]; }
    }
    forall l, k | |a| <= l < k < |c| ensures c[l].off + ClauseSize(c[l].fat) <= c[k].off {
      if k < |b| {
        assert c[k] == b[k] && c[l] == b[l];
      } else if l < |b| {
        assert c[l] == b[l] && InClause(b[l], p, q) && InClause(c[k], r, end);
      }
    }
  }

  lemma Align4Up(x: nat)
    ensures x <= Align4(x) < x + 4
  {}

  lemma SectionExtends(v: seq<byte>, p: nat, strict: bool, acc: seq<Clause>)
    requires p + 4 <= |v| && 4 <= SectionSize(v, p) && p + SectionSize(v, p) <= |v| && Section(v, p, strict, acc).Some?
    ensures ClausesExtend(acc, Section(v, p, strict, acc).value, p + 4, p + SectionSize(v, p))
  {
    if v[p] % 0x40 == 1 {
      var fat := FatSection(v, p);
      ClausesExtends(v, p + 4, ClauseCount(fat, SectionSize(v, p) - 4), fat, strict, acc);
    }
  }

  lemma {:induction false} SectionsExtend(v: seq<byte>, p: nat, strict: bool, acc: seq<Clause>)
    requires Sections(v, p, strict, acc).Some?
    ensures var (cs, end) := Sections(v, p, strict, acc).value; p + 4 <= end <= |v| && ClausesExtend(acc, cs, p + 4, end)
    decreases |v| - p
  {
    var cs := Section(v, p, strict, acc).value;
    var e := p + SectionSize(v, p);
    SectionExtends(v, p, strict, acc);
    if MoreSections(v, p) {
      Align4Up(e);
      SectionsExtend(v, Align4(e), strict, cs);
      var (out, end) := Sections(v, p, strict, acc).value;
      ClausesChain(acc, cs, out, p + 4, e, Align4(e) + 4, end);
    }
  }

  lemma {:induction false} ClauseOffsOrdered(cs: seq<Clause>, k: nat, p: nat, end: nat)
    requires ClausesExtend([], cs, p, end) && k <= |cs|
    ensures Ordered(ClauseOffs(cs, k), p, if k < |cs| then cs[k].off else end)
  {
    if k > 0 {
      ClauseOffsOrdered(cs, k - 1, p, end);
      assert InClause(cs[k - 1], p, end);
      if k < |cs| { assert cs[k - 1].off + ClauseSize(cs[k - 1].fat) <= cs[k].off && InClause(cs[k], p, end); }
    }
  }

  // ---- bodies ----

  /** The slots before the sections: the local signature and the code's tokens. */
  lemma CodeSlotsOrdered(v: seq<byte>, strict: bool)
    requires BodyAt(v, strict).Some?
    ensures var b, h := BodyAt(v, strict).value, HeaderAt(v, strict).value;
            Ordered((if b.fat then [b.localOff] else []) + TokOffs(b.toks), 0, h.hdrLen + h.codeLen)
  {
    var h, b := HeaderAt(v, strict).value, BodyAt(v, strict).value;
    var end := h.hdrLen + h.codeLen;
    CodeExtends(v, h.hdrLen, end, strict, []);
    assert b.toks[0..] == b.toks;
    OrderedConcat(if b.fat then [b.localOff] else [], TokOffs(b.toks), 0, h.hdrLen, end);
  }

  /** Token slots are disjoint and in order, inside the body. */
  lemma SlotsOrdered(v: seq<byte>, strict: bool)
    requires BodyAt(v, strict).Some?
    ensures var b := BodyAt(v, strict).value; b.end <= |v| && Ordered(Slots(b), 0, b.end)
  {
    var h, b := HeaderAt(v, strict).value, BodyAt(v, strict).value;
    var end := h.hdrLen + h.codeLen;
    var local := if b.fat then [b.localOff] else [];
    CodeSlotsOrdered(v, strict);
    var p := if h.sections then Align4(end) + 4 else end;
    Align4Up(end);
    if h.sections { SectionsExtend(v, Align4(end), strict, []); }
    ClauseOffsOrdered(b.clauses, |b.clauses|, p, b.end);
    OrderedWiden(local + TokOffs(b.toks), 0, end, 0, p);
    OrderedConcat(local + TokOffs(b.toks), ClauseOffs(b.clauses, |b.clauses|), 0, p, b.end);
  }

  // ---- masking ----

  predicate InTok(ts: seq<Tok>, i: int) { exists k :: 0 <= k < |ts| && ts[k].off <= i < ts[k].off + 4 }

  predicate InClauseTok(cs: seq<Clause>, i: int) {
    exists k :: 0 <= k < |cs| && cs[k].tok.Some? && cs[k].tok.value.0 <= i < cs[k].tok.value.0 + 4
  }

  predicate ZeroAt(w: seq<byte>, p: nat) { p + 4 <= |w| && w[p] == 0 && w[p + 1] == 0 && w[p + 2] == 0 && w[p + 3] == 0 }

  /** `w` is `v` with every token slot of `b` zeroed, and nothing else changed. */
  ghost predicate Zeroed(v: seq<byte>, w: seq<byte>, b: Body) {
    && |w| == |v|
    && (forall i {:trigger InTok(b.toks, i)} :: 0 <= i < |v| && !(b.fat && 8 <= i < 12) && !InTok(b.toks, i) && !InClauseTok(b.clauses, i) ==> w[i] == v[i])
    && (b.fat ==> ZeroAt(w, 8))
    && (forall k :: 0 <= k < |b.toks| ==> ZeroAt(w, b.toks[k].off))
    && (forall k :: 0 <= k < |b.clauses| && b.clauses[k].tok.Some? ==> ZeroAt(w, b.clauses[k].tok.value.0))
  }

  function ZeroTok(t: Tok): Tok { t.(val := 0) }

  function ZeroToks(ts: seq<Tok>): (r: seq<Tok>)
    ensures |r| == |ts| && forall k :: 0 <= k < |ts| ==> r[k] == ZeroTok(ts[k])
  {
    seq(|ts|, k requires 0 <= k < |ts| => ZeroTok(ts[k]))
  }

  function ZeroClause(c: Clause): Clause { if c.tok.Some? then c.(tok := Some((c.tok.value.0, 0))) else c }

  function ZeroClauses(cs: seq<Clause>): (r: seq<Clause>)
    ensures |r| == |cs| && forall k :: 0 <= k < |cs| ==> r[k] == ZeroClause(cs[k])
  {
    seq(|cs|, k requires 0 <= k < |cs| => ZeroClause(cs[k]))
  }

  function ZeroBody(b: Body): Body { b.(localTok := 0, toks := ZeroToks(b.toks), clauses := ZeroClauses(b.clauses)) }

  /** The places a byte of the body can be changed: code and clause bytes outside tokens are kept. */
  ghost predicate Layout(b: Body, codeEnd: nat) {
    && b.hdrLen <= codeEnd && (b.fat ==> b.hdrLen == 12)
    && (forall k :: 0 <= k < |b.toks| ==> b.hdrLen <= b.toks[k].off && b.toks[k].off + 4 <= codeEnd)
    && (forall k :: 0 <= k < |b.clauses| && b.clauses[k].tok.Some? ==> b.clauses[k].tok.value.0 >= codeEnd)
  }

  lemma CodeByte(v: seq<byte>, w: seq<byte>, b: Body, codeEnd: nat, i: nat)
    requires Zeroed(v, w, b) && Layout(b, codeEnd) && b.hdrLen <= i < codeEnd <= |v| && !InTok(b.toks, i)
    ensures w[i] == v[i]
  {
    assert !InClauseTok(b.clauses, i);
  }

  lemma TailByte(v: seq<byte>, w: seq<byte>, b: Body, codeEnd: nat, i: nat)
    requires Zeroed(v, w, b) && Layout(b, codeEnd) && codeEnd <= i < |v| && !InClauseTok(b.clauses, i)
    ensures w[i] == v[i]
  {
    assert !InTok(b.toks, i);
  }

  /** The tokens before index `n` end by `p`; the others start at or after it. */
  ghost predicate Around(ts: seq<Tok>, n: nat, p: nat) {
    && n <= |ts| && (forall k :: 0 <= k < n ==> ts[k].off + 4 <= p)
    && (forall k :: n <= k < |ts| ==> ts[k].off >= p)
  }

  lemma SameBefore(v: seq<byte>, w: seq<byte>, b: Body, codeEnd: nat, n: nat, p: nat, q: nat)
    requires Zeroed(v, w, b) && Layout(b, codeEnd) && b.hdrLen <= p <= q <= codeEnd <= |v|
    requires Around(b.toks, n, p) && forall k :: n <= k < |b.toks| ==> b.toks[k].off >= q
    ensures forall i :: p <= i < q ==> w[i] == v[i]
  {
    forall i | p <= i < q ensures w[i] == v[i] {
      CodeByte(v, w, b, codeEnd, i);
    }
  }

  function ZeroInstr(i: Instr): Instr { if i.tok.Some? then Instr(i.next, Some(ZeroTok(i.tok.value))) else i }

  lemma SimInstr(v: seq<byte>, w: seq<byte>, p: nat, end: nat)
    requires p < end <= |v| == |w| && InstrAt(v, p, end, true).Some?
    requires var i := InstrAt(v, p, end, true).value;
             && (i.tok.None? ==> forall j :: p <= j < i.next ==> w[j] == v[j])
             && (i.tok.Some? ==> (forall j :: p <= j < i.tok.value.off ==> w[j] == v[j]) && ZeroAt(w, i.tok.value.off))
    ensures InstrAt(w, p, end, false) == Some(ZeroInstr(InstrAt(v, p, end, true).value))
  {
    var i := InstrAt(v, p, end, true).value;
    assert OpdAt(w, p, end) == OpdAt(v, p, end);
  }

  lemma AroundNext(ts: seq<Tok>, acc: seq<Tok>, p: nat, i: Instr, end: nat)
    requires Around(ts, |acc|, p) && p <= i.next && (forall k :: 0 <= k < |acc| ==> ts[k] == acc[k])
    requires Extends(Append(acc, i.tok), ts, i.next, end) && (i.tok.Some? ==> i.tok.value.off + 4 == i.next)
    ensures Around(ts, |Append(acc, i.tok)|, i.next)
    ensures i.tok.Some? ==> |acc| < |ts| && ts[|acc|] == i.tok.value
  {
    var n := |Append(acc, i.tok)|;
    forall k | n <= k < |ts| ensures ts[k].off >= i.next {
      assert TokOffs(ts[n..])[k - n] == ts[k].off;
    }
    if i.tok.Some? { assert Append(acc, i.tok)[|acc|] == i.tok.value; }
  }

  lemma ZeroAppend(acc: seq<Tok>, i: Instr)
    ensures ZeroToks(Append(acc, i.tok)) == Append(ZeroToks(acc), ZeroInstr(i).tok)
  {}

  /** Code walks the same way over the masked bytes. */
  lemma {:induction false} SimCode(v: seq<byte>, w: seq<byte>, b: Body, p: nat, end: nat, acc: seq<Tok>)
    requires Zeroed(v, w, b) && Layout(b, end) && b.hdrLen <= p <= end <= |v|
    requires Code(v, p, end, true, acc) == Some(b.toks) && Around(b.toks, |acc|, p) && forall k :: 0 <= k < |acc| ==> b.toks[k] == acc[k]
    ensures Code(w, p, end, false, ZeroToks(acc)) == Some(ZeroToks(b.toks))
    decreases end - p
  {
    if p < end {
      var i := InstrAt(v, p, end, true).value;
      CodeExtends(v, i.next, end, true, Append(acc, i.tok));
      AroundNext(b.toks, acc, p, i, end);
      SameBefore(v, w, b, end, |acc|, p, if i.tok.Some? then i.tok.value.off else i.next);
      SimInstr(v, w, p, end);
      ZeroAppend(acc, i);
      SimCode(v, w, b, i.next, end, Append(acc, i.tok));
    }
  }

  // ---- masked clauses ----

  /** The clauses of a body lie in order after the code. */
  ghost predicate ClausesPlaced(b: Body, codeEnd: nat) { ClausesExtend([], b.clauses, codeEnd, b.end) }

  lemma ClauseTokInside(c: Clause, p: nat, end: nat)
    requires InClause(c, p, end) && c.tok.Some?
    ensures c.off <= c.tok.value.0 && c.tok.value.0 + 4 <= c.off + ClauseSize(c.fat)
  {}

  lemma ClauseBytes(v: seq<byte>, w: seq<byte>, b: Body, codeEnd: nat, n: nat, i: nat)
    requires Zeroed(v, w, b) && Layout(b, codeEnd) && ClausesPlaced(b, codeEnd) && n < |b.clauses| && b.end <= |v|
    requires b.clauses[n].off <= i < TokPlace(b.clauses[n].off, b.clauses[n].fat)
    ensures i < |v| && w[i] == v[i]
  {
    assert InClause(b.clauses[n], codeEnd, b.end);
    forall k | 0 <= k < |b.clauses| && b.clauses[k].tok.Some? ensures !(b.clauses[k].tok.value.0 <= i < b.clauses[k].tok.value.0 + 4) {
      ClauseTokAway(b, codeEnd, n, k, i);
    }
    TailByte(v, w, b, codeEnd, i);
  }

  /** No clause's token lies in the fields of a clause before its own token. */
  lemma ClauseTokAway(b: Body, codeEnd: nat, n: nat, k: nat, i: nat)
    requires Layout(b, codeEnd) && ClausesPlaced(b, codeEnd) && n < |b.clauses| && k < |b.clauses| && b.clauses[k].tok.Some?
    requires b.clauses[n].off <= i < TokPlace(b.clauses[n].off, b.clauses[n].fat)
    ensures !(b.clauses[k].tok.value.0 <= i < b.clauses[k].tok.value.0 + 4)
  {
    assert InClause(b.clauses[n], codeEnd, b.end) && InClause(b.clauses[k], codeEnd, b.end);
    ClauseTokInside(b.clauses[k], codeEnd, b.end);
  }

  predicate SameOn(v: seq<byte>, w: seq<byte>, a: int, b: int) {
    0 <= a && b <= |v| && b <= |w| && forall i :: a <= i < b ==> w[i] == v[i]
  }

  /** The token of a typed clause is its last field; the bytes before it are kept. */
  lemma SimClause(v: seq<byte>, w: seq<byte>, q: nat, fat: bool)
    requires q + ClauseSize(fat) <= |v| == |w| && SameOn(v, w, q, TokPlace(q, fat))
    requires ClauseAt(v, q, fat).tok.Some? ==> ZeroAt(w, TokPlace(q, fat))
    ensures ClauseAt(w, q, fat) == ZeroClause(ClauseAt(v, q, fat))
  {
    assert w[q..TokPlace(q, fat)] == v[q..TokPlace(q, fat)];
  }

  lemma U32Same(v: seq<byte>, w: seq<byte>, p: nat)
    requires SameOn(v, w, p, p + 4)
    ensures U32At(w, p) == U32At(v, p)
  {}

  lemma ClauseShape(v: seq<byte>, q: nat, fat: bool)
    requires q + ClauseSize(fat) <= |v|
    ensures var c := ClauseAt(v, q, fat); c.off == q && c.fat == fat && (c.tok.Some? ==> c.tok.value.0 == TokPlace(q, fat))
  {}

  ghost predicate ClausePrefix(a: seq<Clause>, b: seq<Clause>) { |a| <= |b| && forall k :: 0 <= k < |a| ==> b[k] == a[k] }

  /** The clause at index `n` of the body reads the same, its token apart. */
  lemma SimOneClause(v: seq<byte>, w: seq<byte>, b: Body, codeEnd: nat, n: nat, q: nat, fat: bool)
    requires Zeroed(v, w, b) && Layout(b, codeEnd) && ClausesPlaced(b, codeEnd) && b.end <= |v|
    requires n < |b.clauses| && q + ClauseSize(fat) <= |v| && b.clauses[n] == ClauseAt(v, q, fat)
    ensures ClauseAt(w, q, fat) == ZeroClause(b.clauses[n])
  {
    var c := b.clauses[n];
    ClauseShape(v, q, fat);
    forall i | q <= i < TokPlace(q, fat) ensures w[i] == v[i] {
      ClauseBytes(v, w, b, codeEnd, n, i);
    }
    SimClause(v, w, q, fat);
  }

  lemma SimClauses(v: seq<byte>, w: seq<byte>, b: Body, codeEnd: nat, q: nat, n: nat, fat: bool, acc: seq<Clause>, cs: seq<Clause>)
    requires Zeroed(v, w, b) && Layout(b, codeEnd) && ClausesPlaced(b, codeEnd) && b.end <= |v|
    requires q + ClauseSpan(fat, n) <= |v| && Clauses(v, q, n, fat, true, acc) == Some(cs) && ClausePrefix(cs, b.clauses)
    ensures Clauses(w, q, n, fat, false, ZeroClauses(acc)) == Some(ZeroClauses(cs))
  {
    var l, m := ClauseList(v, q, n, fat), ClauseList(w, q, n, fat);
    forall i | 0 <= i < n ensures m[i] == ZeroClause(l[i]) {
      assert cs[|acc| + i] == l[i];
      SimOneClause(v, w, b, codeEnd, |acc| + i, ClauseStart(q, fat, i), fat);
    }
    assert ZeroClauses(acc) + m == ZeroClauses(cs);
  }

  /** The header of a section holds no token. */
  lemma SectionHeader(v: seq<byte>, w: seq<byte>, b: Body, codeEnd: nat, p: nat, n: nat)
    requires Zeroed(v, w, b) && Layout(b, codeEnd) && ClausesPlaced(b, codeEnd) && codeEnd <= p && p + 4 <= |v|
    requires n <= |b.clauses| && (forall k :: 0 <= k < n ==> b.clauses[k].off + ClauseSize(b.clauses[k].fat) <= p)
    requires forall k :: n <= k < |b.clauses| ==> b.clauses[k].off >= p + 4
    ensures w[p] == v[p] && w[p + 1] == v[p + 1] && w[p + 2] == v[p + 2] && w[p + 3] == v[p + 3]
  {
    forall i | p <= i < p + 4 ensures w[i] == v[i] {
      forall k | 0 <= k < |b.clauses| && b.clauses[k].tok.Some? ensures !(b.clauses[k].tok.value.0 <= i < b.clauses[k].tok.value.0 + 4) {
        assert InClause(b.clauses[k], codeEnd, b.end);
        ClauseTokInside(b.clauses[k], codeEnd, b.end);
      }
      TailByte(v, w, b, codeEnd, i);
    }
  }

  lemma SimSection(v: seq<byte>, w: seq<byte>, b: Body, codeEnd: nat, p: nat, acc: seq<Clause>, cs: seq<Clause>)
    requires Zeroed(v, w, b) && Layout(b, codeEnd) && ClausesPlaced(b, codeEnd) && b.end <= |v|
    requires p + 4 <= |v| && 4 <= SectionSize(v, p) && p + SectionSize(v, p) <= |v| && Section(v, p, true, acc) == Some(cs) && ClausePrefix(cs, b.clauses)
    requires w[p] == v[p] && w[p + 1] == v[p + 1] && w[p + 2] == v[p + 2] && w[p + 3] == v[p + 3]
    ensures SectionSize(w, p) == SectionSize(v, p) && Section(w, p, false, ZeroClauses(acc)) == Some(ZeroClauses(cs))
  {
    HeaderSame(v, w, p);
    if v[p] % 0x40 == 1 {
      var fat, n := FatSection(v, p), ClauseCount(FatSection(v, p), SectionSize(v, p) - 4);
      ClauseSection(v, p, true, acc);
      SimClauses(v, w, b, codeEnd, p + 4, n, fat, acc, cs);
      ClauseSection(w, p, false, ZeroClauses(acc));
    }
  }

  /** A section of clauses is its clauses, if its size is right. */
  lemma ClauseSection(v: seq<byte>, p: nat, strict: bool, acc: seq<Clause>)
    requires p + 4 <= |v| && 4 <= SectionSize(v, p) && p + SectionSize(v, p) <= |v| && v[p] % 0x40 == 1
    ensures var fat, bytes := FatSection(v, p), SectionSize(v, p) - 4;
            && (Section(v, p, strict, acc).Some? ==> WholeClauses(fat, bytes) && ClauseCount(fat, bytes) <= MAX_CLAUSES)
            && (WholeClauses(fat, bytes) && ClauseCount(fat, bytes) <= MAX_CLAUSES ==>
                  && p + 4 + ClauseSpan(fat, ClauseCount(fat, bytes)) <= |v|
                  && Section(v, p, strict, acc) == Clauses(v, p + 4, ClauseCount(fat, bytes), fat, strict, acc))
  {}

  lemma HeaderSame(v: seq<byte>, w: seq<byte>, p: nat)
    requires p + 4 <= |v| && p + 4 <= |w| && w[p] == v[p] && w[p + 1] == v[p + 1] && w[p + 2] == v[p + 2] && w[p + 3] == v[p + 3]
    ensures SectionSize(w, p) == SectionSize(v, p) && FatSection(w, p) == FatSection(v, p) && MoreSections(w, p) == MoreSections(v, p)
  {}

  /** The section at `p` reads the same, the tokens of its clauses apart. */
  lemma SimHere(v: seq<byte>, w: seq<byte>, b: Body, codeEnd: nat, p: nat, acc: seq<Clause>, cs: seq<Clause>)
    requires Zeroed(v, w, b) && Layout(b, codeEnd) && ClausesPlaced(b, codeEnd) && b.end <= |v| && codeEnd <= p
    requires ClausesExtend(acc, b.clauses, p + 4, b.end)
    requires forall k :: 0 <= k < |acc| ==> acc[k].off + ClauseSize(acc[k].fat) <= p
    requires p + 4 <= |v| && 4 <= SectionSize(v, p) && p + SectionSize(v, p) <= |v| && Section(v, p, true, acc) == Some(cs) && ClausePrefix(cs, b.clauses)
    ensures SectionSize(w, p) == SectionSize(v, p) && Section(w, p, false, ZeroClauses(acc)) == Some(ZeroClauses(cs))
    ensures MoreSections(w, p) == MoreSections(v, p)
  {
    forall k | |acc| <= k < |b.clauses| ensures b.clauses[k].off >= p + 4 {
      assert InClause(b.clauses[k], p + 4, b.end);
    }
    SectionHeader(v, w, b, codeEnd, p, |acc|);
    SimSection(v, w, b, codeEnd, p, acc, cs);
  }

  /** Every clause so far lies behind the section. */
  lemma BeforeNext(v: seq<byte>, p: nat, acc: seq<Clause>, cs: seq<Clause>)
    requires p + 4 <= |v| && 4 <= SectionSize(v, p) && p + SectionSize(v, p) <= |v| && Section(v, p, true, acc) == Some(cs)
    requires forall k :: 0 <= k < |acc| ==> acc[k].off + ClauseSize(acc[k].fat) <= p
    ensures forall k :: 0 <= k < |cs| ==> cs[k].off + ClauseSize(cs[k].fat) <= p + SectionSize(v, p)
  {
    SectionExtends(v, p, true, acc);
    forall k | 0 <= k < |cs| ensures cs[k].off + ClauseSize(cs[k].fat) <= p + SectionSize(v, p) {
      if k >= |acc| { assert InClause(cs[k], p + 4, p + SectionSize(v, p)); } else { assert cs[k] == acc[k]; }
    }
  }

  /** The first of the sections, and what follows it. */
  lemma FirstSection(v: seq<byte>, p: nat, strict: bool, acc: seq<Clause>) returns (cs: seq<Clause>)
    requires Sections(v, p, strict, acc).Some?
    ensures p + 4 <= |v| && 4 <= SectionSize(v, p) && p + SectionSize(v, p) <= |v| && Section(v, p, strict, acc) == Some(cs)
    ensures Sections(v, p, strict, acc)
         == if MoreSections(v, p) then Sections(v, Align4(p + SectionSize(v, p)), strict, cs) else Some((cs, p + SectionSize(v, p)))
  {
    cs := Section(v, p, strict, acc).value;
  }

  lemma OneSection(v: seq<byte>, p: nat, strict: bool, acc: seq<Clause>, cs: seq<Clause>)
    requires p + 4 <= |v| && 4 <= SectionSize(v, p) && p + SectionSize(v, p) <= |v| && Section(v, p, strict, acc) == Some(cs)
    ensures Sections(v, p, strict, acc)
         == if MoreSections(v, p) then Sections(v, Align4(p + SectionSize(v, p)), strict, cs) else Some((cs, p + SectionSize(v, p)))
  {}

  lemma {:induction false} SimSections(v: seq<byte>, w: seq<byte>, b: Body, codeEnd: nat, p: nat, acc: seq<Clause>)
    requires Zeroed(v, w, b) && Layout(b, codeEnd) && ClausesPlaced(b, codeEnd) && b.end <= |v| && codeEnd <= p
    requires Sections(v, p, true, acc) == Some((b.clauses, b.end))
    requires forall k :: 0 <= k < |acc| ==> acc[k].off + ClauseSize(acc[k].fat) <= p
    ensures Sections(w, p, false, ZeroClauses(acc)) == Some((ZeroClauses(b.clauses), b.end))
    decreases |v| - p
  {
    var cs := FirstSection(v, p, true, acc);
    SectionsExtend(v, p, true, acc);
    if MoreSections(v, p) {
      var next := Align4(p + SectionSize(v, p));
      NextSection(v, p, acc, cs, next);
      SimSections(v, w, b, codeEnd, next, cs);
      PrefixKept(v, next, true, cs, b.clauses, b.end);
    }
    SimHere(v, w, b, codeEnd, p, acc, cs);
    OneSection(w, p, false, ZeroClauses(acc), ZeroClauses(cs));
  }

  /** Where the next section starts, every clause so far lies behind. */
  lemma NextSection(v: seq<byte>, p: nat, acc: seq<Clause>, cs: seq<Clause>, next: nat)
    requires p + 4 <= |v| && 4 <= SectionSize(v, p) && p + SectionSize(v, p) <= |v| && Section(v, p, true, acc) == Some(cs)
    requires forall k :: 0 <= k < |acc| ==> acc[k].off + ClauseSize(acc[k].fat) <= p
    requires next == Align4(p + SectionSize(v, p))
    ensures p < next && forall k :: 0 <= k < |cs| ==> cs[k].off + ClauseSize(cs[k].fat) <= next
  {
    Align4Up(p + SectionSize(v, p));
    BeforeNext(v, p, acc, cs);
  }

  lemma PrefixKept(v: seq<byte>, p: nat, strict: bool, acc: seq<Clause>, cs: seq<Clause>, end: nat)
    requires Sections(v, p, strict, acc) == Some((cs, end))
    ensures ClausePrefix(acc, cs)
  {
    SectionsExtend(v, p, strict, acc);
  }

  // ---- masked bodies ----

  lemma BodyLayout(v: seq<byte>, strict: bool)
    requires BodyAt(v, strict).Some?
    ensures var b, h := BodyAt(v, strict).value, HeaderAt(v, strict).value;
            Layout(b, h.hdrLen + h.codeLen) && ClausesPlaced(b, h.hdrLen + h.codeLen) && Around(b.toks, 0, h.hdrLen)
            && h.hdrLen + h.codeLen <= b.end <= |v|
  {
    var h, b := HeaderAt(v, strict).value, BodyAt(v, strict).value;
    var end := h.hdrLen + h.codeLen;
    TokensPlaced(v, h.hdrLen, end, strict, b.toks);
    Align4Up(end);
    if h.sections { ClausesFollow(v, Align4(end), strict, b.clauses, b.end, end); }
  }

  lemma TokensPlaced(v: seq<byte>, p: nat, end: nat, strict: bool, ts: seq<Tok>)
    requires p <= end <= |v| && Code(v, p, end, strict, []) == Some(ts)
    ensures Around(ts, 0, p) && forall k :: 0 <= k < |ts| ==> p <= ts[k].off && ts[k].off + 4 <= end
  {
    CodeExtends(v, p, end, strict, []);
    assert ts[0..] == ts;
    forall k | 0 <= k < |ts| ensures p <= ts[k].off && ts[k].off + 4 <= end {
      assert TokOffs(ts)[k] == ts[k].off;
    }
  }

  lemma ClausesFollow(v: seq<byte>, p: nat, strict: bool, cs: seq<Clause>, end: nat, codeEnd: nat)
    requires Sections(v, p, strict, []) == Some((cs, end)) && codeEnd <= p
    ensures codeEnd <= end <= |v| && ClausesExtend([], cs, codeEnd, end)
    ensures forall k :: 0 <= k < |cs| && cs[k].tok.Some? ==> cs[k].tok.value.0 >= codeEnd
  {
    SectionsExtend(v, p, strict, []);
    forall k | 0 <= k < |cs| ensures InClause(cs[k], codeEnd, end) && (cs[k].tok.Some? ==> cs[k].tok.value.0 >= codeEnd) {
      assert InClause(cs[k], p + 4, end);
    }
  }

  lemma SimHeader(v: seq<byte>, w: seq<byte>, b: Body)
    requires BodyAt(v, true) == Some(b) && Zeroed(v, w, b) && Layout(b, b.hdrLen + b.codeLen)
    ensures HeaderAt(w, false) == Some(HeaderAt(v, true).value.(localTok := 0))
  {
    forall i | 0 <= i < b.hdrLen && !(b.fat && 8 <= i < 12) ensures w[i] == v[i] {
      assert !InTok(b.toks, i) && !InClauseTok(b.clauses, i);
    }
    if b.fat {
      U32Same(v, w, 4);
      assert U16At(w, 2) == U16At(v, 2) && U32At(w, 8) == 0;
    }
  }

  /** A body from its parts. */
  lemma BodyIs(v: seq<byte>, strict: bool, h: Header, toks: seq<Tok>, cs: seq<Clause>, end: nat)
    requires |v| > 0 && HeaderAt(v, strict) == Some(h) && h.hdrLen + h.codeLen <= |v|
    requires Code(v, h.hdrLen, h.hdrLen + h.codeLen, strict, []) == Some(toks)
    requires h.sections ==> Sections(v, Align4(h.hdrLen + h.codeLen), strict, []) == Some((cs, end))
    ensures BodyAt(v, strict) == if h.sections then Extend(h, toks, Some((cs, end))) else Some(Plain(h, toks))
  {}

  /** What the parts of a body are. */
  lemma BodyParts(v: seq<byte>, strict: bool, b: Body, h: Header)
    requires BodyAt(v, strict) == Some(b) && HeaderAt(v, strict) == Some(h)
    ensures b.hdrLen == h.hdrLen && h.hdrLen + h.codeLen <= |v|
    ensures Code(v, h.hdrLen, h.hdrLen + h.codeLen, strict, []) == Some(b.toks)
    ensures if h.sections then Sections(v, Align4(h.hdrLen + h.codeLen), strict, []) == Some((b.clauses, b.end))
            else b.clauses == [] && b.end == h.hdrLen + h.codeLen
  {}

  lemma MaskedCode(v: seq<byte>, w: seq<byte>, b: Body, end: nat)
    requires Zeroed(v, w, b) && Layout(b, end) && Around(b.toks, 0, b.hdrLen) && end <= |v|
    requires Code(v, b.hdrLen, end, true, []) == Some(b.toks)
    ensures Code(w, b.hdrLen, end, false, []) == Some(ZeroToks(b.toks))
  {
    assert ZeroToks([]) == [];
    SimCode(v, w, b, b.hdrLen, end, []);
  }

  lemma MaskedSections(v: seq<byte>, w: seq<byte>, b: Body, end: nat)
    requires Zeroed(v, w, b) && Layout(b, end) && ClausesPlaced(b, end) && b.end <= |v|
    requires Sections(v, Align4(end), true, []) == Some((b.clauses, b.end))
    ensures Sections(w, Align4(end), false, []) == Some((ZeroClauses(b.clauses), b.end))
  {
    Align4Up(end);
    assert ZeroClauses([]) == [];
    SimSections(v, w, b, end, Align4(end), []);
  }

  /** The parts of a masked body. */
  lemma MaskedParts(v: seq<byte>, w: seq<byte>, b: Body, h: Header)
    requires BodyAt(v, true) == Some(b) && Zeroed(v, w, b) && HeaderAt(v, true) == Some(h)
    ensures h.hdrLen + h.codeLen <= |w| && HeaderAt(w, false) == Some(h.(localTok := 0))
    ensures Code(w, h.hdrLen, h.hdrLen + h.codeLen, false, []) == Some(ZeroToks(b.toks))
    ensures h.sections ==> Sections(w, Align4(h.hdrLen + h.codeLen), false, []) == Some((ZeroClauses(b.clauses), b.end))
  {
    var end := h.hdrLen + h.codeLen;
    BodyLayout(v, true);
    BodyParts(v, true, b, h);
    SimHeader(v, w, b);
    MaskedCode(v, w, b, end);
    if h.sections { MaskedSections(v, w, b, end); }
  }

  lemma ZeroBodyIs(v: seq<byte>, b: Body, h: Header)
    requires BodyAt(v, true) == Some(b) && HeaderAt(v, true) == Some(h)
    ensures var z := h.(localTok := 0);
            Some(ZeroBody(b)) == if h.sections then Extend(z, ZeroToks(b.toks), Some((ZeroClauses(b.clauses), b.end)))
                                 else Some(Plain(z, ZeroToks(b.toks)))
  {
    assert ZeroClauses([]) == [];
  }

  /** Masking invariance: the masked body parses, values unchecked, to the same body with zero token values. */
  lemma MaskedBody(v: seq<byte>, w: seq<byte>)
    requires BodyAt(v, true).Some? && Zeroed(v, w, BodyAt(v, true).value)
    ensures BodyAt(w, false) == Some(ZeroBody(BodyAt(v, true).value))
  {
    var b, h := BodyAt(v, true).value, HeaderAt(v, true).value;
    MaskedParts(v, w, b, h);
    ZeroBodyIs(v, b, h);
    BodyIs(w, false, h.(localTok := 0), ZeroToks(b.toks), ZeroClauses(b.clauses), b.end);
  }
}
