/**
 Which parsed bodies are normalized (clrz3/heap.go, `validatePhysicalBodies`): their tokens name
 something, they lie outside the excised regions, and they do not overlap each other.
 */
module ClrHeap {
  import opened Bytes
  import opened Sorting

  /** A body: its extent, and `content` for everything its tokens depend on. */
  datatype Body = Body(off: int, end: int, content: nat)

  /** A method row; a raw (opaque) one is kept as plain bytes. */
  datatype Info = Info(body: Body, raw: bool)

  datatype Region = Region(off: int, len: int) {
    function End(): int { off + len }
  }

  predicate Meets(b: Body, r: Region) { b.off < r.End() && r.off < b.end }

  predicate MeetsAny(b: Body, rs: seq<Region>) { exists k :: 0 <= k < |rs| && Meets(b, rs[k]) }

  /** Rows that share an offset share the body there: parsing is a function of the file. */
  ghost predicate Physical(s: seq<Info>) {
    && (forall i :: 0 <= i < |s| && !s[i].raw ==> s[i].body.off >= 0)
    && forall i, j :: 0 <= i < |s| && 0 <= j < |s| && !s[i].raw && !s[j].raw && s[i].body.off == s[j].body.off ==> s[i].body == s[j].body
  }

  // ---- first pass: tokens ----

  function Checked(x: Info, valid: Body -> bool): Info { x.(raw := x.raw || !valid(x.body)) }

  /** Validates once per offset, and gives every alias of a body the same verdict. */
  method CheckTokens(a: array<Info>, valid: Body -> bool)
    requires Physical(a[..])
    modifies a
    ensures forall i :: 0 <= i < a.Length ==> a[i] == Checked(old(a[i]), valid)
  {
    var checked: map<int, bool> := map[];
    var i := 0;
    while i < a.Length
      invariant 0 <= i <= a.Length
      invariant forall k :: 0 <= k < i ==> a[k] == Checked(old(a[k]), valid)
      invariant forall k :: i <= k < a.Length ==> a[k] == old(a[k])
      invariant forall k :: 0 <= k < a.Length && !old(a[k]).raw && old(a[k]).body.off in checked ==> checked[old(a[k]).body.off] == valid(old(a[k]).body)
    {
      if !a[i].raw {
        var off := a[i].body.off;
        assert old(a[..])[i] == a[i];
        if off !in checked {
          var good := valid(a[i].body);
          forall k | 0 <= k < a.Length && !old(a[k]).raw && old(a[k]).body.off == off ensures valid(old(a[k]).body) == good {
            assert old(a[..])[k] == old(a[k]);
          }
          checked := checked[off := good];
        }
        a[i] := a[i].(raw := !checked[off]);
      }
      i := i + 1;
    }
  }

  // ---- second pass: overlaps ----

  /** A kept body covers offset `x` without starting there. */
  ghost predicate Buried(s: seq<Info>, x: int) {
    exists j :: 0 <= j < |s| && !s[j].raw && s[j].body.off < x < s[j].body.end
  }

  ghost predicate Disjoint(s: seq<Info>) {
    forall i, j :: 0 <= i < |s| && 0 <= j < |s| && !s[i].raw && !s[j].raw && s[i].body.off < s[j].body.off ==> s[i].body.end <= s[j].body.off
  }

  /** The rows that are still candidates, by offset. */
  method SortRows(a: array<Info>) returns (order: seq<int>)
    ensures forall k :: 0 <= k < |order| ==> 0 <= order[k] < a.Length && !a[order[k]].raw
    ensures forall i :: 0 <= i < a.Length && !a[i].raw ==> i in order
    ensures forall k, l :: 0 <= k < l < |order| ==> order[k] != order[l] && a[order[k]].body.off <= a[order[l]].body.off
  {
    var rows: seq<int> := [];
    var i := 0;
    while i < a.Length
      invariant 0 <= i <= a.Length
      invariant forall k :: 0 <= k < |rows| ==> 0 <= rows[k] < i && !a[rows[k]].raw
      invariant forall k, l :: 0 <= k < l < |rows| ==> rows[k] < rows[l]
      invariant forall k :: 0 <= k < i && !a[k].raw ==> k in rows
    {
      if !a[i].raw {
        rows := rows + [i];
      }
      i := i + 1;
    }
    var s := a[..];
    var key := (x: int) => if 0 <= x < |s| then s[x].body.off else 0;
    order := SortBy(key, rows);
    SortedRows(rows, order, key, s);
  }

  lemma SortedRows(rows: seq<int>, order: seq<int>, key: int -> int, s: seq<Info>)
    requires multiset(order) == multiset(rows) && forall k, l :: 0 <= k < l < |order| ==> key(order[k]) <= key(order[l])
    requires forall k :: 0 <= k < |rows| ==> 0 <= rows[k] < |s| && !s[rows[k]].raw && key(rows[k]) == s[rows[k]].body.off
    requires forall k, l :: 0 <= k < l < |rows| ==> rows[k] < rows[l]
    ensures forall k :: 0 <= k < |order| ==> 0 <= order[k] < |s| && !s[order[k]].raw
    ensures forall x :: x in rows ==> x in order
    ensures forall k, l :: 0 <= k < l < |order| ==> order[k] != order[l] && s[order[k]].body.off <= s[order[l]].body.off
  {
    forall k | 0 <= k < |order| ensures order[k] in rows { SameElements(order, rows, order[k]); }
    forall x | x in rows ensures x in order { SameElements(order, rows, x); }
    forall k, l | 0 <= k < l < |order| ensures order[k] != order[l] {
      if order[k] == order[l] {
        TwiceCounts(order, k, l);
        OnceCounts(rows, order[k]);
      }
    }
  }

  /** The sweep over bodies in offset order: which are kept, and the extent of the last kept one. */
  datatype Sweep = Sweep(keep: seq<bool>, off: int, end: int)

  predicate Clashes(st: Sweep, b: Body, excised: seq<Region>) { MeetsAny(b, excised) || (b.off != st.off && b.off < st.end) }

  function SweepOne(st: Sweep, b: Body, excised: seq<Region>): Sweep {
    if Clashes(st, b, excised) then st.(keep := st.keep + [false])
    else if b.off != st.off then Sweep(st.keep + [true], b.off, b.end)
    else st.(keep := st.keep + [true])
  }

  function SweepTo(bs: seq<Body>, k: nat, excised: seq<Region>): (r: Sweep)
    requires k <= |bs|
    ensures |r.keep| == k
  {
    if k == 0 then Sweep([], -1, 0) else SweepOne(SweepTo(bs, k - 1, excised), bs[k - 1], excised)
  }

  /** Bodies by offset, one body per offset. */
  ghost predicate ByOffset(bs: seq<Body>) {
    && (forall k :: 0 <= k < |bs| ==> bs[k].off >= 0)
    && (forall k, l :: 0 <= k < l < |bs| ==> bs[k].off <= bs[l].off && (bs[k].off == bs[l].off ==> bs[k] == bs[l]))
  }

  ghost predicate BuriedIn(bs: seq<Body>, keep: seq<bool>, x: int) {
    exists k :: 0 <= k < |keep| && k < |bs| && keep[k] && bs[k].off < x < bs[k].end
  }

  /** Kept bodies end before the last extent starts, or are the last extent. */
  ghost predicate KeptBefore(bs: seq<Body>, st: Sweep)
    requires |st.keep| <= |bs|
  {
    forall k :: 0 <= k < |st.keep| && st.keep[k] ==>
      if bs[k].off == st.off then bs[k].end == st.end else bs[k].off < st.off && bs[k].end <= st.off
  }

  ghost predicate KeptApart(bs: seq<Body>, keep: seq<bool>)
    requires |keep| <= |bs|
  {
    forall k, l :: 0 <= k < |keep| && 0 <= l < |keep| && keep[k] && keep[l] && bs[k].off < bs[l].off ==> bs[k].end <= bs[l].off
  }

  /** What the sweep has established for the bodies so far. */
  ghost predicate Swept(bs: seq<Body>, st: Sweep, excised: seq<Region>)
    requires |st.keep| <= |bs|
  {
    && (forall k :: 0 <= k < |st.keep| && st.keep[k] ==> !MeetsAny(bs[k], excised))
    && KeptBefore(bs, st) && KeptApart(bs, st.keep)
    && (forall k :: 0 <= k < |st.keep| && !st.keep[k] ==> MeetsAny(bs[k], excised) || BuriedIn(bs, st.keep, bs[k].off))
    && (if st.off < 0 then st.end == 0 else IsLast(bs, st))
  }

  /** The last extent is that of a kept body. */
  ghost predicate IsLast(bs: seq<Body>, st: Sweep) {
    exists k :: 0 <= k < |st.keep| && k < |bs| && st.keep[k] && bs[k].off == st.off && bs[k].end == st.end
  }

  lemma BuriedLater(bs: seq<Body>, keep: seq<bool>, x: int, b: bool)
    requires BuriedIn(bs, keep, x)
    ensures BuriedIn(bs, keep + [b], x)
  {
    var k :| 0 <= k < |keep| && k < |bs| && keep[k] && bs[k].off < x < bs[k].end;
    assert (keep + [b])[k];
  }

  /** Dropped bodies stay accounted for, and the last kept one stays the last. */
  lemma SweptKeeps(bs: seq<Body>, st: Sweep, r: Sweep, excised: seq<Region>)
    requires |st.keep| < |bs| && Swept(bs, st, excised) && |r.keep| == |st.keep| + 1 && (forall k :: 0 <= k < |st.keep| ==> r.keep[k] == st.keep[k])
    ensures forall k :: 0 <= k < |st.keep| && !st.keep[k] ==> MeetsAny(bs[k], excised) || BuriedIn(bs, r.keep, bs[k].off)
    ensures st.off >= 0 && r.off == st.off && r.end == st.end ==> IsLast(bs, r)
  {
    var n := |st.keep|;
    assert r.keep == st.keep + [r.keep[n]];
    forall k | 0 <= k < n && !st.keep[k] ensures MeetsAny(bs[k], excised) || BuriedIn(bs, r.keep, bs[k].off) {
      if BuriedIn(bs, st.keep, bs[k].off) { BuriedLater(bs, st.keep, bs[k].off, r.keep[n]); }
    }
    if st.off >= 0 && r.off == st.off && r.end == st.end {
      var k :| 0 <= k < |st.keep| && k < |bs| && st.keep[k] && bs[k].off == st.off && bs[k].end == st.end;
      assert r.keep[k];
    }
  }

  lemma SweptDrop(bs: seq<Body>, st: Sweep, excised: seq<Region>)
    requires ByOffset(bs) && |st.keep| < |bs| && Swept(bs, st, excised) && st.off <= bs[|st.keep|].off && Clashes(st, bs[|st.keep|], excised)
    ensures Swept(bs, st.(keep := st.keep + [false]), excised)
  {
    var n, r := |st.keep|, st.(keep := st.keep + [false]);
    SweptKeeps(bs, st, r, excised);
    if !MeetsAny(bs[n], excised) {
      var k :| 0 <= k < |r.keep| && k < |bs| && r.keep[k] && bs[k].off == st.off && bs[k].end == st.end;
      assert BuriedIn(bs, r.keep, bs[n].off);
    }
  }

  /** Keeping a body that is the last extent again, or starts after it, keeps the kept ones apart. */
  lemma ApartKeeps(bs: seq<Body>, st: Sweep)
    requires |st.keep| < |bs| && KeptBefore(bs, st) && KeptApart(bs, st.keep)
    requires var b := bs[|st.keep|]; if b.off == st.off then b.end == st.end else st.off < b.off && st.end <= b.off
    ensures KeptApart(bs, st.keep + [true])
  {}

  lemma SweptSame(bs: seq<Body>, st: Sweep, excised: seq<Region>)
    requires ByOffset(bs) && |st.keep| < |bs| && Swept(bs, st, excised) && st.off == bs[|st.keep|].off && !Clashes(st, bs[|st.keep|], excised)
    ensures Swept(bs, st.(keep := st.keep + [true]), excised)
  {
    var n, r := |st.keep|, st.(keep := st.keep + [true]);
    SweptKeeps(bs, st, r, excised);
    assert bs[n].end == st.end by {
      var j :| 0 <= j < |st.keep| && j < |bs| && st.keep[j] && bs[j].off == st.off && bs[j].end == st.end;
      assert bs[j] == bs[n];
    }
    ApartKeeps(bs, st);
  }

  lemma SweptNew(bs: seq<Body>, st: Sweep, excised: seq<Region>)
    requires ByOffset(bs) && |st.keep| < |bs| && Swept(bs, st, excised) && st.off < bs[|st.keep|].off && !Clashes(st, bs[|st.keep|], excised)
    ensures Swept(bs, Sweep(st.keep + [true], bs[|st.keep|].off, bs[|st.keep|].end), excised)
  {
    var n := |st.keep|;
    var r := Sweep(st.keep + [true], bs[n].off, bs[n].end);
    SweptKeeps(bs, st, r, excised);
    assert r.keep[n];
    ApartKeeps(bs, st);
  }

  lemma SweptStep(bs: seq<Body>, st: Sweep, excised: seq<Region>)
    requires ByOffset(bs) && |st.keep| < |bs| && Swept(bs, st, excised) && st.off <= bs[|st.keep|].off
    ensures Swept(bs, SweepOne(st, bs[|st.keep|], excised), excised)
  {
    if Clashes(st, bs[|st.keep|], excised) {
      SweptDrop(bs, st, excised);
    } else if bs[|st.keep|].off != st.off {
      SweptNew(bs, st, excised);
    } else {
      SweptSame(bs, st, excised);
    }
  }

  lemma {:induction false} SweepSwept(bs: seq<Body>, k: nat, excised: seq<Region>)
    requires ByOffset(bs) && k <= |bs|
    ensures Swept(bs, SweepTo(bs, k, excised), excised) && (k < |bs| ==> SweepTo(bs, k, excised).off <= bs[k].off)
    ensures k > 0 ==> SweepTo(bs, k, excised).off <= bs[k - 1].off
  {
    if k > 0 {
      SweepSwept(bs, k - 1, excised);
      SweptStep(bs, SweepTo(bs, k - 1, excised), excised);
    }
  }

  /** The final verdicts: a row is normalized exactly when its tokens are valid, it meets no excised region, and no kept body covers its start. */
  ghost predicate Verdicts(s: seq<Info>, t: seq<Info>, valid: Body -> bool, excised: seq<Region>) {
    && |t| == |s|
    && (forall i :: 0 <= i < |s| ==>
          (t[i].raw <==> s[i].raw || !valid(s[i].body) || MeetsAny(s[i].body, excised) || Buried(t, s[i].body.off)))
    && (forall i :: 0 <= i < |s| && !t[i].raw ==> t[i] == s[i])
  }

  /** Kept bodies at different offsets are disjoint, and none meets an excised region. */
  lemma KeptDisjoint(s: seq<Info>, t: seq<Info>, valid: Body -> bool, excised: seq<Region>)
    requires Verdicts(s, t, valid, excised)
    ensures Disjoint(t) && forall i :: 0 <= i < |t| && !t[i].raw ==> !MeetsAny(t[i].body, excised)
  {
    forall i, j | 0 <= i < |t| && 0 <= j < |t| && !t[i].raw && !t[j].raw && t[i].body.off < t[j].body.off ensures t[i].body.end <= t[j].body.off {
      if t[j].body.off < t[i].body.end { assert Buried(t, s[j].body.off); }
    }
  }

  /** Rows that share a body get the same verdict. */
  lemma SameVerdict(s: seq<Info>, t: seq<Info>, valid: Body -> bool, excised: seq<Region>, i: nat, j: nat)
    requires Physical(s) && Verdicts(s, t, valid, excised) && i < |s| && j < |s| && !s[i].raw && !s[j].raw && s[i].body.off == s[j].body.off
    ensures t[i].raw == t[j].raw
  {}

  lemma OrderedBodies(s: seq<Info>, order: seq<int>, bs: seq<Body>)
    requires Physical(s) && |bs| == |order|
    requires forall k :: 0 <= k < |order| ==> 0 <= order[k] < |s| && !s[order[k]].raw && bs[k] == s[order[k]].body && bs[k].off >= 0
    requires forall k, l :: 0 <= k < l < |order| ==> s[order[k]].body.off <= s[order[l]].body.off
    ensures ByOffset(bs)
  {
    forall k, l | 0 <= k < l < |bs| ensures bs[k].off <= bs[l].off && (bs[k].off == bs[l].off ==> bs[k] == bs[l]) {
      assert s[order[k]].body == bs[k] && s[order[l]].body == bs[l];
    }
  }

  /** `t` is `s` with the rows of `order` that the sweep drops cleared. */
  ghost predicate Cleared(s: seq<Info>, t: seq<Info>, order: seq<int>, keep: seq<bool>) {
    && |t| == |s| && |keep| <= |order|
    && (forall k :: 0 <= k < |order| ==> 0 <= order[k] < |s|)
    && (forall k :: 0 <= k < |keep| ==> t[order[k]] == if keep[k] then s[order[k]] else Info(Body(0, 0, 0), true))
    && (forall i :: 0 <= i < |s| && !(exists k :: 0 <= k < |keep| && order[k] == i) ==> t[i] == s[i])
  }

  lemma ClearedStep(s: seq<Info>, t: seq<Info>, u: seq<Info>, order: seq<int>, keep: seq<bool>, b: bool)
    requires Cleared(s, t, order, keep) && |keep| < |order| && (forall k, l :: 0 <= k < l < |order| ==> order[k] != order[l])
    requires u == t[order[|keep|] := if b then s[order[|keep|]] else Info(Body(0, 0, 0), true)]
    ensures Cleared(s, u, order, keep + [b])
  {
    var n, kp := |keep|, keep + [b];
    forall i | 0 <= i < |s| && !(exists k :: 0 <= k < |kp| && order[k] == i) ensures u[i] == s[i] {
      assert order[n] != i;
      assert forall k :: 0 <= k < |keep| ==> order[k] != i;
    }
  }

  /** Drops every candidate that meets an excised region or starts inside a kept body. */
  method SweepRows(a: array<Info>, excised: seq<Region>, order: seq<int>, ghost bs: seq<Body>) returns (ghost keep: seq<bool>)
    requires |bs| == |order| && (forall k :: 0 <= k < |order| ==> 0 <= order[k] < a.Length && bs[k] == a[order[k]].body)
    requires forall k, l :: 0 <= k < l < |order| ==> order[k] != order[l]
    modifies a
    ensures keep == SweepTo(bs, |bs|, excised).keep && Cleared(old(a[..]), a[..], order, keep)
  {
    ghost var s := a[..];
    var off, end, n := -1, 0, 0;
    keep := [];
    while n < |order|
      invariant 0 <= n <= |order| && SweepTo(bs, n, excised) == Sweep(keep, off, end) && Cleared(s, a[..], order, keep)
    {
      var i := order[n];
      ghost var t := a[..];
      Untouched(s, t, order, keep);
      var b := a[i].body;
      var bad := false;
      var k := 0;
      while k < |excised|
        invariant 0 <= k <= |excised| && (bad <==> exists j :: 0 <= j < k && Meets(b, excised[j]))
      {
        if b.off < excised[k].End() && excised[k].off < b.end {
          bad := true;
        }
        k := k + 1;
      }
      if b.off != off && b.off < end {
        bad := true;
      }
      if bad {
        a[i] := Info(Body(0, 0, 0), true);
      } else if b.off != off {
        off, end := b.off, b.end;
      }
      ClearedStep(s, t, a[..], order, keep, !bad);
      keep := keep + [!bad];
      n := n + 1;
    }
  }

  lemma Untouched(s: seq<Info>, t: seq<Info>, order: seq<int>, keep: seq<bool>)
    requires Cleared(s, t, order, keep) && |keep| < |order| && forall k, l :: 0 <= k < l < |order| ==> order[k] != order[l]
    ensures t[order[|keep|]] == s[order[|keep|]]
  {}

  /** Token checks, then the sweep: the verdict of every row. */
  lemma SweepVerdicts(s: seq<Info>, m: seq<Info>, t: seq<Info>, valid: Body -> bool, excised: seq<Region>, order: seq<int>, bs: seq<Body>, keep: seq<bool>)
    requires Physical(s) && AllChecked(s, m, valid)
    requires |bs| == |order| && (forall k :: 0 <= k < |order| ==> 0 <= order[k] < |m| && !m[order[k]].raw && bs[k] == m[order[k]].body)
    requires forall i :: 0 <= i < |m| && !m[i].raw ==> i in order
    requires ByOffset(bs) && keep == SweepTo(bs, |bs|, excised).keep && Cleared(m, t, order, keep)
    ensures Verdicts(s, t, valid, excised)
  {
    SweepSwept(bs, |bs|, excised);
    forall i | 0 <= i < |s|
      ensures t[i].raw <==> s[i].raw || !valid(s[i].body) || MeetsAny(s[i].body, excised) || Buried(t, s[i].body.off)
      ensures !t[i].raw ==> t[i] == s[i]
    {
      if m[i].raw {
        assert t[i] == m[i];
      } else {
        var k :| 0 <= k < |order| && order[k] == i;
        BuriedRows(m, t, order, bs, keep, s[i].body.off);
      }
    }
  }

  /** A start covered by a kept row is covered by a kept body, and the other way round. */
  lemma BuriedRows(m: seq<Info>, t: seq<Info>, order: seq<int>, bs: seq<Body>, keep: seq<bool>, x: int)
    requires |bs| == |order| == |keep| && Cleared(m, t, order, keep)
    requires forall k :: 0 <= k < |order| ==> 0 <= order[k] < |m| && !m[order[k]].raw && bs[k] == m[order[k]].body
    requires forall i :: 0 <= i < |m| && !m[i].raw ==> i in order
    ensures Buried(t, x) <==> BuriedIn(bs, keep, x)
  {
    if j :| 0 <= j < |t| && !t[j].raw && t[j].body.off < x < t[j].body.end {
      assert !m[j].raw;
      var k :| 0 <= k < |order| && order[k] == j;
      assert keep[k];
    }
    if k :| 0 <= k < |keep| && k < |bs| && keep[k] && bs[k].off < x < bs[k].end {
      assert t[order[k]] == m[order[k]];
    }
  }

  /**
   Decides which rows are normalized. A row stays exactly when it was a candidate with valid
   tokens, meets no excised region, and does not start inside a kept body.
   */
  method Validate(a: array<Info>, valid: Body -> bool, excised: seq<Region>)
    requires Physical(a[..])
    modifies a
    ensures Verdicts(old(a[..]), a[..], valid, excised)
    ensures Disjoint(a[..]) && forall i :: 0 <= i < a.Length && !a[i].raw ==> !MeetsAny(a[i].body, excised)
  {
    ghost var s := a[..];
    CheckTokens(a, valid);
    ghost var m := a[..];
    assert AllChecked(s, m, valid);
    ghost var order, bs, keep := Sift(a, excised);
    SweepVerdicts(s, m, a[..], valid, excised, order, bs, keep);
    KeptDisjoint(s, a[..], valid, excised);
  }

  ghost predicate AllChecked(s: seq<Info>, m: seq<Info>, valid: Body -> bool) {
    |m| == |s| && forall i :: 0 <= i < |s| ==> m[i] == Checked(s[i], valid)
  }

  /** The candidates by offset, and the sweep over them. */
  method Sift(a: array<Info>, excised: seq<Region>) returns (ghost order: seq<int>, ghost bs: seq<Body>, ghost keep: seq<bool>)
    requires Physical(a[..])
    modifies a
    ensures |bs| == |order| && (forall k :: 0 <= k < |order| ==> 0 <= order[k] < a.Length && !old(a[order[k]]).raw && bs[k] == old(a[order[k]]).body)
    ensures forall i :: 0 <= i < a.Length && !old(a[i]).raw ==> i in order
    ensures ByOffset(bs) && keep == SweepTo(bs, |bs|, excised).keep && Cleared(old(a[..]), a[..], order, keep)
  {
    ghost var m := a[..];
    var rows := SortRows(a);
    order := rows;
    bs := seq(|rows|, k requires 0 <= k < |rows| => m[rows[k]].body);
    OrderedBodies(m, rows, bs);
    keep := SweepRows(a, excised, rows, bs);
  }
}
