/**
 What cleaning the naming units amounts to (binref/norm.go, `CleanUnits`): at each mapped
 address that a unit was given for, the largest such unit, cut where the next one begins
 and at the end of its region.
 */
module BinrefUnits {
  import opened Bytes
  import opened Sorting
  import opened BinrefImage
  import opened BinrefNorm

  /** Unit `i` stands for its address: none there is larger, and none as large is listed before it. */
  predicate Leads(units: seq<Unit>, i: int) {
    && 0 <= i < |units|
    && forall j :: 0 <= j < |units| && units[j].va == units[i].va ==> units[j].size < units[i].size || (units[j].size == units[i].size && i <= j)
  }

  /** `end` is the first of: the limit of the region, the next given address, and the end given for the unit. */
  ghost predicate CutAt(units: seq<Unit>, u: Unit, limit: int, end: int) {
    && u.va < end <= limit && (forall v :: v in units && v.va > u.va ==> end <= v.va) && (u.size != 0 ==> end <= u.va + u.size)
    && (end == limit || (u.size != 0 && end == u.va + u.size) || exists v :: v in units && v.va == end)
  }

  /** A cleaned unit comes from given unit `i`. */
  ghost predicate CleanedFrom(regs: seq<Region>, units: seq<Unit>, c: Unit, i: int) {
    && Leads(units, i) && c.va == units[i].va && c.name == units[i].name
    && ScanVA(regs, c.va) >= 0 && CutAt(units, units[i], regs[ScanVA(regs, c.va)].Limit(), c.va + c.size)
  }

  /** `u` is the first of the sorted list at its address. */
  predicate FirstAt(s: seq<Unit>, u: Unit) {
    exists k :: 0 <= k < |s| && s[k] == u && forall l :: 0 <= l < k ==> s[l].va < u.va
  }

  lemma FirstMore(s: seq<Unit>, n: nat, u: Unit)
    requires n < |s| && FirstAt(s[..n], u)
    ensures FirstAt(s[..n + 1], u)
  {
    var k :| 0 <= k < n && s[..n][k] == u && forall l :: 0 <= l < k ==> s[..n][l].va < u.va;
    assert s[..n + 1][k] == u && forall l :: 0 <= l < k ==> s[..n + 1][l] == s[..n][l];
  }

  lemma {:induction false} DedupFirst(s: seq<Unit>, n: nat)
    requires ByAddress(s) && n <= |s|
    ensures forall j {:trigger Dedup(s[..n])[j]} :: 0 <= j < |Dedup(s[..n])| ==> FirstAt(s[..n], Dedup(s[..n])[j])
  {
    if n > 0 {
      assert s[..n][..n - 1] == s[..n - 1];
      DedupFirst(s, n - 1);
      DedupAscends(s[..n - 1]);
      var d, e := Dedup(s[..n - 1]), Dedup(s[..n]);
      forall j | 0 <= j < |e| ensures FirstAt(s[..n], e[j]) {
        if j < |d| {
          FirstMore(s, n - 1, d[j]);
        } else {
          assert s[..n][n - 1] == e[j];
          assert forall l :: 0 <= l < n - 1 ==> s[l].va <= s[n - 2].va < s[n - 1].va;
        }
      }
    }
  }

  /** The first unit at an address leads it. */
  lemma FirstLeads(units: seq<Unit>, u: Unit) returns (i: nat)
    requires FirstAt(SortBy(UnitKey, units), u)
    ensures i < |units| && units[i] == u && Leads(units, i)
  {
    var s := SortBy(UnitKey, units);
    var k :| 0 <= k < |s| && s[k] == u && forall l :: 0 <= l < k ==> s[l].va < u.va;
    var x := UnitKey(u);
    FirstSame(UnitKey, x, s, k);
    SortStable(UnitKey, x, units);
    i := SameFirst(UnitKey, x, units);
    forall j | 0 <= j < |units| && units[j].va == u.va
      ensures units[j].size < u.size || (units[j].size == u.size && i <= j)
    {
      SameElements(s, units, units[j]);
      var l :| 0 <= l < |s| && s[l] == units[j];
      assert l >= k && UnitKey(s[k]) <= UnitKey(s[l]);
    }
  }

  /** The next address of the deduplicated list is the next given one. */
  lemma NextGiven(units: seq<Unit>, d: seq<Unit>, i: nat, v: Unit)
    requires d == Dedup(SortBy(UnitKey, units)) && i < |d| && v in units && v.va > d[i].va
    ensures i + 1 < |d| && d[i].va < d[i + 1].va <= v.va
  {
    var s := SortBy(UnitKey, units);
    SortUnits(units);
    DedupAscends(s);
    SameElements(s, units, v);
    var k :| 0 <= k < |s| && s[k] == v;
    var j := DedupKeeps(s, k);
    assert j > i;
  }

  lemma {:induction false} DedupFrom(s: seq<Unit>, u: Unit)
    requires u in Dedup(s)
    ensures u in s
  {
    var n := |s| - 1;
    if u in Dedup(s[..n]) { DedupFrom(s[..n], u); }
  }

  lemma EndCut(regs: seq<Region>, idx: seq<int>, units: seq<Unit>, d: seq<Unit>, i: nat)
    requires Indexed(regs, idx) && d == Dedup(SortBy(UnitKey, units)) && i < |d| && ScanVA(regs, d[i].va) >= 0
    ensures CutAt(units, d[i], regs[ScanVA(regs, d[i].va)].Limit(), UnitEnd(regs, d, i))
  {
    var s := SortBy(UnitKey, units);
    SortUnits(units);
    DedupAscends(s);
    UnitEndPlace(regs, idx, d, i);
    var ri := ScanVA(regs, d[i].va);
    var k :| 0 <= k < |idx| && idx[k] == ri;
    forall v | v in units && v.va > d[i].va ensures UnitEnd(regs, d, i) <= v.va { NextGiven(units, d, i, v); }
    if i + 1 < |d| {
      DedupFrom(s, d[i + 1]);
      SameElements(s, units, d[i + 1]);
    }
  }

  ghost predicate AllCleaned(regs: seq<Region>, units: seq<Unit>, out: seq<Unit>) {
    forall k {:trigger out[k]} :: 0 <= k < |out| ==> Cleaned(regs, units, out[k])
  }

  ghost predicate Cleaned(regs: seq<Region>, units: seq<Unit>, c: Unit) { exists i :: CleanedFrom(regs, units, c, i) }

  lemma {:induction false} ClipFrom(regs: seq<Region>, idx: seq<int>, units: seq<Unit>, d: seq<Unit>, n: nat)
    requires Indexed(regs, idx) && d == Dedup(SortBy(UnitKey, units)) && n <= |d| && Ascending(d)
    ensures AllCleaned(regs, units, ClipUnits(regs, d, n))
  {
    if n > 0 {
      ClipFrom(regs, idx, units, d, n - 1);
      if ScanVA(regs, d[n - 1].va) >= 0 {
        UnitEndPlace(regs, idx, d, n - 1);
        UnitFrom(regs, idx, units, d, n - 1, d[n - 1].(size := UnitEnd(regs, d, n - 1) - d[n - 1].va));
      }
    }
  }

  lemma UnitFrom(regs: seq<Region>, idx: seq<int>, units: seq<Unit>, d: seq<Unit>, i: nat, c: Unit)
    requires Indexed(regs, idx) && d == Dedup(SortBy(UnitKey, units)) && i < |d| && ScanVA(regs, d[i].va) >= 0 && Ascending(d)
    requires UnitEnd(regs, d, i) > d[i].va && c == d[i].(size := UnitEnd(regs, d, i) - d[i].va)
    ensures Cleaned(regs, units, c)
  {
    var s := SortBy(UnitKey, units);
    SortUnits(units);
    DedupFirst(s, |s|);
    assert s[..|s|] == s;
    var j := FirstLeads(units, d[i]);
    EndCut(regs, idx, units, d, i);
    assert CleanedFrom(regs, units, c, j);
  }

  /** Each cleaned unit is a leading given one, cut; with `CleanUnitsClean` this determines the cleaned units. */
  lemma CleanUnitsFrom(regs: seq<Region>, idx: seq<int>, units: seq<Unit>)
    requires Indexed(regs, idx)
    ensures AllCleaned(regs, units, CleanUnits(regs, units))
  {
    var d := Dedup(SortBy(UnitKey, units));
    SortUnits(units);
    DedupAscends(SortBy(UnitKey, units));
    ClipFrom(regs, idx, units, d, |d|);
  }
}
