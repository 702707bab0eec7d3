/**
 The selection policies (admission/policy.go): the membership bitset, greedy choice, the
 branch-and-bound oracle, the beam lookahead and the replay of a case under a policy.
 */
module AdmissionPolicy {
  import opened Bytes
  import opened Sorting
  import opened AdmissionModel

  // ---- the bitset ----

  /** `w >> k & 1`. */
  function Bit(w: nat, k: nat): bool { if k == 0 then w % 2 == 1 else Bit(w / 2, k - 1) }

  /** `w | 1 << k`. */
  function SetBit(w: nat, k: nat): nat {
    if k == 0 then (if w % 2 == 1 then w else w + 1) else 2 * SetBit(w / 2, k - 1) + w % 2
  }

  lemma {:induction false} SetBitBits(w: nat, k: nat, j: nat)
    ensures Bit(SetBit(w, k), j) <==> j == k || Bit(w, j)
  {
    if k > 0 && j > 0 {
      SetBitBits(w / 2, k - 1, j - 1);
      assert SetBit(w, k) / 2 == SetBit(w / 2, k - 1);
    } else if k == 0 && j > 0 {
      assert SetBit(w, 0) / 2 == w / 2;
    }
  }

  lemma {:induction false} SetBitFits(w: nat, k: nat, n: nat)
    requires k < n && w < Pow2(n)
    ensures SetBit(w, k) < Pow2(n)
  {
    var h, m := w / 2, Pow2(n - 1);
    assert w == 2 * h + w % 2 && Pow2(n) == 2 * m;
    if k > 0 { SetBitFits(h, k - 1, n - 1); }
  }

  lemma {:induction false} ZeroBits(k: nat)
    ensures !Bit(0, k)
  {
    if k > 0 { ZeroBits(k - 1); }
  }

  /** A set of the first `n` object ids, one bit each, changed in place. */
  class Bits {
    const n: nat
    var w: seq<u64>

    ghost predicate Valid()
      reads this
    {
      |w| == (n + 63) / 64
    }

    predicate Has(i: nat)
      requires Valid() && i < n
      reads this
    {
      Bit(w[i / 64], i % 64)
    }

    ghost function Members(): set<int>
      requires Valid()
      reads this
    {
      set i: int | 0 <= i < n && Has(i)
    }

    constructor (n: nat)
      ensures Valid() && this.n == n && Members() == {}
    {
      this.n := n;
      this.w := seq((n + 63) / 64, _ => 0);
      new;
      forall i | 0 <= i < n ensures !Has(i) {
        ZeroBits(i % 64);
      }
    }

    method Add(i: nat)
      requires Valid() && i < n
      modifies this
      ensures Valid() && Members() == old(Members()) + {i}
    {
      Pow2Word();
      SetBitFits(w[i / 64], i % 64, 64);
      w := w[i / 64 := SetBit(w[i / 64], i % 64)];
      forall j | 0 <= j < n ensures Has(j) <==> j == i || old(Has(j)) {
        if j / 64 == i / 64 {
          SetBitBits(old(w[i / 64]), i % 64, j % 64);
        }
      }
    }

    method Clone() returns (b: Bits)
      requires Valid()
      ensures fresh(b) && b.Valid() && b.n == n && b.Members() == Members()
    {
      b := new Bits(n);
      b.w := w;
      assert forall i | 0 <= i < n :: b.Has(i) <==> Has(i);
    }
  }

  /** The bitset holds exactly the objects in `s`. */
  ghost predicate Holds(c: Corpus, have: Bits, s: set<int>)
    reads have
  {
    have.Valid() && have.n == |c.objects| && have.Members() == s
  }

  /** The bytes that choosing `p` adds. */
  method CostOf(c: Corpus, p: Candidate, have: Bits) returns (n: int)
    requires c.Valid() && ValidObjects(c, p.objects) && have.Valid() && have.n == |c.objects|
    ensures n == Cost(c, p, have.Members())
  {
    n := 0;
    var k := 0;
    while k < |p.objects|
      invariant 0 <= k <= |p.objects| && n == CostTo(c, p.objects, k, have.Members())
    {
      if !have.Has(p.objects[k]) {
        n := n + c.objects[p.objects[k]].packed + c.overhead;
      }
      k := k + 1;
    }
  }

  method Apply(c: Corpus, p: Candidate, have: Bits)
    requires ValidObjects(c, p.objects) && have.Valid() && have.n == |c.objects|
    modifies have
    ensures have.Valid() && have.Members() == old(have.Members()) + IdSet(p)
  {
    var k := 0;
    while k < |p.objects|
      invariant 0 <= k <= |p.objects| && have.Valid() && have.Members() == old(have.Members()) + Ids(p.objects, k)
    {
      have.Add(p.objects[k]);
      k := k + 1;
    }
  }

  /** The index of the fallback candidate. */
  method Cdc(c: Corpus, s: Stage) returns (i: nat)
    requires ValidStage(c, s)
    ensures i < |s.candidates| && s.candidates[i].name == "cdc"
  {
    i := 0;
    while s.candidates[i].name != "cdc"
      invariant i < |s.candidates|
      invariant forall k :: 0 <= k < i ==> s.candidates[k].name != "cdc"
      decreases |s.candidates| - i
    {
      assert i + 1 < |s.candidates| by {
        var k :| 0 <= k < |s.candidates| && s.candidates[k].name == "cdc";
      }
      i := i + 1;
    }
  }

  /** The fallback unless something is cheaper; otherwise the first of the cheapest. */
  ghost predicate GreedyPick(c: Corpus, s: Stage, have: set<int>, best: int)
    requires c.Valid()
  {
    && 0 <= best < |s.candidates|
    && (forall k :: 0 <= k < |s.candidates| ==> Cost(c, s.candidates[best], have) <= Cost(c, s.candidates[k], have))
    && (s.candidates[best].name != "cdc" ==>
          forall k :: 0 <= k < |s.candidates| && (k < best || s.candidates[k].name == "cdc") ==>
            Cost(c, s.candidates[best], have) < Cost(c, s.candidates[k], have))
  }

  /** There is only one such candidate. */
  lemma GreedyUnique(c: Corpus, s: Stage, have: set<int>, i: int, j: int)
    requires c.Valid() && ValidStage(c, s) && GreedyPick(c, s, have, i) && GreedyPick(c, s, have, j)
    ensures i == j
  {
    assert Cost(c, s.candidates[i], have) == Cost(c, s.candidates[j], have);
  }

  /** The greedy candidate: a scan that starts from the fallback. */
  method Greedy(c: Corpus, s: Stage, have: Bits) returns (best: nat)
    requires c.Valid() && ValidStage(c, s) && have.Valid() && have.n == |c.objects|
    ensures GreedyPick(c, s, have.Members(), best)
  {
    best := Cdc(c, s);
    ghost var h, dc := have.Members(), best;
    var i := 0;
    while i < |s.candidates|
      invariant 0 <= i <= |s.candidates| && best < |s.candidates|
      invariant forall k :: 0 <= k < i ==> Cost(c, s.candidates[best], h) <= Cost(c, s.candidates[k], h)
      invariant Cost(c, s.candidates[best], h) <= Cost(c, s.candidates[dc], h)
      invariant best == dc || (best < i && forall k :: k == dc || 0 <= k < best ==> Cost(c, s.candidates[best], h) < Cost(c, s.candidates[k], h))
    {
      var x := CostOf(c, s.candidates[i], have);
      var y := CostOf(c, s.candidates[best], have);
      if x < y {
        best := i;
      }
      i := i + 1;
    }
    assert forall k :: 0 <= k < |s.candidates| && s.candidates[k].name == "cdc" ==> k == dc;
  }

  // ---- the oracle ----

  class Search {
    const c: Corpus
    const f: Case
    const cap: int
    const upper: int
    var cost: int
    var choices: Option<seq<int>>
    var states: nat
    var exact: bool

    constructor (c: Corpus, f: Case, cap: int, upper: int)
      ensures this.c == c && this.f == f && this.cap == cap && this.upper == upper
      ensures cost == upper && choices == None && states == 0 && exact
    {
      this.c, this.f, this.cap, this.upper := c, f, cap, upper;
      cost, choices, states, exact := upper, None, 0, true;
    }

    /** The best cost so far is that of some full choice sequence, the recorded one if there is one. */
    ghost predicate Valid()
      reads this
    {
      && ValidCase(c, f)
      && Attained(c, f, cost) && cost <= upper
      && (choices.Some? ==> Full(f, choices.value) && Total(c, f, choices.value) == cost)
      && (if exact then states <= Max(cap, 0) else states == Max(cap, 0) + 1)
    }

    /** Every completion of `path` is known not to beat the best; not even to match it while none is recorded. */
    ghost predicate Settled(path: seq<int>)
      requires ValidCase(c, f)
      reads this
    {
      Bounded(c, f, path, cost, choices.None?)
    }

    /** The search only improves: from an earlier best `cost0`, recorded or not. */
    ghost predicate Improves(cost0: int, none0: bool)
      reads this
    {
      cost <= cost0 && (choices.None? ==> none0 && cost == cost0)
    }

    ghost predicate SettledBelow(path: seq<int>, order: seq<int>, k: nat)
      requires ValidCase(c, f) && k <= |order|
      reads this
    {
      AllBounded(c, f, path, order, k, cost, choices.None?)
    }

    lemma PruneSettles(path: seq<int>)
      requires ValidCase(c, f) && Path(f, path) && Total(c, f, path) > cost
      ensures Settled(path)
    {
      forall ch | Full(f, ch) && Extends(ch, path) ensures Total(c, f, ch) > cost {
        PrefixBound(c, f, ch, path);
      }
    }

    lemma LeafSettles(path: seq<int>)
      requires ValidCase(c, f) && Full(f, path) && Total(c, f, path) == cost && choices.Some?
      ensures Settled(path) && Attained(c, f, cost)
    {
      forall ch | Full(f, ch) && Extends(ch, path) ensures ch == path {}
    }

    /** Explores every completion of `path`, whose cost is `spent` and whose objects are in `have`. */
    method Explore(at: nat, spent: int, have: Bits, path: seq<int>)
      requires Valid() && exact && at == |path| && Path(f, path)
      requires spent == Total(c, f, path) && Holds(c, have, Stored(f, path, at))
      modifies this
      ensures Valid() && Improves(old(cost), old(choices.None?)) && old(states) < states <= old(states) + Visits(c, f, path, upper)
      ensures exact ==> Settled(path)
      decreases |f| - at, 2, 0
    {
      states := states + 1;
      if states > cap {
        exact := false;
        return;
      }
      if spent > cost {
        PruneSettles(path);
        return;
      }
      if at == |f| {
        cost := spent;
        choices := Some(path);
        LeafSettles(path);
        return;
      }
      ExploreAll(at, spent, have, path);
    }

    /** The candidates of one stage, cheapest first, until the cap is reached. */
    method ExploreAll(at: nat, spent: int, have: Bits, path: seq<int>)
      requires Valid() && exact && at == |path| < |f| && Path(f, path)
      requires spent == Total(c, f, path) && Holds(c, have, Stored(f, path, at))
      modifies this
      ensures Valid() && Improves(old(cost), old(choices.None?))
      ensures old(states) <= states <= old(states) + VisitsTo(c, f, path, upper, |f[at].candidates|)
      ensures exact ==> Settled(path)
      decreases |f| - at, 1, 1
    {
      assert ValidStage(c, f[at]);
      var order := Order(c, f[at], have);
      ghost var g := VisitsBelow(c, f, path, upper);
      var k := 0;
      while k < |order|
        invariant 0 <= k <= |order| && exact && Valid() && Improves(old(cost), old(choices.None?))
        invariant old(states) <= states <= old(states) + SumOver(order[..k], g)
        invariant SettledBelow(path, order, k)
      {
        SumTo(order, k, g);
        ExploreNext(at, spent, have, path, order, k);
        if !exact {
          VisitsInOrder(c, f, path, upper, order, k + 1);
          return;
        }
        k := k + 1;
      }
      VisitsInOrder(c, f, path, upper, order, k);
      SettledByChildren(path, order);
    }

    method ExploreNext(at: nat, spent: int, have: Bits, path: seq<int>, order: seq<int>, k: nat)
      requires Valid() && exact && at == |path| < |f| && Path(f, path) && k < |order| && 0 <= order[k] < |f[at].candidates|
      requires spent == Total(c, f, path) && Holds(c, have, Stored(f, path, at)) && SettledBelow(path, order, k)
      modifies this
      ensures Valid() && Improves(old(cost), old(choices.None?))
      ensures old(states) <= states <= old(states) + VisitsBelow(c, f, path, upper)(order[k])
      ensures exact ==> SettledBelow(path, order, k + 1)
      decreases |f| - at, 1, 0
    {
      ghost var cost0, none0 := cost, choices.None?;
      ExploreChild(at, spent, have, path, order[k]);
      StillBounded(c, f, path, order, k, cost0, none0, cost, choices.None?);
    }

    method ExploreChild(at: nat, spent: int, have: Bits, path: seq<int>, i: int)
      requires Valid() && exact && at == |path| < |f| && Path(f, path) && 0 <= i < |f[at].candidates|
      requires spent == Total(c, f, path) && Holds(c, have, Stored(f, path, at))
      modifies this
      ensures Valid() && Improves(old(cost), old(choices.None?)) && Path(f, path + [i])
      ensures old(states) < states <= old(states) + Visits(c, f, path + [i], upper)
      ensures exact ==> Settled(path + [i])
      decreases |f| - at, 0, 0
    {
      assert ValidStage(c, f[at]);
      var p := f[at].candidates[i];
      var n := CostOf(c, p, have);
      var next := have.Clone();
      Apply(c, p, next);
      PathSnoc(c, f, path, i);
      Explore(at + 1, spent + n, next, path + [i]);
    }

    lemma SettledByChildren(path: seq<int>, order: seq<int>)
      requires ValidCase(c, f) && Path(f, path) && |path| < |f|
      requires forall i :: 0 <= i < |f[|path|].candidates| ==> i in order
      requires SettledBelow(path, order, |order|)
      ensures Settled(path)
    {
      forall ch | Full(f, ch) && Extends(ch, path)
        ensures Total(c, f, ch) >= cost && (choices.None? ==> Total(c, f, ch) > cost)
      {
        var i := ch[|path|];
        assert i in order;
        var j :| 0 <= j < |order| && order[j] == i;
        assert Extends(ch, path + [order[j]]);
      }
    }
  }

  /** The visits below each choice at `path`. */
  ghost function VisitsBelow(c: Corpus, f: Case, path: seq<int>, upper: int): int -> nat
    requires ValidCase(c, f) && Path(f, path) && |path| < |f|
  {
    (i: int) => if 0 <= i < |f[|path|].candidates| then Visits(c, f, path + [i], upper) else 0
  }

  lemma {:induction false} VisitsListed(c: Corpus, f: Case, path: seq<int>, upper: int, all: seq<int>, k: nat)
    requires ValidCase(c, f) && Path(f, path) && |path| < |f| && k <= |all| == |f[|path|].candidates|
    requires forall i :: 0 <= i < |all| ==> all[i] == i
    ensures SumOver(all[..k], VisitsBelow(c, f, path, upper)) == VisitsTo(c, f, path, upper, k)
  {
    if k > 0 {
      VisitsListed(c, f, path, upper, all, k - 1);
      SumSnoc(all[..k - 1], k - 1, VisitsBelow(c, f, path, upper));
      assert all[..k] == all[..k - 1] + [k - 1];
    }
  }

  /** In any order, the choices at `path` take no more visits than all of them together. */
  lemma VisitsInOrder(c: Corpus, f: Case, path: seq<int>, upper: int, order: seq<int>, k: nat)
    requires ValidCase(c, f) && Path(f, path) && |path| < |f| && k <= |order| == |f[|path|].candidates|
    requires multiset(order) == multiset(seq(|f[|path|].candidates|, i => i))
    ensures SumOver(order[..k], VisitsBelow(c, f, path, upper)) <= VisitsTo(c, f, path, upper, |order|)
  {
    var g, all := VisitsBelow(c, f, path, upper), seq(|order|, i => i);
    SumConcat(order[..k], order[k..], g);
    assert order == order[..k] + order[k..] && all[..|all|] == all;
    SumPermuted(order, all, g);
    VisitsListed(c, f, path, upper, all, |all|);
  }

  function Max(a: int, b: int): int { if a > b then a else b }

  /** No sequence of choices through `path` costs less than `cost`, or even that much when `cost` is attained by none. */
  ghost predicate Bounded(c: Corpus, f: Case, path: seq<int>, cost: int, none: bool)
    requires ValidCase(c, f)
  {
    forall ch :: Full(f, ch) && Extends(ch, path) ==> Total(c, f, ch) >= cost && (none ==> Total(c, f, ch) > cost)
  }

  ghost predicate AllBounded(c: Corpus, f: Case, path: seq<int>, order: seq<int>, k: nat, cost: int, none: bool)
    requires ValidCase(c, f) && k <= |order|
  {
    forall j :: 0 <= j < k ==> Bounded(c, f, path + [order[j]], cost, none)
  }

  lemma StillBounded(c: Corpus, f: Case, path: seq<int>, order: seq<int>, k: nat, cost0: int, none0: bool, cost: int, none: bool)
    requires ValidCase(c, f) && k <= |order| && AllBounded(c, f, path, order, k, cost0, none0)
    requires cost <= cost0 && (none ==> none0 && cost == cost0)
    ensures AllBounded(c, f, path, order, k, cost, none)
  {
    forall j | 0 <= j < k ensures Bounded(c, f, path + [order[j]], cost, none) {
      assert Bounded(c, f, path + [order[j]], cost0, none0);
    }
  }

  ghost predicate Attained(c: Corpus, f: Case, cost: int)
    requires c.Valid()
  {
    exists ch :: Full(f, ch) && Total(c, f, ch) == cost
  }

  /** The candidates of a stage, cheapest first. */
  method Order(c: Corpus, s: Stage, have: Bits) returns (order: seq<int>)
    requires c.Valid() && ValidStage(c, s) && have.Valid() && have.n == |c.objects|
    ensures |order| == |s.candidates| && forall k :: 0 <= k < |order| ==> 0 <= order[k] < |s.candidates|
    ensures multiset(order) == multiset(seq(|s.candidates|, i => i)) && forall i :: 0 <= i < |s.candidates| ==> i in order
    ensures forall j, k :: 0 <= j < k < |order| ==>
      Cost(c, s.candidates[order[j]], have.Members()) <= Cost(c, s.candidates[order[k]], have.Members())
  {
    var costs: seq<int> := [];
    var i := 0;
    while i < |s.candidates|
      invariant 0 <= i <= |s.candidates| && |costs| == i
      invariant forall k :: 0 <= k < i ==> costs[k] == Cost(c, s.candidates[k], have.Members())
    {
      var x := CostOf(c, s.candidates[i], have);
      costs := costs + [x];
      i := i + 1;
    }
    var all := seq(|costs|, k => k);
    var key := (k: int) => if 0 <= k < |costs| then costs[k] else 0;
    order := SortBy(key, all);
    SameRange(order, all);
    assert all == seq(|s.candidates|, i => i);
    forall j, k | 0 <= j < k < |order|
      ensures Cost(c, s.candidates[order[j]], have.Members()) <= Cost(c, s.candidates[order[k]], have.Members())
    {
      assert key(order[j]) <= key(order[k]);
    }
  }

  lemma SameRange(order: seq<int>, all: seq<int>)
    requires multiset(order) == multiset(all) && forall k :: 0 <= k < |all| ==> all[k] == k
    ensures forall k :: 0 <= k < |order| ==> 0 <= order[k] < |all|
    ensures forall i :: 0 <= i < |all| ==> i in order
  {
    forall k | 0 <= k < |order| ensures 0 <= order[k] < |all| {
      SameElements(order, all, order[k]);
    }
    forall x | 0 <= x < |all| ensures x in order {
      SameElements(order, all, x);
      assert all[x] == x;
    }
  }

  datatype OracleResult = OracleResult(cost: int, choices: Option<seq<int>>, states: nat, exact: bool)

  /** Every stage's choice is the greedy one, given what the earlier ones have stored. */
  ghost predicate GreedyPath(c: Corpus, f: Case, ch: seq<int>)
    requires c.Valid()
  {
    Path(f, ch) && forall k {:trigger GreedyAt(c, f, ch, k)} :: 0 <= k < |ch| ==> GreedyAt(c, f, ch, k)
  }

  ghost predicate GreedyAt(c: Corpus, f: Case, ch: seq<int>, k: nat)
    requires c.Valid() && Path(f, ch) && k < |ch|
  {
    GreedyPick(c, f[k], Stored(f, ch, k), ch[k])
  }

  lemma GreedySnoc(c: Corpus, f: Case, ch: seq<int>, i: int)
    requires c.Valid() && GreedyPath(c, f, ch) && |ch| < |f| && GreedyPick(c, f[|ch|], Stored(f, ch, |ch|), i)
    ensures GreedyPath(c, f, ch + [i])
  {
    var x := ch + [i];
    forall k | 0 <= k < |x| ensures GreedyAt(c, f, x, k) {
      StoredAgree(f, x, ch, k);
      if k < |ch| { assert GreedyAt(c, f, ch, k); }
    }
  }

  /** One stage of the greedy run. */
  method GreedyNext(c: Corpus, f: Case, at: nat, have: Bits, upper: int, ghost ch: seq<int>) returns (total: int, ghost next: seq<int>)
    requires ValidCase(c, f) && GreedyPath(c, f, ch) && at == |ch| < |f| && upper == Total(c, f, ch)
    requires Holds(c, have, Stored(f, ch, |ch|))
    modifies have
    ensures GreedyPath(c, f, next) && |next| == |ch| + 1 && total == Total(c, f, next)
    ensures Holds(c, have, Stored(f, next, |next|))
  {
    assert ValidStage(c, f[at]);
    var s := f[at];
    var i := Greedy(c, s, have);
    var n := CostOf(c, s.candidates[i], have);
    PathSnoc(c, f, ch, i);
    GreedySnoc(c, f, ch, i);
    Apply(c, s.candidates[i], have);
    total, next := upper + n, ch + [i];
  }

  /** Runs every stage greedily: the cost of an actual choice sequence. */
  method GreedyRun(c: Corpus, f: Case) returns (upper: int, ghost ch: seq<int>)
    requires ValidCase(c, f)
    ensures Full(f, ch) && GreedyPath(c, f, ch) && upper == Total(c, f, ch)
  {
    var have := new Bits(|c.objects|);
    upper, ch := 0, [];
    var at := 0;
    while at < |f|
      invariant 0 <= at <= |f| && |ch| == at && Path(f, ch) && upper == Total(c, f, ch)
      invariant Holds(c, have, Stored(f, ch, at)) && fresh(have) && GreedyPath(c, f, ch)
    {
      upper, ch := GreedyNext(c, f, at, have, upper, ch);
      at := at + 1;
    }
  }

  /**
   Branch and bound. When it finishes within its cap, the cost is the minimum over all choice
   sequences and `choices` attains it; otherwise the cost is still that of some sequence, and it
   has visited exactly one state more than the cap. It looks below a prefix only while the prefix
   costs no more than the greedy run; so a cap of all the prefixes there are is always enough.
   */
  method Oracle(c: Corpus, f: Case, cap: int) returns (r: OracleResult)
    requires ValidCase(c, f)
    ensures Attained(c, f, r.cost)
    ensures r.choices.Some? ==> Full(f, r.choices.value) && Total(c, f, r.choices.value) == r.cost
    ensures r.exact ==> r.choices.Some? && forall ch :: Full(f, ch) ==> r.cost <= Total(c, f, ch)
    ensures if r.exact then r.states <= cap else r.states == Max(cap, 0) + 1
    ensures exists g :: Full(f, g) && GreedyPath(c, f, g) && r.cost <= Total(c, f, g) && r.states <= Visits(c, f, [], Total(c, f, g))
    ensures r.states <= Prefixes(f, |f|)
    ensures cap >= Prefixes(f, |f|) ==> r.exact
  {
    var upper;
    ghost var greedy;
    upper, greedy := GreedyRun(c, f);
    var s := new Search(c, f, cap, upper);
    var none := new Bits(|c.objects|);
    assert s.Valid();
    s.Explore(0, 0, none, []);
    assert Extends(greedy, []);
    forall ch | Full(f, ch) && s.exact ensures s.cost <= Total(c, f, ch) {
      assert Extends(ch, []);
    }
    VisitsFew(c, f, upper);
    r := OracleResult(s.cost, s.choices, s.states, s.exact);
  }

  lemma VisitsFew(c: Corpus, f: Case, upper: int)
    requires ValidCase(c, f)
    ensures Visits(c, f, [], upper) <= Prefixes(f, |f|)
  {
    VisitsBound(c, f, [], upper);
    NodesArePrefixes(f, 0);
    TimesOne(Nodes(f, 0));
  }
}
