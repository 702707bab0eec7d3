/**
 Candidate selection with shared objects (admission/schema.go, admission/policy.go): what a
 choice sequence costs, and why that is the weight of the union of the chosen objects.
 */
module AdmissionModel {
  import opened Bytes

  const MAX_OBJECTS := 2_000_000
  const MAX_RAW := 0x800_0000
  const MAX_OVERHEAD := 4096
  const MAX_STAGES := 64
  const MAX_CANDIDATES := 8

  datatype Object = Object(raw: int, packed: int)

  datatype Candidate = Candidate(name: string, objects: seq<int>)

  datatype Stage = Stage(candidates: seq<Candidate>)

  type Case = seq<Stage>

  datatype Corpus = Corpus(overhead: int, objects: seq<Object>) {
    predicate Valid() {
      && |objects| <= MAX_OBJECTS && 0 <= overhead <= MAX_OVERHEAD
      && forall i :: 0 <= i < |objects| ==> 0 <= objects[i].packed <= objects[i].raw <= MAX_RAW
    }

    /** What storing an object costs the first time. */
    function Weight(id: int): (w: nat)
      requires Valid()
      ensures w <= MAX_RAW + MAX_OVERHEAD
    {
      if 0 <= id < |objects| then objects[id].packed + overhead else 0
    }
  }

  /** Object ids are strictly increasing and in range. */
  predicate ValidObjects(c: Corpus, ids: seq<int>) {
    && (forall k :: 0 <= k < |ids| ==> 0 <= ids[k] < |c.objects|)
    && (forall k, l :: 0 <= k < l < |ids| ==> ids[k] < ids[l])
  }

  predicate ValidStage(c: Corpus, s: Stage) {
    && 1 <= |s.candidates| <= MAX_CANDIDATES
    && (forall k :: 0 <= k < |s.candidates| ==> ValidObjects(c, s.candidates[k].objects))
    && (forall k, l :: 0 <= k < l < |s.candidates| ==> s.candidates[k].name != s.candidates[l].name)
    && (exists k :: 0 <= k < |s.candidates| && s.candidates[k].name == "cdc")
  }

  predicate ValidCase(c: Corpus, f: Case) {
    && c.Valid() && 1 <= |f| <= MAX_STAGES
    && (forall k :: 0 <= k < |f| ==> ValidStage(c, f[k]))
  }

  // ---- weights ----

  /** The total weight of the ids below `n` in `s`. */
  function SetWeight(c: Corpus, s: set<int>, n: nat): nat
    requires c.Valid()
  {
    if n == 0 then 0 else SetWeight(c, s, n - 1) + (if n - 1 in s then c.Weight(n - 1) else 0)
  }

  function WeightOf(c: Corpus, s: set<int>): nat
    requires c.Valid()
  {
    SetWeight(c, s, |c.objects|)
  }

  lemma {:induction false} SetWeightAdd(c: Corpus, s: set<int>, x: int, n: nat)
    requires c.Valid() && x !in s
    ensures SetWeight(c, s + {x}, n) == SetWeight(c, s, n) + (if 0 <= x < n then c.Weight(x) else 0)
  {
    if n > 0 { SetWeightAdd(c, s, x, n - 1); }
  }

  lemma {:induction false} SetWeightMono(c: Corpus, s: set<int>, t: set<int>, n: nat)
    requires c.Valid() && s <= t
    ensures SetWeight(c, s, n) <= SetWeight(c, t, n)
  {
    if n > 0 { SetWeightMono(c, s, t, n - 1); }
  }

  lemma {:induction false} SetWeightBound(c: Corpus, s: set<int>, n: nat)
    requires c.Valid()
    ensures SetWeight(c, s, n) <= n * (MAX_RAW + MAX_OVERHEAD)
  {
    if n > 0 { SetWeightBound(c, s, n - 1); }
  }

  /** Every total fits a signed 64-bit integer. */
  lemma WeightFits(c: Corpus, s: set<int>)
    requires c.Valid()
    ensures WeightOf(c, s) < B63
  {
    SetWeightBound(c, s, |c.objects|);
  }

  /** The first `k` ids. */
  function Ids(ids: seq<int>, k: nat): set<int>
    requires k <= |ids|
  {
    if k == 0 then {} else Ids(ids, k - 1) + {ids[k - 1]}
  }

  function IdSet(p: Candidate): set<int> { Ids(p.objects, |p.objects|) }

  lemma {:induction false} IdsElements(ids: seq<int>, k: nat, x: int)
    requires k <= |ids|
    ensures x in Ids(ids, k) <==> exists i :: 0 <= i < k && ids[i] == x
  {
    if k > 0 {
      IdsElements(ids, k - 1, x);
    }
  }

  /** The cost of the first `k` ids: each one not yet stored is charged. */
  function CostTo(c: Corpus, ids: seq<int>, k: nat, have: set<int>): nat
    requires c.Valid() && k <= |ids|
  {
    if k == 0 then 0 else CostTo(c, ids, k - 1, have) + (if ids[k - 1] in have then 0 else c.Weight(ids[k - 1]))
  }

  function Cost(c: Corpus, p: Candidate, have: set<int>): nat
    requires c.Valid()
  {
    CostTo(c, p.objects, |p.objects|, have)
  }

  lemma {:induction false} CostToWeight(c: Corpus, ids: seq<int>, k: nat, have: set<int>)
    requires c.Valid() && ValidObjects(c, ids) && k <= |ids|
    ensures WeightOf(c, have + Ids(ids, k)) == WeightOf(c, have) + CostTo(c, ids, k, have)
  {
    if k == 0 {
      assert have + {} == have;
    } else {
      CostToWeight(c, ids, k - 1, have);
      var s, x := have + Ids(ids, k - 1), ids[k - 1];
      if x in have {
        assert have + Ids(ids, k) == s;
      } else {
        IdsElements(ids, k - 1, x);
        assert have + Ids(ids, k) == s + {x};
        SetWeightAdd(c, s, x, |c.objects|);
      }
    }
  }

  /** The incremental cost of a candidate is what it adds to the weight of what is stored. */
  lemma CostIsAddedWeight(c: Corpus, p: Candidate, have: set<int>)
    requires c.Valid() && ValidObjects(c, p.objects)
    ensures WeightOf(c, have + IdSet(p)) == WeightOf(c, have) + Cost(c, p, have)
  {
    CostToWeight(c, p.objects, |p.objects|, have);
  }

  // ---- choice sequences ----

  /** A choice for each of the first stages. */
  predicate Path(f: Case, ch: seq<int>) {
    |ch| <= |f| && forall k :: 0 <= k < |ch| ==> 0 <= ch[k] < |f[k].candidates|
  }

  predicate Full(f: Case, ch: seq<int>) { Path(f, ch) && |ch| == |f| }

  function Pick(f: Case, ch: seq<int>, k: nat): Candidate
    requires Path(f, ch) && k < |ch|
  {
    f[k].candidates[ch[k]]
  }

  /** What is stored after the first `k` choices. */
  function Stored(f: Case, ch: seq<int>, k: nat): set<int>
    requires Path(f, ch) && k <= |ch|
  {
    if k == 0 then {} else Stored(f, ch, k - 1) + IdSet(Pick(f, ch, k - 1))
  }

  /** The stage-by-stage cost of the first `k` choices. */
  function Spent(c: Corpus, f: Case, ch: seq<int>, k: nat): nat
    requires c.Valid() && Path(f, ch) && k <= |ch|
  {
    if k == 0 then 0 else Spent(c, f, ch, k - 1) + Cost(c, Pick(f, ch, k - 1), Stored(f, ch, k - 1))
  }

  function Total(c: Corpus, f: Case, ch: seq<int>): nat
    requires c.Valid() && Path(f, ch)
  {
    Spent(c, f, ch, |ch|)
  }

  lemma EmptyWeight(c: Corpus)
    requires c.Valid()
    ensures WeightOf(c, {}) == 0
  {
    EmptySetWeight(c, |c.objects|);
  }

  lemma {:induction false} EmptySetWeight(c: Corpus, n: nat)
    requires c.Valid()
    ensures SetWeight(c, {}, n) == 0
  {
    if n > 0 { EmptySetWeight(c, n - 1); }
  }

  /** Conservation: whatever the order, the cost of a run is the weight of the union it stores, each object once. */
  lemma {:induction false} SpentIsUnion(c: Corpus, f: Case, ch: seq<int>, k: nat)
    requires ValidCase(c, f) && Path(f, ch) && k <= |ch|
    ensures Spent(c, f, ch, k) == WeightOf(c, Stored(f, ch, k)) < B63
  {
    WeightFits(c, Stored(f, ch, k));
    if k == 0 {
      EmptyWeight(c);
    } else {
      SpentIsUnion(c, f, ch, k - 1);
      assert ValidStage(c, f[k - 1]);
      CostIsAddedWeight(c, Pick(f, ch, k - 1), Stored(f, ch, k - 1));
    }
  }

  lemma {:induction false} StoredElements(f: Case, ch: seq<int>, k: nat, x: int)
    requires Path(f, ch) && k <= |ch|
    ensures x in Stored(f, ch, k) <==> exists i :: 0 <= i < k && x in IdSet(Pick(f, ch, i))
  {
    if k > 0 { StoredElements(f, ch, k - 1, x); }
  }

  function Picks(f: Case, ch: seq<int>): (r: seq<Candidate>)
    requires Path(f, ch)
    ensures |r| == |ch| && forall k :: 0 <= k < |r| ==> r[k] == Pick(f, ch, k)
  {
    seq(|ch|, k requires 0 <= k < |ch| => Pick(f, ch, k))
  }

  lemma StoredPicks(f: Case, ch: seq<int>, g: Case, dh: seq<int>, x: int)
    requires Path(f, ch) && Path(g, dh) && multiset(Picks(f, ch)) == multiset(Picks(g, dh))
    requires x in Stored(f, ch, |ch|)
    ensures x in Stored(g, dh, |dh|)
  {
    StoredElements(f, ch, |ch|, x);
    StoredElements(g, dh, |dh|, x);
    var i :| 0 <= i < |ch| && x in IdSet(Pick(f, ch, i));
    assert Picks(f, ch)[i] in multiset(Picks(f, ch));
    assert Picks(f, ch)[i] in Picks(g, dh);
    var j :| 0 <= j < |dh| && Picks(g, dh)[j] == Picks(f, ch)[i];
    assert x in IdSet(Pick(g, dh, j));
  }

  /** The total does not depend on the order of the stages, only on which candidates are chosen. */
  lemma OrderIndependent(c: Corpus, f: Case, ch: seq<int>, g: Case, dh: seq<int>)
    requires ValidCase(c, f) && ValidCase(c, g) && Path(f, ch) && Path(g, dh)
    requires multiset(Picks(f, ch)) == multiset(Picks(g, dh))
    ensures Total(c, f, ch) == Total(c, g, dh)
  {
    SpentIsUnion(c, f, ch, |ch|);
    SpentIsUnion(c, g, dh, |dh|);
    var s, t := Stored(f, ch, |ch|), Stored(g, dh, |dh|);
    forall x ensures x in s <==> x in t {
      if x in s { StoredPicks(f, ch, g, dh, x); }
      if x in t { StoredPicks(g, dh, f, ch, x); }
    }
    assert s == t;
  }

  // ---- extending a path ----

  predicate Extends(ch: seq<int>, path: seq<int>) {
    |path| <= |ch| && forall k :: 0 <= k < |path| ==> ch[k] == path[k]
  }

  lemma {:induction false} StoredAgree(f: Case, ch: seq<int>, path: seq<int>, k: nat)
    requires Path(f, ch) && Path(f, path) && Extends(ch, path) && k <= |path|
    ensures Stored(f, ch, k) == Stored(f, path, k)
  {
    if k > 0 { StoredAgree(f, ch, path, k - 1); }
  }

  lemma {:induction false} StoredGrows(f: Case, ch: seq<int>, j: nat, k: nat)
    requires Path(f, ch) && j <= k <= |ch|
    ensures Stored(f, ch, j) <= Stored(f, ch, k)
  {
    if j < k { StoredGrows(f, ch, j, k - 1); }
  }

  /** The lower bound that pruning rests on: a completion costs at least what its prefix has cost. */
  lemma PrefixBound(c: Corpus, f: Case, ch: seq<int>, path: seq<int>)
    requires ValidCase(c, f) && Path(f, ch) && Path(f, path) && Extends(ch, path)
    ensures Total(c, f, ch) >= Total(c, f, path)
  {
    SpentIsUnion(c, f, ch, |ch|);
    SpentIsUnion(c, f, path, |path|);
    StoredAgree(f, ch, path, |path|);
    StoredGrows(f, ch, |path|, |ch|);
    SetWeightMono(c, Stored(f, path, |path|), Stored(f, ch, |ch|), |c.objects|);
  }

  /** One more choice. */
  lemma PathSnoc(c: Corpus, f: Case, path: seq<int>, i: int)
    requires ValidCase(c, f) && Path(f, path) && |path| < |f| && 0 <= i < |f[|path|].candidates|
    ensures Path(f, path + [i])
    ensures Stored(f, path + [i], |path| + 1) == Stored(f, path, |path|) + IdSet(f[|path|].candidates[i])
    ensures Total(c, f, path + [i]) == Total(c, f, path) + Cost(c, f[|path|].candidates[i], Stored(f, path, |path|))
  {
    var ch := path + [i];
    StoredAgree(f, ch, path, |path|);
    SpentAgree(c, f, ch, path, |path|);
  }

  lemma {:induction false} SpentAgree(c: Corpus, f: Case, ch: seq<int>, path: seq<int>, k: nat)
    requires c.Valid() && Path(f, ch) && Path(f, path) && Extends(ch, path) && k <= |path|
    ensures Spent(c, f, ch, k) == Spent(c, f, path, k)
  {
    if k > 0 {
      SpentAgree(c, f, ch, path, k - 1);
      StoredAgree(f, ch, path, k - 1);
    }
  }

  // ---- counting choice sequences ----

  /** The product, as repeated addition. */
  function Times(k: nat, m: nat): nat {
    if k == 0 then 0 else Times(k - 1, m) + m
  }

  /** How many sequences of `n` choices there are. */
  function Sequences(g: Case, n: nat): nat
    requires n <= |g|
  {
    if n == 0 then 1 else Times(Sequences(g, n - 1), |g[n - 1].candidates|)
  }

  lemma {:induction false} SequencesGrow(c: Corpus, g: Case, j: nat, k: nat)
    requires ValidCase(c, g) && j <= k <= |g|
    ensures 1 <= Sequences(g, j) <= Sequences(g, k)
  {
    if j < k {
      SequencesGrow(c, g, j, k - 1);
      assert ValidStage(c, g[k - 1]);
      TimesGrows(Sequences(g, k - 1), |g[k - 1].candidates|);
    } else if j > 0 {
      SequencesGrow(c, g, j - 1, j - 1);
      assert ValidStage(c, g[j - 1]);
      TimesGrows(Sequences(g, j - 1), |g[j - 1].candidates|);
    }
  }

  lemma {:induction false} TimesGrows(a: nat, b: nat)
    requires 1 <= b
    ensures a <= Times(a, b)
  {
    if a > 0 { TimesGrows(a - 1, b); }
  }

  lemma {:induction false} TimesAdd(a: nat, m: nat, n: nat)
    ensures Times(a, m + n) == Times(a, m) + Times(a, n)
  {
    if a > 0 { TimesAdd(a - 1, m, n); }
  }

  lemma {:induction false} TimesSum(a: nat, b: nat, n: nat)
    ensures Times(a + b, n) == Times(a, n) + Times(b, n)
  {
    if b > 0 { TimesSum(a, b - 1, n); }
  }

  lemma {:induction false} TimesAssoc(a: nat, m: nat, n: nat)
    ensures Times(a, Times(m, n)) == Times(Times(a, m), n)
  {
    if a > 0 {
      TimesAssoc(a - 1, m, n);
      TimesSum(Times(a - 1, m), m, n);
    }
  }

  lemma {:induction false} TimesOne(a: nat)
    ensures Times(a, 1) == a && Times(1, a) == a
  {
    if a > 0 { TimesOne(a - 1); }
    assert Times(1, a) == Times(0, a) + a;
  }

  /** How many sequences of at most `n` choices there are: the prefixes of the choice sequences. */
  function Prefixes(f: Case, n: nat): nat
    requires n <= |f|
  {
    Sequences(f, n) + if n == 0 then 0 else Prefixes(f, n - 1)
  }

  /** The nodes of the choice tree below and including one at depth `at`. */
  function Nodes(f: Case, at: nat): nat
    requires at <= |f|
    decreases |f| - at
  {
    if at == |f| then 1 else 1 + Times(|f[at].candidates|, Nodes(f, at + 1))
  }

  /** The tree has a node for every prefix. */
  lemma {:induction false} NodesArePrefixes(f: Case, at: nat)
    requires at <= |f|
    ensures Prefixes(f, |f|) == Times(Sequences(f, at), Nodes(f, at)) + if at == 0 then 0 else Prefixes(f, at - 1)
    decreases |f| - at
  {
    var s := Sequences(f, at);
    if at == |f| {
      TimesOne(s);
    } else {
      var m, n := |f[at].candidates|, Nodes(f, at + 1);
      NodesArePrefixes(f, at + 1);
      assert Sequences(f, at + 1) == Times(s, m);
      TimesAdd(s, 1, Times(m, n));
      TimesOne(s);
      TimesAssoc(s, m, n);
    }
  }

  /** The nodes a search visits that looks below a prefix only while it does not cost more than `upper`. */
  ghost function Visits(c: Corpus, f: Case, path: seq<int>, upper: int): nat
    requires ValidCase(c, f) && Path(f, path)
    decreases |f| - |path|, 1, 0
  {
    if |path| == |f| || Total(c, f, path) > upper then 1 else 1 + VisitsTo(c, f, path, upper, |f[|path|].candidates|)
  }

  /** The same below the first `k` choices at `path`. */
  ghost function VisitsTo(c: Corpus, f: Case, path: seq<int>, upper: int, k: nat): nat
    requires ValidCase(c, f) && Path(f, path) && |path| < |f| && k <= |f[|path|].candidates|
    decreases |f| - |path|, 0, k
  {
    if k == 0 then 0 else VisitsTo(c, f, path, upper, k - 1) + Visits(c, f, path + [k - 1], upper)
  }

  lemma {:induction false} VisitsBound(c: Corpus, f: Case, path: seq<int>, upper: int)
    requires ValidCase(c, f) && Path(f, path)
    ensures Visits(c, f, path, upper) <= Nodes(f, |path|)
    decreases |f| - |path|, 1, 0
  {
    if |path| < |f| { VisitsToBound(c, f, path, upper, |f[|path|].candidates|); }
  }

  lemma {:induction false} VisitsToBound(c: Corpus, f: Case, path: seq<int>, upper: int, k: nat)
    requires ValidCase(c, f) && Path(f, path) && |path| < |f| && k <= |f[|path|].candidates|
    ensures VisitsTo(c, f, path, upper, k) <= Times(k, Nodes(f, |path| + 1))
    decreases |f| - |path|, 0, k
  {
    if k > 0 {
      VisitsToBound(c, f, path, upper, k - 1);
      VisitsBound(c, f, path + [k - 1], upper);
    }
  }
}
