/**
 Beam lookahead and the replay of a case under a policy (admission/policy.go, `look` and
 `Run`), with the regret of a run against the oracle.
 */
module AdmissionRun {
  import opened Bytes
  import opened Sorting
  import opened AdmissionModel
  import opened AdmissionPolicy

  // ---- costs from a given store ----

  /** The cost of the first `k` choices for stages `g` when `base` is already stored. */
  function SpentOn(c: Corpus, g: Case, ch: seq<int>, k: nat, base: set<int>): nat
    requires c.Valid() && Path(g, ch) && k <= |ch|
  {
    if k == 0 then 0 else SpentOn(c, g, ch, k - 1, base) + Cost(c, Pick(g, ch, k - 1), base + Stored(g, ch, k - 1))
  }

  lemma {:induction false} SpentOnAgree(c: Corpus, g: Case, ch: seq<int>, path: seq<int>, k: nat, base: set<int>)
    requires c.Valid() && Path(g, ch) && Path(g, path) && Extends(ch, path) && k <= |path|
    ensures SpentOn(c, g, ch, k, base) == SpentOn(c, g, path, k, base)
  {
    if k > 0 {
      SpentOnAgree(c, g, ch, path, k - 1, base);
      StoredAgree(g, ch, path, k - 1);
    }
  }

  /** `ch` starts a cheapest sequence of `n` choices for the stages `g`. */
  ghost predicate Cheapest(c: Corpus, g: Case, ch: seq<int>, n: nat, base: set<int>)
    requires c.Valid()
  {
    && Path(g, ch) && |ch| == n
    && forall other {:trigger SpentOn(c, g, other, n, base)} :: Path(g, other) && |other| == n ==> SpentOn(c, g, ch, n, base) <= SpentOn(c, g, other, n, base)
  }

  ghost predicate StartsCheapest(c: Corpus, g: Case, first: int, n: nat, base: set<int>)
    requires c.Valid()
  {
    exists ch :: Cheapest(c, g, ch, n, base) && n > 0 && ch[0] == first
  }

  // ---- lookahead ----

  datatype Beam = Beam(have: Bits, cost: int, first: int, ghost path: seq<int>)

  /** A state stands for the choices in its path. */
  ghost predicate StateOk(c: Corpus, g: Case, base: set<int>, s: Beam, n: nat)
    requires c.Valid()
    reads s.have
  {
    && Path(g, s.path) && |s.path| == n && s.cost == SpentOn(c, g, s.path, n, base)
    && Holds(c, s.have, base + Stored(g, s.path, n))
    && (if n == 0 then s.first == -1 else s.first == s.path[0])
  }

  ghost predicate StatesOk(c: Corpus, g: Case, base: set<int>, ss: seq<Beam>, n: nat)
    requires c.Valid()
    reads set k | 0 <= k < |ss| :: ss[k].have
  {
    forall k {:trigger StateOk(c, g, base, ss[k], n)} :: 0 <= k < |ss| ==> StateOk(c, g, base, ss[k], n)
  }

  ghost predicate HasPath(ss: seq<Beam>, ch: seq<int>) {
    exists k :: 0 <= k < |ss| && ss[k].path == ch
  }

  /** No sequence of `n` choices has been dropped. */
  ghost predicate Complete(g: Case, ss: seq<Beam>, n: nat)
    requires n <= |g|
  {
    |ss| == Sequences(g, n) && forall ch {:trigger HasPath(ss, ch)} :: Path(g, ch) && |ch| == n ==> HasPath(ss, ch)
  }

  method ExpandOne(c: Corpus, g: Case, s: Beam, n: nat, i: nat, ghost base: set<int>) returns (t: Beam)
    requires ValidCase(c, g) && n < |g| && i < |g[n].candidates| && StateOk(c, g, base, s, n)
    ensures fresh(t.have) && StateOk(c, g, base, t, n + 1) && t.path == s.path + [i]
  {
    assert ValidStage(c, g[n]);
    var p := g[n].candidates[i];
    var b := s.have.Clone();
    var x := CostOf(c, p, b);
    Apply(c, p, b);
    PathSnoc(c, g, s.path, i);
    SpentOnAgree(c, g, s.path + [i], s.path, n, base);
    StoredAgree(g, s.path + [i], s.path, n);
    t := Beam(b, s.cost + x, if s.first < 0 then i else s.first, s.path + [i]);
    assert base + Stored(g, t.path, n + 1) == (base + Stored(g, s.path, n)) + IdSet(p);
  }

  /** The successors of `s` by its first `i` choices. */
  ghost predicate Successors(c: Corpus, g: Case, s: Beam, n: nat, base: set<int>, out: seq<Beam>, i: nat)
    requires c.Valid()
    reads set k | 0 <= k < |out| :: out[k].have
  {
    && |out| == i && StatesOk(c, g, base, out, n + 1)
    && forall k :: 0 <= k < i ==> out[k].path == s.path + [k]
  }

  lemma {:induction false} SuccessorsStep(c: Corpus, g: Case, s: Beam, n: nat, base: set<int>, done: seq<Beam>, t: Beam)
    requires c.Valid() && Successors(c, g, s, n, base, done, |done|)
    requires StateOk(c, g, base, t, n + 1) && t.path == s.path + [|done|]
    ensures Successors(c, g, s, n, base, done + [t], |done| + 1)
  {
    var out := done + [t];
    forall k | 0 <= k < |out| ensures StateOk(c, g, base, out[k], n + 1) && out[k].path == s.path + [k] {
      if k < |done| { assert StateOk(c, g, base, done[k], n + 1); }
    }
  }

  method ExpandNext(c: Corpus, g: Case, s: Beam, n: nat, i: nat, ghost base: set<int>, done: seq<Beam>) returns (out: seq<Beam>)
    requires ValidCase(c, g) && n < |g| && i < |g[n].candidates| && StateOk(c, g, base, s, n)
    requires Successors(c, g, s, n, base, done, i)
    ensures Successors(c, g, s, n, base, out, i + 1)
  {
    var t := ExpandOne(c, g, s, n, i, base);
    out := done + [t];
    SuccessorsStep(c, g, s, n, base, done, t);
  }

  method ExpandState(c: Corpus, g: Case, s: Beam, n: nat, ghost base: set<int>) returns (out: seq<Beam>)
    requires ValidCase(c, g) && n < |g| && StateOk(c, g, base, s, n)
    ensures Successors(c, g, s, n, base, out, |g[n].candidates|)
  {
    out := [];
    var i := 0;
    while i < |g[n].candidates|
      invariant 0 <= i <= |g[n].candidates| && Successors(c, g, s, n, base, out, i)
    {
      out := ExpandNext(c, g, s, n, i, base, out);
      i := i + 1;
    }
  }

  lemma HasPathAppend(a: seq<Beam>, b: seq<Beam>, ch: seq<int>)
    requires HasPath(a, ch) || HasPath(b, ch)
    ensures HasPath(a + b, ch)
  {
    if HasPath(a, ch) {
      var k :| 0 <= k < |a| && a[k].path == ch;
      assert (a + b)[k].path == ch;
    } else {
      var k :| 0 <= k < |b| && b[k].path == ch;
      assert (a + b)[|a| + k].path == ch;
    }
  }

  /** Each of the first `k` states has all its `m` successors in `next`. */
  ghost predicate Expanded(ss: seq<Beam>, next: seq<Beam>, k: nat, m: nat)
    requires k <= |ss|
  {
    |next| == Times(k, m) && forall a, i :: 0 <= a < k && 0 <= i < m ==> HasPath(next, ss[a].path + [i])
  }

  lemma ExpandedStep(ss: seq<Beam>, next: seq<Beam>, k: nat, m: nat, out: seq<Beam>)
    requires k < |ss| && Expanded(ss, next, k, m) && |out| == m
    requires forall i :: 0 <= i < m ==> out[i].path == ss[k].path + [i]
    ensures Expanded(ss, next + out, k + 1, m)
  {
    forall a, i | 0 <= a < k + 1 && 0 <= i < m ensures HasPath(next + out, ss[a].path + [i]) {
      if a == k { assert out[i].path == ss[k].path + [i]; }
      HasPathAppend(next, out, ss[a].path + [i]);
    }
  }

  lemma {:induction false} ExpandedComplete(g: Case, ss: seq<Beam>, next: seq<Beam>, n: nat)
    requires n < |g| && Complete(g, ss, n) && Expanded(ss, next, |ss|, |g[n].candidates|)
    ensures Complete(g, next, n + 1)
  {
    forall ch | Path(g, ch) && |ch| == n + 1 ensures HasPath(next, ch) {
      var init := ch[..n];
      assert HasPath(ss, init);
      var a :| 0 <= a < |ss| && ss[a].path == init;
      assert ch == ss[a].path + [ch[n]];
    }
  }

  lemma {:induction false} ExpandedNotEmpty(c: Corpus, g: Case, ss: seq<Beam>, next: seq<Beam>, n: nat)
    requires ValidCase(c, g) && n < |g| && ss != [] && Expanded(ss, next, |ss|, |g[n].candidates|)
    ensures next != []
  {
    assert ValidStage(c, g[n]);
    TimesGrows(|ss|, |g[n].candidates|);
  }

  lemma {:induction false} ExpandedAll(c: Corpus, g: Case, ss: seq<Beam>, next: seq<Beam>, n: nat)
    requires ValidCase(c, g) && n < |g| && ss != [] && Expanded(ss, next, |ss|, |g[n].candidates|)
    ensures next != [] && (Complete(g, ss, n) ==> Complete(g, next, n + 1))
  {
    ExpandedNotEmpty(c, g, ss, next, n);
    if Complete(g, ss, n) { ExpandedComplete(g, ss, next, n); }
  }

  method ExpandFrom(c: Corpus, g: Case, ss: seq<Beam>, n: nat, k: nat, ghost base: set<int>, done: seq<Beam>) returns (next: seq<Beam>)
    requires ValidCase(c, g) && n < |g| && StatesOk(c, g, base, ss, n) && k < |ss|
    requires StatesOk(c, g, base, done, n + 1) && Expanded(ss, done, k, |g[n].candidates|)
    ensures StatesOk(c, g, base, next, n + 1) && Expanded(ss, next, k + 1, |g[n].candidates|)
  {
    var out := ExpandState(c, g, ss[k], n, base);
    next := done + out;
    ExpandedStep(ss, done, k, |g[n].candidates|, out);
    forall j | 0 <= j < |next| ensures StateOk(c, g, base, next[j], n + 1) {
      if j < |done| { assert StateOk(c, g, base, done[j], n + 1); }
    }
  }

  method ExpandAll(c: Corpus, g: Case, ss: seq<Beam>, n: nat, ghost base: set<int>) returns (next: seq<Beam>)
    requires ValidCase(c, g) && n < |g| && StatesOk(c, g, base, ss, n) && ss != []
    ensures StatesOk(c, g, base, next, n + 1) && next != []
    ensures Complete(g, ss, n) ==> Complete(g, next, n + 1)
  {
    next := [];
    var k := 0;
    while k < |ss|
      invariant 0 <= k <= |ss|
      invariant StatesOk(c, g, base, next, n + 1) && Expanded(ss, next, k, |g[n].candidates|)
    {
      next := ExpandFrom(c, g, ss, n, k, base, next);
      k := k + 1;
    }
    ExpandedAll(c, g, ss, next, n);
  }

  ghost predicate CheapestFirst(ss: seq<Beam>) {
    forall k :: 0 <= k < |ss| ==> ss[0].cost <= ss[k].cost
  }

  /** `r` is `ss` in another order. */
  ghost predicate Reordered(ss: seq<Beam>, r: seq<Beam>, order: seq<int>) {
    && |r| == |ss| == |order|
    && (forall k :: 0 <= k < |r| ==> 0 <= order[k] < |ss| && r[k] == ss[order[k]])
    && (forall i :: 0 <= i < |ss| ==> i in order)
  }

  lemma {:induction false} ReorderedOk(c: Corpus, g: Case, base: set<int>, ss: seq<Beam>, r: seq<Beam>, order: seq<int>, n: nat)
    requires c.Valid() && StatesOk(c, g, base, ss, n) && Reordered(ss, r, order)
    ensures StatesOk(c, g, base, r, n)
  {
    forall k | 0 <= k < |r| ensures StateOk(c, g, base, r[k], n) {
      assert StateOk(c, g, base, ss[order[k]], n);
    }
  }

  lemma {:induction false} ReorderedComplete(g: Case, ss: seq<Beam>, r: seq<Beam>, order: seq<int>, n: nat)
    requires n <= |g| && Complete(g, ss, n) && Reordered(ss, r, order)
    ensures Complete(g, r, n)
  {
    forall ch | Path(g, ch) && |ch| == n ensures HasPath(r, ch) {
      assert HasPath(ss, ch);
      var k :| 0 <= k < |ss| && ss[k].path == ch;
      assert k in order;
      var j :| 0 <= j < |order| && order[j] == k;
      assert r[j].path == ch;
    }
  }

  /** Cheapest first; the same states otherwise. */
  method SortBeams(ss: seq<Beam>) returns (r: seq<Beam>, ghost order: seq<int>)
    ensures Reordered(ss, r, order) && CheapestFirst(r)
  {
    var all: seq<int> := seq(|ss|, k => k);
    var key := (k: int) => if 0 <= k < |ss| then ss[k].cost else 0;
    var ids := SortBy(key, all);
    SameRange(ids, all);
    r := seq(|ss|, k requires 0 <= k < |ss| => assert 0 <= ids[k] < |ss|; ss[ids[k]]);
    order := ids;
    forall k | 0 <= k < |r| ensures r[0].cost <= r[k].cost {
      assert key(ids[0]) <= key(ids[k]);
    }
  }

  method SortStates(c: Corpus, g: Case, ss: seq<Beam>, ghost n: nat, ghost base: set<int>) returns (r: seq<Beam>)
    requires ValidCase(c, g) && n <= |g| && StatesOk(c, g, base, ss, n)
    ensures |r| == |ss| && StatesOk(c, g, base, r, n) && CheapestFirst(r)
    ensures ss != [] && Complete(g, ss, n) ==> Complete(g, r, n) && Cheapest(c, g, r[0].path, n, base)
  {
    ghost var order;
    r, order := SortBeams(ss);
    ReorderedOk(c, g, base, ss, r, order, n);
    if ss != [] && Complete(g, ss, n) {
      ReorderedComplete(g, ss, r, order, n);
      FirstIsCheapest(c, g, base, r, n);
    }
  }

  /** How many stages the lookahead sees. */
  function Window(g: Case, depth: nat): nat { if depth < |g| then depth + 1 else |g| }

  /** The states after `n` stages: sound, not empty, cheapest first, and complete while the beam is wide enough. */
  ghost predicate Frontier(c: Corpus, g: Case, base: set<int>, ss: seq<Beam>, n: nat, width: nat)
    requires ValidCase(c, g) && n <= |g|
    reads set k | 0 <= k < |ss| :: ss[k].have
  {
    StatesOk(c, g, base, ss, n) && ss != [] && Searched(c, g, base, ss, n, width)
  }

  ghost predicate Searched(c: Corpus, g: Case, base: set<int>, ss: seq<Beam>, n: nat, width: nat)
    requires ValidCase(c, g) && n <= |g| && ss != []
  {
    && (Sequences(g, n) <= width ==> Complete(g, ss, n))
    && (n > 0 && Sequences(g, n - 1) <= width ==> Cheapest(c, g, ss[0].path, n, base))
  }

  lemma {:induction false} FirstIsCheapest(c: Corpus, g: Case, base: set<int>, ss: seq<Beam>, n: nat)
    requires ValidCase(c, g) && n <= |g| && StatesOk(c, g, base, ss, n) && ss != []
    requires Complete(g, ss, n) && CheapestFirst(ss)
    ensures Cheapest(c, g, ss[0].path, n, base)
  {
    assert StateOk(c, g, base, ss[0], n);
    forall other | Path(g, other) && |other| == n
      ensures SpentOn(c, g, ss[0].path, n, base) <= SpentOn(c, g, other, n, base)
    {
      assert HasPath(ss, other);
      var k :| 0 <= k < |ss| && ss[k].path == other;
      assert StateOk(c, g, base, ss[k], n);
    }
  }

  lemma {:induction false} SearchedNext(c: Corpus, g: Case, base: set<int>, out: seq<Beam>, n: nat, width: nat)
    requires ValidCase(c, g) && n < |g| && out != []
    requires Sequences(g, n) <= width ==> Complete(g, out, n + 1) && Cheapest(c, g, out[0].path, n + 1, base)
    ensures Searched(c, g, base, out, n + 1, width)
  {
    SequencesGrow(c, g, n, n + 1);
  }

  lemma {:induction false} FrontierCut(c: Corpus, g: Case, base: set<int>, out: seq<Beam>, n: nat, width: nat)
    requires ValidCase(c, g) && n <= |g| && 0 < width < |out| && Frontier(c, g, base, out, n, width)
    ensures Frontier(c, g, base, out[..width], n, width)
  {
    var cut := out[..width];
    forall k | 0 <= k < |cut| ensures StateOk(c, g, base, cut[k], n) {
      assert StateOk(c, g, base, out[k], n);
    }
    assert cut[0] == out[0];
  }

  method Grow(c: Corpus, g: Case, ss: seq<Beam>, n: nat, ghost base: set<int>) returns (out: seq<Beam>)
    requires ValidCase(c, g) && n < |g| && StatesOk(c, g, base, ss, n) && ss != []
    ensures StatesOk(c, g, base, out, n + 1) && out != []
    ensures Complete(g, ss, n) ==> Complete(g, out, n + 1) && Cheapest(c, g, out[0].path, n + 1, base)
  {
    var next := ExpandAll(c, g, ss, n, base);
    out := SortStates(c, g, next, n + 1, base);
  }

  method Cut(c: Corpus, g: Case, ss: seq<Beam>, ghost n: nat, width: nat, ghost base: set<int>) returns (out: seq<Beam>)
    requires ValidCase(c, g) && n <= |g| && width > 0 && Frontier(c, g, base, ss, n, width)
    ensures Frontier(c, g, base, out, n, width)
  {
    out := ss;
    if |ss| > width {
      FrontierCut(c, g, base, ss, n, width);
      out := ss[..width];
    }
  }

  method Step(c: Corpus, g: Case, ss: seq<Beam>, n: nat, width: nat, ghost base: set<int>) returns (out: seq<Beam>)
    requires ValidCase(c, g) && n < |g| && width > 0 && Frontier(c, g, base, ss, n, width)
    ensures Frontier(c, g, base, out, n + 1, width)
  {
    var grown := Grow(c, g, ss, n, base);
    SearchedNext(c, g, base, grown, n, width);
    out := Cut(c, g, grown, n + 1, width, base);
  }

  /** Beam search over the stages `g`, `depth` stages beyond the first. */
  method LookAhead(c: Corpus, g: Case, depth: nat, width: nat, have: Bits) returns (first: int)
    requires ValidCase(c, g) && width > 0 && have.Valid() && have.n == |c.objects|
    ensures 0 <= first < |g[0].candidates|
    ensures Sequences(g, Window(g, depth) - 1) <= width ==> StartsCheapest(c, g, first, Window(g, depth), have.Members())
  {
    ghost var base := have.Members();
    var states := [Beam(have, 0, -1, [])];
    FrontierStart(c, g, base, states, width);
    var n := 0;
    while n < |g| && n <= depth
      invariant 0 <= n <= Window(g, depth)
      invariant Frontier(c, g, base, states, n, width)
    {
      states := Step(c, g, states, n, width, base);
      n := n + 1;
    }
    assert n == Window(g, depth);
    FrontierAnswer(c, g, base, states, n, width);
    first := states[0].first;
  }

  lemma FrontierAnswer(c: Corpus, g: Case, base: set<int>, ss: seq<Beam>, n: nat, width: nat)
    requires ValidCase(c, g) && 0 < n <= |g| && Frontier(c, g, base, ss, n, width)
    ensures 0 <= ss[0].first < |g[0].candidates|
    ensures Sequences(g, n - 1) <= width ==> StartsCheapest(c, g, ss[0].first, n, base)
  {
    assert StateOk(c, g, base, ss[0], n);
  }

  /**
   The lookahead at stage `at`. The choice is always valid; it starts a cheapest sequence over
   the window whenever the beam is wide enough for every sequence but the last stage's.
   */
  method Look(c: Corpus, f: Case, at: nat, depth: nat, width: nat, have: Bits) returns (first: int)
    requires ValidCase(c, f) && at < |f| && width > 0 && have.Valid() && have.n == |c.objects|
    ensures 0 <= first < |f[at].candidates|
    ensures Sequences(f[at..], Window(f[at..], depth) - 1) <= width
        ==> StartsCheapest(c, f[at..], first, Window(f[at..], depth), have.Members())
  {
    first := LookAhead(c, f[at..], depth, width, have);
  }

  lemma FrontierStart(c: Corpus, g: Case, base: set<int>, ss: seq<Beam>, width: nat)
    requires ValidCase(c, g) && |ss| == 1 && ss[0].path == [] && ss[0].cost == 0 && ss[0].first == -1 && Holds(c, ss[0].have, base)
    ensures Frontier(c, g, base, ss, 0, width)
  {
    assert base + {} == base;
    forall ch | Path(g, ch) && |ch| == 0 ensures HasPath(ss, ch) {
      assert ss[0].path == ch;
    }
  }

  /** The one-step policy's lookahead never truncates: its choice starts a cheapest sequence over the next two stages. */
  method OneStep(c: Corpus, f: Case, at: nat, have: Bits) returns (first: int)
    requires ValidCase(c, f) && at < |f| && have.Valid() && have.n == |c.objects|
    ensures 0 <= first < |f[at].candidates|
    ensures StartsCheapest(c, f[at..], first, if at + 1 < |f| then 2 else 1, have.Members())
  {
    OneStepFits(c, f, at);
    first := Look(c, f, at, 1, 64, have);
  }

  lemma OneStepFits(c: Corpus, f: Case, at: nat)
    requires ValidCase(c, f) && at < |f|
    ensures Sequences(f[at..], Window(f[at..], 1) - 1) <= MAX_CANDIDATES
  {
    assert ValidStage(c, f[at]);
    assert Sequences(f[at..], 0) == 1;
    assert Times(1, |f[at].candidates|) == Times(0, |f[at].candidates|) + |f[at].candidates|;
    assert Sequences(f[at..], 1) == |f[at].candidates|;
  }

  // ---- replaying a case ----

  /** `Scored` stands for the floating-point policies: any candidate at each stage. */
  datatype Policy = GreedyChoice | Scored(picks: seq<int>) | OneStepAhead | BeamSearch | Optimal | Unknown

  datatype Result = Result(total: int, cdc: int, oracle: int, regret: int, exact: bool,
                           choices: seq<int>, perStage: seq<int>, bad: bool, missed: bool)

  datatype RunOutcome = Done(result: Result) | CapReached | UnknownPolicy | NegativeRegret

  /** The candidate that is always the fallback. */
  predicate AllFallback(f: Case, ch: seq<int>) {
    Path(f, ch) && forall k :: 0 <= k < |ch| ==> f[k].candidates[ch[k]].name == "cdc"
  }

  function Sum(xs: seq<int>): int { if xs == [] then 0 else Sum(xs[..|xs| - 1]) + xs[|xs| - 1] }

  lemma SumSnoc(xs: seq<int>, x: int)
    ensures Sum(xs + [x]) == Sum(xs) + x
  {
    assert (xs + [x])[..|xs|] == xs;
  }

  /** The fallback of a stage is unique, so two all-fallback runs are the same run. */
  lemma FallbackUnique(c: Corpus, f: Case, a: seq<int>, b: seq<int>)
    requires ValidCase(c, f) && AllFallback(f, a) && AllFallback(f, b) && |a| == |b|
    ensures a == b
  {
    forall k | 0 <= k < |a| ensures a[k] == b[k] {
      assert ValidStage(c, f[k]);
      assert f[k].candidates[a[k]].name == f[k].candidates[b[k]].name;
    }
  }

  /** What a policy promises of its choice `i` at stage `at`, when `have` is stored; `best` is the oracle's sequence. */
  ghost predicate PolicyPick(c: Corpus, f: Case, at: nat, policy: Policy, best: Option<seq<int>>, have: set<int>, i: int)
    requires ValidCase(c, f) && at < |f|
  {
    && 0 <= i < |f[at].candidates|
    && match policy
       case GreedyChoice => GreedyPick(c, f[at], have, i)
       case Scored(picks) => at < |picks| && i == picks[at]
       case OneStepAhead => StartsCheapest(c, f[at..], i, if at + 1 < |f| then 2 else 1, have)
       case BeamSearch => LooksAhead(c, f, at, 2, 8, have, i)
       case Optimal => best.Some? && at < |best.value| && i == best.value[at]
       case Unknown => false
  }

  /** While the sequences without the last stage of the window fit the width, the choice starts a cheapest sequence over the window. */
  ghost predicate LooksAhead(c: Corpus, f: Case, at: nat, depth: nat, width: nat, have: set<int>, i: int)
    requires ValidCase(c, f) && at < |f|
  {
    Sequences(f[at..], Window(f[at..], depth) - 1) <= width ==> StartsCheapest(c, f[at..], i, Window(f[at..], depth), have)
  }

  ghost predicate PickAt(c: Corpus, f: Case, policy: Policy, best: Option<seq<int>>, ch: seq<int>, k: nat)
    requires ValidCase(c, f) && Path(f, ch) && k < |ch|
  {
    PolicyPick(c, f, k, policy, best, Stored(f, ch, k), ch[k])
  }

  /** Every choice is the policy's, given what the earlier ones have stored. */
  ghost predicate Obeys(c: Corpus, f: Case, policy: Policy, best: Option<seq<int>>, ch: seq<int>)
    requires ValidCase(c, f)
  {
    Path(f, ch) && forall k {:trigger PickAt(c, f, policy, best, ch, k)} :: 0 <= k < |ch| ==> PickAt(c, f, policy, best, ch, k)
  }

  lemma {:induction false} ObeysSnoc(c: Corpus, f: Case, policy: Policy, best: Option<seq<int>>, ch: seq<int>, i: int)
    requires ValidCase(c, f) && Obeys(c, f, policy, best, ch) && |ch| < |f|
    requires PolicyPick(c, f, |ch|, policy, best, Stored(f, ch, |ch|), i)
    ensures Obeys(c, f, policy, best, ch + [i])
  {
    var x := ch + [i];
    forall k | 0 <= k < |x| ensures PickAt(c, f, policy, best, x, k) {
      StoredAgree(f, x, ch, k);
      if k < |ch| { assert PickAt(c, f, policy, best, ch, k); }
    }
  }

  /** A run that follows a given sequence is that sequence. */
  lemma {:induction false} ObeysSequence(c: Corpus, f: Case, policy: Policy, best: Option<seq<int>>, ch: seq<int>)
    requires ValidCase(c, f) && Obeys(c, f, policy, best, ch) && Full(f, ch)
    ensures policy.Scored? && |policy.picks| == |f| ==> ch == policy.picks
    ensures policy.Optimal? && best.Some? && |best.value| == |f| ==> ch == best.value
  {
    if policy.Scored? && |policy.picks| == |f| {
      forall k | 0 <= k < |ch| ensures ch[k] == policy.picks[k] { assert PickAt(c, f, policy, best, ch, k); }
    }
    if policy.Optimal? && best.Some? && |best.value| == |f| {
      forall k | 0 <= k < |ch| ensures ch[k] == best.value[k] { assert PickAt(c, f, policy, best, ch, k); }
    }
  }

  method Choose(c: Corpus, f: Case, at: nat, policy: Policy, oracle: OracleResult, have: Bits) returns (chosen: int)
    requires ValidCase(c, f) && at < |f| && have.Valid() && have.n == |c.objects|
    requires policy.Scored? ==> Full(f, policy.picks)
    requires policy.Optimal? ==> oracle.choices.Some? && Full(f, oracle.choices.value)
    requires !policy.Unknown?
    ensures PolicyPick(c, f, at, policy, oracle.choices, have.Members(), chosen)
  {
    assert ValidStage(c, f[at]);
    match policy {
      case GreedyChoice => chosen := Greedy(c, f[at], have);
      case Scored(picks) => chosen := picks[at];
      case OneStepAhead => chosen := OneStep(c, f, at, have);
      case BeamSearch => chosen := Look(c, f, at, 2, 8, have);
      case Optimal => chosen := oracle.choices.value[at];
    }
  }

  /** A run in progress: what it has chosen and charged. */
  datatype Ledger = Ledger(choices: seq<int>, total: int, perStage: seq<int>)

  ghost predicate Charged(c: Corpus, f: Case, l: Ledger, have: Bits)
    requires ValidCase(c, f)
    reads have
  {
    && Path(f, l.choices) && Holds(c, have, Stored(f, l.choices, |l.choices|))
    && l.total == Total(c, f, l.choices) == Sum(l.perStage) && |l.perStage| == |l.choices|
  }

  /** Charges candidate `i` of the next stage and stores its objects. */
  method Take(c: Corpus, f: Case, i: int, have: Bits, l: Ledger) returns (l': Ledger)
    requires ValidCase(c, f) && Charged(c, f, l, have) && |l.choices| < |f| && 0 <= i < |f[|l.choices|].candidates|
    modifies have
    ensures Charged(c, f, l', have) && l'.choices == l.choices + [i]
  {
    var at := |l.choices|;
    assert ValidStage(c, f[at]);
    var p := f[at].candidates[i];
    var cost := CostOf(c, p, have);
    PathSnoc(c, f, l.choices, i);
    SumSnoc(l.perStage, cost);
    Apply(c, p, have);
    l' := Ledger(l.choices + [i], l.total + cost, l.perStage + [cost]);
  }

  lemma AllFallbackSnoc(f: Case, ch: seq<int>, i: int)
    requires Path(f, ch) && |ch| < |f| && 0 <= i < |f[|ch|].candidates|
    ensures AllFallback(f, ch + [i]) <==> AllFallback(f, ch) && f[|ch|].candidates[i].name == "cdc"
  {
    var x := ch + [i];
    assert forall k :: 0 <= k < |ch| ==> x[k] == ch[k];
    if AllFallback(f, x) { assert x[|ch|] == i; }
  }

  /** The run under the policy. */
  method Follow(c: Corpus, f: Case, at: nat, policy: Policy, oracle: OracleResult, have: Bits, l: Ledger, rep: bool)
    returns (l': Ledger, rep': bool)
    requires ValidCase(c, f) && !policy.Unknown? && at == |l.choices| < |f| && Charged(c, f, l, have)
    requires policy.Scored? ==> Full(f, policy.picks)
    requires policy.Optimal? ==> oracle.choices.Some? && Full(f, oracle.choices.value)
    requires (rep <==> !AllFallback(f, l.choices)) && Obeys(c, f, policy, oracle.choices, l.choices)
    modifies have
    ensures Charged(c, f, l', have) && |l'.choices| == at + 1
    ensures (rep' <==> !AllFallback(f, l'.choices)) && Obeys(c, f, policy, oracle.choices, l'.choices)
  {
    var chosen := Choose(c, f, at, policy, oracle, have);
    AllFallbackSnoc(f, l.choices, chosen);
    ObeysSnoc(c, f, policy, oracle.choices, l.choices, chosen);
    l' := Take(c, f, chosen, have, l);
    rep' := rep || f[at].candidates[chosen].name != "cdc";
  }

  method Replay(c: Corpus, f: Case, policy: Policy, oracle: OracleResult) returns (run: Ledger, base: Ledger, rep: bool)
    requires ValidCase(c, f) && !policy.Unknown?
    requires policy.Scored? ==> Full(f, policy.picks)
    requires policy.Optimal? ==> oracle.choices.Some? && Full(f, oracle.choices.value)
    ensures Full(f, run.choices) && run.total == Total(c, f, run.choices) == Sum(run.perStage)
    ensures AllFallback(f, base.choices) && |base.choices| == |f| && base.total == Total(c, f, base.choices)
    ensures (rep <==> !AllFallback(f, run.choices)) && Obeys(c, f, policy, oracle.choices, run.choices)
  {
    var have := new Bits(|c.objects|);
    var baseline := new Bits(|c.objects|);
    run, base, rep := Ledger([], 0, []), Ledger([], 0, []), false;
    var at := 0;
    while at < |f|
      invariant 0 <= at <= |f| && |run.choices| == at == |base.choices| && fresh(have) && fresh(baseline) && have != baseline
      invariant Charged(c, f, run, have) && Charged(c, f, base, baseline)
      invariant AllFallback(f, base.choices) && (rep <==> !AllFallback(f, run.choices))
      invariant Obeys(c, f, policy, oracle.choices, run.choices)
    {
      var dc := Cdc(c, f[at]);
      AllFallbackSnoc(f, base.choices, dc);
      base := Take(c, f, dc, baseline, base);
      run, rep := Follow(c, f, at, policy, oracle, have, run, rep);
      at := at + 1;
    }
  }

  /**
   Replays a validated case under a policy. The regret check never fires: with an exact oracle
   the regret is non-negative, and zero for the oracle's own policy. Both diagnostic flags
   imply positive regret.
   */
  method Run(c: Corpus, f: Case, policy: Policy, cap: int) returns (r: RunOutcome)
    requires ValidCase(c, f) && (policy.Scored? ==> Full(f, policy.picks))
    ensures !r.NegativeRegret?
    ensures r.UnknownPolicy? <==> policy.Unknown?
    ensures r.CapReached? ==> policy.Optimal? && cap < Prefixes(f, |f|)
    ensures cap >= Prefixes(f, |f|) && !policy.Unknown? ==> r.Done? && r.result.exact
    ensures r.Done? ==> exists best :: Obeys(c, f, policy, best, r.result.choices)
    ensures r.Done? && policy.GreedyChoice? ==> GreedyPath(c, f, r.result.choices)
    ensures r.Done? && policy.Scored? ==> r.result.choices == policy.picks
    ensures r.Done? ==> Accounts(c, f, r.result)
    ensures r.Done? && policy.Optimal? ==> r.result.exact && r.result.regret == 0
  {
    var oracle := Oracle(c, f, cap);
    if policy.Unknown? {
      return UnknownPolicy;
    }
    if policy.Optimal? && !oracle.exact {
      return CapReached;
    }
    var run, base, rep := Replay(c, f, policy, oracle);
    ObeysSequence(c, f, policy, oracle.choices, run.choices);
    if policy.GreedyChoice? { ObeysGreedy(c, f, policy, oracle.choices, run.choices); }
    var regret := run.total - oracle.cost;
    if regret < 0 && oracle.exact {
      return NegativeRegret;
    }
    r := Done(Result(run.total, base.total, oracle.cost, regret, oracle.exact, run.choices, run.perStage,
                     rep && run.total > base.total, !rep && oracle.cost < base.total));
    RunAccounts(c, f, r.result, rep, base.choices);
  }

  lemma {:induction false} ObeysGreedy(c: Corpus, f: Case, policy: Policy, best: Option<seq<int>>, ch: seq<int>)
    requires ValidCase(c, f) && policy.GreedyChoice? && Obeys(c, f, policy, best, ch)
    ensures GreedyPath(c, f, ch)
  {
    forall k | 0 <= k < |ch| ensures GreedyAt(c, f, ch, k) { assert PickAt(c, f, policy, best, ch, k); }
  }

  /** `cdc` is what choosing the fallback at every stage costs. */
  ghost predicate FallbackCost(c: Corpus, f: Case, fb: seq<int>, cdc: int)
    requires ValidCase(c, f)
  {
    AllFallback(f, fb) && |fb| == |f| && cdc == Total(c, f, fb)
  }

  /** What a finished run reports. */
  ghost predicate Accounts(c: Corpus, f: Case, r: Result)
    requires ValidCase(c, f)
  {
    && Full(f, r.choices) && r.total == WeightOf(c, Stored(f, r.choices, |r.choices|)) && r.total == Sum(r.perStage) && r.total < B63
    && r.regret == r.total - r.oracle && Attained(c, f, r.oracle)
    && (r.exact ==> r.regret >= 0 && r.oracle <= r.cdc)
    && (exists fb :: FallbackCost(c, f, fb, r.cdc))
    && (r.bad <==> !AllFallback(f, r.choices) && r.total > r.cdc) && (r.missed <==> AllFallback(f, r.choices) && r.oracle < r.cdc)
    && (r.exact && (r.bad || r.missed) ==> r.regret > 0)
    && (AllFallback(f, r.choices) ==> r.total == r.cdc)
  }

  lemma RunAccounts(c: Corpus, f: Case, r: Result, rep: bool, fallback: seq<int>)
    requires ValidCase(c, f) && Full(f, r.choices) && r.total == Total(c, f, r.choices) == Sum(r.perStage) && r.regret == r.total - r.oracle
    requires AllFallback(f, fallback) && |fallback| == |f| && r.cdc == Total(c, f, fallback)
    requires Attained(c, f, r.oracle) && (r.exact ==> forall ch :: Full(f, ch) ==> r.oracle <= Total(c, f, ch))
    requires (rep <==> !AllFallback(f, r.choices)) && r.bad == (rep && r.total > r.cdc) && r.missed == (!rep && r.oracle < r.cdc)
    ensures Accounts(c, f, r)
  {
    SpentIsUnion(c, f, r.choices, |r.choices|);
    assert FallbackCost(c, f, fallback, r.cdc);
    if AllFallback(f, r.choices) { FallbackUnique(c, f, r.choices, fallback); }
  }
}
