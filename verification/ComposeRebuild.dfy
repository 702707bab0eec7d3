/** Rebuilding a composition, and that it gives what the outer plan gives (composez3/composez3.go, `rebuildComposed`). */
module ComposeRebuild {
  import opened Bytes
  import opened ComposeRecord
  import opened ComposeModel
  import opened Compose

  /** The composed getter: substituted components are rebuilt once and kept. */
  class Cache {
    const env: Env
    const byId: map<digest, Sub>
    const get: Getter
    var kept: map<digest, seq<byte>>

    constructor (env: Env, byId: map<digest, Sub>, get: Getter)
      ensures this.env == env && this.byId == byId && this.get == get && Valid()
    {
      this.env, this.byId, this.get, kept := env, byId, get, map[];
    }

    ghost predicate Valid()
      reads this
    {
      forall id :: id in kept ==> Composed(env, byId, get)(id) == Some(kept[id])
    }

    method Fetch(id: digest) returns (r: Answer)
      requires Valid()
      modifies this
      ensures Valid() && r == Composed(env, byId, get)(id)
    {
      if id !in byId {
        return get(id);
      }
      if id in kept {
        return Some(kept[id]);
      }
      var s := byId[id];
      var recipe := get(s.rid);
      if recipe.None? || env.sha(recipe.value) != s.rid {
        return None;
      }
      var x := RunInner(env, s.kind, recipe.value, get);
      if x.None? {
        return None;
      }
      var b := s.pre + x.value + Zeros(s.pad);
      if env.sha(b) != id {
        return None;
      }
      kept := kept[id := b];
      return Some(b);
    }
  }

  /** Runs the outer rebuild over the composed getter. */
  method RunOuter(outer: Rebuild, c: Cache) returns (r: Option<seq<byte>>)
    requires c.Valid()
    modifies c
    ensures r == Run(outer, Composed(c.env, c.byId, c.get))
  {
    var answers: seq<Answer> := [];
    var k := outer.steps;
    while true
      invariant c.Valid()
      invariant RunFrom(outer, Composed(c.env, c.byId, c.get), answers, k) == Run(outer, Composed(c.env, c.byId, c.get))
      decreases k
    {
      match outer.act(answers) {
        case Done(out) => return Some(out);
        case Fail => return None;
        case Ask(id) =>
          if k == 0 {
            return None;
          }
          var a := c.Fetch(id);
          answers, k := answers + [a], k - 1;
      }
    }
  }

  /** Every entry names a piece with a component. */
  predicate Resolves(pieces: seq<Piece>, subs: seq<Sub>) {
    WellPlaced(subs, |pieces|) && forall i :: 0 <= i < |subs| ==> pieces[subs[i].idx].comp.Some?
  }

  /** The outer rebuild, with the entries' components substituted. */
  ghost function Rebuilt(env: Env, subs: seq<Sub>, outer: Rebuild, pieces: seq<Piece>, get: Getter): Option<seq<byte>>
    requires Resolves(pieces, subs)
  {
    Run(outer, Composed(env, ById(pieces, subs, |subs|), get))
  }

  method ListById(pieces: seq<Piece>, subs: seq<Sub>) returns (m: Option<map<digest, Sub>>)
    requires WellPlaced(subs, |pieces|)
    ensures m.Some? <==> Resolves(pieces, subs)
    ensures m.Some? ==> m.value == ById(pieces, subs, |subs|)
  {
    var byId, i := map[], 0;
    while i < |subs|
      invariant 0 <= i <= |subs|
      invariant forall j :: 0 <= j < i ==> pieces[subs[j].idx].comp.Some?
      invariant byId == ById(pieces, subs, i)
    {
      if pieces[subs[i].idx].comp.None? {
        return None;
      }
      byId := byId[pieces[subs[i].idx].comp.value.id := subs[i]];
      i := i + 1;
    }
    return Some(byId);
  }

  /**
   The whole composed reconstruction, for any record bytes: what it writes is the outer rebuild over
   substituted components. A written record of `subs` is followed exactly when it can be parsed back.
   */
  method RebuildComposed(env: Env, rec: seq<byte>, outer: Rebuild, n: nat, pieces: seq<Piece>, get: Getter, ghost depth: int, ghost subs: seq<Sub>)
    returns (r: Option<seq<byte>>)
    ensures r.Some? ==> exists ss :: n <= |pieces| && Resolves(pieces[..n], ss) && AllFramed(ss) && r == Rebuilt(env, ss, outer, pieces[..n], get)
    ensures n <= |pieces| && Claim(rec, n, depth, subs) && Resolves(pieces[..n], subs) ==>
      r == if depth % 256 == 1 && AllFramed(subs) then Rebuilt(env, subs, outer, pieces[..n], get) else None
  {
    var ss := Parse(rec, n, depth, subs);
    if ss.None? || |pieces| < n {
      return None;
    }
    var byId := ListById(pieces[..n], ss.value);
    if byId.None? {
      return None;
    }
    var c := new Cache(env, byId.value, get);
    r := RunOuter(outer, c);
    assert r == Rebuilt(env, ss.value, outer, pieces[..n], get);
  }

  // ---- what a composition gives back ----

  /** The original store holds every component of the outer plan. */
  ghost predicate Originals(get: Getter, pieces: seq<Piece>) {
    forall i :: 0 <= i < |pieces| && pieces[i].comp.Some? ==>
      pieces[i].comp.value.data.Some? && get(pieces[i].comp.value.id) == pieces[i].comp.value.data
  }

  function Ids(pieces: seq<Piece>): set<digest> { set i | 0 <= i < |pieces| && pieces[i].comp.Some? :: pieces[i].comp.value.id }

  /** The outer plan stores all its pieces. */
  predicate NoneDerived(pieces: seq<Piece>) { forall i :: 0 <= i < |pieces| ==> !pieces[i].derived }

  lemma StoredPart(get: Getter, pieces: seq<Piece>, k: nat)
    requires k <= |pieces| && Stored(get, pieces)
    ensures Stored(get, pieces[..k]) && Stored(get, pieces[k..])
  {
    forall i | k <= i < |pieces| ensures pieces[k..][i - k] == pieces[i] {}
  }

  /** The marked pieces are the outer pieces, as far as their components go. */
  lemma MarkedSame(env: Env, opt: Options, outer: seq<Piece>, subs: seq<Sub>, marked: seq<Piece>, extra: seq<Piece>)
    requires SubsOk(env, opt, outer, extra, |outer|, subs) && MarksOk(env, opt, outer, |outer|, subs, marked)
    ensures Resolves(outer, subs) && Resolves(marked, subs)
    ensures ById(marked, subs, |subs|) == ById(outer, subs, |subs|)
  {
    SameById(outer, marked, subs, |subs|);
  }

  lemma {:induction false} SameById(a: seq<Piece>, b: seq<Piece>, subs: seq<Sub>, k: nat)
    requires k <= |subs| && Resolves(a, subs) && |a| == |b| && forall i :: 0 <= i < |a| ==> b[i].comp == a[i].comp
    ensures Resolves(b, subs) && ById(b, subs, k) == ById(a, subs, k)
  {
    if k > 0 { SameById(a, b, subs, k - 1); }
  }

  /** A substituted component of the outer plan comes back as its original bytes. */
  lemma SubstitutedServed(env: Env, opt: Options, outer: seq<Piece>, extra: seq<Piece>, subs: seq<Sub>, get: Getter, get0: Getter, id: digest)
    requires InnersStrict(env) && CompsOk(env, outer) && SubsOk(env, opt, outer, extra, |outer|, subs)
    requires Stored(get, extra) && Originals(get0, outer) && Resolves(outer, subs) && id in ById(outer, subs, |subs|)
    ensures Composed(env, ById(outer, subs, |subs|), get)(id) == get0(id)
  {
    ByIdHolds(outer, subs, |subs|, id);
    var k :| 0 <= k < |subs| && IdAt(outer, subs[k].idx) == id && ById(outer, subs, |subs|)[id] == subs[k];
    var s := subs[k];
    assert Backed(env, opt, outer, extra, s, id);
    var j :| BackedBy(env, opt, outer, extra, s, id, j);
    var body := outer[j].comp.value.data.value;
    DerivedIs(env, extra, s, body, get, id);
  }

  /** A component that is not substituted is stored. */
  lemma PlainServed(env: Env, opt: Options, outer: seq<Piece>, extra: seq<Piece>, subs: seq<Sub>, marked: seq<Piece>, get: Getter, get0: Getter, id: digest)
    requires SubsOk(env, opt, outer, extra, |outer|, subs) && MarksOk(env, opt, outer, |outer|, subs, marked) && NoneDerived(outer)
    requires Stored(get, marked) && Originals(get0, outer) && Resolves(outer, subs) && id !in ById(outer, subs, |subs|) && id in Ids(outer)
    ensures get(id) == get0(id)
  {
    ByIdHolds(outer, subs, |subs|, id);
    var j :| 0 <= j < |outer| && outer[j].comp.Some? && outer[j].comp.value.id == id;
    assert forall k :: 0 <= k < |subs| ==> IdAt(outer, subs[k].idx) != id;
    assert !Names(subs, j);
    assert marked[j] == outer[j];
  }

  /**
   Composition preserves reconstruction: over a store with the composition's stored pieces, the
   composed rebuild writes what the outer rebuild writes over the originals.
   */
  lemma CompositionExact(env: Env, opt: Options, outer: seq<Piece>, rebuild: Rebuild, pieces: seq<Piece>, subs: seq<Sub>, get: Getter, get0: Getter)
    requires InnersStrict(env) && CompsOk(env, outer) && NoneDerived(outer) && IsComposition(env, opt, outer, pieces, subs)
    requires Stored(get, pieces) && Originals(get0, outer) && AsksOnly(rebuild, Ids(outer))
    ensures Resolves(pieces[..|outer|], subs)
    ensures Rebuilt(env, subs, rebuild, pieces[..|outer|], get) == Run(rebuild, get0)
  {
    var marked, extra := pieces[..|outer|], pieces[|outer|..];
    StoredPart(get, pieces, |outer|);
    MarkedSame(env, opt, outer, subs, marked, extra);
    var byId := ById(outer, subs, |subs|);
    var g := Composed(env, byId, get);
    forall id | id in Ids(outer) ensures g(id) == get0(id) {
      if id in byId {
        SubstitutedServed(env, opt, outer, extra, subs, get, get0, id);
      } else {
        PlainServed(env, opt, outer, extra, subs, marked, get, get0, id);
      }
    }
    RunSame(rebuild, g, get0, Ids(outer), [], rebuild.steps);
  }

  /** Among the strings in play, no other than an original component has its digest. */
  ghost predicate NoCollision(env: Env, ids: set<digest>, get0: Getter, play: iset<seq<byte>>) {
    forall id, x: seq<byte> :: id in ids && x in play && env.sha(x) == id ==> get0(id) == Some(x)
  }

  /** Whatever a substitution would serve for a component is in play. */
  ghost predicate InPlay(env: Env, subs: seq<Sub>, ids: set<digest>, get: Getter, play: iset<seq<byte>>) {
    forall s, id :: s in subs && id in ids && Derived(env, s, get, id).Some? ==> Derived(env, s, get, id).value in play
  }

  /**
   No record, well-formed or not, makes a composed rebuild succeed with another object: over a store
   that serves no wrong component, whatever it writes is what the outer rebuild writes.
   */
  lemma NeverAnother(env: Env, subs: seq<Sub>, rebuild: Rebuild, pieces: seq<Piece>, ids: set<digest>, get: Getter, get0: Getter, play: iset<seq<byte>>)
    requires Resolves(pieces, subs) && Strict(rebuild) && AsksOnly(rebuild, ids)
    requires NoCollision(env, ids, get0, play) && InPlay(env, subs, ids, get, play)
    requires forall id :: id in ids && get(id).Some? ==> get0(id) == get(id)
    requires Rebuilt(env, subs, rebuild, pieces, get).Some?
    ensures Rebuilt(env, subs, rebuild, pieces, get) == Run(rebuild, get0)
  {
    var g := Composed(env, ById(pieces, subs, |subs|), get);
    var h := (id: digest) => if id in ids then g(id) else None;
    RunSame(rebuild, g, h, ids, [], rebuild.steps);
    forall id | h(id).Some? ensures get0(id) == h(id) {
      if id in ById(pieces, subs, |subs|) {
        ByIdHolds(pieces, subs, |subs|, id);
        DerivedDigest(env, ById(pieces, subs, |subs|), get, id);
      }
    }
    RunMore(rebuild, h, get0, [], rebuild.steps);
  }

  // ---- when a composition can be rebuilt ----

  /** Each body that is replaced has at most 511 bytes of padding. */
  ghost predicate PadsFit(env: Env, opt: Options, outer: seq<Piece>) {
    forall j :: 0 <= j < |outer| && outer[j].comp.Some? && First(env, opt, outer, j, IdAt(outer, j)) ==> outer[j].comp.value.pad <= MAX_PAD
  }

  /** The entries keep the record's bounds exactly when the paddings do. */
  lemma FramedIff(env: Env, opt: Options, outer: seq<Piece>, pieces: seq<Piece>, subs: seq<Sub>)
    requires IsComposition(env, opt, outer, pieces, subs)
    ensures AllFramed(subs) <==> PadsFit(env, opt, outer)
  {
    var extra := pieces[|outer|..];
    if PadsFit(env, opt, outer) {
      forall k | 0 <= k < |subs| ensures Framed(subs[k]) {
        var id := IdAt(outer, subs[k].idx);
        assert Backed(env, opt, outer, extra, subs[k], id);
        var j :| BackedBy(env, opt, outer, extra, subs[k], id, j);
      }
    } else {
      var j :| 0 <= j < |outer| && outer[j].comp.Some? && First(env, opt, outer, j, IdAt(outer, j)) && outer[j].comp.value.pad > MAX_PAD;
      NotFramed(env, opt, outer, pieces, subs, j);
    }
  }

  lemma NotFramed(env: Env, opt: Options, outer: seq<Piece>, pieces: seq<Piece>, subs: seq<Sub>, j: nat)
    requires IsComposition(env, opt, outer, pieces, subs)
    requires j < |outer| && outer[j].comp.Some? && First(env, opt, outer, j, IdAt(outer, j)) && outer[j].comp.value.pad > MAX_PAD
    ensures !AllFramed(subs)
  {
    var id, extra := IdAt(outer, j), pieces[|outer|..];
    assert Found(env, opt, outer, j + 1, id);
    assert Chosen(env, opt, outer, j);
    assert Names(subs, j);
    var k :| 0 <= k < |subs| && subs[k].idx == j;
    assert Backed(env, opt, outer, extra, subs[k], id);
    var i :| BackedBy(env, opt, outer, extra, subs[k], id, i);
    assert i < j ==> Found(env, opt, outer, j, id);
    assert j < i ==> Found(env, opt, outer, i, id);
    assert !Framed(subs[k]);
  }

  /** A caller's check: it is enough that no eligible piece has more padding. */
  lemma EligiblePadsFit(env: Env, opt: Options, outer: seq<Piece>)
    requires forall j :: 0 <= j < |outer| && Eligible(opt, outer[j].comp) ==> outer[j].comp.value.pad <= MAX_PAD
    ensures PadsFit(env, opt, outer)
  {}

  /** The depth byte of the record is the one the parser accepts. */
  predicate DepthKept(options: Options) { DepthOf(options) % 256 == 1 }

  /**
   Composes a plan and rebuilds it. The composition gives the outer plan's object back if and only
   if every replaced body's padding is at most 511 and the depth is kept; otherwise it cannot be
   rebuilt at all.
   */
  method ComposeThenRebuild(env: Env, outer: Plan, options: Options, get: Getter, ghost get0: Getter) returns (c: Outcome, r: Option<seq<byte>>)
    requires InnersStrict(env) && CompsOk(env, outer.pieces) && NoneDerived(outer.pieces) && |outer.pieces| < B63
    requires Originals(get0, outer.pieces) && (outer.rebuild.Some? ==> AsksOnly(outer.rebuild.value, Ids(outer.pieces)))
    ensures c.Substituted? ==> outer.rebuild.Some?
    ensures Composable(env, outer, options) ==> c.Substituted?
    ensures c.Substituted? && Stored(get, c.pieces) ==>
      r == if DepthKept(options) && PadsFit(env, SizeOf(options), outer.pieces) then Run(outer.rebuild.value, get0) else None
    ensures c.Substituted? && !(DepthKept(options) && PadsFit(env, SizeOf(options), outer.pieces)) ==> r == None
  {
    ghost var subs;
    c, subs := Compose.Compose(env, outer, options);
    r := None;
    if c.Substituted? {
      ghost var opt := SizeOf(options);
      assert Claim(c.record, |outer.pieces|, DepthOf(options), subs) by { Claimed(env, opt, outer.pieces, c.pieces, subs); }
      MarkedSame(env, opt, outer.pieces, subs, c.pieces[..|outer.pieces|], c.pieces[|outer.pieces|..]);
      FramedIff(env, opt, outer.pieces, c.pieces, subs);
      r := RebuildComposed(env, c.record, outer.rebuild.value, |outer.pieces|, c.pieces, get, DepthOf(options), subs);
      if Stored(get, c.pieces) {
        CompositionExact(env, opt, outer.pieces, outer.rebuild.value, c.pieces, subs, get, get0);
      }
    }
  }

  lemma Claimed(env: Env, opt: Options, outer: seq<Piece>, pieces: seq<Piece>, subs: seq<Sub>)
    requires IsComposition(env, opt, outer, pieces, subs) && |outer| < B63
    ensures Writable(subs, |outer|)
  {
    forall k | 0 <= k < |subs| ensures |subs[k].pre| <= MAX_PRE && subs[k].pad < B64 {
      assert Backed(env, opt, outer, pieces[|outer|..], subs[k], IdAt(outer, subs[k].idx));
    }
  }

  // ---- inputs that cannot be rebuilt ----

  /** A nested archive with padding behind it, as the one member of a plan; the digest tells the strings in play apart. */
  const NESTED: seq<byte> := [0x00, 0xa1] + Zeros(62)

  function NestedBody(pad: nat): seq<byte> { NESTED + Zeros(pad) }

  function NestedEnv(pad: nat): Env {
    Env((b: seq<byte>) => if b == NestedBody(pad) then Zeros(32) else Zeros(31) + [1],
        (k: byte, b: seq<byte>) => Some(Inner([], [])),
        (k: byte, b: seq<byte>) => Rebuild((answers: seq<Answer>) => if None in answers then Fail else Done(NESTED), 0))
  }

  /** The outer object is the member itself. */
  function NestedPlan(pad: nat): Plan {
    Plan([Piece(Some(Comp(Zeros(32), TarPayload, 64 + pad, 0, pad, Some(NestedBody(pad)))), false, false)],
         Some(Rebuild((answers: seq<Answer>) => if answers == [] then Ask(Zeros(32)) else if None in answers || |answers| > 1 then Fail else Done(answers[0].value), 1)),
         false)
  }

  function NestedStore(pad: nat): Getter { (id: digest) => if id == Zeros(32) then Some(NestedBody(pad)) else None }

  lemma NestedIsReplaced(pad: nat, options: Options)
    requires options.minSize == 1 && options.kinds == None && 64 + pad < B63
    ensures var env, outer, opt := NestedEnv(pad), NestedPlan(pad), SizeOf(options);
            && InnersStrict(env) && CompsOk(env, outer.pieces) && NoneDerived(outer.pieces) && Originals(NestedStore(pad), outer.pieces)
            && AsksOnly(outer.rebuild.value, Ids(outer.pieces)) && First(env, opt, outer.pieces, 0, Zeros(32))
            && Run(outer.rebuild.value, NestedStore(pad)) == Some(NestedBody(pad))
  {
    var env, outer, body := NestedEnv(pad), NestedPlan(pad), NestedBody(pad);
    var c := outer.pieces[0].comp.value;
    assert Object(c) == NESTED && body[64..] == Zeros(pad);
    assert Proved(env, KIND_CAR, NESTED, Inner([], []));
    assert Detect(NESTED) == Some(KIND_CAR);
    assert Source(env, SizeOf(options), outer.pieces, 0, Zeros(32));
  }

  /** A plan whose member has 512 zeros behind its nested object is composed, and the composition cannot be rebuilt over any store. */
  method LongPadding(get: Getter) returns (c: Outcome, r: Option<seq<byte>>)
    ensures c.Substituted? && r == None
    ensures DepthKept(Options(1, 1, None)) && Run(NestedPlan(512).rebuild.value, NestedStore(512)) == Some(NestedBody(512))
  {
    var options := Options(1, 1, None);
    NestedIsReplaced(512, options);
    assert Chosen(NestedEnv(512), SizeOf(options), NestedPlan(512).pieces, 0);
    assert Composable(NestedEnv(512), NestedPlan(512), options);
    c, r := ComposeThenRebuild(NestedEnv(512), NestedPlan(512), options, get, NestedStore(512));
  }

  /** With a negative depth a plan is composed, even one without padding, and the composition cannot be rebuilt over any store. */
  method NegativeDepth(get: Getter) returns (c: Outcome, r: Option<seq<byte>>)
    ensures c.Substituted? && r == None
    ensures Run(NestedPlan(0).rebuild.value, NestedStore(0)) == Some(NestedBody(0))
  {
    var options := Options(-1, 1, None);
    NestedIsReplaced(0, options);
    assert Chosen(NestedEnv(0), SizeOf(options), NestedPlan(0).pieces, 0);
    assert Composable(NestedEnv(0), NestedPlan(0), options);
    c, r := ComposeThenRebuild(NestedEnv(0), NestedPlan(0), options, get, NestedStore(0));
  }
}
