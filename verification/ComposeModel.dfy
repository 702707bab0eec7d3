/**
 Plans, and rebuilding as a dialogue with a component store (composez3/composez3.go, with the
 pieces of lab/model.go).
 */
module ComposeModel {
  import opened Bytes
  import opened ComposeRecord

  // ---- rebuilding ----

  type Answer = Option<seq<byte>>
  type Getter = digest -> Answer

  /** A rebuild is known by what it does after each list of answers: it asks for a component, ends with the object, or gives up. */
  datatype Action = Ask(id: digest) | Done(out: seq<byte>) | Fail
  datatype Rebuild = Rebuild(act: seq<Answer> -> Action, steps: nat)

  function RunFrom(r: Rebuild, get: Getter, answers: seq<Answer>, k: nat): Option<seq<byte>>
    decreases k
  {
    match r.act(answers)
    case Done(out) => Some(out)
    case Fail => None
    case Ask(id) => if k == 0 then None else RunFrom(r, get, answers + [get(id)], k - 1)
  }

  /** What a rebuild writes, if it ends. */
  function Run(r: Rebuild, get: Getter): Option<seq<byte>> { RunFrom(r, get, [], r.steps) }

  ghost predicate AsksOnly(r: Rebuild, ids: set<digest>) {
    forall answers: seq<Answer> :: r.act(answers).Ask? ==> r.act(answers).id in ids
  }

  /** A failed fetch is never ignored. */
  ghost predicate Strict(r: Rebuild) { forall answers: seq<Answer> :: None in answers ==> r.act(answers) == Fail }

  /** A rebuild that asks only for some components depends only on those. */
  lemma {:induction false} RunSame(r: Rebuild, g: Getter, h: Getter, ids: set<digest>, answers: seq<Answer>, k: nat)
    requires AsksOnly(r, ids) && forall id :: id in ids ==> g(id) == h(id)
    ensures RunFrom(r, g, answers, k) == RunFrom(r, h, answers, k)
    decreases k
  {
    if r.act(answers).Ask? && k > 0 { RunSame(r, g, h, ids, answers + [g(r.act(answers).id)], k - 1); }
  }

  /** `h` serves what `g` serves. */
  ghost predicate Serves(g: Getter, h: Getter) { forall id :: g(id).Some? ==> h(id) == g(id) }

  /** A strict rebuild that succeeds does the same with a store that has more. */
  lemma {:induction false} RunMore(r: Rebuild, g: Getter, h: Getter, answers: seq<Answer>, k: nat)
    requires Strict(r) && Serves(g, h) && RunFrom(r, g, answers, k).Some?
    ensures RunFrom(r, h, answers, k) == RunFrom(r, g, answers, k)
    decreases k
  {
    if r.act(answers).Ask? && k > 0 {
      var id := r.act(answers).id;
      var next := answers + [g(id)];
      if g(id).None? { assert next[|answers|] == None; }
      RunMore(r, g, h, next, k - 1);
    }
  }

  // ---- plans ----

  datatype Class = TarPayload | GitObject | Other

  datatype Comp = Comp(id: digest, class_: Class, size: int, pre: int, pad: int, data: Option<seq<byte>>)

  datatype Piece = Piece(comp: Option<Comp>, via: bool, derived: bool)

  /** The inner transform made for a payload: its recipe and components. */
  datatype Inner = Inner(recipe: seq<byte>, comps: seq<Comp>)

  /** What lies outside this package: the digest, the three inner transforms, and their rebuilds. */
  datatype Env = Env(sha: seq<byte> -> digest, encode: (byte, seq<byte>) -> Option<Inner>, rebuild: (byte, seq<byte>) -> Rebuild)

  const KIND_EXEC: byte := 1
  const KIND_SQLITE: byte := 2
  const KIND_CAR: byte := 3

  predicate Known(k: byte) { k == KIND_EXEC || k == KIND_SQLITE || k == KIND_CAR }

  /** Rebuilds an inner object from its recipe. */
  function RunInner(env: Env, k: byte, recipe: seq<byte>, get: Getter): Option<seq<byte>> {
    if Known(k) then Run(env.rebuild(k, recipe), get) else None
  }

  ghost predicate InnersStrict(env: Env) { forall k: byte, recipe: seq<byte> :: Strict(env.rebuild(k, recipe)) }

  // ---- the composed getter ----

  /** A substituted component: rebuilt by its inner recipe, framed, and checked against its digest. */
  function Derived(env: Env, s: Sub, get: Getter, id: digest): Answer {
    var recipe := get(s.rid);
    if recipe.None? || env.sha(recipe.value) != s.rid then None
    else
      var x := RunInner(env, s.kind, recipe.value, get);
      if x.None? || env.sha(Wrap(s, x.value)) != id then None else Some(Wrap(s, x.value))
  }

  function Wrap(s: Sub, x: seq<byte>): seq<byte> { s.pre + x + Zeros(s.pad) }

  function Composed(env: Env, byId: map<digest, Sub>, get: Getter): Getter {
    (id: digest) => if id in byId then Derived(env, byId[id], get, id) else get(id)
  }

  /** What a composed getter serves in place of a component has the component's digest. */
  lemma DerivedDigest(env: Env, byId: map<digest, Sub>, get: Getter, id: digest)
    requires id in byId && Composed(env, byId, get)(id).Some?
    ensures env.sha(Composed(env, byId, get)(id).value) == id
  {}

  /** The last entry for each component of the first `k` entries. */
  function ById(pieces: seq<Piece>, subs: seq<Sub>, k: nat): map<digest, Sub>
    requires k <= |subs| && WellPlaced(subs, |pieces|)
    requires forall i :: 0 <= i < k ==> pieces[subs[i].idx].comp.Some?
  {
    if k == 0 then map[] else ById(pieces, subs, k - 1)[pieces[subs[k - 1].idx].comp.value.id := subs[k - 1]]
  }

  lemma {:induction false} ByIdHolds(pieces: seq<Piece>, subs: seq<Sub>, k: nat, id: digest)
    requires k <= |subs| && WellPlaced(subs, |pieces|)
    requires forall i :: 0 <= i < k ==> pieces[subs[i].idx].comp.Some?
    ensures id in ById(pieces, subs, k) <==> exists i :: 0 <= i < k && pieces[subs[i].idx].comp.value.id == id
    ensures id in ById(pieces, subs, k) ==>
      exists i :: 0 <= i < k && pieces[subs[i].idx].comp.value.id == id && ById(pieces, subs, k)[id] == subs[i]
  {
    if k > 0 { ByIdHolds(pieces, subs, k - 1, id); }
  }
}
