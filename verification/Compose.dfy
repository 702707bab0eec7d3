/** Substituting inner representations into an exact outer plan, and rebuilding the composition (composez3/composez3.go). */
module Compose {
  import opened Bytes
  import opened ComposeRecord
  import opened ComposeModel

  // ---- detection and inner encoding ----

  predicate HasPrefix(b: seq<byte>, x: seq<byte>) { Has(b, 0, x) }

  const ELF: seq<byte> := [0x7f, 0x45, 0x4c, 0x46]
  const SQLITE: seq<byte> := [0x53, 0x51, 0x4c, 0x69, 0x74, 0x65, 0x20, 0x66, 0x6f, 0x72, 0x6d, 0x61, 0x74, 0x20, 0x33, 0x00]

  /** The kind a payload looks like from its first bytes. */
  function Detect(b: seq<byte>): (k: Option<byte>)
    ensures k.Some? ==> Known(k.value)
  {
    if |b| >= 64 && HasPrefix(b, ELF) then Some(KIND_EXEC)
    else if |b| >= 1024 && b[0] == 0x4D && b[1] == 0x5A then Some(KIND_EXEC)
    else if |b| >= 512 && HasPrefix(b, SQLITE) then Some(KIND_SQLITE)
    else if |b| >= 64 && b[0] < 0x80 && (b[1] == 0xa2 || b[1] == 0xa1) then Some(KIND_CAR)
    else None
  }

  /** The store of the first `k` components; a later one with the same digest replaces an earlier one. */
  function StoreOf(comps: seq<Comp>, k: nat): map<digest, seq<byte>>
    requires k <= |comps|
  {
    if k == 0 then map[]
    else if comps[k - 1].data.None? then StoreOf(comps, k - 1)
    else StoreOf(comps, k - 1)[comps[k - 1].id := comps[k - 1].data.value]
  }

  function FromStore(m: map<digest, seq<byte>>): Getter { (id: digest) => if id in m then Some(m[id]) else None }

  predicate Readable(comps: seq<Comp>) { forall i :: 0 <= i < |comps| ==> comps[i].data.Some? }

  /** An inner representation rebuilds the payload from its recipe and components alone. */
  ghost predicate Proved(env: Env, k: byte, payload: seq<byte>, x: Inner) {
    Readable(x.comps) && RunInner(env, k, x.recipe, FromStore(StoreOf(x.comps, |x.comps|))) == Some(payload)
  }

  /** Makes an inner representation and proves it before it is used. */
  method Encode(env: Env, k: byte, payload: seq<byte>) returns (r: Option<Inner>)
    ensures r.Some? ==> Known(k) && r == env.encode(k, payload) && Proved(env, k, payload, r.value)
    ensures r.None? ==> !Known(k) || env.encode(k, payload).None? || !Proved(env, k, payload, env.encode(k, payload).value)
  {
    if !Known(k) {
      return None;
    }
    r := env.encode(k, payload);
    if r.None? {
      return;
    }
    var store, i := map[], 0;
    while i < |r.value.comps|
      invariant 0 <= i <= |r.value.comps| && store == StoreOf(r.value.comps, i)
      invariant forall j :: 0 <= j < i ==> r.value.comps[j].data.Some?
    {
      var c := r.value.comps[i];
      if c.data.None? {
        return None;
      }
      store := store[c.id := c.data.value];
      i := i + 1;
    }
    if RunInner(env, k, r.value.recipe, FromStore(store)) != Some(payload) {
      return None;
    }
  }

  // ---- what a store must hold ----

  /** The store has every piece whose bytes the plan stores. */
  ghost predicate Stored(get: Getter, pieces: seq<Piece>) {
    forall i :: 0 <= i < |pieces| && pieces[i].comp.Some? && !pieces[i].derived && pieces[i].comp.value.data.Some?
      ==> get(pieces[i].comp.value.id) == pieces[i].comp.value.data
  }

  /** A component's size and digest are those of its bytes. */
  predicate CompOk(env: Env, c: Comp) { c.data.Some? ==> |c.data.value| == c.size && env.sha(c.data.value) == c.id }

  /** A component among the stored pieces. */
  ghost predicate Lists(pieces: seq<Piece>, c: Comp) { exists i :: 0 <= i < |pieces| && pieces[i].comp == Some(c) && !pieces[i].derived }

  /** A substitution stands for `body`: its recipe and components are listed, and rebuild what the framing surrounds. */
  ghost predicate StandsFor(env: Env, pieces: seq<Piece>, s: Sub, body: seq<byte>, x: Inner, obj: seq<byte>) {
    && Known(s.kind) && Proved(env, s.kind, obj, x) && env.sha(x.recipe) == s.rid && body == Wrap(s, obj)
    && (exists c :: Lists(pieces, c) && c.id == s.rid && c.data == Some(x.recipe))
    && (forall i :: 0 <= i < |x.comps| ==> Lists(pieces, x.comps[i]))
  }

  ghost predicate Represents(env: Env, pieces: seq<Piece>, s: Sub, body: seq<byte>) {
    exists x, obj :: StandsFor(env, pieces, s, body, x, obj)
  }

  lemma {:induction false} StoreServed(get: Getter, comps: seq<Comp>, k: nat)
    requires k <= |comps| && forall i :: 0 <= i < k && comps[i].data.Some? ==> get(comps[i].id) == comps[i].data
    ensures Serves(FromStore(StoreOf(comps, k)), get)
  {
    if k > 0 { StoreServed(get, comps, k - 1); }
  }

  /** A store that holds the listed pieces serves the substituted component. */
  lemma DerivedIs(env: Env, pieces: seq<Piece>, s: Sub, body: seq<byte>, get: Getter, id: digest)
    requires InnersStrict(env) && Represents(env, pieces, s, body) && Stored(get, pieces) && env.sha(body) == id
    ensures Derived(env, s, get, id) == Some(body)
  {
    var x, obj :| StandsFor(env, pieces, s, body, x, obj);
    var c :| Lists(pieces, c) && c.id == s.rid && c.data == Some(x.recipe);
    assert get(s.rid) == Some(x.recipe);
    StoreServed(get, x.comps, |x.comps|);
    var r := env.rebuild(s.kind, x.recipe);
    RunMore(r, FromStore(StoreOf(x.comps, |x.comps|)), get, [], r.steps);
  }

  // ---- choosing what to substitute ----

  datatype Options = Options(depth: i64, minSize: int, kinds: Option<seq<byte>>)

  predicate Allowed(opt: Options, k: byte) { opt.kinds.None? || k in opt.kinds.value }

  /** A whole member body of a kind that can hold a nested object. */
  predicate Eligible(opt: Options, x: Option<Comp>) {
    x.Some? && var c := x.value;
    (c.class_ == TarPayload || c.class_ == GitObject) && c.size >= opt.minSize
    && 0 <= c.pad && 0 <= c.pre <= MAX_PRE && c.pad + c.pre < c.size
  }

  predicate AllZero(b: seq<byte>) { forall i :: 0 <= i < |b| ==> b[i] == 0 }

  /** The nested object of a member body. */
  function Object(c: Comp): seq<byte>
    requires c.data.Some? && 0 <= c.pre && 0 <= c.pad && c.pre + c.pad <= |c.data.value|
  {
    c.data.value[c.pre..|c.data.value| - c.pad]
  }

  ghost predicate Encodes(env: Env, k: byte, obj: seq<byte>) {
    env.encode(k, obj).Some? && Proved(env, k, obj, env.encode(k, obj).value)
  }

  /** A body that can be replaced by an inner representation of its nested object. */
  ghost predicate Replaceable(env: Env, opt: Options, c: Comp) {
    c.data.Some? && 0 <= c.pre && 0 <= c.pad && c.pre + c.pad <= |c.data.value|
    && AllZero(c.data.value[|c.data.value| - c.pad..])
    && var k := Detect(Object(c)); k.Some? && Allowed(opt, k.value) && Encodes(env, k.value, Object(c))
  }

  datatype Tried = Unread | Left | Made(s: Sub, x: Inner)

  method CheckZero(b: seq<byte>) returns (ok: bool)
    ensures ok == AllZero(b)
  {
    for i := 0 to |b|
      invariant forall j :: 0 <= j < i ==> b[j] == 0
    {
      if b[i] != 0 {
        return false;
      }
    }
    return true;
  }

  lemma Surround(body: seq<byte>, pre: nat, pad: nat)
    requires pre + pad <= |body| && AllZero(body[|body| - pad..])
    ensures body == body[..pre] + body[pre..|body| - pad] + Zeros(pad)
  {
    assert body[|body| - pad..] == Zeros(pad);
  }

  /** The object nested in a body, if it is of an allowed kind and only zeros follow it. */
  method Inspect(opt: Options, c: Comp) returns (k: Option<byte>)
    requires c.data.Some? && 0 <= c.pre && 0 <= c.pad && c.pre + c.pad <= |c.data.value|
    ensures k == if AllZero(c.data.value[|c.data.value| - c.pad..]) && Detect(Object(c)).Some? && Allowed(opt, Detect(Object(c)).value)
                 then Detect(Object(c)) else None
  {
    var body := c.data.value;
    var zero := CheckZero(body[|body| - c.pad..]);
    if !zero {
      return None;
    }
    k := Detect(Object(c));
    if k.None? || !Allowed(opt, k.value) {
      return None;
    }
  }

  /** Tries to represent one body; what it makes surrounds the nested object with the body's own framing. */
  method Try(env: Env, opt: Options, idx: nat, c: Comp) returns (r: Tried)
    requires CompOk(env, c) && Eligible(opt, Some(c))
    ensures r.Unread? <==> c.data.None?
    ensures r.Made? <==> Replaceable(env, opt, c)
    ensures r.Made? ==>
      && r.s.idx == idx && |r.s.pre| == c.pre && r.s.pad == c.pad && r.s.rid == env.sha(r.x.recipe) && Known(r.s.kind)
      && Proved(env, r.s.kind, Object(c), r.x) && c.data.value == Wrap(r.s, Object(c))
  {
    if c.data.None? {
      return Unread;
    }
    var k := Inspect(opt, c);
    if k.None? {
      return Left;
    }
    var x := Encode(env, k.value, Object(c));
    if x.None? {
      return Left;
    }
    Surround(c.data.value, c.pre, c.pad);
    return Made(Sub(idx, k.value, c.data.value[..c.pre], c.pad, env.sha(x.value.recipe)), x.value);
  }

  // ---- the composition ----

  ghost function IdAt(pieces: seq<Piece>, i: int): digest
    requires 0 <= i < |pieces| && pieces[i].comp.Some?
  {
    pieces[i].comp.value.id
  }

  /** Piece `j` is a body that is itself replaceable, under digest `id`. */
  ghost predicate Source(env: Env, opt: Options, pieces: seq<Piece>, j: int, id: digest) {
    0 <= j < |pieces| && Eligible(opt, pieces[j].comp) && IdAt(pieces, j) == id && Replaceable(env, opt, pieces[j].comp.value)
  }

  /** Some piece before `n` with this digest is replaceable. */
  ghost predicate Found(env: Env, opt: Options, pieces: seq<Piece>, n: int, id: digest) {
    exists j :: 0 <= j < n && Source(env, opt, pieces, j, id)
  }

  /** Piece `i` is substituted: it is eligible, and it or an earlier eligible piece of the same digest is replaceable. */
  ghost predicate Chosen(env: Env, opt: Options, pieces: seq<Piece>, i: int)
    requires 0 <= i < |pieces|
  {
    Eligible(opt, pieces[i].comp) && Found(env, opt, pieces, i + 1, IdAt(pieces, i))
  }

  /** A substitution for the component `id` of the outer plan. */
  ghost predicate Backed(env: Env, opt: Options, pieces: seq<Piece>, extra: seq<Piece>, s: Sub, id: digest) {
    |s.pre| <= MAX_PRE && s.pad < B63 && exists j :: BackedBy(env, opt, pieces, extra, s, id, j)
  }

  /** Piece `j` is the first replaceable one of its digest. */
  ghost predicate First(env: Env, opt: Options, pieces: seq<Piece>, j: int, id: digest) {
    Source(env, opt, pieces, j, id) && !Found(env, opt, pieces, j, id)
  }

  /** The substitution stands for the bytes of piece `j`, with its padding. */
  ghost predicate BackedBy(env: Env, opt: Options, pieces: seq<Piece>, extra: seq<Piece>, s: Sub, id: digest, j: int) {
    && First(env, opt, pieces, j, id) && s.pad == pieces[j].comp.value.pad
    && Represents(env, extra, s, pieces[j].comp.value.data.value)
  }

  lemma BackedMore(env: Env, opt: Options, pieces: seq<Piece>, extra: seq<Piece>, more: seq<Piece>, s: Sub, id: digest)
    requires Backed(env, opt, pieces, extra, s, id)
    ensures Backed(env, opt, pieces, extra + more, s, id)
  {
    var j :| BackedBy(env, opt, pieces, extra, s, id, j);
    var body := pieces[j].comp.value.data.value;
    IncludesLeft(extra, more);
    RepresentsIn(env, extra, extra + more, s, body);
    assert BackedBy(env, opt, pieces, extra + more, s, id, j);
  }

  /** More pieces, with the old ones among them. */
  ghost predicate Includes(more: seq<Piece>, pieces: seq<Piece>) { forall c :: Lists(pieces, c) ==> Lists(more, c) }

  lemma IncludesLeft(a: seq<Piece>, b: seq<Piece>)
    ensures Includes(a + b, a)
  {
    forall c | Lists(a, c) ensures Lists(a + b, c) {
      var i :| 0 <= i < |a| && a[i].comp == Some(c) && !a[i].derived;
      assert (a + b)[i] == a[i];
    }
  }

  lemma IncludesRight(a: seq<Piece>, b: seq<Piece>)
    ensures Includes(a + b, b)
  {
    forall c | Lists(b, c) ensures Lists(a + b, c) {
      var i :| 0 <= i < |b| && b[i].comp == Some(c) && !b[i].derived;
      assert (a + b)[|a| + i] == b[i];
    }
  }

  lemma RepresentsIn(env: Env, pieces: seq<Piece>, more: seq<Piece>, s: Sub, body: seq<byte>)
    requires Represents(env, pieces, s, body) && Includes(more, pieces)
    ensures Represents(env, more, s, body)
  {
    var x, obj :| StandsFor(env, pieces, s, body, x, obj);
    assert StandsFor(env, more, s, body, x, obj);
  }

  lemma FoundStep(env: Env, opt: Options, pieces: seq<Piece>, n: nat, id: digest)
    ensures Found(env, opt, pieces, n + 1, id) <==> Found(env, opt, pieces, n, id) || Source(env, opt, pieces, n, id)
  {}

  lemma FoundSteps(env: Env, opt: Options, pieces: seq<Piece>, n: nat)
    ensures forall id :: Found(env, opt, pieces, n + 1, id) <==> Found(env, opt, pieces, n, id) || Source(env, opt, pieces, n, id)
  {
    forall id ensures Found(env, opt, pieces, n + 1, id) <==> Found(env, opt, pieces, n, id) || Source(env, opt, pieces, n, id) {
      FoundStep(env, opt, pieces, n, id);
    }
  }

  /** The substitutions made among the first `i` pieces, all backed by the extra pieces. */
  ghost predicate SubsOk(env: Env, opt: Options, pieces: seq<Piece>, extra: seq<Piece>, i: nat, subs: seq<Sub>) {
    && i <= |pieces| && WellPlaced(subs, i)
    && forall k :: 0 <= k < |subs| ==>
         pieces[subs[k].idx].comp.Some? && Backed(env, opt, pieces, extra, subs[k], IdAt(pieces, subs[k].idx))
  }

  /** The representations made so far are those of the replaceable components. */
  ghost predicate Complete(env: Env, opt: Options, pieces: seq<Piece>, i: nat, done: map<digest, Sub>) {
    forall id :: id in done <==> Found(env, opt, pieces, i, id)
  }

  ghost predicate AllBacked(env: Env, opt: Options, pieces: seq<Piece>, extra: seq<Piece>, done: map<digest, Sub>) {
    forall id :: id in done ==> Backed(env, opt, pieces, extra, done[id], id)
  }

  ghost predicate DoneOk(env: Env, opt: Options, pieces: seq<Piece>, extra: seq<Piece>, i: nat, done: map<digest, Sub>) {
    Complete(env, opt, pieces, i, done) && AllBacked(env, opt, pieces, extra, done)
  }

  ghost predicate Names(subs: seq<Sub>, i: int) { exists k :: 0 <= k < |subs| && subs[k].idx == i }

  /** The chosen pieces, and no others, are substituted and marked. */
  ghost predicate MarksOk(env: Env, opt: Options, pieces: seq<Piece>, i: nat, subs: seq<Sub>, marked: seq<Piece>) {
    && i <= |pieces| == |marked|
    && (forall j :: 0 <= j < i ==> (Names(subs, j) <==> Chosen(env, opt, pieces, j)))
    && (forall j :: 0 <= j < |pieces| ==>
          marked[j] == if j < i && Chosen(env, opt, pieces, j) then pieces[j].(derived := true) else pieces[j])
  }

  lemma MarkNext(env: Env, opt: Options, pieces: seq<Piece>, i: nat, subs: seq<Sub>, marked: seq<Piece>, s: Sub)
    requires i < |pieces| && MarksOk(env, opt, pieces, i, subs, marked) && WellPlaced(subs, i) && s.idx == i
    ensures Chosen(env, opt, pieces, i) ==>
      MarksOk(env, opt, pieces, i + 1, subs + [s], marked[i := marked[i].(derived := true)])
    ensures !Chosen(env, opt, pieces, i) ==> MarksOk(env, opt, pieces, i + 1, subs, marked)
  {
    assert !Names(subs, i);
    forall j | 0 <= j <= i ensures Names(subs + [s], j) <==> Names(subs, j) || j == i {
      NamesMore(subs, s, j);
    }
  }

  lemma NamesMore(subs: seq<Sub>, s: Sub, j: int)
    ensures Names(subs + [s], j) <==> Names(subs, j) || s.idx == j
  {
    var more := subs + [s];
    assert more[|subs|] == s;
    if Names(subs, j) {
      var k :| 0 <= k < |subs| && subs[k].idx == j;
      assert more[k].idx == j;
    }
  }

  lemma SubNext(env: Env, opt: Options, pieces: seq<Piece>, extra: seq<Piece>, i: nat, subs: seq<Sub>, s: Sub)
    requires i < |pieces| && SubsOk(env, opt, pieces, extra, i, subs)
    ensures SubsOk(env, opt, pieces, extra, i + 1, subs)
    ensures pieces[i].comp.Some? && s.idx == i && Backed(env, opt, pieces, extra, s, IdAt(pieces, i)) ==>
      SubsOk(env, opt, pieces, extra, i + 1, subs + [s])
  {}

  lemma ExtraNext(env: Env, opt: Options, pieces: seq<Piece>, extra: seq<Piece>, more: seq<Piece>, i: nat, subs: seq<Sub>, done: map<digest, Sub>)
    requires SubsOk(env, opt, pieces, extra, i, subs) && DoneOk(env, opt, pieces, extra, i, done)
    ensures SubsOk(env, opt, pieces, extra + more, i, subs) && DoneOk(env, opt, pieces, extra + more, i, done)
  {
    forall k | 0 <= k < |subs| ensures Backed(env, opt, pieces, extra + more, subs[k], IdAt(pieces, subs[k].idx)) {
      BackedMore(env, opt, pieces, extra, more, subs[k], IdAt(pieces, subs[k].idx));
    }
    forall id | id in done ensures Backed(env, opt, pieces, extra + more, done[id], id) {
      BackedMore(env, opt, pieces, extra, more, done[id], id);
    }
  }

  /** The same representation, for another piece. */
  lemma BackedAgain(env: Env, opt: Options, pieces: seq<Piece>, extra: seq<Piece>, s: Sub, id: digest, i: nat)
    requires Backed(env, opt, pieces, extra, s, id)
    ensures Backed(env, opt, pieces, extra, s.(idx := i), id)
  {
    var j :| BackedBy(env, opt, pieces, extra, s, id, j);
    var body := pieces[j].comp.value.data.value;
    var x, obj :| StandsFor(env, extra, s, body, x, obj);
    assert StandsFor(env, extra, s.(idx := i), body, x, obj);
    assert Represents(env, extra, s.(idx := i), body);
    assert BackedBy(env, opt, pieces, extra, s.(idx := i), id, j);
  }

  /** The recipe and components of an inner representation, as pieces. */
  function InnerPieces(env: Env, x: Inner): seq<Piece> {
    [Piece(Some(Comp(env.sha(x.recipe), Other, |x.recipe|, 0, 0, Some(x.recipe))), true, false)]
    + seq(|x.comps|, i requires 0 <= i < |x.comps| => Piece(Some(x.comps[i]), true, false))
  }

  lemma InnerListed(env: Env, s: Sub, x: Inner, obj: seq<byte>)
    requires Known(s.kind) && s.rid == env.sha(x.recipe) && Proved(env, s.kind, obj, x)
    ensures Represents(env, InnerPieces(env, x), s, Wrap(s, obj))
  {
    var ps := InnerPieces(env, x);
    assert Lists(ps, ps[0].comp.value);
    forall k | 0 <= k < |x.comps| ensures Lists(ps, x.comps[k]) { assert ps[k + 1].comp == Some(x.comps[k]); }
    assert StandsFor(env, ps, s, Wrap(s, obj), x, obj);
  }

  lemma BackedNew(env: Env, opt: Options, pieces: seq<Piece>, i: nat, s: Sub, x: Inner, obj: seq<byte>)
    requires i < |pieces| && pieces[i].comp.Some? && pieces[i].comp.value.data == Some(Wrap(s, obj))
    requires First(env, opt, pieces, i, IdAt(pieces, i)) && s.pad == pieces[i].comp.value.pad
    requires |s.pre| <= MAX_PRE && s.pad < B63 && Known(s.kind) && s.rid == env.sha(x.recipe) && Proved(env, s.kind, obj, x)
    ensures Backed(env, opt, pieces, InnerPieces(env, x), s, IdAt(pieces, i))
  {
    InnerListed(env, s, x, obj);
    assert BackedBy(env, opt, pieces, InnerPieces(env, x), s, IdAt(pieces, i), i);
  }

  /** What the loop over the pieces has built: the marked pieces, the substitutions, the extra pieces, and the representations by component. */
  datatype Acc = Acc(marked: seq<Piece>, subs: seq<Sub>, extra: seq<Piece>, done: map<digest, Sub>)

  ghost predicate AccOk(env: Env, opt: Options, pieces: seq<Piece>, i: nat, a: Acc) {
    && SubsOk(env, opt, pieces, a.extra, i, a.subs)
    && DoneOk(env, opt, pieces, a.extra, i, a.done)
    && MarksOk(env, opt, pieces, i, a.subs, a.marked)
  }

  ghost predicate CompsOk(env: Env, pieces: seq<Piece>) {
    forall i :: 0 <= i < |pieces| && pieces[i].comp.Some? ==> CompOk(env, pieces[i].comp.value) && pieces[i].comp.value.size < B63
  }

  lemma DoneSame(env: Env, opt: Options, pieces: seq<Piece>, extra: seq<Piece>, i: nat, done: map<digest, Sub>)
    requires i < |pieces| && DoneOk(env, opt, pieces, extra, i, done)
    requires Eligible(opt, pieces[i].comp) && Replaceable(env, opt, pieces[i].comp.value) ==> IdAt(pieces, i) in done
    ensures DoneOk(env, opt, pieces, extra, i + 1, done)
  {
    FoundSteps(env, opt, pieces, i);
  }

  lemma CompleteNew(env: Env, opt: Options, pieces: seq<Piece>, i: nat, done: map<digest, Sub>, id: digest, s: Sub)
    requires i < |pieces| && Complete(env, opt, pieces, i, done) && Source(env, opt, pieces, i, id)
    ensures Complete(env, opt, pieces, i + 1, done[id := s])
  {
    var more := done[id := s];
    forall x ensures x in more <==> Found(env, opt, pieces, i + 1, x) {
      FoundStep(env, opt, pieces, i, x);
    }
  }

  lemma BackedToo(env: Env, opt: Options, pieces: seq<Piece>, extra: seq<Piece>, done: map<digest, Sub>, id: digest, s: Sub)
    requires AllBacked(env, opt, pieces, extra, done) && Backed(env, opt, pieces, extra, s, id)
    ensures AllBacked(env, opt, pieces, extra, done[id := s])
  {}

  lemma ChosenIf(env: Env, opt: Options, pieces: seq<Piece>, extra: seq<Piece>, i: nat, done: map<digest, Sub>)
    requires i < |pieces| && DoneOk(env, opt, pieces, extra, i, done)
    ensures Chosen(env, opt, pieces, i) <==>
      Eligible(opt, pieces[i].comp) && (IdAt(pieces, i) in done || Replaceable(env, opt, pieces[i].comp.value))
  {
    if Eligible(opt, pieces[i].comp) { FoundStep(env, opt, pieces, i, IdAt(pieces, i)); }
  }

  /** A piece that is left alone. */
  lemma PassOver(env: Env, opt: Options, pieces: seq<Piece>, i: nat, a: Acc)
    requires i < |pieces| && AccOk(env, opt, pieces, i, a)
    requires !Eligible(opt, pieces[i].comp) || (!Replaceable(env, opt, pieces[i].comp.value) && IdAt(pieces, i) !in a.done)
    ensures AccOk(env, opt, pieces, i + 1, a)
  {
    ChosenIf(env, opt, pieces, a.extra, i, a.done);
    DoneSame(env, opt, pieces, a.extra, i, a.done);
    var s := Sub(i, 0, [], 0, Zeros(32));
    SubNext(env, opt, pieces, a.extra, i, a.subs, s);
    MarkNext(env, opt, pieces, i, a.subs, a.marked, s);
  }

  /** A piece whose component has its representation already. */
  lemma PassAgain(env: Env, opt: Options, pieces: seq<Piece>, i: nat, a: Acc, s: Sub)
    requires i < |pieces| && AccOk(env, opt, pieces, i, a) && Eligible(opt, pieces[i].comp)
    requires IdAt(pieces, i) in a.done && s == a.done[IdAt(pieces, i)].(idx := i)
    ensures AccOk(env, opt, pieces, i + 1, a.(subs := a.subs + [s], marked := a.marked[i := a.marked[i].(derived := true)]))
  {
    ChosenIf(env, opt, pieces, a.extra, i, a.done);
    DoneSame(env, opt, pieces, a.extra, i, a.done);
    BackedAgain(env, opt, pieces, a.extra, a.done[IdAt(pieces, i)], IdAt(pieces, i), i);
    SubNext(env, opt, pieces, a.extra, i, a.subs, s);
    MarkNext(env, opt, pieces, i, a.subs, a.marked, s);
  }

  /** A piece that gets a representation of its own. */
  lemma PassNew(env: Env, opt: Options, pieces: seq<Piece>, i: nat, a: Acc, s: Sub, more: seq<Piece>)
    requires i < |pieces| && AccOk(env, opt, pieces, i, a) && Eligible(opt, pieces[i].comp)
    requires Replaceable(env, opt, pieces[i].comp.value) && s.idx == i && Backed(env, opt, pieces, more, s, IdAt(pieces, i))
    ensures AccOk(env, opt, pieces, i + 1, Acc(a.marked[i := a.marked[i].(derived := true)], a.subs + [s], a.extra + more, a.done[IdAt(pieces, i) := s]))
  {
    ChosenIf(env, opt, pieces, a.extra, i, a.done);
    ExtraNext(env, opt, pieces, a.extra, more, i, a.subs, a.done);
    BackedRight(env, opt, pieces, a.extra, more, s, IdAt(pieces, i));
    assert Source(env, opt, pieces, i, IdAt(pieces, i));
    CompleteNew(env, opt, pieces, i, a.done, IdAt(pieces, i), s);
    BackedToo(env, opt, pieces, a.extra + more, a.done, IdAt(pieces, i), s);
    SubNext(env, opt, pieces, a.extra + more, i, a.subs, s);
    MarkNext(env, opt, pieces, i, a.subs, a.marked, s);
  }

  lemma BackedRight(env: Env, opt: Options, pieces: seq<Piece>, extra: seq<Piece>, more: seq<Piece>, s: Sub, id: digest)
    requires Backed(env, opt, pieces, more, s, id)
    ensures Backed(env, opt, pieces, extra + more, s, id)
  {
    var j :| BackedBy(env, opt, pieces, more, s, id, j);
    var body := pieces[j].comp.value.data.value;
    IncludesRight(extra, more);
    RepresentsIn(env, more, extra + more, s, body);
    assert BackedBy(env, opt, pieces, extra + more, s, id, j);
  }

  /** One piece: left alone, represented as before, or represented anew; `None` when its bytes cannot be read. */
  method AddPiece(env: Env, opt: Options, pieces: seq<Piece>, i: nat, a: Acc) returns (r: Option<Acc>)
    requires i < |pieces| && CompsOk(env, pieces) && AccOk(env, opt, pieces, i, a)
    ensures r.Some? ==> AccOk(env, opt, pieces, i + 1, r.value)
    ensures r.None? ==> Eligible(opt, pieces[i].comp) && pieces[i].comp.value.data.None?
  {
    if !Eligible(opt, pieces[i].comp) {
      PassOver(env, opt, pieces, i, a);
      return Some(a);
    }
    var c := pieces[i].comp.value;
    if c.id in a.done {
      var s := a.done[c.id].(idx := i);
      PassAgain(env, opt, pieces, i, a, s);
      return Some(a.(subs := a.subs + [s], marked := a.marked[i := a.marked[i].(derived := true)]));
    }
    var t := Try(env, opt, i, c);
    match t {
      case Unread => return None;
      case Left =>
        PassOver(env, opt, pieces, i, a);
        return Some(a);
      case Made(s, x) =>
        assert First(env, opt, pieces, i, c.id);
        BackedNew(env, opt, pieces, i, s, x, Object(c));
        PassNew(env, opt, pieces, i, a, s, InnerPieces(env, x));
        return Some(Acc(a.marked[i := a.marked[i].(derived := true)], a.subs + [s], a.extra + InnerPieces(env, x), a.done[c.id := s]));
    }
  }

  datatype Plan = Plan(pieces: seq<Piece>, rebuild: Option<Rebuild>, oracle: bool)

  datatype Outcome = DepthRefused | NotExact | HasVia | Unreadable | Unchanged | Substituted(pieces: seq<Piece>, record: seq<byte>)

  function DepthOf(opt: Options): i64 { if opt.depth == 0 then 1 else opt.depth }

  /** The check on the depth, in 64-bit arithmetic. */
  predicate TooDeep(opt: Options) { ToI64(DepthOf(opt) + 1) > MAX_DEPTH }

  function SizeOf(opt: Options): Options { if opt.minSize == 0 then opt.(minSize := 0x1_0000) else opt }

  /** What a composition is: the outer pieces, marked where substituted, then the extra pieces that back the substitutions. */
  ghost predicate IsComposition(env: Env, opt: Options, outer: seq<Piece>, pieces: seq<Piece>, subs: seq<Sub>) {
    && |outer| <= |pieces|
    && SubsOk(env, opt, outer, pieces[|outer|..], |outer|, subs)
    && MarksOk(env, opt, outer, |outer|, subs, pieces[..|outer|])
  }

  datatype Added = MetVia | MetUnread | Added(acc: Acc)

  ghost predicate NoVia(pieces: seq<Piece>, n: int)
    requires n <= |pieces|
  {
    forall i :: 0 <= i < n ==> !pieces[i].via
  }

  lemma AccStart(env: Env, opt: Options, pieces: seq<Piece>)
    ensures AccOk(env, opt, pieces, 0, Acc(pieces, [], [], map[]))
  {}

  lemma AccComposes(env: Env, opt: Options, pieces: seq<Piece>, a: Acc)
    requires AccOk(env, opt, pieces, |pieces|, a)
    ensures IsComposition(env, opt, pieces, a.marked + a.extra, a.subs)
  {
    var all := a.marked + a.extra;
    assert all[..|pieces|] == a.marked && all[|pieces|..] == a.extra;
  }

  lemma NothingChosen(env: Env, opt: Options, pieces: seq<Piece>, a: Acc)
    requires AccOk(env, opt, pieces, |pieces|, a) && a.subs == []
    ensures forall i :: 0 <= i < |pieces| ==> !Chosen(env, opt, pieces, i)
  {
    assert forall j :: 0 <= j < |pieces| ==> !Names(a.subs, j);
  }

  /** All the pieces of the outer plan, up to one with a route of its own or one that cannot be read. */
  method AddAll(env: Env, opt: Options, pieces: seq<Piece>) returns (r: Added)
    requires CompsOk(env, pieces)
    ensures r.MetVia? ==> exists i :: 0 <= i < |pieces| && pieces[i].via
    ensures r.MetUnread? ==> exists i :: 0 <= i < |pieces| && Eligible(opt, pieces[i].comp) && pieces[i].comp.value.data.None?
    ensures r.Added? ==> NoVia(pieces, |pieces|) && AccOk(env, opt, pieces, |pieces|, r.acc)
  {
    var a := Acc(pieces, [], [], map[]);
    AccStart(env, opt, pieces);
    var i := 0;
    while i < |pieces|
      invariant 0 <= i <= |pieces| && AccOk(env, opt, pieces, i, a) && NoVia(pieces, i)
    {
      if pieces[i].via {
        return MetVia;
      }
      var next := AddPiece(env, opt, pieces, i, a);
      if next.None? {
        return MetUnread;
      }
      a := next.value;
      i := i + 1;
    }
    return Added(a);
  }

  /** The depth is in bounds, the plan is exact, every piece is listed and can be read, and some piece is to be substituted. */
  ghost predicate Composable(env: Env, outer: Plan, options: Options) {
    && !TooDeep(options) && outer.rebuild.Some? && !outer.oracle
    && (forall i :: 0 <= i < |outer.pieces| ==> !outer.pieces[i].via && (outer.pieces[i].comp.Some? ==> outer.pieces[i].comp.value.data.Some?))
    && (exists i :: 0 <= i < |outer.pieces| && Chosen(env, SizeOf(options), outer.pieces, i))
  }

  /** Substitutes inner representations for the members of an exact outer plan. */
  method Compose(env: Env, outer: Plan, options: Options) returns (r: Outcome, ghost subs: seq<Sub>)
    requires CompsOk(env, outer.pieces)
    ensures r.DepthRefused? <==> TooDeep(options)
    ensures r.NotExact? <==> !r.DepthRefused? && (outer.rebuild.None? || outer.oracle)
    ensures r.HasVia? ==> exists i :: 0 <= i < |outer.pieces| && outer.pieces[i].via
    ensures r.Unreadable? ==> exists i :: 0 <= i < |outer.pieces| && Eligible(SizeOf(options), outer.pieces[i].comp) && outer.pieces[i].comp.value.data.None?
    ensures r.Unchanged? || r.Substituted? ==> forall i :: 0 <= i < |outer.pieces| ==> !outer.pieces[i].via
    ensures r.Unchanged? ==> forall i :: 0 <= i < |outer.pieces| ==> !Chosen(env, SizeOf(options), outer.pieces, i)
    ensures Composable(env, outer, options) ==> r.Substituted?
    ensures r.Substituted? ==>
      subs != [] && r.record == RecordBytes(DepthOf(options), subs) && IsComposition(env, SizeOf(options), outer.pieces, r.pieces, subs)
  {
    subs := [];
    var depth: int := DepthOf(options);
    if ToI64(depth + 1) > MAX_DEPTH {
      return DepthRefused, subs;
    }
    var opt := SizeOf(options);
    if outer.rebuild.None? || outer.oracle {
      return NotExact, subs;
    }
    var a := AddAll(env, opt, outer.pieces);
    if a.MetVia? {
      return HasVia, subs;
    }
    if a.MetUnread? {
      return Unreadable, subs;
    }
    subs := a.acc.subs;
    if |a.acc.subs| == 0 {
      NothingChosen(env, opt, outer.pieces, a.acc);
      return Unchanged, subs;
    }
    var record := Marshal(depth, a.acc.subs);
    AccComposes(env, opt, outer.pieces, a.acc);
    return Substituted(a.acc.marked + a.acc.extra, record), subs;
  }
}
