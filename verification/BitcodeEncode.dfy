/** Cutting a parsed bitstream into exact byte spans (bitcodez3/encode.go). */
module BitcodeEncode {
  import opened Bytes
  import opened Sorting
  import opened BitcodeModel
  import opened BitcodeShape

  const MAX_SPAN := 0x100_0000
  const GROUP := 4096
  const REACH := 32
  const FUNCTION_BLOCK := 12

  datatype Span = Span(off: nat, len: nat) {
    function End(): nat { off + len }
  }

  datatype Mode = Functions | Leaves | Records | Unknown

  /** Non-empty spans, one after the other, from `off` on, inside `n` bytes. */
  predicate OrderedFrom(ss: seq<Span>, k: nat, off: nat, n: nat)
    requires k <= |ss|
    decreases |ss| - k
  {
    if k == |ss| then off <= n
    else off <= ss[k].off && ss[k].len > 0 && ss[k].End() <= n && OrderedFrom(ss, k + 1, ss[k].End(), n)
  }

  predicate Ordered(ss: seq<Span>, n: nat) { OrderedFrom(ss, 0, 0, n) }

  ghost predicate Apart(ss: seq<Span>, n: nat) {
    && (forall i :: 0 <= i < |ss| ==> ss[i].len > 0 && ss[i].End() <= n)
    && (forall i, j :: 0 <= i < j < |ss| ==> ss[i].End() <= ss[j].off)
  }

  lemma {:induction false} ApartOrdered(ss: seq<Span>, k: nat, off: nat, n: nat)
    requires k <= |ss| && Apart(ss, n) && off <= n && (k < |ss| ==> off <= ss[k].off)
    ensures OrderedFrom(ss, k, off, n)
    decreases |ss| - k
  {
    if k < |ss| { ApartOrdered(ss, k + 1, ss[k].End(), n); }
  }

  lemma {:induction false} OrderedAfter(ss: seq<Span>, k: nat, off: nat, n: nat, j: nat)
    requires k <= j < |ss| && OrderedFrom(ss, k, off, n)
    ensures off <= ss[j].off && ss[j].End() <= n
    decreases |ss| - k
  {
    if k < j { OrderedAfter(ss, k + 1, ss[k].End(), n, j); }
  }

  // ---- pieces ----

  /** Piece `i` is the span's bytes, at the span's place. */
  ghost predicate StoredAt(ps: seq<seq<byte>>, i: int, d: seq<byte>, s: Span) {
    0 <= i < |ps| && s.End() <= |d| && ps[i] == d[s.off..s.End()] && |Flat(ps[..i])| == s.off
  }

  ghost predicate Stored(ps: seq<seq<byte>>, d: seq<byte>, s: Span) { exists i :: StoredAt(ps, i, d, s) }

  ghost predicate Extends(ps: seq<seq<byte>>, qs: seq<seq<byte>>) {
    |ps| <= |qs| && forall i :: 0 <= i < |ps| ==> qs[i] == ps[i]
  }

  lemma StillStored(ps: seq<seq<byte>>, qs: seq<seq<byte>>, d: seq<byte>, s: Span)
    requires Stored(ps, d, s) && Extends(ps, qs)
    ensures Stored(qs, d, s)
  {
    var i :| StoredAt(ps, i, d, s);
    assert qs[..i] == ps[..i];
    assert StoredAt(qs, i, d, s);
  }

  /** The gap chunker only has to cut what it is given. */
  ghost predicate Chunker(chunk: seq<byte> -> seq<seq<byte>>) { forall b :: Flat(chunk(b)) == b }

  method AddPiece(ps: seq<seq<byte>>, b: seq<byte>) returns (r: seq<seq<byte>>)
    requires [] !in ps
    ensures Extends(ps, r) && [] !in r && Flat(r) == Flat(ps) + b
    ensures b != [] ==> r == ps + [b]
  {
    if b == [] {
      return ps;
    }
    r := ps + [b];
    FlatSnoc(ps, b);
  }

  method AddPieces(ps: seq<seq<byte>>, qs: seq<seq<byte>>) returns (r: seq<seq<byte>>)
    requires [] !in ps
    ensures Extends(ps, r) && [] !in r && Flat(r) == Flat(ps) + Flat(qs)
  {
    r := ps;
    for i := 0 to |qs|
      invariant Extends(ps, r) && [] !in r && Flat(r) == Flat(ps) + Flat(qs[..i])
    {
      r := AddPiece(r, qs[i]);
      FlatSnoc(qs[..i], qs[i]);
      assert qs[..i + 1] == qs[..i] + [qs[i]];
      Glue(Flat(ps), Flat(qs[..i]), qs[i]);
    }
    assert qs[..|qs|] == qs;
  }

  lemma NextBytes(d: seq<byte>, from: nat, to: nat)
    requires from <= to <= |d|
    ensures d[..from] + d[from..to] == d[..to]
  {}

  /** A span stored after what comes before it. */
  method AddSpan(d: seq<byte>, ps: seq<seq<byte>>, off: nat, s: Span, chunk: seq<byte> -> seq<seq<byte>>) returns (r: seq<seq<byte>>)
    requires Chunker(chunk) && [] !in ps && off <= s.off && s.len > 0 && s.End() <= |d| && Flat(ps) == d[..off]
    ensures Extends(ps, r) && [] !in r && Flat(r) == d[..s.End()] && Stored(r, d, s)
  {
    var gap := AddPieces(ps, chunk(d[off..s.off]));
    NextBytes(d, off, s.off);
    r := AddPiece(gap, d[s.off..s.End()]);
    NextBytes(d, s.off, s.End());
    assert r[..|gap|] == gap;
    assert StoredAt(r, |gap|, d, s);
  }

  /** Stores every span as one piece and cuts the gaps between them; fails exactly on spans out of order or out of range. */
  method Regions(d: seq<byte>, spans: seq<Span>, chunk: seq<byte> -> seq<seq<byte>>) returns (r: Option<seq<seq<byte>>>)
    requires Chunker(chunk)
    ensures r.None? <==> !Ordered(spans, |d|)
    ensures r.Some? ==> Flat(r.value) == d && [] !in r.value
    ensures r.Some? ==> forall k :: 0 <= k < |spans| ==> Stored(r.value, d, spans[k])
  {
    var ps: seq<seq<byte>> := [];
    var off: nat := 0;
    for k := 0 to |spans|
      invariant off <= |d| && [] !in ps && Flat(ps) == d[..off]
      invariant OrderedFrom(spans, k, off, |d|) <==> Ordered(spans, |d|)
      invariant forall j :: 0 <= j < k ==> Stored(ps, d, spans[j])
    {
      var s := spans[k];
      if s.off < off || s.len <= 0 || s.off > |d| || s.len > |d| - s.off {
        return None;
      }
      ghost var was := ps;
      ps := AddSpan(d, ps, off, s, chunk);
      forall j | 0 <= j < k ensures Stored(ps, d, spans[j]) { StillStored(was, ps, d, spans[j]); }
      off := s.End();
    }
    ghost var was := ps;
    ps := AddPieces(ps, chunk(d[off..]));
    NextBytes(d, off, |d|);
    assert d[off..|d|] == d[off..] && d[..|d|] == d;
    forall j | 0 <= j < |spans| ensures Stored(ps, d, spans[j]) { StillStored(was, ps, d, spans[j]); }
    return Some(ps);
  }

  // ---- spans ----

  /** The byte extent of a block's body. */
  function BodySpan(b: Block): (s: Span)
    requires BlockOk(b)
    ensures 8 * s.off == b.body && 8 * s.End() == b.end && s.len > 0
  {
    WholeBytes(b.body, b.end);
    Span(b.body / 8, (b.end - b.body) / 8)
  }

  /** Between word boundaries there are whole bytes. */
  lemma WholeBytes(x: nat, y: nat)
    requires x % 32 == 0 && y % 32 == 0 && x < y
    ensures 8 * (x / 8) == x && 8 * ((y - x) / 8) == y - x && 8 * (x / 8 + (y - x) / 8) == y && (y - x) / 8 > 0
  {
    var a, b := x / 32, y / 32;
    Quarter(x, a);
    Quarter(y - x, b - a);
  }

  lemma Quarter(x: nat, a: nat)
    requires x == 32 * a
    ensures x / 8 == 4 * a
  {}

  /** Block `j` is nested in block `i`. */
  predicate Nested(b: Block, c: Block) { b.body <= c.start && c.end <= b.end }

  ghost predicate Leaf(bs: seq<Block>, i: nat)
    requires i < |bs|
  {
    forall j :: i < j < |bs| ==> !Nested(bs[i], bs[j])
  }

  /** In preorder the next block says whether a block holds others. */
  lemma LeafByNext(lo: nat, hi: nat, bs: seq<Block>, i: nat)
    requires BlocksOk(lo, hi, bs) && i < |bs|
    ensures Leaf(bs, i) <==> i + 1 == |bs| || bs[i + 1].body >= bs[i].end
  {
    if i + 1 < |bs| {
      assert InsideOrAfter(bs[i], bs[i + 1]) && BlockOk(bs[i + 1]);
      forall j | i < j < |bs| && bs[i + 1].start >= bs[i].end ensures !Nested(bs[i], bs[j]) {
        assert i + 1 < j ==> InsideOrAfter(bs[i + 1], bs[j]);
        assert BlockOk(bs[j]);
      }
    }
  }

  /** The spans are the bodies of the blocks with the given numbers, in order: all that `want` asks for and no others. */
  ghost predicate Bodies(bs: seq<Block>, k: nat, want: nat -> bool, ss: seq<Span>, at: seq<nat>) {
    && |at| == |ss|
    && (forall l :: 0 <= l < |at| ==> at[l] < k <= |bs| && want(at[l]) && BlockOk(bs[at[l]]) && ss[l] == BodySpan(bs[at[l]]))
    && (forall l, m :: 0 <= l < m < |at| ==> at[l] < at[m])
    && (forall i: nat :: i < k && want(i) ==> i in at)
  }

  lemma MoreBodies(bs: seq<Block>, k: nat, want: nat -> bool, ss: seq<Span>, at: seq<nat>)
    requires k < |bs| && BlockOk(bs[k]) && Bodies(bs, k, want, ss, at)
    ensures want(k) ==> Bodies(bs, k + 1, want, ss + [BodySpan(bs[k])], at + [k])
    ensures !want(k) ==> Bodies(bs, k + 1, want, ss, at)
  {
    var more := at + [k];
    forall i: nat | i < k && want(i) ensures i in more { assert i in at; }
    assert more[|at|] == k;
  }

  /** The `functions` mode: the body of every function block. */
  method FunctionSpans(bs: seq<Block>, ghost lo: nat, ghost hi: nat) returns (ss: seq<Span>, ghost at: seq<nat>)
    requires BlocksOk(lo, hi, bs)
    ensures Bodies(bs, |bs|, (i: nat) => i < |bs| && bs[i].id == FUNCTION_BLOCK, ss, at)
  {
    ss, at := [], [];
    for i := 0 to |bs|
      invariant Bodies(bs, i, (i: nat) => i < |bs| && bs[i].id == FUNCTION_BLOCK, ss, at)
    {
      MoreBodies(bs, i, (i: nat) => i < |bs| && bs[i].id == FUNCTION_BLOCK, ss, at);
      if bs[i].id == FUNCTION_BLOCK {
        ss, at := ss + [BodySpan(bs[i])], at + [i];
      }
    }
  }

  /** The `leaves` mode: the body of every block without blocks inside. */
  method LeafSpans(bs: seq<Block>, ghost lo: nat, ghost hi: nat) returns (ss: seq<Span>, ghost at: seq<nat>)
    requires BlocksOk(lo, hi, bs)
    ensures Bodies(bs, |bs|, (i: nat) => i < |bs| && Leaf(bs, i), ss, at)
  {
    ss, at := [], [];
    for i := 0 to |bs|
      invariant Bodies(bs, i, (i: nat) => i < |bs| && Leaf(bs, i), ss, at)
    {
      LeafByNext(lo, hi, bs, i);
      MoreBodies(bs, i, (i: nat) => i < |bs| && Leaf(bs, i), ss, at);
      if i + 1 == |bs| || bs[i + 1].body >= bs[i].end {
        ss, at := ss + [BodySpan(bs[i])], at + [i];
      }
    }
  }

  /** Bodies of blocks of which none is nested in another lie apart, and conversely. */
  lemma BodiesApart(lo: nat, n: nat, bs: seq<Block>, want: nat -> bool, ss: seq<Span>, at: seq<nat>)
    requires BlocksOk(lo, 8 * n, bs) && Bodies(bs, |bs|, want, ss, at)
    ensures Ordered(ss, n) <==> forall i: nat, j: nat :: i < j < |bs| && want(i) && want(j) ==> !Nested(bs[i], bs[j])
  {
    if forall i: nat, j: nat :: i < j < |bs| && want(i) && want(j) ==> !Nested(bs[i], bs[j]) {
      forall k, l | 0 <= k < l < |ss| ensures ss[k].End() <= ss[l].off {
        assert InsideOrAfter(bs[at[k]], bs[at[l]]);
        assert !Nested(bs[at[k]], bs[at[l]]);
      }
      assert forall k :: 0 <= k < |ss| ==> Within(lo, bs[at[k]].start, bs[at[k]].end, 8 * n);
      ApartOrdered(ss, 0, 0, n);
    } else {
      var i: nat, j: nat :| i < j < |bs| && want(i) && want(j) && Nested(bs[i], bs[j]);
      NestedClash(bs, want, ss, at, i, j, n);
    }
  }

  lemma NestedClash(bs: seq<Block>, want: nat -> bool, ss: seq<Span>, at: seq<nat>, i: nat, j: nat, n: nat)
    requires Bodies(bs, |bs|, want, ss, at)
    requires i < j < |bs| && want(i) && want(j) && Nested(bs[i], bs[j])
    ensures !Ordered(ss, n)
  {
    assert i in at && j in at;
    var k :| 0 <= k < |at| && at[k] == i;
    var l :| 0 <= l < |at| && at[l] == j;
    assert k < l;
    if Ordered(ss, n) { OrderedPair(ss, 0, 0, n, k, l); }
  }

  lemma {:induction false} OrderedPair(ss: seq<Span>, k: nat, off: nat, n: nat, i: nat, j: nat)
    requires k <= i < j < |ss| && OrderedFrom(ss, k, off, n)
    ensures ss[i].End() <= ss[j].off
    decreases |ss| - k
  {
    if k < i { OrderedPair(ss, k + 1, ss[k].End(), n, i, j); } else { OrderedAfter(ss, k + 1, ss[k].End(), n, j); }
  }

  // ---- groups of records ----

  /** The whole bytes of a record, cuts rounded down; boundary bits stay in the bytes around it. */
  datatype Cut = Cut(first: nat, last: nat, block: nat) {
    predicate Visible() { first < last }
  }

  function Cuts(rs: seq<Record>): (cs: seq<Cut>)
    ensures |cs| == |rs| && forall i :: 0 <= i < |rs| ==> cs[i] == Cut(rs[i].start / 8, rs[i].end / 8, rs[i].block)
  {
    seq(|rs|, i requires 0 <= i < |rs| => Cut(rs[i].start / 8, rs[i].end / 8, rs[i].block))
  }

  predicate In(c: Cut, s: Span) { c.Visible() && s.off <= c.first && c.last <= s.End() }

  ghost predicate Covered(c: Cut, ss: seq<Span>) { exists k :: 0 <= k < |ss| && In(c, ss[k]) }

  ghost predicate Single(cs: seq<Cut>, i: nat, s: Span)
    requires i <= |cs|
  {
    exists j :: 0 <= j < i && In(cs[j], s) && cs[j].first == s.off && cs[j].last == s.End()
  }

  ghost predicate OneBlock(cs: seq<Cut>, i: nat, s: Span, block: nat)
    requires i <= |cs|
  {
    forall j :: 0 <= j < i && In(cs[j], s) ==> cs[j].block == block
  }

  /** A group among the first `i` records: of one block, and at most 4 KiB unless it is a single record. */
  ghost predicate Group(cs: seq<Cut>, i: nat, s: Span)
    requires i <= |cs|
  {
    && s.len > 0 && (s.len <= GROUP || Single(cs, i, s))
    && exists block :: OneBlock(cs, i, s, block)
  }

  /** Earlier records end before later ones begin. */
  ghost predicate InOrder(cs: seq<Cut>, n: nat) {
    && (forall i :: 0 <= i < |cs| ==> cs[i].first <= cs[i].last <= n)
    && (forall i, j :: 0 <= i < j < |cs| ==> cs[i].last <= cs[j].first)
  }

  lemma GroupKept(cs: seq<Cut>, i: nat, s: Span)
    requires i < |cs| && Group(cs, i, s) && !In(cs[i], s)
    ensures Group(cs, i + 1, s)
  {
    var block :| OneBlock(cs, i, s, block);
    assert OneBlock(cs, i + 1, s, block);
    if Single(cs, i, s) { assert Single(cs, i + 1, s); }
  }

  /** The finished groups lie before the open one, and every record with whole bytes is in one of them or in the open one. */
  ghost predicate Grouped(cs: seq<Cut>, i: nat, ss: seq<Span>, g: Span)
    requires i <= |cs|
  {
    && Apart(ss, g.off)
    && (forall k {:trigger Group(cs, i, ss[k])} :: 0 <= k < |ss| ==> Group(cs, i, ss[k]))
    && (forall j :: 0 <= j < i && cs[j].Visible() ==> cs[j].last <= g.End() && (In(cs[j], g) || Covered(cs[j], ss)))
  }

  lemma StillCovered(c: Cut, ss: seq<Span>, g: Span)
    requires Covered(c, ss) || In(c, g)
    ensures Covered(c, ss + [g])
  {
    var all := ss + [g];
    if In(c, g) {
      assert In(c, all[|ss|]);
    } else {
      var k :| 0 <= k < |ss| && In(c, ss[k]);
      assert In(c, all[k]);
    }
  }

  lemma Flush(cs: seq<Cut>, i: nat, ss: seq<Span>, g: Span)
    requires i <= |cs| && Grouped(cs, i, ss, g) && Group(cs, i, g)
    ensures Grouped(cs, i, ss + [g], Span(g.End(), 0))
  {
    forall j | 0 <= j < i && cs[j].Visible() ensures Covered(cs[j], ss + [g]) { StillCovered(cs[j], ss, g); }
  }

  /** The groups so far are not touched by a later record. */
  lemma GroupsKept(cs: seq<Cut>, i: nat, ss: seq<Span>, off: nat)
    requires i < |cs| && Apart(ss, off) && (cs[i].Visible() ==> off <= cs[i].first)
    requires forall k {:trigger Group(cs, i, ss[k])} :: 0 <= k < |ss| ==> Group(cs, i, ss[k])
    ensures forall k {:trigger Group(cs, i + 1, ss[k])} :: 0 <= k < |ss| ==> Group(cs, i + 1, ss[k])
  {
    forall k | 0 <= k < |ss| ensures Group(cs, i + 1, ss[k]) { GroupKept(cs, i, ss[k]); }
  }

  lemma Skip(cs: seq<Cut>, i: nat, ss: seq<Span>, g: Span)
    requires i < |cs| && Grouped(cs, i, ss, g) && !cs[i].Visible()
    ensures Grouped(cs, i + 1, ss, g)
    ensures g.len > 0 && Group(cs, i, g) ==> Group(cs, i + 1, g)
  {
    GroupsKept(cs, i, ss, g.off);
    if g.len > 0 && Group(cs, i, g) { GroupKept(cs, i, g); }
  }

  /** The first record of a group. */
  lemma OpenGroup(cs: seq<Cut>, i: nat, ss: seq<Span>, e: nat)
    requires i < |cs| && Grouped(cs, i, ss, Span(e, 0)) && cs[i].Visible() && e <= cs[i].first
    ensures var g := Span(cs[i].first, cs[i].last - cs[i].first);
            Grouped(cs, i + 1, ss, g) && Group(cs, i + 1, g) && OneBlock(cs, i + 1, g, cs[i].block)
  {
    var g := Span(cs[i].first, cs[i].last - cs[i].first);
    GroupsKept(cs, i, ss, e);
    OneRecord(cs, i, e);
    forall j | 0 <= j < i + 1 && cs[j].Visible() ensures cs[j].last <= g.End() && (In(cs[j], g) || Covered(cs[j], ss)) {}
  }

  lemma OneRecord(cs: seq<Cut>, i: nat, e: nat)
    requires i < |cs| && cs[i].Visible() && e <= cs[i].first && forall j :: 0 <= j < i && cs[j].Visible() ==> cs[j].last <= e
    ensures var g := Span(cs[i].first, cs[i].last - cs[i].first); Group(cs, i + 1, g) && OneBlock(cs, i + 1, g, cs[i].block)
  {
    var g := Span(cs[i].first, cs[i].last - cs[i].first);
    assert In(cs[i], g);
    assert Single(cs, i + 1, g);
    assert OneBlock(cs, i + 1, g, cs[i].block);
  }

  /** One record more in a group. */
  lemma Extend(cs: seq<Cut>, i: nat, ss: seq<Span>, g: Span, h: Span)
    requires i < |cs| && Grouped(cs, i, ss, g) && cs[i].Visible() && g.len > 0 && g.End() <= cs[i].first
    requires OneBlock(cs, i, g, cs[i].block) && h.off == g.off && h.End() == cs[i].last && h.len <= GROUP
    ensures Grouped(cs, i + 1, ss, h) && Group(cs, i + 1, h) && OneBlock(cs, i + 1, h, cs[i].block)
  {
    GroupsKept(cs, i, ss, g.off);
    forall j | 0 <= j < i && In(cs[j], h) ensures In(cs[j], g) {}
    assert OneBlock(cs, i + 1, h, cs[i].block);
  }

  /** Byte cuts are rounded down, so the order of records carries over to bytes. */
  lemma CutsInOrder(rs: seq<Record>, lo: nat, n: nat)
    requires RecordsOk(lo, 8 * n, rs)
    ensures InOrder(Cuts(rs), n)
  {
    var cs := Cuts(rs);
    forall i | 0 <= i < |cs| ensures cs[i].first <= cs[i].last <= n { assert Within(lo, rs[i].start, rs[i].end, 8 * n); }
    forall i, j | 0 <= i < j < |cs| ensures cs[i].last <= cs[j].first { assert rs[i].end <= rs[j].start; }
  }

  // ---- the grouping ----

  /** The finished groups, and the open one: its extent and block. */
  datatype Open = Open(ss: seq<Span>, start: nat, end: nat, block: nat) {
    function Last(): Span { Span(start, if end > start then end - start else 0) }

    predicate Begun() { end > start }
  }

  /** A record that does not join the open group. */
  predicate Splits(g: Open, c: Cut) {
    g.Begun() && (c.block != g.block || c.last - g.start > GROUP || c.first > g.end + REACH)
  }

  function AddCut(g: Open, c: Cut): Open {
    if !c.Visible() then g
    else if Splits(g, c) then Open(g.ss + [g.Last()], c.first, c.last, c.block)
    else Open(g.ss, if g.Begun() then g.start else c.first, c.last, c.block)
  }

  function GroupTo(cs: seq<Cut>, i: nat): Open
    requires i <= |cs|
  {
    if i == 0 then Open([], 0, 0, 0) else AddCut(GroupTo(cs, i - 1), cs[i - 1])
  }

  /** The groups of all records. */
  function Groups(cs: seq<Cut>): seq<Span> {
    var g := GroupTo(cs, |cs|);
    if g.Begun() then g.ss + [g.Last()] else g.ss
  }

  /** The `records` mode, as the loop runs. */
  method RecordSpans(rs: seq<Record>) returns (ss: seq<Span>)
    ensures ss == Groups(Cuts(rs))
  {
    ghost var cs := Cuts(rs);
    var start: nat, end: nat, block := 0, 0, 0;
    ss := [];
    for i := 0 to |rs|
      invariant Open(ss, start, end, block) == GroupTo(cs, i)
    {
      var r := rs[i];
      var a, z := r.start / 8, r.end / 8;
      if z > a {
        if end > start && (r.block != block || z - start > GROUP || a > end + REACH) {
          ss := ss + [Span(start, end - start)];
          start := end;
        }
        if end <= start {
          start := a;
        }
        end := z;
        block := r.block;
      }
    }
    if end > start {
      ss := ss + [Span(start, end - start)];
    }
  }

  // ---- groups lie apart and hold every record ----

  ghost predicate EndsAt(cs: seq<Cut>, i: nat, e: nat)
    requires i <= |cs|
  {
    exists j :: 0 <= j < i && cs[j].last == e
  }

  ghost predicate State(cs: seq<Cut>, n: nat, i: nat, g: Open)
    requires i <= |cs|
  {
    && g.start <= g.end <= n && (g.end == 0 || EndsAt(cs, i, g.end))
    && Grouped(cs, i, g.ss, g.Last())
    && (g.Begun() ==> Group(cs, i, g.Last()) && OneBlock(cs, i, g.Last(), g.block))
    && (!g.Begun() ==> g.start == g.end == 0)
  }

  lemma StateStep(cs: seq<Cut>, n: nat, i: nat, g: Open)
    requires i < |cs| && InOrder(cs, n) && State(cs, n, i, g)
    ensures State(cs, n, i + 1, AddCut(g, cs[i]))
  {
    var c := cs[i];
    if !c.Visible() {
      Skip(cs, i, g.ss, g.Last());
    } else if Splits(g, c) {
      Flush(cs, i, g.ss, g.Last());
      OpenGroup(cs, i, g.ss + [g.Last()], g.end);
    } else if g.Begun() {
      Extend(cs, i, g.ss, g.Last(), Span(g.start, c.last - g.start));
    } else {
      OpenGroup(cs, i, g.ss, g.end);
    }
  }

  lemma {:induction false} StateAt(cs: seq<Cut>, n: nat, i: nat)
    requires i <= |cs| && InOrder(cs, n)
    ensures State(cs, n, i, GroupTo(cs, i))
  {
    if i > 0 {
      StateAt(cs, n, i - 1);
      StateStep(cs, n, i - 1, GroupTo(cs, i - 1));
    }
  }

  /** The groups are apart and in range, each of one block and of bounded length, and every record with whole bytes is in one. */
  lemma GroupsHold(rs: seq<Record>, lo: nat, n: nat)
    requires RecordsOk(lo, 8 * n, rs)
    ensures var cs, ss := Cuts(rs), Groups(Cuts(rs));
            && Ordered(ss, n) && (forall k :: 0 <= k < |ss| ==> Group(cs, |cs|, ss[k]))
            && (forall j :: 0 <= j < |cs| && cs[j].Visible() ==> Covered(cs[j], ss))
  {
    var cs := Cuts(rs);
    CutsInOrder(rs, lo, n);
    StateAt(cs, n, |cs|);
    var g := GroupTo(cs, |cs|);
    if g.Begun() { Flush(cs, |cs|, g.ss, g.Last()); }
    ApartOrdered(Groups(cs), 0, 0, n);
  }

  // ---- groups are as large as they may be ----

  /** Two neighbouring groups, and the records at their seam: the second group's first record could not join the first group. */
  ghost predicate Seam(cs: seq<Cut>, i: nat, s: Span, t: Span, p: int, j: int)
    requires i <= |cs|
  {
    && 0 <= p < j < i && cs[p].Visible() && cs[j].Visible() && cs[p].last == s.End() && cs[j].first == t.off
    && (forall k :: p < k < j ==> !cs[k].Visible())
    && (cs[j].block != cs[p].block || cs[j].last - s.off > GROUP || cs[j].first > s.End() + REACH)
  }

  ghost predicate Parted(cs: seq<Cut>, i: nat, s: Span, t: Span)
    requires i <= |cs|
  {
    exists p, j :: Seam(cs, i, s, t, p, j)
  }

  /** The last record of the open group. */
  ghost predicate LastOf(cs: seq<Cut>, i: nat, g: Open, p: int)
    requires i <= |cs|
  {
    0 <= p < i && cs[p].Visible() && cs[p].last == g.end && cs[p].block == g.block && forall k :: p < k < i ==> !cs[k].Visible()
  }

  ghost predicate Maximal(cs: seq<Cut>, i: nat, ss: seq<Span>)
    requires i <= |cs|
  {
    forall k :: 0 <= k < |ss| - 1 ==> Parted(cs, i, ss[k], ss[k + 1])
  }

  ghost predicate MaxState(cs: seq<Cut>, i: nat, g: Open)
    requires i <= |cs|
  {
    && Maximal(cs, i, g.ss) && (g.Begun() ==> exists p :: LastOf(cs, i, g, p))
    && (|g.ss| > 0 ==> g.Begun() && Parted(cs, i, g.ss[|g.ss| - 1], g.Last()))
  }

  lemma PartedLater(cs: seq<Cut>, i: nat, s: Span, t: Span, u: Span)
    requires i < |cs| && Parted(cs, i, s, t) && u.off == t.off
    ensures Parted(cs, i + 1, s, u)
  {
    var p, j :| Seam(cs, i, s, t, p, j);
    assert Seam(cs, i + 1, s, u, p, j);
  }

  lemma MaximalLater(cs: seq<Cut>, i: nat, ss: seq<Span>)
    requires i < |cs| && Maximal(cs, i, ss)
    ensures Maximal(cs, i + 1, ss)
  {
    forall k | 0 <= k < |ss| - 1 ensures Parted(cs, i + 1, ss[k], ss[k + 1]) { PartedLater(cs, i, ss[k], ss[k + 1], ss[k + 1]); }
  }

  lemma MaxSplit(cs: seq<Cut>, i: nat, g: Open)
    requires i < |cs| && MaxState(cs, i, g) && cs[i].Visible() && Splits(g, cs[i])
    ensures MaxState(cs, i + 1, AddCut(g, cs[i]))
  {
    var p :| LastOf(cs, i, g, p);
    var h := AddCut(g, cs[i]);
    assert LastOf(cs, i + 1, h, i);
    assert Seam(cs, i + 1, g.Last(), h.Last(), p, i);
    MaximalLater(cs, i, g.ss);
    if |g.ss| > 0 { PartedLater(cs, i, g.ss[|g.ss| - 1], g.Last(), g.Last()); }
  }

  lemma MaxJoin(cs: seq<Cut>, i: nat, g: Open)
    requires i < |cs| && MaxState(cs, i, g) && cs[i].Visible() && !Splits(g, cs[i]) && g.start <= g.end <= cs[i].first
    ensures MaxState(cs, i + 1, AddCut(g, cs[i]))
  {
    var h := AddCut(g, cs[i]);
    assert LastOf(cs, i + 1, h, i);
    MaximalLater(cs, i, g.ss);
    if |g.ss| > 0 { PartedLater(cs, i, g.ss[|g.ss| - 1], g.Last(), h.Last()); }
  }

  lemma MaxSkip(cs: seq<Cut>, i: nat, g: Open)
    requires i < |cs| && MaxState(cs, i, g) && !cs[i].Visible()
    ensures MaxState(cs, i + 1, g)
  {
    if g.Begun() {
      var p :| LastOf(cs, i, g, p);
      assert LastOf(cs, i + 1, g, p);
    }
    MaximalLater(cs, i, g.ss);
    if |g.ss| > 0 { PartedLater(cs, i, g.ss[|g.ss| - 1], g.Last(), g.Last()); }
  }

  lemma MaxStep(cs: seq<Cut>, i: nat, g: Open)
    requires i < |cs| && MaxState(cs, i, g) && g.start <= g.end && (cs[i].Visible() ==> g.end <= cs[i].first)
    ensures MaxState(cs, i + 1, AddCut(g, cs[i]))
  {
    if !cs[i].Visible() {
      MaxSkip(cs, i, g);
    } else if Splits(g, cs[i]) {
      MaxSplit(cs, i, g);
    } else {
      MaxJoin(cs, i, g);
    }
  }

  /** The next record begins behind the open group. */
  lemma NextBehind(cs: seq<Cut>, n: nat, i: nat)
    requires i < |cs| && InOrder(cs, n)
    ensures var g := GroupTo(cs, i); g.start <= g.end <= cs[i].first
  {
    StateAt(cs, n, i);
  }

  lemma {:induction false} MaxAt(cs: seq<Cut>, n: nat, i: nat)
    requires i <= |cs| && InOrder(cs, n)
    ensures MaxState(cs, i, GroupTo(cs, i))
  {
    if i > 0 {
      MaxAt(cs, n, i - 1);
      NextBehind(cs, n, i - 1);
      MaxStep(cs, i - 1, GroupTo(cs, i - 1));
    }
  }

  /** No two neighbouring groups could have been one. */
  lemma GroupsMaximal(rs: seq<Record>, lo: nat, n: nat)
    requires RecordsOk(lo, 8 * n, rs)
    ensures Maximal(Cuts(rs), |rs|, Groups(Cuts(rs)))
  {
    CutsInOrder(rs, lo, n);
    MaxAt(Cuts(rs), n, |rs|);
  }

  // ---- groups have no wide gaps ----

  /** Two records of a group with nothing between them are at most 32 bytes apart. */
  ghost predicate Narrow(cs: seq<Cut>, i: nat, s: Span)
    requires i <= |cs|
  {
    forall p, j {:trigger Next(cs, p, j)} :: 0 <= p < j < i && Next(cs, p, j) && In(cs[p], s) && In(cs[j], s) ==> cs[j].first <= cs[p].last + REACH
  }

  ghost predicate Next(cs: seq<Cut>, p: nat, j: nat)
    requires p < j < |cs|
  {
    forall k :: p < k < j ==> !cs[k].Visible()
  }

  lemma NarrowLater(cs: seq<Cut>, i: nat, s: Span)
    requires i < |cs| && Narrow(cs, i, s) && !In(cs[i], s)
    ensures Narrow(cs, i + 1, s)
  {}

  ghost predicate AllNarrow(cs: seq<Cut>, i: nat, ss: seq<Span>)
    requires i <= |cs|
  {
    forall k {:trigger Narrow(cs, i, ss[k])} :: 0 <= k < |ss| ==> Narrow(cs, i, ss[k])
  }

  /** The open group lies between the records so far and the next one, and ends with the last record seen. */
  ghost predicate OpenOk(cs: seq<Cut>, i: nat, g: Open)
    requires i < |cs|
  {
    && g.start <= g.end <= cs[i].first && (g.Begun() ==> exists p :: LastOf(cs, i, g, p))
    && (forall k :: 0 <= k < |g.ss| ==> g.ss[k].End() <= g.start)
    && (forall j :: 0 <= j < i && cs[j].Visible() ==> cs[j].last <= g.end) && (!g.Begun() ==> g.end == 0)
  }

  lemma OpenAt(cs: seq<Cut>, n: nat, i: nat)
    requires i < |cs| && InOrder(cs, n)
    ensures OpenOk(cs, i, GroupTo(cs, i))
  {
    StateAt(cs, n, i);
    MaxAt(cs, n, i);
    NextBehind(cs, n, i);
  }

  lemma NarrowStep(cs: seq<Cut>, n: nat, i: nat, g: Open)
    requires i < |cs| && InOrder(cs, n) && OpenOk(cs, i, g)
    requires AllNarrow(cs, i, g.ss) && Narrow(cs, i, g.Last())
    ensures var h := AddCut(g, cs[i]); AllNarrow(cs, i + 1, h.ss) && Narrow(cs, i + 1, h.Last())
  {
    var c, h := cs[i], AddCut(g, cs[i]);
    forall k | 0 <= k < |g.ss| ensures Narrow(cs, i + 1, g.ss[k]) { NarrowLater(cs, i, g.ss[k]); }
    if !c.Visible() || Splits(g, c) { NarrowLater(cs, i, g.Last()); }
    if c.Visible() { NarrowOpen(cs, n, i, g); }
  }

  /** The open group, with one more record. */
  lemma NarrowOpen(cs: seq<Cut>, n: nat, i: nat, g: Open)
    requires i < |cs| && InOrder(cs, n) && OpenOk(cs, i, g)
    requires Narrow(cs, i, g.Last()) && cs[i].Visible()
    ensures Narrow(cs, i + 1, AddCut(g, cs[i]).Last())
  {
    var c, h := cs[i], AddCut(g, cs[i]);
    forall p, j | 0 <= p < j < i + 1 && Next(cs, p, j) && In(cs[p], h.Last()) && In(cs[j], h.Last())
      ensures cs[j].first <= cs[p].last + REACH
    {
      assert cs[p].last <= g.end;
      assert h.start == g.start && g.Begun();
      if j == i {
        var l :| LastOf(cs, i, g, l);
        assert p == l;
      } else {
        assert In(cs[p], g.Last()) && In(cs[j], g.Last());
      }
    }
  }

  lemma {:induction false} NarrowAt(cs: seq<Cut>, n: nat, i: nat)
    requires i <= |cs| && InOrder(cs, n)
    ensures AllNarrow(cs, i, GroupTo(cs, i).ss) && Narrow(cs, i, GroupTo(cs, i).Last())
  {
    if i > 0 {
      NarrowAt(cs, n, i - 1);
      OpenAt(cs, n, i - 1);
      NarrowStep(cs, n, i - 1, GroupTo(cs, i - 1));
    }
  }

  lemma GroupsNarrow(rs: seq<Record>, lo: nat, n: nat)
    requires RecordsOk(lo, 8 * n, rs)
    ensures AllNarrow(Cuts(rs), |rs|, Groups(Cuts(rs)))
  {
    CutsInOrder(rs, lo, n);
    NarrowAt(Cuts(rs), n, |rs|);
  }

  // ---- the encoder ----

  function ByOffset(): (Span, Span) -> bool { ByKey((s: Span) => s.off) }

  /** Spans in order are left alone by the sort. */
  lemma SortedAlready(ss: seq<Span>, n: nat)
    requires Ordered(ss, n)
    ensures StableSort(ByOffset(), ss) == ss
  {
    forall i, j | 0 <= i < j < |ss| ensures !ByOffset()(ss[j], ss[i]) { OrderedPair(ss, 0, 0, n, i, j); }
    SortIdentity(ByOffset(), ss);
  }

  /** The bodies of blocks come in order of their offsets, nested or not. */
  lemma BodiesSorted(lo: nat, n: nat, bs: seq<Block>, want: nat -> bool, ss: seq<Span>, at: seq<nat>)
    requires BlocksOk(lo, 8 * n, bs) && Bodies(bs, |bs|, want, ss, at)
    ensures StableSort(ByOffset(), ss) == ss
  {
    forall i, j | 0 <= i < j < |ss| ensures !ByOffset()(ss[j], ss[i]) {
      var b, c := bs[at[i]], bs[at[j]];
      assert InsideOrAfter(b, c);
      assert 8 * ss[i].off == b.body && 8 * ss[j].off == c.body;
    }
    SortIdentity(ByOffset(), ss);
  }

  predicate TooLong(ss: seq<Span>) { exists k :: 0 <= k < |ss| && ss[k].len > MAX_SPAN }

  /** Some function block lies inside another. */
  ghost predicate FunctionsNest(bs: seq<Block>) {
    exists i: nat, j: nat :: i < j < |bs| && bs[i].id == FUNCTION_BLOCK && bs[j].id == FUNCTION_BLOCK && Nested(bs[i], bs[j])
  }

  ghost function Wanted(p: Plan, mode: Mode): nat -> bool {
    match mode
    case Functions => (i: nat) => i < |p.blocks| && p.blocks[i].id == FUNCTION_BLOCK
    case _ => (i: nat) => i < |p.blocks| && Leaf(p.blocks, i)
  }

  ghost predicate RecordGroups(rs: seq<Record>, ss: seq<Span>) {
    && (forall k :: 0 <= k < |ss| ==> Group(Cuts(rs), |rs|, ss[k]))
    && (forall j :: 0 <= j < |rs| && Cuts(rs)[j].Visible() ==> Covered(Cuts(rs)[j], ss))
    && Maximal(Cuts(rs), |rs|, ss) && AllNarrow(Cuts(rs), |rs|, ss)
  }

  /** What the spans of a mode are. */
  ghost predicate SpansFor(p: Plan, mode: Mode, ss: seq<Span>) {
    if mode == Records then RecordGroups(p.records, ss)
    else exists at :: Bodies(p.blocks, |p.blocks|, Wanted(p, mode), ss, at)
  }

  /** The spans of a mode, sorted by offset. */
  method SpansOf(d: seq<byte>, p: Plan, mode: Mode) returns (ss: seq<Span>)
    requires ParsePlan(d) == Some(p) && mode != Unknown
    ensures SpansFor(p, mode, ss)
    ensures Ordered(ss, |d|) <==> !Fails(p, mode)
  {
    ParsedShape(d);
    ghost var at: seq<nat> := [];
    match mode {
      case Functions =>
        ss, at := FunctionSpans(p.blocks, 32, 8 * |d|);
        BodiesApart(32, |d|, p.blocks, Wanted(p, mode), ss, at);
        BodiesSorted(32, |d|, p.blocks, Wanted(p, mode), ss, at);
      case Leaves =>
        ss, at := LeafSpans(p.blocks, 32, 8 * |d|);
        BodiesApart(32, |d|, p.blocks, Wanted(p, mode), ss, at);
        BodiesSorted(32, |d|, p.blocks, Wanted(p, mode), ss, at);
      case Records =>
        ss := RecordSpans(p.records);
        GroupsHold(p.records, 32, |d|);
        GroupsMaximal(p.records, 32, |d|);
        GroupsNarrow(p.records, 32, |d|);
        SortedAlready(ss, |d|);
      case Unknown =>
    }
    ss := StableSort(ByOffset(), ss);
  }

  datatype Outcome = Pieces(ps: seq<seq<byte>>) | BadMode | SpanLimit | SpanBounds

  /** Refuses long spans, then stores the spans and cuts the rest. */
  method Store(d: seq<byte>, ss: seq<Span>, chunk: seq<byte> -> seq<seq<byte>>) returns (r: Outcome)
    requires Chunker(chunk)
    ensures !r.BadMode?
    ensures r.SpanLimit? <==> TooLong(ss)
    ensures r.SpanBounds? <==> !TooLong(ss) && !Ordered(ss, |d|)
    ensures r.Pieces? ==>
      Flat(r.ps) == d && [] !in r.ps && forall k :: 0 <= k < |ss| ==> Stored(r.ps, d, ss[k])
  {
    for k := 0 to |ss|
      invariant forall j :: 0 <= j < k ==> ss[j].len <= MAX_SPAN
    {
      if ss[k].len > MAX_SPAN {
        return SpanLimit;
      }
    }
    var ps := Regions(d, ss, chunk);
    return if ps.None? then SpanBounds else Pieces(ps.value);
  }

  ghost predicate Fails(p: Plan, mode: Mode) { mode == Functions && FunctionsNest(p.blocks) }

  /**
   Groups the bytes of a parsed file: every span of the mode is one piece and the pieces are the
   file. Only a span over the limit is refused, and in the `functions` mode nested function blocks.
   */
  method Encode(d: seq<byte>, p: Plan, mode: Mode, chunk: seq<byte> -> seq<seq<byte>>) returns (r: Outcome, ghost ss: seq<Span>)
    requires ParsePlan(d) == Some(p) && Chunker(chunk)
    ensures r.BadMode? <==> mode == Unknown
    ensures mode != Unknown ==>
      && SpansFor(p, mode, ss)
      && (r.SpanLimit? <==> TooLong(ss))
      && (r.SpanBounds? <==> !TooLong(ss) && Fails(p, mode))
    ensures r.Pieces? ==>
      Flat(r.ps) == d && [] !in r.ps && forall k :: 0 <= k < |ss| ==> Stored(r.ps, d, ss[k])
  {
    ss := [];
    if mode == Unknown {
      return BadMode, ss;
    }
    var spans := SpansOf(d, p, mode);
    ss := spans;
    r := Store(d, spans, chunk);
  }
}
