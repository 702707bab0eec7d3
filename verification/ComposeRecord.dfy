/** The composition record and its parser (composez3/composez3.go). */
module ComposeRecord {
  import opened Bytes
  import opened Varint

  const MAX_DEPTH := 2
  const MAX_PRE := 32
  const MAX_PAD := 511

  /** A substituted outer piece: its number, the inner kind, the framing bytes, and the inner recipe. */
  datatype Sub = Sub(idx: nat, kind: byte, pre: seq<byte>, pad: nat, rid: digest)

  // ---- the bytes of a record, each part followed by the rest ----

  function FrameThen(s: Sub, rest: seq<byte>): seq<byte> { Uv(|s.pre|) + (s.pre + (Uv(s.pad) + (s.rid + rest))) }

  function SubThen(s: Sub, rest: seq<byte>): seq<byte> { Uv(s.idx) + ([s.kind] + FrameThen(s, rest)) }

  function SubsThen(subs: seq<Sub>, k: nat): (r: seq<byte>)
    requires k <= |subs|
    ensures |r| >= |subs| - k
    decreases |subs| - k
  {
    if k == |subs| then [] else SubThen(subs[k], SubsThen(subs, k + 1))
  }

  const MAGIC: seq<byte> := [0x43, 0x4D, 0x50, 0x31]

  function RecordBytes(depth: int, subs: seq<Sub>): seq<byte> {
    MAGIC + ([depth % 256] + (Uv(|subs|) + SubsThen(subs, 0)))
  }

  /** Pieces are named in order, each once, and there are `n` of them. */
  predicate WellPlaced(subs: seq<Sub>, n: nat) {
    && (forall i :: 0 <= i < |subs| ==> subs[i].idx < n)
    && (forall i, j :: 0 <= i < j < |subs| ==> subs[i].idx < subs[j].idx)
  }

  predicate Framed(s: Sub) { |s.pre| <= MAX_PRE && s.pad <= MAX_PAD }

  predicate AllFramed(subs: seq<Sub>) { forall i :: 0 <= i < |subs| ==> Framed(subs[i]) }

  method Marshal(depth: int, subs: seq<Sub>) returns (b: seq<byte>)
    ensures b == RecordBytes(depth, subs)
  {
    b := MAGIC + [depth % 256] + Uv(|subs|);
    Glue(MAGIC + [depth % 256], Uv(|subs|), SubsThen(subs, 0));
    Glue(MAGIC, [depth % 256], Uv(|subs|) + SubsThen(subs, 0));
    var k := 0;
    while k < |subs|
      invariant 0 <= k <= |subs| && b + SubsThen(subs, k) == RecordBytes(depth, subs)
    {
      b := PutSub(b, subs[k], SubsThen(subs, k + 1));
      k := k + 1;
    }
    assert b + [] == b;
  }

  method PutSub(b: seq<byte>, s: Sub, ghost rest: seq<byte>) returns (out: seq<byte>)
    ensures out + rest == b + SubThen(s, rest)
  {
    Glue(b, Uv(s.idx), [s.kind] + FrameThen(s, rest));
    Glue(b + Uv(s.idx), [s.kind], FrameThen(s, rest));
    out := b + Uv(s.idx) + [s.kind];
    Glue(out, Uv(|s.pre|), s.pre + (Uv(s.pad) + (s.rid + rest)));
    out := out + Uv(|s.pre|);
    Glue(out, s.pre, Uv(s.pad) + (s.rid + rest));
    out := out + s.pre;
    Glue(out, Uv(s.pad), s.rid + rest);
    out := out + Uv(s.pad);
    Glue(out, s.rid, rest);
    out := out + s.rid;
  }

  // ---- parsing ----

  /** A record's cursor. The ghost arguments of its readers name what the bytes are claimed to be; `good` says that the claim is true. */
  class Cursor {
    const b: seq<byte>
    var p: nat

    ghost predicate Valid()
      reads this
    {
      p <= |b|
    }

    constructor (b: seq<byte>, p: nat)
      requires p <= |b|
      ensures this.b == b && this.p == p && Valid()
    {
      this.b, this.p := b, p;
    }

    method U(ghost good: bool, ghost want: nat, ghost rest: seq<byte>) returns (v: Option<nat>)
      requires Valid() && (good ==> want < B64 && Ends(b, p, Uv(want) + rest))
      modifies this
      ensures Valid() && p >= old(p)
      ensures good ==> v == Some(want) && Ends(b, p, rest)
    {
      if good {
        EndsSplit(b, p, Uv(want), rest);
        ReadsBack(b, p, want);
      }
      var x := GoUv(b, p, 0);
      if x.None? {
        return None;
      }
      p := x.value.1;
      return Some(x.value.0);
    }

    method Take(n: nat, ghost good: bool, ghost want: seq<byte>, ghost rest: seq<byte>) returns (x: Option<seq<byte>>)
      requires Valid() && (good ==> n == |want| && Ends(b, p, want + rest))
      modifies this
      ensures Valid() && p >= old(p) && (x.Some? ==> |x.value| == n)
      ensures good ==> x == Some(want) && Ends(b, p, rest)
    {
      if good {
        EndsSplit(b, p, want, rest);
        HasSlice(b, p, want);
      }
      if n > |b| - p {
        return None;
      }
      x := Some(b[p..p + n]);
      p := p + n;
    }
  }

  /** The framing bytes, padding and recipe digest of an entry: refused exactly when out of bounds. */
  method ReadFrame(c: Cursor, idx: nat, kind: byte, ghost good: bool, ghost s: Sub, ghost rest: seq<byte>) returns (r: Option<Sub>)
    requires c.Valid()
    requires good ==> |s.pre| <= MAX_PRE && s.pad < B64 && s.idx == idx && s.kind == kind && Ends(c.b, c.p, FrameThen(s, rest))
    modifies c
    ensures c.Valid() && (r.Some? ==> r.value.idx == idx && Framed(r.value))
    ensures good && Framed(s) ==> r == Some(s) && Ends(c.b, c.p, rest)
    ensures good && !Framed(s) ==> r.None?
  {
    var n := c.U(good, |s.pre|, s.pre + (Uv(s.pad) + (s.rid + rest)));
    if n.None? || n.value > MAX_PRE {
      return None;
    }
    var pre := c.Take(n.value, good, s.pre, Uv(s.pad) + (s.rid + rest));
    if pre.None? {
      return None;
    }
    var pad := c.U(good, s.pad, s.rid + rest);
    if pad.None? || pad.value > MAX_PAD {
      return None;
    }
    var rid := c.Take(32, good, s.rid, rest);
    if rid.None? {
      return None;
    }
    return Some(Sub(idx, kind, pre.value, pad.value, rid.value));
  }

  /** One entry: a piece number above the last one and in range, then the rest. */
  method ReadSub(c: Cursor, last: int, n: nat, ghost good: bool, ghost s: Sub, ghost rest: seq<byte>) returns (r: Option<Sub>)
    requires c.Valid()
    requires good ==> |s.pre| <= MAX_PRE && s.pad < B64 && last < s.idx < n < B63 && Ends(c.b, c.p, SubThen(s, rest))
    modifies c
    ensures c.Valid() && (r.Some? ==> last < r.value.idx < n && Framed(r.value))
    ensures good && Framed(s) ==> r == Some(s) && Ends(c.b, c.p, rest)
    ensures good && !Framed(s) ==> r.None?
  {
    var idx := c.U(good, s.idx, [s.kind] + FrameThen(s, rest));
    if idx.None? || idx.value >= n || idx.value <= last {
      return None;
    }
    var kind := c.Take(1, good, [s.kind], FrameThen(s, rest));
    if kind.None? {
      return None;
    }
    r := ReadFrame(c, idx.value, kind.value[0], good, s, rest);
  }

  /** What a writer may put into a record for `n` pieces. */
  ghost predicate Writable(subs: seq<Sub>, n: nat) {
    n < B63 && WellPlaced(subs, n) && forall i :: 0 <= i < |subs| ==> |subs[i].pre| <= MAX_PRE && subs[i].pad < B64
  }

  /** The record's bytes are those of `subs` under `depth`. */
  ghost predicate Claim(b: seq<byte>, n: nat, depth: int, subs: seq<Sub>) { b == RecordBytes(depth, subs) && Writable(subs, n) }

  /**
   Parses a record for `n` pieces. What it returns names pieces in order and keeps the bounds; a
   written record comes back exactly when its depth byte is 1 and every padding is at most 511.
   */
  method Parse(b: seq<byte>, n: nat, ghost depth: int, ghost subs: seq<Sub>) returns (r: Option<seq<Sub>>)
    ensures r.Some? ==> WellPlaced(r.value, n) && AllFramed(r.value)
    ensures Claim(b, n, depth, subs) ==> (r.Some? <==> depth % 256 == 1 && AllFramed(subs)) && (r.Some? ==> r.value == subs)
  {
    ghost var good := Claim(b, n, depth, subs);
    if good {
      HeadBytes(b, depth, subs);
      if |subs| > 0 { AtLeast(subs, n, |subs| - 1); }
    }
    if |b| < 6 || b[..4] != MAGIC {
      return None;
    }
    if b[4] < 1 || b[4] >= MAX_DEPTH {
      return None;
    }
    var c := new Cursor(b, 5);
    var count := c.U(good, |subs|, SubsThen(subs, 0));
    if count.None? || count.value > |b| {
      return None;
    }
    r := ReadSubs(c, count.value, n, good, subs);
    if c.p != |b| {
      return None;
    }
  }

  /** The fixed part of a record. */
  lemma HeadBytes(b: seq<byte>, depth: int, subs: seq<Sub>)
    requires b == RecordBytes(depth, subs)
    ensures |b| >= 6 && b[..4] == MAGIC && b[4] == depth % 256 && Ends(b, 5, Uv(|subs|) + SubsThen(subs, 0)) && |subs| < |b|
  {
    HeadOf(MAGIC, depth % 256, Uv(|subs|) + SubsThen(subs, 0));
  }

  lemma HeadOf(m: seq<byte>, x: byte, tail: seq<byte>)
    requires |m| == 4
    ensures var b := m + ([x] + tail); b[..4] == m && b[4] == x && Ends(b, 5, tail)
  {
    var b := m + ([x] + tail);
    assert b[5..5 + |tail|] == tail;
    HasSlice(b, 5, tail);
  }

  /** Pieces named in order are no more than there are. */
  lemma {:induction false} AtLeast(subs: seq<Sub>, n: nat, i: nat)
    requires WellPlaced(subs, n) && i < |subs|
    ensures subs[i].idx >= i
  {
    if i > 0 { AtLeast(subs, n, i - 1); }
  }

  /** The entries read so far: in order, within bounds, none after `last`. */
  ghost predicate SoFar(out: seq<Sub>, n: nat, last: int) {
    WellPlaced(out, n) && AllFramed(out) && last >= -1 && forall j :: 0 <= j < |out| ==> out[j].idx <= last
  }

  lemma OneMore(out: seq<Sub>, n: nat, last: int, s: Sub)
    requires SoFar(out, n, last) && last < s.idx < n && Framed(s)
    ensures SoFar(out + [s], n, s.idx)
  {}

  ghost predicate Begins(out: seq<Sub>, subs: seq<Sub>) { |out| <= |subs| && forall j :: 0 <= j < |out| ==> out[j] == subs[j] }

  method ReadSubs(c: Cursor, count: nat, n: nat, ghost good: bool, ghost subs: seq<Sub>) returns (r: Option<seq<Sub>>)
    requires c.Valid() && (good ==> Writable(subs, n) && count == |subs| && Ends(c.b, c.p, SubsThen(subs, 0)))
    modifies c
    ensures c.Valid()
    ensures r.Some? ==> WellPlaced(r.value, n) && AllFramed(r.value)
    ensures good ==> (r.Some? <==> AllFramed(subs)) && (r.Some? ==> r.value == subs && c.p == |c.b|)
  {
    var last: int, out: seq<Sub> := -1, [];
    while |out| < count
      invariant |out| <= count && c.Valid() && SoFar(out, n, last)
      invariant last == if |out| == 0 then -1 else out[|out| - 1].idx
      invariant good ==> Begins(out, subs) && Ends(c.b, c.p, SubsThen(subs, |out|))
      decreases count - |out|
    {
      ghost var i := |out|;
      ghost var want := if good then subs[i] else Sub(0, 0, [], 0, Zeros(32));
      var s := ReadSub(c, last, n, good, want, if good then SubsThen(subs, i + 1) else []);
      if s.None? {
        return None;
      }
      OneMore(out, n, last, s.value);
      last := s.value.idx;
      out := out + [s.value];
    }
    assert good ==> out == subs;
    return Some(out);
  }
}
