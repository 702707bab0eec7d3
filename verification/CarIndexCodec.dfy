/** Writing and reading the sorted index (carz3/v2.go). */
module CarIndexCodec {
  import opened Bytes
  import opened Varint
  import opened Sorting
  import opened CarVarint
  import opened CarCid
  import opened CarIndex

  // ---- writing ----

  method Groups(key: IndexRec -> nat, rs: seq<IndexRec>) returns (out: seq<seq<IndexRec>>)
    ensures out == Runs(key, rs)
  {
    out := [];
    var i := 0;
    assert rs[0..] == rs;
    while i < |rs|
      invariant 0 <= i <= |rs| && out + Runs(key, rs[i..]) == Runs(key, rs)
    {
      var j := i + 1;
      ghost var s := rs[i..];
      while j < |rs| && key(rs[j]) == key(rs[i])
        invariant i < j <= |rs| && RunLength(key, s, j - i) == RunLength(key, s, 1)
        decreases |rs| - j
      {
        j := j + 1;
      }
      RunsStep(key, rs, i, j);
      out := out + [rs[i..j]];
      i := j;
    }
  }

  lemma RunsStep(key: IndexRec -> nat, rs: seq<IndexRec>, i: nat, j: nat)
    requires i < j <= |rs| && RunLength(key, rs[i..], 1) == j - i
    ensures Runs(key, rs[i..]) == [rs[i..j]] + Runs(key, rs[j..])
  {
    assert rs[i..][..j - i] == rs[i..j] && rs[i..][j - i..] == rs[j..];
  }

  method WriteBucket(b: seq<byte>, run: seq<IndexRec>, ghost rest: seq<byte>) returns (out: seq<byte>)
    requires run != []
    ensures out + rest == b + BucketThen(run, rest)
  {
    var w := |run[0].digest| + 8;
    out := b + U32LE(Low32(w));
    out := out + U64LE(Low64(w * |run|));
    Glue(b, U32LE(Low32(w)), U64LE(Low64(w * |run|)) + RecsThen(run, 0, rest));
    Glue(b + U32LE(Low32(w)), U64LE(Low64(w * |run|)), RecsThen(run, 0, rest));
    var k := 0;
    while k < |run|
      invariant 0 <= k <= |run| && out + RecsThen(run, k, rest) == b + BucketThen(run, rest)
    {
      Glue(out, run[k].digest, U64LE(run[k].offset) + RecsThen(run, k + 1, rest));
      Glue(out + run[k].digest, U64LE(run[k].offset), RecsThen(run, k + 1, rest));
      out := out + run[k].digest;
      out := out + U64LE(run[k].offset);
      k := k + 1;
    }
  }

  method WriteWidthRuns(b: seq<byte>, rs: seq<IndexRec>, ghost rest: seq<byte>) returns (out: seq<byte>)
    ensures out + rest == b + WidthRunsThen(rs, rest)
  {
    var runs := Groups(WidthKey(), rs);
    out := b + U32LE(Low32(|runs|));
    Glue(b, U32LE(Low32(|runs|)), BucketsThen(runs, 0, rest));
    var k := 0;
    while k < |runs|
      invariant 0 <= k <= |runs| && out + BucketsThen(runs, k, rest) == b + WidthRunsThen(rs, rest)
    {
      out := WriteBucket(out, runs[k], BucketsThen(runs, k + 1, rest));
      k := k + 1;
    }
  }

  /** Encodes the records in canonical order. */
  method BuildIndex(codec: nat, recs: seq<IndexRec>) returns (out: seq<byte>)
    ensures out == IndexBytes(codec, recs)
  {
    var rs := Canonical(recs);
    out := Uv(codec);
    if codec == INDEX_SORTED {
      out := WriteWidthRuns(out, rs, []);
      assert out + [] == out;
      return;
    }
    var runs := Groups(CodeKey(), rs);
    ghost var whole := IndexBytes(codec, recs);
    Glue(out, U32LE(Low32(|runs|)), CodesThen(runs, 0, []));
    out := out + U32LE(Low32(|runs|));
    var k := 0;
    while k < |runs|
      invariant 0 <= k <= |runs| && out + CodesThen(runs, k, []) == whole
    {
      ghost var rest := CodesThen(runs, k + 1, []);
      Glue(out, U64LE(runs[k][0].mh), WidthRunsThen(runs[k], rest));
      out := WriteWidthRuns(out + U64LE(runs[k][0].mh), runs[k], rest);
      k := k + 1;
    }
    assert out + [] == out;
  }

  // ---- what can be read back ----

  /** Records of one width, as one bucket holds them. */
  predicate BucketOk(run: seq<IndexRec>, mh: u64) {
    run != [] && |run| < B32 && Width(run) <= MAX_DIGEST + 8
    && forall k :: 0 <= k < |run| ==> |run[k].digest| == |run[0].digest| && run[k].mh == mh
  }

  predicate BucketsOk(runs: seq<seq<IndexRec>>, mh: u64) {
    |runs| < B32 && forall k :: 0 <= k < |runs| ==> BucketOk(runs[k], mh)
  }

  function Concat(runs: seq<seq<IndexRec>>, k: nat): seq<IndexRec>
    requires k <= |runs|
  {
    if k == 0 then [] else Concat(runs, k - 1) + runs[k - 1]
  }

  /** The runs of a list put together are the list. */
  lemma {:induction false} ConcatRuns(key: IndexRec -> nat, rs: seq<IndexRec>)
    ensures Concat(Runs(key, rs), |Runs(key, rs)|) == rs
    decreases |rs|
  {
    if rs != [] {
      var n := RunLength(key, rs, 1);
      var rest := Runs(key, rs[n..]);
      ConcatRuns(key, rs[n..]);
      ConcatCons(rs[..n], rest, |rest|);
      assert rs == rs[..n] + rs[n..];
    }
  }

  lemma {:induction false} ConcatCons(x: seq<IndexRec>, runs: seq<seq<IndexRec>>, k: nat)
    requires k <= |runs|
    ensures Concat([x] + runs, k + 1) == x + Concat(runs, k)
  {
    if k > 0 {
      ConcatCons(x, runs, k - 1);
      assert ([x] + runs)[k] == runs[k - 1];
    }
  }

  lemma {:induction false} RunsSameKey(key: IndexRec -> nat, rs: seq<IndexRec>, k: nat)
    requires k < |Runs(key, rs)|
    ensures var r := Runs(key, rs)[k]; |r| <= |rs| && forall i :: 0 <= i < |r| ==> key(r[i]) == key(r[0]) && r[i] in rs
    decreases |rs|
  {
    var n := RunLength(key, rs, 1);
    if k > 0 { RunsSameKey(key, rs[n..], k - 1); }
  }

  /** Every bucket of a list of short digests with one code can be read back. */
  lemma WidthRunsOk(rs: seq<IndexRec>, mh: u64)
    requires |rs| < B32 && forall i :: 0 <= i < |rs| ==> rs[i].mh == mh && |rs[i].digest| <= MAX_DIGEST
    ensures BucketsOk(Runs(WidthKey(), rs), mh)
  {
    var runs := Runs(WidthKey(), rs);
    forall k | 0 <= k < |runs| ensures BucketOk(runs[k], mh) {
      RunsSameKey(WidthKey(), rs, k);
      var r := runs[k];
      forall i | 0 <= i < |r| ensures |r[i].digest| == |r[0].digest| && r[i].mh == mh && |r[i].digest| <= MAX_DIGEST {
        assert WidthKey()(r[i]) == WidthKey()(r[0]);
      }
    }
  }

  // ---- reading ----

  class Cursor {
    const raw: seq<byte>
    var p: nat

    ghost predicate Valid()
      reads this
    {
      p <= |raw|
    }

    constructor (raw: seq<byte>, p: nat)
      requires p <= |raw|
      ensures this.raw == raw && this.p == p && Valid()
    {
      this.raw, this.p := raw, p;
    }

    method U32(ghost good: bool, ghost want: u32, ghost rest: seq<byte>) returns (v: Option<u32>)
      requires Valid() && (good ==> Ends(raw, p, U32LE(want) + rest))
      modifies this
      ensures Valid()
      ensures good ==> v == Some(want) && Ends(raw, p, rest)
    {
      if good {
        EndsSplit(raw, p, U32LE(want), rest);
        HasSlice(raw, p, U32LE(want));
      }
      if |raw| - p < 4 {
        return None;
      }
      v, p := Some(ReadU32(raw[p..p + 4])), p + 4;
    }

    method U64(ghost good: bool, ghost want: u64, ghost rest: seq<byte>) returns (v: Option<u64>)
      requires Valid() && (good ==> Ends(raw, p, U64LE(want) + rest))
      modifies this
      ensures Valid()
      ensures good ==> v == Some(want) && Ends(raw, p, rest)
    {
      if good {
        EndsSplit(raw, p, U64LE(want), rest);
        HasSlice(raw, p, U64LE(want));
      }
      if |raw| - p < 8 {
        return None;
      }
      v, p := Some(ReadU64(raw[p..p + 8])), p + 8;
    }

    /** One record of width `w`. */
    method Rec(mh: u64, w: nat, ghost good: bool, ghost want: IndexRec, ghost rest: seq<byte>) returns (r: IndexRec)
      requires Valid() && w >= 8 && p + w <= |raw|
      requires good ==> Ends(raw, p, RecThen(want, rest)) && |want.digest| + 8 == w && want.mh == mh
      modifies this
      ensures Valid() && p == old(p) + w
      ensures good ==> r == want && Ends(raw, p, rest)
    {
      if good {
        EndsSplit(raw, p, want.digest, U64LE(want.offset) + rest);
        HasSlice(raw, p, want.digest);
        EndsSplit(raw, p + w - 8, U64LE(want.offset), rest);
        HasSlice(raw, p + w - 8, U64LE(want.offset));
      }
      r := IndexRec(mh, raw[p..p + w - 8], ReadU64(raw[p + w - 8..p + w]));
      p := p + w;
    }
  }

  lemma MulStep(w: nat, n: nat)
    requires n > 0 && w >= 1
    ensures w * n == w * (n - 1) + w && w * n >= w && w * n > 0
  {}

  /** The records of a bucket of `bytes` bytes, a whole number of records of width `w`. */
  method ReadRecs(c: Cursor, mh: u64, w: nat, bytes: nat, n: nat, ghost good: bool, ghost run: seq<IndexRec>, ghost rest: seq<byte>)
    returns (recs: seq<IndexRec>)
    requires c.Valid() && w >= 8 && bytes == w * n && c.p + bytes <= |c.raw|
    requires good ==> BucketOk(run, mh) && Width(run) == w && |run| == n && Ends(c.raw, c.p, RecsThen(run, 0, rest))
    modifies c
    ensures c.Valid()
    ensures good ==> recs == run && Ends(c.raw, c.p, rest)
  {
    recs := [];
    var q := 0;
    ghost var k: nat := 0;
    while q < bytes
      invariant q <= bytes && k <= n && bytes - q == w * (n - k) && c.p + (bytes - q) <= |c.raw|
      invariant c.Valid() && |recs| == k
      invariant good ==> Ends(c.raw, c.p, RecsThen(run, k, rest)) && forall i :: 0 <= i < k ==> recs[i] == run[i]
      decreases bytes - q
    {
      MulStep(w, n - k);
      var r := c.Rec(mh, w, good, if good then run[k] else IndexRec(0, [], 0), if good then RecsThen(run, k + 1, rest) else []);
      recs := recs + [r];
      q := q + w;
      k := k + 1;
    }
    if k < n { MulStep(w, n - k); }
  }

  lemma {:induction false} RecsLength(run: seq<IndexRec>, mh: u64, k: nat, rest: seq<byte>)
    requires BucketOk(run, mh) && k <= |run|
    ensures |RecsThen(run, k, rest)| == Width(run) * (|run| - k) + |rest|
    decreases |run| - k
  {
    if k < |run| {
      RecsLength(run, mh, k + 1, rest);
      MulStep(Width(run), |run| - k);
    }
  }

  lemma MulMono(a: nat, b: nat, n: nat)
    requires a <= b
    ensures a * n <= b * n
  {}

  lemma MulLarge(w: nat, d: int)
    ensures d >= 1 ==> w * d >= w
    ensures d <= -1 ==> w * d + w <= 0
  {
    if d >= 1 { MulMono(1, d, w); } else if d <= -1 { MulMono(1, -d, w); }
  }

  lemma DivExact(w: nat, n: nat, x: nat)
    requires w > 0 && x == w * n
    ensures x % w == 0 && x / w == n
  {
    var q, r := x / w, x % w;
    assert w * (n - q) == r;
    MulLarge(w, n - q);
  }

  lemma DivMod(x: nat, w: nat)
    requires w > 0 && x % w == 0
    ensures x == w * (x / w)
  {}

  /** A bucket header is usable: a sane width, a whole number of records, all of them present. */
  predicate HeaderOk(w: nat, bytes: nat, left: nat) {
    w >= 8 && w - 8 <= MAX_DIGEST && bytes % w == 0 && bytes <= left
  }

  lemma BucketHeader(raw: seq<byte>, p: nat, run: seq<IndexRec>, mh: u64, rest: seq<byte>)
    requires BucketOk(run, mh) && Ends(raw, p, RecsThen(run, 0, rest))
    ensures HeaderOk(Width(run), Width(run) * |run|, |raw| - p) && (Width(run) * |run|) / Width(run) == |run|
  {
    DivExact(Width(run), |run|, Width(run) * |run|);
    RecsLength(run, mh, 0, rest);
    HasLength(raw, p, RecsThen(run, 0, rest));
  }

  lemma BucketBytes(run: seq<IndexRec>, mh: u64, rest: seq<byte>)
    requires BucketOk(run, mh)
    ensures Width(run) < B32 && Width(run) * |run| < B64
    ensures BucketThen(run, rest) == U32LE(Width(run)) + (U64LE(Width(run) * |run|) + RecsThen(run, 0, rest))
  {
    MulMono(Width(run), 72, |run|);
  }

  /** One bucket: its header is checked before its records are read. */
  method ReadBucket(c: Cursor, mh: u64, ghost good: bool, ghost run: seq<IndexRec>, ghost rest: seq<byte>) returns (r: Option<seq<IndexRec>>)
    requires c.Valid() && (good ==> BucketOk(run, mh) && Ends(c.raw, c.p, BucketThen(run, rest)))
    modifies c
    ensures c.Valid()
    ensures good ==> r == Some(run) && Ends(c.raw, c.p, rest)
  {
    ghost var w0: u32, n0: u64, recs := 0, 0, [];
    if good {
      BucketBytes(run, mh, rest);
      w0, n0, recs := Width(run), Width(run) * |run|, RecsThen(run, 0, rest);
    }
    var w := c.U32(good, w0, U64LE(n0) + recs);
    if w.None? {
      return None;
    }
    var bytes := c.U64(good, n0, recs);
    if good { BucketHeader(c.raw, c.p, run, mh, rest); }
    if bytes.None? || !HeaderOk(w.value, bytes.value, |c.raw| - c.p) {
      return None;
    }
    DivMod(bytes.value, w.value);
    var out := ReadRecs(c, mh, w.value, bytes.value, bytes.value / w.value, good, run, rest);
    return Some(out);
  }

  lemma {:induction false} RecsLonger(run: seq<IndexRec>, k: nat, rest: seq<byte>)
    requires k <= |run|
    ensures |RecsThen(run, k, rest)| >= |rest|
    decreases |run| - k
  {
    if k < |run| { RecsLonger(run, k + 1, rest); }
  }

  lemma BucketLonger(run: seq<IndexRec>, rest: seq<byte>)
    requires run != []
    ensures |BucketThen(run, rest)| >= 12 + |rest|
  {
    RecsLonger(run, 0, rest);
  }

  lemma {:induction false} BucketsLength(runs: seq<seq<IndexRec>>, k: nat, rest: seq<byte>)
    requires k <= |runs| && forall i :: 0 <= i < |runs| ==> runs[i] != []
    ensures |BucketsThen(runs, k, rest)| >= |runs| - k + |rest|
    decreases |runs| - k
  {
    if k < |runs| {
      BucketsLength(runs, k + 1, rest);
      BucketLonger(runs[k], BucketsThen(runs, k + 1, rest));
    }
  }

  /** The buckets of one multihash code (`multi`). */
  method ReadBuckets(c: Cursor, mh: u64, ghost good: bool, ghost runs: seq<seq<IndexRec>>, ghost rest: seq<byte>) returns (r: Option<seq<IndexRec>>)
    requires c.Valid()
    requires good ==> BucketsOk(runs, mh) && Ends(c.raw, c.p, U32LE(|runs|) + BucketsThen(runs, 0, rest))
    modifies c
    ensures c.Valid()
    ensures good ==> r == Some(Concat(runs, |runs|)) && Ends(c.raw, c.p, rest)
  {
    var nw := c.U32(good, if good then |runs| else 0, if good then BucketsThen(runs, 0, rest) else []);
    if good {
      BucketsLength(runs, 0, rest);
      HasLength(c.raw, c.p, BucketsThen(runs, 0, rest));
    }
    if nw.None? || nw.value > |c.raw| {
      return None;
    }
    var recs, i := [], 0;
    while i < nw.value
      invariant 0 <= i <= nw.value && c.Valid()
      invariant good ==> recs == Concat(runs, i) && Ends(c.raw, c.p, BucketsThen(runs, i, rest))
    {
      var b := ReadBucket(c, mh, good, if good then runs[i] else [], if good then BucketsThen(runs, i + 1, rest) else []);
      if b.None? {
        return None;
      }
      recs := recs + b.value;
      i := i + 1;
    }
    return Some(recs);
  }

  /** Every code's buckets can be read back. */
  predicate CodesOk(runs: seq<seq<IndexRec>>) {
    |runs| < B32 && forall k :: 0 <= k < |runs| ==> runs[k] != [] && BucketsOk(Runs(WidthKey(), runs[k]), runs[k][0].mh)
  }

  lemma CodeLonger(run: seq<IndexRec>, rest: seq<byte>)
    requires run != []
    ensures |U64LE(run[0].mh) + WidthRunsThen(run, rest)| >= 12 + |rest|
  {
    BucketsLength(Runs(WidthKey(), run), 0, rest);
  }

  lemma {:induction false} CodesLength(runs: seq<seq<IndexRec>>, k: nat)
    requires k <= |runs| && forall i :: 0 <= i < |runs| ==> runs[i] != []
    ensures |CodesThen(runs, k, [])| >= |runs| - k
    decreases |runs| - k
  {
    if k < |runs| {
      CodesLength(runs, k + 1);
      CodeLonger(runs[k], CodesThen(runs, k + 1, []));
    }
  }

  lemma WidthRunsBytes(rs: seq<IndexRec>, runs: seq<seq<IndexRec>>, rest: seq<byte>)
    requires runs == Runs(WidthKey(), rs) && |runs| < B32
    ensures WidthRunsThen(rs, rest) == U32LE(|runs|) + BucketsThen(runs, 0, rest)
  {}

  /** One multihash code and its buckets. */
  method ReadCode(c: Cursor, ghost good: bool, ghost run: seq<IndexRec>, ghost rest: seq<byte>) returns (r: Option<seq<IndexRec>>)
    requires c.Valid()
    requires good ==> run != [] && BucketsOk(Runs(WidthKey(), run), run[0].mh) && Ends(c.raw, c.p, U64LE(run[0].mh) + WidthRunsThen(run, rest))
    modifies c
    ensures c.Valid()
    ensures good ==> r == Some(run) && Ends(c.raw, c.p, rest)
  {
    var mh := c.U64(good, if good then run[0].mh else 0, if good then WidthRunsThen(run, rest) else []);
    if mh.None? {
      return None;
    }
    ghost var runs := Runs(WidthKey(), run);
    if good {
      ConcatRuns(WidthKey(), run);
      WidthRunsBytes(run, runs, rest);
    }
    r := ReadBuckets(c, mh.value, good, runs, rest);
  }

  method ReadCodes(c: Cursor, ghost good: bool, ghost runs: seq<seq<IndexRec>>) returns (r: Option<seq<IndexRec>>)
    requires c.Valid() && (good ==> CodesOk(runs) && Ends(c.raw, c.p, U32LE(|runs|) + CodesThen(runs, 0, [])))
    modifies c
    ensures c.Valid()
    ensures good ==> r == Some(Concat(runs, |runs|)) && Ends(c.raw, c.p, [])
  {
    var nm := c.U32(good, if good then |runs| else 0, if good then CodesThen(runs, 0, []) else []);
    if good {
      CodesLength(runs, 0);
      HasLength(c.raw, c.p, CodesThen(runs, 0, []));
    }
    if nm.None? || nm.value > |c.raw| {
      return None;
    }
    var recs, i := [], 0;
    while i < nm.value
      invariant 0 <= i <= nm.value && c.Valid()
      invariant good ==> recs == Concat(runs, i) && Ends(c.raw, c.p, CodesThen(runs, i, []))
    {
      var b := ReadCode(c, good, if good then runs[i] else [], if good then CodesThen(runs, i + 1, []) else []);
      if b.None? {
        return None;
      }
      recs := recs + b.value;
      i := i + 1;
    }
    return Some(recs);
  }

  // ---- the whole index ----

  datatype IndexResult = Parsed(codec: nat, recs: seq<IndexRec>) | Opaque | Malformed

  /** Records that an index of this codec carries: short digests, and no multihash code where none is written. */
  predicate Indexable(codec: nat, recs: seq<IndexRec>) {
    && (codec == INDEX_SORTED || codec == MULTIHASH_INDEX_SORTED) && |recs| < B32
    && forall i :: 0 <= i < |recs| ==> |recs[i].digest| <= MAX_DIGEST && (codec == INDEX_SORTED ==> recs[i].mh == 0)
  }

  lemma IndexablePermuted(codec: nat, recs: seq<IndexRec>, rs: seq<IndexRec>)
    requires Indexable(codec, recs) && multiset(rs) == multiset(recs) && |rs| == |recs|
    ensures Indexable(codec, rs)
  {
    forall i | 0 <= i < |rs| ensures |rs[i].digest| <= MAX_DIGEST && (codec == INDEX_SORTED ==> rs[i].mh == 0) {
      SameElements(rs, recs, rs[i]);
      var j :| 0 <= j < |recs| && recs[j] == rs[i];
    }
  }

  lemma CodeRunsOk(codec: nat, rs: seq<IndexRec>, runs: seq<seq<IndexRec>>)
    requires Indexable(codec, rs) && runs == Runs(CodeKey(), rs)
    ensures CodesOk(runs)
  {
    forall k | 0 <= k < |runs| ensures BucketsOk(Runs(WidthKey(), runs[k]), runs[k][0].mh) {
      RunsSameKey(CodeKey(), rs, k);
      var r := runs[k];
      forall i | 0 <= i < |r| ensures r[i].mh == r[0].mh && |r[i].digest| <= MAX_DIGEST {
        assert CodeKey()(r[i]) == CodeKey()(r[0]);
        var j :| 0 <= j < |rs| && rs[j] == r[i];
      }
      WidthRunsOk(r, r[0].mh);
    }
  }

  /** The body of an index, after its codec. */
  method ReadBody(raw: seq<byte>, p: nat, codec: nat, ghost good: bool, ghost rs: seq<IndexRec>) returns (r: Option<seq<IndexRec>>, next: nat)
    requires p <= |raw| && (good ==> Indexable(codec, rs))
    requires good ==> Ends(raw, p, BodyBytes(codec, rs))
    ensures good ==> r == Some(rs) && next == |raw|
  {
    var c := new Cursor(raw, p);
    if codec == INDEX_SORTED {
      ghost var runs := Runs(WidthKey(), rs);
      if good {
        WidthRunsOk(rs, 0);
        WidthRunsBytes(rs, runs, []);
        ConcatRuns(WidthKey(), rs);
      }
      r := ReadBuckets(c, 0, good, runs, []);
    } else {
      ghost var runs := Runs(CodeKey(), rs);
      if good {
        CodeRunsOk(codec, rs, runs);
        ConcatRuns(CodeKey(), rs);
      }
      r := ReadCodes(c, good, runs);
    }
    next := c.p;
  }

  /**
   Parses an index of either sorted codec; the whole input must be consumed. It accepts what
   `BuildIndex` writes and returns the records in canonical order.
   */
  method ParseIndex(raw: seq<byte>, ghost codec: nat, ghost recs: seq<IndexRec>) returns (r: IndexResult)
    ensures Indexable(codec, recs) && raw == IndexBytes(codec, recs) ==> r == Parsed(codec, Canonical(recs))
    ensures r.Parsed? ==> r.codec == INDEX_SORTED || r.codec == MULTIHASH_INDEX_SORTED
  {
    ghost var rs := Canonical(recs);
    ghost var good := Indexable(codec, recs) && raw == IndexBytes(codec, recs);
    if good {
      EndsAll(raw);
      IndexablePermuted(codec, recs, rs);
      IndexHead(raw, codec, rs);
    }
    var x := Uvarint(raw, 0, |raw|);
    if !x.Value? {
      return Malformed;
    }
    if x.v != INDEX_SORTED && x.v != MULTIHASH_INDEX_SORTED {
      return Opaque;
    }
    var out, next := ReadBody(raw, x.next, x.v, good, rs);
    if out.None? || next != |raw| {
      return Malformed;
    }
    return Parsed(x.v, out.value);
  }

  /** What follows the codec in the bytes of an index. */
  function BodyBytes(codec: nat, rs: seq<IndexRec>): seq<byte> {
    if codec == INDEX_SORTED then WidthRunsThen(rs, [])
    else U32LE(Low32(|Runs(CodeKey(), rs)|)) + CodesThen(Runs(CodeKey(), rs), 0, [])
  }

  lemma IndexHead(raw: seq<byte>, codec: nat, rs: seq<IndexRec>)
    requires codec < B63 && Ends(raw, 0, SortedIndexBytes(codec, rs))
    ensures Canon(raw, 0, |raw|, 0) == Value(codec, |Uv(codec)|) && Ends(raw, |Uv(codec)|, BodyBytes(codec, rs))
  {
    EndsSplit(raw, 0, Uv(codec), BodyBytes(codec, rs));
    ReadsCanon(raw, 0, |raw|, codec, BodyBytes(codec, rs));
  }

  /** Printing and parsing an index gives its records back in canonical order, whatever order they came in. */
  method PrintThenParse(codec: nat, recs: seq<IndexRec>) returns (r: IndexResult)
    requires Indexable(codec, recs)
    ensures r == Parsed(codec, Canonical(recs)) && multiset(r.recs) == multiset(recs) && Sorted(RecLess, r.recs)
  {
    var raw := BuildIndex(codec, recs);
    r := ParseIndex(raw, codec, recs);
    CanonicalUnique(recs, recs);
  }
}
