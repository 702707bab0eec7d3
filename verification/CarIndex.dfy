/**
 The sorted CARv2 index (carz3/v2.go, `BuildIndex` and `ParseIndex`): records in canonical
 order, grouped by multihash code and digest width.
 */
module CarIndex {
  import opened Bytes
  import opened Varint
  import opened Sorting
  import opened CarVarint
  import opened CarCid

  const INDEX_SORTED := 0x0400
  const MULTIHASH_INDEX_SORTED := 0x0401

  datatype IndexRec = IndexRec(mh: u64, digest: seq<byte>, offset: u64)

  // ---- order ----

  /** `bytes.Compare(a, b) < 0`. */
  predicate LexLess(a: seq<byte>, b: seq<byte>) {
    if b == [] then false
    else if a == [] then true
    else a[0] < b[0] || (a[0] == b[0] && LexLess(a[1..], b[1..]))
  }

  predicate RecLess(a: IndexRec, b: IndexRec) {
    if a.mh != b.mh then a.mh < b.mh
    else if |a.digest| != |b.digest| then |a.digest| < |b.digest|
    else if LexLess(a.digest, b.digest) then true
    else if LexLess(b.digest, a.digest) then false
    else a.offset < b.offset
  }

  lemma {:induction false} LexAsymmetric(a: seq<byte>, b: seq<byte>)
    ensures LexLess(a, b) ==> !LexLess(b, a)
  {
    if a != [] && b != [] { LexAsymmetric(a[1..], b[1..]); }
  }

  lemma {:induction false} LexTotal(a: seq<byte>, b: seq<byte>)
    requires !LexLess(a, b) && !LexLess(b, a)
    ensures a == b
  {
    if a != [] && b != [] {
      LexTotal(a[1..], b[1..]);
      assert a == [a[0]] + a[1..] && b == [b[0]] + b[1..];
    }
  }

  lemma {:induction false} LexNegTransitive(a: seq<byte>, b: seq<byte>, c: seq<byte>)
    requires !LexLess(a, b) && !LexLess(b, c)
    ensures !LexLess(a, c)
  {
    if a != [] && b != [] && c != [] && a[0] == b[0] == c[0] {
      LexNegTransitive(a[1..], b[1..], c[1..]);
    }
  }

  lemma RecLessOrder()
    ensures WeakOrder(RecLess)
    ensures forall a, b :: !RecLess(a, b) && !RecLess(b, a) ==> a == b
  {
    forall a, b | RecLess(a, b) ensures !RecLess(b, a) {
      LexAsymmetric(a.digest, b.digest);
    }
    forall a, b | !RecLess(a, b) && !RecLess(b, a) ensures a == b {
      LexTotal(a.digest, b.digest);
    }
    forall a, b, c | !RecLess(a, b) && !RecLess(b, c) ensures !RecLess(a, c) {
      RecNegTransitive(a, b, c);
    }
  }

  lemma RecNegTransitive(a: IndexRec, b: IndexRec, c: IndexRec)
    requires !RecLess(a, b) && !RecLess(b, c)
    ensures !RecLess(a, c)
  {
    if a.mh == b.mh == c.mh && |a.digest| == |b.digest| == |c.digest| {
      LexNegTransitive(a.digest, b.digest, c.digest);
      if !LexLess(b.digest, a.digest) { LexTotal(a.digest, b.digest); }
      if !LexLess(c.digest, b.digest) { LexTotal(b.digest, c.digest); }
      if !LexLess(c.digest, a.digest) {
        LexTotal(a.digest, c.digest);
        LexAsymmetric(a.digest, b.digest);
        LexAsymmetric(b.digest, c.digest);
      }
    }
  }

  function Canonical(recs: seq<IndexRec>): (r: seq<IndexRec>)
    ensures multiset(r) == multiset(recs) && |r| == |recs|
  {
    StableSort(RecLess, recs)
  }

  /** The canonical order depends only on which records there are. */
  lemma CanonicalUnique(a: seq<IndexRec>, b: seq<IndexRec>)
    requires multiset(a) == multiset(b)
    ensures Canonical(a) == Canonical(b) && Sorted(RecLess, Canonical(a))
  {
    RecLessOrder();
    SortSorted(RecLess, a);
    SortSorted(RecLess, b);
    SortedUnique(RecLess, Canonical(a), Canonical(b));
  }

  // ---- runs ----

  /** How many records from the front share the key of the first one. */
  function RunLength(key: IndexRec -> nat, rs: seq<IndexRec>, j: nat): (n: nat)
    requires 0 < j <= |rs|
    ensures j <= n <= |rs|
    ensures forall k :: j <= k < n ==> key(rs[k]) == key(rs[0])
    ensures n < |rs| ==> key(rs[n]) != key(rs[0])
    decreases |rs| - j
  {
    if j < |rs| && key(rs[j]) == key(rs[0]) then RunLength(key, rs, j + 1) else j
  }

  /** Maximal runs of equal keys. */
  function Runs(key: IndexRec -> nat, rs: seq<IndexRec>): (r: seq<seq<IndexRec>>)
    ensures |r| <= |rs|
    ensures forall k :: 0 <= k < |r| ==> r[k] != []
    decreases |rs|
  {
    if rs == [] then []
    else
      var n := RunLength(key, rs, 1);
      [rs[..n]] + Runs(key, rs[n..])
  }

  function WidthKey(): IndexRec -> nat { (r: IndexRec) => |r.digest| }

  function CodeKey(): IndexRec -> nat { (r: IndexRec) => r.mh }

  // ---- writing ----

  function RecThen(r: IndexRec, rest: seq<byte>): seq<byte> { r.digest + (U64LE(r.offset) + rest) }

  function RecsThen(rs: seq<IndexRec>, k: nat, rest: seq<byte>): seq<byte>
    requires k <= |rs|
    decreases |rs| - k
  {
    if k == |rs| then rest else RecThen(rs[k], RecsThen(rs, k + 1, rest))
  }

  function Width(run: seq<IndexRec>): nat
    requires run != []
  {
    |run[0].digest| + 8
  }

  /** A bucket: record width, byte count, records. */
  function BucketThen(run: seq<IndexRec>, rest: seq<byte>): seq<byte>
    requires run != []
  {
    U32LE(Low32(Width(run))) + (U64LE(Low64(Width(run) * |run|)) + RecsThen(run, 0, rest))
  }

  function BucketsThen(runs: seq<seq<IndexRec>>, k: nat, rest: seq<byte>): seq<byte>
    requires k <= |runs| && forall i :: 0 <= i < |runs| ==> runs[i] != []
    decreases |runs| - k
  {
    if k == |runs| then rest else BucketThen(runs[k], BucketsThen(runs, k + 1, rest))
  }

  function WidthRunsThen(rs: seq<IndexRec>, rest: seq<byte>): seq<byte> {
    var runs := Runs(WidthKey(), rs);
    U32LE(Low32(|runs|)) + BucketsThen(runs, 0, rest)
  }

  function CodesThen(runs: seq<seq<IndexRec>>, k: nat, rest: seq<byte>): seq<byte>
    requires k <= |runs| && forall i :: 0 <= i < |runs| ==> runs[i] != []
    decreases |runs| - k
  {
    if k == |runs| then rest else U64LE(runs[k][0].mh) + WidthRunsThen(runs[k], CodesThen(runs, k + 1, rest))
  }

  /** The index bytes of records already in canonical order. */
  function SortedIndexBytes(codec: nat, rs: seq<IndexRec>): seq<byte> {
    if codec == INDEX_SORTED then Uv(codec) + WidthRunsThen(rs, [])
    else Uv(codec) + (U32LE(Low32(|Runs(CodeKey(), rs)|)) + CodesThen(Runs(CodeKey(), rs), 0, []))
  }

  function IndexBytes(codec: nat, recs: seq<IndexRec>): seq<byte> { SortedIndexBytes(codec, Canonical(recs)) }

  /** The bytes depend only on the multiset of records. */
  lemma IndexOrderFree(codec: nat, a: seq<IndexRec>, b: seq<IndexRec>)
    requires multiset(a) == multiset(b)
    ensures IndexBytes(codec, a) == IndexBytes(codec, b)
  {
    CanonicalUnique(a, b);
  }
}
