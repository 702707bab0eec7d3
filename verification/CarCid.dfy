/** Content identifiers (carz3/cid.go): the exact encodings that are accepted, and their parser. */
module CarCid {
  import opened Bytes
  import opened Varint
  import opened CarVarint

  const CODEC_DAG_PB := 0x70
  const MH_IDENTITY := 0x00
  const MH_SHA2_256 := 0x12
  const MAX_DIGEST := 64

  datatype CID = CID(raw: seq<byte>, version: nat, codec: nat, hashCode: nat, digest: seq<byte>, prefix: nat)

  function V1Raw(codec: nat, hash: nat, d: seq<byte>): seq<byte> {
    Uv(1) + (Uv(codec) + (Uv(hash) + (Uv(|d|) + d)))
  }

  function V0Raw(d: seq<byte>): seq<byte> { [MH_SHA2_256] + ([0x20] + d) }

  /** The two encodings: a bare SHA-256 multihash, or canonical version, codec, hash code and length before the digest. */
  predicate CidOk(c: CID) {
    && c.prefix + |c.digest| == |c.raw| && c.codec < B63 && c.hashCode < B63
    && (if c.version == 0 then c.codec == CODEC_DAG_PB && c.hashCode == MH_SHA2_256 && |c.digest| == 32 && c.raw == V0Raw(c.digest)
        else c.version == 1 && |c.digest| <= MAX_DIGEST && c.raw == V1Raw(c.codec, c.hashCode, c.digest))
  }

  /** `c` stands at `p` in the bytes before `end`. */
  predicate IsAt(c: CID, b: seq<byte>, p: nat, end: nat) {
    CidOk(c) && Has(b, p, c.raw) && p + |c.raw| <= end
  }

  /** Four consecutive varints, and where each one ends. */
  datatype Four = Four(version: nat, codec: nat, hash: nat, len: nat, q1: nat, q2: nat, q3: nat, q4: nat)

  predicate Chain(b: seq<byte>, p: nat, end: nat, x: Four)
    requires end <= |b|
  {
    && p <= end && Canon(b, p, end, 0) == Value(x.version, x.q1)
    && x.q1 <= end && Canon(b, x.q1, end, 0) == Value(x.codec, x.q2)
    && x.q2 <= end && Canon(b, x.q2, end, 0) == Value(x.hash, x.q3)
    && x.q3 <= end && Canon(b, x.q3, end, 0) == Value(x.len, x.q4) && x.q4 <= end
  }

  lemma ChainUnique(b: seq<byte>, p: nat, end: nat, x: Four, y: Four)
    requires end <= |b| && Chain(b, p, end, x) && Chain(b, p, end, y)
    ensures x == y
  {}

  /** The fields of a version 1 identifier at `p`. */
  function FourOf(c: CID, p: nat): Four {
    var q1 := p + |Uv(1)|;
    var q2 := q1 + |Uv(c.codec)|;
    var q3 := q2 + |Uv(c.hashCode)|;
    Four(1, c.codec, c.hashCode, |c.digest|, q1, q2, q3, q3 + |Uv(|c.digest|)|)
  }

  lemma FieldReads(b: seq<byte>, p: nat, end: nat, v: nat, rest: seq<byte>, q: nat)
    requires end <= |b| && v < B63 && Has(b, p, Uv(v) + rest) && q == p + |Uv(v)| && q + |rest| <= end
    ensures Canon(b, p, end, 0) == Value(v, q) && Has(b, q, rest)
  {
    ReadsCanon(b, p, end, v, rest);
  }

  /** Reading four varints at a version 1 identifier gives its fields. */
  lemma V1Reads(c: CID, b: seq<byte>, p: nat, end: nat)
    requires IsAt(c, b, p, end) && c.version == 1 && end <= |b|
    ensures var x := FourOf(c, p); Chain(b, p, end, x) && Has(b, x.q4, c.digest) && p + |c.raw| == x.q4 + |c.digest|
  {
    var r3 := Uv(|c.digest|) + c.digest;
    var r2 := Uv(c.hashCode) + r3;
    var r1 := Uv(c.codec) + r2;
    var x := FourOf(c, p);
    FieldReads(b, p, end, 1, r1, x.q1);
    FieldReads(b, x.q1, end, c.codec, r2, x.q2);
    FieldReads(b, x.q2, end, c.hashCode, r3, x.q3);
    FieldReads(b, x.q3, end, |c.digest|, c.digest, x.q4);
  }

  lemma V0Reads(c: CID, b: seq<byte>, p: nat, end: nat)
    requires IsAt(c, b, p, end) && c.version == 0 && end <= |b|
    ensures p + 34 <= end && b[p] == MH_SHA2_256 && b[p + 1] == 0x20 && Has(b, p + 2, c.digest) && |c.raw| == 34
  {
    HasByte(b, p, MH_SHA2_256, [0x20] + c.digest);
    HasByte(b, p + 1, 0x20, c.digest);
  }

  lemma HasSame(b: seq<byte>, p: nat, x: seq<byte>, y: seq<byte>)
    requires Has(b, p, x) && Has(b, p, y) && |x| == |y|
    ensures x == y
  {
    HasSlice(b, p, x);
    HasSlice(b, p, y);
  }

  lemma ChainFirst(b: seq<byte>, p: nat, end: nat, x: Four)
    requires end <= |b| && Chain(b, p, end, x) && x.version == 1
    ensures p < end && b[p] != MH_SHA2_256
  {}

  lemma VersionsDiffer(c: CID, d: CID, b: seq<byte>, p: nat, end: nat)
    requires p <= end <= |b| && IsAt(c, b, p, end) && IsAt(d, b, p, end)
    ensures c.version == d.version
  {
    if c.version == 0 && d.version == 1 {
      V0Reads(c, b, p, end);
      V1Reads(d, b, p, end);
      ChainFirst(b, p, end, FourOf(d, p));
    }
    if c.version == 1 && d.version == 0 {
      V0Reads(d, b, p, end);
      V1Reads(c, b, p, end);
      ChainFirst(b, p, end, FourOf(c, p));
    }
  }

  /** At most one identifier stands at a position. */
  lemma CidUnique(c: CID, d: CID, b: seq<byte>, p: nat, end: nat)
    requires p <= end <= |b| && IsAt(c, b, p, end) && IsAt(d, b, p, end)
    ensures c == d
  {
    VersionsDiffer(c, d, b, p, end);
    if c.version == 1 {
      V1Reads(c, b, p, end);
      V1Reads(d, b, p, end);
      ChainUnique(b, p, end, FourOf(c, p), FourOf(d, p));
      HasSame(b, FourOf(c, p).q4, c.digest, d.digest);
    } else {
      V0Reads(c, b, p, end);
      V0Reads(d, b, p, end);
      HasSame(b, p + 2, c.digest, d.digest);
    }
  }

  /** The identifier at `p`, if one stands there. */
  ghost function CidIn(b: seq<byte>, p: nat, end: nat): (r: Option<CID>)
    requires p <= end <= |b|
    ensures r.Some? ==> IsAt(r.value, b, p, end)
  {
    if c: CID :| IsAt(c, b, p, end) then Some(c) else None
  }

  lemma CidInIs(c: CID, b: seq<byte>, p: nat, end: nat)
    requires p <= end <= |b| && IsAt(c, b, p, end)
    ensures CidIn(b, p, end) == Some(c)
  {
    CidUnique(c, CidIn(b, p, end).value, b, p, end);
  }

  /** The bytes at `p` are four varints with a version 1 identifier's digest after them. */
  ghost predicate Parses(b: seq<byte>, p: nat, end: nat, x: Four)
    requires end <= |b|
  {
    Chain(b, p, end, x) && x.version == 1 && x.len <= MAX_DIGEST && x.len <= end - x.q4
  }

  /** Nothing stands where the bytes start neither with a SHA-256 multihash nor with four fitting varints. */
  lemma NoCid(b: seq<byte>, p: nat, end: nat)
    requires p <= end <= |b| && !(p + 2 <= end && b[p] == MH_SHA2_256 && b[p + 1] == 0x20)
    requires forall x :: !Parses(b, p, end, x)
    ensures CidIn(b, p, end) == None
  {
    var r := CidIn(b, p, end);
    if r.Some? {
      var c := r.value;
      if c.version == 0 {
        V0Reads(c, b, p, end);
      } else {
        V1Reads(c, b, p, end);
        assert Parses(b, p, end, FourOf(c, p));
      }
    }
  }

  lemma NoShortV0(b: seq<byte>, p: nat, end: nat)
    requires p + 2 <= end <= |b| && b[p] == MH_SHA2_256 && end < p + 34
    ensures CidIn(b, p, end) == None
  {
    var r := CidIn(b, p, end);
    if r.Some? {
      var c := r.value;
      if c.version == 0 {
        V0Reads(c, b, p, end);
      } else {
        V1Reads(c, b, p, end);
        ChainFirst(b, p, end, FourOf(c, p));
      }
    }
  }

  /** A version 1 identifier, from its fields and the digest after them. */
  lemma V1Sound(b: seq<byte>, p: nat, end: nat, x: Four, d: seq<byte>)
    requires end <= |b| && Parses(b, p, end, x) && d == b[x.q4..x.q4 + x.len]
    ensures Has(b, p, V1Raw(x.codec, x.hash, d)) && p + |V1Raw(x.codec, x.hash, d)| == x.q4 + x.len && x.codec < B63 && x.hash < B63
  {
    var r3 := Uv(x.len) + d;
    var r2 := Uv(x.hash) + r3;
    var r1 := Uv(x.codec) + r2;
    HasSlice(b, x.q4, d);
    FieldBefore(b, x.q3, end, x.len, x.q4, d);
    FieldBefore(b, x.q2, end, x.hash, x.q3, r3);
    FieldBefore(b, x.q1, end, x.codec, x.q2, r2);
    FieldBefore(b, p, end, 1, x.q1, r1);
  }

  lemma FieldBefore(b: seq<byte>, p: nat, end: nat, v: nat, q: nat, rest: seq<byte>)
    requires p <= end <= |b| && Canon(b, p, end, 0) == Value(v, q) && Has(b, q, rest)
    ensures Has(b, p, Uv(v) + rest) && v < B63 && q == p + |Uv(v)|
  {
    LeftZero();
    CanonSound(b, p, end, 0);
    HasAppend(b, p, Uv(v), rest);
  }

  lemma V1IsAt(b: seq<byte>, p: nat, end: nat, x: Four)
    requires end <= |b| && Parses(b, p, end, x)
    ensures p <= x.q4 && IsAt(CID(b[p..x.q4 + x.len], 1, x.codec, x.hash, b[x.q4..x.q4 + x.len], x.q4 - p), b, p, end)
  {
    var d := b[x.q4..x.q4 + x.len];
    V1Sound(b, p, end, x, d);
    HasSlice(b, p, V1Raw(x.codec, x.hash, d));
  }

  lemma V0Sound(b: seq<byte>, p: nat, end: nat)
    requires p + 34 <= end <= |b| && b[p] == MH_SHA2_256 && b[p + 1] == 0x20
    ensures IsAt(CID(b[p..p + 34], 0, CODEC_DAG_PB, MH_SHA2_256, b[p + 2..p + 34], 2), b, p, end)
  {
    assert b[p..p + 34] == V0Raw(b[p + 2..p + 34]);
    HasSlice(b, p, b[p..p + 34]);
  }

  /** Parses the identifier at `p`: it accepts exactly the encodings of `CidOk`. */
  method ParseCID(b: seq<byte>, p: nat, end: nat) returns (r: Option<CID>)
    requires p <= end <= |b|
    ensures r == CidIn(b, p, end)
  {
    if end - p >= 2 && b[p] == MH_SHA2_256 && b[p + 1] == 0x20 {
      if end - p < 34 {
        NoShortV0(b, p, end);
        return None;
      }
      V0Sound(b, p, end);
      r := Some(CID(b[p..p + 34], 0, CODEC_DAG_PB, MH_SHA2_256, b[p + 2..p + 34], 2));
      CidInIs(r.value, b, p, end);
      return;
    }
    var w := ReadFields(b, p, end);
    if w.None? || w.value.version != 1 || w.value.len > MAX_DIGEST || end - w.value.q4 < w.value.len {
      forall x ensures !Parses(b, p, end, x) {
        if Parses(b, p, end, x) && w.Some? { ChainUnique(b, p, end, x, w.value); }
      }
      NoCid(b, p, end);
      return None;
    }
    var x := w.value;
    V1IsAt(b, p, end, x);
    r := Some(CID(b[p..x.q4 + x.len], 1, x.codec, x.hash, b[x.q4..x.q4 + x.len], x.q4 - p));
    CidInIs(r.value, b, p, end);
  }

  lemma ChainGoesOn(b: seq<byte>, p: nat, end: nat, f: seq<nat>, q: seq<nat>, k: nat, y: Four)
    requires end <= |b| && k < 4 && |f| == k && |q| == k + 1 && q[0] == p && Chain(b, p, end, y)
    requires forall i :: 0 <= i <= k ==> p <= q[i] <= end
    requires forall i :: 0 <= i < k ==> Canon(b, q[i], end, 0) == Value(f[i], q[i + 1])
    ensures Canon(b, q[k], end, 0).Value?
  {
    assert k > 0 ==> q[1] == y.q1;
    assert k > 1 ==> q[2] == y.q2;
    assert k > 2 ==> q[3] == y.q3;
  }

  /** The four varints of a version 1 identifier. */
  method ReadFields(b: seq<byte>, p: nat, end: nat) returns (r: Option<Four>)
    requires p <= end <= |b|
    ensures r.Some? ==> Chain(b, p, end, r.value)
    ensures r.None? ==> forall x :: !Chain(b, p, end, x)
  {
    var f: seq<nat>, q: seq<nat>, k := [], [p], 0;
    while k < 4
      invariant 0 <= k <= 4 && |f| == k && |q| == k + 1 && q[0] == p
      invariant forall i :: 0 <= i <= k ==> p <= q[i] <= end
      invariant forall i :: 0 <= i < k ==> Canon(b, q[i], end, 0) == Value(f[i], q[i + 1])
    {
      var x := Uvarint(b, q[k], end);
      if !x.Value? {
        forall y ensures !Chain(b, p, end, y) {
          if Chain(b, p, end, y) { ChainGoesOn(b, p, end, f, q, k, y); }
        }
        return None;
      }
      f, q := f + [x.v], q + [x.next];
      k := k + 1;
    }
    return Some(Four(f[0], f[1], f[2], f[3], q[1], q[2], q[3], q[4]));
  }
}
