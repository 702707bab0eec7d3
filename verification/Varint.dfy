/**
 Unsigned varints: the common encoder, and the decoder of Go's `encoding/binary`
 (at most 64 bits, over-long forms accepted).
 */
module Varint {
  import opened Bytes

  /** `binary.AppendUvarint` and `carz3.AppendUvarint`, as the bytes they append. */
  function Uv(v: nat): (r: seq<byte>)
    ensures |r| > 0
  {
    if v < 128 then [v] else [v % 128 + 128] + Uv(v / 128)
  }

  /** What still fits a 64-bit word after `i` seven-bit digits. */
  function Room(i: nat): (r: nat)
    decreases 9 - i
  {
    if i >= 9 then 2 else 128 * Room(i + 1)
  }

  lemma RoomZero()
    ensures Room(0) == B64
  {
    assert Room(6) == 128 * 128 * 128 * 2;
    assert Room(3) == 0x20_0000 * Room(6);
    assert Room(0) == 0x20_0000 * Room(3);
  }

  /** `binary.Uvarint` from its `i`-th digit on: value and next position, if it ends in `b` and fits. */
  function GoUv(b: seq<byte>, p: nat, i: nat): (r: Option<(nat, nat)>)
    requires p <= |b| && i <= 9
    ensures r.Some? ==> p < r.value.1 <= |b|
    decreases 9 - i
  {
    if p == |b| then None
    else if b[p] < 128 then
      if i == 9 && b[p] > 1 then None else Some((b[p], p + 1))
    else if i == 9 then None
    else
      match GoUv(b, p + 1, i + 1)
      case None => None
      case Some((v, q)) => Some((b[p] - 128 + 128 * v, q))
  }

  lemma {:induction false} GoUvRoom(b: seq<byte>, p: nat, i: nat)
    requires p <= |b| && i <= 9 && GoUv(b, p, i).Some?
    ensures GoUv(b, p, i).value.0 < Room(i)
    decreases 9 - i
  {
    if b[p] >= 128 {
      GoUvRoom(b, p + 1, i + 1);
    } else if i < 9 {
      assert Room(i + 1) >= 1 by { RoomPositive(i + 1); }
    }
  }

  lemma {:induction false} RoomPositive(i: nat)
    ensures Room(i) >= 2
    decreases 9 - i
  {
    if i < 9 { RoomPositive(i + 1); }
  }

  lemma GoUvFits(b: seq<byte>, p: nat)
    requires p <= |b| && GoUv(b, p, 0).Some?
    ensures GoUv(b, p, 0).value.0 < B64
  {
    RoomZero();
    GoUvRoom(b, p, 0);
  }

  /** Every 64-bit value round-trips through its varint, which is read exactly to its end. */
  lemma {:induction false} GoUvOfUv(b: seq<byte>, p: nat, v: nat, i: nat)
    requires i <= 9 && v < Room(i) && Has(b, p, Uv(v))
    ensures GoUv(b, p, i) == Some((v, p + |Uv(v)|))
    decreases v
  {
    if v < 128 {
      assert Uv(v) == [v] + [];
      HasByte(b, p, v, []);
    } else {
      HasByte(b, p, v % 128 + 128, Uv(v / 128));
      GoUvOfUv(b, p + 1, v / 128, i + 1);
    }
  }

  lemma ReadsBack(b: seq<byte>, p: nat, v: u64)
    requires Has(b, p, Uv(v))
    ensures GoUv(b, p, 0) == Some((v, p + |Uv(v)|))
  {
    RoomZero();
    GoUvOfUv(b, p, v, 0);
  }

  /** A varint followed by more. */
  lemma ReadsThen(b: seq<byte>, p: nat, v: u64, rest: seq<byte>)
    requires p <= |b| && Has(b, p, Uv(v) + rest)
    ensures GoUv(b, p, 0) == Some((v, p + |Uv(v)|)) && Has(b, p + |Uv(v)|, rest)
  {
    HasSplit(b, p, Uv(v), rest);
    ReadsBack(b, p, v);
  }
}
