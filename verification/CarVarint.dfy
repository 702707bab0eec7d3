/** Canonical unsigned varints of at most nine bytes (carz3/cid.go, `Uvarint`; multiformats unsigned-varint). */
module CarVarint {
  import opened Bytes
  import opened Varint

  const MAX_VARINT := 9

  datatype Read = Value(v: nat, next: nat) | Truncated | TooLong | NonMinimal

  /** The varint at `p` of the bytes before `end`, from its `i`-th digit on. */
  function Canon(b: seq<byte>, p: nat, end: nat, i: nat): (r: Read)
    requires p <= end <= |b| && i <= MAX_VARINT
    ensures r.Value? ==> p < r.next <= end
    decreases MAX_VARINT - i, |b|
  {
    if p == end then Truncated
    else if i == MAX_VARINT then TooLong
    else if b[p] < 128 then
      if b[p] == 0 && i > 0 then NonMinimal else Value(b[p], p + 1)
    else
      match Canon(b, p + 1, end, i + 1)
      case Value(v, q) => Value(b[p] - 128 + 128 * v, q)
      case e => e
  }

  /** 128 to the power of the digits left. */
  function Left(i: nat): nat
    decreases MAX_VARINT - i
  {
    if i >= MAX_VARINT then 1 else 128 * Left(i + 1)
  }

  lemma LeftZero()
    ensures Left(0) == B63
  {
    assert Left(6) == 0x20_0000;
    assert Left(3) == 0x20_0000 * Left(6);
    assert Left(0) == 0x20_0000 * Left(3);
  }

  /** What is read is the canonical encoding of the value. */
  lemma {:induction false} CanonSound(b: seq<byte>, p: nat, end: nat, i: nat)
    requires p <= end <= |b| && i <= MAX_VARINT && Canon(b, p, end, i).Value?
    ensures var r := Canon(b, p, end, i);
            Has(b, p, Uv(r.v)) && r.next == p + |Uv(r.v)| && r.v < Left(i) && (i > 0 ==> r.v > 0)
    decreases MAX_VARINT - i
  {
    var r := Canon(b, p, end, i);
    if b[p] < 128 {
      LeftPositive(i + 1);
      assert Has(b, p, [b[p]]);
    } else {
      CanonSound(b, p + 1, end, i + 1);
      var v := Canon(b, p + 1, end, i + 1).v;
      assert r.v / 128 == v && r.v % 128 == b[p] - 128;
      assert Uv(r.v)[1..] == Uv(v);
    }
  }

  lemma {:induction false} LeftPositive(i: nat)
    ensures Left(i) >= 1
    decreases MAX_VARINT - i
  {
    if i < MAX_VARINT { LeftPositive(i + 1); }
  }

  /** Every canonical encoding is read back, to its end. */
  lemma {:induction false} CanonComplete(b: seq<byte>, p: nat, end: nat, v: nat, i: nat)
    requires p <= end <= |b| && i <= MAX_VARINT && v < Left(i) && (i > 0 ==> v > 0)
    requires Has(b, p, Uv(v)) && p + |Uv(v)| <= end
    ensures Canon(b, p, end, i) == Value(v, p + |Uv(v)|)
    decreases v
  {
    if v >= 128 {
      HasByte(b, p, v % 128 + 128, Uv(v / 128));
      CanonComplete(b, p + 1, end, v / 128, i + 1);
    }
  }

  function Plus(v: nat, pow: nat, x: nat): nat { v + pow * x }

  /** A value read after digits worth `v`, each further unit worth `pow`. */
  function Scale(r: Read, v: nat, pow: nat): Read {
    match r
    case Value(x, q) => Value(Plus(v, pow, x), q)
    case e => e
  }

  lemma NextDigit(b: seq<byte>, p: nat, end: nat, i: nat, v: nat, pow: nat)
    requires p < end <= |b| && i < MAX_VARINT && b[p] >= 128
    ensures Scale(Canon(b, p, end, i), v, pow) == Scale(Canon(b, p + 1, end, i + 1), Plus(v, pow, b[p] - 128), 128 * pow)
  {
    var r := Canon(b, p + 1, end, i + 1);
    if r.Value? { Distribute(pow, b[p] - 128, r.v); }
  }

  lemma LastDigit(b: seq<byte>, p: nat, end: nat, i: nat, v: nat, pow: nat)
    requires p < end <= |b| && i < MAX_VARINT && b[p] < 128
    ensures Scale(Canon(b, p, end, i), v, pow) == if b[p] == 0 && i > 0 then NonMinimal else Value(Plus(v, pow, b[p]), p + 1)
  {}

  lemma Distribute(pow: nat, c: nat, x: nat)
    ensures pow * (c + 128 * x) == pow * c + 128 * pow * x
  {}

  /** Decodes a canonical varint, least significant digit first. */
  method Decode(b: seq<byte>, p: nat, end: nat) returns (r: Read)
    requires p <= end <= |b|
    ensures r == Canon(b, p, end, 0)
  {
    var i: nat, v: nat, pow: nat := 0, 0, 1;
    while p + i < end
      invariant 0 <= i <= MAX_VARINT && p + i <= end
      invariant Canon(b, p, end, 0) == Scale(Canon(b, p + i, end, i), v, pow)
    {
      if i >= MAX_VARINT {
        return TooLong;
      }
      var c: int := b[p + i];
      if c < 128 {
        LastDigit(b, p + i, end, i, v, pow);
        if c == 0 && i > 0 {
          return NonMinimal;
        }
        return Value(Plus(v, pow, c), p + i + 1);
      }
      NextDigit(b, p + i, end, i, v, pow);
      v := Plus(v, pow, c - 128);
      pow := 128 * pow;
      i := i + 1;
    }
    return Truncated;
  }

  /** A decoded varint is the canonical encoding of a 63-bit value. */
  method Uvarint(b: seq<byte>, p: nat, end: nat) returns (r: Read)
    requires p <= end <= |b|
    ensures r == Canon(b, p, end, 0)
    ensures r.Value? ==> Has(b, p, Uv(r.v)) && r.next == p + |Uv(r.v)| && r.v < B63
  {
    r := Decode(b, p, end);
    LeftZero();
    if r.Value? { CanonSound(b, p, end, 0); }
  }

  lemma ReadsCanon(b: seq<byte>, p: nat, end: nat, v: nat, rest: seq<byte>)
    requires p <= end <= |b| && v < B63 && Has(b, p, Uv(v) + rest) && p + |Uv(v)| <= end
    ensures Canon(b, p, end, 0) == Value(v, p + |Uv(v)|) && Has(b, p + |Uv(v)|, rest)
  {
    LeftZero();
    HasSplit(b, p, Uv(v), rest);
    CanonComplete(b, p, end, v, 0);
  }
}
