/**
 Reading a file through a cached 64 KiB window (clrz3/source.go): every span is the source's own
 bytes, so the windowed body parser agrees with the whole-file one.
 */
module ClrSource {
  import opened Bytes
  import opened CilModel
  import opened CilMask
  import opened CilWindow
  import opened Cil

  const WINDOW := 0x1_0000
  const MAX_REFS := 0x10_0000

  datatype BodyResult = Failed | Absent | Found(body: Body)

  function References(b: Body): nat { |b.toks| + |b.clauses| }

  class Source {
    const src: seq<byte>
    var lo: nat
    var buf: seq<byte>
    var err: bool
    var bodyWork: int
    var bodyRefs: int

    constructor (src: seq<byte>)
      ensures this.src == src && Valid() && !err && bodyWork == 0 && bodyRefs == 0
    {
      this.src, lo, buf, err, bodyWork, bodyRefs := src, 0, [], false, 0, 0;
    }

    /** The cached window is a piece of the source. */
    ghost predicate Valid()
      reads this
    {
      lo + |buf| <= |src| && buf == src[lo..lo + |buf|]
    }

    predicate InRange(off: int, n: int) { 0 <= off && 0 <= n <= MAX_RECORD && off + n <= |src| }

    /** The bytes [off, off + n) of the source, from the window when they are in it; an error that sticks otherwise. */
    method Span(off: int, n: int) returns (r: seq<byte>)
      requires Valid()
      modifies this`lo, this`buf, this`err
      ensures Valid()
      ensures InRange(off, n) ==> err == old(err) && r == src[off..off + n]
      ensures !InRange(off, n) ==> err && r == Zeros(4)
    {
      if off < 0 || n < 0 || n > MAX_RECORD || off > |src| || n > |src| - off {
        err := true;
        return Zeros(4);
      }
      if n == 0 {
        return [];
      }
      if off >= lo && off + n <= lo + |buf| {
        r := buf[off - lo..off - lo + n];
        Slice(off, n);
        return;
      }
      if n > WINDOW {
        return src[off..off + n];
      }
      var at := off / WINDOW * WINDOW;
      var length := if WINDOW > |src| - at then |src| - at else WINDOW;
      if off + n > at + length {
        at := off;
        length := if WINDOW > |src| - at then |src| - at else WINDOW;
      }
      lo, buf := at, src[at..at + length];
      r := buf[off - lo..off - lo + n];
      Slice(off, n);
    }

    /** A piece of the window is a piece of the source. */
    lemma Slice(off: int, n: int)
      requires Valid() && lo <= off && 0 <= n && off + n <= lo + |buf|
      ensures buf[off - lo..off - lo + n] == src[off..off + n]
    {
      var x, y := buf[off - lo..off - lo + n], src[off..off + n];
      forall i | 0 <= i < n ensures x[i] == y[i] {}
    }

    /** The extent of the sections from `start` on; only their four-byte headers are read. */
    method MeasureSections(off: nat, start: nat) returns (e: Extent)
      requires Valid() && off < |src|
      modifies this`lo, this`buf, this`err
      ensures Valid() && err == old(err)
      ensures !err ==> e == SectionExtent(src[off..], start, 0)
    {
      var available := |src| - off;
      ghost var v := src[off..];
      var p: nat, count: nat := start, 0;
      while count < MAX_SECTIONS && p <= MAX_RECORD && p + 4 <= available
        invariant Valid() && err == old(err) && count <= MAX_SECTIONS
        invariant !err ==> SectionExtent(v, p, count) == SectionExtent(v, start, 0)
        decreases MAX_SECTIONS - count
      {
        var h := Span(off + p, 4);
        if err {
          return Limit;
        }
        HeaderSame(off, p, h);
        var n := SectionSize(h, 0);
        if n < 4 {
          return Bytes(p + 4);
        }
        if n > available - p {
          return Bytes(available);
        }
        if p + n > MAX_RECORD {
          return Limit;
        }
        if !MoreSections(h, 0) {
          return Bytes(p + n);
        }
        p, count := Align4(p + n), count + 1;
      }
      return if count >= MAX_SECTIONS || p > MAX_RECORD then Limit else Bytes(available);
    }

    lemma HeaderSame(off: nat, p: nat, h: seq<byte>)
      requires off + p + 4 <= |src| && h == src[off + p..off + p + 4]
      ensures var v := src[off..]; SectionSize(h, 0) == SectionSize(v, p) && (MoreSections(h, 0) <==> MoreSections(v, p))
    {
      var v := src[off..];
      assert forall i :: 0 <= i < 4 ==> h[i] == v[p + i];
    }

    /** How many bytes from `off` a body may need. */
    method Measure(off: nat) returns (e: Extent)
      requires Valid() && off < |src|
      modifies this`lo, this`buf, this`err
      ensures Valid() && err == old(err)
      ensures !err ==> e == RawExtent(src[off..])
    {
      ghost var v := src[off..];
      var available := |src| - off;
      var take := if available < 12 then available else 12;
      var head := Span(off, take);
      if err {
        return Limit;
      }
      assert forall i :: 0 <= i < take ==> head[i] == v[i];
      if head[0] % 4 == 2 {
        return Bytes(1 + head[0] / 4);
      }
      if head[0] % 4 == 3 && take >= 12 && head[1] / 16 == 3 {
        U32Same(v, head, 4);
        var code := U32At(head, 4);
        if code <= MAX_CODE {
          if code > MAX_WINDOW_CODE {
            return Limit;
          }
          if 12 + code <= available && head[0] / 8 % 2 == 1 {
            e := MeasureSections(off, Align4(12 + code));
            return;
          }
          return Bytes(12 + code);
        }
      }
      return Bytes(take);
    }

    /** The extent at `off`, no more than what the source has. */
    ghost function Clamped(off: nat): Extent
      requires off < |src|
    {
      var e := RawExtent(src[off..]);
      if e.Bytes? && e.n > |src| - off then Bytes(|src| - off) else e
    }

    /** Parses the `extent` bytes at `off`, with the limit on references found so far. */
    method ParseWindow(off: nat, raw: seq<byte>, strict: bool) returns (r: BodyResult)
      requires Valid() && off < |src| && BodyAt(raw, strict) == BodyAt(src[off..], strict)
      modifies this`bodyRefs
      ensures r.Absent? ==> ParseBody(src, off, strict).None?
      ensures r.Found? ==> ParseBody(src, off, strict) == Some(r.body)
      ensures r.Failed? && ParseBody(src, off, strict).Some? ==> References(ParseBody(src, off, strict).value) > MAX_REFS - old(bodyRefs)
    {
      var b := ParseRelative(raw, strict);
      // A body that fails still counts the references found before the failure.
      var refs: nat := *;
      if b.Some? {
        refs := |b.value.toks| + |b.value.clauses|;
      }
      if refs > MAX_REFS - bodyRefs {
        return Failed;
      }
      bodyRefs := bodyRefs + refs;
      if b.None? {
        return Absent;
      }
      return Found(Rebase(b.value, off));
    }

    /**
     Measures a body, reads that much, and parses it. Unless it reports an error, its answer is
     that of the whole-file parser.
     */
    method ParseBodyAt(off: int, strict: bool) returns (r: BodyResult)
      requires Valid()
      modifies this
      ensures Valid()
      ensures r.Absent? ==> ParseBody(src, off, strict).None?
      ensures r.Found? ==> ParseBody(src, off, strict) == Some(r.body)
      ensures r.Failed? && !old(err) && ParseBody(src, off, strict).Some? ==>
        var e := Clamped(off);
        || e.Limit? || e.n > MAX_RECORD || e.n > |src| * 16 + 0x400_0000 - old(bodyWork)
        || References(ParseBody(src, off, strict).value) > MAX_REFS - old(bodyRefs)
    {
      if off < 0 || off >= |src| {
        return Absent;
      }
      var e := Measure(off);
      if err || e.Limit? {
        return Failed;
      }
      var available := |src| - off;
      var extent := if e.n > available then available else e.n;
      if extent > MAX_RECORD || extent > |src| * 16 + 0x400_0000 - bodyWork {
        return Failed;
      }
      bodyWork := bodyWork + extent;
      var raw := Span(off, extent);
      if err {
        return Failed;
      }
      SliceBegins(src, off, extent);
      ExtentEnough(src[off..], raw, strict);
      r := ParseWindow(off, raw, strict);
    }
  }
}
