/** Rebuilding an archive, or a range of it, from its recipe (carz3/rep.go). */
module CarReconstruct {
  import opened Bytes
  import opened Varint
  import opened CarVarint
  import opened CarCid
  import opened CarIndex
  import opened CarIndexCodec
  import opened CarFormat

  /** The index records, with offsets recomputed by walking the sections. */
  method CollectRecs(rep: Rep) returns (recs: seq<IndexRec>)
    requires rep.Ok()
    ensures recs == IndexRecs(rep.indexCodec, rep.header, rep.prefixes, rep.refs, |rep.refs|)
  {
    var off := |Uv(|rep.header|)| + |rep.header|;
    recs := [];
    var i := 0;
    while i < |rep.refs|
      invariant 0 <= i <= |rep.refs| && off == SecStart(rep.header, rep.prefixes, rep.refs, i)
      invariant recs == IndexRecs(rep.indexCodec, rep.header, rep.prefixes, rep.refs, i)
    {
      assert RefOk(rep.prefixes, rep.refs[i]);
      var cid := CidBytes(rep.prefixes, rep.refs[i]);
      var c := ParseCID(cid, 0, |cid|);
      if c.Some? && c.value.hashCode != MH_IDENTITY {
        var mh := if rep.indexCodec == MULTIHASH_INDEX_SORTED then Low64(c.value.hashCode) else 0;
        recs := recs + [IndexRec(mh, c.value.digest, Low64(off))];
      }
      off := off + |Uv(|cid| + rep.refs[i].len)| + |cid| + rep.refs[i].len;
      i := i + 1;
    }
  }

  method IndexOf(rep: Rep) returns (b: seq<byte>)
    requires rep.Ok()
    ensures b == Index(rep)
  {
    match rep.indexMode {
      case NoIndex => b := [];
      case Exact => b := rep.indexBytes;
      case Derived =>
        var recs := CollectRecs(rep);
        b := BuildIndex(rep.indexCodec, recs);
    }
  }

  /** The size of the CARv1 stream, from lengths alone. */
  method SizeOfPayload(rep: Rep) returns (n: nat)
    requires rep.Ok()
    ensures n == PayloadSize(rep)
  {
    n := |Uv(|rep.header|)| + |rep.header|;
    var i := 0;
    while i < |rep.refs|
      invariant 0 <= i <= |rep.refs| && n == SecStart(rep.header, rep.prefixes, rep.refs, i)
    {
      assert RefOk(rep.prefixes, rep.refs[i]);
      var r := rep.refs[i];
      var cl := if r.derived then |rep.prefixes[r.prefix]| + 32 else |r.cid|;
      n := n + |Uv(cl + r.len)| + cl + r.len;
      i := i + 1;
    }
  }

  method FrontOf(rep: Rep) returns (b: seq<byte>)
    requires rep.Ok()
    ensures b == Front(rep)
  {
    var mid := Uv(|rep.header|) + rep.header;
    if rep.v2 {
      var hdr;
      if rep.hdrExact.Some? {
        hdr := CopyHeader(rep.hdrExact.value);
      } else {
        var ds := SizeOfPayload(rep);
        hdr := DeriveHeader(rep.characteristics, |rep.padBefore|, ds, |rep.padAfter|, rep.indexMode != NoIndex);
      }
      b := V2_PRAGMA + hdr + rep.padBefore + mid;
    } else {
      b := mid;
    }
  }

  // ---- blocks ----

  /** The getter gives a block of the right length and digest. */
  predicate Available(sha: seq<byte> -> digest, get: Getter, r: Ref) {
    r.inline.Some? || (get(r.sum).Some? && |get(r.sum).value| == r.len && sha(get(r.sum).value) == r.sum)
  }

  function BlockOf(get: Getter, r: Ref): seq<byte> {
    if r.inline.Some? then r.inline.value else if get(r.sum).Some? then get(r.sum).value else []
  }

  function BlocksOf(get: Getter, refs: seq<Ref>): (b: seq<seq<byte>>)
    ensures |b| == |refs| && forall i :: 0 <= i < |refs| ==> b[i] == BlockOf(get, refs[i])
  {
    seq(|refs|, i requires 0 <= i < |refs| => BlockOf(get, refs[i]))
  }

  method Data(sha: seq<byte> -> digest, get: Getter, r: Ref) returns (d: Option<seq<byte>>)
    ensures d == if Available(sha, get, r) then Some(BlockOf(get, r)) else None
  {
    if r.inline.Some? {
      return r.inline;
    }
    var b := get(r.sum);
    if b.None? || |b.value| != r.len || sha(b.value) != r.sum {
      return None;
    }
    return b;
  }

  method Section(rep: Rep, r: Ref, sha: seq<byte> -> digest, get: Getter) returns (b: Option<seq<byte>>)
    requires RefOk(rep.prefixes, r)
    ensures b == if Available(sha, get, r) then Some(SectionBytes(CidBytes(rep.prefixes, r), BlockOf(get, r))) else None
  {
    var d := Data(sha, get, r);
    if d.None? {
      return None;
    }
    var cid := if r.derived then rep.prefixes[r.prefix] + r.sum else r.cid;
    return Some(Uv(|cid| + |d.value|) + (cid + d.value));
  }

  ghost predicate AllAvailable(sha: seq<byte> -> digest, get: Getter, refs: seq<Ref>, k: nat)
    requires k <= |refs|
  {
    forall i :: 0 <= i < k ==> Available(sha, get, refs[i])
  }

  /** Writes the whole archive; it fails exactly when some block is not available. */
  method Reconstruct(rep: Rep, sha: seq<byte> -> digest, get: Getter) returns (r: Option<seq<byte>>)
    requires rep.Ok()
    ensures r.Some? <==> AllAvailable(sha, get, rep.refs, |rep.refs|)
    ensures r.Some? ==> r.value == Archive(rep, BlocksOf(get, rep.refs))
  {
    var idx := IndexOf(rep);
    var w := FrontOf(rep);
    ghost var blocks := BlocksOf(get, rep.refs);
    var i := 0;
    while i < |rep.refs|
      invariant 0 <= i <= |rep.refs| && AllAvailable(sha, get, rep.refs, i)
      invariant w == Front(rep) + Body(rep.prefixes, rep.refs, blocks, i)
    {
      assert RefOk(rep.prefixes, rep.refs[i]);
      var b := Section(rep, rep.refs[i], sha, get);
      if b.None? {
        assert !Available(sha, get, rep.refs[i]);
        return None;
      }
      Glue(Front(rep), Body(rep.prefixes, rep.refs, blocks, i), b.value);
      w := w + b.value;
      i := i + 1;
    }
    ArchiveEnd(rep, blocks, w, idx);
    if rep.v2 {
      w := w + rep.padAfter;
      w := w + idx;
    }
    return Some(w);
  }

  lemma ArchiveEnd(rep: Rep, blocks: seq<seq<byte>>, w: seq<byte>, idx: seq<byte>)
    requires rep.Ok() && |rep.refs| == |blocks| && w == Front(rep) + Body(rep.prefixes, rep.refs, blocks, |rep.refs|) && idx == Index(rep)
    ensures Archive(rep, blocks) == if rep.v2 then (w + rep.padAfter) + idx else w
  {
    if rep.v2 {
      Glue(w, rep.padAfter, idx);
    } else {
      assert w + [] == w;
    }
  }

  /** A getter that serves the blocks of a recipe rebuilds the archive it stands for. */
  lemma ServedAvailable(sha: seq<byte> -> digest, get: Getter, refs: seq<Ref>, blocks: seq<seq<byte>>)
    requires Matches(sha, refs, blocks) && Serves(get, refs, blocks)
    ensures AllAvailable(sha, get, refs, |refs|) && BlocksOf(get, refs) == blocks
  {
    forall i | 0 <= i < |refs| ensures Available(sha, get, refs[i]) && BlockOf(get, refs[i]) == blocks[i] {
      assert Fits(sha, refs[i], blocks[i]) && Served(get, refs[i], blocks[i]);
    }
  }

  // ---- ranges ----

  /** The part of `x` inside [off, end). */
  function Cut(x: seq<byte>, off: nat, end: int): seq<byte> {
    var hi := if end < |x| then end else |x|;
    if hi <= off then [] else x[off..hi]
  }

  /** What `emit` appends for `b` at position `pos`. */
  function Piece(b: seq<byte>, pos: nat, off: nat, end: int): seq<byte> {
    if pos + |b| > off && pos < end then
      var lo := if off > pos then off - pos else 0;
      var hi := if end < pos + |b| then end - pos else |b|;
      if lo <= hi then b[lo..hi] else []
    else []
  }

  lemma CutAppend(x: seq<byte>, b: seq<byte>, off: nat, end: int)
    ensures Cut(x + b, off, end) == Cut(x, off, end) + Piece(b, |x|, off, end)
  {}

  lemma CutPast(x: seq<byte>, y: seq<byte>, off: nat, end: int)
    requires end <= |x|
    ensures Cut(x + y, off, end) == Cut(x, off, end)
  {}

  /** Where section `k` starts in the archive. */
  ghost function Start(rep: Rep, blocks: seq<seq<byte>>, k: nat): nat
    requires rep.Ok() && k <= |rep.refs| == |blocks|
  {
    |Front(rep)| + |Body(rep.prefixes, rep.refs, blocks, k)|
  }

  /** Section `k` meets the range [off, end). */
  ghost predicate Meets(rep: Rep, blocks: seq<seq<byte>>, off: int, end: int, k: nat)
    requires rep.Ok() && k < |rep.refs| == |blocks|
  {
    Start(rep, blocks, k) < end && off < Start(rep, blocks, k + 1)
  }

  /** The getter serves every section the range meets. */
  ghost predicate RangeServed(get: Getter, rep: Rep, blocks: seq<seq<byte>>, off: int, end: int)
    requires rep.Ok() && |rep.refs| == |blocks|
  {
    forall i {:trigger Meets(rep, blocks, off, end, i)} :: 0 <= i < |rep.refs| && Meets(rep, blocks, off, end, i) ==> Served(get, rep.refs[i], blocks[i])
  }

  ghost predicate Wanted(rep: Rep, blocks: seq<seq<byte>>, off: int, end: int, k: nat)
    requires rep.Ok() && k < |rep.refs| == |blocks|
  {
    Meets(rep, blocks, off, end, k) && rep.refs[k].inline.None?
  }

  /** The sections before `k` whose block must be fetched. */
  ghost function Needed(rep: Rep, blocks: seq<seq<byte>>, off: int, end: int, k: nat): seq<nat>
    requires rep.Ok() && k <= |rep.refs| == |blocks|
  {
    if k == 0 then []
    else
      var s := Needed(rep, blocks, off, end, k - 1);
      if Wanted(rep, blocks, off, end, k - 1) then s + [k - 1] else s
  }

  lemma {:induction false} StartMonotone(rep: Rep, blocks: seq<seq<byte>>, j: nat, k: nat)
    requires rep.Ok() && j <= k <= |rep.refs| == |blocks|
    ensures Start(rep, blocks, j) <= Start(rep, blocks, k)
  {
    if j < k { StartMonotone(rep, blocks, j, k - 1); }
  }

  /** Past the end of the range nothing more is needed. */
  lemma {:induction false} NeededDone(rep: Rep, blocks: seq<seq<byte>>, off: int, end: int, j: nat, k: nat)
    requires rep.Ok() && j <= k <= |rep.refs| == |blocks| && Start(rep, blocks, j) >= end
    ensures Needed(rep, blocks, off, end, k) == Needed(rep, blocks, off, end, j)
  {
    if j < k {
      NeededDone(rep, blocks, off, end, j, k - 1);
      StartMonotone(rep, blocks, j, k - 1);
    }
  }

  function Lengths(refs: seq<Ref>, ids: seq<nat>): nat
    requires forall k :: 0 <= k < |ids| ==> ids[k] < |refs|
  {
    if ids == [] then 0 else Lengths(refs, ids[..|ids| - 1]) + refs[ids[|ids| - 1]].len
  }

  lemma LengthsSnoc(refs: seq<Ref>, ids: seq<nat>, i: nat)
    requires (forall k :: 0 <= k < |ids| ==> ids[k] < |refs|) && i < |refs|
    ensures Lengths(refs, ids + [i]) == Lengths(refs, ids) + refs[i].len
  {
    assert (ids + [i])[..|ids|] == ids;
  }

  /** A recipe and its blocks; without a wrapper there is no padding. */
  ghost predicate WellFormed(rep: Rep, sha: seq<byte> -> digest, blocks: seq<seq<byte>>) {
    rep.Ok() && Matches(sha, rep.refs, blocks) && (rep.v2 || rep.padAfter == [])
  }

  /** The archive up to section `k`. */
  ghost function UpTo(rep: Rep, blocks: seq<seq<byte>>, k: nat): (x: seq<byte>)
    requires rep.Ok() && k <= |rep.refs| == |blocks|
    ensures |x| == Start(rep, blocks, k)
  {
    Front(rep) + Body(rep.prefixes, rep.refs, blocks, k)
  }

  lemma UpToStep(rep: Rep, sha: seq<byte> -> digest, blocks: seq<seq<byte>>, k: nat, sec: seq<byte>)
    requires WellFormed(rep, sha, blocks) && k < |rep.refs| && RefOk(rep.prefixes, rep.refs[k])
    requires sec == SectionBytes(CidBytes(rep.prefixes, rep.refs[k]), blocks[k])
    ensures UpTo(rep, blocks, k + 1) == UpTo(rep, blocks, k) + sec && |sec| == SecLen(rep.prefixes, rep.refs[k])
  {
    assert Fits(sha, rep.refs[k], blocks[k]);
    Glue(Front(rep), Body(rep.prefixes, rep.refs, blocks, k), sec);
  }

  /** The scan stands before section `i`, has kept what lies in the range, and has asked for the blocks it met. */
  ghost predicate Scanned(rep: Rep, blocks: seq<seq<byte>>, off: nat, end: int, i: nat, good: bool,
                          pos: nat, buf: seq<byte>, asked: seq<nat>, fetched: nat)
    requires rep.Ok() && |rep.refs| == |blocks|
  {
    && i <= |rep.refs| && pos == Start(rep, blocks, i)
    && (good ==> buf == Cut(UpTo(rep, blocks, i), off, end))
    && asked == Needed(rep, blocks, off, end, i)
    && (forall k :: 0 <= k < |asked| ==> asked[k] < |rep.refs|) && fetched == Lengths(rep.refs, asked)
  }

  lemma ScanSkip(rep: Rep, sha: seq<byte> -> digest, blocks: seq<seq<byte>>, off: nat, end: int, i: nat, good: bool,
                 pos: nat, buf: seq<byte>, asked: seq<nat>, fetched: nat)
    requires WellFormed(rep, sha, blocks) && i < |rep.refs| && RefOk(rep.prefixes, rep.refs[i])
    requires Scanned(rep, blocks, off, end, i, good, pos, buf, asked, fetched)
    requires pos + SecLen(rep.prefixes, rep.refs[i]) <= off || pos >= end
    ensures Scanned(rep, blocks, off, end, i + 1, good, pos + SecLen(rep.prefixes, rep.refs[i]), buf, asked, fetched)
  {
    var sec := SectionBytes(CidBytes(rep.prefixes, rep.refs[i]), blocks[i]);
    UpToStep(rep, sha, blocks, i, sec);
    CutAppend(UpTo(rep, blocks, i), sec, off, end);
    assert !Meets(rep, blocks, off, end, i);
  }

  lemma ScanTake(rep: Rep, sha: seq<byte> -> digest, blocks: seq<seq<byte>>, off: nat, end: int, i: nat, good: bool,
                 pos: nat, buf: seq<byte>, asked: seq<nat>, fetched: nat, sec: seq<byte>)
    requires WellFormed(rep, sha, blocks) && i < |rep.refs| && RefOk(rep.prefixes, rep.refs[i])
    requires Scanned(rep, blocks, off, end, i, good, pos, buf, asked, fetched)
    requires pos + SecLen(rep.prefixes, rep.refs[i]) > off && pos < end
    requires |sec| == SecLen(rep.prefixes, rep.refs[i])
    requires good ==> sec == SectionBytes(CidBytes(rep.prefixes, rep.refs[i]), blocks[i])
    ensures var more := rep.refs[i].inline.None?;
            Scanned(rep, blocks, off, end, i + 1, good, pos + |sec|, buf + Piece(sec, pos, off, end),
                    if more then asked + [i] else asked, if more then fetched + rep.refs[i].len else fetched)
  {
    UpToStep(rep, sha, blocks, i, SectionBytes(CidBytes(rep.prefixes, rep.refs[i]), blocks[i]));
    if good { CutAppend(UpTo(rep, blocks, i), sec, off, end); }
    assert Meets(rep, blocks, off, end, i);
    LengthsSnoc(rep.refs, asked, i);
  }

  /** A fetched section: its length is as announced, and its bytes are right if the getter serves the range. */
  lemma SectionFetched(rep: Rep, sha: seq<byte> -> digest, get: Getter, blocks: seq<seq<byte>>, off: nat, end: int, i: nat, sec: seq<byte>)
    requires WellFormed(rep, sha, blocks) && i < |rep.refs| && RefOk(rep.prefixes, rep.refs[i]) && Available(sha, get, rep.refs[i])
    requires sec == SectionBytes(CidBytes(rep.prefixes, rep.refs[i]), BlockOf(get, rep.refs[i])) && Meets(rep, blocks, off, end, i)
    ensures |sec| == SecLen(rep.prefixes, rep.refs[i])
    ensures RangeServed(get, rep, blocks, off, end) ==> sec == SectionBytes(CidBytes(rep.prefixes, rep.refs[i]), blocks[i])
  {
    assert Fits(sha, rep.refs[i], blocks[i]);
  }

  lemma MissingNotServed(rep: Rep, sha: seq<byte> -> digest, get: Getter, blocks: seq<seq<byte>>, off: nat, end: int, i: nat)
    requires WellFormed(rep, sha, blocks) && i < |rep.refs| && !Available(sha, get, rep.refs[i]) && Meets(rep, blocks, off, end, i)
    ensures !RangeServed(get, rep, blocks, off, end)
  {
    assert Fits(sha, rep.refs[i], blocks[i]);
  }

  lemma MeetsHere(rep: Rep, sha: seq<byte> -> digest, blocks: seq<seq<byte>>, off: nat, end: int, i: nat)
    requires WellFormed(rep, sha, blocks) && i < |rep.refs| && RefOk(rep.prefixes, rep.refs[i])
    ensures Meets(rep, blocks, off, end, i)
       <==> Start(rep, blocks, i) < end && off < Start(rep, blocks, i) + SecLen(rep.prefixes, rep.refs[i])
  {
    UpToStep(rep, sha, blocks, i, SectionBytes(CidBytes(rep.prefixes, rep.refs[i]), blocks[i]));
  }

  /** One section: skipped when it lies outside the range, otherwise fetched and cut. */
  method ScanNext(rep: Rep, off: nat, end: int, sha: seq<byte> -> digest, get: Getter, k: nat, pos: nat, buf: seq<byte>, fetched: nat,
                  ghost asked: seq<nat>, ghost good: bool, ghost blocks: seq<seq<byte>>)
    returns (ok: bool, pos': nat, buf': seq<byte>, fetched': nat, ghost asked': seq<nat>)
    requires WellFormed(rep, sha, blocks) && k < |rep.refs|
    requires good == RangeServed(get, rep, blocks, off, end) && Scanned(rep, blocks, off, end, k, good, pos, buf, asked, fetched)
    ensures ok ==> Scanned(rep, blocks, off, end, k + 1, good, pos', buf', asked', fetched')
    ensures ok && end <= 0 ==> buf' == buf
    ensures !ok ==> !good && end > 0
  {
    assert RefOk(rep.prefixes, rep.refs[k]);
    MeetsHere(rep, sha, blocks, off, end, k);
    var r := rep.refs[k];
    var cl := if r.derived then |rep.prefixes[r.prefix]| + 32 else |r.cid|;
    var secLen := |Uv(cl + r.len)| + cl + r.len;
    assert secLen == SecLen(rep.prefixes, r);
    if pos + secLen <= off || pos >= end {
      ScanSkip(rep, sha, blocks, off, end, k, good, pos, buf, asked, fetched);
      return true, pos + secLen, buf, fetched, asked;
    }
    var sec := Section(rep, r, sha, get);
    if sec.None? {
      MissingNotServed(rep, sha, get, blocks, off, end, k);
      return false, pos, buf, fetched, asked;
    }
    SectionFetched(rep, sha, get, blocks, off, end, k, sec.value);
    ScanTake(rep, sha, blocks, off, end, k, good, pos, buf, asked, fetched, sec.value);
    return true, pos + |sec.value|, buf + Piece(sec.value, pos, off, end),
      if r.inline.None? then fetched + r.len else fetched, if r.inline.None? then asked + [k] else asked;
  }

  lemma ScanStart(rep: Rep, sha: seq<byte> -> digest, blocks: seq<seq<byte>>, off: nat, end: int, good: bool, head: seq<byte>)
    requires WellFormed(rep, sha, blocks) && head == Front(rep)
    ensures Scanned(rep, blocks, off, end, 0, good, |head|, Piece(head, 0, off, end), [], 0)
    ensures end <= 0 ==> Piece(head, 0, off, end) == []
  {
    CutAppend([], head, off, end);
    assert [] + head == head && UpTo(rep, blocks, 0) == head;
  }

  /** Walks the sections from the first, fetching only those that meet the range; stops at its end. */
  method Scan(rep: Rep, off: nat, end: int, sha: seq<byte> -> digest, get: Getter, head: seq<byte>, ghost good: bool, ghost blocks: seq<seq<byte>>)
    returns (ok: bool, pos: nat, buf: seq<byte>, fetched: nat, ghost asked: seq<nat>, ghost i: nat)
    requires WellFormed(rep, sha, blocks) && head == Front(rep) && good == RangeServed(get, rep, blocks, off, end)
    ensures ok ==> Scanned(rep, blocks, off, end, i, good, pos, buf, asked, fetched)
    ensures ok ==> i == |rep.refs| || pos >= end
    ensures !ok ==> !good && end > 0
    ensures end <= 0 ==> ok && buf == []
  {
    pos, buf, fetched, asked := |head|, Piece(head, 0, off, end), 0, [];
    ScanStart(rep, sha, blocks, off, end, good, head);
    var done, k;
    ok, done, k, pos, buf, fetched, asked := ScanOn(rep, off, end, sha, get, pos, buf, good, blocks);
    i := k;
  }

  /** The loop stands before section `k`, or has reached the end of the range. */
  ghost predicate Scanning(rep: Rep, blocks: seq<seq<byte>>, off: nat, end: int, k: nat, done: bool, good: bool,
                           pos: nat, buf: seq<byte>, buf0: seq<byte>, asked: seq<nat>, fetched: nat)
  {
    && rep.Ok() && |rep.refs| == |blocks| && Scanned(rep, blocks, off, end, k, good, pos, buf, asked, fetched)
    && (done ==> pos >= end) && (end <= 0 ==> buf == buf0)
  }

  method ScanStep(rep: Rep, off: nat, end: int, sha: seq<byte> -> digest, get: Getter, k: nat, pos: nat, buf: seq<byte>, fetched: nat,
                  ghost asked: seq<nat>, ghost good: bool, ghost blocks: seq<seq<byte>>, ghost buf0: seq<byte>)
    returns (ok: bool, done: bool, pos': nat, buf': seq<byte>, fetched': nat, ghost asked': seq<nat>)
    requires WellFormed(rep, sha, blocks) && good == RangeServed(get, rep, blocks, off, end) && k < |rep.refs|
    requires Scanning(rep, blocks, off, end, k, false, good, pos, buf, buf0, asked, fetched)
    ensures ok ==> Scanning(rep, blocks, off, end, k + 1, done, good, pos', buf', buf0, asked', fetched')
    ensures !ok ==> !good && end > 0
  {
    ok, pos', buf', fetched', asked' := ScanNext(rep, off, end, sha, get, k, pos, buf, fetched, asked, good, blocks);
    done := pos' >= end;
  }

  /** The sections, from the first, until the range ends. */
  method ScanOn(rep: Rep, off: nat, end: int, sha: seq<byte> -> digest, get: Getter, pos0: nat, buf0: seq<byte>, ghost good: bool, ghost blocks: seq<seq<byte>>)
    returns (ok: bool, done: bool, k: nat, pos: nat, buf: seq<byte>, fetched: nat, ghost asked: seq<nat>)
    requires WellFormed(rep, sha, blocks) && good == RangeServed(get, rep, blocks, off, end)
    requires Scanning(rep, blocks, off, end, 0, false, good, pos0, buf0, buf0, [], 0)
    ensures ok ==> Scanning(rep, blocks, off, end, k, done, good, pos, buf, buf0, asked, fetched) && (done || k == |rep.refs|)
    ensures !ok ==> !good && end > 0
  {
    ok, done, k, pos, buf, fetched, asked := true, false, 0, pos0, buf0, 0, [];
    while k < |rep.refs| && !done
      invariant ok && k <= |rep.refs| && Scanning(rep, blocks, off, end, k, done, good, pos, buf, buf0, asked, fetched)
    {
      ok, done, pos, buf, fetched, asked := ScanStep(rep, off, end, sha, get, k, pos, buf, fetched, asked, good, blocks, buf0);
      if !ok {
        return;
      }
      k := k + 1;
    }
  }

  lemma RangeDone(rep: Rep, sha: seq<byte> -> digest, blocks: seq<seq<byte>>, off: nat, end: int, i: nat,
                  pos: nat, buf: seq<byte>, asked: seq<nat>, fetched: nat)
    requires WellFormed(rep, sha, blocks) && pos >= end
    requires Scanned(rep, blocks, off, end, i, true, pos, buf, asked, fetched)
    ensures buf == Cut(Archive(rep, blocks), off, end) && |Archive(rep, blocks)| >= end
    ensures asked == Needed(rep, blocks, off, end, |rep.refs|)
  {
    NeededDone(rep, blocks, off, end, i, |rep.refs|);
    var rest := ArchiveFrom(rep, blocks, i);
    CutPast(UpTo(rep, blocks, i), rest, off, end);
  }

  /** The archive is what comes before section `i` followed by something. */
  lemma {:induction false} ArchiveFrom(rep: Rep, blocks: seq<seq<byte>>, i: nat) returns (rest: seq<byte>)
    requires rep.Ok() && i <= |rep.refs| == |blocks|
    ensures Archive(rep, blocks) == UpTo(rep, blocks, i) + rest
    decreases |rep.refs| - i
  {
    if i == |rep.refs| {
      rest := Back(rep);
    } else {
      rest := ArchiveFrom(rep, blocks, i + 1);
      assert RefOk(rep.prefixes, rep.refs[i]);
      var sec := SectionBytes(CidBytes(rep.prefixes, rep.refs[i]), blocks[i]);
      Glue(Front(rep), Body(rep.prefixes, rep.refs, blocks, i), sec);
      Glue(UpTo(rep, blocks, i), sec, rest);
      rest := sec + rest;
    }
  }

  /** What follows the sections. */
  lemma ArchiveTail(rep: Rep, blocks: seq<seq<byte>>, idx: seq<byte>)
    requires rep.Ok() && |rep.refs| == |blocks| && (rep.v2 || rep.padAfter == []) && idx == if rep.v2 then Index(rep) else []
    ensures Archive(rep, blocks) == UpTo(rep, blocks, |rep.refs|) + (rep.padAfter + idx)
  {
    if !rep.v2 { assert rep.padAfter + idx == []; }
  }

  /** The cut through the padding and the index. */
  lemma RangeTail(x: seq<byte>, a: seq<byte>, pad: seq<byte>, idx: seq<byte>, off: nat, end: int, buf: seq<byte>)
    requires a == x + (pad + idx) && buf == Cut(x, off, end)
    ensures buf + Piece(pad, |x|, off, end) + Piece(idx, |x| + |pad|, off, end) == Cut(a, off, end)
    ensures |a| == |x| + |pad| + |idx|
  {
    CutTwice(x, pad, idx, off, end);
  }

  lemma CutTwice(x: seq<byte>, a: seq<byte>, b: seq<byte>, off: nat, end: int)
    ensures Cut(x, off, end) + Piece(a, |x|, off, end) + Piece(b, |x| + |a|, off, end) == Cut(x + (a + b), off, end)
    ensures |x + (a + b)| == |x| + |a| + |b|
  {
    CutAppend(x, a, off, end);
    CutAppend(x + a, b, off, end);
    Glue(x, a, b);
  }

  lemma RangeEnds(rep: Rep, blocks: seq<seq<byte>>, off: nat, end: int, pos: nat, buf: seq<byte>, asked: seq<nat>, fetched: nat, idx: seq<byte>)
    requires rep.Ok() && |rep.refs| == |blocks| && (rep.v2 || rep.padAfter == []) && idx == if rep.v2 then Index(rep) else []
    requires Scanned(rep, blocks, off, end, |rep.refs|, true, pos, buf, asked, fetched)
    ensures buf + Piece(rep.padAfter, pos, off, end) + Piece(idx, pos + |rep.padAfter|, off, end) == Cut(Archive(rep, blocks), off, end)
    ensures |Archive(rep, blocks)| == pos + |rep.padAfter| + |idx| && asked == Needed(rep, blocks, off, end, |rep.refs|)
  {
    ArchiveTail(rep, blocks, idx);
    RangeTail(UpTo(rep, blocks, |rep.refs|), Archive(rep, blocks), rep.padAfter, idx, off, end, buf);
  }

  /**
   Reads [off, off + n) of the archive without the sections outside it. It returns exactly those
   bytes, or an error beyond the end, and asks exactly for the non-inline blocks whose sections
   meet the range. If off + n overflows, the range looks empty: no bytes, no error.
   */
  method ReadRange(rep: Rep, off: nat, n: nat, sha: seq<byte> -> digest, get: Getter, ghost blocks: seq<seq<byte>>)
    returns (out: Option<seq<byte>>, fetched: nat, ghost asked: seq<nat>)
    requires WellFormed(rep, sha, blocks) && off < B63 && n < B63
    ensures off + n < B63 && RangeServed(get, rep, blocks, off, off + n) ==>
      var a := Archive(rep, blocks);
      && out == (if off + n <= |a| then Some(a[off..off + n]) else None)
      && asked == Needed(rep, blocks, off, off + n, |rep.refs|)
    ensures out.Some? ==> (forall k :: 0 <= k < |asked| ==> asked[k] < |rep.refs|) && fetched == Lengths(rep.refs, asked)
    ensures off + n >= B63 ==> out == Some([])
  {
    var idx := [];
    if rep.v2 {
      idx := IndexOf(rep);
    }
    var head := FrontOf(rep);
    var end := ToI64(off + n);
    var ok, pos, buf;
    ghost var i;
    ghost var good := RangeServed(get, rep, blocks, off, end);
    ok, pos, buf, fetched, asked, i := Scan(rep, off, end, sha, get, head, good, blocks);
    if !ok {
      return None, fetched, asked;
    }
    out := Finish(rep, off, end, pos, buf, idx, sha, good, blocks, asked, fetched, i);
    if off + n <= |Archive(rep, blocks)| { CutIsSlice(Archive(rep, blocks), off, n); }
  }

  lemma CutIsSlice(a: seq<byte>, off: nat, n: nat)
    requires off + n <= |a|
    ensures Cut(a, off, off + n) == a[off..off + n]
  {}

  /** The bytes after the sections, and the check against the end of the archive. */
  method Finish(rep: Rep, off: nat, end: int, pos0: nat, buf0: seq<byte>, idx: seq<byte>,
                ghost sha: seq<byte> -> digest, ghost good: bool, ghost blocks: seq<seq<byte>>, ghost asked: seq<nat>, ghost fetched: nat, ghost i: nat)
    returns (out: Option<seq<byte>>)
    requires WellFormed(rep, sha, blocks) && Scanned(rep, blocks, off, end, i, good, pos0, buf0, asked, fetched)
    requires (i == |rep.refs| || pos0 >= end) && idx == (if rep.v2 then Index(rep) else [])
    ensures good ==>
      var a := Archive(rep, blocks);
      out == (if end <= |a| then Some(Cut(a, off, end)) else None) && asked == Needed(rep, blocks, off, end, |rep.refs|)
    ensures end <= 0 ==> out == Some(buf0)
  {
    var pos, buf := pos0, buf0;
    if pos < end {
      if good { RangeEnds(rep, blocks, off, end, pos, buf, asked, fetched, idx); }
      buf := buf + Piece(rep.padAfter, pos, off, end) + Piece(idx, pos + |rep.padAfter|, off, end);
      pos := pos + |rep.padAfter| + |idx|;
    } else if good {
      RangeDone(rep, sha, blocks, off, end, i, pos, buf, asked, fetched);
    }
    if end > pos {
      return None;
    }
    return Some(buf);
  }
}
