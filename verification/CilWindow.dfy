/**
 How much of the file a method body needs (clrz3/source.go, `parseBodyAt`): the extent computed
 before parsing, and why parsing that many bytes gives the same answer as parsing them all.
 */
module CilWindow {
  import opened Bytes
  import opened CilModel
  import opened CilMask

  const MAX_RECORD := 0x100_0000
  const MAX_WINDOW_CODE := 0x10_0000
  const MAX_SECTIONS := 1024

  datatype Extent = Limit | Bytes(n: nat)

  /** The extent of a body whose sections from `p` on are still to be measured. */
  function SectionExtent(v: seq<byte>, p: nat, count: nat): Extent
    decreases |v| - p
  {
    if count >= MAX_SECTIONS || p > MAX_RECORD then Limit
    else if p + 4 > |v| then Bytes(|v|)
    else if SectionSize(v, p) < 4 then Bytes(p + 4)
    else if SectionSize(v, p) > |v| - p then Bytes(|v|)
    else if p + SectionSize(v, p) > MAX_RECORD then Limit
    else if !MoreSections(v, p) then Bytes(p + SectionSize(v, p))
    else SectionExtent(v, Align4(p + SectionSize(v, p)), count + 1)
  }

  /** The bytes a body starting at `v` may need, before clamping to what there is. */
  function RawExtent(v: seq<byte>): Extent
    requires |v| > 0
  {
    if v[0] % 4 == 2 then Bytes(1 + v[0] / 4)
    else if v[0] % 4 == 3 && |v| >= 12 && v[1] / 16 == 3 && U32At(v, 4) <= MAX_CODE then
      if U32At(v, 4) > MAX_WINDOW_CODE then Limit
      else if 12 + U32At(v, 4) <= |v| && v[0] / 8 % 2 == 1 then SectionExtent(v, Align4(12 + U32At(v, 4)), 0)
      else Bytes(12 + U32At(v, 4))
    else Bytes(if |v| < 12 then |v| else 12)
  }

  /** `w` is the first bytes of `v`. */
  predicate Begins(v: seq<byte>, w: seq<byte>) { |w| <= |v| && SameOn(v, w, 0, |w|) }

  lemma InstrBegins(v: seq<byte>, w: seq<byte>, p: nat, end: nat, strict: bool)
    requires Begins(v, w) && p < end <= |w|
    ensures InstrAt(w, p, end, strict) == InstrAt(v, p, end, strict)
  {
    OpdBegins(v, w, p, end);
    var (o, q) := OpdAt(v, p, end);
    InstrOfBegins(v, w, o, q, end, strict);
  }

  lemma OpdBegins(v: seq<byte>, w: seq<byte>, p: nat, end: nat)
    requires Begins(v, w) && p < end <= |w|
    ensures OpdAt(w, p, end) == OpdAt(v, p, end)
  {}

  lemma InstrOfBegins(v: seq<byte>, w: seq<byte>, o: Opd, q: nat, end: nat, strict: bool)
    requires Begins(v, w) && end <= |w|
    ensures InstrOf(w, o, q, end, strict) == InstrOf(v, o, q, end, strict)
  {
    if q + 4 <= end { U32Same(v, w, q); }
  }

  lemma {:induction false} CodeBegins(v: seq<byte>, w: seq<byte>, p: nat, end: nat, strict: bool, acc: seq<Tok>)
    requires Begins(v, w) && p <= end <= |w|
    ensures Code(w, p, end, strict, acc) == Code(v, p, end, strict, acc)
    decreases end - p
  {
    if p < end {
      InstrBegins(v, w, p, end, strict);
      var i := InstrAt(v, p, end, strict);
      if i.Some? { CodeBegins(v, w, i.value.next, end, strict, Append(acc, i.value.tok)); }
    }
  }

  lemma ListBegins(v: seq<byte>, w: seq<byte>, q: nat, n: nat, fat: bool)
    requires Begins(v, w) && q + ClauseSpan(fat, n) <= |w|
    ensures ClauseList(w, q, n, fat) == ClauseList(v, q, n, fat)
  {
    var l, m := ClauseList(v, q, n, fat), ClauseList(w, q, n, fat);
    forall i | 0 <= i < n ensures m[i] == l[i] {
      var c := ClauseStart(q, fat, i);
      assert w[c..TokPlace(c, fat)] == v[c..TokPlace(c, fat)];
      U32Same(v, w, TokPlace(c, fat));
    }
  }

  lemma SectionBegins(v: seq<byte>, w: seq<byte>, p: nat, strict: bool, acc: seq<Clause>)
    requires Begins(v, w) && p + 4 <= |w| && 4 <= SectionSize(v, p) && p + SectionSize(v, p) <= |w|
    ensures SectionSize(w, p) == SectionSize(v, p) && Section(w, p, strict, acc) == Section(v, p, strict, acc)
  {
    var fat := FatSection(v, p);
    var n := ClauseCount(fat, SectionSize(v, p) - 4);
    if WholeClauses(fat, SectionSize(v, p) - 4) { ListBegins(v, w, p + 4, n, fat); }
  }

  lemma {:induction false} SectionsBegin(v: seq<byte>, w: seq<byte>, p: nat, count: nat, strict: bool, acc: seq<Clause>)
    requires Begins(v, w) && SectionExtent(v, p, count) == Bytes(|w|) && |w| < |v|
    ensures p + 4 <= |w| && Sections(w, p, strict, acc) == Sections(v, p, strict, acc)
    decreases |v| - p
  {
    if SectionSize(v, p) < 4 {
    } else if !MoreSections(v, p) {
      SectionBegins(v, w, p, strict, acc);
    } else {
      var e := p + SectionSize(v, p);
      Align4Up(e);
      var cs := if e <= |v| then Section(v, p, strict, acc) else None;
      SectionsBegin(v, w, Align4(e), count + 1, strict, if cs.Some? then cs.value else []);
      SectionBegins(v, w, p, strict, acc);
    }
  }

  lemma HeaderBegins(v: seq<byte>, w: seq<byte>, strict: bool)
    requires Begins(v, w) && |w| > 0 && (v[0] % 4 == 3 && |v| >= 12 ==> |w| >= 12)
    ensures HeaderAt(w, strict) == HeaderAt(v, strict)
  {
    if |w| >= 12 {
      U32Same(v, w, 4);
      U32Same(v, w, 8);
    }
  }

  lemma SliceBegins(src: seq<byte>, off: nat, n: nat)
    requires off + n <= |src|
    ensures Begins(src[off..], src[off..off + n]) && |src[off..]| == |src| - off
  {}

  /** Parsing the extent agrees with parsing everything. */
  lemma ExtentEnough(v: seq<byte>, w: seq<byte>, strict: bool)
    requires |v| > 0 && RawExtent(v).Bytes? && Begins(v, w) && |w| == (if RawExtent(v).n < |v| then RawExtent(v).n else |v|)
    ensures BodyAt(w, strict) == BodyAt(v, strict)
  {
    if |w| == |v| {
      assert w == v;
    } else {
      ShorterEnough(v, w, strict);
    }
  }

  /** The header says that sections follow code that is all there. */
  predicate HasSections(v: seq<byte>) {
    |v| >= 12 && v[0] % 4 == 3 && v[1] / 16 == 3 && U32At(v, 4) <= MAX_CODE && 12 + U32At(v, 4) <= |v| && v[0] / 8 % 2 == 1
  }

  lemma ShorterEnough(v: seq<byte>, w: seq<byte>, strict: bool)
    requires |v| > 0 && RawExtent(v) == Bytes(|w|) && Begins(v, w) && |w| < |v|
    ensures BodyAt(w, strict) == BodyAt(v, strict)
  {
    if HasSections(v) {
      Align4Up(12 + U32At(v, 4));
      SectionsBegin(v, w, Align4(12 + U32At(v, 4)), 0, strict, []);
    }
    ShorterHeader(v, w, strict);
    var h := HeaderAt(v, strict);
    if h.Some? {
      CodeBegins(v, w, h.value.hdrLen, h.value.hdrLen + h.value.codeLen, strict, []);
      BodyBegins(v, w, strict, h.value);
    }
  }

  /** The extent holds the header and all the code. */
  lemma ShorterHeader(v: seq<byte>, w: seq<byte>, strict: bool)
    requires |v| > 0 && RawExtent(v) == Bytes(|w|) && Begins(v, w) && |w| < |v| && (HasSections(v) ==> |w| >= 12 + U32At(v, 4))
    ensures |w| > 0 && HeaderAt(w, strict) == HeaderAt(v, strict)
    ensures var h := HeaderAt(v, strict);
            h.Some? ==> h.value.hdrLen + h.value.codeLen <= |w| && (h.value.sections ==> HasSections(v) && h.value.hdrLen == 12 && h.value.codeLen == U32At(v, 4))
  {
    HeaderBegins(v, w, strict);
  }

  /** Two views with the same header, code and sections hold the same body. */
  lemma {:induction false} BodyBegins(v: seq<byte>, w: seq<byte>, strict: bool, h: Header)
    requires |v| > 0 && |w| > 0 && HeaderAt(v, strict) == Some(h) && HeaderAt(w, strict) == Some(h)
    requires h.hdrLen + h.codeLen <= |v| && h.hdrLen + h.codeLen <= |w|
    requires Code(w, h.hdrLen, h.hdrLen + h.codeLen, strict, []) == Code(v, h.hdrLen, h.hdrLen + h.codeLen, strict, [])
    requires h.sections ==> Sections(w, Align4(h.hdrLen + h.codeLen), strict, []) == Sections(v, Align4(h.hdrLen + h.codeLen), strict, [])
    ensures BodyAt(w, strict) == BodyAt(v, strict)
  {}
}
