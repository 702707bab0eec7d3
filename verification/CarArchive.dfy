/**
 The recipe from end to end (carz3/rep.go): a file is parsed, its recipe is written and read back,
 and the file is rebuilt from what was read; and inputs at which less is promised than expected.
 */
module CarArchive {
  import opened Bytes
  import opened Varint
  import opened CarCid
  import opened CarFormat
  import opened CarReconstruct
  import opened CarBuild
  import opened CarRecipe
  import CarRecipeCodec

  /** Blocks with equal digests have equal lengths. */
  ghost predicate EqualLengths(sha: seq<byte> -> digest, blocks: seq<seq<byte>>) {
    forall i, j :: 0 <= i < |blocks| && 0 <= j < |blocks| && sha(blocks[i]) == sha(blocks[j]) ==> |blocks[i]| == |blocks[j]|
  }

  lemma BlocksOneLength(sha: seq<byte> -> digest, refs: seq<Ref>, blocks: seq<seq<byte>>)
    requires Matches(sha, refs, blocks) && EqualLengths(sha, blocks)
    ensures OneLength(refs)
  {
    forall i, j | 0 <= i < |refs| && 0 <= j < |refs| && refs[i].inline.None? && refs[j].inline.None? && refs[i].sum == refs[j].sum
      ensures refs[i].len == refs[j].len
    {
      assert Fits(sha, refs[i], blocks[i]) && Fits(sha, refs[j], blocks[j]);
    }
  }

  /** The recipe of a file can be written, provided that equal digests mean equal lengths. */
  lemma CompactWritable(sha: seq<byte> -> digest, rep: Rep, blocks: seq<seq<byte>>, n: nat)
    requires WellFormed(rep, sha, blocks) && Compact(sha, rep, n) && n < B63 && EqualLengths(sha, blocks)
    ensures Writable(sha, rep)
  {
    BlocksOneLength(sha, rep.refs, blocks);
    forall i | 0 <= i < |rep.refs| ensures RefWritable(sha, rep.prefixes, rep.refs[i]) {
      assert NeatRef(sha, rep.prefixes, rep.refs[i], n);
    }
  }

  /** What is read back of it stands for the same file, and asks for the same blocks. */
  lemma CompactBack(sha: seq<byte> -> digest, rep: Rep, blocks: seq<seq<byte>>, src: seq<byte>)
    requires StandsFor(sha, rep, blocks, src) && Compact(sha, rep, |src|) && |src| < B63
    ensures StandsFor(sha, ReadBack(rep), blocks, src)
    ensures forall get: Getter :: Serves(get, ReadBack(rep).refs, blocks) <==> Serves(get, rep.refs, blocks)
  {
    var back := ReadBack(rep);
    BackSameArchive(rep, blocks);
    forall i | 0 <= i < |rep.refs| ensures Fits(sha, back.refs[i], blocks[i]) && back.refs[i].inline == rep.refs[i].inline {
      assert NeatRef(sha, rep.prefixes, rep.refs[i], |src|) && Fits(sha, rep.refs[i], blocks[i]);
    }
    forall get: Getter ensures Serves(get, back.refs, blocks) <==> Serves(get, rep.refs, blocks) {
      forall i | 0 <= i < |rep.refs| ensures Served(get, back.refs[i], blocks[i]) <==> Served(get, rep.refs[i], blocks[i]) {
        assert back.refs[i].inline == rep.refs[i].inline && back.refs[i].sum == rep.refs[i].sum;
      }
    }
  }

  /**
   Under any options and in either order of the table: a recipe that is built, written and read
   back stands for exactly the file, if sections with equal digests have equal lengths.
   */
  method SaveAndLoad(src: seq<byte>, opt: Options, env: Env, sorted: bool, ghost h0: seq<byte>, ghost cs: seq<CID>, ghost ds: seq<seq<byte>>, ghost codec: nat)
    returns (r: Option<Rep>, ghost blocks: seq<seq<byte>>)
    requires |src| < B63
    ensures r.Some? && EqualLengths(env.sha, blocks) ==> StandsFor(env.sha, r.value, blocks, src)
    ensures Archived(env, opt, src, h0, cs, ds, codec) && EqualLengths(env.sha, ds) ==> r.Some? && blocks == ds
  {
    var rep;
    rep, blocks := Build(src, opt, env, h0, cs, ds, codec);
    if rep.None? {
      return None, blocks;
    }
    r := CarRecipeCodec.MarshalThenUnmarshal(rep.value, sorted, env.sha);
    if EqualLengths(env.sha, blocks) {
      CompactWritable(env.sha, rep.value, blocks, |src|);
      CompactBack(env.sha, rep.value, blocks, src);
    }
  }

  /** The file and any part of it, from a recipe that stands for it and a getter that serves its blocks. */
  method RebuildFile(rep: Rep, off: nat, n: nat, sha: seq<byte> -> digest, get: Getter, ghost blocks: seq<seq<byte>>, ghost src: seq<byte>)
    returns (whole: Option<seq<byte>>, part: Option<seq<byte>>)
    requires StandsFor(sha, rep, blocks, src) && off < B63 && n < B63
    ensures Serves(get, rep.refs, blocks) ==> whole == Some(src)
    ensures Serves(get, rep.refs, blocks) && off + n < B63 ==> part == if off + n <= |src| then Some(src[off..off + n]) else None
  {
    if Serves(get, rep.refs, blocks) {
      ServedAvailable(sha, get, rep.refs, blocks);
      ServesRange(get, rep, blocks, off, off + n);
    }
    whole := Reconstruct(rep, sha, get);
    var fetched;
    ghost var asked;
    part, fetched, asked := ReadRange(rep, off, n, sha, get, blocks);
  }

  lemma ServesRange(get: Getter, rep: Rep, blocks: seq<seq<byte>>, off: int, end: int)
    requires rep.Ok() && Serves(get, rep.refs, blocks)
    ensures RangeServed(get, rep, blocks, off, end)
  {}

  // ---- empty inline blocks and empty kept headers ----

  /** Some block is inline although it is empty, and the getter does not serve it. */
  ghost predicate MissesEmpty(sha: seq<byte> -> digest, get: Getter, refs: seq<Ref>) {
    exists i :: 0 <= i < |refs| && refs[i].inline == Some([]) && get(refs[i].sum) != Some([])
  }

  /**
   An empty inline block is read back as one to be fetched. So the recipe that is read back can be
   rebuilt if and only if the original can and the getter serves every empty inline block.
   */
  lemma BackAvailable(sha: seq<byte> -> digest, get: Getter, rep: Rep)
    requires Writable(sha, rep)
    ensures AllAvailable(sha, get, ReadBack(rep).refs, |rep.refs|) <==>
      AllAvailable(sha, get, rep.refs, |rep.refs|) && !MissesEmpty(sha, get, rep.refs)
  {
    var back := ReadBack(rep).refs;
    forall i | 0 <= i < |rep.refs|
      ensures Available(sha, get, back[i]) <==>
        Available(sha, get, rep.refs[i]) && (rep.refs[i].inline == Some([]) ==> get(rep.refs[i].sum) == Some([]))
    {
      assert RefWritable(sha, rep.prefixes, rep.refs[i]);
    }
    if AllAvailable(sha, get, rep.refs, |rep.refs|) && !MissesEmpty(sha, get, rep.refs) {
      forall i | 0 <= i < |rep.refs| ensures Available(sha, get, back[i]) {
        assert Available(sha, get, rep.refs[i]);
      }
    } else if AllAvailable(sha, get, rep.refs, |rep.refs|) {
      var i :| 0 <= i < |rep.refs| && rep.refs[i].inline == Some([]) && get(rep.refs[i].sum) != Some([]);
      assert !Available(sha, get, back[i]);
    } else {
      var i :| 0 <= i < |rep.refs| && !Available(sha, get, rep.refs[i]);
      assert !Available(sha, get, back[i]);
    }
  }

  const NO_SHA: seq<byte> -> digest := (b: seq<byte>) => Zeros(32)

  /** A CARv1 recipe of one section: a one-byte identifier, and a block. */
  function OneSection(inline: Option<seq<byte>>, len: nat): Rep {
    Rep(false, [0xa0], [], [Ref(Zeros(32), len, [0x00], 0, false, inline)], Zeros(16), None, [], [], NoIndex, 0, [])
  }

  /** A recipe with an empty inline block can be rebuilt without a getter; read back, it cannot. */
  lemma EmptyInline(get: Getter)
    requires get(Zeros(32)) == None
    ensures var rep := OneSection(Some([]), 0);
            && Writable(NO_SHA, rep) && AllAvailable(NO_SHA, get, rep.refs, 1) && !AllAvailable(NO_SHA, get, ReadBack(rep).refs, 1)
  {
    var rep := OneSection(Some([]), 0);
    assert RefWritable(NO_SHA, rep.prefixes, rep.refs[0]);
    assert Available(NO_SHA, get, rep.refs[0]) && rep.refs[0].inline == Some([]);
    BackAvailable(NO_SHA, get, rep);
  }

  /** A recipe that keeps an empty header stands for another file once it is read back. */
  lemma EmptyHeader(rep: Rep)
    requires rep == Rep(true, [0xa0], [], [], Zeros(16), Some([]), [], [], NoIndex, 0, [])
    ensures Writable(NO_SHA, rep) && Archive(ReadBack(rep), []) != Archive(rep, [])
  {
    BackSameArchive(rep, []);
  }

  // ---- ranges ----

  /** An empty range still asks for the block of the section it lies strictly inside. */
  lemma EmptyRangeWants(rep: Rep, blocks: seq<seq<byte>>, off: nat, k: nat)
    requires rep.Ok() && k < |rep.refs| == |blocks|
    ensures Wanted(rep, blocks, off, off, k) <==> rep.refs[k].inline.None? && Start(rep, blocks, k) < off < Start(rep, blocks, k + 1)
  {}

  lemma OneSectionStarts(blocks: seq<seq<byte>>)
    requires blocks == [[0x07]]
    ensures var rep := OneSection(None, 1);
            WellFormed(rep, NO_SHA, blocks) && Start(rep, blocks, 0) == 2 && Start(rep, blocks, 1) == 5 && |Archive(rep, blocks)| == 5
  {
    var rep := OneSection(None, 1);
    assert Fits(NO_SHA, rep.refs[0], blocks[0]);
    assert |Uv(1)| == 1 && |Uv(2)| == 1;
    assert Body(rep.prefixes, rep.refs, blocks, 0) == [];
    assert |SectionBytes([0x00], blocks[0])| == 3;
  }

  /** Reading nothing from the middle of a section fetches its block. */
  method EmptyRange(get: Getter) returns (out: Option<seq<byte>>, fetched: nat)
    requires get(Zeros(32)) == Some([0x07])
    ensures out == Some([]) && fetched == 1
  {
    var rep := OneSection(None, 1);
    ghost var blocks: seq<seq<byte>> := [[0x07]];
    OneSectionStarts(blocks);
    assert Served(get, rep.refs[0], blocks[0]);
    ServesRange(get, rep, blocks, 3, 3);
    EmptyRangeWants(rep, blocks, 3, 0);
    ghost var asked: seq<nat>;
    out, fetched, asked := ReadRange(rep, 3, 0, NO_SHA, get, blocks);
    assert Needed(rep, blocks, 3, 3, 0) == [];
    assert asked == [0];
    LengthsSnoc(rep.refs, [], 0);
    assert [] + [0] == [0];
    assert Archive(rep, blocks)[3..3] == [];
  }

  /** A range beyond the end of a 5-byte archive that overflows is read as empty, without an error. */
  method OverflowingRange(get: Getter) returns (out: Option<seq<byte>>)
    ensures out == Some([])
  {
    var rep := OneSection(None, 1);
    ghost var blocks: seq<seq<byte>> := [[0x07]];
    OneSectionStarts(blocks);
    var fetched;
    ghost var asked;
    out, fetched, asked := ReadRange(rep, 3, B63 - 1, NO_SHA, get, blocks);
  }
}
