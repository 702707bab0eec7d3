# Structure-aware representations: a verified model

This project models the structure-aware representation laboratory under `testing-harnesses/z3` of
ZeroS3 in Dafny and proves what its encoders and decoders promise: that nothing is lost, that the
fast forms agree with the simple ones, and that the checks which are meant never to fire do not.

`dafny verify dfyconfig.toml` checks the whole project.

## How it is built

Each component has a specification (functions on values), the algorithm in the form the source
gives it (classes, arrays, loops and methods, proved equal to the specification or to the property
it is for), and the lemmas about the specification.

| component | source package | modules |
|---|---|---|
| reference normalization of binaries | `binref` | `BinrefImage` (regions and addresses), `BinrefNorm` (slots and units), `BinrefUnits` (what cleaning units amounts to), `BinrefMeaning` (which fields are selected and recorded), `BinrefPlan` (what is written), `BinrefForm` (the streams), `BinrefNormalize` (the encoder), `BinrefReconstruct` (the decoder) |
| selection among candidates that share objects | `admission` | `AdmissionModel` (costs), `AdmissionPolicy` (bit sets, greedy, branch and bound), `AdmissionRun` (lookahead and whole runs), `AdmissionSchema` (validation) |
| recipes for CARv1 and CARv2 archives | `carz3` | `CarVarint`, `CarCid`, `CarIndex`, `CarIndexCodec`, `CarFormat` (the archive a recipe stands for), `CarBuild` (the streaming parser and encoder), `CarReconstruct` (whole archives and ranges), `CarRecipe`, `CarRecipeCodec` (the serialised recipe), `CarArchive` (end to end) |
| ECMA-335 signatures and method bodies | `clrz3` | `SigModel`, `SigSteps`, `SigMask`, `SigGrammar` (signatures as trees), `SigReads` (the walk reads exactly those), `Sig`; `CilModel`, `CilMask`, `CilWindow`, `CilAssembly` (assembled bodies), `CilReads` (the parser reads exactly those), `Cil`; `ClrSource` (the cached window); `ClrHeap` (physical bodies) |
| LLVM bitstream framing | `bitcodez3` | `BitcodeBits`, `BitcodeModel` (the reader as functions), `Bitcode` (the reader as it runs), `BitcodeShape` (the structure of a plan), `BitcodeEncode` (cutting into spans), `BitcodeNested` (a file that cannot be cut by functions), `BitcodeWriter` (trees and the bits they are written as), `BitcodeReads` and `BitcodeTrees` (the reader reads exactly those), `BitcodeFile` (the bytes of a tree) |
| composition of an outer plan with inner recipes | `composez3` | `ComposeRecord`, `ComposeModel`, `Compose`, `ComposeRebuild` |

`Bytes`, `Varint` and `Sorting` hold what the components share.

Byte strings are `seq<byte>`; widths and wrap-around are written out (`u64`, `Add64`, `Sub64`).
SHA-256, FNV, multihash verification, CBOR header acceptance, gap chunking and the inner encoders are
function parameters: the theorems hold for every choice of them. A getter is a function from digests
to optional bytes. An outer rebuild is a dialogue with its getter: after the answers so far it asks
for a digest, fails, or ends with its output.

A decoder method takes ghost parameters for what its input is claimed to be. They do not affect the
result: the contract says that if the claim is right the decoder returns it, and the encoder
establishes the claim.

## Where the code and its promises differ

Each of these is proved: the exact condition for all inputs, and a concrete input at which it happens.

- `Normalize` (binref) panics, rather than refusing, if and only if the offset of some slot plus its
  width overflows a 64-bit signed integer (`BinrefNormalize.Normalize`, at an input:
  `BinrefNormalize.PanickingSlot`).
- `ReadRange` (carz3) returns an empty success whenever `off + n` overflows
  (`CarReconstruct.ReadRange`, `CarArchive.OverflowingRange`). An empty range fetches a block if and
  only if it lies strictly inside a section that is not inline (`CarArchive.EmptyRangeWants`,
  `CarArchive.EmptyRange`).
- `Unmarshal` (carz3) does not give back an inline block, or a kept header, that is empty but present.
  For the block, the archive is the same, but the getter must then serve it
  (`CarArchive.BackAvailable`, `CarArchive.EmptyInline`). For the header the archive differs, and
  nothing else makes it differ (`CarRecipe.BackSameArchive`, `CarArchive.EmptyHeader`). `Build`
  produces neither (`CarBuild.Build`).
- `Compose` (composez3) bounds neither the padding nor a negative depth as its own record format
  requires: such a composition is returned but cannot be rebuilt
  (`ComposeRebuild.ComposeThenRebuild`, `ComposeRebuild.LongPadding`, `ComposeRebuild.NegativeDepth`).
- `Encode` (bitcodez3) fails its bounds check, other than for a long span, if and only if the mode is
  functions and function blocks nest (`BitcodeEncode.Encode`). The parser accepts such files
  (`BitcodeNested.NestedFunctions`).

## Model

| member | source | states |
|---|---|---|
| BinrefImage.Covers | testing-harnesses/z3/binref/image.go:97-107 | The coverage check accepts a region list if and only if the regions follow one another from offset 0 to the end of the file with no gap or overlap. |
| BinrefImage.Image.Prepare | testing-harnesses/z3/binref/image.go:97-130 | Succeeds exactly on partitions. Regions with an empty, wrapping or overlapping address range lose their mapping, the address index lists exactly the regions that keep it, and a refused image is left as it was. |
| BinrefImage.IndexOfIndexes | testing-harnesses/z3/binref/image.go:108-128 | After preparation the mapped ranges are sorted, pairwise disjoint and do not wrap around 2^64, and the index holds a region if and only if it is mapped. |
| BinrefImage.PrepareIdempotent | testing-harnesses/z3/binref/image.go:97-130 | Preparing a prepared image changes nothing: same index, same regions. |
| BinrefImage.Image.RegionAtOff | testing-harnesses/z3/binref/image.go:133-139 | The binary search by file offset agrees with a linear scan over the regions, for every offset. |
| BinrefImage.Image.RegionAtVA | testing-harnesses/z3/binref/image.go:142-151 | The binary search by address agrees with a linear scan over the mapped ranges, for every 64-bit address. |
| BinrefImage.ClipIsPart | testing-harnesses/z3/binref/image.go:229-268 | Clipping a span at the cursor keeps the offset-to-address relation of every byte that is left, under wrap-around. |
| BinrefImage.Partition | testing-harnesses/z3/binref/image.go:229-268 | For any spans the result tiles the file, so preparation accepts it; every byte of a usable span is claimed by a region that is part of a span, every other region is an unmapped gap, and the purely virtual spans are all kept. |
| BinrefImage.EncodeDecode | testing-harnesses/z3/binref/image.go:166-188 | Decoding a field and encoding the result gives the field back, for each of the four encodings, every bias, base and address, with 64-bit wrap-around and 32-bit sign extension. |
| BinrefNorm.JudgePanics | testing-harnesses/z3/binref/norm.go:181-188 | Looking at a slot panics if and only if the end of its field is at least 2^63. |
| BinrefNorm.JudgeSound | testing-harnesses/z3/binref/norm.go:193-205 | An accepted slot lies behind the previous one, inside one region, decodes to a mapped address, and re-encodes to the bytes it was read from. |
| BinrefMeaning.JudgeExact | testing-harnesses/z3/binref/norm.go:181-204 | A slot counts as overlapping if and only if it is out of place or starts before the end of the last selected field; otherwise it is accepted if and only if its field refers to an address in a mapped region, and it is accepted with that address. |
| BinrefMeaning.RefersOnce | testing-harnesses/z3/binref/norm.go:187-200 | A field refers to at most one address, in one region, from one region. |
| BinrefMeaning.SiftMeans | testing-harnesses/z3/binref/norm.go:178-206 | The loop selects a slot if and only if it is usable and no field selected before it reaches into it, and counts the rest as out of place or as dangling. |
| BinrefMeaning.SelectedOnce | testing-harnesses/z3/binref/norm.go:178-206 | At most one selection of a slot list has that property. |
| Sorting.SortStable | testing-harnesses/z3/binref/norm.go:177-178 | Sorting keeps the order of elements with equal keys. |
| BinrefNorm.SiftSpaced | testing-harnesses/z3/binref/norm.go:178-206 | For any slot list the accepted slots are sound, in order and pairwise disjoint, and every slot is counted exactly once. |
| BinrefNorm.CleanUnitsClean | testing-harnesses/z3/binref/norm.go:81-121 | For any unit list the cleaned units are non-empty, in address order, disjoint and inside mapped regions, and a unit still starts at every mapped address at which some input unit started. |
| BinrefUnits.CleanUnitsFrom | testing-harnesses/z3/binref/norm.go:81-121 | Every cleaned unit is a given one that leads its address (the largest there, the first of equals) and ends at the first of its own end, the next given address and the end of its region. |
| BinrefNormalize.SiftSlots | testing-harnesses/z3/binref/norm.go:179-206 | The loop over the sorted slots computes the specified verdicts, stopping at a panic. |
| BinrefNormalize.MaskFields | testing-harnesses/z3/binref/norm.go:207-212 | Zeroes in place exactly the bytes of the accepted fields. |
| BinrefPlan.MaskRestore | testing-harnesses/z3/binref/norm.go:271-281 | Copying back one masked field that no other field touches gives the mask of the remaining fields. |
| BinrefNormalize.Clean | testing-harnesses/z3/binref/norm.go:81-121 | The two in-place loops compute the cleaned units: disjoint, one at every mapped address a unit was given for, each the largest given there, cut at the next given address and at the end of its region. |
| BinrefNormalize.FindUnit | testing-harnesses/z3/binref/norm.go:255-261 | The binary search for the unit that holds an address agrees with a linear scan. |
| BinrefNormalize.RawNames | testing-harnesses/z3/binref/norm.go:215-243 | Every unit gets its identity under the mode (ordinal, none, symbol hash, hash of the masked bytes), and the counts are the multiplicities of the identities. |
| BinrefPlan.NamesDistinct | testing-harnesses/z3/binref/norm.go:244-254 | The identities that survive are pairwise distinct, and one is taken away only if another unit has it too. |
| BinrefNormalize.Exclude | testing-harnesses/z3/binref/norm.go:244-254 | The exclusion loop keeps an identity if and only if it is unique. |
| BinrefNormalize.Classify | testing-harnesses/z3/binref/norm.go:263-293 | The classification loop leaves a field raw or records it, keeps the per-region lists and the used units in step with the records, and leaves exactly the recorded fields masked. |
| BinrefNormalize.WriteHeader | testing-harnesses/z3/binref/norm.go:295-316 | Writes the region stream of the image. |
| BinrefNormalize.WriteUnits | testing-harnesses/z3/binref/norm.go:317-332 | Writes the unit table with address differences. |
| BinrefNormalize.WriteRefs | testing-harnesses/z3/binref/norm.go:339-357 | Writes the reference stream of one region; offsets are relative to the end of the previous field. |
| BinrefNormalize.WriteRegions | testing-harnesses/z3/binref/norm.go:333-358 | Writes a payload stream per region, followed by a reference stream where there are references. |
| BinrefPlan.PlanOk | testing-harnesses/z3/binref/norm.go:167-293 | For every input the plan is sound: distinct names, fields in order and disjoint, each owned by one region. |
| BinrefMeaning.FateMeans | testing-harnesses/z3/binref/norm.go:269-287 | A field stays raw as internal if and only if one unit holds it and its target, as ambiguous if and only if not that and some unit holds the target whose identity is missing or shared; a recorded one names a unit if and only if some unit holds its target and the mode is not region-relative. |
| BinrefMeaning.PlanSays | testing-harnesses/z3/binref/norm.go:167-361 | For every input that does not panic, the form, the masked bytes and the counters are those that the selected fields, the cleaned units and their identities call for: records by region in file order, the table of exactly the referenced units by address, payloads with exactly the recorded fields zeroed. |
| BinrefPlan.TargetAddress | testing-harnesses/z3/binref/norm.go:480-501 | The address that a record resolves to, by unit and offset or by region and offset, is the address its field held. |
| BinrefPlan.FieldIs | testing-harnesses/z3/binref/norm.go:463-506 | A record written back gives the bytes its field was read from. |
| BinrefPlan.PlanMeansData | testing-harnesses/z3/binref/norm.go:391-509 | Patching the masked payload of every region with its records and joining the regions gives the file. |
| BinrefPlan.NormalizationMeansFile | testing-harnesses/z3/binref/norm.go:167-361 | For every prepared image, slot list, unit list and mode, within the bounds of the decoder, the streams are well formed and stand for the bytes of the file. |
| BinrefNormalize.Normalize | testing-harnesses/z3/binref/norm.go:167-361 | Refuses an image if and only if its regions do not partition the file, and panics if and only if the field of some slot ends at or above 2^63. Otherwise the streams, the masked bytes and the counters say what the slots and the units mean: the selected fields are exactly the usable ones that no earlier selected field reaches into; a field is zeroed and recorded if and only if no cleaned unit holds both the field and its target, and no unit holds the target or the mode is region-relative or the identity of that unit is its own; its record names that unit, or else the region of the target. |
| BinrefNormalize.RoundTrip | testing-harnesses/z3/binref/norm.go:167-509 | Normalizing and rebuilding from the streams alone gives every byte back, for every partitioned image within the decoder bounds, every slot list without overflow, every unit list and every mode. |
| BinrefNormalize.PanickingSlot | testing-harnesses/z3/binref/norm.go:181-188 | A concrete image and slot at which normalizing panics, under every unit list and mode. |
| BinrefReconstruct.Rd.Uv | testing-harnesses/z3/binref/norm.go:370-378 | Reads back a 64-bit varint and stands behind it. |
| BinrefReconstruct.Sort | testing-harnesses/z3/binref/norm.go:391-406 | Sorting the streams by kind and region keeps the last one of each. |
| BinrefReconstruct.ReadHeader | testing-harnesses/z3/binref/norm.go:407-438 | Reads back the bases and the regions from a region stream. |
| BinrefReconstruct.LoadPayload | testing-harnesses/z3/binref/norm.go:439-446 | Joins the payloads and records where each region starts; fails only if some payload is not as long as its region. |
| BinrefReconstruct.ReadUnits | testing-harnesses/z3/binref/norm.go:447-458 | Reads back the unit table as a map from identity to address. |
| BinrefReconstruct.ReadRef | testing-harnesses/z3/binref/norm.go:463-501 | Reads one reference: it lies inside its region, behind the previous one, and its target exists; a written one comes back as it was. |
| BinrefReconstruct.PutLE | testing-harnesses/z3/binref/image.go:198-202 | Patches a little-endian field in place and touches nothing else. |
| BinrefReconstruct.ApplyStream | testing-harnesses/z3/binref/norm.go:463-506 | Applying a reference stream changes only the bytes of its region, and gives the patched region. |
| BinrefReconstruct.ApplyAll | testing-harnesses/z3/binref/norm.go:459-507 | Applying the reference streams in any order gives the same file: the one the streams stand for. |
| BinrefReconstruct.Reconstruct | testing-harnesses/z3/binref/norm.go:391-509 | Well-formed streams are rebuilt to exactly the bytes they stand for. |
| BinrefForm.CollectOf | testing-harnesses/z3/binref/norm.go:391-406 | The written stream list, sorted by kind and region, has every stream in its place. |
| BinrefForm.OrderedCount | testing-harnesses/z3/binref/norm.go:463-466 | References in order number at most the bytes of their region, so the count check never refuses written streams. |
| AdmissionModel.CostIsAddedWeight | testing-harnesses/z3/admission/policy.go:15-28 | What a candidate costs is exactly the weight its objects add to the union already stored. |
| AdmissionModel.SpentIsUnion | testing-harnesses/z3/admission/policy.go:183-325 | Conservation: along any run the cost so far is the weight of the union of the chosen objects, each charged once, and stays below 2^63. |
| AdmissionModel.WeightFits | testing-harnesses/z3/admission/schema.go:39-51 | Under the validated bounds the weight of any set of objects is below 2^63. |
| AdmissionModel.OrderIndependent | testing-harnesses/z3/admission/policy.go:183-325 | Two runs that choose the same candidates, in any order of stages, cost the same. |
| AdmissionModel.PrefixBound | testing-harnesses/z3/admission/policy.go:101-103 | A prefix never costs more than its completion, which is what pruning relies on. |
| AdmissionModel.VisitsBound | testing-harnesses/z3/admission/policy.go:95-129 | The states that the pruned search can visit below a prefix are at most the prefixes of choice sequences below it. |
| AdmissionPolicy.Bits.Add | testing-harnesses/z3/admission/policy.go:11-14 | Setting a bit of the packed words adds exactly that member. |
| AdmissionPolicy.Bits.Clone | testing-harnesses/z3/admission/policy.go:11-14 | A clone has the same members and shares no storage. |
| AdmissionPolicy.CostOf | testing-harnesses/z3/admission/policy.go:15-23 | The loop charges each absent object once. |
| AdmissionPolicy.Apply | testing-harnesses/z3/admission/policy.go:24-28 | Storing a candidate adds exactly its objects. |
| AdmissionPolicy.Cdc | testing-harnesses/z3/admission/policy.go:45-52 | Finds the fallback of a validated stage; the panic is unreachable. |
| AdmissionPolicy.Greedy | testing-harnesses/z3/admission/policy.go:53-61 | Picks a cheapest candidate: the fallback when nothing is cheaper, otherwise the first of the cheapest. |
| AdmissionPolicy.GreedyUnique | testing-harnesses/z3/admission/policy.go:53-61 | In a validated stage there is exactly one greedy pick. |
| AdmissionPolicy.GreedyRun | testing-harnesses/z3/admission/policy.go:86-93 | The initial bound is the cost of the run that picks greedily at every stage. |
| AdmissionPolicy.Order | testing-harnesses/z3/admission/policy.go:111-118 | A permutation of the candidates of a stage, cheapest first. |
| AdmissionPolicy.Search.Explore | testing-harnesses/z3/admission/policy.go:95-129 | The recursive search only improves its best, keeps it attained by a recorded sequence, and when it ends within the cap no completion of the explored prefix is cheaper; it gives up only when the cap is passed. |
| AdmissionPolicy.Oracle | testing-harnesses/z3/admission/policy.go:85-132 | The cost is attained by some sequence and is never above the greedy one; if exact, it is the minimum over all choice sequences and the choices are a full sequence attaining it. It is not exact only with exactly max(cap, 0) + 1 states visited; the states are at most the prefixes of choice sequences of the case, so a cap of that many always gives an exact answer. |
| AdmissionRun.Step | testing-harnesses/z3/admission/policy.go:143-163 | One step of the beam keeps the states sound and cheapest first, and keeps every sequence while all of them fit the width. |
| AdmissionRun.Look | testing-harnesses/z3/admission/policy.go:140-165 | The lookahead returns a valid choice, and the first choice of a cheapest sequence over its window whenever the sequences without the last stage fit the width. |
| AdmissionRun.OneStep | testing-harnesses/z3/admission/policy.go:255-262 | With depth 1 and width 64 the beam is never cut on validated stages, so the choice starts a cheapest sequence over the next two stages, or over the one that is left. |
| AdmissionRun.Choose | testing-harnesses/z3/admission/policy.go:197-285 | Picks a valid candidate as the policy promises: the greedy pick, the start of a cheapest sequence over two stages, the choice of the oracle, the given pick, and for the beam the lookahead promise while nothing is cut. |
| AdmissionRun.Take | testing-harnesses/z3/admission/policy.go:286-312 | Charges the chosen candidate and stores its objects: totals, per-stage costs and membership stay in step. |
| AdmissionRun.Replay | testing-harnesses/z3/admission/policy.go:183-316 | The whole loop: every choice is the one the policy makes given what the earlier ones stored, totals are those of the choices and of the fallback at every stage, and per-stage costs add up to the total. |
| AdmissionRun.FallbackUnique | testing-harnesses/z3/admission/policy.go:45-52 | There is one fallback sequence. |
| AdmissionRun.Run | testing-harnesses/z3/admission/policy.go:170-338 | The negative-regret error is unreachable for every policy; with an exact oracle the regret is non-negative, it is zero for the oracle policy, and either diagnostic flag implies positive regret. The only other errors are an unknown policy and, for the oracle policy, a cap below the number of prefixes of choice sequences. A finished run obeys its policy at every stage: the choices of the greedy policy are a greedy run, given picks are taken as given. |
| AdmissionRun.ObeysGreedy | testing-harnesses/z3/admission/policy.go:53-61 | A run that obeys the greedy policy picks greedily at every stage. |
| AdmissionRun.RunAccounts | testing-harnesses/z3/admission/policy.go:322-335 | The reported total is the weight of the union of the chosen objects, fits 63 bits, and the diagnostic flags mean what they say. |
| AdmissionSchema.ValidateIds | testing-harnesses/z3/admission/schema.go:73-79 | Accepts object lists if and only if they are strictly increasing and in range. |
| AdmissionSchema.ValidateStage | testing-harnesses/z3/admission/schema.go:61-107 | Accepts a stage if and only if it has 1 to 8 distinctly named candidates with valid objects, one of them the fallback. |
| AdmissionSchema.ValidateCase | testing-harnesses/z3/admission/schema.go:39-110 | Accepts exactly the cases that the policies require. |
| CarVarint.Decode | testing-harnesses/z3/carz3/cid.go:58-73 | The shifting loop over at most nine bytes computes the specified canonical reading. |
| CarVarint.Uvarint | testing-harnesses/z3/carz3/cid.go:58-73 | An accepted varint is the canonical encoding of a value below 2^63. |
| CarVarint.CanonSound | testing-harnesses/z3/carz3/cid.go:58-73 | What is accepted is the one shortest encoding of the value; longer spellings are refused. |
| CarVarint.CanonComplete | testing-harnesses/z3/carz3/cid.go:58-82 | Every value below 2^63, as it is written, is read back to its end. |
| CarCid.ParseCID | testing-harnesses/z3/carz3/cid.go:105-136 | Accepts a content identifier if and only if a canonical one stands there, and returns its version, codec, hash code, digest and prefix length. |
| CarCid.CidUnique | testing-harnesses/z3/carz3/cid.go:105-136 | At most one identifier stands at a position. |
| CarBuild.DerivedCid | testing-harnesses/z3/carz3/cid.go:192-194 | A derivable identifier is its prefix followed by the SHA-256 of the block. |
| CarIndex.RecLessOrder | testing-harnesses/z3/carz3/v2.go:217-229 | The record comparison is a strict total order. |
| CarIndex.IndexOrderFree | testing-harnesses/z3/carz3/v2.go:215-271 | The index bytes depend only on the multiset of records. |
| CarIndexCodec.BuildIndex | testing-harnesses/z3/carz3/v2.go:215-271 | The sorting and run-grouping loops write exactly the specified index. |
| CarIndexCodec.ConcatRuns | testing-harnesses/z3/carz3/v2.go:235-246 | Grouping into runs loses and reorders nothing. |
| CarIndexCodec.ParseIndex | testing-harnesses/z3/carz3/v2.go:139-209 | Accepts every printed index with digests of at most 64 bytes and returns its records in canonical order, consuming every byte. |
| CarIndexCodec.PrintThenParse | testing-harnesses/z3/carz3/v2.go:139-271 | Printing and parsing gives a sorted permutation of the records, for both codecs. |
| CarFormat.BodyLength | testing-harnesses/z3/carz3/rep.go:263-274 | Section offsets computed from lengths are the real offsets in the stream. |
| CarReconstruct.CollectRecs | testing-harnesses/z3/carz3/rep.go:332-349 | Recomputes the index records from the refs, with the offset of each section and without identity CIDs. |
| CarReconstruct.SizeOfPayload | testing-harnesses/z3/carz3/rep.go:263-274 | The payload size is computed from lengths alone. |
| CarReconstruct.Data | testing-harnesses/z3/carz3/rep.go:236-248 | Gives the block if and only if it is inline or the getter returns one of the right length and digest. |
| CarReconstruct.Section | testing-harnesses/z3/carz3/rep.go:251-260 | Encodes a section with its exact or derived CID, if its block is available. |
| CarReconstruct.Reconstruct | testing-harnesses/z3/carz3/rep.go:277-317 | Writes the archive the recipe stands for, and fails if and only if some block is not available. |
| CarReconstruct.ReadRange | testing-harnesses/z3/carz3/rep.go:622-681 | For off + n below 2^63, returns exactly that slice of the rebuilt archive, or an error if it does not fit, when the getter serves the sections the range meets; the blocks asked for are exactly the non-inline ones of sections that meet the range, in order. For off + n at or above 2^63 it returns an empty success instead. |
| CarReconstruct.NeededDone | testing-harnesses/z3/carz3/rep.go:654-672 | No section past the end of a range is needed, so stopping early asks for nothing less. |
| CarBuild.Reader.ReadUv | testing-harnesses/z3/carz3/v1.go:204-225 | Reads a canonical varint byte by byte; only a clean end of stream, where allowed, is reported as such. |
| CarBuild.Reader.ReadHeader | testing-harnesses/z3/carz3/v1.go:174-195 | Reads a non-empty, bounded, accepted header. |
| CarBuild.Reader.Next | testing-harnesses/z3/carz3/v1.go:228-279 | Returns a section that really stands at the cursor and moves behind it; every well-formed section within the limits is accepted. |
| CarBuild.ParseV2 | testing-harnesses/z3/carz3/v2.go:46-94 | Accepts a wrapper if and only if its offsets describe a layout of the file with bounded padding and index, and then the pieces put together are the file. |
| CarBuild.Encode | testing-harnesses/z3/carz3/rep.go:127-176 | The ref of a section describes its block and its exact CID, whether kept or derived from the prefix table; an empty block is never inline. |
| CarBuild.Collect | testing-harnesses/z3/carz3/rep.go:118-180 | The section loop builds refs whose sections are exactly the stream, and accepts a stream if and only if it is an accepted header and sections within the limits whose blocks, unless the build is lenient, do not mismatch their CIDs. |
| CarBuild.PassedAcceptable | testing-harnesses/z3/carz3/rep.go:118-180 | A stream whose sections were all read and passed their checks is the stream of those CIDs and blocks. |
| CarBuild.V2Exact | testing-harnesses/z3/carz3/rep.go:181-209 | The recipe of a CARv2 file stands for exactly its bytes: pragma, header, padding, payload, padding and index. |
| CarBuild.PlanIndex | testing-harnesses/z3/carz3/rep.go:188-208 | An index of a known codec is marked as derived if and only if deriving is on and rebuilding it gives its bytes; otherwise its bytes are kept. The index of the sections themselves is always recognised. |
| CarBuild.Build | testing-harnesses/z3/carz3/rep.go:83-211 | Under any options a recipe that is returned stands for exactly the input bytes, is no larger, and has no empty inline block and no kept header of other than 40 bytes; and the stream of the file is an accepted header and sections within the limits whose blocks, unless the build is lenient, do not mismatch their CIDs. Conversely every CARv1 file, and every CARv2 file without an index or with the sorted index of its own sections, with such a stream is accepted; such an index comes out as derived, or kept if deriving is off. |
| CarBuild.RoundTrip | testing-harnesses/z3/carz3/rep.go:83-317 | A file without an index is accepted if and only if its stream is lawful: an accepted header and sections within the limits whose blocks, unless the build is lenient, do not mismatch their CIDs. Rebuilding, with a getter that serves the section blocks, writes exactly the input file. |
| CarBuild.ChecksWrap | testing-harnesses/z3/carz3/v1.go:237-245 | The two sums in the section checks may wrap in 64 bits; the checks come out as without wrap-around. |
| CarRecipe.OrderTable | testing-harnesses/z3/carz3/rep.go:414-437 | The block table, sorted or not, lists each digest once; where equal digests mean equal lengths it lists exactly the blocks that are not inline. |
| CarRecipe.SortedTableUnique | testing-harnesses/z3/carz3/rep.go:372-375 | Sorted by digest, the table depends only on the set of blocks. |
| CarRecipeCodec.MarshalParts | testing-harnesses/z3/carz3/rep.go:376-464 | The three parts put together are the specified serialisation of the recipe over its table. |
| CarRecipeCodec.SortedTableBytes | testing-harnesses/z3/carz3/rep.go:372-375 | Two recipes over the same set of blocks have identical sorted table bytes, whatever the order of their sections. |
| CarRecipeCodec.Unmarshal | testing-harnesses/z3/carz3/rep.go:467-614 | Whatever the order of the table, a written recipe is read back as the same recipe, except that an empty inline block and an empty kept header come back as absent. |
| CarRecipeCodec.MarshalThenUnmarshal | testing-harnesses/z3/carz3/rep.go:376-614 | The two together, for every recipe of bounded sizes whose equal digests have equal lengths. |
| CarArchive.CompactWritable | testing-harnesses/z3/carz3/rep.go:376-464 | Every recipe that was built from a file can be written, if sections with equal digests have equal lengths. |
| CarArchive.SaveAndLoad | testing-harnesses/z3/carz3/rep.go:83-614 | End to end: under any options and in either order of the table, a recipe that is built, written and read back stands for exactly the file, if sections with equal digests have equal lengths. |
| CarArchive.RebuildFile | testing-harnesses/z3/carz3/rep.go:277-681 | From a recipe that stands for a file and a getter that serves its blocks, rebuilding gives the file and a range read gives its slice, or an error past its end. |
| CarArchive.BackAvailable | testing-harnesses/z3/carz3/rep.go:580-583 | A recipe that is read back can be rebuilt if and only if the original can and the getter serves each block that was inline although empty. |
| CarArchive.EmptyInline | testing-harnesses/z3/carz3/rep.go:484-485 | A concrete recipe with an empty inline block: it needs no getter, and read back it does. |
| CarArchive.EmptyHeader | testing-harnesses/z3/carz3/rep.go:518-520 | A concrete recipe with a kept header of no bytes: read back, it stands for another file. |
| CarArchive.EmptyRangeWants | testing-harnesses/z3/carz3/rep.go:654-668 | An empty range asks for the block of a section if and only if it lies strictly inside the section and the block is not inline. |
| CarArchive.EmptyRange | testing-harnesses/z3/carz3/rep.go:654-668 | A concrete read of no bytes that fetches a block. |
| CarArchive.OverflowingRange | testing-harnesses/z3/carz3/rep.go:638-680 | A concrete range far past the end of an archive of 5 bytes that is read as empty, without an error. |
| CarRecipe.BackSameArchive | testing-harnesses/z3/carz3/rep.go:518-520 | With the same blocks the recipe read back stands for the same archive if and only if the original is not a CARv2 recipe with a kept header of no bytes. |
| SigSteps.StepTyp | testing-harnesses/z3/clrz3/sig.go:131-186 | A type walk only moves on and records real compressed integers, in order, behind its first byte. |
| Sig.Sigp.ReadCu | testing-harnesses/z3/clrz3/sig.go:62-91 | Reads a compressed integer of one, two or four bytes. |
| Sig.Sigp.CustomMods | testing-harnesses/z3/clrz3/sig.go:120-129 | The modifier loop walks as specified. |
| Sig.Sigp.Type | testing-harnesses/z3/clrz3/sig.go:131-186 | The mutually recursive type walk, with its depth counter and failure flag, computes the specified state, which is the one the grammar gives (SigReads.ReadType, SigReads.FindType). |
| Sig.Sigp.ReadParam | testing-harnesses/z3/clrz3/sig.go:189-205 | A parameter or return type, as specified. |
| Sig.Sigp.MethodSig | testing-harnesses/z3/clrz3/sig.go:207-229 | A method signature, as specified; the depth counter is back where it was unless the walk failed. |
| Sig.Parse | testing-harnesses/z3/clrz3/sig.go:234-299 | Accepts a blob, with some references, if and only if a signature of the kind within the nesting and slot limits spells exactly that blob and has exactly those references, all plausible when that is asked (ECMA-335, section II.23.2). |
| SigReads.SignaturesOnly | testing-harnesses/z3/clrz3/sig.go:234-299 | A blob is accepted with given references if and only if some signature of its kind, as a tree of types, parameters and methods, spells it and its references. |
| SigReads.SpelledParses | testing-harnesses/z3/clrz3/sig.go:234-299 | Every signature within the limits is read back with exactly its type references. |
| SigReads.ReadType | testing-harnesses/z3/clrz3/sig.go:131-186 | A spelled type that nests no deeper than there is room is walked to its end, with its references. |
| SigReads.FindType | testing-harnesses/z3/clrz3/sig.go:131-186 | What the type walk accepts is a spelled type that nests no deeper than there was room. |
| SigReads.ReadMeth | testing-harnesses/z3/clrz3/sig.go:207-229 | A spelled method signature is walked to its end. |
| SigReads.FindMeth | testing-harnesses/z3/clrz3/sig.go:207-229 | What the method walk accepts is a spelled method signature. |
| SigReads.NumSpelled | testing-harnesses/z3/clrz3/sig.go:62-91 | A compressed integer of a width and value is read if and only if its bytes stand there. |
| Sig.ParsedInOrder | testing-harnesses/z3/clrz3/sig.go:103-118 | The reported slots are real compressed integers with the reported values, in order, disjoint and inside the blob. |
| Sig.MaskCompressed | testing-harnesses/z3/clrz3/sig.go:343-352 | Clears the value bits in place and keeps the width prefix, so that a zero of the same width is read. |
| Sig.PutCompressed | testing-harnesses/z3/clrz3/sig.go:355-376 | Writes a value in a given width, minimal or not; fails, changing nothing, if and only if it does not fit. |
| Sig.MaskSlots | testing-harnesses/z3/clrz3/sig.go:341-352 | Masks every slot of a parsed blob and no other byte. |
| Sig.RestoreSlots | testing-harnesses/z3/clrz3/sig.go:354-376 | Putting the old values back over a masked blob restores the original bytes, even for widths that are not minimal. |
| SigMask.SimWalk | testing-harnesses/z3/clrz3/sig.go:234-299 | The walk over the masked blob, values unchecked, ends at the same place with slots of the same offsets and widths. |
| Sig.MaskedKeepsShape | testing-harnesses/z3/clrz3/sig.go:341-352 | A strictly accepted blob, masked, is accepted without value checks with the same slot offsets and widths (ECMA-335, section II.23.2). |
| Sig.MaskParseRestore | testing-harnesses/z3/clrz3/sig.go:341-376 | Masking, parsing again and restoring in one array: same shape, then the original bytes. |
| Cil.WalkCode | testing-harnesses/z3/clrz3/cil.go:295-363 | The instruction loop collects the token operands of code that ends exactly at its end. |
| CilMask.CodeTiles | testing-harnesses/z3/clrz3/cil.go:295-363 | The instructions of accepted code tile it: each begins where the one before it stops, from the first byte to the last. |
| Cil.ReadSections | testing-harnesses/z3/clrz3/cil.go:206-270 | The exception-section loop reads small and fat clauses, with sizes that are whole numbers of clauses, as specified. |
| Cil.Parse | testing-harnesses/z3/clrz3/cil.go:160-272 | Finds a body if and only if the bytes from the offset on begin with an assembled one, and then returns what that one stands for, in file offsets (ECMA-335, section II.25.4). |
| CilReads.BodiesOnly | testing-harnesses/z3/clrz3/cil.go:160-272 | Bytes parse as a body if and only if they begin with an assembled body: header, instructions by opcode and operand format, aligned sections of clauses; and they parse as its tokens, clauses and extents. |
| CilReads.ReadIns | testing-harnesses/z3/clrz3/cil.go:295-363 | An assembled instruction is read to its end, with its token if it has one. |
| CilReads.FindIns | testing-harnesses/z3/clrz3/cil.go:295-363 | What is read as an instruction is an assembled one. |
| CilReads.OneByteKind | testing-harnesses/z3/clrz3/cil.go:36-93 | The operand table of one-byte opcodes is that of the operand formats of the instruction set. |
| CilReads.TwoByteKind | testing-harnesses/z3/clrz3/cil.go:94-104 | Likewise behind the prefix byte. |
| CilReads.ReadParts | testing-harnesses/z3/clrz3/cil.go:206-270 | Assembled sections are read to their end as their clauses. |
| CilReads.FindParts | testing-harnesses/z3/clrz3/cil.go:206-270 | What is read as sections is assembled from clauses. |
| CilReads.HandlerHas | testing-harnesses/z3/clrz3/cil.go:233-256 | A clause is read with given fields if and only if its fields stand there in their widths. |
| CilMask.SlotsOrdered | testing-harnesses/z3/clrz3/cil.go:157-272 | The token slots (local signature, code, clauses) are pairwise disjoint, in order, and inside the body. |
| CilMask.BodyLayout | testing-harnesses/z3/clrz3/cil.go:157-272 | Code tokens lie inside the code, clause tokens at their place inside their clause, and clauses in order behind the code. |
| CilMask.MaskedBody | testing-harnesses/z3/clrz3/cil.go:157-363 | A strictly accepted body with all its token slots zeroed is accepted without value checks as the same body with zero token values (ECMA-335, section II.25.4). |
| Cil.MaskThenParse | testing-harnesses/z3/clrz3/cil.go:157-363 | Parsing strictly, zeroing the slots in place and parsing again gives that body. |
| CilWindow.ExtentEnough | testing-harnesses/z3/clrz3/source.go:96-208 | The bytes of the measured extent, cut at the end of the file, parse to the same result as everything that follows in the file. |
| ClrSource.Source.Span | testing-harnesses/z3/clrz3/source.go:22-60 | Whatever is cached, a read in range returns the bytes of the source, and one out of range fails and stays failed. |
| ClrSource.Source.MeasureSections | testing-harnesses/z3/clrz3/source.go:123-159 | Walking the section headers through the window measures the specified extent. |
| ClrSource.Source.ParseBodyAt | testing-harnesses/z3/clrz3/source.go:96-208 | After any sequence of reads: no body is reported only if the whole-file parser finds none, a reported body is the one the whole-file parser finds, and an error with a body there means that a limit on work or references was reached. |
| ClrHeap.CheckTokens | testing-harnesses/z3/clrz3/heap.go:98-144 | Validating once per offset gives every row the verdict its own body deserves. |
| ClrHeap.SweepSwept | testing-harnesses/z3/clrz3/heap.go:145-173 | The running offset and end suffice: kept bodies are apart, and a dropped one meets an excised region or starts inside a kept body. |
| ClrHeap.SweepRows | testing-harnesses/z3/clrz3/heap.go:154-173 | The in-place sweep drops and clears exactly the bodies the specification drops. |
| ClrHeap.KeptDisjoint | testing-harnesses/z3/clrz3/heap.go:145-173 | Kept bodies at different offsets are pairwise disjoint, and none meets an excised region. |
| ClrHeap.Validate | testing-harnesses/z3/clrz3/heap.go:98-174 | A row stays normalized if and only if its tokens are valid, it meets no excised region and no kept body covers its start; what stays is unchanged, disjoint and clear of excised regions. |
| BitcodeBits.ReadField | testing-harnesses/z3/bitcodez3/parse.go:63-71 | Assembling a field byte by byte with shifts and masks gives the bits from that position, least significant first. |
| Bitcode.Reader.ReadBits | testing-harnesses/z3/bitcodez3/parse.go:55-72 | Fails if and only if the field is over 64 bits or does not fit before the end, and otherwise moves on by its width. |
| Bitcode.Reader.ReadVbr | testing-harnesses/z3/bitcodez3/parse.go:73-94 | The chunk loop reads a variable-width integer, with its overflow checks, as specified. |
| BitcodeShape.VbrReadsBack | testing-harnesses/z3/bitcodez3/parse.go:73-94 | Chunks that hold digits are read to their end as the number they stand for, if and only if it passes the 64-bit checks. |
| Bitcode.Reader.ReadDefinition | testing-harnesses/z3/bitcodez3/parse.go:101-157 | Reads an abbreviation definition with all its operand and array checks. |
| Bitcode.Reader.ReadRecord | testing-harnesses/z3/bitcodez3/parse.go:185-249 | Reads a record, unabbreviated or by abbreviation with literals, arrays and blobs, within the limit on values. |
| Bitcode.Reader.ReadItem | testing-harnesses/z3/bitcodez3/parse.go:261-333 | One step of a block: its end, a sub-block, a definition or a record. |
| Bitcode.Reader.ReadBlock | testing-harnesses/z3/bitcodez3/parse.go:250-337 | The recursive block walk terminates, restores the limit of the enclosing block, and computes the specified state, which is the one a written block stands for (BitcodeReads.ReadBody, BitcodeTrees.FindBody). |
| Bitcode.Parse | testing-harnesses/z3/bitcodez3/parse.go:341-352 | Parses a file to a plan if and only if the file is written from a tree of blocks, definitions and records within the limits that stands for that plan; a short record uses the abbreviations BLOCKINFO gave its block so far and then those the block has defined itself. |
| BitcodeTrees.TreesOnly | testing-harnesses/z3/bitcodez3/parse.go:341-352 | A file is parsed to a plan if and only if it is written from a tree within the limits that stands for the plan. |
| BitcodeReads.WrittenParses | testing-harnesses/z3/bitcodez3/parse.go:341-352 | A file written from a tree within the limits is parsed, to the plan of the tree. |
| BitcodeFile.WriteThenParse | testing-harnesses/z3/bitcodez3/parse.go:341-352 | The bytes of such a tree, written bit by bit, are parsed to the plan of the tree. |
| BitcodeReads.ReadEntries | testing-harnesses/z3/bitcodez3/parse.go:261-333 | The entries of a written block are read one by one, as what they stand for. |
| BitcodeReads.ReadBody | testing-harnesses/z3/bitcodez3/parse.go:250-337 | The body of a written block is read to its end, with the abbreviations given to its identifier so far. |
| BitcodeReads.ReadDefinition | testing-harnesses/z3/bitcodez3/parse.go:101-157 | A written definition is read back as its operands. |
| BitcodeReads.ReadShort | testing-harnesses/z3/bitcodez3/parse.go:213-241 | A record written by an abbreviation is read back as its values: literals, fields, six-bit characters, an array or a blob. |
| BitcodeReads.ReadPlain | testing-harnesses/z3/bitcodez3/parse.go:203-212 | An unabbreviated record is read back as its code and values. |
| BitcodeTrees.FindBody | testing-harnesses/z3/bitcodez3/parse.go:250-337 | The body of a block that was read is written from some entries. |
| BitcodeTrees.FindShort | testing-harnesses/z3/bitcodez3/parse.go:213-241 | What is read by an abbreviation is a record written by it. |
| BitcodeShape.HeadAligned | testing-harnesses/z3/bitcodez3/parse.go:275-285 | The body of a sub-block begins and ends on a 32-bit boundary. |
| BitcodeShape.ItemsShape | testing-harnesses/z3/bitcodez3/parse.go:261-333 | What a block adds to the plan is well shaped: blocks in preorder, records in order, all between where it began and where it ended. |
| BitcodeShape.TopEnds | testing-harnesses/z3/bitcodez3/parse.go:261-337 | A successful top level ends exactly at the end of the file. |
| BitcodeShape.ParsedShape | testing-harnesses/z3/bitcodez3/parse.go:341-352 | For every accepted file: blocks are in preorder, 32-bit aligned, non-empty and nested or disjoint; records are in order and do not overlap; each carries the identifier of its innermost block; and the record count of a block is the number of records in its subtree. |
| BitcodeEncode.LeafSpans | testing-harnesses/z3/bitcodez3/encode.go:22-28 | The spans of the leaves mode are the bodies of exactly the blocks without sub-blocks, in order. |
| BitcodeEncode.FunctionSpans | testing-harnesses/z3/bitcodez3/encode.go:16-21 | The spans of the functions mode are the bodies of exactly the function blocks, in order. |
| BitcodeEncode.BodiesApart | testing-harnesses/z3/bitcodez3/encode.go:82-85 | Spans of selected blocks pass the bounds check if and only if no selected block is nested in another. |
| BitcodeEncode.RecordSpans | testing-harnesses/z3/bitcodez3/encode.go:29-54 | The loop with its flushes computes the specified groups. |
| BitcodeEncode.GroupsHold | testing-harnesses/z3/bitcodez3/encode.go:29-54 | The groups are apart, non-empty and in range, each of one block identifier and at most 4 KiB unless it is a single record, and every record with whole bytes is in one. |
| BitcodeEncode.GroupsMaximal | testing-harnesses/z3/bitcodez3/encode.go:44 | Two neighbouring groups could not have been one: block, size or gap forbids it. |
| BitcodeEncode.GroupsNarrow | testing-harnesses/z3/bitcodez3/encode.go:44 | Neighbouring records inside a group are at most 32 bytes apart. |
| BitcodeEncode.Regions | testing-harnesses/z3/bitcodez3/encode.go:66-92 | Fails if and only if the spans are not in order and in range; otherwise the pieces are non-empty, concatenate to the file, and hold every span as one piece. |
| BitcodeEncode.Store | testing-harnesses/z3/bitcodez3/encode.go:59-64 | Refuses for the 16 MiB limit if and only if some span is longer, and for bounds if and only if none is and the spans are not in order. |
| BitcodeEncode.Encode | testing-harnesses/z3/bitcodez3/encode.go:13-92 | On every parsed plan the leaves and records modes never fail the bounds check; the functions mode fails it if and only if function blocks nest; the pieces concatenate to the file. |
| BitcodeNested.ExampleNests | testing-harnesses/z3/bitcodez3/parse.go:250-352 | A concrete file of 28 bytes that the parser accepts, with one function block inside another. |
| BitcodeNested.NestedFunctions | testing-harnesses/z3/bitcodez3/encode.go:13-92 | That file, in the functions mode, fails the bounds check. |
| ComposeRecord.Marshal | testing-harnesses/z3/composez3/composez3.go:179-191 | Writes the record of a composition; the depth is cut to a byte. |
| ComposeRecord.Parse | testing-harnesses/z3/composez3/composez3.go:193-242 | Returned entries are in order, in range and within bounds; a written record comes back as it was if and only if its depth byte is 1 and every padding is at most 511. |
| Compose.Encode | testing-harnesses/z3/composez3/composez3.go:102-139 | An inner representation is returned if and only if it rebuilds the payload from its recipe and components alone. |
| Compose.Try | testing-harnesses/z3/composez3/composez3.go:285-318 | A member is replaced if and only if its padding is zero, its payload is of an allowed detected kind, and its inner representation is proved; the replacement with prefix and padding stands for the member bytes. |
| Compose.AddPiece | testing-harnesses/z3/composez3/composez3.go:277-321 | One piece is left alone, represented as an earlier piece of the same digest, or represented anew; the substitutions, the marks and the extra pieces stay in step. |
| Compose.Compose | testing-harnesses/z3/composez3/composez3.go:247-334 | Substitutes exactly the eligible members that are replaceable, or share a digest with an earlier replaceable one, marks exactly those, and backs every substitution with stored pieces. It does so whenever the depth check passes (in 64-bit arithmetic), the plan is exact, lists every piece and can be read, and some member is replaceable; otherwise it fails for one of the listed reasons or leaves the plan alone. |
| ComposeModel.RunSame | testing-harnesses/z3/composez3/composez3.go:391-417 | A rebuild that depends only on its getter writes the same under getters that agree on what it asks for. |
| ComposeRebuild.Cache.Fetch | testing-harnesses/z3/composez3/composez3.go:391-417 | With or without the cache, a component is answered the same. |
| ComposeRebuild.ListById | testing-harnesses/z3/composez3/composez3.go:383-389 | Fails if and only if some entry names a piece without a component; otherwise the later entry of a digest wins. |
| ComposeRebuild.RebuildComposed | testing-harnesses/z3/composez3/composez3.go:374-418 | The rebuild is the outer rebuild over the composed getter; from a written record it succeeds in reading it if and only if the record is within its bounds. |
| ComposeRebuild.CompositionExact | testing-harnesses/z3/composez3/composez3.go:374-418 | Over a store with the stored pieces of a composition, the composed rebuild writes the same bytes as the outer rebuild over the originals. |
| ComposeRebuild.NeverAnother | testing-harnesses/z3/composez3/composez3.go:412-414 | Without digest collisions among the strings in play (the originals and whatever a substitution would serve), no substitution list makes a strict rebuild write anything else than the original rebuild writes. |
| ComposeRebuild.EligiblePadsFit | testing-harnesses/z3/composez3/composez3.go:282 | A check for callers: if every eligible piece has at most 511 bytes of padding, the paddings fit the record. |
| ComposeRebuild.ComposeThenRebuild | testing-harnesses/z3/composez3/composez3.go:247-418 | End to end: a composition that is returned rebuilds to what the outer plan writes if and only if the depth option fits the record and every substituted padding is at most 511; otherwise its rebuild fails over every store. |
| ComposeRebuild.LongPadding | testing-harnesses/z3/composez3/composez3.go:282 | A concrete plan whose one member has 512 bytes of padding: it is composed, and the composition cannot be rebuilt over any store, although the plan can. |
| ComposeRebuild.NegativeDepth | testing-harnesses/z3/composez3/composez3.go:248-253 | A concrete plan without padding, composed at depth -1: the composition cannot be rebuilt over any store, although the plan can. |

## Left out

- CarRecipeCodec.Unmarshal: speaks of written recipes only, and refuses an index mode above 2, which the source would keep as an unknown mode that no writer produces.
- CarIndexCodec.ParseIndex: speaks of printed indexes only; of other inputs it states nothing.
- CarBuild.Build: for a CARv2 file whose index is not the sorted index of its own sections, acceptance is not stated, because it rests on whether that index parses; exactness of an accepted file is.
- BinrefReconstruct.Reconstruct: speaks of well-formed streams only; which malformed streams are refused is not stated.
- BinrefReconstruct.Rd.Uv: says of a malformed varint only that the cursor stays in range and an error sticks.
- BinrefReconstruct.ReadHeader: speaks of written region streams only.
- BinrefReconstruct.ReadUnits: speaks of written unit tables only.
- ClrSource.Source.ParseBodyAt: the number of references counted for a body that does not parse is arbitrary, so which later body meets the limit on references is not stated.
- AdmissionRun.Choose: the floating-point policies are given as the choices they make, and of the deeper beam only validity is stated once its width cuts.
- AdmissionPolicy.Order: the order of candidates with equal costs is not stated; it decides only which of several minimal sequences the oracle reports.
- AdmissionRun.Look: which of several cheapest first choices is returned is not stated, nor anything about quality once the beam is cut.
- Compose.Compose: counters and notes of the report are not modelled, and `Audit` and `InnerPlan` are not.
- The premium-cap, late-bootstrap and expected-value policies: floating-point scores; they are modelled as an arbitrary valid choice at every stage, which covers them.
- Validation of identifiers, hashes, evidence, roots and samples in the admission schema: the policies do not rest on it.
- Timings, read-byte statistics, per-class and per-encoding counters, and duplicate counters.
- The record digest over operand values in bitcodez3: the model keeps the operand values themselves until the record is stored.
- `ScanX86`, `ScanPtr`, `UnitsFromSyms` and `UnitsFromBranches`: slots and units are arbitrary inputs.
- `ParseHeader` and multihash verification in carz3: acceptance of a header and the verdict on a CID are parameters.
- Buffered and windowed input in carz3, and errors of the underlying reader everywhere: a source is its bytes.
- Metadata tables, heaps, layers and the full `Encode` and `Decode` pipeline of clrz3; validity of the tokens of a body is a predicate on the body.
- The inner encoders of composez3 (`sqlite.go`, `car.go`, `exec.go`): parameters, proved against their payload at composition time as the source does.
- Memory limits by capacity and the growth of buffers: sequences are values, so aliasing between slices of one buffer is not captured.
- `harness`, `profile`, `runner` and `scripts`: process control, clients and benchmarks.
