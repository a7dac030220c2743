# gollama.cu, modelled and proved in Dafny

gollama.cu runs Llama models from GGUF files on a GPU whose kernels are written in Go. This
project models the parts of it where a mistake would be silent and proves what they promise:

- **Kernels as concurrent blocks** (`BlockMachine`, `Runs`, `Schedules`, `Reduce`, `ReduceCalls`,
  `RowCode`, `SoftmaxCode`, `SoftmaxEpochs`, `SoftmaxKernel`, `RmsKernel`, `AttnCode`, `AttnKernel`,
  `RopeKernel`). A block is a transition system: eight warps of 32 lanes with their own program
  counters share memory, interleave freely, and meet only at barriers. `Schedules` proves once, for
  every code that keeps to a discipline about which warp touches which cell between two barriers, that
  no schedule races, deadlocks or runs forever and that all of them end in one state; `Runs` builds
  schedules, among them one that finishes. Each kernel is
  then shown to be disciplined, and its one final state to be what its CPU twin computes.
- **Their sequential twins** (`Cpu`, `RopeCpu`, `RopeLaws`, `SoftmaxSpec`), as loops over arrays, and what both
  are for: attention of one query over the rows of its KV head (`SingleHead`).
- **Dequantizing matrix-vector products** (`Quant`, `QuantHost`, `QuantKernels`, `QuantPacking`, `PackedTables`): the
  bit packing of Q4_0, Q4_K and Q6_K in both directions, the reference decoding, the lanes of the kernels,
  the grid, and that both sides compute the dot product with the decoded row.
- **Cached decoding** (`Transformer`, `ForwardPass`, `TransformerLaws`, `Decoder`, `DequantizedNet`, `ModelConfig`):
  `Forward` over reused buffers and a KV cache, any step of which may fail, against a causal transformer
  without a cache; that transformer against the equations of a forward pass, which it alone satisfies; the
  generation loop as greedy decoding of it; and (`DequantizedNet`) the network whose matrices, norms,
  rotation and activation are those the CPU backend and the kernels compute.
- **The tokenizer** (`Utf8`, `Regex`, `PreTokenizer`, `Pieces`, `PreTokenize`, `BytePairs`, `Tokenizer`): the
  hand-written matcher against a backtracking semantics of the documented regular expression, and that
  expression against plain conditions on the text; greedy merging against
  one pass over the merge list, and the byte-exact round trip.
- **Codecs** (`GgufCodec`, `GgufFile`, `GgufRoundTrip`, `GgufLayout`, `GgufChunks`, `Buffered`, `GgufWriter`,
  `GgufReader`, `Half`, `HalfLaws`, `Utf8Stream`): GGUF parsing, and writing through a buffer to an output that may fail,
  binary16 rounding (IEEE 754-2019, sections 3.4 and 4.3.1),
  and the writer that holds back partial UTF-8 characters (section 3 of RFC 3629).

`Sums`, `Folds` and `Arith` hold the facts about sums, reordered folds and index arithmetic that the
others share, `Wrappers` their common types. `dafny verify dfyconfig.toml` checks everything.

Floats are exact reals, except in the agreement theorems of `Reduce` and `ReduceCalls`, which hold for
any commutative operation and so for rounded addition too, and in `Half`, where a float32 is its bits.
`exp` is any positive function that turns sums into products; `sin` and `cos` are any functions with the
addition laws on the unit circle; `power`, `rsqrt` and `sqrt` are uninterpreted, and `Transformer` takes any
activation. A kernel's code is the
list of instructions its loops unroll to for the given launch, with the loop bounds, strides, lane
numbers and barriers of the source.

## What does not hold

Each is an if-and-only-if that gives the exact condition under which the code is right, followed by the
lemma or method at a concrete input that shows it fail.

- `matchAt` returns 0, and `PreTokenize` then appends empty pieces forever, exactly at a whitespace
  character of several bytes that is followed by a rune that is neither space nor letter
  (tokenizer/tokenizer.go:262 compares a byte count with 1): `PreTokenizer.MatcherIsExpression` and
  `PreTokenize.PreTokenize`. A no-break space before an exclamation mark is such a text:
  `PreTokenize.NoBreakSpace`.
- The greedy loop need not apply merges in order of rank, and then one pass over the merge list does
  not give its result. The source promises neither; `Tokenizer` models the loop itself. Both hold for
  every word exactly when they hold for the result of each merge (`BytePairs.Ordered`):
  `BytePairs.RanksNeverDecrease` and `BytePairs.ReplayExactly`. Listing whatever makes a part before
  whatever uses it is enough, but not needed: `BytePairs.PartsFirstSuffices`,
  `BytePairs.PartsFirstNotNeeded`. `BytePairs.OrderMatters` has a list of two merges that fails.
- After an error the count no longer grows, so `pad` never returns when it stopped at an unaligned count
  (gguf/writer.go:199-203). `GgufWriter.Writer.WriteTo` says exactly when, for an output that takes a
  given number of bytes behind the 4096-byte buffer of `WriteTo`: `Buffered.StopOf` is the count at the
  first write that fails, from the sizes of the writes, or at the first value of an unknown type. A file
  that fits into the buffer ends on every output (`GgufWriter.SmallFileEnds`). A tensor of 8192 bytes
  behind a 64-byte header fails cleanly on an output that takes 5 bytes and never ends on one that takes
  4101: `GgufWriter.ShortOutput`. A value of type code 13 never ends on any: `GgufWriter.UnknownValue`.
- `Set` takes a general.alignment of 0, by which `pad` then divides: `GgufWriter.Writer.WriteTo` and
  `GgufWriter.ZeroAlignment`.
- `Set` and `AddTensor` take what does not come back from `Parse`. A file whose tensors have no negative
  dimension comes back exactly when its alignment is a power of two, no tensor has more than four
  dimensions, no two share a name, and every value, inside arrays too, has the type that is announced for
  it: `GgufRoundTrip.RoundTripExactly`. `GgufRoundTrip.MixedArrayLost` has an array of a byte and a string.
- `AddTensor` divides by the innermost dimension, which may be 0: `GgufWriter.Writer.AddTensor`
  and, for a tensor of 0 float32 elements, `GgufWriter.ZeroInner`. Negative dimensions whose product has
  the right size are stored, wrapped to 64 bits: `GgufWriter.NegativeDims`.
- `ConfigFrom` panics exactly in two cases (model/model.go:35-65): it takes a remainder by a
  head_count_kv of 0 before anything rejects it, and it takes the first dimension of a token_embd.weight
  that has none, which `Parse` accepts: `ModelConfig.ConfigFrom`, `ModelConfig.ZeroKvHeadsPanic`,
  `ModelConfig.ScalarEmbeddingPanics`.
- Negative counts in signed metadata load. A loaded model has query heads, and each of them its KV head,
  exactly when both counts are positive: `ModelConfig.LoadedHeadsExist`, and `ModelConfig.NegativeKvHeadsLoad`
  with a head_count_kv of -1.
- `AttnDecode` gives every query head a KV head exactly when there are KV heads and they divide the
  query heads: `Cpu.KvHeadsExist`. With three query heads and two KV heads it does not:
  `Cpu.ThreeOverTwo`.

## Model

| member | source | states |
|---|---|---|
| Schedules.NoRace | kernels/reduce.go:39-70 | in no schedule of a disciplined block do different warps make conflicting accesses without a barrier in between |
| Schedules.NoDeadlock | kernels/reduce.go:39-70 | in every reachable state of a disciplined block that has not finished, a warp can step or the barrier can open |
| Schedules.Terminates | kernels/reduce.go:39-70 | a schedule is no longer than the warps' instructions plus the barriers |
| Schedules.OneFinalState | kernels/reduce.go:39-70 | every schedule that runs to the end leaves the memory and the registers that taking the warps one at a time, epoch by epoch, leaves |
| Schedules.StepStaysInside | kernels/attention.go:15-60 | no step of any schedule touches a cell outside the allocated ones |
| Schedules.DisciplinedIsSafe | kernels/reduce.go:39-70 | every run of a disciplined block, from none to all of its steps, is free of races, stays inside the allocated cells, can go on unless it has finished, and is bounded |
| Runs.SomeRunFinishes | kernels/reduce.go:39-70 | warps with equally many barriers have a schedule that runs to the end, so the theorems about all complete schedules speak of some |
| Reduce.WarpAgrees | kernels/reduce.go:22-35 | with commutativity alone, all 32 lanes end the butterfly with the identical value |
| Reduce.WarpTotal | kernels/reduce.go:22-35 | with associativity too, that value is the fold of the 32 lanes in lane order |
| Reduce.PaddedTotal | kernels/reduce.go:39-70 | the fill of the lanes past the last warp (0 for the sum, warp 0's value for the maximum) does not change the result |
| Reduce.BlockTotal | kernels/reduce.go:39-70 | reducing warps and then their eight results is the fold of all 256 inputs in thread order |
| ReduceCalls.CallsDisciplined | kernels/reduce.go:39-70 | any sequence of block reductions on one scratch array keeps each warp to its own cell between the two barriers of a call |
| ReduceCalls.EveryThreadAgrees | kernels/reduce.go:39-70 | after any sequence of calls with any commutative operations, in every schedule, all 256 threads hold the identical result of each call |
| ReduceCalls.EveryThreadGetsTheTotal | kernels/reduce.go:39-70 | for blockSum and blockMax that result is the total, or the maximum, of that call's 256 inputs |
| ReduceCalls.CallsAreSafe | kernels/reduce.go:39-70 | no schedule of the calls, of any length, races, leaves the scratch, deadlocks or runs forever |
| ReduceCalls.FirstBarrierNeeded | kernels/reduce.go:39-53 | without the first barrier, of any two calls and any two warps, a schedule exists in which one warp's write of the next call races with the other's read of this one |
| Folds.StridedCovers | kernels/rows.go:23-41 | the strided loops of all threads visit every index once: folding the threads' results is folding the sequence |
| SoftmaxSpec.ShiftInvariant | backend/cpu/cpu.go:32-50 | subtracting any number, in particular the maximum, before exp leaves every weight unchanged |
| SoftmaxSpec.WeightsAddUp | backend/cpu/cpu.go:32-50 | softmax weights are positive and add up to one |
| SingleHead.SoftmaxExactly | backend/cpu/cpu.go:32-50 | a list of numbers is the softmax of another if and only if they are positive, add up to one and are in proportion to the exponentials |
| SoftmaxKernel.EveryScheduleSoftmax | kernels/rows.go:23-41 | in every schedule, for separate rows or in place, each element ends as its softmax weight in the original row |
| SoftmaxKernel.SoftmaxIsSafe | kernels/rows.go:23-41 | no schedule of a row's block, of any length, races, leaves the rows and the scratch, deadlocks or runs forever |
| RmsKernel.EveryScheduleNormalises | kernels/rows.go:7-19 | in every schedule each element ends divided by the root mean square of the original row and scaled, separate rows or in place |
| RmsKernel.NormalisedBy | kernels/rows.go:7-19 | every element is multiplied with its weight and with the one positive number whose square is the reciprocal of the mean of the squares plus eps |
| RmsKernel.RmsIsSafe | kernels/rows.go:7-19 | no schedule of a row's block, of any length, races, leaves the rows and the scratch, deadlocks or runs forever |
| AttnKernel.AttnDisciplined | kernels/attention.go:15-60 | in each of the six phases of AttnDecode a warp writes only scores, scratch or outputs that no other warp touches |
| AttnKernel.ScoresReady | kernels/attention.go:23-36 | after the first barrier every score is the scaled dot product, whichever warp computed it |
| AttnKernel.EveryScheduleAttends | kernels/attention.go:15-60 | in every schedule, dimension d of head h ends as the softmax-weighted average of the value vectors |
| AttnKernel.AttnIsSafe | kernels/attention.go:15-60 | no schedule, of any length, races on scores or scratch, leaves the allocated cells, deadlocks or runs forever |
| AttnKernel.HeadsDisjoint | backend/gpu/gpu.go:75-86 | the blocks of different heads write different outputs |
| SingleHead.EveryScheduleAttendsHead | kernels/attention.go:9-60 | in every schedule the output of head h is the average of the rows of V, in the columns of KV head h / group, weighted by the softmax of the scaled dot products of the head's query with the same columns of K |
| SingleHead.LaunchAttends | kernels/attention.go:9-60 | the attention the two sides agree on is that average |
| SingleHead.AttendsOnce | kernels/attention.go:9-60 | there is only one such output |
| Cpu.Softmax | backend/cpu/cpu.go:32-50 | every row of out is the softmax of that row of x, in place or not, and nothing else changes |
| Cpu.RMSNorm | backend/cpu/cpu.go:17-29 | every row of out is the normalised row of x, in place or not, and nothing else changes |
| Cpu.AttnDecode | backend/cpu/cpu.go:143-168 | every dimension of every head is the attention that every schedule of the kernel ends with: the single-head attention of the head's stretch of q over the columns of KV head h / (nHeads / nKV) of both caches |
| Cpu.OneCachedPosition | backend/cpu/cpu.go:143-168 | with one cached position the output of a head is its KV head's value |
| Cpu.SiluMul | backend/cpu/cpu.go:52-57 | every element is g / (1 + e^-g) of the gate times the other factor, in place or not, and nothing else changes |
| Cpu.KvHeadsExist | backend/cpu/cpu.go:143-150 | for any two counts, every query head has a KV head if and only if there are KV heads and their number divides that of query heads |
| Cpu.ThreeOverTwo | backend/cpu/cpu.go:143-150 | with three query heads and two KV heads, head 2 has no KV head |
| Cpu.KvInside | backend/cpu/cpu.go:143-168 | every cache element a head reads lies in the first kvLen rows |
| RopeSpec.NoFactorsAreOnes | backend/cpu/cpu.go:66-69 | a model without frequency factors rotates like one whose factors are all one |
| RopeSpec.TurnsByAngle | backend/cpu/cpu.go:69-86 | pair j of a head turns, from its first element towards its second, by the angle whose product with the pair's factor is the position times base^(-2j/headDim) |
| RopeSpec.QuarterTurn | backend/cpu/cpu.go:69-86 | where that angle has cosine 0 and sine 1, (x0, x1) becomes (-x1, x0) |
| RopeSpec.FactorsSlowDown | backend/cpu/cpu.go:66-86 | a row rotated at k times the position with k times the factors, of any model, is the row as that model rotates it |
| RopeCpu.Rope | backend/cpu/cpu.go:69-86 | every row is rotated in place by its own position, pair by pair and head by head, and what follows the rows is unchanged |
| RopeCpu.RotatedCongruence | backend/cpu/cpu.go:69-86 | the rotation of a row depends on that row only |
| RopeKernel.RopeDisciplined | kernels/rows.go:67-81 | the pairs of different threads of the flat strided loop are different cells of the row |
| RopeKernel.EveryScheduleRotates | kernels/rows.go:67-81 | in every schedule the row ends rotated exactly as by the nested loops, for any head size, odd ones included |
| RopeKernel.RopeIsSafe | kernels/rows.go:67-81 | no schedule of a row's block, of any length, races, leaves the row, deadlocks or runs forever |
| RopeLaws.ScoreShift | backend/cpu/cpu.go:66-86 | moving the query and a cached key by the same number of positions leaves their score unchanged |
| RopeLaws.HeadShift | backend/cpu/cpu.go:143-168 | the same move leaves the outputs of any one head that has a KV head unchanged, whatever the head counts |
| RopeLaws.AttentionShift | backend/cpu/cpu.go:143-168 | in a layer whose KV heads divide its query heads, moving the query and all cached keys by the same number of positions leaves every output of every head unchanged |
| Quant.PackingLosesNothing | quant/quant.go:90-95 | the twelve packed bytes of Q4_K hold eight 6-bit scales and eight 6-bit mins and nothing else: equal scales and mins mean equal bytes |
| Quant.PackedExactly | quant/quant.go:90-95 | twelve bytes are the packing of eight scales and eight mins, each below 64, if and only if unpacking them gives those: both round trips |
| Quant.NoWrap | quant/quant.go:114-132 | subtracting 32 from a 6-bit quant never wraps int8 |
| QuantHost.DequantQ4_0 | quant/quant.go:56-65 | a Q4_0 block decodes to the weights the format defines, in place, and nothing else changes |
| QuantHost.ScaleMin | quant/quant.go:90-95 | if the twelve bytes were packed from eight 6-bit scales and mins, the results are number j of each; they are below 64 for any bytes |
| QuantHost.DequantQ4K | quant/quant.go:97-112 | a Q4_K block decodes to the weights the format defines |
| QuantHost.DequantQ6K | quant/quant.go:114-132 | a Q6_K block decodes to the weights the format defines: q1..q4 land on the element each belongs to |
| QuantPacking.PackedBlockExactly | quant/quant.go:4-12 | any bytes of a block's length are the packing of exactly one block: scales in two's complement or six bits, quants in nibbles and pairs of bits |
| QuantPacking.DecodesPacked | quant/quant.go:4-12 | if the bytes of a block were packed from scales, mins and quants, every element decodes to d*(q-8), d*sc*q - dmin*m or d*sc*(q-32), with the scale of its sub-block |
| PackedTables.DecodedRowHolds | quant/quant.go:27-78 | the elements decoded from blocks packed one after the other are their weights in order |
| PackedTables.ProductOfPacked | backend/cpu/cpu.go:122-138 | if row r was packed from blocks, y[b][r] is the sum of their weights times the elements of x[b] |
| QuantHost.Dequantize | quant/quant.go:27-78 | whole blocks are decoded one after the other; a length that is no whole number of blocks, or missing bytes, is an error |
| QuantHost.RowShift | quant/quant.go:135-138 | decoding row r from its own bytes gives what decoding it inside the table gives |
| QuantHost.Row | quant/quant.go:135-138 | out holds row r of the table |
| QuantHost.MatVecQ | backend/cpu/cpu.go:122-138 | y[b][r] is the dot product of the decoded row r with vector b, for every b and r |
| QuantKernels.LaneQ4_0 | kernels/quantmv.go:18-42 | a lane of MatVecQ4_0 adds the dot products of every 32nd block |
| QuantKernels.Factored | kernels/quantmv.go:60-96 | d*sc*sum(q*x) - dmin*m*sum(x) is the sum over the lane's eight weights of weight times x |
| QuantKernels.LaneNibble | kernels/quantmv.go:66-96 | the kernel's chunk, sub-block and shift pick the same nibble as the reference decoding |
| QuantKernels.LaneQ4K | kernels/quantmv.go:66-96 | a lane of MatVecQ4K adds, for every block, its eight weights times x |
| QuantKernels.SixBitQuant | kernels/quantmv.go:102-136 | the kernel's quant, offset after conversion to float, is the reference's int8 quant |
| QuantKernels.LaneQ6K | kernels/quantmv.go:102-136 | a lane of MatVecQ6K adds, for every block, its eight weights times x with their signed scales |
| QuantKernels.StridesCover | kernels/quantmv.go:102-136 | halves, lanes and q1..q4 reach each of the 256 elements of a block exactly once: the lanes' sums add up to the block's |
| QuantKernels.LanesCover | kernels/quantmv.go:66-136 | in Q4_K and Q6_K the 32 lanes together compute each block's dot product |
| QuantKernels.WarpDots | kernels/quantmv.go:18-136 | the butterfly's total is the sum of the blocks' dot products, in every lane |
| QuantKernels.BlocksAreRow | kernels/quantmv.go:18-136 | the blocks' dot products add up to the dot product of the decoded row |
| QuantKernels.GridCovers | backend/gpu/gpu.go:82-86 | every row belongs to exactly one warp of the grid |
| QuantKernels.GridTight | backend/gpu/gpu.go:82-86 | fewer than eight warps of a batch have no row |
| QuantKernels.WrittenOnce | backend/gpu/gpu.go:82-86 | each y[b][r] is written by exactly one warp of the launch |
| QuantKernels.Warp | kernels/quantmv.go:18-136 | a warp writes the dot product of its decoded row with its vector and nothing else, or nothing past the last row |
| QuantKernels.Launch | kernels/quantmv.go:18-136 | whatever order the warps run in, y is what QuantHost.MatVecQ computes |
| Transformer.Causal | model/model.go:313-373 | what happens at a position does not depend on later tokens |
| Transformer.AttendPrefix | kernels/attention.go:15-60 | attention over n cache rows is the same for caches that agree on those rows |
| ForwardPass.LogitsExactly | model/model.go:335-373 | logits are those of the transformer if and only if they are those of some collection of vectors that satisfies, element by element, the equations of a grouped-query layer for every position and layer: norm, q, k, v, rotation, attention per head, residual, norm, gate, up, activation, down, residual |
| TransformerLaws.UpIsSecond | model/model.go:350-353 | an activation that ignores its second argument leaves the logits independent of the Up matrices |
| TransformerLaws.GateIsFirst | model/model.go:350-353 | one that ignores its first argument leaves them independent of the Gate matrices |
| TransformerLaws.FactorMoves | model/model.go:350-355 | with an activation linear in its second argument a factor may be moved from the Down matrices into the Up matrices |
| TransformerLaws.Residual | model/model.go:345-356 | a layer whose Wo and Down are zero passes every position on unchanged |
| TransformerLaws.FirstNormFeedsAttention | model/model.go:337-346 | a layer with Wo zero does not depend on its first norm |
| TransformerLaws.SecondNormFeedsForward | model/model.go:337-350 | the keys and values of a layer do not depend on its second norm |
| Decoder.LayerStep | model/model.go:335-362 | one layer of Forward, with the new row in the cache, is the cacheless layer for the last token |
| Decoder.Model.constructor | model/model.go:176-310 | loading allocates separate buffers and two caches per layer, the state every step relies on |
| Decoder.Model.CopyRow | model/model.go:342-344 | the copy of K or V overwrites row pos of the cache only; a copy that fails spoils at most that row |
| Decoder.Model.Layer | model/model.go:335-362 | a layer's steps over the shared buffers (kv holds K, then V) compute the layer function of x and the cache |
| Decoder.Model.Forward | model/model.go:313-373 | with a cache that holds a history of at least pos tokens, from whatever earlier contents, the logits are those of the cacheless transformer over the first pos tokens and the new one; on any failure the first pos rows still hold |
| Decoder.Model.Rewind | model/model.go:313-373 | a cache that holds tokens holds every prefix of them, so rows above the position do not matter |
| Decoder.Model.EmptyHistory | model/model.go:313-373 | nothing is asked of the initial contents of the cache |
| Decoder.ArgmaxIsFirst | model/model.go:376-384 | the result is the first index that holds the largest logit |
| Decoder.Argmax | model/model.go:376-384 | the loop finds it |
| Decoder.Generate | cmd/gollama/run.go:92-136 | refused exactly when the request does not fit the cache or is empty; when it finishes, the output is greedy decoding of the cacheless transformer, and otherwise a prefix of it; positions leave the cache only when the prompt alone is too long |
| Decoder.GreedyExactly | cmd/gollama/run.go:92-136 | greedy decoding is the only continuation by first largest logits, none of them a stop, that ends after n tokens or where a stop is chosen |
| DequantizedNet.Embedding | model/model.go:313-334 | the decoded row of the embedding table is what the network of the decoded weights takes for the token |
| DequantizedNet.MatVec | backend/cpu/cpu.go:122-138 | the CPU product computes the matrix step of that network |
| DequantizedNet.Normalise | backend/cpu/cpu.go:17-29 | and RMSNorm its norm, in place or not |
| DequantizedNet.Rotate | backend/cpu/cpu.go:69-86 | and RoPE its rotation, in place |
| DequantizedNet.Activate | backend/cpu/cpu.go:52-57 | and SiluMul its activation, in place or not |
| DequantizedNet.ActivationAndScale | model/model.go:322 | that activation times 1 + e^-g is g times u, and the square of the attention scale is one over the head dimension |
| DequantizedNet.LaunchMat | kernels/quantmv.go:18-136 | the kernel launch computes the same matrix step, whatever order the warps run in |
| DequantizedNet.KernelNormalises | kernels/rows.go:7-19 | every schedule of the norm kernel ends with the same norm |
| DequantizedNet.KernelRotates | kernels/rows.go:67-81 | every schedule of the rotation kernel ends with the same rotation |
| DequantizedNet.Prefill | model/model.go:313-373 | a new model fed the prompt token by token, if no device call fails, ends with the logits of the cacheless transformer over the decoded weights |
| ModelConfig.ConfigFrom | model/model.go:35-65 | exactly which metadata and embedding dimensions load and which panic, with the conversions to int and the signs of Go; in a loaded model the heads are a multiple of the KV heads, both not zero |
| ModelConfig.LoadedHeadsExist | model/model.go:35-65 | a loaded model has query heads, each with its KV head, if and only if both counts are positive |
| ModelConfig.LoadedIsUsable | model/model.go:35-65 | with positive counts a loaded configuration is one the decoder theorems apply to |
| ModelConfig.LoadedValues | model/model.go:35-65 | a file without head_count_kv and key_length loads as many KV heads as heads and the quotient as head dimension, one with them loads theirs |
| ModelConfig.ZeroKvHeadsPanic | model/model.go:52-56 | a head_count_kv of 0 panics |
| ModelConfig.ScalarEmbeddingPanics | model/model.go:59-63 | a token_embd.weight without dimensions panics |
| ModelConfig.NegativeKvHeadsLoad | model/model.go:51-58 | a head_count_kv of -1 loads, and query head 0 has no KV head |
| Utf8.RunesOfEncoded | tokenizer/tokenizer.go:168-180 | text written rune by rune is read back rune by rune |
| Utf8.DecodeExactly | tokenizer/tokenizer.go:168-180 | decoding takes the scalar whose encoding the bytes start with, and one byte as U+FFFD where there is none |
| Utf8.EncodedBounds | tokenizer/tokenizer.go:168-180 | the bytes of the first and the last scalar of every length, and of what is no scalar |
| Regex.FirstMaybeThen | tokenizer/tokenizer.go:204-270 | an optional character is taken if that leads to a match and given up otherwise |
| Regex.EndsMany | tokenizer/tokenizer.go:274-284 | a greedy loop over a class offers the longest run first, then every shorter one |
| Regex.FirstDown | tokenizer/tokenizer.go:204-270 | backtracking through a run stops at the rightmost position from which the rest matches |
| PreTokenizer.FirstIsChoice | tokenizer/tokenizer.go:182-270 | the first match of the whole expression, alternative by alternative with backtracking and lookahead, is the one the conditions on the text pick |
| PreTokenizer.MatcherIsExpression | tokenizer/tokenizer.go:182-270 | over rune sequences, the matcher takes exactly what the expression matches first, except that it takes nothing exactly where it is stuck |
| PreTokenizer.SuffixIs | tokenizer/tokenizer.go:207-215 | after an apostrophe one letter s, t, m or d, or two letters re, ve or ll, in either case |
| Pieces.PieceExactly | tokenizer/tokenizer.go:182-270 | the expression takes k runes if and only if they are a contraction, the longest run of letters behind at most one opening rune, up to three numbers, the longest run of other runes behind at most one space and with the line ends after it, or whitespace up to its last line end or before the last space |
| PreTokenize.SpanRunes | tokenizer/tokenizer.go:274-284 | the byte length of the longest run of runes of the class |
| PreTokenize.SuffixAt | tokenizer/tokenizer.go:204-270 | how many bytes of a contraction follow the apostrophe, ASCII letters in either case |
| PreTokenize.MatchAt | tokenizer/tokenizer.go:204-270 | on any bytes, invalid UTF-8 included, the byte length of the runes the matcher takes |
| PreTokenize.NeverSkips | tokenizer/tokenizer.go:187-195 | no match runs past a stuck position, so the loop cannot miss one |
| PreTokenize.NoBreakSpace | tokenizer/tokenizer.go:256-270 | on a no-break space before an exclamation mark the loop never ends |
| PreTokenize.PreTokenize | tokenizer/tokenizer.go:187-195 | it ends if and only if no position of the text is stuck; then the pieces are those of the expression, nonempty, and join to the text |
| BytePairs.BestIsLeast | tokenizer/tokenizer.go:134-153 | the scan finds the leftmost of the lowest-ranked pairs |
| BytePairs.Bpe | tokenizer/tokenizer.go:134-153 | the result joins to the word and no neighbours can still be merged |
| BytePairs.Local | tokenizer/tokenizer.go:134-153 | merging is local: as long as ranks do not decrease, any stretch of the symbols after n steps is made from its own part of the word by the steps that part alone would take |
| BytePairs.RanksNeverDecrease | tokenizer/tokenizer.go:134-153 | the ranks the loop applies never decrease on any word, if and only if they do not on the result of each merge |
| BytePairs.PartsFirstSuffices | tokenizer/tokenizer.go:134-153 | a list with whatever makes a part before whatever uses it meets that condition |
| BytePairs.PartsFirstNotNeeded | tokenizer/tokenizer.go:134-153 | so does a list without that order |
| BytePairs.GreedyIsReplay | tokenizer/tokenizer.go:134-153 | on a word whose ranks never decrease, the greedy result is that of one pass over the merge list, each merge swept from left to right |
| BytePairs.ReplayExactly | tokenizer/tokenizer.go:134-153 | one pass over the list is the greedy loop on every word, if and only if ranks do not decrease on the result of each merge |
| BytePairs.OrderMatters | tokenizer/tokenizer.go:134-153 | a list of two merges on which ranks decrease and one pass does not give the greedy result |
| Tokenizer.AlphaInjective | tokenizer/tokenizer.go:47-59 | different bytes get different characters, all of them scalars below 0x200 |
| Tokenizer.AlphaIs | tokenizer/tokenizer.go:43-59 | 0x21-0x7E, 0xA1-0xAC and 0xAE-0xFF stand for themselves, 0x00-0x20 start at U+0100, 0x7F-0xA0 at U+0121, and 0xAD is U+0143 |
| Tokenizer.InitTables | tokenizer/tokenizer.go:47-59 | byteToRune is that table, byte by byte, and runeToByte its inverse |
| Tokenizer.WordBytes | tokenizer/tokenizer.go:115-131 | mapping a piece to the alphabet and back gives the piece |
| Tokenizer.Tokenizer.constructor | tokenizer/tokenizer.go:62-94 | of tokens with the same text the last one has the id, and of repeated merges the last one the rank |
| Tokenizer.Tokenizer.AppendToken | tokenizer/tokenizer.go:168-180 | control tokens add nothing, alphabet characters their byte, other runes their UTF-8 |
| Tokenizer.Tokenizer.ReducedKnown | tokenizer/tokenizer.go:115-153 | every symbol the merging makes is in a vocabulary with all single characters and merge results |
| Tokenizer.Tokenizer.Encode | tokenizer/tokenizer.go:115-131 | it ends exactly where PreTokenize does; the ids are those of the merged symbols of each piece in turn, the fallback id for a symbol without one, and for a complete vocabulary they decode to the text |
| Tokenizer.Tokenizer.NoMerges | tokenizer/tokenizer.go:115-131 | without merges a piece has the ids of its characters |
| Tokenizer.Tokenizer.SpaceAndLetters | tokenizer/tokenizer.go:115-180 | with the vocabulary U+0100, U+0120, "a" and no merges, " ab" is 1, 2, 0, and 1, 2 decode to " a" |
| Tokenizer.Tokenizer.RoundTrip | tokenizer/tokenizer.go:115-180 | Decode of Encode is the text, byte for byte, on every input that pre-tokenization gets through |
| GgufCodec.TypedBack | gguf/gguf.go:402-448 | typed reads back every well-typed value, however deeply nested, and stops behind it |
| GgufCodec.Reencodes | gguf/gguf.go:402-448 | writing again whatever the reader accepts gives the bytes it consumed, when booleans are 0 or 1 |
| GgufCodec.TypedYields | gguf/gguf.go:402-448 | every value the reader accepts has the type that was asked for, and so do the elements of arrays |
| GgufCodec.TypedPrefix | gguf/gguf.go:333-448 | on a truncated file the reader agrees with the full read or fails |
| GgufLayout.LittleEndian | gguf/writer.go:193-196 | byte i of an integer is its digit i to base 256 |
| GgufLayout.TypeCodes | gguf/types.go:86-100 | the codes 0 to 12 of the value types, in the order of the format |
| GgufLayout.MinusTwo | gguf/writer.go:210-250 | -2 is written as FE in one byte and as FE FF in two |
| GgufFile.PowerTest | gguf/gguf.go:62-130 | a & (a-1) is 0 exactly for powers of two |
| GgufFile.AlignUpIs | gguf/gguf.go:132 | for a power of two, alignUp is the least multiple not below x |
| GgufFile.HeaderPrefix | gguf/gguf.go:62-130 | a truncated header parses to the same header or not at all |
| GgufFile.TruncationRejected | gguf/gguf.go:62-130 | a file cut off before the end of some tensor's data is never accepted |
| GgufLayout.AcceptedStart | gguf/gguf.go:62-75 | a file that Parse accepts, or on which it panics, starts with GGUF and has version 2 or 3 |
| GgufLayout.BlocksAgree | gguf/types.go:41-81 | the block sizes that Parse assumes for Q4_0, Q4_K and Q6_K are those that decoding takes |
| GgufRoundTrip.DataAt | gguf/writer.go:141-175 | the data section puts every tensor where its offset says |
| GgufRoundTrip.ParseUndoesWrite | gguf/gguf.go:62-130 | Parse of a written file recovers keys in order, every nested value, the alignment, and each tensor's name, shape, type, offset and exact bytes |
| GgufRoundTrip.ParsesExactly | gguf/gguf.go:62-130 | Parse accepts a written file of well-typed values if and only if its alignment is a power of two, no tensor has more than four dimensions and no two share a name; every other is an error |
| GgufRoundTrip.RoundTripExactly | gguf/gguf.go:62-130 | a written file comes back, keys, values, alignment and tensors, if and only if Parse accepts its layout and no array holds a value of another type than it announces |
| GgufRoundTrip.MixedArrayLost | gguf/writer.go:87-91 | an array of a byte and a string does not come back |
| GgufChunks.FileWritten | gguf/writer.go:141-175 | the single writes, one after the other, are the file, and all of them are made if and only if no value has an unknown type |
| GgufLayout.SampleFile | gguf/writer.go:141-175 | every byte of the file with one uint32 under the key "a" and one Q4_0 block named "t" |
| GgufLayout.SampleConsistent | gguf/writer.go:17-42 | without the key general.alignment the alignment is 32 |
| Buffered.CountedExactly | gguf/writer.go:141-192 | after any writes through the 4096-byte buffer, whether and at which count an error came, and what the output has, are given by the sizes of the writes and the output's room: a buffer that fails counts in full, a direct write as far as it got |
| Buffered.SmallNeverStops | gguf/writer.go:141-192 | writes that fit into the buffer do not fail before the last flush |
| GgufWriter.CountWriter.Raw | gguf/writer.go:184-192 | the bytes go to the buffer, the buffer to the output when it is full, and a longer write into an empty buffer to the output; after an error nothing goes anywhere |
| GgufWriter.CountWriter.Pad | gguf/writer.go:199-203 | zeros, written one by one, up to the next multiple; it never returns exactly after an error at an unaligned count |
| GgufWriter.CountWriter.Typed | gguf/writer.go:210-250 | the writes are those of the encoding of the value; a type the writer does not know is an error |
| GgufWriter.Writer.Set | gguf/writer.go:33-42 | a new key goes last, a repeated key keeps its place; general.alignment changes the alignment |
| GgufWriter.ElemsReverse | gguf/writer.go:103-125 | reversing the dimensions keeps the number of elements |
| GgufWriter.AcceptedFits | gguf/writer.go:103-125 | an accepted tensor without negative dimensions has exactly the bytes its stored dimensions announce |
| GgufWriter.Writer.AddTensor | gguf/writer.go:103-125 | a tensor is added, dimensions innermost first and wrapped to 64 bits, if and only if its type is known, its rows are whole blocks and its size is right in signed arithmetic; it divides by zero exactly for a known type and an innermost dimension of 0 |
| GgufWriter.NegativeDims | gguf/writer.go:103-125 | a float32 tensor of shape [-2, -4] and 32 bytes is stored |
| GgufWriter.ZeroInner | gguf/writer.go:103-125 | a float32 tensor of shape [0] and no data divides by zero |
| GgufWriter.Writer.WriteTo | gguf/writer.go:141-175 | it succeeds exactly when the output has room for the file and every value has a known type; never returns exactly when the first error leaves an unaligned count; divides by zero exactly for an alignment of 0; the count and the output are those of the file up to the first error |
| GgufWriter.ShortOutput | gguf/writer.go:199-203 | a tensor of 8192 bytes behind 64 bytes of header: on an output that takes 5 bytes WriteTo returns an error, on one that takes 4101 pad never returns |
| GgufWriter.SmallFileEnds | gguf/writer.go:141-175 | a file of at most 4096 bytes and known types never leaves pad spinning, whatever the output |
| GgufWriter.UnknownValue | gguf/writer.go:210-250 | with a value of type code 13 under a one-letter key pad never returns, whatever room the output has |
| GgufWriter.ZeroAlignment | gguf/writer.go:33-42 | after Set of general.alignment to 0, pad divides by it |
| GgufReader.Reader.Typed | gguf/gguf.go:402-448 | the recursive reader computes the decoding function and leaves the state it does |
| GgufReader.Parse | gguf/gguf.go:62-130 | the loops over metadata, tensor infos and tensor data compute the specified parse |
| GgufReader.WriteThenParse | gguf/writer.go:141-175 | what was set and added is written if the output has room and every type is known, and then Parse gives it back if and only if it accepts the layout and every value is well typed |
| HalfLaws.RoundsCorrectly | f16/f16.go:11-44 | every float32 but NaN becomes the nearest half, ties to even, or infinity exactly from 65520 in magnitude, with its sign |
| HalfLaws.NearestUnique | f16/f16.go:11-44 | there is only one such half |
| HalfLaws.OneAndTiny | f16/f16.go:11-69 | 0x3F800000 and 0x3C00 both have the value one, and From takes one to the other; half 1 is 2^-24 |
| HalfLaws.NanKept | f16/f16.go:11-44 | the result is a NaN exactly for a NaN |
| HalfLaws.Monotone | f16/f16.go:11-44 | From keeps order, infinities included |
| HalfLaws.ErrorBound | f16/f16.go:11-44 | below the overflow threshold the error is at most 2^-25 or a 2048th of the operand |
| HalfLaws.WidenedUnique | f16/f16.go:47-69 | sign, value and payload determine the widened float |
| HalfLaws.Float32 | f16/f16.go:47-69 | widening is exact: sign and value are kept, infinity stays, a NaN keeps its payload |
| HalfLaws.NarrowingUndoesWidening | f16/f16.go:11-69 | From(h.Float32()) is h for every half but NaN, and a NaN for a NaN |
| HalfLaws.ToFloat32 | f16/f16.go:72-76 | every element is widened exactly; the rest of dst is unchanged |
| HalfLaws.FromFloat32 | f16/f16.go:79-83 | every element is rounded; the rest of dst is unchanged |
| HalfLaws.SliceRoundTrip | f16/f16.go:72-83 | halves without NaN come back from float32 unchanged, at any length |
| Utf8Stream.HeldSplits | cmd/gollama/run.go:178-192 | the scan over the last four bytes finds the one suffix that is a partial character, of at most three bytes, or that there is none |
| Utf8Stream.PartialExactly | cmd/gollama/run.go:178-192 | what is held back as a partial character is exactly a proper beginning of an encoded scalar |
| Utf8Stream.HoldBack | cmd/gollama/run.go:180-189 | the loop computes where that suffix starts |
| Utf8Stream.ChunksDoNotMatter | cmd/gollama/run.go:178-192 | where the bytes are split depends on their concatenation, not on the chunks |
| Utf8Stream.NeverCutsARune | cmd/gollama/run.go:174-192 | whatever follows, valid UTF-8 or not, the runes of the whole text are those of the printed part and then those of the rest |
| Utf8Stream.EndsOnCharacter | cmd/gollama/run.go:174-192 | for a prefix of valid UTF-8 the printed part is whole characters, and less than one character waits |
| Utf8Stream.PartialRepaired | cmd/gollama/run.go:194-199 | what Flush finds pending becomes a single U+FFFD |
| Utf8Stream.Writer.Write | cmd/gollama/run.go:178-192 | printed plus pending grows by exactly the chunk, and at most three bytes stay pending |
| Utf8Stream.Writer.Flush | cmd/gollama/run.go:194-199 | nothing stays pending, and a partial character is printed as U+FFFD |

## Left out

- Rounding of float32 and float64 sums: reals are exact, so kernel and CPU twin agree exactly; NaN and infinite operands are not modelled outside `Half`.
- 32-bit index arithmetic of the kernels: indexes are unbounded, so a launch whose buffers exceed 2^31 elements is not covered.
- The interleaving of lanes inside a warp: lanes move in lockstep, as the shuffles require.
- `AttnKernel.EveryScheduleAttends`: demands kvLen > 0, because with no rows the kernel divides by a sum of zero; `Forward` always passes pos + 1.
- `RopeSpec.Rotated`: a frequency factor of zero gives an angle of zero here, where the source's quotient is infinite.
- `QuantKernels.Launch`: the warps of a matrix-vector launch run one after the other in any order; they share nothing but y, where `QuantKernels.WrittenOnce` gives each its own element.
- `QuantHost.Dequantize`: only the three quantized formats the kernels read, not the others (F32, F16, BF16, Q8_0, Q4_1, Q5_0, Q5_1 and the rest of `Dequantize`'s switch): the same shape with less packing.
- `QuantPacking.DecodesPacked`: the half-precision scale inside quantized blocks is a function of its two bytes; `Half` models its value separately.
- `ModelConfig.ConfigFrom`: the two floats of the metadata, the rotation base and eps, are not read.
- Add, MatVecF16 and MatVecF32, and the kernel of SiluMul: element-wise, or subsumed by the quantized products.
- `Decoder` takes the norms, matrix products, rotation and activation as any functions of their inputs, and attention as that of `AttnKernel`. `DequantizedNet` puts in those of the kernels for models whose matrices and embedding are in the three quantized formats, and the activation of the CPU backend.
- `Decoder.Model.Forward`: at a position past the history the logits are not stated, since the rows in between hold whatever was there.
- Weight upload, device memory, streams, CUDA driver calls and generated PTX; a device step that fails leaves arbitrary contents in its destination.
- Prompt templates, flags, timing and signal handling of `run`; decoding stops at any of a set of stop tokens.
- Unicode tables are abstract disjoint classes in which newlines are spaces and ASCII letters letters; lowering is ASCII lowering, so the long s and the Kelvin sign, which fold to ASCII letters, are left out.
- Vocabulary strings are sequences of runes, so a token whose text is not valid UTF-8 is not covered; missing vocabulary keys and malformed merges, which FromGGUF rejects, are not modelled.
- `GgufFile.AlignUpIs`: additions and products of sizes are unbounded, so the wrap-around of 64-bit sizes in hostile files is not modelled.
- `GgufWriter.Writer.AddTensor`: products beyond 64 bits are not modelled.
- `GgufWriter.Writer.WriteTo`: an output that takes a whole write and still reports an error, and one that already is a buffered writer of 4096 bytes or more, which is then used as it is, are not modelled.
- `GgufWriter.CountWriter.Typed`: a Value whose contents are not of the Go type its code names, at which the type assertion panics, is not modelled.
- `GgufRoundTrip.ParseUndoesWrite`: demands what `Writable` says; `GgufRoundTrip.RoundTripExactly` shows that of the encodable contents no others come back.
- `GgufRoundTrip.RoundTripExactly`: demands an alignment above 0, without which nothing is written, tensors without negative dimensions, and lengths that fit their fields.
- `GgufRoundTrip.ParsesExactly`: demands well-typed values too; what Parse makes of a file with others depends on the bytes that follow them.
- Conversions of Go values by toValue, the accessors of Value and File, WriteFile, Open, mmap and Close.
- The ollama package, the doctor command and everything ROADMAP.md only plans.
