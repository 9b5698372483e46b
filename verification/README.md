# vvemu-proofs

A model, in Dafny, of the parts of the repository where bytes and indices are moved about: the
convolutions and tensor kernels of the CUDA shim, the device arena and its saved form, kernel
launches, the call protocol between host library and guest agent, the message digests, the
instruction-fetch cursor, and the ZIP and tar readers. The loops of those parts are written as
loops here and proved against a specification that does not mention it; what the specification
promises is then proved for all inputs, all runs and all ways the outside world can behave.

`dafny verify dfyconfig.toml` checks everything.

## How it is laid out

- **Numbers and tensors.** `Division`, `Products`, `Sums`, `Segments` hold the arithmetic.
  `Convolution` says what forward and backward convolution are; `ConvolutionKernels` and
  `ConvolutionBackward` hold the loops; `ConvolutionEntries` says what the entry points leave in the fields of
  their descriptors; `Adjoint` proves that one is the transpose of the other.
  `MixedRadix`, `Layouts`, `Broadcasts`, `Joins` are the theory of flat indices, and
  `LayoutKernels`, `Broadcasts`, `JoinKernels`, `IndexKernels` the kernels that use it; `Coordinates` and `JoinedRows`
  say what they do by coordinates and by rows. Elements are exact reals or of any type.
- **The shim's state.** `Arena` and `BestFit` (allocation), `ShimFile` and `ShimLayout` (its bytes on disk), `Session`
  and `Descriptors` (runs with saves in between), `DeviceShim` (the class that does it). `Launch` copies and translates
  kernel arguments out of `GuestMemory`, `Signatures` and `Arguments` say which and how they arrive; `FetchCursor` reads
  instructions from it.
- **The call protocol.** `Frames` and `FrameLayout` are the format, `Channels` pipes that split or fail as they like,
  `HostLibrary` and `AgentProcess` the two ends, `CallRuns` whole runs of calls, and `Exchange` both
  ends as interleaved processes.
- **Digests and archives.** `Padding`, `DigestWords`, `Md5`, `Sha1`, `Sha256`, and what their parts and constants mean:
  `DigestFacts`, `DigestBlocks`, `DigestConstants`, `DigestSines`; `ZipReader`, `ZipArchives` and `ZipWriter`;
  `TarReader`, `TarArchives` and `TarFiles`.

## Where the code does less than one might think

- **A session saved before its arena was mapped cannot be resumed.** Reading a saved shim looks for the
  arena in the restored memory (`src/cudahost.cpp:464`, `x86_emu_cpp/src/memory.cpp:82`), and there is none until the
  first request for device memory. `Session.RestoredIfMapped` and `Session.ResumedIfMapped` say exactly when a
  session goes on after its saves; `Session.EarlySaveEndsSession` is one that does not.
- **An empty request can lose device memory.** The shim's own `cudaMalloc` never makes one: it asks for
  `n ? n : 1` (`src/cudaguest.c:122`), so only a guest that makes the host call itself reaches the allocator with 0.
  Such a request lives at the bump pointer with size 0. Once that block is freed, the next real block can start
  there, and reusing the empty one then overwrites the record of the real one. `Arena.EmptyRequestLosesBytes` gives
  the calls, and `Arena.AllocTiles` and `Arena.RunsTileExactly` say exactly when the arena stays tiled: while no
  empty block is reused whose offset is live (`Arena.Clobbers`). Blocks never overlap even so (`Arena.RunsKeepOrder`).
- **ScatterND stays inside its output exactly when no indexed extent is zero** (`IndexKernels.EverySliceFits`):
  clamping to `extent - 1` gives -1 when the extent is 0, and `IndexKernels.EmptyAxisMisses` is such a call.
- **A failed malloc in `rpc` leaves an answer half read.** The call returns with the agent still up.
  The stream is then at the end of a frame exactly when the blob that could not be allocated is the last one and empty
  (`CallRuns.LossKeepsStep`); otherwise the next call takes the unread bytes for its answer
  (`CallRuns.LossIsMisread`, and concretely `CallRuns.WrongAnswer`). After any other failure the agent is given up on for good.
- **The agent takes a stream that ends within the first eight bytes of a request for an orderly
  end** (`AgentProcess.ExitCode`), not for a malformed request.
- **A ZIP end record is found exactly when nothing after it looks like one** (`ZipArchives.EndRecordIsLast`), so an
  archive comment can hide it: `ZipWriter.HiddenByComment` is a well-formed archive of which nothing is found.
- **A ZIP member that is compressed is refused, and one that is stored but encrypted is handed out as it stands**, up to
  its size (`ZipArchives.MemberIsGiven`): the reader does not look at the encryption flag.
- **The tar reader takes the size field of any member for the size of its contents.** In a ustar archive directories,
  links, devices and FIFOs have no contents, whatever the field says: a directory's is a limit. The reader gets to
  the next header exactly when the size of such a member is 0 (`TarArchives.LeadsToNext`); otherwise it can pass
  over files (`TarArchives.LimitHidesFile`).
- **A tar member of type '7' is not reported.** The ustar format lets a reader take such a contiguous file for a regular
  one; this one passes over it, and it does not count as regular in `TarArchives.Files`.
- **The tar reader does not advance on a size of -512 or less** (`TarReader.AdvancesIf`): a header whose size
  field reads `-1000` is visited for ever (`TarArchives.StaysForEver`).
- **Length fields are 64 bits**: padding can be undone exactly for messages under 2^61 bytes
  (`Padding.PaddingIsUndone`).

## Model

| member | source | states |
|---|---|---|
| ConvolutionKernels.As1D | src/cudnn_real.cpp:89-115 | which descriptors reduce to batch, channels and one extent, and that the reduction keeps the element count and names the slot the extent came from |
| ConvolutionKernels.CountTaps | src/cudnn_real.cpp:315-317 | the loop multiplies the filter dimensions from the third on |
| Convolution.ForwardEntry | src/cudnn_real.cpp:402-416 | each output element in a group is beta times what was there plus alpha times the sum, over input channels and taps, of weight times input with zero outside |
| Convolution.BackwardEntry | src/cudnn_real.cpp:456-479 | each input-gradient element is beta times what was there plus alpha times the sum over the outputs and taps that hit it |
| Convolution.Position | src/cudnn_real.cpp:364-365 | a flat position gives back its batch item, channel and offset, and lies inside the tensor |
| ConvolutionForms.TapByTap | src/cudnn_real.cpp:369-398 | summing tap by tap gives the direct sum over channels and taps |
| ConvolutionForms.OutsideTap | src/cudnn_real.cpp:383-388 | a tap that falls outside the input contributes nothing |
| ConvolutionForms.ColumnProduct | src/cudnn_real.cpp:402-410 | a row of the filter times the unrolled input is the direct sum |
| ConvolutionKernels.ClipExact | src/cudnn_real.cpp:384-388 | an output position is in the clipped range of a tap exactly when the tap reads inside the input |
| ConvolutionKernels.TapClipped | src/cudnn_real.cpp:384-388 | outside the clipped range, or when it is empty, the tap adds zero |
| ConvolutionKernels.GroupTap | src/cudnn_real.cpp:382-398 | one tap of the fast path adds its clipped, shifted block to every output row of the group and changes nothing else |
| ConvolutionKernels.GroupByTaps | src/cudnn_real.cpp:369-400 | the stride-1 path leaves exactly the direct convolution in the segment of the group, and nothing else changed |
| ConvolutionKernels.Im2Col | src/cudnn_real.cpp:120-132 | the unrolled matrix holds, at every output position and (channel, tap), the input element or zero outside it |
| ConvolutionKernels.Multiply | src/cudnn_real.cpp:406-410 | the product of filter block and unrolled input |
| ConvolutionKernels.Blend | src/cudnn_real.cpp:412-416 | beta times the old output plus alpha times the product, over the whole segment and only there |
| ConvolutionKernels.GroupByColumns | src/cudnn_real.cpp:402-416 | the im2col path leaves the same direct convolution in the segment as the stride-1 path |
| ConvolutionKernels.ForwardBatch | src/cudnn_real.cpp:360-419 | over all items and groups, whichever path is taken, the output is the specified tensor |
| ConvolutionKernels.ConvolutionForward | src/cudnn_real.cpp:299-420 | the entry point: which calls are refused, unchanged; otherwise y is alpha conv(x, w) + beta y |
| ConvolutionBackward.HitsScaled | src/cudnn_real.cpp:471-477 | scaling each output before scattering is scaling what arrives |
| ConvolutionBackward.NothingHit | src/cudnn_real.cpp:473 | skipping an output that scales to zero loses nothing |
| ConvolutionBackward.ScatterInto | src/cudnn_real.cpp:471-478 | scattering one output row through one filter row adds to every input element just what hits it |
| ConvolutionBackward.ChannelSum | src/cudnn_real.cpp:461-480 | the rounds over output rows add up to the specified sum |
| ConvolutionBackward.GroupBackward | src/cudnn_real.cpp:463-480 | one group scatters exactly its specified contribution into its own segment |
| ConvolutionBackward.BackwardBatch | src/cudnn_real.cpp:454-480 | over all items and groups, dx is beta dx plus the transposed convolution |
| ConvolutionBackward.ConvolutionBackwardData | src/cudnn_real.cpp:425-482 | the entry point: which calls are refused, unchanged; otherwise dx is the specified tensor |
| ConvolutionEntries.TapsListed | src/cudnn_real.cpp:315-317 | the taps of filters of the usual ranks |
| ConvolutionEntries.ForwardInFields | src/cudnn_real.cpp:306-419 | what the forward entry point leaves, in descriptor fields: beta y plus alpha times the sum over the channels of the group and the taps of filter element times input element, tap t at output position o reading input position o * stride - pad + t * dilation, at the slot of the extent, with the groups and defaults written out |
| ConvolutionEntries.BackwardInFields | src/cudnn_real.cpp:433-481 | the same of the backward entry point: filter element times dy element for just the positions o and taps t with o * stride - pad + t * dilation equal to the position in dx |
| ConvolutionEntries.ForwardElsewhere | src/cudnn_real.cpp:360-366 | channels of y past the last group, and items x does not have, are left alone |
| ConvolutionEntries.BackwardElsewhere | src/cudnn_real.cpp:448-455 | those of dx are only scaled |
| ConvolutionEntries.ImpulseLands | src/cudnn_real.cpp:471-478 | a single element of dy goes through tap t to o * stride - pad + t * dilation in every channel of its group, and nowhere else |
| ConvolutionEntries.Upsampling | src/cudnn_real.cpp:471-478 | upsampling one element by a stride of 2 with four taps and padding 1 gives the middle two |
| Adjoint.RowAdjoint | src/cudnn_real.cpp:471-478 | correlating a row with a filter and scattering with it are adjoint, for every pad, stride, dilation and clipping |
| Adjoint.GroupAdjoint | src/cudnn_real.cpp:463-480 | the same over the channels of a group |
| Adjoint.TransposeIsAdjoint | src/cudnn_real.cpp:360-481 | sum of forward(x) times dy equals sum of x times backward(dy), for every shape whose groups cover its channels |
| Adjoint.EntryPointsAreAdjoint | src/cudnn_real.cpp:360-481 | the same for the two entry points handed the same descriptors |
| LayoutKernels.DivMod | src/cudakernels.c:98-101 | quotient and remainder, with the remainder below the divisor |
| MixedRadix.FlatBelow | src/cudakernels.c:642-651 | in-range coordinates give a flat index below the volume |
| MixedRadix.WalkFlat | src/cudakernels.c:642-651 | peeling a flat index gives coordinates that are in range and recompose to it |
| MixedRadix.FlatWalk | src/cudakernels.c:642-651 | peeling the flat index of in-range coordinates gives those coordinates back |
| MixedRadix.DotPermuted | src/cudakernels.c:807-831 | a sum of products does not change when coordinates and strides are permuted together |
| LayoutKernels.Locate | src/cudakernels.c:646-652 | the divmod loop computes the source index |
| LayoutKernels.Expand | src/cudakernels.c:632-656 | the output is the gather through the strides; more than eight axes is refused with nothing written |
| LayoutKernels.Transpose | src/cudakernels.c:807-831 | the output is the gather through the permuted strides; more than eight axes is refused |
| LayoutKernels.Expand2D | src/cudakernels.c:610-628 | the two-axis kernel is the general gather with two axes |
| LayoutKernels.TwoAxes | src/cudakernels.c:610-628 | what the general walk computes for two axes |
| Layouts.ExpandBroadcasts | src/cudakernels.c:632-656 | expanding repeats the input along every axis of extent one, for every rank and any extents |
| Layouts.TransposeMoves | src/cudakernels.c:807-831 | the element at coordinates c ends at the permuted coordinates |
| Layouts.TransposeUndone | src/cudakernels.c:807-831 | transposing by a permutation and then by its inverse gives the tensor back, empty tensors included |
| LayoutKernels.LocateSlice | src/cudakernels.c:851-858 | the loop computes start plus step times coordinate along every axis |
| LayoutKernels.Slice | src/cudakernels.c:839-865 | the output is the slice; no axes or more than eight is refused with nothing written |
| Layouts.SliceInRange | src/cudakernels.c:839-865 | a slice whose coordinates land inside reads inside |
| Layouts.SliceMoves | src/cudakernels.c:839-865 | the element at coordinates c of a slice is the input's at start + step c |
| Layouts.SlicesCompose | src/cudakernels.c:839-865 | slicing a slice is one slice, with start s1 + t1 s2 and step t1 t2, negative steps and empty tensors included |
| Coordinates.FlatAppend | src/cudakernels.c:642-651 | neighbours along the last axis are neighbours in memory: one axis more multiplies the flat position by its extent and adds the coordinate |
| Coordinates.ExpandMeans | src/cudakernels.c:632-656 | element c of an expanded tensor is the input's with 0 for the coordinates of axes of extent 1 |
| Coordinates.TransposeMeans | src/cudakernels.c:807-831 | axis k of the transpose is axis perm[k] of the tensor |
| Coordinates.SliceMeans | src/cudakernels.c:839-865 | element c of a slice is the input's at starts[k] + steps[k] c[k] along every axis |
| Broadcasts.LocateBoth | src/cudakernels.c:523-533 | one walk finds both operands, each walked or direct as its flag says |
| Broadcasts.BinaryGeneral | src/cudakernels.c:501-538 | the fused kernel writes the operator applied to the two expanded operands |
| Broadcasts.BinarySimple | src/cudakernels.c:425-443 | the simple kernel is the same with operands read directly or as scalars |
| Broadcasts.BinaryRhsBatch1 | src/cudakernels.c:448-464 | the per-channel kernel is the general one with the right operand expanded along the last axis |
| Broadcasts.BinaryRhsBatchN | src/cudakernels.c:468-488 | the per-channel kernel with a batch is the general one with the right operand expanded along batch and last axis |
| Broadcasts.ChannelWraps | src/cudakernels.c:468-488 | two divmods give the channel whatever the batch |
| Broadcasts.ScalarIsExpanded | src/cudakernels.c:425-443 | a scalar operand is one expanded through zero strides |
| Broadcasts.DirectIsExpanded | src/cudakernels.c:425-443 | a direct operand is one expanded through row-major strides |
| Broadcasts.LocateThree | src/cudakernels.c:565-590 | one walk finds all three operands |
| Broadcasts.Tenary | src/cudakernels.c:546-601 | the fused select writes, element by element, the value of the operand the condition chooses, wherever that one can be read |
| Broadcasts.ChosenIsWhere | src/cudakernels.c:546-601 | when all three operands can be read throughout, that is the choice between their expansions |
| Coordinates.BinaryMeans | src/cudakernels.c:501-538 | element c of a fused result is the operator of the two operands' elements, each with 0 for the coordinates of its axes of extent 1 |
| Coordinates.BinaryPlain | src/cudakernels.c:425-443 | and with operands read position for position, or as one value |
| Coordinates.ChannelMeans | src/cudakernels.c:448-488 | the right operand at item b, channel ch and any position is element ch |
| Coordinates.WhereMeans | src/cudakernels.c:546-601 | element c of a fused select is the first operand's where the condition holds, and else the second's |
| Joins.PieceUnique | src/cudakernels.c:714-742 | a block of the joined axis belongs to one input |
| Joins.SourceThenTarget | src/cudakernels.c:714-742 | the output position of the input position an output position reads is itself |
| Joins.TargetThenSource | src/cudakernels.c:714-742 | the input position that an input position's output reads is itself: the two maps are inverse bijections |
| Joins.SameIsJoin | src/cudakernels.c:749-776 | with equal extents the arithmetic of the special kernel finds the same input and position as the tables |
| Joins.RepeatTables | src/cudakernels.c:714-742 | equal extents have tables as the general kernel demands |
| JoinKernels.Concat | src/cudakernels.c:714-742 | the general concatenation writes the joined tensor |
| JoinKernels.ConcatSame | src/cudakernels.c:749-776 | the equal-extent concatenation writes the joined tensor |
| JoinKernels.JoinedWithTables | src/cudakernels.c:714-776 | with equal extents both concatenations give the same output |
| JoinedRows.JoinedRow | src/cudakernels.c:714-742 | every row of the joined tensor is the rows of the pieces, one behind the other |
| JoinKernels.SplitSame | src/cudakernels.c:779-803 | every piece receives its elements and nothing outside its first n |
| JoinKernels.SplitComplete | src/cudakernels.c:779-803 | run over the whole input, the pieces hold exactly the split tensor |
| JoinKernels.SplitThenJoin | src/cudakernels.c:749-803 | joining what was split gives the input back |
| JoinKernels.JoinThenSplit | src/cudakernels.c:749-803 | splitting what was joined gives the pieces back |
| IndexKernels.Gather | src/cudakernels.c:674-704 | the gathered tensor, negative indices counting from the end and an index out of range giving a zero |
| IndexKernels.GatherMeans | src/cudakernels.c:674-704 | in coordinates: element (outer, k, inner) is input (outer, indices[k], inner), or a zero |
| IndexKernels.GatherReadsRow | src/cudakernels.c:686-701 | in integers: 0 <= i < max reads row i, -max <= i < 0 row max + i, and anything else gives the zero |
| IndexKernels.ClampInside | src/cudakernels.c:889-896 | clamping lands inside an extent exactly when the extent is not zero |
| IndexKernels.SliceInside | src/cudakernels.c:882-902 | the slice an index row selects lies inside a row-major output exactly when no indexed extent is zero, whatever the indices |
| IndexKernels.EverySliceFits | src/cudakernels.c:874-903 | over a whole call: whatever the index tensor, all slices lie inside the output if and only if no indexed extent is zero |
| IndexKernels.EmptyAxisMisses | src/cudakernels.c:889-896 | one update into an axis of extent 0, which would go in front of the output |
| IndexKernels.ScatterND | src/cudakernels.c:874-903 | the updates are written in order, each to the slice its clamped index row selects |
| IndexKernels.ScatterLeaves | src/cudakernels.c:874-903 | a position no slice covers is left as it was |
| IndexKernels.ScatterHolds | src/cudakernels.c:874-903 | a slice no later one overlaps holds its update |
| IndexKernels.UpdateGoesTo | src/cudakernels.c:886-902 | in integers: 0 <= i < extent goes to i, -extent <= i < 0 to extent + i, i >= extent to the last, i < -extent to 0, axis by axis |
| IndexKernels.ScatterReaches | src/cudakernels.c:882-902 | and the output there is the update's element, unless a later update goes over it |
| IndexKernels.ScatterThenGather | src/cudakernels.c:674-903 | gathering at distinct in-range indices of one axis, negative ones included, reads back exactly the updates |
| IndexKernels.ScatterThenGatherRows | src/cudakernels.c:674-903 | along any number of axes: when the index rows name different coordinates of a row-major output, gathering those rows reads back exactly the updates |
| Arena.Initialised | src/cudahost.cpp:128-147 | the arena is there exactly when it has a size: it gets one when first needed if the mapping works, keeps it for good, and nothing else about it changes |
| Arena.AllocTiles | src/cudahost.cpp:166-188 | an allocation keeps live and free blocks tiling the used part exactly, with no overlap and no lost byte, if and only if it does not put a reused block where one is live |
| Arena.RealRequestsAreSafe | src/cudahost.cpp:166-188 | a request for at least one byte never does |
| Arena.AllocGives | src/cudahost.cpp:166-188 | an allocation answers null and changes nothing, or adds one live block of between one and two times the rounded request, moving no other |
| Arena.AllocIsFresh | src/cudahost.cpp:166-188 | the bytes handed out are inside the arena and no live block holds them |
| Arena.AllocStarts | src/cudahost.cpp:166-188 | a block handed out starts where another is live only if one of the two is empty |
| BestFit.GivenBest | src/cudahost.cpp:166-176 | a request is given the first of the smallest free blocks that hold it in at most twice its rounded size, and no more of the arena is used |
| BestFit.GivenNew | src/cudahost.cpp:177-188 | if there is none, the bytes behind all that was handed out if they suffice, else null with nothing changed |
| BestFit.BestOrNone | src/cudahost.cpp:169-170 | one of the two is the case |
| BestFit.NoRoom | src/cudahost.cpp:128-147 | null, and nothing changed, if the arena cannot be mapped |
| BestFit.ReturnedLast | src/cudahost.cpp:190-197 | a block is returned behind every free one that is no larger |
| BestFit.FreedIsReused | src/cudahost.cpp:166-197 | freeing a block and asking for as much gives it back and leaves the arena as it was, if no other free block has its size |
| BestFit.RunsReuse | src/cudahost.cpp:166-197 | and so behind every run |
| Arena.RequestKeepsOrder | src/cudahost.cpp:166-188 | after any request, an empty one too: no two blocks overlap or are recorded twice, sizes and offsets are multiples of 256, the free list is sorted, the used part is within the arena |
| Arena.FreeExact | src/cudahost.cpp:190-197 | freeing changes something exactly when handed the start of a live block, and then moves that block only |
| Arena.FreeTiles | src/cudahost.cpp:190-197 | freeing keeps the tiling |
| Arena.ReturnKeepsOrder | src/cudahost.cpp:190-197 | and so after any free |
| Arena.RunsKeepOrder | src/cudahost.cpp:166-197 | and so after every sequence of requests, empty ones among them, and frees |
| Arena.RunsTile | src/cudahost.cpp:166-197 | after every sequence of real requests and frees live and free blocks tile the used part, none of them empty |
| Arena.RunsTileExactly | src/cudahost.cpp:166-197 | for sequences with empty requests too: tiled throughout if and only if no step clobbers a live block |
| Arena.RunsFitRequests | src/cudahost.cpp:166-197 | after every run, empty requests included, each live block holds between one and two times the rounded request it was last handed out for |
| Arena.EmptyRequestLosesBytes | src/cudahost.cpp:166-188 | four calls, one of them for zero bytes, after which bytes belong to no block |
| ShimFile.SavedIsRead | src/cudahost.cpp:418-513 | reading a saved shim gives it back to the last field: used size, free blocks in order even among equal sizes, live blocks, next handle, descriptors with their bytes |
| ShimFile.ReadExtends | src/cudahost.cpp:444-513 | what is read does not depend on what follows |
| ShimFile.TruncatedIsRefused | src/cudahost.cpp:444-513 | every strict prefix of a saved file is refused |
| ShimLayout.SavedIsLaidOut | src/cudahost.cpp:418-442 | the file is the magic and then 64-bit words in this order: size, used, the free blocks with size before offset, the live ones by offset, next handle, and the descriptors by handle with kind, size and fields |
| ShimLayout.WordOfSaved | src/cudahost.cpp:418-442 | word k of them is at byte 8 + 8 k, its lowest byte first |
| ShimLayout.MagicIsNeeded | src/cudahost.cpp:448-453 | a file with another magic is refused |
| ShimLayout.KindIsNeeded | src/cudahost.cpp:494-501 | so is a descriptor of another kind, or with another size than its kind has |
| Session.SoundIsStorable | src/cudahost.cpp:418-442 | everything a session can come to hold fits the file's 64-bit fields |
| Session.RestoredIfMapped | src/cudahost.cpp:418-513 | a saved session is restored if and only if its arena had been mapped, and then it is the same to the last field |
| Session.StepKeepsSound | src/cudahost.cpp:166-229 | every call keeps the state sound; the one that ends the session is a save before the arena was mapped |
| Session.ResumedIfMapped | src/cudahost.cpp:444-513 | a session is resumed after all its saves if and only if the arena is mapped before the first |
| Session.SavingIsInvisible | src/cudahost.cpp:418-513 | and then every other call gets the answer it would have got without the saves, and the session ends in the same state |
| Session.EarlySaveEndsSession | src/cudahost.cpp:464-472 | a session of three calls that ends at its save |
| Session.HandlesIncrease | src/cudahost.cpp:215-229 | no handle is issued twice, however often the session is saved and restored, as far as it gets |
| Descriptors.Lookup | src/cudahost.cpp:218-229 | what a handle leads to after a call: what was created or set, nothing once destroyed, else what it did before |
| Descriptors.TensorDefault | src/cudnn_real.cpp:44-61 | a new tensor's and filter's fields are 18 and 11 integers, all 0 |
| Descriptors.ConvolutionDefault | src/cudnn_real.cpp:63-70 | a new convolution's are 15, the first five 0 and the others 1 |
| DeviceShim.DeviceShim.ArenaInit | src/cudahost.cpp:128-147 | maps the arena once, of the default or the asked size, or reports failure with none |
| DeviceShim.DeviceShim.Allocate | src/cudahost.cpp:166-188 | best fit within twice the request, else bump, else null: the allocation specified |
| DeviceShim.DeviceShim.Deallocate | src/cudahost.cpp:190-197 | the free specified |
| DeviceShim.DeviceShim.RememberDescriptor | src/cudahost.cpp:218-222 | enters a descriptor under the next handle |
| DeviceShim.DeviceShim.ForgetDescriptor | src/cudahost.cpp:229 | removes one |
| DeviceShim.DeviceShim.Write | src/cudahost.cpp:418-442 | writes the saved form of the whole state |
| DeviceShim.DeviceShim.Load | src/cudahost.cpp:444-513 | succeeds exactly on what parses and whose arena the restored memory holds, and then holds what was parsed |
| DeviceShim.SaveThenLoad | src/cudahost.cpp:418-513 | a shim that loads what another wrote succeeds exactly if that one had an arena, and then is in the same state |
| Launch.TableIsSane | src/cudakernels.c:1033-1066 | every kernel row marks only arguments it has, and none as both a pointer and an array |
| Signatures.TableIsRight | src/cudakernels.c:1033-1066 | every row marks exactly the addresses and the arrays of addresses in its kernel's signature |
| Launch.KernelLayout | src/cudakernels.c:1077-1087 | the first row whose key occurs in the name, or nothing |
| Launch.MappedIsReadable | src/cudahost.cpp:264-277 | the mapped stretch is exactly what can be read |
| Launch.GuestReadTolerant | src/cudahost.cpp:264-277 | copies exactly the longest mapped stretch up to what is wanted, over any page layout, and touches nothing else |
| Launch.Translate | src/cudahost.cpp:320-329 | a whole word that is a device address becomes its host address; any other, and every other byte, stays |
| Launch.TranslateArray | src/cudahost.cpp:355-367 | of an array argument exactly the words its clamped count covers, and that came over whole, are translated |
| Launch.FillSlot | src/cudahost.cpp:341-368 | the slot holds the guest's bytes as far as they are mapped, zeros after, with exactly the marked words translated |
| Launch.Marshal | src/cudahost.cpp:341-370 | every argument of the list ends so in its own slot; it faults exactly when a pointer to an argument cannot be read |
| Launch.Launch | src/cudahost.cpp:331-371 | a name is unknown exactly when no row serves it; otherwise the kernel is handed what its row says |
| Launch.PointerReachesArena | src/cudahost.cpp:320-354 | what the kernel sees in a pointer argument is the host address of the byte the guest meant |
| Launch.ElementReachesArena | src/cudahost.cpp:355-367 | and in each counted element of an array argument |
| Launch.ScalarsStay | src/cudahost.cpp:341-354 | a scalar arrives as it was, whatever it looks like |
| Arguments.ElementArrives | src/cudahost.cpp:355-367 | with the count the signed value of the first four bytes: element k that came over whole is the host address if k is below the count and below 32 and it is a device address, and else what the guest left |
| Arguments.CountArrives | src/cudahost.cpp:355-367 | the count itself arrives as it was |
| Arguments.BrokenWordArrives | src/cudahost.cpp:341-367 | of a word that did not come over whole, as much as did, and zeros |
| Arguments.ArgumentIsPointedTo | src/cudahost.cpp:341-342 | the argument list is one of eight-byte addresses |
| Arguments.ArgumentsAreApart | src/cudahost.cpp:335-343 | the arguments are 288 bytes apart, in order |
| GuestMemory.OnePage | x86_emu_cpp/src/memory.h:266-272 | a stretch on one page is a slice of it |
| GuestMemory.BytesSplit | x86_emu_cpp/src/memory.cpp:119-135 | reading in two parts is reading the whole |
| GuestMemory.Read | x86_emu_cpp/src/memory.cpp:119-135 | the page-by-page loop reads what byte-by-byte reading does, or fails when it does |
| GuestMemory.ReadInt | x86_emu_cpp/src/memory.h:266-277 | an integer is the little-endian value of those bytes, on one page or across two |
| FetchCursor.Cpu.CodeDrop | x86_emu_cpp/src/cpu.h:254 | an empty cursor |
| FetchCursor.Cpu.CodeWindow | x86_emu_cpp/src/memory.h:114-118 | the cursor is put at rip in its page, up to the page's end, or the page is not mapped |
| FetchCursor.Cpu.Peek8 | x86_emu_cpp/src/cpu.h:259-263 | the byte at rip, and the cursor there |
| FetchCursor.Cpu.Skip8 | x86_emu_cpp/src/cpu.h:264 | rip and the cursor move on together |
| FetchCursor.Cpu.Fetch8 | x86_emu_cpp/src/cpu.h:266-274 | the byte at rip, and rip past it; the cursor still addresses rip and ends at its page's end |
| FetchCursor.Cpu.FetchWide | x86_emu_cpp/src/cpu.h:280-291 | the little-endian value at rip, from the cursor or across the page boundary, and the cursor dropped in that case |
| FetchCursor.Cpu.Run | x86_emu_cpp/src/cpu.h:241-294 | any mix of fetches and peek-then-skip returns what byte-by-byte reading at rip would, across any number of pages, with rip advanced by the total width |
| Frames.EncodedIsParsed | src/vvrpc.h:15-20 | a frame within the limits is read back whole, and no further, whatever follows it |
| Frames.ParsedIsEncoded | src/vvrpc.h:15-20 | whatever is read was within the limits and is exactly what that frame is written as |
| Frames.SplitOnce | src/vvrpc.h:15-20 | a stream splits into frames in one way only |
| FrameLayout.HeadIsLaidOut | src/vvrpc.h:15-20 | a frame's first number is in bytes 0 to 3 and the number of its blobs in bytes 4 to 7, lowest first |
| FrameLayout.ScalarIsLaidOut | src/vvrpc.h:15-20 | scalar k is in the eight bytes from 8 + 8 k on |
| FrameLayout.BlobsAreLaidOut | src/vvrpc.h:15-20 | then every blob behind its length in four bytes, and nothing else |
| FrameLayout.LimitsAre | src/vvrpc.h:120-123 | up to three blobs of up to 2^28 bytes are read back |
| FrameLayout.TooManyAreRefused | src/vvrpc.h:120 | more than three blobs are refused |
| Channels.Channel.ReadAll | src/vvagent.c:22-32 | all the bytes asked for, in order, however read splits them; 0 only at the end of the stream |
| Channels.Channel.WriteAll | src/vvagent.c:34-43 | all the bytes, in order, however write splits them; on failure a strict prefix |
| Channels.SendFrame | src/vvagent.c:81-99 | the frame's bytes exactly, or a strict prefix of them |
| HostLibrary.Host.AgentStart | src/vvhost.c:232-242 | starts the agent once, never after it was given up on; failure to start gives it up |
| HostLibrary.Host.Malloc | src/vvhost.c:414-415 | a block that was not allocated, or nothing |
| HostLibrary.Host.FreeBlobs | src/vvhost.c:405-422 | frees exactly the first blobs |
| HostLibrary.Host.ReadBlob | src/vvhost.c:403-431 | one blob with its terminator in a new block; what each failure leaves allocated |
| HostLibrary.Host.ReadBlobs | src/vvhost.c:403-431 | all the blobs, or everything allocated for them freed again |
| HostLibrary.Host.ReadHead | src/vvhost.c:388-402 | the head and scalars, or a malformed or missing answer |
| HostLibrary.Host.Rpc | src/vvhost.c:365-434 | the lock is released on every return; success is exactly the next frame, with exactly its blobs allocated; failure leaves nothing allocated, and the agent given up on unless memory ran out; with no failure it succeeds exactly on well-formed answers |
| HostLibrary.Host.FreeResponse | src/vvhost.c:437-440 | frees exactly the response's blobs |
| HostLibrary.GivenMeans | src/vvhost.c:363-434 | what a response owns: blocks of its own, holding its blobs with a terminator, and nothing else was allocated |
| AgentProcess.Agent.ReadBlob | src/vvagent.c:60-67 | one blob, or the reason there is none |
| AgentProcess.Agent.ReadRequest | src/vvagent.c:54-70 | the next frame; 0 exactly when the stream ends within its first eight bytes; -1 when it is malformed or cut off |
| AgentProcess.Agent.Serve | src/vvagent.c:479-505 | serves exactly the requests the stream asks for, in order, writes exactly their answers, and exits with the code the stream deserves |
| AgentProcess.RequestsAreServed | src/vvagent.c:479-505 | a stream of requests asks for just those, whatever comes after them |
| AgentProcess.ExitsWith | src/vvagent.c:479-505 | the exit code of a stream of requests: 0 if it ends with one to quit or with fewer than eight bytes more, 1 if what follows is no request |
| CallRuns.BrokenIsFinal | src/vvhost.c:232-240 | over every run: once given up on, nothing is written, read or started again, and every call fails |
| CallRuns.AnsweredInOrder | src/vvhost.c:363-434 | while calls succeed, what was sent is their requests and what was read their answers, frame by frame, nothing left over |
| CallRuns.AnsweredThenFailed | src/vvhost.c:363-434 | a run without losses is answered up to some call and fails from there |
| CallRuns.CallersAreToldTheAnswers | src/vvhost.c:363-434 | when the agent serves what the host sent, callers are told exactly the library's answers, in order, and the stream is at the end of a frame |
| CallRuns.LossKeepsStep | src/vvhost.c:415-420 | when memory runs out the stream stays in step exactly when the blob was the last and empty |
| CallRuns.LossIsMisread | src/vvhost.c:415-420 | otherwise the next call's answer is whatever frame the abandoned blob held |
| CallRuns.WrongAnswer | src/vvhost.c:415-420 | a run of two calls in which that happens |
| Exchange.FrameNeed | src/vvagent.c:54-70 | fed any part of a frame, a reader asks for more, but never for more than is left of it |
| Exchange.StepKeeps | src/vvhost.c:323-434 | in every interleaving, a request or its answer is spread in order over writer, pipe and reader, with nothing else under way |
| Exchange.EveryRunIsExact | src/vvagent.c:479-505 | over every interleaving and every way to split reads and writes: requests served are those made, in order; callers are told their answers; between calls both pipes are empty and both ends at the start of a frame |
| Exchange.NeverStuck | src/vvhost.c:363-434 | while a call is under way some process can move, however little the pipes hold |
| Exchange.EveryStepCounts | src/vvhost.c:363-434 | and every move brings its answer closer |
| Padding.Pad | x86_emu_cpp/src/digest.h:36-46 | the message, a byte 0x80, zeros and the length in bits |
| Padding.Zeros | x86_emu_cpp/src/digest.h:40 | as few zeros as bring it to 56 bytes into a block |
| Padding.WholeBlocks | x86_emu_cpp/src/digest.h:36-46 | whole 64-byte blocks |
| Padding.PaddingIsUndone | x86_emu_cpp/src/digest.h:36-46 | the message can be had back from it if and only if it is shorter than 2^61 bytes |
| DigestFacts.PaddedIs | x86_emu_cpp/src/digest.h:36-41 | byte by byte: the message, 0x80, fewer than 64 zeros, whole blocks of 64 |
| DigestFacts.LengthIs | x86_emu_cpp/src/digest.h:42-45 | and the length in bits modulo 2^64, lowest byte first for MD5, highest first for the others |
| DigestWords.RotateLeft | x86_emu_cpp/src/digest.h:31 | two shifts make a circular shift |
| DigestWords.RotateRight | x86_emu_cpp/src/digest.h:32 | likewise to the right |
| DigestFacts.ShiftLeftMultiplies | x86_emu_cpp/src/digest.h:31 | shifting left multiplies by 2^n modulo 2^32 |
| DigestFacts.ShiftRightDivides | x86_emu_cpp/src/digest.h:32 | shifting right divides by 2^n |
| DigestFacts.ChoiceIs | x86_emu_cpp/src/digest.h:75-79 | the choosing functions of all three, bit by bit |
| DigestFacts.MajorityIs | x86_emu_cpp/src/digest.h:183 | majority, bit by bit |
| DigestFacts.ParityIs | x86_emu_cpp/src/digest.h:80-86 | parity, and MD5's I, bit by bit |
| DigestFacts.UpperSigma0Is | x86_emu_cpp/src/digest.h:182 | the sum of rotations by 2, 13 and 22, bit by bit |
| DigestFacts.UpperSigma1Is | x86_emu_cpp/src/digest.h:178 | by 6, 11 and 25 |
| DigestFacts.LowerSigma0Is | x86_emu_cpp/src/digest.h:171 | by 7 and 18 and a shift by 3 |
| DigestFacts.LowerSigma1Is | x86_emu_cpp/src/digest.h:172 | by 17 and 19 and a shift by 10 |
| DigestWords.AddAssociates | x86_emu_cpp/src/digest.h:173 | addition modulo 2^32 may be regrouped |
| DigestWords.WordOutIsRead | x86_emu_cpp/src/digest.h:98-100 | a word written out in either byte order reads back as itself |
| DigestWords.Output | x86_emu_cpp/src/digest.h:143-146 | the digest's bytes are those of its words |
| Md5.TurnIsOperation | x86_emu_cpp/src/digest.h:87-91 | one turn of the loop, which renames all four registers, is one operation of section 3.4 of RFC 1321, which changes one of them in place |
| Md5.PlacesAreListed | x86_emu_cpp/src/digest.h:73-86 | the index formulas give the words RFC 1321 lists |
| Md5.TurnsAreListed | x86_emu_cpp/src/digest.h:61-64 | the shift table gives the shifts of each round |
| Md5.RoundsInPlace | x86_emu_cpp/src/digest.h:70-92 | the 64 turns are the 64 operations |
| Md5.Compute | x86_emu_cpp/src/digest.h:48-102 | the digest of section 3.4 of RFC 1321, for every message |
| DigestBlocks.Md5TakesBlocks | x86_emu_cpp/src/digest.h:65-68 | the hash starts from the constants and takes a block in as words whose first byte counts least |
| DigestBlocks.Md5Adds | x86_emu_cpp/src/digest.h:90 | what a turn adds up, in numbers modulo 2^32 |
| DigestBlocks.Md5GivesOut | x86_emu_cpp/src/digest.h:98-101 | byte 4 i and following of the digest are word i, first byte counting least |
| DigestSines.FirstConstantsAreSines | x86_emu_cpp/src/digest.h:49-60 | constant n is the whole part of 2^32 times the magnitude of the sine of n, for the first 32 |
| DigestSines.LastConstantsAreSines | x86_emu_cpp/src/digest.h:49-60 | and the last 32 |
| Sha1.ChoiceByOr | x86_emu_cpp/src/digest.h:118 | the form of Ch the code uses |
| Sha1.MajorityByOr | x86_emu_cpp/src/digest.h:124 | the form of Maj the code uses |
| Sha1.Schedule | x86_emu_cpp/src/digest.h:108-113 | the schedule filled in place is the recursive one |
| Sha1.RoundsInPlace | x86_emu_cpp/src/digest.h:114-136 | the 80 rounds are those of section 6.1.2 of FIPS 180-4 |
| Sha1.Compute | x86_emu_cpp/src/digest.h:104-147 | the digest of section 6.1.2 of FIPS 180-4, for every message |
| DigestBlocks.Sha1TakesBlocks | x86_emu_cpp/src/digest.h:107-111 | the hash starts from the constants and takes a block in as words whose first byte counts most |
| DigestBlocks.Sha1Extends | x86_emu_cpp/src/digest.h:112-113 | a word of the schedule, bit by bit |
| DigestBlocks.Sha1Rounds | x86_emu_cpp/src/digest.h:130-135 | what a round moves and adds up, in numbers modulo 2^32 |
| DigestBlocks.Sha1GivesOut | x86_emu_cpp/src/digest.h:143-146 | the digest is its words, first byte counting most |
| DigestConstants.ConstantsOfSha1 | x86_emu_cpp/src/digest.h:118-128 | the four constants are the square roots of 2, 3, 5 and 10, times 2^30 |
| DigestConstants.StartsCount | x86_emu_cpp/src/digest.h:65-105 | what MD5 and SHA-1 start from is the hexadecimal digits, up and down, in bytes |
| Sha256.Schedule | x86_emu_cpp/src/digest.h:166-174 | the schedule filled in place is the recursive one |
| Sha256.RoundsInPlace | x86_emu_cpp/src/digest.h:175-192 | the 64 rounds are those of section 6.2.2 of FIPS 180-4 |
| Sha256.Compute | x86_emu_cpp/src/digest.h:149-200 | the digest of section 6.2.2 of FIPS 180-4, for every message |
| DigestBlocks.Sha256TakesBlocks | x86_emu_cpp/src/digest.h:165-169 | the hash starts from the constants and takes a block in as words whose first byte counts most |
| DigestBlocks.Sha256Extends | x86_emu_cpp/src/digest.h:170-174 | a word of the schedule is the sum of four, two of them mixed, modulo 2^32 |
| DigestBlocks.Sha256Moves | x86_emu_cpp/src/digest.h:185-192 | a round moves six words on |
| DigestBlocks.Sha256First | x86_emu_cpp/src/digest.h:178-188 | adds its first sum to d |
| DigestBlocks.Sha256Both | x86_emu_cpp/src/digest.h:178-192 | and puts both sums in the place of a |
| DigestBlocks.Sha256GivesOut | x86_emu_cpp/src/digest.h:196-199 | the digest is its words, first byte counting most |
| DigestConstants.FirstEight | x86_emu_cpp/src/digest.h:150-161 | constants 0 to 7 are the first 32 bits behind the point of the cube roots of the primes 2 to 19 |
| DigestConstants.SecondEight | x86_emu_cpp/src/digest.h:150-161 | constants 8 to 15 are the first 32 bits behind the point of the cube roots of the primes 23 to 53 |
| DigestConstants.ThirdEight | x86_emu_cpp/src/digest.h:150-161 | constants 16 to 23 are the first 32 bits behind the point of the cube roots of the primes 59 to 89 |
| DigestConstants.FourthEight | x86_emu_cpp/src/digest.h:150-161 | constants 24 to 31 are the first 32 bits behind the point of the cube roots of the primes 97 to 131 |
| DigestConstants.FifthEight | x86_emu_cpp/src/digest.h:150-161 | constants 32 to 39 are the first 32 bits behind the point of the cube roots of the primes 137 to 173 |
| DigestConstants.SixthEight | x86_emu_cpp/src/digest.h:150-161 | constants 40 to 47 are the first 32 bits behind the point of the cube roots of the primes 179 to 223 |
| DigestConstants.SeventhEight | x86_emu_cpp/src/digest.h:150-161 | constants 48 to 55 are the first 32 bits behind the point of the cube roots of the primes 227 to 263 |
| DigestConstants.LastEight | x86_emu_cpp/src/digest.h:150-161 | constants 56 to 63 are the first 32 bits behind the point of the cube roots of the primes 269 to 311 |
| DigestConstants.Starts | x86_emu_cpp/src/digest.h:162-163 | what the hash starts from are the first 32 bits behind the point of the square roots of the first eight primes |
| ZipReader.EndRecord | src/vvmload.cpp:148-155 | the last place that has the signature of the end record, or 0 if none but perhaps the first has |
| ZipReader.SignaturesAre | src/vvmload.cpp:149-172 | the three signatures are PK and two bytes more |
| ZipReader.ReadsValues | src/vvmload.cpp:121-126 | a 16- and a 32-bit field is the value of its bytes, the first counting least |
| ZipReader.ZipMember | src/vvmload.cpp:145-187 | the reader's outcome on any file: the member's bytes, refusal, or a read past the end |
| ZipArchives.EndRecordIsLast | src/vvmload.cpp:148-156 | an end record is found if and only if no later place has its signature |
| ZipArchives.DirectoryFinds | src/vvmload.cpp:160-186 | a directory whose entries point at their members, wherever those are and compressed or not, leads to the first member of the name: its contents if stored, else refusal |
| ZipArchives.NamedIsFirst | src/vvmload.cpp:170-183 | the member found is the first of its name |
| ZipArchives.MemberIsRead | src/vvmload.cpp:145-187 | reading any well-formed archive (section 4.3 of PKWARE APPNOTE.TXT), its members anywhere, in any order and compressed or not, gives what the directory makes due, whatever members, gaps and comment hold, as long as nothing behind the end record has its signature |
| ZipArchives.MemberIsGiven | src/vvmload.cpp:163-185 | so the first member of a name is given byte for byte if it is stored, refused if it is compressed, and given up to its size if it is stored and encrypted |
| ZipWriter.StoredDescribes | src/vvmload.cpp:163-183 | the two headers written for a stored file agree and say its name, size, compressed size and place |
| ZipWriter.WrittenIsWellFormed | src/vvmload.cpp:145-187 | what a writer of stored files and a comment makes is such an archive |
| ZipWriter.WrittenIsRead | src/vvmload.cpp:145-187 | and is read back, under the same condition: the first file of each name byte for byte, and nothing for a name no file has |
| ZipWriter.CommentHides | src/vvmload.cpp:148-156 | of any well-formed archive whose comment is itself an empty archive nothing is found |
| ZipWriter.HiddenByComment | src/vvmload.cpp:148-156 | such archives are written: the file they hold is refused |
| TarReader.Untar | web/untar.js:17-41 | the reader's files, in order, and outcome on any input; the file whose size sends it back is reported too |
| TarReader.AdvancesIf | web/untar.js:31-39 | a header sends the reader on exactly when its size is above -512 |
| TarArchives.StaysForEver | web/untar.js:31-39 | an archive that begins with a header of size -1000 in octal is sent back to that same header |
| TarArchives.DigitsRead | web/untar.js:31 | octal digits are read as the number they were written from |
| TarArchives.SizeIsRead | web/untar.js:31 | a size field is read as its size, in any number of digits and whatever zeros and spaces end it |
| TarArchives.HeaderIsRead | web/untar.js:20-33 | a header's name, prefix, kind and size are those it was written from |
| TarArchives.LeadsToNext | web/untar.js:31-39 | a member's header sends the reader to the next one if and only if the member has contents or a size of 0 |
| TarArchives.MemberIsUnpacked | web/untar.js:25-40 | a member of any contents, its last block filled with anything, whose size is that of what is stored is reported once if regular, and the reader goes on to what follows it |
| TarArchives.ArchiveIsUnpacked | web/untar.js:17-41 | unpacking a ustar archive whose members without contents have a size of 0 reports exactly its regular files, under their full names, with their contents, in order |
| TarFiles.EntryIsFile | web/untar.js:17-41 | entry by entry: one of kind 0 or NUL is reported in its place, with its contents, under its name, or the prefix, a slash and its name if it has a prefix |
| TarArchives.LimitHidesFile | web/untar.js:31-39 | a directory with a limit of 512 hides the file behind it |

## Left out

- cudnnAddTensor, the descriptor setters and getters, and the softmax, reduction, fill, range and unary kernels: each is one loop with no index arithmetic beyond what is modelled.
- Floating point: elements are exact reals (convolutions) or of any type (kernels), so rounding, the order of additions inside a matrix product and NaN are not seen. Eigen's products are modelled as plain loops.
- C `int` overflow in index products: indices are unbounded integers.
- Kernels handed an output that overlaps an operand: `out` is required to be another array.
- Names: mangled kernel names are searched for their key only; element types parsed out of them are not modelled.
- IndexKernels.ScatterND: the index tensor is given as integers; its element type is not decoded.
- Arena.RunsTile: requests and arena sizes are at most 2^62, so that rounding and the bump do not wrap 64 bits; runs with empty requests are covered by Arena.RunsKeepOrder, which has all of it but the tiling, and Arena.RunsTileExactly, which says when that holds.
- DeviceShim.DeviceShim.Load: the state it is in after refusing a file is not described. What the restored memory holds is a parameter; Session takes it to hold the arena exactly if it was mapped when saved.
- ShimFile: descriptors are their kind and their integer fields; bytes of padding and the file system are not modelled.
- Launch: pointers are eight bytes on the host; the text of a kernel's name is taken as read; the kernel itself does not run.
- GuestMemory: pages hold bytes; contiguous spans, the lookup cache, permissions and watchpoints are not modelled.
- FetchCursor: the interpreter that assigns rip between instructions; each instruction starts from a dropped or valid cursor.
- HostLibrary: error messages, finding and spawning the agent (one flag says whether that works) and the Windows branch. The bytes of a read that fails part of the way are not kept in the response.
- AgentProcess: blobs are values; the agent's own allocation of them, freed at the end of each turn, is not modelled beyond whether malloc succeeds. The calls it dispatches are one function of the requests so far.
- Frames: a response's signed code is its 32 bits.
- Exchange: processes there do not fail; failures are covered by HostLibrary and CallRuns.
- Md5, Sha1, Sha256: that the numbers whose roots are taken are the first 64 primes, and how far MD5 turns its sums, are taken from the standards. Words are strings of 32 bits, and the assembling of a word from four bytes by shifts is written as their value.
- ZipReader: only what the reader looks at is decoded; ZIP64 and decryption are not part of this model.
- ZipArchives.MemberIsRead: archives under 4 GiB, as the format's fields have it.
- TarReader: names are bytes, not decoded as UTF-8, and only ASCII blanks are trimmed; when a size sends the reader back, the files it goes on to report, some of them for ever, are not described.
- Timing, tracing and statistics.
