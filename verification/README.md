# Wasp: a verified model

Wasp runs ASP.NET Core and Blazor inside an Internet Computer canister. This project models the
parts of it whose correctness is a protocol or a change of representation, and proves what they
promise, over all inputs and all runs.

- **Certified responses** (`ByteStrings`, `SortedEntries`, `HashTree`, `ForkTrees`, `AssetTree`,
  `ExprTree`, `Certification`). The registry of certified assets and pass-through paths, its
  deferred push of the root hash, and the v1 and v2 witnesses. The hash is an arbitrary function,
  the certified data a cell; what binds that data to the registry is proved up to a collision that the
  lemmas return. Lookup and reconstruction follow the section "Certification" of the
  Internet Computer Interface Specification.
- **The Blazor circuit** (`BlazorPack`, `BlazorPackWriter`, `BlazorPackReader`, `WireSkipping`,
  `CircuitTransport`, `TransportRuns`, `HubDispatcher`, `LongPolling`, `HandshakeBridge`,
  `HandshakeProtocol`, `HandshakePolls`). The MessagePack codec, the frame splitter and dispatcher, remote calls and
  their answers, the long-poll queue, and the browser bridge that answers the handshake itself,
  as a three-party protocol of client, bridge and canister.
- **The circuit store** (`StableRegion`, `CircuitStore`). A bump allocator in stable memory, and
  an index of snapshots that survives upgrades.
- **Rendering** (`HtmlEscaping`, `HtmlPage`, `HtmlRenderer`, `RenderBatchJson`). Flat frame arrays
  rendered as the trees they stand for, the pages as a browser reads them, event ids, and the JSON
  text of a render batch.
- **Webcil** (`WasmContainer`, `Webcil`, `PortableExecutable`). A managed assembly taken out of a
  WebAssembly module and laid out again as a PE file.

Strings that cross the wire are byte sequences, strings of the HTML and JSON code are sequences of
characters. Code that changes things step by step is a class or a method with loops, and each such
method is tied by its `ensures` to a function of its inputs and the old state; the theorems are
about those functions and about all runs of them.

Where the code and its own comments disagree, the model follows the code:

- `IcCertifiedAssets` says its witness reveals every asset; the code prunes all but one.
- `CircuitStore.LoadFromStable` is said to leave the index empty when no valid image is found; the
  code leaves it as it was.
- `BuildHeaderValue` of `IcResponseCertV2` says expr_path ends with an empty status segment; the list
  the code writes starts with `http_expr` and ends at `<$>`, and a verifier appends the expression
  hash.

Results that are conditional, with the exact condition proved in both directions:

- v2 witnesses are complete (and the tree is sorted) if and only if no registered path continues
  another with `<$>` as its next segment, however the sort orders equal labels.
- The client does not see the bridge if and only if the lone-handshake timer never fires on a
  buffered greeting after the bridge's ack, and the last fetch of a hold never reads a response
  while a strip is owed.
- The canister does not see the bridge if and only if no POST of the client's is handled before a
  greeting the timer sent, which only a late timer makes possible. The first POST that overtakes is
  rejected, and its frames lost, if and only if they cannot be taken for a greeting.
- Every event id of a page leads to the handlers of its own frame if and only if frames that share
  a truncated hash share their handlers.
- A JSON field comes back exactly from the repository's own extractor if and only if it has no control character other than newline,
  return and tab.
- A rendered page reads as its tree in every element but those whose content is raw text, such as
  style; there text reads as it was if and only if it has nothing to escape.
- A value is skipped to its end if and only if it holds no foreign tag and no unsigned integer of
  2^63 or more.
- A webcil image is converted if and only if it has a section, all sections lie inside the payload,
  and addresses, sizes and offsets stay clear of 2^32.

`dafny verify dfyconfig.toml` checks everything.

## Model

| member | source | states |
|---|---|---|
| HashTrees.PruningKeepsDigest | aot/Wasp.WebSockets/src/HashTree.cs:46-146 | replacing any subtrees by their hashes leaves the root hash as it was |
| HashTrees.PruningComposes | aot/Wasp.AspNetCore/src/IcCertifiedAssets.cs:211-234 | pruning a pruned tree is a pruning of the original |
| HashTrees.PruningOnlyLosesInformation | aot/Wasp.AspNetCore/src/IcResponseCertV2.cs:246-295 | for every sorted tree and query path, a pruned tree gives the same lookup answer or Unknown, never another value and never a false Absent |
| HashTrees.PrunedAnswersUnknown | aot/Wasp.WebSockets/src/HashTree.cs:136-146 | nothing can be concluded below a pruned node |
| HashTrees.SamePreimage | aot/Wasp.WebSockets/src/HashTree.cs:46-132 | one byte string hashed at two nodes means the same kind of node, the same label or value, and the same hashes below, the separators being the bytes of the specification |
| HashTrees.RootHashBinds | aot/Wasp.WebSockets/src/HashTree.cs:46-146 | the root hash binds the tree: any tree that rehashes to that of a tree without pruned nodes is a pruning of it, or the lemma returns two different strings with one hash, one hashed at a node of each tree |
| HashTrees.WholePruningIsEqual | aot/Wasp.WebSockets/src/HashTree.cs:136-146 | a pruning without pruned nodes is the tree itself |
| ForkTrees.RangeIsHalved | aot/Wasp.WebSockets/src/HashTree.cs:165-174 | building by index ranges gives the tree whose in-order labels are the list, halved at every fork |
| ForkTrees.FlattenArrange | aot/Wasp.WebSockets/src/HashTree.cs:158-174 | the in-order labelled children of a built tree are exactly the input list, for any balancing |
| ForkTrees.SortedBuild | aot/Wasp.WebSockets/src/HashTree.cs:158-174 | a built tree is sorted at every level exactly when its labels are and its children are |
| ForkTrees.HalvedHalves | aot/Wasp.WebSockets/src/HashTree.cs:158-174 | halving the list is a balancing for every number of children |
| ForkTrees.HalvedInsertion | aot/Wasp.WebSockets/src/HashTree.cs:158-174 | halving a list put in label order by insertion is one way to build a level, so the results for all of them are not empty |
| ForkTrees.HalvedHeight | aot/Wasp.WebSockets/src/HashTree.cs:165-174 | up to 2^k children lie under at most k forks |
| AssetTrees.BuildAssetTreeImpl | aot/Wasp.AspNetCore/src/IcCertifiedAssets.cs:187-209 | the loop builds the full tree, or the collapsed tree that reveals one path |
| AssetTrees.CollapsePrunes | aot/Wasp.AspNetCore/src/IcCertifiedAssets.cs:211-234 | collapsing only replaces subtrees by their hashes, so the root hash stays |
| AssetTrees.AssetWitnessPrunes | aot/Wasp.AspNetCore/src/IcCertifiedAssets.cs:187-234 | the pruned asset tree is a pruning of the full one, whatever path it reveals |
| AssetTrees.AssetTreeSorted | aot/Wasp.AspNetCore/src/IcCertifiedAssets.cs:187-209 | the full asset tree has strictly increasing labels |
| AssetTrees.AssetWitnessShape | aot/Wasp.AspNetCore/src/IcCertifiedAssets.cs:178-234 | for every non-empty asset set: the witness finds the body hash if the path is registered and is one pruned node if not; no fork of two pruned nodes or label over one remains; it has at most twice the fork height plus two nodes |
| AssetTrees.WitnessIsLogarithmic | aot/Wasp.AspNetCore/src/IcCertifiedAssets.cs:178-209 | among up to 2^k assets a witness has at most 2k + 2 nodes |
| ExprTrees.SplitSegments | aot/Wasp.AspNetCore/src/IcResponseCertV2.cs:121-125 | no segment is empty or contains a slash |
| ExprTrees.SplitJoin | aot/Wasp.AspNetCore/src/IcResponseCertV2.cs:121-125 | splitting inverts joining of such segments with slashes |
| ExprTrees.GroupedSound | aot/Wasp.AspNetCore/src/IcResponseCertV2.cs:134-150 | a group holds only paths with its segment at this depth |
| ExprTrees.GroupedComplete | aot/Wasp.AspNetCore/src/IcResponseCertV2.cs:134-150 | every longer path is in the group of its segment |
| ExprTrees.GroupBySegment | aot/Wasp.AspNetCore/src/IcResponseCertV2.cs:134-150 | the loop finds exactly the groups, sorted by segment, and whether a path ends here |
| ExprTrees.BuildSubtree | aot/Wasp.AspNetCore/src/IcResponseCertV2.cs:127-180 | the recursive builder gives the tree of the registered paths and terminates |
| ExprTrees.BuildGroups | aot/Wasp.AspNetCore/src/IcResponseCertV2.cs:167-172 | one labelled child per group, in order |
| ExprTrees.ExprTreeSortedIff | aot/Wasp.AspNetCore/src/IcResponseCertV2.cs:127-180 | labels are strictly increasing byte by byte at every level if and only if no path continues another with `<$>` |
| ExprTrees.PruneToPathPrunes | aot/Wasp.AspNetCore/src/IcResponseCertV2.cs:252-295 | pruning to a path only replaces subtrees by their hashes |
| ExprTrees.WitnessFinds | aot/Wasp.AspNetCore/src/IcResponseCertV2.cs:252-295 | a registered path, also one that is a prefix of others, is found with the empty leaf in its own witness when no paths clash |
| ExprTrees.ClashLosesOne | aot/Wasp.AspNetCore/src/IcResponseCertV2.cs:152-180 | of a path and one that continues it with `<$>`, at least one is not found in its own witness, whichever of their equal labels the sort puts first |
| ExprTrees.WitnessCompleteIff | aot/Wasp.AspNetCore/src/IcResponseCertV2.cs:127-295 | every registered path is found in its witness if and only if no path continues another with `<$>`, for every order a sort may leave |
| Certification.Registry.constructor | aot/Wasp.AspNetCore/src/IcCertifiedAssets.cs:49-83 | starts as the run of no calls |
| Certification.Registry.Insert | aot/Wasp.AspNetCore/src/IcCertifiedAssets.cs:63-69 | is one step of the registry: entry hashed and placed in order, then the push |
| Certification.Registry.RegisterPassThroughPath | aot/Wasp.AspNetCore/src/IcResponseCertV2.cs:85-100 | is one step of the registry; registering a path again changes no entry |
| Certification.Registry.NotifyChanged | aot/Wasp.AspNetCore/src/IcCertifiedAssets.cs:111-117 | is one step of the registry: the push alone |
| Certification.Registry.UpdateCertifiedData | aot/Wasp.AspNetCore/src/IcCertifiedAssets.cs:119-139 | defers in query mode, otherwise certifies the combined root and clears the flag |
| Certification.Registry.FlushPendingIfUpdate | aot/Wasp.AspNetCore/src/IcCertifiedAssets.cs:164-174 | is one step of the registry: a push only when one is pending |
| Certification.Registry.CollectPathArrays | aot/Wasp.AspNetCore/src/IcResponseCertV2.cs:239-244 | the segment lists of all registered paths, in order |
| Certification.Registry.BuildV2Subtree | aot/Wasp.AspNetCore/src/IcResponseCertV2.cs:105-119 | the v2 tree under its label, none when nothing is registered |
| Certification.Registry.BuildCombinedRoot | aot/Wasp.AspNetCore/src/IcCertifiedAssets.cs:150-162 | the tree whose hash every witness must reach |
| Certification.Registry.BuildAssetHeader | aot/Wasp.AspNetCore/src/IcCertifiedAssets.cs:248-284 | the v1 witness of the state, with the v2 subtree pruned beside it |
| Certification.Registry.BuildExprHeader | aot/Wasp.AspNetCore/src/IcResponseCertV2.cs:202-237 | the v2 witness of the state and its label list |
| Certification.RunContents | aot/Wasp.AspNetCore/src/IcCertifiedAssets.cs:63-69 | after any calls the tables hold the hash of the last body inserted for each path and exactly the registered paths |
| Certification.EveryRunIsCurrent | aot/Wasp.AspNetCore/src/IcCertifiedAssets.cs:77-139 | after any sequence of calls in query or update mode, once anything is registered a push is pending or the certified data is the combined root hash |
| Certification.UpdateSettles | aot/Wasp.AspNetCore/src/IcCertifiedAssets.cs:119-174 | any call in update mode leaves nothing pending and the combined root certified |
| Certification.V1WitnessPrunes | aot/Wasp.AspNetCore/src/IcCertifiedAssets.cs:248-272 | the v1 witness is a pruning of the combined tree |
| Certification.V2WitnessPrunes | aot/Wasp.AspNetCore/src/IcResponseCertV2.cs:211-220 | the v2 witness is a pruning of the combined tree |
| Certification.EveryWitnessVerifies | aot/Wasp.AspNetCore/src/IcResponseCertV2.cs:196-237 | in every run, when nothing is pending each witness of either version rehashes to the certified data |
| Certification.V1WitnessAnswers | aot/Wasp.AspNetCore/src/IcCertifiedAssets.cs:248-272 | in every run, the v1 witness finds the hash of the body last inserted, and Unknown for any other path |
| Certification.V2WitnessesCompleteIff | aot/Wasp.AspNetCore/src/IcResponseCertV2.cs:196-320 | in every run, each registered path's witness leads along expr_path and the expression hash to the empty leaf if and only if no registered path continues another with `<$>` |
| Certification.EveryLookupIsSound | aot/Wasp.AspNetCore/src/IcResponseCertV2.cs:246-295 | in every run without such a clash, every lookup in every witness is the full tree's answer or Unknown |
| Certification.CombinedRootSorted | aot/Wasp.AspNetCore/src/IcCertifiedAssets.cs:150-162 | the combined tree is sorted if and only if no registered paths clash |
| Certification.AnyVerifyingTreeIsSound | aot/Wasp.AspNetCore/src/IcCertifiedAssets.cs:119-162 | in every run without a clash and with nothing pending, any tree at all that rehashes to the certified data answers every query as the combined tree does, or Unknown, or a collision is returned |
| Certification.RootAnswers | aot/Wasp.AspNetCore/src/IcCertifiedAssets.cs:150-209 | in every run, the combined tree finds the hash of the body last inserted for each path, and finds nothing for any other path |
| Certification.SameDataSameBodies | aot/Wasp.AspNetCore/src/IcCertifiedAssets.cs:63-162 | two histories with the same certified data have the same body under every path, or a collision of two strings hashed for them is returned |
| BlazorPack.PrefixIsShort | aot/Wasp.AspNetCore.Blazor.Server/src/BlazorPackWriter.cs:128-141 | the prefix of any length below 2^31 takes one to five bytes |
| BlazorPack.PrefixRoundTrip | aot/Wasp.AspNetCore.Blazor.Server/src/BlazorPackReader.cs:150-163 | every length from 0 to 2^31-1 decodes back, consuming exactly its prefix |
| BlazorPack.IntRoundTrip | aot/Wasp.AspNetCore.Blazor.Server/src/BlazorPackReader.cs:195-213 | every 64-bit integer reads back, consuming exactly its bytes, whatever follows |
| BlazorPack.UnsignedFormatReads | aot/Wasp.AspNetCore.Blazor.Server/src/BlazorPackReader.cs:195-213 | each of the four unsigned formats reads as its number, also where a shorter one would do; above 2^63 - 1 it is refused |
| BlazorPack.SignedFormatReads | aot/Wasp.AspNetCore.Blazor.Server/src/BlazorPackReader.cs:195-213 | each of the four signed formats reads as the number of its two's complement |
| BlazorPack.WrittenIntIsShortest | aot/Wasp.AspNetCore.Blazor.Server/src/BlazorPackWriter.cs:223-272 | no bytes the reader accepts as a value are fewer than the writer's |
| BlazorPack.ArrayHeaderRoundTrip | aot/Wasp.AspNetCore.Blazor.Server/src/BlazorPackReader.cs:167-179 | every array header reads back, consuming exactly its bytes |
| BlazorPack.StrRoundTrip | aot/Wasp.AspNetCore.Blazor.Server/src/BlazorPackReader.cs:215-233 | every string below 2^31 bytes reads back, consuming exactly its bytes |
| BlazorPack.BinRoundTrip | aot/Wasp.AspNetCore.Blazor.Server/src/BlazorPackReader.cs:237-252 | every byte array below 2^31 bytes reads back, consuming exactly its bytes |
| BlazorPack.ValueRoundTrip | aot/Wasp.AspNetCore.Blazor.Server/src/BlazorPackReader.cs:270-286 | every supported value reads back, consuming exactly its bytes |
| BlazorPack.ValuesRoundTrip | aot/Wasp.AspNetCore.Blazor.Server/src/BlazorPackReader.cs:137-140 | every list of supported values reads back in order |
| BlazorPack.InvocationRoundTrip | aot/Wasp.AspNetCore.Blazor.Server/src/BlazorPackReader.cs:110-146 | reading a written invocation of six elements gives its target, optional id and arguments, for all of them, whatever follows the frame |
| BlazorPack.ClientInvocationRoundTrip | aot/Wasp.AspNetCore.Blazor.Server/src/BlazorPackReader.cs:110-146 | reading an invocation of five elements, as a browser posts it, gives its target, optional id and arguments, for all of them, whatever follows the frame |
| BlazorPack.AnyInvocationIsRead | aot/Wasp.AspNetCore.Blazor.Server/src/BlazorPackReader.cs:110-146 | the same for an invocation with any headers and, where there are six elements, any list of streams, each part in any encoding that reads as it |
| BlazorPack.CompletionRoundTrip | aot/Wasp.AspNetCore.Blazor.Server/src/BlazorPackReader.cs:61-104 | reading a written completion gives its id and result |
| BlazorPack.CompletionErrorRoundTrip | aot/Wasp.AspNetCore.Blazor.Server/src/BlazorPackReader.cs:61-104 | reading a written error completion gives its id and error |
| BlazorPack.VoidCompletionRoundTrip | aot/Wasp.AspNetCore.Blazor.Server/src/BlazorPackReader.cs:61-104 | reading a completion without a result gives its id, and neither result nor error |
| BlazorPackWriter.Sink.WriteArrayHeader | aot/Wasp.AspNetCore.Blazor.Server/src/BlazorPackWriter.cs:145-166 | appends the encoding that ArrayHeaderRoundTrip reads back |
| BlazorPackWriter.Sink.WriteString | aot/Wasp.AspNetCore.Blazor.Server/src/BlazorPackWriter.cs:168-196 | appends the encoding that StrRoundTrip reads back |
| BlazorPackWriter.Sink.WriteBinary | aot/Wasp.AspNetCore.Blazor.Server/src/BlazorPackWriter.cs:198-221 | appends the encoding that BinRoundTrip reads back |
| BlazorPackWriter.Sink.WriteInt64 | aot/Wasp.AspNetCore.Blazor.Server/src/BlazorPackWriter.cs:223-272 | appends the shortest encoding, byte by byte, that IntRoundTrip reads back |
| BlazorPackWriter.Sink.WriteValue | aot/Wasp.AspNetCore.Blazor.Server/src/BlazorPackWriter.cs:276-297 | appends the encoding that ValueRoundTrip reads back; refuses exactly the values of other types |
| BlazorPackWriter.WriteLengthPrefix | aot/Wasp.AspNetCore.Blazor.Server/src/BlazorPackWriter.cs:128-141 | fills the buffer with the prefix and nothing past it; fails exactly on negative lengths |
| BlazorPackWriter.WriteInvocationCore | aot/Wasp.AspNetCore.Blazor.Server/src/BlazorPackWriter.cs:57-86 | one frame holding the message, built up in sinks; refused exactly when an argument cannot be written or the body does not fit |
| BlazorPackWriter.WriteInvocation | aot/Wasp.AspNetCore.Blazor.Server/src/BlazorPackWriter.cs:42-48 | a frame that decodes to this call, without an id; refused exactly when it does not fit |
| BlazorPackWriter.WriteInvocationWithId | aot/Wasp.AspNetCore.Blazor.Server/src/BlazorPackWriter.cs:50-55 | a frame that decodes to this call with its id; refused exactly for an empty id or when it does not fit |
| BlazorPackWriter.WriteCompletion | aot/Wasp.AspNetCore.Blazor.Server/src/BlazorPackWriter.cs:88-106 | a frame that decodes to this result for this id; refused exactly for an empty id or when it does not fit |
| BlazorPackWriter.WriteCompletionError | aot/Wasp.AspNetCore.Blazor.Server/src/BlazorPackWriter.cs:108-126 | a frame that decodes to this error for this id; refused exactly when it does not fit |
| BlazorPackReader.Cursor.ReadLengthPrefix | aot/Wasp.AspNetCore.Blazor.Server/src/BlazorPackReader.cs:150-163 | the accumulating loop reads what the format says, with 32-bit wrap-around, and fails where it says |
| BlazorPackReader.Cursor.ReadArrayHeader | aot/Wasp.AspNetCore.Blazor.Server/src/BlazorPackReader.cs:167-179 | reads a count or fails as the format says; counts above 2^31 wrap |
| BlazorPackReader.Cursor.ReadMapHeader | aot/Wasp.AspNetCore.Blazor.Server/src/BlazorPackReader.cs:181-193 | reads a count or fails as the format says |
| BlazorPackReader.Cursor.ReadInt64 | aot/Wasp.AspNetCore.Blazor.Server/src/BlazorPackReader.cs:195-213 | reads any of the ten integer formats, widened, or fails |
| BlazorPackReader.Cursor.ReadString | aot/Wasp.AspNetCore.Blazor.Server/src/BlazorPackReader.cs:215-233 | reads nil or a string of any format, or fails |
| BlazorPackReader.Cursor.ReadBinary | aot/Wasp.AspNetCore.Blazor.Server/src/BlazorPackReader.cs:237-252 | reads nil or a byte array of any format, or fails |
| BlazorPackReader.Cursor.ReadValue | aot/Wasp.AspNetCore.Blazor.Server/src/BlazorPackReader.cs:270-286 | reads one supported value, or fails |
| BlazorPackReader.Cursor.SkipValue | aot/Wasp.AspNetCore.Blazor.Server/src/BlazorPackReader.cs:288-313 | skips one value; on any bytes it fails or advances, so the recursion ends |
| BlazorPackReader.Cursor.SkipValues | aot/Wasp.AspNetCore.Blazor.Server/src/BlazorPackReader.cs:296-310 | skips so many values in a loop |
| BlazorPackReader.ReadInvocation | aot/Wasp.AspNetCore.Blazor.Server/src/BlazorPackReader.cs:110-146 | decodes a frame or fails, on any bytes, as the specification InvocationRoundTrip inverts |
| BlazorPackReader.ReadCompletion | aot/Wasp.AspNetCore.Blazor.Server/src/BlazorPackReader.cs:61-104 | decodes a frame or fails, on any bytes, as the specification the completion round trips invert |
| WireSkipping.SkipAgreesWithStructure | aot/Wasp.AspNetCore.Blazor.Server/src/BlazorPackReader.cs:288-313 | for every nested MessagePack value, skipping stops exactly at its end if it holds no foreign tag and no unsigned integer of 2^63 or more, and fails otherwise |
| WireSkipping.SkipManyAgrees | aot/Wasp.AspNetCore.Blazor.Server/src/BlazorPackReader.cs:296-310 | the same for any sequence of values |
| WireSkipping.SkipStopsWhereReadDoes | aot/Wasp.AspNetCore.Blazor.Server/src/BlazorPackReader.cs:270-313 | on any bytes, where a value can be read, skipping stops at the same place |
| WireSkipping.SkipStopsAfterWritten | aot/Wasp.AspNetCore.Blazor.Server/src/BlazorPackReader.cs:288-313 | skipping stops behind anything the writer wrote |
| CircuitTransport.IcCircuitTransport.constructor | aot/Wasp.AspNetCore.Blazor.Server/src/IcCircuitTransportImpl.cs:35-46 | a fresh transport: no handshake, nothing pending |
| CircuitTransport.IcCircuitTransport.HandleInbound | aot/Wasp.AspNetCore.Blazor.Server/src/IcCircuitTransportImpl.cs:67-108 | on any bytes, the splitting loop dispatches exactly the frames of the payload in order up to the first error, and ends |
| CircuitTransport.IcCircuitTransport.DispatchFrame | aot/Wasp.AspNetCore.Blazor.Server/src/IcCircuitTransportImpl.cs:110-147 | invocations are raised, completions settle their call, pings are answered, close disconnects, others are ignored |
| CircuitTransport.IcCircuitTransport.IndexOfRecordSeparator | aot/Wasp.AspNetCore.Blazor.Server/src/IcCircuitTransportImpl.cs:211-216 | the first separator, or -1 exactly when there is none |
| CircuitTransport.IcCircuitTransport.ContainsText | aot/Wasp.AspNetCore.Blazor.Server/src/IcCircuitTransportImpl.cs:231-243 | true if and only if the text occurs somewhere |
| CircuitTransport.IcCircuitTransport.ValidateHandshake | aot/Wasp.AspNetCore.Blazor.Server/src/IcCircuitTransportImpl.cs:218-230 | accepts exactly texts naming one of the two protocols |
| CircuitTransport.IcCircuitTransport.InvokeCoreAsync | aot/Wasp.AspNetCore.Blazor.Server/src/IcCircuitTransportImpl.cs:185-209 | sends one frame with a new id and makes the id pending; nothing for an empty target; when the frame cannot be written the id stays pending and nothing is sent |
| CircuitTransport.IcCircuitTransport.CancelInvocation | aot/Wasp.AspNetCore.Blazor.Server/src/IcCircuitTransportImpl.cs:197-207 | a pending call is settled as cancelled; any other id changes nothing |
| CircuitTransport.HandleAppend | aot/Wasp.AspNetCore.Blazor.Server/src/IcCircuitTransportImpl.cs:67-108 | handling two accepted payloads is handling their concatenation |
| CircuitTransport.GroupingIsInvisible | aot/Wasp.AspNetCore.Blazor.Server/src/IcCircuitTransportImpl.cs:67-108 | however bytes were cut into accepted payloads, one payload of all of them leaves the same state |
| TransportRuns.DispatchWritten | aot/Wasp.AspNetCore.Blazor.Server/src/IcCircuitTransportImpl.cs:110-147 | each frame of this writer or of a browser, with or without a list of streams, has the effect its kind stands for, and no error |
| TransportRuns.SplitWire | aot/Wasp.AspNetCore.Blazor.Server/src/IcCircuitTransportImpl.cs:92-107 | a run of written frames is split back into exactly those frames |
| TransportRuns.AnyGrouping | aot/Wasp.AspNetCore.Blazor.Server/src/IcCircuitTransportImpl.cs:67-160 | a valid handshake and any frames, cut into payloads at any frame boundaries, give one ack, each invocation once and in order, and one reply per ping |
| TransportRuns.EveryRunCorrelates | aot/Wasp.AspNetCore.Blazor.Server/src/IcCircuitTransportImpl.cs:121-209 | in every run of calls, cancellations and inbound payloads, pending is exactly issued minus settled, and an outcome once there never changes |
| TransportRuns.IdsNeverRepeat | aot/Wasp.AspNetCore.Blazor.Server/src/IcCircuitTransportImpl.cs:188-191 | no two calls of a run get the same id, and no id is reused while pending or settled |
| TransportRuns.CompletionSettles | aot/Wasp.AspNetCore.Blazor.Server/src/IcCircuitTransportImpl.cs:121-129 | a completion settles the pending call bearing its id with its value, its error or neither; for any other id nothing changes |
| TransportRuns.CancelledStaysCancelled | aot/Wasp.AspNetCore.Blazor.Server/src/IcCircuitTransportImpl.cs:121-209 | in every run, a call cancelled while pending stays cancelled, whatever arrives afterwards |
| TransportRuns.OtherTypesIgnored | aot/Wasp.AspNetCore.Blazor.Server/src/IcCircuitTransportImpl.cs:110-147 | a message of another type changes nothing and is no error |
| HubDispatcher.DispatchCore | aot/Wasp.AspNetCore.Blazor.Server/src/BlazorHubDispatcher.cs:84-193 | for a known target and arguments of the right number and types, what is emitted is decided by what the facade's method returns for exactly these arguments, in order, with empty strings and bytes for nulls and 32-bit readings of narrow integers; any other message fails as its misuse says, whatever the facade |
| HubDispatcher.EmitCompletion | aot/Wasp.AspNetCore.Blazor.Server/src/BlazorHubDispatcher.cs:242-252 | emits the completion, or fails without sink, without id, with an empty id or when it cannot be written |
| HubDispatcher.Dispatch | aot/Wasp.AspNetCore.Blazor.Server/src/BlazorHubDispatcher.cs:56-82 | the sink receives exactly the answer's frame, or nothing |
| HubDispatcher.AnsweredIff | aot/Wasp.AspNetCore.Blazor.Server/src/BlazorHubDispatcher.cs:56-193 | when failures can be reported, a message is answered if and only if there is a sink, it carries an id, and its target returns a value or the call failed |
| HubDispatcher.AnswerEchoesId | aot/Wasp.AspNetCore.Blazor.Server/src/BlazorHubDispatcher.cs:56-193 | the answer to a value-returning call, there whenever failures can be reported, bears the call's id and what the facade's method returns for exactly these arguments, or a description of the failure |
| HubDispatcher.UnboxPasses | aot/Wasp.AspNetCore.Blazor.Server/src/BlazorHubDispatcher.cs:195-240 | an argument is handed on as itself, as the empty value where a null is replaced, or as the 32-bit integer with the same low bits, and refused if and only if its type is not accepted |
| HubDispatcher.MisuseIsReported | aot/Wasp.AspNetCore.Blazor.Server/src/BlazorHubDispatcher.cs:84-193 | a call with an unknown target, a wrong number of arguments or an argument of a wrong type is answered with that failure, whatever the facade does |
| HubDispatcher.AnswerSettles | aot/Wasp.AspNetCore.Blazor.Server/src/IcCircuitTransportImpl.cs:273-308 | the answer's frame settles the caller's pending call with that value or error |
| HubDispatcher.RemoteCallEndToEnd | aot/Wasp.AspNetCore.Blazor.Server/src/IcCircuitTransportImpl.cs:185-209 | from the caller's invoke over the answering transport and dispatcher back: one message raised, an answer whenever failures can be reported, and the call settled by it with what the facade's method returns for the caller's arguments |
| HubDispatcher.BrowserCallEndToEnd | aot/Wasp.AspNetCore.Blazor.Server/src/BlazorHubDispatcher.cs:56-252 | a browser's invocation frame, of five or six elements, is raised as one message, and whenever failures can be reported the answer reads as a completion of the browser's id with what the facade's method returns for the browser's arguments |
| LongPolling.LongPollingConnection.Enqueue | aot/Wasp.AspNetCore.Blazor.Server/src/IcCircuitTransportRegistry.cs:114-124 | a sent frame goes to the end of the queue |
| LongPolling.LongPollingConnection.DrainOutbound | aot/Wasp.AspNetCore.Blazor.Server/src/IcCircuitTransportRegistry.cs:129-147 | the loop hands out all queued frames in order less acks already sent, and empties the queue |
| LongPolling.LongPollingConnection.TryRaceAck | aot/Wasp.AspNetCore.Blazor.Server/src/IcCircuitTransportRegistry.cs:149-154 | hands out the ack unless one was sent |
| LongPolling.Conservation | aot/Wasp.AspNetCore.Blazor.Server/src/IcCircuitTransportRegistry.cs:94-161 | over every interleaving of sends, drains and raced acks, data handed out and data queued are exactly the data sent in order, and the ack is handed out at most once |
| LongPolling.ConservationInOrder | aot/Wasp.AspNetCore.Blazor.Server/src/IcCircuitTransportRegistry.cs:129-147 | without raced acks, what was handed out and what is left is all that was sent less repeated acks, in place |
| LongPolling.QueryAgreesWithPoll | aot/Wasp.AspNetCore.Blazor.Server/src/BlazorOnIcHostingExtensions.cs:179-233 | the read-only path answers an empty body only where the update path would; the one other case with an empty answer is a queue of acks already sent |
| LongPolling.FramedIsNotAck | aot/Wasp.AspNetCore.Blazor.Server/src/BlazorPackWriter.cs:57-126 | no written frame begins like the ack |
| LongPolling.AckIsNeverData | aot/Wasp.AspNetCore.Blazor.Server/src/IcCircuitTransportRegistry.cs:129-160 | the ack is no prefix of any run of written frames, so neither the queue nor the bridge ever takes bytes of a real frame for it |
| LongPolling.WrittenFramesAreServerFrames | aot/Wasp.AspNetCore.Blazor.Server/src/BlazorPackWriter.cs:57-126 | invocations, completions and pings are such frames |
| HandshakeBridge.WaspBridge.constructor | aot/Wasp.AspNetCore.Blazor.Server/wwwroot/wasp-bridge.js:66-86 | no connection has entries |
| HandshakeBridge.WaspBridge.OnPost | aot/Wasp.AspNetCore.Blazor.Server/wwwroot/wasp-bridge.js:128-184 | buffers a greeting, sends a buffered one on with the next POST, passes others through; other connections' entries stay |
| HandshakeBridge.WaspBridge.OnTimer | aot/Wasp.AspNetCore.Blazor.Server/wwwroot/wasp-bridge.js:155-162 | sends a greeting still buffered alone, and leaves the strip flag as it is |
| HandshakeBridge.WaspBridge.OnPoll | aot/Wasp.AspNetCore.Blazor.Server/wwwroot/wasp-bridge.js:186-208 | injects the ack once for a buffered greeting, fetches a first poll once, holds others |
| HandshakeBridge.WaspBridge.OnHeldResponse | aot/Wasp.AspNetCore.Blazor.Server/wwwroot/wasp-bridge.js:223-255 | asks again on an empty body, strips an owed ack at most once, gives anything else as it came |
| HandshakeBridge.Combine | aot/Wasp.AspNetCore.Blazor.Server/wwwroot/wasp-bridge.js:172-176 | the buffered bytes followed by the POST's |
| HandshakeProtocol.EveryRunKeeps | aot/Wasp.AspNetCore.Blazor.Server/wwwroot/wasp-bridge.js:128-272 | what every move of client, bridge, timer and canister keeps, in every interleaving, the timer's POST being independent of the client's |
| HandshakeProtocol.ClientSeesNoBridge | aot/Wasp.AspNetCore.Blazor.Server/wwwroot/wasp-bridge.js:128-272 | in every reachable state the client has a prefix of what it would get without the bridge; when all is delivered it has exactly that if and only if no move slipped, and one ack more otherwise, whatever reached the canister |
| HandshakeProtocol.CanisterSeesNoBridge | aot/Wasp.AspNetCore.Blazor.Server/wwwroot/wasp-bridge.js:128-184 | in every reachable state the canister's bytes, the POSTs under way and the buffered greeting are the client's bytes in order if and only if no POST overtook a greeting the timer sent; then no POST is rejected and each invocation is raised once and in order; only after a slip can a POST overtake |
| HandshakeProtocol.OvertakingPostIsLost | aot/Wasp.AspNetCore.Blazor.Server/src/IcCircuitTransportImpl.cs:67-90 | the first POST that overtakes is rejected and leaves the transport fresh if and only if no protocol name stands before its first separator |
| HandshakeProtocol.OvertakingShows | aot/Wasp.AspNetCore.Blazor.Server/wwwroot/wasp-bridge.js:155-184 | for any such frames a run in which the timer fires after the bridge's ack, the frames come first and are rejected, the greeting then opens the circuit, and none of the frames is raised |
| HandshakeProtocol.SignalRGreets | aot/Wasp.AspNetCore.Blazor.Server/wwwroot/wasp-bridge.js:68-69 | the greeting SignalR sends is one the theorems are about |
| HandshakeProtocol.SecondAckIffSlipped | aot/Wasp.AspNetCore.Blazor.Server/wwwroot/wasp-bridge.js:232-252 | the delivered stream opens with a second ack if and only if a move slipped |
| HandshakeProtocol.LateTimerShows | aot/Wasp.AspNetCore.Blazor.Server/wwwroot/wasp-bridge.js:152-162 | a run in which the timer fires after the bridge's ack and the client gets two acks |
| HandshakeProtocol.UnstrippedFetchShows | aot/Wasp.AspNetCore.Blazor.Server/wwwroot/wasp-bridge.js:271-271 | a run in which the last fetch of a hold lets the server's ack through |
| HandshakeProtocol.WireIsNoHandshake | aot/Wasp.AspNetCore.Blazor.Server/wwwroot/wasp-bridge.js:145-146 | no run of written frames is ever taken for a greeting |
| HandshakePolls.EstablishedIffPolled | aot/Wasp.AspNetCore.Blazor.Server/wwwroot/wasp-bridge.js:186-208 | in every run a connection counts as established if and only if it has been polled |
| HandshakePolls.PollOpens | aot/Wasp.AspNetCore.Blazor.Server/wwwroot/wasp-bridge.js:186-208 | in every run a poll is answered with the ack alone if and only if a buffered greeting has none yet; otherwise the first poll is fetched once and any later one is held |
| HandshakePolls.FirstPollEnds | aot/Wasp.AspNetCore.Blazor.Server/wwwroot/wasp-bridge.js:200-208 | in every run the first poll, with no ack owed, ends with the first response whatever else happens, whole as it came and even when it is empty |
| HandshakePolls.LaterPollWaits | aot/Wasp.AspNetCore.Blazor.Server/wwwroot/wasp-bridge.js:209-271 | in every run a later poll, with no ack owed, stays open if and only if every response was empty and the hold has not expired |
| StableRegions.StableMemory.EnsureCapacity | aot/Wasp.IcCdk/src/StableRegion.cs:151-161 | grows by zeroed pages to the size asked for and changes no byte there was |
| StableRegions.StableRegion.EnsureInitialized | aot/Wasp.IcCdk/src/StableRegion.cs:98-111 | fresh memory gets its high-water mark; formatted memory stays as it is |
| StableRegions.StableRegion.Alloc | aot/Wasp.IcCdk/src/StableRegion.cs:51-68 | the payload stands at the returned offset behind its length, the mark moves behind it, and nothing below the old mark changes |
| StableRegions.StableRegion.Read | aot/Wasp.IcCdk/src/StableRegion.cs:73-86 | reads what the length before the offset covers, or fails |
| StableRegions.AllocatedStays | aot/Wasp.IcCdk/src/StableRegion.cs:7-27 | after an allocation it and every earlier allocation are there, and the new one lies past all of them |
| StableRegions.HeldIsRead | aot/Wasp.IcCdk/src/StableRegion.cs:73-86 | whatever is allocated is read back |
| CircuitStores.CircuitStore.constructor | aot/Wasp.AspNetCore.Blazor.Server/src/CircuitStore.cs:45-50 | an empty index over the given memory |
| CircuitStores.CircuitStore.Save | aot/Wasp.AspNetCore.Blazor.Server/src/CircuitStore.cs:53-61 | rejects principals above 255 bytes; otherwise allocates the state, indexes it and writes the index out |
| CircuitStores.CircuitStore.Restore | aot/Wasp.AspNetCore.Blazor.Server/src/CircuitStore.cs:64-68 | the bytes the index refers to, or none |
| CircuitStores.CircuitStore.LoadFromStable | aot/Wasp.AspNetCore.Blazor.Server/src/CircuitStore.cs:80-93 | on any offset: the index becomes the image read there, or stays when there is none |
| CircuitStores.CircuitStore.PersistIndex | aot/Wasp.AspNetCore.Blazor.Server/src/CircuitStore.cs:104-129 | an image of the index in some order of its keys is allocated, and its offset remembered |
| CircuitStores.CircuitStore.SizeOf | aot/Wasp.AspNetCore.Blazor.Server/src/CircuitStore.cs:106-111 | the loop counts exactly the bytes of the image |
| CircuitStores.CircuitStore.Fill | aot/Wasp.AspNetCore.Blazor.Server/src/CircuitStore.cs:112-126 | the loop fills the buffer with the image, entry by entry |
| CircuitStores.TryDeserializeIndex | aot/Wasp.AspNetCore.Blazor.Server/src/CircuitStore.cs:131-156 | on any bytes, the loop finds the entries of an image or rejects |
| CircuitStores.ImageIsRead | aot/Wasp.AspNetCore.Blazor.Server/src/CircuitStore.cs:104-156 | reading inverts writing, in whatever order the entries were written |
| CircuitStores.IndexIsRead | aot/Wasp.AspNetCore.Blazor.Server/src/CircuitStore.cs:80-156 | the map read back is the map written |
| CircuitStores.TruncationIsDetected | aot/Wasp.AspNetCore.Blazor.Server/src/CircuitStore.cs:131-156 | every proper prefix of an index image is rejected |
| CircuitStores.ImageIsReadIff | aot/Wasp.AspNetCore.Blazor.Server/src/CircuitStore.cs:131-156 | any bytes are read as these entries if and only if mark, count and the entries' images stand at their front, with short principals and 64-bit offsets and lengths |
| CircuitStores.StoreRefinesMap | aot/Wasp.AspNetCore.Blazor.Server/src/CircuitStore.cs:53-93 | after any run of saves and upgrades Restore is the lookup in a plain map of states |
| CircuitStores.RestoreGivesLastSaved | aot/Wasp.AspNetCore.Blazor.Server/src/CircuitStore.cs:53-100 | across any number of upgrades Restore is the state last saved, as long as every index image fits a byte array |
| CircuitStores.CachedLengthsMatch | aot/Wasp.AspNetCore.Blazor.Server/src/CircuitStore.cs:20-29 | in every run each cached length is the length of what is stored |
| CircuitStores.AllocationsStay | aot/Wasp.IcCdk/src/StableRegion.cs:21-24 | over any run nothing ever allocated changes |
| CircuitStores.EarlierIndexRestoresItsTime | aot/Wasp.AspNetCore.Blazor.Server/src/CircuitStore.cs:80-100 | any index offset ever published still loads the index of its time, with the states of its time |
| HtmlEscaping.EscapedHtml | aot/Wasp.AspNetCore.Blazor.Wasp/src/WaspHtmlRenderer.cs:314-326 | the loop escapes character by character |
| HtmlEscaping.EscapedAttribute | aot/Wasp.AspNetCore.Blazor.Wasp/src/WaspHtmlRenderer.cs:328-340 | the loop escapes character by character |
| HtmlEscaping.EscapedTextIsRead | aot/Wasp.AspNetCore.Blazor.Wasp/src/WaspHtmlRenderer.cs:314-326 | escaped text decodes to the text and holds no angle bracket |
| HtmlEscaping.EscapedAttributeIsRead | aot/Wasp.AspNetCore.Blazor.Wasp/src/WaspHtmlRenderer.cs:328-340 | an escaped value decodes to the value and holds no quote or opening bracket |
| HtmlRenderers.WaspHtmlRenderer.RenderToHtml | aot/Wasp.AspNetCore.Blazor.Wasp/src/WaspHtmlRenderer.cs:61-93 | the flat walk gives exactly the recursive rendering of the component tree and the handlers found in it; a reader of HTML finds in the page the tags, attributes and text of the tree, and its tags balance |
| HtmlRenderers.WholePageIsRead | aot/Wasp.AspNetCore.Blazor.Wasp/src/WaspHtmlRenderer.cs:61-345 | for every tree whose names hold no blank, slash, angle bracket or equals sign: the page reads as the opening and closing tags in preorder, each with its printed attributes and their decoded values, event markers with the id of their key, and the decoded text between; every closing tag closes the innermost open element and none stays open, the void elements of the HTML standard having none, while raw text elements hold their text as printed |
| HtmlRenderers.PageReads | aot/Wasp.AspNetCore.Blazor.Wasp/src/WaspHtmlRenderer.cs:126-272 | the same wherever the page's text stands in a larger one; markup that reads by itself is read as it stands |
| HtmlRenderers.RawTextIsReadIff | aot/Wasp.AspNetCore.Blazor.Wasp/src/WaspHtmlRenderer.cs:142-145 | text in an element whose content is raw, such as style, where no escape is decoded, is read as it was if and only if it has no angle bracket and no ampersand |
| HtmlRenderers.PageIsLevel | aot/Wasp.AspNetCore.Blazor.Wasp/src/WaspHtmlRenderer.cs:176-206 | opening and closing tags come in pairs around the children |
| HtmlRenderers.RenderedIsMarkup | aot/Wasp.AspNetCore.Blazor.Wasp/src/WaspHtmlRenderer.cs:126-206 | a rendered page is markup that reads by itself and balances, so the conditions on markup can be met |
| HtmlPages.TextIsRead | aot/Wasp.AspNetCore.Blazor.Wasp/src/WaspHtmlRenderer.cs:314-326 | escaped text is read as its characters, whatever follows it |
| HtmlRenderers.WaspHtmlRenderer.WriteComponent | aot/Wasp.AspNetCore.Blazor.Wasp/src/WaspHtmlRenderer.cs:120-124 | appends the rendering of the component's own tree; the recursion ends for every finite tree |
| HtmlRenderers.WaspHtmlRenderer.WriteFrames | aot/Wasp.AspNetCore.Blazor.Wasp/src/WaspHtmlRenderer.cs:131-174 | over frames flattened from trees, appends the trees' rendering and returns exactly the end index |
| HtmlRenderers.WaspHtmlRenderer.WriteNode | aot/Wasp.AspNetCore.Blazor.Wasp/src/WaspHtmlRenderer.cs:136-171 | one turn of the loop renders one node and moves past its subtree |
| HtmlRenderers.WaspHtmlRenderer.WriteElement | aot/Wasp.AspNetCore.Blazor.Wasp/src/WaspHtmlRenderer.cs:176-206 | tag, attributes, children and closing tag; void elements end after their attributes; returns the subtree's end |
| HtmlRenderers.WaspHtmlRenderer.WriteAttributes | aot/Wasp.AspNetCore.Blazor.Wasp/src/WaspHtmlRenderer.cs:184-192 | writes exactly the element's own attributes and stops at its first child |
| HtmlRenderers.WaspHtmlRenderer.WriteAttribute | aot/Wasp.AspNetCore.Blazor.Wasp/src/WaspHtmlRenderer.cs:208-272 | event attributes become markers with a handler bound to their id; false and null are left out; values are escaped |
| HtmlRenderers.WaspHtmlRenderer.TryGetHandler | aot/Wasp.AspNetCore.Blazor.Wasp/src/WaspHtmlRenderer.cs:296-305 | finds something exactly for ids in the page; as long as frames that share an id share their handlers, the callback and raw delegate of every frame with that id |
| HtmlRenderers.EventKeyIsInjective | aot/Wasp.AspNetCore.Blazor.Wasp/src/WaspHtmlRenderer.cs:219-225 | component, position and name can be told from the key an id is made from |
| HtmlRenderers.IdsLeadToOwnHandlers | aot/Wasp.AspNetCore.Blazor.Wasp/src/WaspHtmlRenderer.cs:208-258 | every event id in the page leads to the callback, and the raw delegate or none, of the very frame it stands beside, if and only if frames of the page that share an id share their handlers; so it is when the truncated hash separates the keys on the page |
| RenderBatchJson.EscapedJson | aot/Wasp.AspNetCore.Blazor.Wasp/src/WaspRenderEndpoints.cs:187-202 | the loop escapes character by character |
| RenderBatchJson.ExtractJsonString | aot/Wasp.AspNetCore.Blazor.Wasp/src/WaspRenderEndpoints.cs:285-311 | on any text, the loop reads the string behind the first occurrence of the field's marker |
| RenderBatchJson.FieldIsRead | aot/Wasp.AspNetCore.Blazor.Wasp/src/WaspRenderEndpoints.cs:187-311 | what an escaped value reads back as: itself, but for control characters with a `\u` escape |
| RenderBatchJson.KeyEnds | aot/Wasp.AspNetCore.Blazor.Wasp/src/WaspRenderEndpoints.cs:174-185 | nothing in or across the values of a batch looks like the end of a key |
| RenderBatchJson.ReadBackIff | aot/Wasp.AspNetCore.Blazor.Wasp/src/WaspRenderEndpoints.cs:198-198 | a value comes back four characters longer for every such control character |
| RenderBatchJson.BatchRoundTrip | aot/Wasp.AspNetCore.Blazor.Wasp/src/WaspRenderEndpoints.cs:174-311 | each field of every batch is extracted exactly if and only if it has no control character but newline, return and tab |
| RenderBatchJson.NoControlIsWritten | aot/Wasp.AspNetCore.Blazor.Wasp/src/WaspRenderEndpoints.cs:187-202 | escaped text holds no control character |
| RenderBatchJson.EscapedIsJson | aot/Wasp.AspNetCore.Blazor.Wasp/src/WaspRenderEndpoints.cs:187-202 | a reader of JSON strings gives back every string, control characters included, and stops behind its closing quote |
| RenderBatchJson.BatchIsJson | aot/Wasp.AspNetCore.Blazor.Wasp/src/WaspRenderEndpoints.cs:174-202 | for every batch the text is one JSON object whose members are exactly its three fields |
| WasmContainers.ReadUleb128 | runtime/scripts/webcil_to_dll.py:51-64 | the shifting loop reads the number, or fails past the end or after ten bytes |
| WasmContainers.ExtractWebcilPayload | runtime/scripts/webcil_to_dll.py:67-121 | on any bytes, the walk over the sections ends with the payload or the right failure |
| WasmContainers.CanonicalEncodes | runtime/scripts/webcil_to_dll.py:51-64 | the canonical encoding of any number of up to 70 bits is one the reader accepts |
| WasmContainers.ExtractionInvertsWrapping | runtime/scripts/webcil_to_dll.py:67-121 | extraction inverts wrapping past any number of earlier sections, for every padding of the sizes and whatever follows |
| WasmContainers.ExtractedWasWrapped | runtime/scripts/webcil_to_dll.py:67-121 | whatever is extracted is the second of two passive segments in the first data section of a module that opens with the mark and version 1, every number of it in an accepted encoding |
| Webcils.ParseWebcil | runtime/scripts/webcil_to_dll.py:157-197 | on any payload, header and section table or the right failure |
| Webcils.ParsingInvertsWriting | runtime/scripts/webcil_to_dll.py:135-197 | parsing gives back the header of either version and the section table that were written |
| Webcils.WritingInvertsParsing | runtime/scripts/webcil_to_dll.py:135-197 | whatever parses opens with exactly the header, of one of the two versions, and the section table that were found in it |
| PortableExecutables.PlaceSections | runtime/scripts/webcil_to_dll.py:336-344 | the loop lays the sections out from the headers on |
| PortableExecutables.BuildTable | runtime/scripts/webcil_to_dll.py:447-471 | the loop writes one entry per section, or fails at the first offset or size that does not fit its field |
| PortableExecutables.FindBases | runtime/scripts/webcil_to_dll.py:363-371 | the first address of the code section and the first non-zero one of the others |
| PortableExecutables.SumSizes | runtime/scripts/webcil_to_dll.py:352-361 | the sizes of code and of everything else |
| PortableExecutables.FindImageSize | runtime/scripts/webcil_to_dll.py:346-350 | the loop finds the end of the topmost section, rounded up |
| PortableExecutables.AppendSections | runtime/scripts/webcil_to_dll.py:483-504 | the loop appends every padded section, never at another offset than its table entry says; fails exactly when one is truncated, which an empty one never is |
| PortableExecutables.WebcilToDll | runtime/scripts/webcil_to_dll.py:321-504 | on any bytes, the converter gives the file the theorems below are about, or fails |
| PortableExecutables.ConvertsIff | runtime/scripts/webcil_to_dll.py:346-504 | conversion succeeds if and only if there is a section, all lie inside the payload, and the sums of padded sizes, the raw sizes and every section's end stay clear of 2^32; a field that does not fit fails as such, before any truncation is noticed |
| PortableExecutables.FileSizeIsAligned | runtime/scripts/webcil_to_dll.py:299-300 | rounding up gives the least multiple that is large enough |
| PortableExecutables.LayoutIsContiguous | runtime/scripts/webcil_to_dll.py:336-344 | sections lie one behind the other from the headers to the end of the file |
| PortableExecutables.HeadersFilled | runtime/scripts/webcil_to_dll.py:327-334 | headers and section table fill exactly the size computed for them |
| PortableExecutables.SectionsMoved | runtime/scripts/webcil_to_dll.py:321-504 | read through its own DOS, COFF and section headers, the file lists every section aligned and contiguous up to its end, each with its bytes and then zeros, and with the name and characteristics of its place |
| PortableExecutables.HeadersReadBack | runtime/scripts/webcil_to_dll.py:346-471 | read through the file's own DOS and COFF headers, the optional header has the constants of a managed assembly, directory 14 with address and size of the CLI header, directory 6 with those of the debug directory when both are there and all others empty; the headers end where the first section starts, the sizes add up, the image covers every section, and of up to three sections the first alone is executable and is the code the header speaks of |
| PortableExecutables.KindsOf | runtime/scripts/webcil_to_dll.py:447-471 | of up to three sections the first is executable code, the last of several is discardable, and no other is either |
| PortableExecutables.NamesOf | runtime/scripts/webcil_to_dll.py:447-471 | the names are .text, .rsrc and .reloc by place, padded to eight bytes |
| PortableExecutables.FileRangesDisjoint | runtime/scripts/webcil_to_dll.py:336-344 | no two sections overlap in the file, and none overlaps the headers |
| PortableExecutables.EveryAddressKeepsItsByte | runtime/scripts/webcil_to_dll.py:321-504 | at every virtual address the loaded file has the byte the webcil image has |
| PortableExecutables.ImageCovers | runtime/scripts/webcil_to_dll.py:346-350 | the image size covers every section |
| PortableExecutables.ConversionOfWrapped | runtime/scripts/webcil_to_dll.py:321-504 | converting a module that wraps a webcil image is converting that image |

## Left out

- SHA-256, CBOR and base64 encoding, and the system certificate: the hash is an arbitrary function, a header is the tree and label list it carries, the certificate is there or not.
- BuildBalancedLabeled: a parameter wherever only the in-order labels matter; the halving the code uses is one instance. The order in which the sort leaves equal labels is a parameter too.
- RegisterPassThroughPath: the set of HTTP methods is not kept, since nothing reads it; paths are ASCII, so ordinal order is byte order.
- Query-mode calls keep their changes in the model; a replica discards them, which leaves the state of an earlier run.
- UTF-8 decoding of strings on the wire: strings are their bytes, so the replacement of malformed sequences is not modelled, nor are lone surrogates in the rendered text.
- IcCircuitTransport.InvokeCoreAsync: the conversion of a result to the caller's type, and the wrap-around of the 64-bit call counter.
- IcCircuitTransport.HandleInbound: subscribers that call back into the transport while a message is raised.
- BlazorPackReader.Cursor.SkipValue: the stack depth that deep nesting needs.
- CircuitHubFacade: a parameter of the dispatcher; the text an exception is reported with is one too.
- TypeLimits: strings and arrays are below 2^31 bytes, as in the runtime; its slightly lower limit for byte arrays is not modelled.
- The bridge's hold loop is the moves of `HandshakeProtocol`, since other requests run at each of its awaits; real time, polling cadence, aborts, failed requests and missing content lengths are not modelled, and the client has one poll open and one POST of its own under way at a time; it may go on after one of them was rejected.
- Combine: the fallback for request bodies that are not byte arrays.
- StableRegion.Alloc: running out of stable memory, which traps and undoes the whole message; the caller has room below 2^64.
- CircuitStore.Save: an index image of 2^31 bytes or more fails in the model as the allocation of its buffer does; the wrap-around of the 32-bit position near that size is not modelled.
- StableCell slots and the place where the index offset is kept between upgrades.
- WaspHtmlRenderer.WriteAttribute: case folding outside ASCII; reflection on callbacks is the optional raw delegate of a callback.
- WaspHtmlRenderer.RenderToHtml: dependency injection and the framework's own rendering; the frame arrays are those of finite component trees.
- ExtractJsonStringMap, ExtractQueryParam and the endpoints around the JSON text.
- HtmlPages.Tokens: knows the four character references the renderer writes, tags, and attributes in double quotes; comments, other references, single or missing quotes and case folding of names are not read, and elements inside text areas and titles, which a browser takes for text, are read as elements.
- RenderBatchJson.JsonObject: objects of strings only; escaped surrogate pairs are not read.
- The message printed when the declared payload size differs, and the command line of the converter.
- The scripts that patch WebAssembly text, the router, the source generator, hosting and static files.
