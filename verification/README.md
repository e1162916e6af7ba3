# Relay models

Dafny models of the hard cores of a tunnelling relay and its public-object cache, with
proofs about them. `dafny verify dfyconfig.toml` checks all of them.

| files | what they model |
|---|---|
| `Basics`, `Totals` | bytes, digests, addresses, results; sums over finite maps |
| `TreeHash`, `ChunkTree` | the DMTAP-PUB chunk tree: the split rule of section 2.1 of RFC 6962, reduction by levels, the stack construction |
| `RangeProof` | audit paths (section 2.1.1 of RFC 6962), their verifier, soundness and completeness |
| `Cbor`, `CborGrammar`, `CborParse` | the strict CBOR scanner and parsers (section 3 and section 4.2.1 of RFC 8949), against a grammar of data items |
| `ProofCodec`, `Manifest` | the proof encoding; manifest verification and the gate |
| `WireBytes` | the formats byte for byte and their limits as numbers, apart from the definitions |
| `ClientProof` | the TypeScript client's copy of tree, codec and verifier, with JavaScript number conversions written out |
| `AddressNames`, `LruStore`, `Service` | address text and cache keys, the LRU cache, the one read path |
| `PinModel`, `PinLoad`, `PinStore` | the durable pin store: its locked steps, reading the index back, the store as it runs |
| `PinInterleavings`, `PinPlan`, `PinResults` | quarantines running inside a pin: what they do, the state a pin ends in, and what that means over every schedule |
| `PinCalm`, `PinCrash`, `PinOthers`, `PinExamples` | pins nothing disturbs; crashes on the way; what others may do meanwhile; schedules at which a pin disappoints |
| `MeterModel`, `Meter` | usage metering over a lossy link to a deduplicating control plane |
| `RateLimiter`, `Queue` | the rendezvous token bucket and blob queue |
| `Detector`, `Pool`, `Autoscaler` | saturation detection, pool membership, single-flight resizing |

The hash is an arbitrary function from byte strings to 32-byte digests, a parameter
everywhere; nothing assumes it injective. Soundness is by extraction: either the claim
holds, or a function of the inputs returns two different strings with one digest, each
located in a named finite set of strings the two parties hashed. (That two such strings
merely exist would be true of any hash.)

State that the source mutates is a class whose methods are proved against functions on a
value of the state; the properties of whole runs are then lemmas about those functions.
Concurrency is a schedule: a pin takes the quarantines that run at each point where it
does not hold the lock, a read what others have made of the store, a flush takes what happens between its sends, and the scaler is a
step relation. Clocks, fetched bytes, disk and network failures, fresh ids and the
provisioner's answers are parameters.

## Findings

Properties the code does not have, each with the exact condition under which it does:

- Map items are doubled in 64 bits, so a map head of 2^63 or more pairs is skipped as if
  it were short (`CborGrammar.WrappedMapIsSkipped`), and the two-byte simple values `f8 18`
  to `f8 1f`, which section 3.3 of RFC 8949 reserves, are skipped too
  (`CborGrammar.ReservedSimpleIsSkipped`). A skipped span is one well-formed data item
  exactly when no head in it is either (`CborGrammar.SkippedIsOneItem`).
- The client takes siblings with a 32-bit xor. From index 2^31 its verifier parts from the
  node's exactly when some level promotes such a node and the path is not too long for
  both (`ClientProof.VerifiersAgree`, `ClientProof.VerifiersPart`), its path builder is
  wrong (`ClientProof.BuildProof`), and from 2^32 its encoder is (`ClientProof.EncodeProof`).
  All are right within the manifest limit of 2^20 chunks. Rounding of level widths above
  2^53 changes no side (`ClientProof.SidesAgree`).
- The node's level width wraps at a claimed count of 2^63 - 1, and a proof with one sibling
  is accepted there (`RangeProof.WrappedCountAccepts`); at every smaller count the sides
  are the tree's, and there they never are (`RangeProof.WidthsExact`).
- client/src/chunkProof.ts:415-421 says a wrong chunk count is always rejected. It is not:
  a true chunk can be accepted at an index it does not have
  (`RangeProof.WrongCountMisplaces`). What is accepted is still a committed chunk or a
  collision, at a place with the same sides (`RangeProof.AcceptedIsCommitted`), and every
  chunk at such a place is accepted (`RangeProof.AcceptedWhenSidesAgree`).
- A manifest's address fixes its chunk list (`Manifest.AddressFixesChunks`) but not its
  bytes (`Manifest.AddressLeavesSizeOpen`).
- tunnel/pubcache/pin.go:63-66 promises that nothing is served unverified. A file that rots
  after its first verified read is served unhashed (`PinModel.RotIsServed`). Rot does harm
  exactly when it reaches a held object already marked and leaves bytes that do not verify
  (`PinModel.RotHarms`); what is served verifies exactly while no such mark exists
  (`PinModel.ServedVerifies`, `Service.Lookup`), and no step of the store makes one
  (`PinOthers.StepMeanwhile`).
- A pin that found an object present does not claim it, so a quarantine inside the pin can
  reclaim it and the pin is done with a record that names an object not held
  (`PinExamples.DoneButIncomplete`); exactly when is `PinResults.PinCompleteness`.
- Of two readers of a rotten object the second can quarantine it after a pin has written it
  again and before the pin claims it. The pin is done, the books have the object, the file
  is gone, and a restart does not bring the pin back (`PinExamples.DoneButGone`). A done pin
  has all its files, and comes back, exactly when `PinResults.PinDurability` says.
- A quarantine between entering a record and releasing the claims can leave objects on disk
  that no pin names: after a commit (`PinExamples.DoneAndLeaks`), and after a failed index
  write (`PinExamples.RefusedAndLeaks`). Exactly when, in both branches and over every
  schedule, is `PinResults.PinNaming`. Byte accounting and budgets hold even then.
- A quarantine in that window writes the index with the record in it, so a pin refused for a
  failing index write can be there after a restart (`PinExamples.RefusedButBack`); exactly
  when is `PinResults.RefusedPinReturns`.
- An index with two records of one root leaves objects of the first held and unnamed
  (`PinLoad.RepeatedRootLeaks`); load ends healthy exactly when every object that a whole
  entry names is named by a pin (`PinLoad.LoadedHealthy`), as it is for an index the store
  wrote (`PinLoad.OwnIndexIsRecovered`).
- A requested TTL is multiplied in 64 bits: some 292 years or more wraps, and the blob may
  expire at once (`Queue.HugeRequestExpiresAtOnce`, `Queue.ClampMeetsRequest`).
- Eviction of an idle key gives tokens back. For any settings it shows in some later calls
  exactly when a full bucket is good for other calls than the evicted one, refilled, or the
  burst is below one token (`RateLimiter.EvictionShowsExactly`); for a whole burst that is
  when the bucket was not full again (`RateLimiter.WholeBurstAlike`).
- The rate bound holds over every run exactly when the burst is at least one token and no
  bucket is good for more calls than are earned by the time it can have been evicted and
  replaced (`RateLimiter.RateBoundExactly`); for a whole burst that is when a bucket refills
  within the idle TTL and a nanosecond (`RateLimiter.PatientPaces`).
- If an operation completes between a tick's size check and its launch, the pool can pass
  its ceiling (`Autoscaler.SplitTickOverflows`). The bounds hold over every run whose
  launches find the room they were decided for (`Autoscaler.RunKeeps`), and a launch that
  does not can be continued to a breach (`Autoscaler.LaunchBreaksExactly`).
- The detector's defaults are not idempotent, exactly when a duration was disabled
  (`Detector.DefaultsTwice`).

## Model

| member | source | states |
|---|---|---|
| `TreeHash.SplitPointUnique` | tunnel/pubcache/merkle.go:43-46 | the split point is the one power of two below n and at least half of it |
| `TreeHash.MthReduce` | tunnel/pubcache/proof.go:54-71 | pairing one level, the odd node promoted, leaves the RFC 6962 tree hash unchanged, for any node function |
| `TreeHash.LevelRootIsMth` | tunnel/pubcache/proof.go:27-34 | reducing level by level to one node gives the RFC 6962 tree hash, for every non-empty list and any node function |
| `TreeHash.MthMerge` | tunnel/pubcache/merkle.go:52-69 | the tree over a perfect left part and a no longer right part is the node of the two trees |
| `TreeHash.LevelPathIsRfcPath` | tunnel/pubcache/proof.go:82-104 | the siblings met level by level are the audit path of section 2.1.1 of RFC 6962 |
| `TreeHash.LevelSidesIsRfcSides` | tunnel/pubcache/proof.go:143-158 | index parity and level width alone give the sides at which a leaf enters each RFC 6962 node |
| `TreeHash.RfcSidesInjective` | tunnel/pubcache/proof.go:122-169 | in a tree of one size, different leaves have different sides |
| `TreeHash.LevelSidesBound` | tunnel/pubcache/proof.go:49-52 | a leaf among at most 2^e has a path of at most e siblings |
| `TreeHash.RfcPathFolds` | tunnel/pubcache/proof.go:122-169 | folding a leaf with its audit path, by its sides, gives the tree hash |
| `ChunkTree.MerkleRoot` | tunnel/pubcache/merkle.go:47-78 | the stack of perfect subtrees, folded right to left, yields the RFC 6962 tree hash of the leaves, left child before right (`ChunkTree.SmallRoots`) |
| `ChunkTree.ManifestRoot` | tunnel/pubcache/merkle.go:82-88 | the address is the prefix and that tree hash; of two chunks, byte for byte: 0x1e and the hash of the 22 tag bytes, 0x01, and the leaf digests of the first and the second, each the hash of tag, 0x00 and address |
| `ChunkTree.SmallRoots` | tunnel/pubcache/merkle.go:19-88 | the addresses of one, two and three chunks written out byte for byte |
| `ChunkTree.TreeRootSplit` | tunnel/pubcache/merkle.go:43-46 | the root over a list is the node over the roots of its two split parts |
| `RangeProof.ReduceLevel` | tunnel/pubcache/proof.go:61-71 | the loop computes one level from the last, the odd node promoted |
| `RangeProof.ChunkProof` | tunnel/pubcache/proof.go:82-104 | in range, the RFC 6962 audit path; out of range or empty, the range error |
| `RangeProof.VerifyChunkProof` | tunnel/pubcache/proof.go:122-169 | accepts exactly when index and path length fit the width and the fold by sides reaches the root, level widths halved in 64 bits; no path of more than 40; which error otherwise |
| `RangeProof.WidthsExact` | tunnel/pubcache/proof.go:137-155 | the sides the verifier takes are those of a tree of the claimed count exactly when that is below 2^63 - 1, where the width wraps |
| `RangeProof.WrappedCountAccepts` | tunnel/pubcache/proof.go:153-155 | for any hash, the second chunk of two is accepted as the second of 2^63 - 1, by a path too short for such a tree |
| `RangeProof.PreimagesApart` | tunnel/pubcache/merkle.go:19-41 | leaf and node strings are injective and never equal each other |
| `RangeProof.TraceExplains` | tunnel/pubcache/proof.go:122-169 | a fold that reaches the root is explained: it starts at a committed leaf with that leaf's sides and audit path, or two located strings collide |
| `RangeProof.AcceptedIsCommitted` | tunnel/pubcache/proof.go:137-168 | for any claimed 64-bit count, an accepted chunk is a member of the committed list, at a place with the sides the verifier takes, with its honest path; or a collision is exhibited |
| `RangeProof.AcceptedAtIndex` | tunnel/pubcache/proof.go:122-169 | with the true count the accepted chunk's address is the one at the claimed index and the path is the honest one; or a collision is exhibited |
| `RangeProof.AcceptedBytes` | tunnel/pubcache/proof.go:122-169 | against the blob itself: the accepted bytes are the chunk at that index, or a collision is exhibited |
| `RangeProof.AcceptedWhenSidesAgree` | tunnel/pubcache/proof.go:137-168 | the converse: any committed chunk is accepted under any count and index with its sides |
| `RangeProof.WrongCountMisplaces` | client/src/chunkProof.ts:415-421 | a concrete tree in which a wrong count makes a true chunk pass at a wrong index |
| `RangeProof.HonestAccepted` | tunnel/pubcache/proof.go:82-169 | the path ChunkProof builds is accepted for the real chunk, in every tree of up to 2^40 chunks |
| `RangeProof.HonestPathBound` | tunnel/pubcache/proof.go:49-52 | an honest path over at most 2^e chunks has at most e elements |
| `WireBytes.PairAccepted` | tunnel/pubcache/proof.go:122-169 | a single chunk is accepted with no sibling and its own root, a chunk of two with the other digest on its own side, the hashed strings written out; nothing else is |
| `Cbor.BigEndianRoundTrip` | tunnel/pubcache/cbor.go:39-86 | big-endian bytes of a number read back as it |
| `Cbor.BigEndianCanonical` | tunnel/pubcache/cbor.go:39-86 | and a number read from bytes renders as those bytes |
| `Cbor.HeadBytes` | tunnel/pubcache/cbor.go:39-86 | the shortest head of a major type and argument, byte for byte in its five forms |
| `Cbor.ReadHeadExact` | tunnel/pubcache/cbor.go:39-86 | a head is read exactly when the input starts with the shortest encoding of a major type and argument |
| `Cbor.SkipValue` | tunnel/pubcache/cbor.go:89-145 | a skipped value has between one byte and all of them |
| `Cbor.SkipItems` | tunnel/pubcache/cbor.go:113-120 | skipped items take at least a byte each and stay within the input |
| `Cbor.ScanValue` | tunnel/pubcache/cbor.go:89-145 | the loop over offsets computes the recursive scan, with the map count doubled in 64 bits |
| `CborGrammar.ScanAccepts` | tunnel/pubcache/cbor.go:89-145 | every item the scanner counts right, within the depth bound, is skipped whole, whatever follows |
| `CborGrammar.ScanParses` | tunnel/pubcache/cbor.go:89-145 | whatever is skipped is the encoding of an item the scanner counts right |
| `CborGrammar.ScanIsLocal` | tunnel/pubcache/cbor.go:89-145 | the answer depends only on the skipped bytes |
| `CborGrammar.ScanIsPrefixFree` | tunnel/pubcache/cbor.go:89-145 | no proper prefix of a skipped value is itself skipped |
| `CborGrammar.EncodeUnique` | tunnel/pubcache/cbor.go:39-145 | two items whose encodings start the same input are one item |
| `CborGrammar.SkippedIsOneItem` | tunnel/pubcache/cbor.go:89-145 | a skipped span is one well-formed data item of RFC 8949 exactly when no map argument in it wraps when doubled and no simple value in it is a reserved one |
| `CborGrammar.WrappedMapIsSkipped` | tunnel/pubcache/cbor.go:107-109 | a nine-byte input that is skipped and is no data item |
| `CborGrammar.ReservedSimpleIsSkipped` | tunnel/pubcache/cbor.go:128-133 | each of f8 18 to f8 1f is skipped, and none is a well-formed data item |
| `WireBytes.ByFirstByte` | tunnel/pubcache/cbor.go:89-145 | the length of an item, or that of its items, told from the number its first byte is |
| `WireBytes.DepthLimit` | tunnel/pubcache/cbor.go:29-92 | one-item arrays inside each other are skipped exactly down to depth 16 |
| `WireBytes.ItemLimit` | tunnel/pubcache/cbor.go:107-120 | an array of n zeros is skipped exactly up to 2^20 of them, a map of zeros up to 2^19 pairs |
| `CborParse.ParseUintKeyedMap` | tunnel/pubcache/cbor.go:158-196 | the loop with its offset and previous key computes the recursive parser |
| `CborParse.ParseMapExact` | tunnel/pubcache/cbor.go:158-196 | a map parses to entries exactly when it is their rendering, keys strictly increasing, each value one skipped span: parsing loses nothing |
| `CborParse.KeysIncrease` | tunnel/pubcache/cbor.go:173-180 | any earlier key is smaller than any later one |
| `WireBytes.TwoEntries` | tunnel/pubcache/cbor.go:158-196 | two entries with small keys parse exactly when the keys increase |
| `CborParse.ParseAddrArray` | tunnel/pubcache/cbor.go:201-241 | the loop computes the recursive address-array parser |
| `CborParse.ParseAddressesExact` | tunnel/pubcache/cbor.go:201-241 | an array parses to addresses exactly when it is their rendering, not empty, within the count bound, all of the supported prefix |
| `WireBytes.OneAddress` | tunnel/pubcache/cbor.go:201-241 | a list of one address, byte for byte: read when its prefix is 0x1e and otherwise refused for the address; an empty list is malformed |
| `ProofCodec.EncodeChunkProof` | tunnel/pubcache/proof.go:177-187 | the loop renders the index and path |
| `ProofCodec.DecodeChunkProof` | tunnel/pubcache/proof.go:193-249 | the loop computes the recursive decoder, error for error |
| `ProofCodec.ReadProofExact` | tunnel/pubcache/proof.go:177-268 | decoding gives a proof exactly when its index is at most 1048576, its path at most 40, and the bytes are its rendering: decode inverts encode and nothing else is accepted |
| `WireBytes.TwoSiblings` | tunnel/pubcache/proof.go:177-187 | a proof with two siblings, byte for byte |
| `Manifest.RequireUintFieldExact` | tunnel/pubcache/verify.go:107-122 | a field holds an integer below the limit exactly when it is its shortest encoding |
| `Manifest.ReadIdExact` | tunnel/pubcache/verify.go:142-205 | the id field holds an address exactly when it is its rendering |
| `Manifest.VerifiedManifestChunks` | tunnel/pubcache/verify.go:142-205 | the loop over fields with presence flags computes the specified verification |
| `Manifest.VerifiedChunksExact` | tunnel/pubcache/verify.go:142-205 | verification gives chunks exactly when the body renders the allowed fields, names the wanted id, and the chunks root at it |
| `WireBytes.FieldRules` | tunnel/pubcache/verify.go:156-194 | what each field must be, by the number of its key: 1 to 4 and 6, the forbidden 5, the unknown below 64, the rest; and which error |
| `WireBytes.VerifiedFields` | tunnel/pubcache/verify.go:142-205 | a verified manifest has the five fields and no other key below 64, names the address wanted, and its chunks root there |
| `WireBytes.RefusedFor` | tunnel/pubcache/verify.go:195-203 | a map whose fields are all as they must be is refused for the address, or as malformed exactly when one of the five is missing |
| `WireBytes.LicenceMeans` | tunnel/pubcache/verify.go:57-71 | bytes are licensed under 0x1e and their hash, a manifest under the address it verifies for; which error otherwise |
| `Manifest.AddressFixesBytes` | tunnel/pubcache/verify.go:57-71 | two bodies verified for one hashed address are equal or collide |
| `Manifest.FirstDifferenceCollides` | tunnel/pubcache/merkle.go:47-88 | two lists with one root: the first place their trees differ is a collision inside them |
| `Manifest.AddressFixesChunks` | tunnel/pubcache/verify.go:142-205 | two manifest bodies verified for one address carry the same ordered chunks, or a collision is exhibited |
| `Manifest.AddressLeavesSizeOpen` | tunnel/pubcache/verify.go:142-205 | for any list there are two different bodies that verify for its address |
| `Manifest.ServedProofIsAccepted` | tunnel/pubcache/service.go:521-540 | for every verified manifest and index, the encoded proof is in bounds, decodes to the same index and path, has at most 20 siblings, and verifies against the real chunk |
| `ClientProof.HeadsAgree` | client/src/chunkProof.ts:270-302 | client and node read the same heads, up to the value of arguments beyond 32 bits |
| `ClientProof.DecodeProof` | client/src/chunkProof.ts:318-359 | the client's decoder accepts the same byte strings as the node's, with the same results |
| `ClientProof.HeadEncodersAgree` | client/src/chunkProof.ts:381-387 | the head encoders agree exactly below 2^32 |
| `ClientProof.EncodeProof` | client/src/chunkProof.ts:368-378 | the client renders a proof as the node does exactly for indices below 2^32 |
| `ClientProof.ManifestRoot` | client/src/chunkProof.ts:220-228 | folding levels gives the node's root; an empty list or a malformed address is refused |
| `ClientProof.BuildProof` | client/src/chunkProof.ts:241-256 | the client's path is the RFC 6962 audit path exactly for indices below 2^31 |
| `ClientProof.XorMeans` | client/src/chunkProof.ts:241-256 | the sibling index is one more or one less, less a multiple of 2^32 that brings it into the signed 32 bits |
| `ClientProof.ToNumberMeans` | client/src/chunkProof.ts:270-302 | an argument beyond 32 bits is rounded to the nearest number, at a tie to the even one |
| `ClientProof.SidesAgree` | client/src/chunkProof.ts:452-464 | for every count a JavaScript number holds, with level widths rounded as numbers are, client and tree have the same sides exactly when no node at 2^31 or beyond is promoted |
| `ClientProof.LowIndexIsSafe` | client/src/chunkProof.ts:452-464 | no index below 2^31 meets that |
| `ClientProof.VerifiersAgree` | client/src/chunkProof.ts:428-477 | for every count below 2^63 that is a JavaScript number, the two verifiers accept the same claims exactly when no such promotion happens or the path is too long for both |
| `ClientProof.VerifiersPart` | client/src/chunkProof.ts:453-454 | for any hash, at 2^31 + 1 chunks, a claim that the node accepts and the client rejects |
| `ClientProof.VerifyProof` | client/src/chunkProof.ts:428-477 | argument checks and fold: accepts exactly the specified claims |
| `ClientProof.FoldAndCompare` | client/src/chunkProof.ts:447-476 | the fold loop, its widths rounded as numbers are, and the byte comparison accept exactly when the path is used up and reaches the root |
| `ClientProof.VerifyChunkResponse` | client/src/chunkProof.ts:520-527 | returns the chunk exactly when the response decodes, is for the requested index, and verifies |
| `ClientProof.ResponseIsHonest` | client/src/chunkProof.ts:507-527 | over trees of up to 2^20 chunks an accepted response carries the chunk asked for and is byte for byte the honest one, or a collision is exhibited |
| `ClientProof.HonestResponseAccepted` | client/src/chunkProof.ts:507-527 | and the honest response is accepted |
| `AddressNames.LettersRoundTrip` | tunnel/pubcache/addr.go:77-78 | base64url text decodes to the bytes it encodes |
| `AddressNames.ParseAddrExact` | tunnel/pubcache/addr.go:86-108 | text parses to an address exactly when it is that address's canonical text and the prefix is supported: one spelling each, line breaks included |
| `AddressNames.TextIsGroups` | tunnel/pubcache/addr.go:77-78 | the text of an address is the text of its three-byte groups, in order |
| `AddressNames.GroupMeans` | tunnel/pubcache/addr.go:77-78 | three bytes are written as the four digits of their number to the base of 64, in the base64url alphabet |
| `AddressNames.CacheKeyInjective` | tunnel/pubcache/store.go:84-88 | a cache key determines kind and address |
| `AddressNames.CacheKeyMeans` | tunnel/pubcache/store.go:84-88 | a cache key is "announce:", "manifest:" or "chunk:" and the address text |
| `LruStore.LongestFitUnique` | tunnel/pubcache/store.go:149-159 | there is only one longest front part that the cap allows |
| `LruStore.IndexedFront` | tunnel/pubcache/store.go:134-147 | adding or moving to the front keeps list and map in bijection and changes the total by the difference |
| `LruStore.IndexedRemove` | tunnel/pubcache/store.go:161-166 | removing keeps the bijection and gives back the entry's bytes |
| `LruStore.Store.EvictLocked` | tunnel/pubcache/store.go:149-159 | keeps exactly the longest front part within the cap: the shortest least-recent suffix goes |
| `LruStore.Store.Get` | tunnel/pubcache/store.go:93-112 | a hit exactly when the key is held and, if a TTL is set, no older than it; a hit is verified for its key and becomes most recent; an expired entry goes; all else stays |
| `LruStore.Store.Put` | tunnel/pubcache/store.go:121-147 | over a cap nothing changes; a held key keeps its body and is refreshed; a new entry survives in front and only the forced suffix goes |
| `LruStore.Store.RemoveLocked` | tunnel/pubcache/store.go:161-166 | entry, map slot and bytes go together |
| `Service.LicensedMeans` | tunnel/pubcache/service.go:475-485 | the store's licence for a cache key is verification for exactly its kind and address |
| `Service.Lookup` | tunnel/pubcache/service.go:447-487 | which of pin, cache and upstream answers; the cache afterwards: unchanged when a pinned copy answers, the entry in front on a hit, verified upstream bytes that fit the caps entered in front at this time, and no new key when nothing verifies; what is served verifies for the address unless a pinned object was hashed before and the file read now does not verify, and then exactly it is served; no wrong hash mark is made, whatever others do meanwhile |
| `Service.FromCache` | tunnel/pubcache/service.go:464-487 | the path past the pin store: the cache if it has an unexpired entry, else upstream, verified; and the cache it leaves, in each case |
| `PinModel.DroppedAccounted` | tunnel/pubcache/pin.go:682-704 | dropping objects keeps bytes equal to the sum of distinct sizes |
| `PinModel.ReclaimedNamed` | tunnel/pubcache/pin.go:682-704 | after reclaiming, what is held is exactly what was held and is named or claimed |
| `PinModel.QuarantineKeeps` | tunnel/pubcache/pin.go:417-440 | quarantine keeps the books, frees only, leaves everything named, and keeps untouched pins as they were |
| `PinModel.QuarantineMeans` | tunnel/pubcache/pin.go:417-440 | quarantine field by field: which pins, objects, marks and files go, and the index |
| `PinModel.QuarantineHealthy` | tunnel/pubcache/pin.go:417-440 | on a healthy store exactly the pins that needed the object go, and the store is healthy |
| `PinModel.QuarantineRun` | tunnel/pubcache/pin.go:417-440 | a run of quarantines drops exactly the pins it touches, and no claimed object it does not name |
| `PinModel.UnpinKeeps` | tunnel/pubcache/pin.go:650-676 | unpinning frees exactly what no remaining pin names, keeps the books, and keeps a healthy store healthy |
| `PinModel.UnpinMeans` | tunnel/pubcache/pin.go:650-704 | unpinning field by field: pins, objects and sizes, marks, files, index, claims, bytes |
| `PinModel.RecoveredHealthy` | tunnel/pubcache/pin.go:222-309 | whatever pins the index has and whatever files there are, recovery ends healthy: complete pins, files exactly the objects referenced, bytes their total |
| `PinModel.RecoveredPins` | tunnel/pubcache/pin.go:238-281 | load brings back every indexed pin whose files are there, unchanged, and no other |
| `PinModel.RestartIsLossless` | tunnel/pubcache/pin.go:187-290 | restarting a healthy store brings back its pins, objects and bytes |
| `PinModel.SurvivorsAreRecovered` | tunnel/pubcache/pin.go:222-290 | after a crash at a safe disk, load brings back every pin outside the exception, complete |
| `PinModel.RolledBack` | tunnel/pubcache/pin.go:541-554 | giving a pin up restores pins, objects, pending and bytes |
| `PinModel.RolledBackHealthy` | tunnel/pubcache/pin.go:541-554 | and leaves a healthy store healthy |
| `PinModel.CommittedHealthy` | tunnel/pubcache/pin.go:623-646 | a committed pin over held and new objects leaves a healthy store |
| `PinModel.CommittedMeans` | tunnel/pubcache/pin.go:604-646 | a commit field by field: the record, in the index too, and the new objects, their sizes, marks and files |
| `PinModel.ServedVerifies` | tunnel/pubcache/pin.go:374-405 | everything served verifies exactly while every mark on a held, present object is right |
| `PinModel.ServedMeans` | tunnel/pubcache/pin.go:374-405 | a held object whose file is there is served exactly when it is marked or verifies, with the bytes of the file |
| `PinModel.GateMeans` | tunnel/pubcache/verify.go:57-71 | the gate of a real store: a manifest passes when its chunks verify, anything else when its address is 0x1e and its hash |
| `PinModel.RotHarms` | tunnel/pubcache/pin.go:56-68 | a file changed on disk makes a mark wrong exactly when its object is held and marked and the new bytes do not verify |
| `PinModel.RotIsServed` | tunnel/pubcache/pin.go:377-404 | bytes that do not verify are served exactly when the object was marked before they changed |
| `PinModel.QuarantineAllMarks` | tunnel/pubcache/pin.go:417-440 | quarantines leave no wrong hash mark |
| `PinModel.UnpinMarks` | tunnel/pubcache/pin.go:669-673 | nor does unpinning |
| `PinModel.QuarantineSurvives` | tunnel/pubcache/pin.go:417-440 | a crash between a quarantine's disk steps loses only the pins that need the object |
| `PinInterleavings.PinsAfter` | tunnel/pubcache/pin.go:556-621 | after any events inside a pin the pins are exactly those no quarantine touched, unchanged |
| `PinInterleavings.HeldExactly` | tunnel/pubcache/pin.go:556-621 | over every interleaving inside a pin: an object it claimed is held exactly when not quarantined since; one it did not, when it was held and no quarantine ran, or none was of it and some pin naming it was untouched |
| `PinInterleavings.CommittedCompleteExactly` | tunnel/pubcache/pin.go:632-646 | in the books, a committed record is complete exactly when it was when entered and no quarantine in the window touches it |
| `PinInterleavings.FiledExactly` | tunnel/pubcache/pin.go:556-621 | over every orderly interleaving, whose file is in place: one written on the way when its object was not quarantined since; another when it was there, no quarantine was of it and none reclaimed it |
| `PinInterleavings.CommittedOnDiskExactly` | tunnel/pubcache/pin.go:632-646 | on disk, a committed record is complete exactly when it was when entered and no quarantine in the window touches it |
| `PinInterleavings.CommittedIsRecovered` | tunnel/pubcache/pin.go:218-272 | and then exactly a restart brings it back, unchanged |
| `PinInterleavings.WithdrawnIsRecovered` | tunnel/pubcache/pin.go:635-643 | a record given up after a failed index write is brought back by a restart exactly when the window wrote the index, nothing has since, no quarantine was of an object it names, and all those were found present and are not reclaimed |
| `PinInterleavings.CommitNaming` | tunnel/pubcache/pin.go:528-539 | after a commit everything is named exactly when each claimed object still held is named by a pin the window left |
| `PinInterleavings.WithdrawNaming` | tunnel/pubcache/pin.go:635-642 | after a failed index write everything is named exactly when a quarantine follows the rollback, or the window touched the record, or each object found present is named by another pin the window left |
| `PinExamples.DoneButIncomplete` | tunnel/pubcache/pin.go:560-646 | for any gate and bytes, a healthy store and a schedule at which the pin is done and its record is not complete |
| `PinExamples.DoneButGone` | tunnel/pubcache/pin.go:374-440 | for any gate and bytes, a schedule at which a pin on an empty store is done, complete in the books and all named, its file is gone, and a restart does not bring it back |
| `PinExamples.DoneAndLeaks` | tunnel/pubcache/pin.go:526-539 | for any gate and bytes, a healthy store and a schedule at which a done pin leaves an object nothing names |
| `PinExamples.RefusedAndLeaks` | tunnel/pubcache/pin.go:635-643 | for any gate and bytes, a healthy store and a schedule at which the index write fails and an object nothing names is left |
| `PinExamples.RefusedButBack` | tunnel/pubcache/pin.go:635-643 | for any gate and bytes, a healthy store and a schedule at which a pin is refused, is not in the books, and is there after a restart |
| `PinPlan.StopsThere` | tunnel/pubcache/pin.go:556-621 | a pin stops at the first refusal and nowhere else |
| `PinResults.RefusalMeans` | tunnel/pubcache/pin.go:569-620 | why a pin stops at an object, in numbers and in this order: not to be had, not verifying, over the cap on an object, on the pin, on the store, not writable; a held object never stops it |
| `PinResults.PinAnswers` | tunnel/pubcache/pin.go:469-647 | what a pin answers over every schedule, case by case, and the record it is done with |
| `PinResults.DoneFits` | tunnel/pubcache/pin.go:576-603 | every object that a done pin wrote verified and was within each of the three byte caps when it was written, in numbers |
| `PinResults.FlightOrderly` | tunnel/pubcache/pin.go:556-621 | over every schedule a pin writes and claims only objects not held, and claims none unwritten |
| `PinResults.PinNaming` | tunnel/pubcache/pin.go:469-647 | over every schedule, everything is named when a pin ends exactly when its record was not entered, or the stated condition on the store at entry and the window holds, in the commit and in the index-failure branch |
| `PinResults.PinCompleteness` | tunnel/pubcache/pin.go:556-646 | over every schedule, a committed record is complete in the books exactly when the window does not touch it and every object it names is held by the rule of HeldExactly |
| `PinResults.PinDurability` | tunnel/pubcache/pin.go:218-272 | over every schedule, the files of a committed record are all in place, and a restart brings the pin back unchanged, exactly when the window does not touch it and every object it names has its file by the rule of FiledExactly |
| `PinResults.RefusedPinReturns` | tunnel/pubcache/pin.go:635-643 | over every schedule, a refused pin that no index had is there after a restart exactly when its record was entered and left behind |
| `PinResults.OtherPins` | tunnel/pubcache/pin.go:469-647 | over every schedule, exactly the other pins that a quarantine touched are gone, and the rest unchanged |
| `PinResults.CrashLosesTouchedOnly` | tunnel/pubcache/pin.go:469-647 | over every schedule, a restart at any disk on the way of a pin brings back every pin that no quarantine touched |
| `PinResults.CrashAfterCommit` | tunnel/pubcache/pin.go:628-646 | and, at any disk whose index has it, the new pin, if it is done and durable |
| `PinCalm.CalmRefusal` | tunnel/pubcache/pin.go:569-620 | with no quarantine on the way, what a pin meets at each object is told from the store it begins in: the sizes of what is held, what it adds, and the budgets |
| `PinCalm.CalmOutcome` | tunnel/pubcache/pin.go:469-647 | then it is done exactly when it was there already, or there is room, the root verifies, no object is objected to and the index is written, and is refused for the first objection |
| `PinCalm.RefusalRestores` | tunnel/pubcache/pin.go:541-554 | a refused pin that nothing disturbs leaves everything as it was, but files and marks under keys not held |
| `PinCalm.SuccessAdds` | tunnel/pubcache/pin.go:623-646 | a success before any quarantine only adds: a complete record of the sizes' sum and the fetched objects, each verified |
| `PinCalm.SumIsTotal` | tunnel/pubcache/pin.go:556-632 | of different objects that are held the sum is the total of their sizes |
| `PinCalm.SuccessHealthy` | tunnel/pubcache/pin.go:623-646 | a success that nothing disturbs leaves a healthy store healthy, and a restart brings the pin back |
| `PinCalm.QuietCrashSafe` | tunnel/pubcache/pin.go:469-647 | and no crash on the way loses a pin or brings back one that is not whole |
| `PinLoad.LoadedHealthy` | tunnel/pubcache/pin.go:222-290 | whatever entries the index has, pins loaded are whole, on disk and indexed, and bytes add up; the store is healthy exactly when every object a whole entry names is named by a pin |
| `PinLoad.RepeatedRootLeaks` | tunnel/pubcache/pin.go:238-281 | an index with two records of one root, after which an object is held and unnamed |
| `PinLoad.OwnIndexIsRecovered` | tunnel/pubcache/pin.go:238-281 | an index the store wrote, in any order, is loaded as recovery says |
| `PinLoad.LoadIsSteady` | tunnel/pubcache/pin.go:284-309 | a load cut short by another restart is repeated with the same result |
| `PinOthers.StepMeanwhile` | tunnel/pubcache/pin.go:374-704 | every step of every operation keeps books and budgets, makes no wrong mark, and leaves only files that were there or verify |
| `PinOthers.RunMeanwhile` | tunnel/pubcache/pin.go:374-704 | so does any run of such steps |
| `PinOthers.TimelineAllowed` | tunnel/pubcache/pin.go:556-621 | what a pin does over any schedule is such a run: every write passed the gate, every claim is within the budget |
| `PinPlan.WantedKeys` | tunnel/pubcache/pin.go:503-519 | root first, then each distinct chunk once |
| `PinStore.PinStore.Reclaim` | tunnel/pubcache/pin.go:682-704 | the loop drops exactly the objects nothing names |
| `PinStore.PinStore.Quarantine` | tunnel/pubcache/pin.go:417-440 | the locked steps of quarantine, index write included, and the disks between them |
| `PinCrash.QuarantineSafe` | tunnel/pubcache/pin.go:417-440 | no crash at one of those disks loses a pin that does not need the object |
| `PinStore.PinStore.CollectKeys` | tunnel/pubcache/pin.go:503-519 | the loop with its seen set lists the wanted keys |
| `PinPlan.Screen` | tunnel/pubcache/pin.go:576-603 | an object passes exactly when the gate accepts it and each of the three byte caps is unset or fits; unverified exactly when the gate refuses, otherwise over budget |
| `PinStore.PinStore.StageMissing` | tunnel/pubcache/pin.go:569-620 | fetch, gate, budgets, write and claim of one object, with quarantines at each point where the lock is free: refused exactly for its reason, which `PinResults.RefusalMeans` gives in numbers |
| `PinStore.PinStore.StageAll` | tunnel/pubcache/pin.go:556-621 | stages every wanted object not held and stops at the first refusal; books, budgets, claims, naming, marks and crash safety at every step, and the events that happened, under any schedule |
| `PinStore.PinStore.Rollback` | tunnel/pubcache/pin.go:541-554 | takes back exactly what was written |
| `PinStore.PinStore.ReleasePending` | tunnel/pubcache/pin.go:526-539 | one claim fewer on each written key (`PinStore.UnclaimMeans`) |
| `PinStore.UnclaimMeans` | tunnel/pubcache/pin.go:526-539 | a key keeps as many claims as it had less those released, and is gone with the last |
| `PinStore.PinStore.Finish` | tunnel/pubcache/pin.go:623-646 | commits, or withdraws and rolls back when the index cannot be written; the exact new state under any schedule |
| `PinStore.PinStore.Pin` | tunnel/pubcache/pin.go:469-647 | the outcome (`PinResults.PinAnswers`) and the exact new state under any schedule of quarantines; done on a new root only within every cap (`PinResults.DoneFits`); books and budgets at every lock release; everything named at every release until the last of the window after the record is entered; no wrong hash mark; no disk on the way at which a restart loses a pin that is still there at the end |
| `PinStore.PinStore.ListObjects` | tunnel/pubcache/pin.go:489-520 | the root, and for a manifest that verifies its distinct chunks; none exactly for a manifest that does not verify |
| `PinStore.PinStore.Unpin` | tunnel/pubcache/pin.go:650-676 | owner and not-found refusals; otherwise the specified new state; no crash on the way loses another pin; no wrong hash mark |
| `PinStore.PinStore.Get` | tunnel/pubcache/pin.go:374-405 | whatever others do before the read and before the lock is taken again: serves exactly a held object whose file is there and marked or verifying, and otherwise quarantines it; with the marks right what is served verifies and they stay right |
| `PinStore.PinStore.SweepOrphans` | tunnel/pubcache/pin.go:295-309 | removes exactly the files no entry names |
| `PinStore.PinStore.Load` | tunnel/pubcache/pin.go:222-309 | the loops over records, names and files compute the loaded store; a missing index, one that cannot be read or is of another version, malformed names and a failing index write; at every disk on the way the same would be loaded |
| `MeterModel.RecordLedger` | tunnel/server/metering.go:117-152 | recording keeps the ledger: recorded is pending plus issued, for every account |
| `MeterModel.OneRecorded` | tunnel/server/metering.go:117-152 | an account's bytes and sessions rise by what is recorded, pending and in all; nothing else changes |
| `MeterModel.ShedMeans` | tunnel/server/metering.go:187-200 | a requeue keeps as many batches as it may, and the newest |
| `MeterModel.DrainLedger` | tunnel/server/metering.go:155-170 | draining moves pending into one issued batch |
| `MeterModel.RequeueKeeps` | tunnel/server/metering.go:184-200 | requeue keeps the invariant and the bound, and sheds only ids older than every one kept |
| `MeterModel.StepKeeps` | tunnel/server/metering.go:117-274 | every step of meter, link and control plane keeps the invariant |
| `MeterModel.RunKeeps` | tunnel/server/metering.go:117-274 | so does every run, whatever is lost, late or repeated |
| `MeterModel.Conservation` | tunnel/server/metering.go:230-236 | recorded usage is pending, plus queued unapplied, plus applied, plus shed unapplied; never more is applied than recorded |
| `MeterModel.EveryRunConserves` | tunnel/server/metering.go:230-236 | that, at every point of every run from a fresh meter |
| `MeterModel.QuietIsFullyBilled` | tunnel/server/metering.go:230-274 | with nothing pending, queued or shed unapplied, each account is billed exactly what it used |
| `Meter.Meter.AddBytes` | tunnel/server/metering.go:117-133 | positive bytes of a named account, within the account bound: its bytes rise by exactly n and its sessions stay, pending and in the history; every other account stays; otherwise nothing changes |
| `Meter.Meter.AddSession` | tunnel/server/metering.go:136-152 | a named account, within the account bound: its sessions rise by exactly one and its bytes stay, pending and in the history; every other account stays; otherwise nothing changes |
| `Meter.Meter.RequeueFailed` | tunnel/server/metering.go:187-200 | the requeue step: all batches if they fit the bound, otherwise exactly the newest that do |
| `Meter.Meter.SendAll` | tunnel/server/metering.go:250-272 | the send loop is a trace of acknowledgements and failures; what failed is kept in order |
| `Meter.Meter.FlushOnce` | tunnel/server/metering.go:237-274 | a flush is a run of the model with arbitrary outside events between its steps, so it keeps the invariant |
| `RateLimiter.Configured` | tunnel/rendezvous/ratelimit.go:36-47 | a limiter exists exactly for positive rate and burst; its settings are those given, or ten minutes and 100000 keys |
| `RateLimiter.KeyLimiter.SweepLocked` | tunnel/rendezvous/ratelimit.go:83-97 | at most every quarter TTL, exactly the buckets idle beyond the TTL go |
| `RateLimiter.KeyLimiter.AllowKey` | tunnel/rendezvous/ratelimit.go:50-81 | an empty key passes; otherwise the specified answer and state |
| `RateLimiter.SweptMeans` | tunnel/rendezvous/ratelimit.go:83-97 | a sweep in numbers: when it is due and which buckets go |
| `RateLimiter.SpendMeans` | tunnel/rendezvous/ratelimit.go:68-79 | a call on a tracked key in numbers: tokens earned by the second, capped at the burst, one paid if there is one |
| `RateLimiter.AllowMeans` | tunnel/rendezvous/ratelimit.go:50-81 | a call case by case, and that no other key is touched |
| `RateLimiter.AllowSound` | tunnel/rendezvous/ratelimit.go:50-81 | token counts stay between the least a first call leaves and the burst, and clocks consistent |
| `RateLimiter.AllowFits` | tunnel/rendezvous/ratelimit.go:62-66 | the table never outgrows its cap |
| `RateLimiter.EvictionUnobservable` | tunnel/rendezvous/ratelimit.go:83-97 | when a bucket refills within the idle TTL and a nanosecond, a call's answer is that of a limiter that never forgets, unless refused for room |
| `RateLimiter.EvictionNeverShows` | tunnel/rendezvous/ratelimit.go:83-97 | the same over every sequence of calls |
| `RateLimiter.EvictionShowsExactly` | tunnel/rendezvous/ratelimit.go:83-97 | for any settings, sweeping an idle key out is told by some sequence of later calls exactly when a full bucket is good for other calls than its own refilled one, or the burst is below one token |
| `RateLimiter.TellApart` | tunnel/rendezvous/ratelimit.go:68-79 | two buckets good for different numbers of calls are told apart by calls at whole nanoseconds, too close together for an eviction |
| `RateLimiter.AlikeLater` | tunnel/rendezvous/ratelimit.go:68-79 | two buckets good for the same calls stay so while time passes |
| `RateLimiter.InStep` | tunnel/rendezvous/ratelimit.go:68-79 | and no calls tell them apart |
| `RateLimiter.WholeBurstAlike` | tunnel/rendezvous/ratelimit.go:83-97 | for a whole burst only a full bucket is good for the same calls as a full one |
| `RateLimiter.SpreeIsMost` | tunnel/rendezvous/ratelimit.go:68-79 | no calls within a span are allowed more often than the bucket is said to be good for |
| `RateLimiter.Spree` | tunnel/rendezvous/ratelimit.go:68-79 | and some are as often |
| `RateLimiter.RateBound` | tunnel/rendezvous/ratelimit.go:50-81 | under pacing settings, in any window a key is allowed at most burst plus rate times its length |
| `RateLimiter.RateBoundExactly` | tunnel/rendezvous/ratelimit.go:36-97 | the bound holds over every run from every consistent state exactly when the burst is at least one token and no bucket is good for more calls than are earned by the time it can have been replaced |
| `RateLimiter.PatientPaces` | tunnel/rendezvous/ratelimit.go:83-97 | for a whole burst that is exactly when a bucket is full again before it can be evicted |
| `RateLimiter.HastyBreaksBound` | tunnel/rendezvous/ratelimit.go:83-97 | for every other setting with a burst of at least a token, calls at whole nanoseconds that break it: spend a full bucket, be evicted, and again, often enough |
| `RateLimiter.PacedKeyIsAllowed` | tunnel/rendezvous/ratelimit.go:68-79 | a tracked key that waits one token's time is allowed, evicted or not |
| `Queue.ClampMeetsRequest` | tunnel/rendezvous/queue.go:89-99 | the granted TTL is the request capped exactly when the product fits 64 bits or wraps above the cap |
| `Queue.ClampMeans` | tunnel/rendezvous/queue.go:89-99 | nothing requested is granted the default, up to 9223372036 seconds the lesser of request and ceiling |
| `Queue.HugeRequestExpiresAtOnce` | tunnel/rendezvous/queue.go:94-98 | a request for which the granted TTL is negative |
| `Queue.DueMembers` | tunnel/rendezvous/queue.go:139-163 | what is due to a key: deposited, not named by a later acknowledgement, not expired |
| `Queue.DueAfterDeposit` | tunnel/rendezvous/queue.go:125-136 | a deposit adds its blob last, for its key only |
| `Queue.DueAfterAck` | tunnel/rendezvous/queue.go:183-193 | an acknowledgement takes the named blobs of its key only |
| `Queue.FaithfulLater` | tunnel/rendezvous/queue.go:207-230 | as time passes, lists keep showing what is due |
| `Queue.ReapFaithful` | tunnel/rendezvous/queue.go:213-229 | sweeping, whenever it happens, does not change what is due |
| `Queue.BlobQueue.SweepLocked` | tunnel/rendezvous/queue.go:208-230 | due exactly when none was before or the interval has passed; then exactly the expired blobs and emptied keys go, byte counts exact; otherwise nothing does |
| `Queue.SweepMeans` | tunnel/rendezvous/queue.go:208-230 | after a sweep a key holds exactly its unexpired blobs, and is there exactly when it has one |
| `Queue.BlobQueue.Deposit` | tunnel/rendezvous/queue.go:104-137 | exactly when each cap refuses; otherwise the blob is last in its key's list, which stays within the caps, and in the history; byte counts hold |
| `Queue.BlobQueue.Pickup` | tunnel/rendezvous/queue.go:143-163 | returns exactly what is due by the history, in deposit order, and deletes nothing due |
| `Queue.BlobQueue.Ack` | tunnel/rendezvous/queue.go:168-205 | removes exactly the named blobs of the key, counts them, and never needs the negative clamp |
| `Detector.DefaultsAreUsable` | tunnel/autoscale/autoscale.go:160-180 | after defaults the band is not empty and the floor is at least one |
| `Detector.DefaultsMean` | tunnel/autoscale/autoscale.go:160-180 | which value each setting gets, in numbers |
| `Detector.DefaultsTwice` | tunnel/autoscale/autoscale.go:314-316 | defaults are idempotent exactly when no duration was disabled |
| `Detector.TimersMean` | tunnel/autoscale/autoscale.go:185-191 | after any readings the timers are the starts of the open runs and the last action |
| `Detector.ActsExactly` | tunnel/autoscale/autoscale.go:202-258 | over every run of readings: an action exactly when an unbroken run past its watermark since the last such action lasted Sustain, every action lies Cooldown back, and there is room (in ratios and node counts: `Detector.SustainedMeans`, `Detector.ActsInNumbers`) |
| `Detector.SustainedMeans` | tunnel/autoscale/autoscale.go:202-258 | the run told by the ratios: from some reading at least Sustain ago all were at or beyond high, or at or under low, and none was acted on |
| `Detector.ReactMeans` | tunnel/autoscale/autoscale.go:213-267 | one reading case by case, ratios against high and low: action and timers |
| `Detector.ActionsAreRare` | tunnel/autoscale/autoscale.go:134-137 | at most T / Cooldown + 1 actions in any window T |
| `Detector.SaturationDetector.Observe` | tunnel/autoscale/autoscale.go:213-267 | the branches and timer updates decide exactly so; up only at or over high, down only at or under low, and strictly between neither, with both timers unset |
| `Pool.ChoicesAreUnique` | tunnel/autoscale/pool.go:206-289 | the chosen node does not depend on the order members are visited in |
| `Pool.ChoiceExists` | tunnel/autoscale/pool.go:258-289 | there is a member to drain whenever anybody but self is in the pool |
| `Pool.NearestMeans` | tunnel/autoscale/pool.go:218-251 | the nearest member in its fields: healthy and not draining, in the region if one is, then lowest load, then first id |
| `Pool.DrainMeans` | tunnel/autoscale/pool.go:258-289 | the member to drain in its fields: not self, unhealthy or draining first, then lowest load, then first id |
| `Pool.BeforeMeans` | tunnel/autoscale/pool.go:246-250 | ids are in byte-wise order: at the first difference the smaller, or the one that ends |
| `Pool.NodePool.Nearest` | tunnel/autoscale/pool.go:218-251 | a healthy member that is not draining, ahead of every other by region, load, id; none exactly when every member is unhealthy or draining |
| `Pool.NodePool.DrainCandidate` | tunnel/autoscale/pool.go:258-289 | never self, ahead of every other by unroutable first, load, id; none exactly when only self is there |
| `Autoscaler.SampleDecides` | tunnel/autoscale/autoscale.go:397-420 | each tick decides by the detector's specification over the readings so far and the pool's size |
| `Autoscaler.StepKeeps` | tunnel/autoscale/autoscale.go:397-505 | every step keeps the bounds, room for the operation in flight, and the scaler's own node, if a launch finds the room it was decided for |
| `Autoscaler.RunKeeps` | tunnel/autoscale/autoscale.go:397-505 | over every run whose launches do, ticks and completions interleaved in any way, the pool stays between floor and ceiling and self stays |
| `Autoscaler.AtomicTicksKeepBounds` | tunnel/autoscale/autoscale.go:397-420 | so they do over every run in which no operation completes inside a tick |
| `Autoscaler.LaunchBreaksExactly` | tunnel/autoscale/autoscale.go:411-418 | a launch can be continued, by careful steps only, to a pool out of bounds exactly when it starts an operation that the size at the launch forbids |
| `Autoscaler.SplitTickOverflows` | tunnel/autoscale/autoscale.go:411-418 | a run with a split tick that passes the ceiling |
| `Autoscaler.ScaleLoop.Tick` | tunnel/autoscale/autoscale.go:397-420 | a tick is the sample step and the launch step: the reading taken, the load published, the operation started |
| `Autoscaler.ScaleLoop.DoProvision` | tunnel/autoscale/autoscale.go:480-486 | the provision steps |
| `Autoscaler.ScaleLoop.BeginDecommission` | tunnel/autoscale/autoscale.go:488-497 | chooses as DrainCandidate does, never self, and drains |
| `Autoscaler.ScaleLoop.EndDecommission` | tunnel/autoscale/autoscale.go:498-505 | removes on success, restores on failure |

## Left out

- BLAKE3, signatures and encryption: the hash is any function; the rest does not bear on these claims.
- HTTP handling, authentication, logging, counters, health probing and the connection loops.
- `tunnel/pubcache/ratelimit.go` is the rendezvous limiter's algorithm and is not modelled a second time.
- `tunnel/server/gate.go`, `tunnel/server/auth.go`, `tunnel/rendezvous/presence.go` and `tunnel/cost/cost.go` would add only one-step claims.
- Long-poll wake-ups in `tunnel/rendezvous/service.go`: delivery is claimed at the queue.
- Saturation ratios and byte rates (tunnel/autoscale/autoscale.go:77-94 and 430-448) are inputs of a tick.
- Floating point: token counts, loads and ratios are reals, without rounding or NaN.
- 64-bit widths of byte totals in the pin store, cache, queue, meter and of times; the widths that matter to the CBOR scanner, the proof verifiers and requested TTLs are modelled.
- Clocks that go backwards in the limiter, queue and detector.
- RateLimiter.RateBoundExactly: leaves out idle TTLs below four nanoseconds, for which sweeps are a minute apart.
- RateLimiter.PacedKeyIsAllowed: takes a burst of at least one token; with less, only first calls are allowed.
- ClientProof.BuildProof: takes lists shorter than 2^32, the longest JavaScript array.
- ClientProof.EncodeProof: takes an index below 2^64 and a path shorter than 2^32, which bound the node's format and a JavaScript array.
- RangeProof.HonestAccepted: trees of up to 2^40 chunks, the verifier's own path bound.
- File-system detail: a temporary write and rename is one atomic step, a removal another, and removals do not fail.
- PinStore.PinStore.Load: the JSON text of the index, and a record whose root is not a kind and an address; what state a failed load leaves, since the store is then not opened.
- PinStore.PinStore.Get: bytes that rot between reading and marking count as rotting after the read.
- PinStore.PinStore.Pin: what runs inside a pin is quarantines, at the points where the lock is free; the source keeps pins and unpins from overlapping, and marks set by reads inside a pin are not modelled.
- PinCalm.RefusalRestores: without quarantines on the way; with them the state is still `PinPlan.Ending`.
- Service.Lookup: a node without a pin store is not modelled.
- MeterModel.DrainLedger: a batch is a map, not a list in map-iteration order.
- MeterModel.EveryRunConserves: one process lifetime; report ids are sequence numbers without the boot nonce, usage not accepted because the account table is full is not recorded, and deduplication by id is the control plane's promise (tunnel/server/cpclient.go:175-178).
- Queue.BlobQueue.Deposit: the id is given; that random ids differ is not claimed and not needed.
- Queue.BlobQueue.Pickup: returns blobs, not their base64 views with times in seconds; lists are values, so the in-place compaction of shared slices is not captured.
- LruStore.Store.Get: list elements are values rather than linked nodes, so aliasing is not captured; hit counters are left out.
- Pool.NodePool.Nearest: trimming, lower-casing and case folding are arbitrary functions.
- Autoscaler.RunKeeps: starts from a pool within its bounds and assumes nobody else adds or removes members.
- Autoscaler.LaunchBreaksExactly: supposes the provisioner can return a node that is new and has an id.
