# Calynda: verified models of its core algorithms

Calynda is a language toolchain for the Wii: a compiler that emits C, a reactive UI runtime
(Solite), physics, graphics and math libraries, and a decompiler that reads encrypted discs.
This project models the parts of it that carry real correctness obligations and proves them.
Each module names at its top the source files, or the standard, that it models.

* **Disc chain.** `SubstitutionBox`, `GaloisField`, `AffineBox`, `MixColumn`, `Fips197`, `Aes`,
  `Cbc`: AES-128 (sections 4.2, 5.1, 5.2 and 5.3 of FIPS-197) in CBC mode (section 6.2 of NIST
  SP 800-38A). The in-place byte loops refine the standard's functions, and those are shown to
  undo each other. `PartitionView`, `WiiPartition`: a reader with a one-group cache refines the
  flat plaintext of a partition over every sequence of reads. `Dol`, `IsoExtract`: the size
  computed for an executable is what its parser needs, and what is extracted is the payload that
  was written.
* **Solite.** `Reactive` holds the state, the events and the invariant; `ReactiveSteps` and
  `ReactiveNodes` show that every step keeps it; `SoliteRuntime` is the runtime itself, with
  program callbacks that may call back into the runtime at any depth. The drain loop's
  unfinished snapshots are a ghost stack of frames, and a ghost history of events says what
  "missed" means independently of the runtime's own flags.
* **Physics.** `Vectors`, `Segments`, `Bodies`: closest points of segments, capsule and sphere
  contacts. `Impulses`, `FrictionLaw`, `Solver`, `Ledger`: the sequential impulse solver and the
  positional correction, what a visit does to the velocities at the contact, and what all visits
  do to the totals of a world with static bodies.
  `GridOrder`, `Broadphase`, `GridCoverage`: the broadphase grid tests each near pair exactly once.
* **Culling.** `Matrices`, `Culling`, `SceneGraph`: a mesh vertex inside the clip volume makes its
  node visible, from the mesh's bounds to the plane tests, and a box behind one of the planes makes
  it invisible. `NodeTrees`: adding and removing nodes keeps the scene a tree.
* **Textures and models.** `TextureCache`: an array cache with swap-with-last eviction against an
  ideal recency list. `GxTiling`: tiling is a permutation of bytes. `C3dBytes`, `Obj2C3d`,
  `C3dLayout`, `C3dModel`: the Python writer and the C loader of the .c3d format undo each other,
  over a layout given byte by byte.
* **Tail calls.** `TailCall`, `TailCallLoop`, `TailCallExact`, `TailCallObserved`, `TailCallSwap`:
  the loop that the C emitter makes of a self-recursive lambda against the recursion, for every
  world the lambda may run in; when exactly they agree; and a lambda for which they do not.

Bytes of the disc chain are `bv8`; other machine integers are integers with their wrap-around
written out (`TWO_32`, `FRAMES`, `Wrapped`). `float` is `real`. Files are immutable byte
sequences whose reads may fail at any time.

Properties that do not hold of the code as it is, each with an input and its exact condition:

* `closest_points_segments` takes a segment of squared length at most `CM_EPSILON` at its start
  even when its other end is closer (`Segments.ShortSegmentGoesWrong`, `Bodies.CapsulesMissed`).
  `Segments.ClosestPointsAreClosest` and `Bodies.CapsulesHitExactly` give the condition on the
  end points.
* The size computation of the disc extractor wraps at 32 bits, so the buffer can stop short of a
  section's end (`IsoExtract.WrappingHappens`, `IsoExtract.SizedCoversAll`); `dol_parse` then
  rejects the file as overflowing, or as misaligned if a misaligned section comes first, and never
  as too small (`IsoExtract.WrappingRejected`).
* A group number past 32 bits is truncated, so a partition read there serves another group's
  bytes (`PartitionView.FirstGroupAgain`, `PartitionView.ServedIsFlatExactly`).
* `rgba8_to_gx` converts whole tiles into a buffer of the image's size, so for sides that are not
  multiples of 4 it writes past the buffer and reads behind the image (`GxTiling.Rgba8ToGx`,
  `GxTiling.ReadsInsideExactly`); `gfx3d_texture_create_solid` writes 64 bytes into a buffer of 4
  (`GxTiling.CreateSolid`).
* The checks of the .c3d loader wrap at 32 bits, so it can read outside the file
  (`C3dModel.OverrunHappens`); `C3dModel.OverrunExactly` says for which headers.
* The texture cache stores only 255 characters of a path, so a request for these characters is
  answered with the longer path's texture (`TextureCache.WrongTexture`,
  `TextureCache.AnswersExactly`); and it keeps the newest 64 textures only as long as no path is
  that long and its frame counter does not wrap around, unless there are no more than 64
  (`TextureCache.WrapEvictsNewest`, `TextureCache.ResidentsExactly`).
* The emitted tail-call loop assigns parameters one after the other, so a call that swaps two of
  them goes wrong (`TailCallSwap.RunsDiffer`). `TailCallExact.ReassignExactly` and
  `TailCallObserved.LoopExactly` give the condition on the arguments.

## Model

| member | source | states |
|---|---|---|
| SubstitutionBox.LeftInverse | decompiler/src/aes.c:6-41 | the inverse S-box table undoes the S-box table on all 256 bytes |
| SubstitutionBox.RightInverse | decompiler/src/aes.c:6-41 | the S-box table undoes the inverse table on all 256 bytes |
| AffineBox.SBoxIsAffine | decompiler/src/aes.c:6-23 | every entry of the S-box table is the affine image of the byte's inverse in GF(2^8), as section 5.1.1 of FIPS-197 defines it |
| GaloisField.GMul | decompiler/src/aes.c:50-58 | the shift-and-add loop, which doubles `a` and halves `b` in place, computes the eight-step product of GF(2^8) |
| GaloisField.MulLowAdds | decompiler/src/aes.c:46-58 | multiplication distributes over addition on the left, after any number of steps |
| GaloisField.MulLowAddsRight | decompiler/src/aes.c:46-58 | and on the right |
| GaloisField.XTimeMulLow | decompiler/src/aes.c:46-58 | multiplying by x commutes with multiplying by any byte |
| GaloisField.MulByConstants | decompiler/src/aes.c:46-58 | the seven constants of the two matrices as sums of powers of x |
| MixColumn.BackwardUndoesForward | decompiler/src/aes.c:106-125 | a row of the inverse matrix applied to a mixed column gives back the byte |
| MixColumn.ForwardUndoesBackward | decompiler/src/aes.c:106-125 | and the other way round |
| MixColumn.ForwardByXTime | decompiler/src/aes.c:106-115 | the xtime form used by the code is the matrix row of section 5.1.3 of FIPS-197 |
| Fips197.AddRoundKeyTwice | decompiler/src/aes.c:76-78 | adding a round key twice changes nothing |
| Fips197.SubBytesInverse | decompiler/src/aes.c:80-81 | the byte substitutions undo each other on blocks, both ways |
| Fips197.ShiftRowsInverse | decompiler/src/aes.c:84-104 | the row shifts undo each other, both ways |
| Fips197.MixColumnsInverse | decompiler/src/aes.c:106-125 | the column mixings undo each other on every block, both ways |
| Fips197.InvRoundsUnwindCipher | decompiler/src/aes.c:127-152 | after n rounds of decryption the state is the encryption's state before its last n rounds |
| Fips197.InvCipherUndoesCipher | decompiler/src/aes.c:127-152 | for every key schedule and block, decryption undoes encryption |
| Fips197.CipherUndoesInvCipher | decompiler/src/aes.c:127-152 | for every key schedule and block, encryption undoes decryption |
| Fips197.RoundBytes | decompiler/src/aes.c:127-135 | one round in bytes: each output byte from the S-box images of bytes 4c, 4c+5, 4c+10 and 4c+15 of the state, one row of the matrix 2 3 1 1, and a byte of the round key |
| Fips197.FirstAndLastBytes | decompiler/src/aes.c:127-138 | the first round only adds the first round key; the last one substitutes, shifts and adds without mixing |
| Aes.RconIsPowerOfX | decompiler/src/aes.c:42-44 | the table of round constants holds the powers of x of section 5.2 of FIPS-197 |
| Aes.RoundKeyFollows | decompiler/src/aes.c:60-74 | each byte of the standard's word recurrence is the byte that the code's round loop computes from the previous round key |
| Aes.RoundKeyBytes | decompiler/src/aes.c:60-74 | round key 0 is the key; byte 0 of each next one is byte 0 before, plus the S-box of byte 13, plus the round constant (0x01, 0x02, ..., 0x1b, 0x36); bytes 1, 2 and 3 take the S-box of bytes 14, 15 and 12; every later byte is the byte four earlier plus its own byte before |
| Aes.TableBytes | decompiler/src/aes.c:60-74 | the same of the rows of the table that the constructor fills |
| Aes.Aes128Ctx.constructor | decompiler/src/aes.c:60-74 | the expanded table is the key schedule of FIPS-197 |
| Aes.Aes128Ctx.ExpandRound | decompiler/src/aes.c:62-73 | one round of the loop writes the next round key and no other row |
| Aes.AddRoundKeyInPlace | decompiler/src/aes.c:76-78 | in place, the standard's AddRoundKey |
| Aes.SubBytesInPlace | decompiler/src/aes.c:80-80 | in place, SubBytes |
| Aes.InvSubBytesInPlace | decompiler/src/aes.c:81-81 | in place, InvSubBytes |
| Aes.ShiftRowsInPlace | decompiler/src/aes.c:84-93 | the rotations through one temporary are the standard's row permutation |
| Aes.InvShiftRowsInPlace | decompiler/src/aes.c:95-104 | the same for the inverse permutation |
| Aes.MixColumnsInPlace | decompiler/src/aes.c:106-115 | overwriting each column through xtime is the matrix product |
| Aes.InvMixColumnsInPlace | decompiler/src/aes.c:117-125 | overwriting each column through gmul is the inverse matrix product |
| Aes.EncryptBlock | decompiler/src/aes.c:127-138 | writes the cipher of the block, also when in and out overlap, and nothing else |
| Aes.DecryptBlock | decompiler/src/aes.c:140-152 | writes the inverse cipher of the block, also when in and out overlap, and nothing else |
| Cbc.DecryptedUndoesEncrypted | decompiler/src/aes.c:154-178 | for every key schedule, IV and whole number of blocks, CBC decryption undoes CBC encryption |
| Cbc.EncryptedUndoesDecrypted | decompiler/src/aes.c:154-178 | and encryption undoes decryption |
| Cbc.EncryptedBlock | decompiler/src/aes.c:154-164 | block k of the ciphertext is the cipher of block k of the plaintext plus block k - 1 of the ciphertext, or the IV |
| Cbc.DecryptedBlock | decompiler/src/aes.c:166-178 | block k of the plaintext is the inverse cipher of block k, plus block k - 1 of the ciphertext or the IV |
| Cbc.CbcEncrypt | decompiler/src/aes.c:154-164 | fills exactly the output range with the CBC encryption of the input as it was, also when both are the same buffer |
| Cbc.CbcDecrypt | decompiler/src/aes.c:166-178 | the same for decryption, which the header promises for out equal to in |
| PartitionView.GroupRoundTrip | decompiler/src/wii_crypto.c:100-110 | reading a group gives the payload of any group encrypted as discs are: hash area under a zero IV, data under the IV inside the encrypted hash area |
| PartitionView.GroupOnDisc | decompiler/src/wii_crypto.c:100-110 | the layout on the disc in numbers: 0x400 bytes of hashes under an all-zero IV, whose bytes 0x3D0 to 0x3DF are the IV of the 0x7C00 bytes of payload that follow |
| PartitionView.ImageRoundTrip | decompiler/src/wii_crypto.c:89-114 | the flat view of an image of encrypted groups is the payload they were made from |
| PartitionView.FlatAt | decompiler/src/wii_crypto.c:116-124 | byte k of the flat plaintext is byte k mod 0x7C00 of group k div 0x7C00 |
| PartitionView.ServedIsFlat | decompiler/src/wii_crypto.c:116-132 | as far as 2^32 groups, what a read serves is the slice [off, off+len) of the flat plaintext |
| PartitionView.OwnGroup | decompiler/src/wii_crypto.c:118-121 | the truncated group number is the byte's own exactly for bytes of the first 2^32 groups |
| PartitionView.ServedRepeats | decompiler/src/wii_crypto.c:118-121 | a read 2^32 groups further on serves the same bytes |
| PartitionView.FirstGroupAgain | decompiler/src/wii_crypto.c:118-121 | a read at group 2^32 of any image whose group 0 is readable serves the bytes of group 0 |
| PartitionView.ServedIsFlatExactly | decompiler/src/wii_crypto.c:116-132 | a non-empty range is served as the flat plaintext has it, for every image that holds it, if and only if it ends within the first 2^32 groups |
| WiiPartition.DiscImage.ReadAt | decompiler/src/wii_crypto.c:28-38 | a read that succeeds is a full read of the bytes at the offset; it may also fail |
| WiiPartition.ServedChunk | decompiler/src/wii_crypto.c:118-127 | the bytes served within one group are a slice of that group's plaintext |
| WiiPartition.ServedFromJoins | decompiler/src/wii_crypto.c:117-129 | each chunk of the loop adds the bytes at the offset as the 64-bit arithmetic has it |
| WiiPartition.ServedFromIsServed | decompiler/src/wii_crypto.c:116-132 | without wrap-around of the offset these are the bytes of the slice |
| WiiPartition.PartitionReader.constructor | decompiler/src/wii_crypto.c:63-67 | a new reader caches nothing |
| WiiPartition.PartitionReader.Open | decompiler/src/wii_crypto.c:63-87 | opening empties the cache and, when it succeeds, the reader's view is the partition's data under its decrypted title key |
| WiiPartition.OpenedAsWritten | decompiler/src/wii_crypto.c:63-87 | a partition written as discs have it, the title key at 0x1BF encrypted under the common key with the title id at 0x1DC as IV, the data offset at 0x2B8 in words of four bytes, opens to that title key and to the data at that distance |
| WiiPartition.PartitionReader.DecryptGroup | decompiler/src/wii_crypto.c:100-110 | leaves in the cache the plaintext of the encrypted group |
| WiiPartition.PartitionReader.CacheGroup | decompiler/src/wii_crypto.c:100-113 | marking the cache valid is right: it holds the plaintext of the named group |
| WiiPartition.PartitionReader.FetchGroup | decompiler/src/wii_crypto.c:89-114 | keeps the invariant "valid implies cache equals plaintext of cached group"; on an I/O error the cache is as before |
| WiiPartition.PartitionReader.ReadChunk | decompiler/src/wii_crypto.c:117-129 | one turn of the read loop copies the served bytes, or fails and leaves the buffer alone |
| WiiPartition.PartitionReader.Read | decompiler/src/wii_crypto.c:116-132 | after any earlier reads, a successful read fills the range with exactly the served bytes, also where the 64-bit offset wraps around; any read keeps the invariant, the view and the rest of the buffer |
| Dol.FirstBadIsFirst | decompiler/src/dol.c:95-108 | the verdict on the slots is OK exactly when each of them is acceptable, and otherwise that of the first slot that is not |
| Dol.EntryInTextExactly | decompiler/src/dol.c:110-119 | the first section that covers the entrypoint is a text section exactly if some text slot covers it |
| Dol.ParseSucceeds | decompiler/src/dol.c:85-119 | the parser succeeds exactly if the file has 0x100 bytes or more, every one of its 18 slots is empty or aligned and inside file and address space, and some text slot covers the entrypoint at 0xE0 |
| Dol.SlotFields | decompiler/src/dol.c:85-108 | where the header keeps what: text offsets at 0, addresses at 0x48 and sizes at 0x90, data offsets at 0x1C, addresses at 0x64 and sizes at 0xAC, four bytes each, and the entrypoint at 0xE0 |
| Dol.Verdicts | decompiler/src/dol.c:54-83 | a used section is misaligned exactly if one of its three fields is no multiple of 4, bad exactly if it is aligned and ends behind the file but within 32 bits, and an overflow exactly if it is aligned and its end passes 32 bits, or it lies in the file and its address range does |
| Dol.UsedAreSlots | decompiler/src/dol.c:54-83 | the recorded sections are exactly the slots of non-zero size |
| Dol.ParsedSectionsFit | decompiler/src/dol.c:54-83 | every recorded section lies inside the file and does not wrap in memory |
| Dol.DolImage.PushSection | decompiler/src/dol.c:54-83 | the checks in their order; the section is appended if all pass and its size is not zero, and otherwise nothing is |
| Dol.DolImage.Parse | decompiler/src/dol.c:85-119 | on success the sections are those of the header in order, all inside the file; on failure the image is empty |
| Dol.DolImage.SectionForVaddr | decompiler/src/dol.c:121-130 | the first section that covers the address |
| Dol.DolImage.VaddrToPtr | decompiler/src/dol.c:132-141 | non-null exactly on covered addresses; pointer plus remaining is the section's end, inside the buffer |
| IsoExtract.MaxEndIsMax | decompiler/src/iso.c:185-195 | the computed size is the greatest section end as 32-bit sums have it, or the header's size |
| IsoExtract.SizeOfDol | decompiler/src/iso.c:184-195 | the two loops compute that size |
| IsoExtract.SizedNeverTooSmall | decompiler/src/iso.c:173-205 | on a buffer of that size the parser never answers TOO_SMALL or BAD_SECTION, whether or not a sum wraps |
| IsoExtract.SizedCoversAll | decompiler/src/iso.c:120-130 | the buffer is exactly as long as the furthest section end if and only if no section's offset plus size wraps |
| IsoExtract.WrappingRejected | decompiler/src/dol.c:54-83 | a buffer whose header has a wrapping section is rejected: as an overflow, or as misaligned, and that only if some section is misaligned |
| IsoExtract.WrappingHappens | decompiler/src/iso.c:184-205 | a header with one section at 0xFFFFFFFC of size 8: the extracted buffer is the header alone, short of the section's end, and the parser answers with an overflow |
| IsoExtract.DolIsFlat | decompiler/src/iso.c:173-205 | the extracted executable is a slice of the flat plaintext, from where the plaintext's own boot header says |
| IsoExtract.DolIsPayload | decompiler/src/iso.c:173-205 | and, for an image of encrypted groups, of the payload they were made from |
| IsoExtract.WrittenIsExtracted | decompiler/src/iso.c:173-205 | an executable that ends with its last section, put where four times the word at 0x420 of the payload points, is what is extracted, byte for byte |
| IsoExtract.ReadDol | decompiler/src/iso.c:173-205 | the buffer is what the partition serves from main.dol's offset, as long as its own header says |
| IsoExtract.ExtractWiiDol | decompiler/src/iso.c:155-206 | each status in its case, and on success the executable of the named partition |
| IsoExtract.ReadGcDol | decompiler/src/iso.c:114-136 | the same from an unencrypted image |
| IsoExtract.ExtractGcDol | decompiler/src/iso.c:106-140 | each status in its case, and on success the executable's bytes as the image holds them |
| Reactive.UnreadSignal | solite_runtime/src/solite_effect.c:122-128 | a computation that only reads signals neither changes its result nor its reads when a signal it does not read changes |
| Reactive.NewSignal | solite_runtime/src/solite_signal.c:42-57 | nor when a signal is created |
| ReactiveSteps.RoomInQueue | solite_runtime/src/solite_effect.c:45-53 | while an effect is not pending the queue holds fewer entries than there are effects, so with at most 256 effects none is dropped |
| ReactiveSteps.AfterSchedule | solite_runtime/src/solite_effect.c:45-53 | scheduling keeps the invariant and settles what the effect was owed |
| ReactiveSteps.AfterScheduleAll | solite_runtime/src/solite_signal.c:106-110 | so does notifying a list of subscribers |
| ReactiveSteps.AllNotified | solite_runtime/src/solite_signal.c:106-110 | within the limits every live subscriber notified is pending afterwards |
| ReactiveSteps.AfterChange | solite_runtime/src/solite_signal.c:99-105 | a stored change leaves only the signal's subscribers owed a notification |
| ReactiveSteps.AfterRead | solite_runtime/src/solite_signal.c:86-97 | a read by a running effect keeps the invariant |
| ReactiveSteps.AfterSnapshot | solite_runtime/src/solite_effect.c:73-79 | moving the queue into a snapshot keeps "pending exactly if waiting once" |
| ReactiveSteps.AfterDequeue | solite_runtime/src/solite_effect.c:80-86 | clearing a flag and stepping past the entry keeps it, and only that effect is owed a run |
| ReactiveSteps.AfterFrameDone | solite_runtime/src/solite_effect.c:79-88 | leaving an exhausted snapshot keeps the invariant |
| ReactiveSteps.AfterStart | solite_runtime/src/solite_effect.c:58-65 | a run that starts has seen every change so far |
| ReactiveSteps.AfterDispose | solite_runtime/src/solite_effect.c:108-115 | disposing an effect keeps the invariant |
| ReactiveNodes.OwnedRemove | solite_runtime/src/solite_control_flow.c:69-78 | removing a node's first element from a window leaves its other elements in order |
| ReactiveNodes.OwnedRemoveOther | solite_runtime/src/solite_control_flow.c:69-78 | and leaves the elements of every other node alone |
| ReactiveNodes.AfterCommit | solite_runtime/src/solite_effect.c:122-128 | a memo, Show or For callback that read all it depends on and stored the result pays its effect's debt and disturbs no other node |
| ReactiveNodes.AfterNodeDisposed | solite_runtime/src/solite_control_flow.c:57-65 | disposing a node keeps the invariant |
| SoliteRuntime.Runtime.constructor | solite_runtime/src/solite_effect.c:18-24 | the initial state satisfies the invariant and nothing waits |
| SoliteRuntime.Runtime.ObserverPush | solite_runtime/src/solite_signal.c:23-28 | pushes while there is room; the 65th nested push is recorded as an overflow |
| SoliteRuntime.Runtime.ObserverPop | solite_runtime/src/solite_signal.c:29-34 | pops if there is something to pop |
| SoliteRuntime.Runtime.Subscribe | solite_runtime/src/solite_signal.c:62-84 | the effect is subscribed once, after those already there |
| SoliteRuntime.Runtime.SignalGet | solite_runtime/src/solite_signal.c:86-97 | returns the value and subscribes the innermost observer only |
| SoliteRuntime.Runtime.Schedule | solite_runtime/src/solite_effect.c:45-53 | a live effect that is not pending enters the queue, if there is room; nothing else changes |
| SoliteRuntime.Runtime.Notify | solite_runtime/src/solite_signal.c:106-110 | every subscriber is scheduled, in order |
| SoliteRuntime.Runtime.FlushPending | solite_runtime/src/solite_effect.c:67-88 | inside a batch nothing happens; otherwise the invariant is kept through all nested runs, every effect of the queue that is still live has been run, in the order of the queue, and the queue is empty at the end |
| SoliteRuntime.Runtime.DrainQueue | solite_runtime/src/solite_effect.c:72-87 | one turn of the drain loop keeps the invariant and leaves no frame behind |
| SoliteRuntime.Runtime.DrainSnapshot | solite_runtime/src/solite_effect.c:79-86 | the inner loop works off exactly its own snapshot, in order, whatever the effects do to the queue |
| SoliteRuntime.Runtime.DrainOne | solite_runtime/src/solite_effect.c:80-85 | one entry: flag cleared, effect run unless disposed |
| SoliteRuntime.Runtime.EffectRun | solite_runtime/src/solite_effect.c:58-65 | a run starts after all earlier events and ends last, keeps the invariant and restores the observers; memo, Show and For runs always end |
| SoliteRuntime.Runtime.Callback | solite_runtime/src/solite_effect.c:58-65 | between the events of its entry and its end the callback runs, and with it everything it calls |
| SoliteRuntime.Runtime.ProgramGet | solite_runtime/src/solite_signal.c:86-97 | a read by program code is put down to the innermost callback entered and not left, which is then a subscriber of the signal |
| SoliteRuntime.Runtime.ReadAll | solite_runtime/src/solite_effect.c:122-128 | the reading loop returns the function's value on the current signals and subscribes the effect to every signal it depends on |
| SoliteRuntime.Runtime.RunDerived | solite_runtime/src/solite_effect.c:122-128 | a memo, Show or For callback keeps the invariant with its effect no longer owed a run |
| SoliteRuntime.Runtime.RunMemo | solite_runtime/src/solite_effect.c:122-128 | the memo caches the computed value |
| SoliteRuntime.Runtime.RunShow | solite_runtime/src/solite_control_flow.c:16-35 | afterwards the child is attached exactly if the value is non-zero; no other node's elements move |
| SoliteRuntime.Runtime.RemoveAll | solite_runtime/src/solite_control_flow.c:69-78 | the node has no children and none of its elements is left in the window |
| SoliteRuntime.Runtime.RenderAll | solite_runtime/src/solite_control_flow.c:101-114 | the loop appends one element per item, with its item and index, in order |
| SoliteRuntime.Runtime.RunFor | solite_runtime/src/solite_control_flow.c:80-116 | afterwards the children are the renders of the list as read, also after shrinking to nothing |
| SoliteRuntime.Runtime.CreateSignal | solite_runtime/src/solite_signal.c:42-57 | a fresh signal with the value and no subscribers |
| SoliteRuntime.Runtime.ChangeAndNotify | solite_runtime/src/solite_signal.c:99-110 | storing a different value and notifying keeps the invariant |
| SoliteRuntime.Runtime.SignalSet | solite_runtime/src/solite_signal.c:99-113 | an equal value changes nothing; otherwise the change is recorded before all later events; in a batch exactly the subscribers are left pending; within the limits an unbatched call starts a run of every live idle effect that had read the signal, after the change and in the order of subscription; when an outermost call outside batches returns, nothing is pending |
| SoliteRuntime.Runtime.BatchStart | solite_runtime/src/solite_effect.c:25-28 | one more level, nothing else |
| SoliteRuntime.Runtime.BatchEnd | solite_runtime/src/solite_effect.c:30-36 | an inner end only lowers the depth; when an outermost end returns, nothing is pending |
| SoliteRuntime.Runtime.CreateEffect | solite_runtime/src/solite_effect.c:92-106 | a new effect is run at once, after all earlier events |
| SoliteRuntime.Runtime.CreateMemo | solite_runtime/src/solite_effect.c:130-144 | a memo whose tracking effect computes the given function |
| SoliteRuntime.Runtime.CreateShow | solite_runtime/src/solite_control_flow.c:37-55 | a Show whose tracking effect reads the given signal, in the given window |
| SoliteRuntime.Runtime.CreateFor | solite_runtime/src/solite_control_flow.c:118-138 | a For whose tracking effect reads the given signal, in the given window |
| SoliteRuntime.Runtime.DisposeEffect | solite_runtime/src/solite_effect.c:108-115 | the effect is disposed and the invariant kept, also while it waits |
| SoliteRuntime.Runtime.DisposeNode | solite_runtime/src/solite_control_flow.c:57-65 | the tracking effect is disposed and none of the node's elements is left in any window |
| SoliteRuntime.Runtime.MemoGet | solite_runtime/src/solite_effect.c:146-153 | outside batches and drains a live memo returns its function of the current signal values |
| SoliteRuntime.Runtime.AppendOwn | game/src/counter_gui.c:81-82 | the program appends an element of its own to a window and no node notices |
| SoliteRuntime.Runtime.RemoveOwn | solite_runtime/bridge/solite_gui_bridge.cpp:95-97 | likewise it removes one of its own |
| SoliteRuntime.Runtime.RunProgram | solite_runtime/src/solite_effect.c:58-65 | any sequence of runtime calls by a callback keeps the invariant |
| SoliteRuntime.PendingWaitsOnce | solite_runtime/src/solite_effect.c:45-88 | in every reachable state an effect is pending exactly if it occurs once across the queue and all unfinished snapshots |
| SoliteRuntime.NoMissedWakeUp | solite_runtime/src/solite_signal.c:62-113 | within the limits, wherever a signal changed after a live effect that is not pending had read it, a run of the effect started later |
| SoliteRuntime.ReadsSubscribe | solite_runtime/src/solite_signal.c:62-97 | without overflow every read in the history was made by the innermost callback entered and not left at that time, or by none, and that effect is a subscriber of the signal |
| SoliteRuntime.SubscribersHaveRead | solite_runtime/src/solite_signal.c:62-97 | and every subscriber of a signal has read it |
| SoliteRuntime.ChangeWakes | solite_runtime/src/solite_signal.c:99-113 | a change followed by a flush starts a run of every idle live effect that had read the signal |
| SoliteRuntime.WakesInOrder | solite_runtime/src/solite_signal.c:99-113 | effects that were idle are woken in the order in which they subscribed |
| SoliteRuntime.Quiescent | solite_runtime/src/solite_effect.c:67-88 | at quiescence every live memo, Show and For shows its computation on the current values |
| SoliteRuntime.ShowMirrors | solite_runtime/src/solite_control_flow.c:16-35 | at quiescence a live Show has a child exactly if its signal is non-zero, and its window holds exactly that child |
| SoliteRuntime.ForMirrors | solite_runtime/src/solite_control_flow.c:69-116 | at quiescence the window holds exactly the in-order renders of the list as it is, and no leftover |
| Segments.Parallel | libs/calynda_physics/calynda_physics.c:408-410 | the determinant is never negative, and where it is zero both stationarity equations agree, so any first guess will do |
| Segments.StationaryIsClosest | libs/calynda_physics/calynda_physics.c:387-419 | a pair of parameters at which neither slope points into the square is the closest pair |
| Segments.StillBeyond | libs/calynda_physics/calynda_physics.c:411-413 | recomputing s after t was clamped does not bring t back into its range |
| Segments.BothLongIsStationary | libs/calynda_physics/calynda_physics.c:407-414 | through every clamp and recompute branch the result is stationary |
| Segments.ParametersAreStationary | libs/calynda_physics/calynda_physics.c:397-416 | so for all four cases of long and short segments, where a short one is taken at its start |
| Segments.DownhillIsCloser | libs/calynda_physics/calynda_physics.c:397-406 | where the slope at a start is downhill, a step along the segment comes closer |
| Segments.ClosestPointsAreClosest | libs/calynda_physics/calynda_physics.c:387-419 | the points are the closest of the two segments if and only if each segment no longer than CM_EPSILON has its start nearest to the other segment's start or, if that one is longer, to its point nearest to this start; always, for longer ones |
| Segments.SameCondition | libs/calynda_physics/calynda_physics.c:397-406 | that condition on the end points is the one on the points returned |
| Segments.NearestPointIsNearest | libs/calynda_physics/calynda_physics.c:377-384 | closest_point_segment returns the nearest point of a segment longer than the threshold |
| Segments.ShortSegmentGoesWrong | libs/calynda_physics/calynda_physics.c:397-402 | a short segment and a point for which the result is not the closest pair |
| Bodies.DirectionIsUnit | libs/calynda_physics/calynda_physics.c:249-250 | the contact normal is a unit vector, also in the fallback |
| Bodies.RotatedAboutAxis | libs/calynda_math/calynda_math.h:205-212 | rotation by any quaternion is Rodrigues' formula: v(1 - 2|u|^2) + 2(u·v)u + 2w(u × v) |
| Bodies.EndsAreRotated | libs/calynda_physics/calynda_physics.c:357-374 | the ends of a core are the position plus and minus the rotated (0, halfHeight, 0), for every quaternion |
| Bodies.CoresWithinExactly | libs/calynda_physics/calynda_physics.c:428-434 | the squared distance of the points found is below every limit that the cores' is below, if no core is taken at the wrong end; otherwise it is itself a limit that the cores come within and it is not below |
| Bodies.CapsuleHitOverlaps | libs/calynda_physics/calynda_physics.c:422-440 | for a pair of capsules a reported hit means that the cores, between the rotated ends, come closer than the radius sum; the converse holds if no core is short and taken at the wrong end |
| Bodies.CapsulesHitExactly | libs/calynda_physics/calynda_physics.c:422-440 | for two such cores, hits are reported exactly for the overlapping capsules at all radii if and only if no core is short and taken at the wrong end |
| Bodies.CapsulesMissed | libs/calynda_physics/calynda_physics.c:422-440 | two capsules whose cores come within the radius sum and which are reported as a miss |
| Bodies.SpheresHitExactly | libs/calynda_physics/calynda_physics.c:243-255 | spheres hit exactly if the two balls have a point in common, which is when their centres are closer than the radius sum |
| Bodies.DepthSeparates | libs/calynda_physics/calynda_physics.c:248-251 | moving the second point by the depth along the normal leaves exactly the radius sum between them if and only if the points are further apart than CM_EPSILON or the fallback normal happens to fit, as it does where they coincide |
| Bodies.SamePointFits | libs/calynda_physics/calynda_physics.c:248-251 | the fallback normal fits where the points coincide |
| Bodies.SphereContact | libs/calynda_physics/calynda_physics.c:243-255 | where the normal fits, normal and depth part two spheres exactly, and the contact point is half the depth inside each |
| Bodies.CapsuleContact | libs/calynda_physics/calynda_physics.c:422-440 | the same between the closest core points of two capsules; the contact point is on the first one's surface |
| Bodies.SpherePairContact | libs/calynda_physics/calynda_physics.c:523-540 | two sphere bodies hit exactly if their balls meet; the normal of the hit points from the first to the second |
| Bodies.CapsulePairContact | libs/calynda_physics/calynda_physics.c:523-589 | so does that of two capsule bodies, between the closest core points |
| Impulses.EffectiveMassIsPositive | libs/calynda_physics/calynda_physics.c:739-743 | the effective mass is positive, because its angular terms are squares times inverse inertias |
| Impulses.SolvedExactly | libs/calynda_physics/calynda_physics.c:719-743 | so a visit gets past the early exits exactly if neither body is a sensor, one of them can move, and they do not part along the normal |
| Impulses.ImpulseGrows | libs/calynda_physics/calynda_physics.c:753-760 | the accumulated normal impulse never decreases, so its clamp at zero never acts, and its growth meets the law of restitution |
| Impulses.NormalLaw | libs/calynda_physics/calynda_physics.c:726-770 | after the normal impulse the normal relative velocity is -e·v + bias, with e the smaller restitution and the bias 0.2 · 60 times the depth beyond 0.005; the remaining term is zero for a unit normal |
| FrictionLaw.SlideExists | libs/calynda_physics/calynda_physics.c:774-781 | unless the length of the tangential velocity is zero, the relative velocity is a part along the unit normal plus that length times a unit vector across it |
| FrictionLaw.AlongTheSlide | libs/calynda_physics/calynda_physics.c:774-800 | along that vector the velocity changes by the applied impulse times the sum of inverse masses and angular terms along it; the accumulated impulse is the old one less slide over effective mass, clamped to the mean of the two frictions times the normal impulse |
| FrictionLaw.AgainstTheSlide | libs/calynda_physics/calynda_physics.c:783-791 | a first visit pushes against the slide, by the smaller of slide over effective mass and that limit |
| FrictionLaw.NoFriction | libs/calynda_physics/calynda_physics.c:779-780 | a slide slower than 0.000001 is left alone |
| FrictionLaw.SlideAfterwards | libs/calynda_physics/calynda_physics.c:774-800 | without angular terms the slide ends where the cone allows it, else it shrinks by limit times inverse mass sum; the velocity along the normal is kept |
| FrictionLaw.FirstVisit | libs/calynda_physics/calynda_physics.c:716-800 | a whole first visit without angular terms: the relative velocity is then -e·v + bias along the normal and max(slide - mu·N·s, 0) along the slide, N the normal impulse after it and s the inverse mass sum |
| FrictionLaw.SlowsDown | libs/calynda_physics/calynda_physics.c:716-800 | a body of mass 1 that meets a fixed floor at (1, -1, 0) with friction 0.5 leaves at (0.5, 0, 0) |
| Impulses.VisitKeepsBounds | libs/calynda_physics/calynda_physics.c:757-791 | a visit, on any of its paths, keeps the friction impulse within mu times the normal impulse |
| Impulses.StartsBounded | libs/calynda_physics/calynda_physics.c:626-632 | a new contact, without impulses, is within those bounds |
| Impulses.PushGivesMomentum | libs/calynda_physics/calynda_physics.c:763-770 | an impulse at the contact point adds itself to the momentum and its moment about the origin to the angular momentum |
| Impulses.PullTakesMomentum | libs/calynda_physics/calynda_physics.c:763-770 | and takes them from the other body |
| Impulses.VisitKeepsTotals | libs/calynda_physics/calynda_physics.c:719-800 | a visit to two dynamic bodies keeps their joint linear and angular momentum |
| Impulses.CorrectionKeepsCentre | libs/calynda_physics/calynda_physics.c:944-964 | the correction keeps the mass-weighted position sum of two dynamic bodies |
| Impulses.CorrectionParts | libs/calynda_physics/calynda_physics.c:944-964 | it parts the bodies along the normal by 0.4 of the depth beyond the slop, whatever their masses |
| Solver.VisitIsLawful | libs/calynda_physics/calynda_physics.c:712-803 | one visit, seen from all bodies and contacts: only velocities and impulses change, totals are conserved, bounds kept, impulses grow |
| Solver.RoundsAreLawful | libs/calynda_physics/calynda_physics.c:712-803 | over all iterations and contacts: totals conserved between dynamic bodies, friction bounded, normal impulses never decreasing |
| Solver.SolverRuns | libs/calynda_physics/calynda_physics.c:712-803 | the state after all iterations is reached through stages, as many rounds as iterations, each visiting every contact once, in order, and each visit changing its two bodies and its contact only |
| Solver.CorrectionRuns | libs/calynda_physics/calynda_physics.c:944-964 | likewise the positions after all corrections |
| Solver.CorrectionIsCentred | libs/calynda_physics/calynda_physics.c:944-964 | one correction, seen from all bodies: only positions change and the weighted sum is kept |
| Solver.World.Visit | libs/calynda_physics/calynda_physics.c:716-800 | the straight-line code with its early exits computes the visit of the specification |
| Solver.World.Rub | libs/calynda_physics/calynda_physics.c:772-800 | the friction part of it |
| Solver.World.SolveContact | libs/calynda_physics/calynda_physics.c:715-801 | updates exactly the two bodies and the contact in place, as the visit of the specification |
| Solver.World.Iterate | libs/calynda_physics/calynda_physics.c:714-802 | one iteration visits every contact once, in order |
| Solver.World.SolveContacts | libs/calynda_physics/calynda_physics.c:712-803 | the world's arrays hold the state after all visits of all iterations, which obeys those laws |
| Solver.World.CorrectContact | libs/calynda_physics/calynda_physics.c:945-963 | updates exactly the two positions in place |
| Solver.World.PositionalCorrection | libs/calynda_physics/calynda_physics.c:944-964 | the bodies are those after all corrections, in order; between dynamic bodies the mass-weighted position sum is unchanged |
| Ledger.VisitGains | libs/calynda_physics/calynda_physics.c:716-800 | what a visit gives each of its bodies, dynamic or fixed, in linear and angular momentum: the whole impulse, its negative, or nothing |
| Ledger.NothingExternal | libs/calynda_physics/calynda_physics.c:712-803 | a contact of two dynamic bodies adds nothing to the totals |
| Ledger.RoundsBalance | libs/calynda_physics/calynda_physics.c:712-803 | in a world of dynamic and fixed bodies the totals change, over all iterations, by exactly the impulses of contacts with fixed bodies and their moments |
| Ledger.CorrectionsBalance | libs/calynda_physics/calynda_physics.c:944-964 | the same for the mass-weighted position sum over all corrections |
| GridOrder.InCellPlaces | libs/calynda_physics/calynda_physics.c:174-189 | the i-th body of a cell is active, lies in the cell and has i earlier bodies there |
| GridOrder.PlacedInCell | libs/calynda_physics/calynda_physics.c:174-189 | every active body is listed in its cell at its place |
| GridOrder.RankIsInjective | libs/calynda_physics/calynda_physics.c:602-634 | different turns of the nest of loops have different ranks, and those of one cell or one inner loop are consecutive |
| GridOrder.TestInTurn | libs/calynda_physics/calynda_physics.c:602-676 | a test due in a turn is of the turn's own bodies |
| GridOrder.AllRanksPassed | libs/calynda_physics/calynda_physics.c:602-676 | once all ranks have passed, every due test has been made once and no other |
| Broadphase.Detector.constructor | libs/calynda_physics/calynda_physics.c:595-596 | the detector before its first step |
| Broadphase.Detector.GridClear | libs/calynda_physics/calynda_physics.c:154-159 | every cell is empty |
| Broadphase.Detector.GridInsert | libs/calynda_physics/calynda_physics.c:174-181 | the body enters its cell, unless 16 are there; no other cell changes |
| Broadphase.Detector.GridBuild | libs/calynda_physics/calynda_physics.c:183-189 | every cell holds its first 16 active bodies in order |
| Broadphase.Detector.TestPair | libs/calynda_physics/calynda_physics.c:617-631 | one turn: filters, the full contact array, and a contact for a hit |
| Broadphase.Detector.TestTurn | libs/calynda_physics/calynda_physics.c:614-638 | the innermost loop makes exactly the tests of its turn |
| Broadphase.Detector.TestNeighbour | libs/calynda_physics/calynda_physics.c:641-675 | the half-neighbourhood filters and the bounds checks skip no test that is due |
| Broadphase.Detector.TestBody | libs/calynda_physics/calynda_physics.c:608-676 | one body against its own cell and the cells ahead |
| Broadphase.Detector.TestCell | libs/calynda_physics/calynda_physics.c:602-677 | one cell |
| Broadphase.Detector.DetectInGrid | libs/calynda_physics/calynda_physics.c:595-678 | unless the contact array fills, each due pair is tested exactly once and the contacts are those of its hits, in order |
| GridCoverage.TestedOneWay | libs/calynda_physics/calynda_physics.c:602-676 | of two listed bodies that pass the filters, exactly one order is tested if their cells are equal or adjacent, and none otherwise |
| GridCoverage.NoneDropped | libs/calynda_physics/calynda_physics.c:174-181 | a body is listed if its cell has at most 16 |
| GridCoverage.CellHolds | libs/calynda_physics/calynda_physics.c:161-172 | along each axis a point lies in the slab of its cell, the first and last one reaching on without end |
| GridCoverage.FiltersAre | libs/calynda_physics/calynda_physics.c:602-625 | a pair is let through exactly if not both are static and each mask meets the other layer |
| GridCoverage.CoordinateIsNear | libs/calynda_physics/calynda_physics.c:161-172 | truncation toward zero and clamping take values at most one apart to coordinates at most one apart |
| GridCoverage.CloseIsNear | libs/calynda_physics/calynda_physics.c:161-172 | points no further apart than the cell size lie in the same or adjacent cells |
| GridCoverage.SpheresAsByBruteForce | libs/calynda_physics/calynda_physics.c:595-678 | two listed spheres with radius sum at most the cell size have a contact exactly if they pass the filters and touch |
| GridCoverage.OneContactEach | libs/calynda_physics/calynda_physics.c:595-678 | no pair has two contacts, in either order |
| GridCoverage.ContactHasTest | libs/calynda_physics/calynda_physics.c:626-631 | every contact comes from a test of its two bodies, in this order, and has the normal, depth and point of that hit and no impulses yet |
| GridCoverage.ContactParts | libs/calynda_physics/calynda_physics.c:243-255 | the normal and depth of a contact of two spheres part its second body from its first |
| Matrices.Mat4Mul | libs/calynda_math/calynda_math.h:289-301 | the triple loop computes the product of rows and columns |
| Matrices.MulComposes | libs/calynda_math/calynda_math.h:289-310 | multiplying by a product is multiplying twice |
| Matrices.TrsPlacesPoints | libs/calynda_math/calynda_math.h:369-378 | the matrix scales a point, coordinate by coordinate, rotates it as cm_quat_rotate_vec3 does and moves it, for every quaternion |
| Matrices.MulIsAffine | libs/calynda_math/calynda_math.h:289-301 | products of affine matrices are affine |
| Matrices.AffinePoint | libs/calynda_math/calynda_math.h:312-315 | for an affine matrix, dropping w from a transformed point loses nothing |
| Culling.ComputeBounds | libs/calynda_gfx3d/gfx3d_mesh.c:21-39 | the box holds every vertex and each of its faces touches one; zero for no vertices |
| Culling.TransformBounds | libs/calynda_gfx3d/gfx3d_scene.c:85-104 | the world box is the tight hull of the eight transformed corners |
| Culling.HullHoldsImages | libs/calynda_gfx3d/gfx3d_scene.c:85-104 | it therefore holds the image of every point of the local box |
| Culling.FrustumFromVp | libs/calynda_math/calynda_math.c:387-436 | the loop normalises each of the six extracted planes once |
| Culling.PlanesBoundClip | libs/calynda_math/calynda_math.c:387-436 | a point is on the inner side of all six planes if and only if its clip coordinates satisfy -w <= x, y, z <= w |
| Culling.PlaneIsFace | libs/calynda_math/calynda_math.c:387-436 | each plane has on its inner side exactly the points on the inner side of its face of the clip volume: left, right, bottom, top, near, far |
| Culling.FrustumContainsAabb | libs/calynda_math/calynda_math.c:446-457 | the early-exit loop answers whether every plane's positive vertex is on its inner side |
| Culling.PositiveVertexIsFurthest | libs/calynda_math/calynda_math.c:446-457 | the positive vertex is the furthest point of the box along the normal |
| Culling.BoxFailsExactly | libs/calynda_math/calynda_math.c:446-457 | a plane rejects a box if and only if the whole box is outside it |
| Culling.BoxReaches | libs/calynda_math/calynda_math.c:446-457 | a box passes a plane if and only if one of its points is on the inner side of that face |
| SceneGraph.MeshCreate | libs/calynda_gfx3d/gfx3d_mesh.c:41-62 | the mesh has the given vertices and indices, and bounds that hold the vertices |
| NodeTrees.TakenIn | libs/calynda_gfx3d/gfx3d_scene.c:43-49 | a tree that takes in another, apart from it, below any of its nodes is a tree |
| NodeTrees.Pruned | libs/calynda_gfx3d/gfx3d_scene.c:51-62 | a tree from which the tree below any of its nodes is taken off, the last sibling moving into the gap, is a tree of the nodes left |
| SceneGraph.SceneNode.constructor | libs/calynda_gfx3d/gfx3d_scene.c:16-32 | a node is a tree, visible and without a mesh, parent or children |
| SceneGraph.AddChild | libs/calynda_gfx3d/gfx3d_scene.c:43-49 | succeeds exactly if both nodes are given and the parent has fewer than 32 children; then the child is the parent's last and the whole is a tree of the nodes of both |
| SceneGraph.RemoveChild | libs/calynda_gfx3d/gfx3d_scene.c:51-62 | succeeds exactly if the node is a child of the parent; then the last child takes its place, and both parts are trees of their own nodes |
| SceneGraph.SceneNode.UpdateTransforms | libs/calynda_gfx3d/gfx3d_scene.c:78-109 | every node of the tree gets its parent's matrix times its own, and the hull of its mesh's corners; where this takes points is the next two rows |
| SceneGraph.SceneNode.EachSits | libs/calynda_gfx3d/gfx3d_scene.c:78-109 | each node's world matrix takes a point of its mesh to where its parent's, or `above` at the root, takes the point scaled, rotated and moved by the node |
| SceneGraph.SceneNode.PathPlaces | libs/calynda_gfx3d/gfx3d_scene.c:78-109 | along any path down from the root, the last world matrix takes a point to where `above` takes it after each node, from the last to the first, has carried it |
| SceneGraph.SceneNode.PathTo | libs/calynda_gfx3d/gfx3d_scene.c:78-109 | every node of the tree has such a path |
| SceneGraph.SceneNode.Cull | libs/calynda_gfx3d/gfx3d_scene.c:115-126 | every node of the tree gets the visibility its bounds call for |
| SceneGraph.SceneNode.NodeInViewIsVisible | libs/calynda_math/calynda_math.c:446-457 | a node with a vertex in the clip volume, placed in the world as the code places points, passes the six plane tests |
| SceneGraph.SceneNode.CullingIsSound | libs/calynda_gfx3d/gfx3d_scene.c:78-126 | and so does every node of an updated and culled tree |
| SceneGraph.SceneNode.ShownExactly | libs/calynda_gfx3d/gfx3d_scene.c:115-126 | a node of an updated and culled tree with a mesh is invisible if and only if its whole world box lies outside one of the faces of the clip volume |
| SceneGraph.SceneNode.AffineInView | libs/calynda_gfx3d/gfx3d_scene.c:78-109 | below an affine matrix this is the same as projecting the vertex by the product of view-projection and world matrix |
| SceneGraph.UpdateAndCull | libs/calynda_gfx3d/gfx3d_scene.c:78-126 | after update, plane extraction and culling every world matrix takes points where its ancestors carry them, a node is marked visible exactly if it has no mesh or its world box reaches the inner side of each face of the clip volume, and each node with a vertex inside the clip volume is, for every parent matrix |
| TextureCache.RecencyHas | libs/calynda_gfx3d/gfx3d_texture.c:182-216 | the ideal list holds exactly the loadable paths requested |
| TextureCache.LoadedByEnding | libs/calynda_gfx3d/gfx3d_texture.c:195-201 | a path goes to the loader its last four characters name, unless it is those four alone, and any other to none |
| TextureCache.RecencyIsOrdered | libs/calynda_gfx3d/gfx3d_texture.c:182-216 | each once, by decreasing time of their last request |
| TextureCache.NewestFollows | libs/calynda_gfx3d/gfx3d_texture.c:182-216 | how the first 64 of that list change with one request |
| TextureCache.EvictTimesHolds | libs/calynda_gfx3d/gfx3d_texture.c:218-234 | evicting n entries removes the n least recently used, or all |
| TextureCache.HitHolds | libs/calynda_gfx3d/gfx3d_texture.c:186-191 | a hit returns the texture loaded for that path and makes it the most recent |
| TextureCache.MissHolds | libs/calynda_gfx3d/gfx3d_texture.c:203-214 | a loaded path becomes the most recent, after one eviction if 64 are resident |
| TextureCache.RunHolds | libs/calynda_gfx3d/gfx3d_texture.c:182-216 | after any run of fewer than 2^32 requests of short paths the entries, in order of use, are the newest 64, or fewer, loadable paths requested, each with its own texture |
| TextureCache.WrapEvictsNewest | libs/calynda_gfx3d/gfx3d_texture.c:182-234 | when the frame counter has wrapped around in a full cache, the newest path but one is evicted |
| TextureCache.ResidentsExactly | libs/calynda_gfx3d/gfx3d_texture.c:182-234 | for the paths a program uses, the residents are the newest 64 after each of up to n requests if and only if no loadable path has 256 characters or more and n is at most 2^32 or at most 64 paths are loadable |
| TextureCache.AnswersExactly | libs/calynda_gfx3d/gfx3d_texture.c:182-216 | whatever was requested before, every request is answered as the loader answers it if and only if no loadable path of 256 characters or more begins with another path, of 255 characters, that loads differently |
| TextureCache.WrongTexture | libs/calynda_gfx3d/gfx3d_texture.c:186-212 | the first 255 characters of a path of 256 that ends in .png are answered with its texture, though they are not loadable |
| TextureCache.Cache.constructor | libs/calynda_gfx3d/gfx3d_texture.c:176-180 | the empty cache is the state after no request |
| TextureCache.Cache.Find | libs/calynda_gfx3d/gfx3d_texture.c:186-191 | the first entry with the path, or none |
| TextureCache.Cache.LeastRecent | libs/calynda_gfx3d/gfx3d_texture.c:220-228 | the first entry with the smallest frame |
| TextureCache.Cache.EvictOne | libs/calynda_gfx3d/gfx3d_texture.c:219-233 | swap-with-last removes that entry and no other |
| TextureCache.Cache.Evict | libs/calynda_gfx3d/gfx3d_texture.c:218-234 | evicts n times, or until nothing is left |
| TextureCache.Cache.Insert | libs/calynda_gfx3d/gfx3d_texture.c:203-214 | the new entry, with the path as far as it fits, goes to the end, after one eviction if 64 are resident |
| TextureCache.Cache.Get | libs/calynda_gfx3d/gfx3d_texture.c:182-216 | the entries, the frame and the answer are those of the specification, for every path and frame, so that after any run of requests the cache is in the state that those results are about |
| TextureCache.Cache.Clear | libs/calynda_gfx3d/gfx3d_texture.c:236-242 | nothing is resident |
| GxTiling.SourceOfTarget | libs/calynda_gfx3d/gfx3d_texture.c:27-58 | the byte of pixel (x, y), channel c, lands at a closed-form offset from which x, y and c are recovered |
| GxTiling.TargetOfSource | libs/calynda_gfx3d/gfx3d_texture.c:27-58 | and every offset is that of the byte recovered from it |
| GxTiling.SourceInRange | libs/calynda_gfx3d/gfx3d_texture.c:27-58 | every offset of the output comes from a byte of the image |
| GxTiling.TargetInRange | libs/calynda_gfx3d/gfx3d_texture.c:27-58 | every byte of the image lands in the output |
| GxTiling.TileLayout | libs/calynda_gfx3d/gfx3d_texture.c:36-54 | of pixel p of a tile alpha is at byte 2p, red at 2p + 1, green at 32 + 2p and blue at 33 + 2p, read from offsets 3, 0, 1 and 2 of the pixel in the image |
| GxTiling.Untiles | libs/calynda_gfx3d/gfx3d_texture.c:27-58 | reading the output at those offsets gives back the image |
| GxTiling.WriteBlock | libs/calynda_gfx3d/gfx3d_texture.c:36-54 | one run of sixteen channel pairs is written where the closed form says, as far as it falls into the buffer |
| GxTiling.Rgba8ToGx | libs/calynda_gfx3d/gfx3d_texture.c:27-58 | for an image of any size the four-level loop nest writes the whole tiles that cover it, every place of the buffer as the closed form says, each byte read where the closed form says; the writes end at the buffer's end, and the reads stay inside the image, if and only if both sides are multiples of 4 or the image is empty |
| GxTiling.CreateSolid | libs/calynda_gfx3d/gfx3d_texture.c:139-142 | an image of one pixel: 64 bytes are written into a buffer of 4, two of which come from behind the pixel |
| GxTiling.StreamedInImage | libs/calynda_gfx3d/gfx3d_texture.c:27-58 | for an image that divides into tiles every byte read is the one of the image that belongs there |
| GxTiling.ReadsInsideExactly | libs/calynda_gfx3d/gfx3d_texture.c:27-58 | every read stays inside the image if and only if both sides are multiples of 4 or the image is empty |
| C3dBytes.WordRoundTrip | tools/obj2c3d.py:116-126 | unpacking a packed 32-bit word gives it back |
| C3dBytes.VertexRoundTrip | tools/obj2c3d.py:93-96 | and a packed vertex of 36 bytes |
| C3dBytes.VerticesRoundTrip | tools/obj2c3d.py:93-96 | and a packed vertex array |
| C3dBytes.HalvesRoundTrip | tools/obj2c3d.py:98-101 | and a packed index array |
| Obj2C3d.BuildVertices | tools/obj2c3d.py:57-73 | succeeds exactly if every position index is at least -n and below n, for n positions; then each index looks up the vertex its face reference asks for, equal references share an index, no vertex is unused and the vertices are in order of first use |
| Obj2C3d.PackIndices | tools/obj2c3d.py:98-101 | succeeds exactly if every index fits 16 bits |
| Obj2C3d.Pad | tools/obj2c3d.py:103-105 | pads to the next multiple of 4 |
| Obj2C3d.BoundsAreTight | tools/obj2c3d.py:74-84 | the computed bounds hold every vertex, and each of their faces touches one; zero for no vertices |
| Obj2C3d.WriteC3d | tools/obj2c3d.py:87-131 | succeeds exactly if the indices fit 16 bits, the name is ASCII and the offsets fit 32 bits; then the file is header, vertices, padded indices and name, with the bounds of the vertices |
| C3dLayout.FileLayout | tools/obj2c3d.py:87-131 | the file byte by byte: thirteen header words, vertex k at 52 + 36k, the indices behind the vertices, zeros to a multiple of four, and the name with its NUL |
| C3dLayout.WritableExactly | tools/obj2c3d.py:87-131 | it can be written exactly if all indices are below 65536, all characters of the name below 128 and the place of the name below 2^32 |
| C3dLayout.FaceInFile | tools/obj2c3d.py:57-101 | for each face reference the file has an index, and at that vertex the referenced position, counted from the end if negative, the normal or (0, 1, 0), the texture coordinates or (0, 0), and white |
| C3dModel.CopiedWhole | libs/calynda_gfx3d/gfx3d_model.c:39-48 | a copied name is whole exactly if it fits and has no NUL |
| C3dModel.CopyName | libs/calynda_gfx3d/gfx3d_model.c:39-48 | the copy into the zeroed buffer holds the characters up to the first NUL, terminated |
| C3dModel.Gfx3dModel.constructor | libs/calynda_gfx3d/gfx3d_model.c:27-28 | a model without vertices and indices, with zeroed bounds and name |
| C3dModel.Gfx3dModel.OverrideBounds | libs/calynda_gfx3d/gfx3d_model.c:33-39 | the bounds of the header replace the computed ones |
| C3dModel.Gfx3dModel.ReadName | libs/calynda_gfx3d/gfx3d_model.c:41-50 | the name is what the file holds at the offset, up to 63 characters, or empty |
| C3dModel.LoadModel | libs/calynda_gfx3d/gfx3d_model.c:11-53 | a fresh model with the vertices, indices, bounds and name of the file, unless the file is rejected or its wrapped sums lead outside it |
| C3dModel.OverrunExactly | libs/calynda_gfx3d/gfx3d_model.c:12-22 | the loader reads outside the file if and only if the header passes the checks and one of the unwrapped ends is past 32 bits |
| C3dModel.OverrunHappens | libs/calynda_gfx3d/gfx3d_model.c:19-22 | a file of 52 bytes that claims 2^30 vertices passes the checks and is read past its end |
| C3dModel.LoadsBack | libs/calynda_gfx3d/gfx3d_model.c:11-53 | loading what was written returns the same vertices, indices and bounds, and the name as far as 63 characters and the first NUL allow |
| C3dModel.BoundsSurvive | libs/calynda_gfx3d/gfx3d_model.c:33-39 | the bounds of the loaded model, which come from the header, hold its vertices, and each of their faces touches one |
| C3dModel.FacesSurvive | libs/calynda_gfx3d/gfx3d_model.c:11-53 | each index of the loaded model looks up the vertex of the original face reference before deduplication |
| TailCall.EmitFunction | compiler/src/c_emit/c_emit_closure.c:259-343 | the emitted function is the straight body, or the loop of the statements before a detected tail call and the reassignments |
| TailCallLoop.EvalIgnores | compiler/src/c_emit/c_emit_expr.c:206-468 | an expression's effect and value do not depend on parameters it does not mention |
| TailCallLoop.EvalAssigns | compiler/src/c_emit/c_emit_expr.c:206-468 | an expression leaves the parameters it does not assign as they were |
| TailCallLoop.ReassignIsBind | compiler/src/c_emit/c_emit_closure.c:311-327 | reassigning one after the other is binding all at once, on every machine, if every parameter that a later argument mentions is passed on as it is and none is assigned by a later argument |
| TailCallLoop.RunIsZero | compiler/src/c_emit/c_emit_closure.c:339-340 | a lambda with bare returns only ever returns 0, so dropping the tail call's result loses nothing |
| TailCallLoop.OneCall | compiler/src/c_emit/c_emit_closure.c:297-332 | one iteration of the loop is one call, if deeper calls agree |
| TailCallLoop.LoopIsRecursion | compiler/src/c_emit/c_emit_closure.c:222-332 | for every machine, world, arguments and number of nested calls, the emitted lambda ends exactly when the recursive one does, with the same effects and result, if the lambda always ends before the tail call, or the tail call's arguments are such and nothing hides its names, or there is no tail call |
| TailCallLoop.LeavesForGood | compiler/src/c_emit/c_emit_closure.c:305-309 | statements among which one returns, throws or exits never run off their end |
| TailCallExact.ReassignExactly | compiler/src/c_emit/c_emit_closure.c:311-327 | for arguments made of literals, variables, operations and calls of other bindings, reassigning in order is in step with binding at once in every frame if and only if every parameter that a later argument mentions is passed on as it is |
| TailCallExact.UnreadMention | compiler/src/c_emit/c_emit_closure.c:311-327 | not so for arguments that branch: f(b, 1 ? 2 : a) is in step on every machine although its second argument mentions a, which is not passed on |
| TailCallObserved.LoopExactly | compiler/src/c_emit/c_emit_closure.c:297-332 | for a lambda that logs its parameters and calls itself with such arguments, the emitted loop does what the recursion does for all arguments if and only if the same condition holds |
| TailCallSwap.RunsDiffer | compiler/src/c_emit/c_emit_closure.c:297-332 | the lambda (a, b) -> { log(a, b); f(b, a); } logs x, y, y, x as written and x, y, y, y as emitted |
| TailCallLoop.SwapGoesWrong | compiler/src/c_emit/c_emit_closure.c:311-327 | the tail call f(b, a) leaves both parameters with b's value |

## Left out

- Rounding: `float` is `real`, `sqrtf` is any function that gives non-negative square roots, and conversion of a float outside the range of `int` is not modelled.
- Allocation failure: every allocation succeeds.
- Dol.DolImage.Clear: the section array is not zeroed, only its count; nothing reads past the count.
- Solite, memory: `solite_signal_dispose` and any use of a disposed signal, effect or node are not modelled.
- Solite, programs: `solite_effect_schedule` is called only by the runtime; memo functions are bounded computations that only read signals; the list behind a word does not change; programs do not remove elements of Show and For from a window.
- Solite, limits: more than 256 effects and more than 64 nested observers are modelled as the code has them, but the results about wake-ups and nodes say nothing then.
- SoliteRuntime.Runtime.FlushPending: partial correctness only, since effects that trigger themselves need not end; `fuel` bounds the nesting and `ok` is false when it runs out.
- TextureCache.Cache.Get: an evicted texture that a caller still holds is not modelled.
- GxTiling.Rgba8ToGx: sizes and positions are unbounded, so an image of 2^29 pixels or more, whose size the code computes with overflow, is not modelled; what the writes past the buffer hit is not modelled either.
- C3dModel.LoadModel: where the loader reads outside the file, the model only says that it does. Big-endian hosts are not modelled.
- Obj2C3d.WriteC3d: floats are 32-bit words, with a real number as their value, so NaN, infinities and `parse_obj` are not modelled.
- TailCallLoop.LoopIsRecursion: sufficient for a given body, since a parameter that nothing reads or logs may go wrong unnoticed; `TailCallExact.ReassignExactly` and `TailCallObserved.LoopExactly` are exact for arguments of literals, variables, operations and calls of other bindings. For arguments that assign, branch or call the lambda itself the condition is not necessary (`TailCallExact.UnreadMention`), and no exact one is given. It is assumed that the lambda is the whole initializer of its binding, which is never reassigned, and that operands are evaluated left to right.
- Emission of expression text, `manual` blocks, the prescan and the numbering of lambdas: the emitted function is modelled as a tree, not as text.
- Bodies.CollidePair: sphere and capsule pairs are modelled; other pairs are an arbitrary function, so the broadphase results hold for any narrow phase.
- Physics: constraints, integration, deactivation, ray casts, buoyancy, characters, the final plane loop (`libs/calynda_physics/calynda_physics.c:680-705`) and the collision callback.
- Ledger.RoundsBalance: bodies are dynamic, with inverse mass and inverse inertia the inverses of mass and inertia, or fixed, with both zero; a body that can move but not turn is not covered.
- SceneGraph.AddChild: a child that already hangs in the same tree, which makes the scene no tree, is not modelled; that a visible node is drawn is not claimed.
- Rendering, input, audio, the JSX rewriter, the Mii decoder, the command line, the compiler's front end and the bridge tables: foreign calls or flat tables.
