# Koi-DOS: models of four kernel components

This project models four parts of the Koi-DOS kernel in Dafny and proves what each is for.

* **Multi-limb modular arithmetic** (`kernel/bignum.c`; modules `Bignum`, `LongDivision`, `Montgomery`, `ModularArithmetic`, over
  `Numbers`, `Primes`, `Words`, `Limbs`). Numbers are classes holding 130 words of 32 bits and a count, changed in place. Every
  operation is tied to one line of integer arithmetic; Fermat's little theorem is proved for the inversion.
* **ChaCha20-Poly1305** (`kernel/aead.c`, RFC 8439; modules `ChaCha`, `MachineWords`, `ChaChaVectors`, `PolyLimbs`, `PolyClamp`,
  `PolyFinish`, `Poly1305`, `PolyVector`, `PolyStream`, `Aead`, over `Bits`, `LittleEndian`). The authenticator is proved against the
  polynomial of section 2.5 of RFC 8439, taken over whole numbers. The integers that stand for words are proved to add, combine and
  rotate as 32-bit words do, and the standard's vectors for the quarter round, the block function and the tag are proved of the model.
* **The stream voice** (`kernel/audio.c`; modules `AudioStream`, `VoiceTable`). A ring written by one side and read by the timer
  interrupt, which may come between any two steps of the writer: a schedule says how many ticks pass at each of them, and what is
  proved holds for every schedule.
* **The FAT32 engine** (`kernel/fat32.c`; modules beginning with `Fat`, with `LongName`, `EntryReader` and `ShortNames`). The device
  is an array of sectors, the mount record a class (`FatVolume.Volume`) with its one-sector write-back cache, its search hint, its
  running free figure and its remembered read position. A ghost field holds the allocation table as a plain sequence of 32-bit
  entries; the cache and the disk together always stand for it.

Words of the machine are ranges of integers, and every wrap-around, cut to 32 bits and borrow is written out as the code does it.
`FatTable.Times` and `FatTable.Over` are multiplication and rounding division by repeated steps (`TimesIsProduct`, `OverFacts`); they
stand wherever the layout of a volume multiplies or divides two variables.

## What the proofs found

Each of these is proved of the code as it stands, with the exact condition.

* `bignum_modexp` returns 1 for exponent 0 and modulus 1, and is right for every other argument (`PowerAnswerExact`).
* Chunking a stream is harmless exactly up to 48 kHz; at any rate above it, a stream just opened and offered one frame at a time comes
  to lose some, because the last step can overshoot the end of a chunk and the excess is forgotten (`OvershootOnlyAbove`,
  `OneFrameChunk`, and the exact loss in `Voice.Offer`).
* The place of a sample in a chunk is worked out in 32 bits: every frame of a chunk is read as it is if and only if the chunk is mono
  or has at most 2^31 frames (`ConvertExact`).
* A stale voice handle names another voice after 65535 further claims, and not before (`StaleHandle`).
* The boot sector keeps 32 bits of the sector count, while `fat32_format` works with 64 and reports success. A mount finds the number
  of clusters the formatter worked out if and only if the 32-bit count is behind the start of the data and what both lost, in units
  of 2^32 sectors, is a multiple of the cluster size (`MountsExactly`). Below 2^32 sectors that always holds (`MountsAsFormatted`); from
  there to 2^34, and for a disk of ten terabytes, it does not (`TooManySectors`, `TenTerabytes`); at 2^38 + 2^31 it does again
  (`AgreesAgain`).
* `fat32_write` works out the end of the file in 32 bits; the size is right exactly when the end of the buffer, or of the room there is
  for it, is below 2^32 (`LongerExact`).
* A long name is read back whole exactly up to 247 characters; longer ones lose what their twentieth piece carries
  (`ReadsBack`, `WholeName`).
* A created entry is visible if and only if the first character of its name that is neither a space nor a dot, before the extension,
  is not byte 0xE5, the mark of a deleted entry (`SeenUnlessDeleted`); a file called by that byte alone can be created and never found
  (`UnseenName`).
* `check_directory` rounds a file's size up to clusters in 32 bits. A file in order is left alone if and only if its size plus a cluster
  less one is below 2^32 (`SoundFileKept`); the largest file there can be is cut down to its first cluster (`LargestFileCut`). Over a
  whole repair: a file in order on a chain that nothing else leads to keeps its entry, its size and its contents, and keeps its chain
  under exactly that condition (`FileSurvives`, `ContentsKept`).
* A repair gives back exactly two kinds of cluster: those a complete check has not marked, bad ones excepted, and the surplus of a
  file, the clusters behind those its size entitles it to, in the chain of the one file whose walk marked them (`FreedExactly`,
  `FilesApart`). If no directory met a mark, the first kind is exactly what nothing led to from the root when the check began
  (`MarkedIsReachable`, `FreedUnreachable`). Both kinds can hold what is still wanted.
  * Where a directory's chain, or an entry for a directory, leads to a cluster marked already, the walk stops there and the check still
    counts as complete; the entries behind that point are never seen, and what they lead to is given back (`Overlooked`,
    `OverlookedFreed`: a file that begins at the root's own second cluster). No directory meets a mark where no cluster of a directory
    is claimed by anything but the one entry or link it is the directory's by (`TidyNotCrossed`), which is a condition on the volume
    before the check and leaves open what files share with each other.
  * An entry is left naming a cluster that has been given back exactly when that cluster was the surplus of a file (`NamedFreed`). That
    happens to a file that begins inside the surplus of one gone over before it, whatever its own size (`UndercutLeft`; `TwoFiles` is
    the smallest input), even if no directory shares anything (`UndercutTidy`). It cannot happen where no entry names a cluster that
    links lead to behind those another file is entitled to (`NoneNamed`).
* The header (`kernel/fat32.h:213`) says that a check without repairs changes nothing at all. It does: each of the two times
  `fat32_check` commits, FSInfo is given the free count and the search position, whether the check is to repair anything or not. With
  nothing waiting in the cache that is all it writes (`CheckVolume`), and it writes nothing if and only if FSInfo is not signed or has
  both figures already (`OnlyInfoExactly`). A count that is plausible and wrong is reported as not repaired and put right all the
  same; one left open is filled in without a report (`UnknownWritten`).
* A repair removes every end mark in front of a live entry (`Uncovered`), and every entry of the directories walked is still there,
  under the name it had, with the attributes it had and leading where it led (`NameStays`, `EntryStays`): everything can be read again.
  Of the slots of long names it deletes exactly those whose run the next short entry does not own, twenty of them at most
  (`FreedMeans`). The rule the writer relies on, that a cluster with a successor has no end mark at all, holds of a repaired directory if
  and only if every end mark in such a cluster had a live entry behind it (`SealedAfterRepair`); an empty directory of two clusters goes
  through a repair unchanged and does not obey it (`EmptyStaysUnsealed`).
* `erase_entries` walks the device from a set's first slot to its last, not the directory. A set laid from one cluster to a later one
  costs every cluster between the two on the device, whosever it is, the first byte of every 32 (`ErasedAcross`, `Bystander`); no harm
  is done exactly when all those bytes are the mark already (`AcrossHarmless`). If the last slot lies before the first on the device, the
  call fails, having marked slots up to the end of the second sector behind the last, or at least one (`EraseEntries`).
* `fat32_write` returns 0 after claiming every free cluster exactly when its offset is behind all the room there is and some cluster
  was free (`FatFile.Write`, `LastClusterInVain`); `fat32_create` does the same to its parent directory exactly when the directory has no
  room and the one free cluster goes into growing it (`FatCreate.Create`, `FullDirectoryGrows`). Neither commits then, although the
  comment at the head of the table's code says that every operation that can dirty the cached sector flushes it: FSInfo counts clusters
  that are not free any more, and a file's new first cluster is only in the caller's entry. The cached sector itself is still dirty if
  and only if the table is one sector long, because the search that failed has gone through all of them.
* Bytes between the old end of a file and a write that starts beyond it are whatever the clusters held before (`FatFile.Write`).

## Model

| member | source | states |
|---|---|---|
| `Bignum.Compare` | kernel/bignum.c:60-67 | orders two numbers by value, for trimmed numbers of any lengths |
| `Bignum.Subtract` | kernel/bignum.c:69-80 | left becomes left - right exactly, trimmed, for right <= left: no borrow leaves the top |
| `Bignum.ShiftLeftOne` | kernel/bignum.c:82-93 | the value doubles exactly whenever the double fits the capacity: no carry is dropped |
| `LongDivision.BitOf` | kernel/bignum.c:95-98 | bit k of the limbs is bit k of the value |
| `LongDivision.BitLength` | kernel/bignum.c:100-107 | the place above the highest set bit of the value |
| `LongDivision.DoubleFits` | kernel/bignum.h:23-33 | a remainder below a modulus of 128 limbs, doubled, stays inside the headroom limbs |
| `LongDivision.DivisionStep` | kernel/bignum.c:119-126 | one bit brought down keeps the remainder of the bits so far below the modulus |
| `LongDivision.Reduce` | kernel/bignum.c:115-131 | value becomes value mod modulus for every nonzero modulus of up to 128 limbs |
| `LongDivision.ReduceWide` | kernel/bignum.c:146-163 | the same for a double-width product |
| `Montgomery.NewtonStep` | kernel/bignum.c:204-209 | x with v x = 1 modulo p gives x(2 - v x) with v x = 1 modulo p squared |
| `Montgomery.InverseOfLimb` | kernel/bignum.c:204-209 | five steps from three correct bits give -v^-1 modulo 2^32 for every odd v |
| `Montgomery.Round` | kernel/bignum.c:254-286 | one round keeps t < 2n, divides by 2^32 exactly, and adds one limb's multiple of the other operand |
| `Montgomery.Rounds` | kernel/bignum.c:254-286 | after all rounds t times R is the product modulo n, and t is below 2n |
| `Montgomery.MontgomeryMultiply` | kernel/bignum.c:246-299 | out < n and out * 2^(32k) is congruent to left * right, for every odd n of k limbs; one subtraction is enough |
| `ModularArithmetic.SquareOfR` | kernel/bignum.c:225-237 | doubling 64k times gives R^2 modulo n |
| `ModularArithmetic.Engine.Prepare` | kernel/bignum.c:211-241 | every used cache entry is right for its own modulus after any history; null exactly for an even or empty modulus |
| `ModularArithmetic.Engine.MultiplyMod` | kernel/bignum.c:304-335 | left * right mod n for odd and even n alike, whatever the cache held |
| `ModularArithmetic.MultiplyModSlow` | kernel/bignum.c:337-370 | the same value by the full product; refused, changing nothing, exactly when the product has no room |
| `ModularArithmetic.BackFromMontgomery` | kernel/bignum.c:322-332 | two Montgomery passes, the second with R^2, come back to the plain product modulo n |
| `ModularArithmetic.SquareAndMultiply` | kernel/bignum.c:384-396 | one squaring and one conditional product extend the exponent by one bit |
| `ModularArithmetic.Modexp` | kernel/bignum.c:372-399 | the power modulo n for every 32-bit exponent; refused exactly for modulus zero |
| `ModularArithmetic.PowerAnswerExact` | kernel/bignum.c:380-397 | what it answers is base^exponent mod n if and only if not both n = 1 and exponent = 0 |
| `ModularArithmetic.Inverse` | kernel/bignum.c:481-504 | value^(n-2) mod n; refused exactly when the low limb of n is below two |
| `Primes.Fermat` | kernel/bignum.c:481-504 | a^(p-1) is 1 modulo a prime p that does not divide a |
| `ModularArithmetic.InverseInverts` | kernel/bignum.c:481-504 | for a prime that does not divide value, out * value is 1 modulo it |
| `ModularArithmetic.AddMod` | kernel/bignum.c:424-444 | (left + right) mod n, with the carry lost only past the last limb of headroom |
| `ModularArithmetic.SubMod` | kernel/bignum.c:446-474 | (left - right) mod n for operands no more than one modulus apart |
| `ChaCha.RotateLeftIsOr` | kernel/aead.c:15-17 | the two shifts or-ed together are a rotation |
| `ChaCha.QuarterRound` | kernel/aead.c:29-37 | the four words in place become the quarter round of the specification |
| `ChaCha.QuarterInverts` | kernel/aead.c:29-37 | a quarter round can be undone |
| `ChaCha.RoundsInvert` | kernel/aead.c:44-54 | so can all the rounds: two states never mix to one, which is why adding the input back matters |
| `ChaCha.Block` | kernel/aead.c:39-60 | the sixty-four bytes of section 2.3 of RFC 8439, and the input words untouched |
| `ChaCha.MakeState` | kernel/aead.c:62-72 | constants, key, counter and nonce in their places |
| `ChaCha.ChaCha20` | kernel/aead.c:74-94 | byte i is combined with key stream byte i, which comes from block counter + i / 64; in place or not, for every length |
| `ChaCha.XorByteTwice` | kernel/aead.c:88-91 | the same key stream byte twice gives the byte back |
| `MachineWords.OneNumber` | kernel/aead.c:15-17 | two numbers below 2^32 come to the same 32-bit word only if they are equal |
| `MachineWords.AddIsMachine` | kernel/aead.c:31-34 | the sum modulo 2^32 is the sum of machine words |
| `MachineWords.XorIsMachine` | kernel/aead.c:31-34 | the arithmetic exclusive or is the one of machine words |
| `MachineWords.RotateIsMachine` | kernel/aead.c:15-17 | each of the four rotations is the rotation of machine words |
| `ChaChaVectors.QuarterIsMachine` | kernel/aead.c:29-37 | for every input the quarter round is section 2.1 of RFC 8439 on 32-bit words |
| `ChaChaVectors.DoubleIsMachine` | kernel/aead.c:44-54 | for every state a column and a diagonal round are those of section 2.3 on 32-bit words, the diagonals being columns of the rotated rows |
| `ChaChaVectors.QuarterVector` | kernel/aead.c:29-37 | the vector of section 2.1.1 of RFC 8439 |
| `ChaChaVectors.BlockVector` | kernel/aead.c:39-72 | the vector of section 2.3.2 of RFC 8439, key, counter and nonce to the sixteen words, whose bytes are the key stream |
| `PolyLimbs.SplitValue` | kernel/aead.c:141-150 | five overlapping 32-bit reads give five 26-bit limbs of the block's number |
| `PolyLimbs.SplitIsMasked` | kernel/aead.c:149-157 | the shifts and 26-bit masks are the remainders the proofs use |
| `PolyLimbs.ColumnsValue` | kernel/aead.c:157-170 | the five columns, with limbs folded back times five, are h * r modulo 2^130 - 5 |
| `PolyLimbs.ColumnsBound` | kernel/aead.c:157-170 | every column fits 64 bits, given limbs of h and r within 26 bits and a few carries |
| `PolyLimbs.CarryValue` | kernel/aead.c:172-187 | the carry chain changes the value by a multiple of the prime only |
| `PolyLimbs.AbsorbCorrect` | kernel/aead.c:136-196 | absorbing a block is (h + block) * r modulo the prime, and the limbs are in bounds for the next |
| `PolyClamp.ClampCorrect` | kernel/aead.c:112-134 | the five masks give the limbs of r with the bits cleared that section 2.5 clears |
| `PolyClamp.PointBytes` | kernel/aead.c:112-134 | those are the upper halves of bytes 3, 7, 11 and 15 and the two lowest bits of bytes 4, 8 and 12, and no others |
| `PolyFinish.SettleCorrect` | kernel/aead.c:204-214 | the last carries leave limbs of 26 bits, the stray carry in the second absorbed, the residue unchanged |
| `PolyFinish.CanonicalCorrect` | kernel/aead.c:216-234 | the masked choice between h and h - p is the residue below p |
| `PolyFinish.AddPadValue` | kernel/aead.c:242-250 | four 32-bit additions with carry add the pad modulo 2^128 |
| `PolyFinish.TagCorrect` | kernel/aead.c:198-253 | the tag is (h mod p + s) mod 2^128 |
| `Poly1305.PolynomialBlocks` | kernel/aead.c:136-196 | whole blocks continue the polynomial of the message |
| `PolyStream.Stream.Add` | kernel/aead.c:255-280 | a piece continues the message exactly, however it is cut, with fewer than sixteen bytes held back |
| `PolyStream.Stream.Finish` | kernel/aead.c:198-253 | the tag is the one of section 2.5 of RFC 8439 for all bytes added |
| `PolyStream.CutsDoNotMatter` | kernel/aead.c:255-280 | two streams with the same message hold the same residue and the same bytes, whatever the cuts were |
| `PolyVector.TagVector` | kernel/aead.c:282-289 | the vector of section 2.5.2 of RFC 8439, key and message to the tag's sixteen bytes |
| `Aead.EncodeInjective` | kernel/aead.c:307-328 | the authenticated string determines both header and message |
| `Aead.EncodePlaces` | kernel/aead.c:307-328 | the header first, the message at the next multiple of sixteen, the two lengths at the one after that, zeroes between |
| `Aead.Authenticate` | kernel/aead.c:307-328 | absorbs exactly the string of section 2.8 of RFC 8439 |
| `Aead.MakeOneTimeKey` | kernel/aead.c:296-305 | the first half of key stream block zero |
| `Aead.OneStream` | kernel/aead.c:293-340 | the authenticator's key is bytes 0 to 31 of the key stream from block zero, and the message lies under its bytes from 64 on |
| `Aead.Seal` | kernel/aead.c:330-345 | byte i of the data becomes itself combined with byte 64 + i of the key stream from block zero, whose first 32 are the tag's key; the tag is over header and ciphertext |
| `Aead.Open` | kernel/aead.c:347-370 | 1 exactly when all sixteen tag bytes match, and then byte i becomes itself combined with byte 64 + i of that key stream; otherwise the data is unchanged byte for byte |
| `Aead.OpenSealed` | kernel/aead.c:330-370 | opening what was sealed gives the message back, and no other tag is accepted for it |
| `Aead.SameTag` | kernel/aead.c:358-363 | the gathered differences are zero exactly when the tags are equal |
| `AudioStream.Voice.constructor` | kernel/audio.c:292-337 | an open stream: an empty queue, and the step for the rate |
| `AudioStream.Voice.Mix` | kernel/audio.c:692-708 | the mixer takes the oldest waiting frame, or silence: frames leave in order, each once; a tick that finds none is counted |
| `AudioStream.Voice.WriteSide` | kernel/audio.c:387-388 | writing the slot before it is published disturbs no frame the mixer may still take |
| `AudioStream.Voice.OneFrame` | kernel/audio.c:363-391 | one more output frame, the song's frame floor(j * step / 2^32), with the timer anywhere between the steps |
| `AudioStream.Voice.Offer` | kernel/audio.c:349-400 | what was taken, exactly, and the signed answer; a chunk whose places fit 32 bits joins the song sounding like its samples: left and right alternate, one channel is on both sides, 16 bits as they are, 8 bits as 256 times the distance from 128; nothing is lost up to 48 kHz, and a short answer means that the ring was full when last looked at |
| `AudioStream.Voice.HeardIsResampled` | kernel/audio.c:349-400 | frame j heard is the song's frame floor(j * step / 2^32), for every chunking that re-offers what was not taken |
| `AudioStream.Voice.HeardSounds` | kernel/audio.c:373-388 | where nothing was lost, each frame heard from such a chunk sounds like the chunk's samples at its place |
| `AudioStream.Voice.Space` | kernel/audio.c:340-346 | the frames of room there are |
| `AudioStream.Voice.Position` | kernel/audio.c:549-573 | the position in the song's own frames modulo 2^32, although the 64-bit product may wrap |
| `AudioStream.Voice.Flush` | kernel/audio.c:598-611 | an empty queue and a new song |
| `AudioStream.ConvertExact` | kernel/audio.c:373-381 | a chunk's frames are read as they are, whatever the samples, if and only if their places fit 32 bits |
| `AudioStream.OvershootOnlyAbove` | kernel/audio.c:395-399 | one frame at a time, a stream just opened never loses a source frame if and only if the rate is at most 48 kHz |
| `AudioStream.OneFrameChunk` | kernel/audio.c:349-400 | what is said of one-frame chunks is what the calls do |
| `AudioStream.OneAtATimeLoses` | kernel/audio.c:397-398 | at 192 kHz a chunk of one frame loses three |
| `AudioStream.Voice.SlotsApart` | kernel/audio.c:386-388 | no waiting frame shares a slot with the one being written |
| `VoiceTable.Table.Claim` | kernel/audio.c:187-212 | the first idle voice under a new generation; refused exactly when none is idle |
| `VoiceTable.Table.VoiceOf` | kernel/audio.c:451-459 | a handle resolves exactly to a voice that is playing under its generation |
| `VoiceTable.Table.Stop` | kernel/audio.c:461-475 | silences only the voice that is playing under the handle's generation |
| `VoiceTable.StaleHandle` | kernel/audio.c:199-200 | an old handle names a newer voice if and only if a multiple of 65535 claims lies between |
| `FatTable.MergeIsOr` | kernel/fat32.c:764-767 | the masks keep the reserved four bits and replace the link |
| `LittleEndian.Read32IsOr` | kernel/fat32.c:108-111 | four bytes shifted and or-ed are the number they stand for |
| `FatVolume.Volume.Places` | kernel/fat32.c:191-195 | the copies of the table lie one after another behind the reserved sectors, the clusters behind the last, in plain arithmetic |
| `FatVolume.Volume.EntryOnDisk` | kernel/fat32.c:203-211 | entry c of the table is the four bytes at 4 (c mod 128) of sector c / 128 of every copy never left apart, unless it waits in the cache |
| `FatContents.ByteOnDisk` | kernel/fat32.c:675-716 | byte p of a chain is byte p mod 512 of its sector in cluster number p / b of it, b being the cluster's bytes |
| `FatSlots.SlotOnDisk` | kernel/fat32.c:500-505 | slot i of a directory's cluster is the 32 bytes at 32 (i mod 16) of its sector i / 16 |
| `FatTable.ChainDistinct` | kernel/fat32.c:203-211 | a chain that ends has no cluster twice |
| `FatTable.ChainUnique` | kernel/fat32.c:203-211 | there is one chain from a cluster |
| `FatTable.ChainExtended` | kernel/fat32.c:910-912 | linking a free cluster after the last makes the chain longer by exactly one |
| `FatTable.FreeCountPut` | kernel/fat32.c:785-796 | how the number of free clusters changes with one entry |
| `FatTable.TrailOfChain` | kernel/fat32.c:918-925 | on a proper chain what is released is the chain |
| `FatVolume.Volume.constructor` | kernel/fat32.c:245-294 | a mount record whose table is what the first copy on the disk holds |
| `FatVolume.Volume.Flush` | kernel/fat32.c:151-166 | the disk holds the whole table, every copy of the held sector the same, nothing else touched |
| `FatVolume.Volume.Fetch` | kernel/fat32.c:170-189 | the asked-for sector is held and the table is the same table |
| `FatVolume.Volume.Next` | kernel/fat32.c:203-211 | the link of the entry as last written; an end mark for clusters outside the volume |
| `FatVolume.Volume.WriteEntry` | kernel/fat32.c:746-797 | exactly this entry changes, reserved bits kept; an exact free figure stays exact; no remembered position survives |
| `FatAllocation.FindFree` | kernel/fat32.c:878-906 | the first free cluster of a lap that starts with the hint's sector of the table, or none exactly when none is free, whatever the hint |
| `FatAllocation.AllocateCluster` | kernel/fat32.c:878-916 | 0 exactly when the volume is full; otherwise the first free cluster of the lap claimed and linked, cleared when asked, and the next lap starts behind it |
| `FatAllocation.BlankCluster` | kernel/fat32.c:846-869 | every sector of the cluster is zero and no other sector has changed |
| `FatAllocation.FreeChain` | kernel/fat32.c:918-925 | ends on every table, cycles included, and releases exactly the clusters on the trail |
| `FatAllocation.FreeBytes` | kernel/fat32.c:347-400 | the running figure, or the count of the whole table, which is then exact |
| `FatAllocation.FreeClustersExact` | kernel/fat32.c:817-819 | an exact figure divided by the cluster size is the number of free entries |
| `FatAllocation.SignedBytes` | kernel/fat32.c:318-320 | FSInfo counts as signed exactly if it has RRaA in front and rrAa at byte 484 |
| `FatAllocation.UpdateFsinfo` | kernel/fat32.c:809-829 | FSInfo says the free count and the hint when it is signed, and is untouched when it is not |
| `FatAllocation.InformedElsewhere` | kernel/fat32.c:818-827 | of FSInfo's bytes only those of the two figures are written |
| `FatAllocation.Commit` | kernel/fat32.c:831-834 | nothing is held back any more, and where the running figure is exact FSInfo says how many clusters are free |
| `FatAllocation.OnlyInfoExactly` | kernel/fat32.h:213-216 | what a check without repairs does to the device is nothing if and only if FSInfo is not signed or has the free count and the search position already |
| `FatAllocation.UnknownWritten` | kernel/fat32.h:213-216 | an FSInfo that leaves the count open is written to by such a check |
| `FatAllocation.AllCopiesHold` | kernel/fat32.c:139-166 | with nothing held back, every copy of the table is the table, save where copies disagreed at the mount and were never written |
| `FatRead.Seek` | kernel/fat32.c:641-665 | the cluster holding the offset, the same from the remembered position as from the first cluster |
| `FatRead.Copy` | kernel/fat32.c:675-716 | the bytes from there on, whole-sector runs and partial sectors alike, the remembered position kept right |
| `FatRead.Read` | kernel/fat32.c:624-720 | exactly the file's bytes from the offset, as many as asked for, recorded and held; nothing beyond them written |
| `FatWrite.WritePiece` | kernel/fat32.c:1447-1477 | these bytes of the cluster and no others change, by either path |
| `FatWrite.Advance` | kernel/fat32.c:1435-1444 | the next cluster of the chain, claimed when the chain ends; 0 only when the volume is full |
| `FatWrite.OthersKept` | kernel/fat32.c:1395-1498 | every other chain is still a chain and still apart from the one that grew |
| `FatFile.Reach` | kernel/fat32.c:1418-1428 | the cluster holding the offset, the chain grown no further than needed; 0 only when every free cluster has been claimed and all of them end before the offset |
| `FatFile.PutBytes` | kernel/fat32.c:1430-1479 | the buffer is in the file, short only when the volume is full and then up to the end of the last cluster |
| `FatFile.FlushEntry` | kernel/fat32.c:1374-1393 | on the disk the slot reads the entry's first cluster, time, date and size, and every other byte of the sector is as it was |
| `FatFile.Write` | kernel/fat32.c:1395-1498 | how many bytes are written, from the room there was; the window of the file, its chain, what no other cluster shares; the slot on the disk reads the new size, first cluster, time and date, every other byte of its sector as it was; what is left behind when nothing could be written |
| `FatFile.GrownRoom` | kernel/fat32.c:1418-1452 | a chain that has taken every free cluster ends where the room there was ends, any other no later |
| `FatFile.LastClusterInVain` | kernel/fat32.c:1422-1425 | a write beyond the one free cluster claims it and writes nothing |
| `FatFile.ContentsAfter` | kernel/fat32.c:1395-1498 | for an offset within the file, the contents are the old ones with that window replaced or appended |
| `FatFile.OthersAfter` | kernel/fat32.c:1395-1498 | every other file is byte for byte what it was and still apart |
| `FatFile.LongerExact` | kernel/fat32.c:1486-1487 | the recorded size is right if and only if the end of the buffer or of the room fits 32 bits |
| `FatReread.EntryReread` | kernel/fat32.c:1380-1389 | a reader finds that size, first cluster, time and date in the slot, under the same name and with the same attributes, and every other slot of the sector as it was |
| `FatGeometry.LayoutFits` | kernel/fat32.c:2251-2283 | a legal layout has two table entries to spare, fits the volume, and reaches no bad or end marker |
| `FatGeometry.FatSizeLeast` | kernel/fat32.c:2258-2266 | the table is the least that pays for itself: 128 clusters to a sector, every sector kept twice |
| `FatGeometry.ClusterCountIs` | kernel/fat32.c:2268-2275 | as many clusters as there is room for behind both copies, none if there is none |
| `FatGeometry.DefaultSizes` | kernel/fat32.c:2298-2306 | 512 bytes up to 260 MiB, then 4, 8, 16 and 32 KiB up to 8, 16, 32 GiB and beyond, a MiB begun not counting |
| `FatGeometry.ChooseCluster` | kernel/fat32.c:2311-2321 | a legal size nearest the usual one, upwards first; 0 exactly when none is legal |
| `FatFormat.Format` | kernel/fat32.c:2354-2497 | for every 64-bit count: refused, changing nothing, exactly when no layout is legal; otherwise boot sector, every field of it, FSInfo, both tables and the root, and no other sector |
| `FatFormat.Mount` | kernel/fat32.c:228-335 | refused exactly on the listed faults; otherwise a valid record seeded from FSInfo where plausible |
| `FatFormat.MountsWhat` | kernel/fat32.c:245-294 | for every boot sector, in plain arithmetic on its bytes: when it is accepted, where the data starts modulo 2^32 and how many whole clusters are behind that |
| `FatFormat.MountsExactly` | kernel/fat32.c:286-294 | for every count and legal size, exactly when a mount finds the number of clusters the formatter worked out |
| `FatFormat.FormattedSound` | kernel/fat32.c:2403-2464 | below 2^32 sectors what was formatted is mounted, and has a table entry and room for every cluster |
| `FatFormat.MountsAsFormatted` | kernel/fat32.c:286-294 | below 2^32 sectors the mount computes the layout the formatter chose |
| `FatFormat.LargeIsLegal` | kernel/fat32.c:2369-2372 | from 2^32 to 2^34 sectors the formatter goes ahead with clusters of 64 sectors |
| `FatFormat.TooManySectors` | kernel/fat32.c:2403-2404 | and no mount finds the number of clusters it worked out |
| `FatFormat.TenTerabytes` | kernel/fat32.c:2403-2404 | nor for a disk of ten terabytes in clusters of 128 sectors |
| `FatFormat.AgreesAgain` | kernel/fat32.c:2403-2404 | at 2^38 + 2^31 sectors the mount agrees again |
| `FatFormat.FormattedMounts` | kernel/fat32.c:2426-2464 | on a formatted and mounted volume the copies agree, the free figure is exact, and the root is a chain of one cluster |
| `FatFresh.FormattedRoot` | kernel/fat32.c:2464-2487 | its root directory obeys the rule about end marks, its short names differ, and a reader finds nothing in it, label or not |
| `FatSlots.PatchEntry` | kernel/fat32.c:928-942 | one slot of one cluster changes |
| `FatSlots.SealedHidesNothing` | kernel/fat32.c:1061-1067 | the sealing rule means that no live slot stands behind an end mark |
| `FatSlots.HiddenIsNotSealed` | kernel/fat32.c:1061-1067 | the converse fails |
| `FatDirectory.SealDirectoryCluster` | kernel/fat32.c:1068-1085 | every end mark of the cluster is a deleted entry, every other slot is as it was |
| `FatDirectory.ScanCluster` | kernel/fat32.c:1113-1130 | found exactly when the cluster has so many vacant slots in a row |
| `FatDirectory.FindFreeSlots` | kernel/fat32.c:1090-1161 | room in one cluster with no end mark before it, the rule kept; the directory grows, by one cluster, exactly when no cluster has room; none exactly when too many slots are asked for, or there is no room and no free cluster |
| `FatDirectory.TendedGrown` | kernel/fat32.c:1130-1150 | a directory sealed and then grown obeys the rule |
| `LongName.Checksum` | kernel/fat32.c:419-424 | the fold over the eleven bytes that the writer and every reader compare |
| `LongName.Piece` | kernel/fat32.c:1185-1207 | one slot's number, marks and thirteen characters, with terminator and padding |
| `LongName.GatherLongName` | kernel/fat32.c:429-449 | the buffer after one piece, nothing for a number out of range |
| `LongName.PieceGathers` | kernel/fat32.c:429-449 | a piece puts its characters below those already there; the twentieth changes nothing |
| `LongName.PieceBytes` | kernel/fat32.c:1172-1207 | the thirteen characters stand at bytes 1, 3, 5, 7, 9, 14, 16, 18, 20, 22, 24, 28 and 30, the name's, a zero, then ones; number and mark, attributes and checksum at 0, 11 and 13 |
| `LongName.GatheredPlaces` | kernel/fat32.c:429-449 | of a slot whoever wrote: the characters before a zero or ones go where the number says, one that is no byte as a question mark, a zero after them; nothing else changes |
| `LongName.ChecksumTurns` | kernel/fat32.c:419-424 | without the byte added last, and turned left by one bit, the checksum is what it was before |
| `EntryReader.ReadsBack` | kernel/fat32.c:513-558 | whatever was seen before, a set of slots reads as the name it was written for, up to 247 characters |
| `EntryReader.WholeName` | kernel/fat32.c:436 | which is the whole name if and only if it is no longer |
| `EntryReader.RowMakes` | kernel/fat32.c:513-530 | pieces in a row, the marked one in front, make a name exactly if they carry one checksum, and it is for that one, whatever came before |
| `EntryReader.NameInHand` | kernel/fat32.c:508-535 | a reader has a long name in hand if and only if the slots just passed are such a row: a deleted slot, an entry or a piece for another one loses it |
| `EntryReader.NeverEmpty` | kernel/fat32.c:541-550 | no name read is empty, whatever was put together, unless the short one begins with a space |
| `EntryReader.Kinds` | kernel/fat32.c:508-535 | a slot is an entry exactly if its first byte is neither mark and the label's bit is clear, a piece exactly if the four lowest bits are set |
| `FatReaddir.FormatShortName` | kernel/fat32.c:403-414 | name and extension without their padding, as `ShortEntryRead` spells out |
| `FatReaddir.ShortEntryRead` | kernel/fat32.c:403-414 | an entry without a long name is called by its one to eight characters, and a dot and its extension exactly if there is one |
| `FatReaddir.Readdir` | kernel/fat32.c:471-565 | the first entry at or after the position, with its place and that of its long name's first slot; none exactly when none is left in the whole chain |
| `FatEntries.ShortNameTaken` | kernel/fat32.c:1022-1051 | whether any entry of the directory has the name, although the search stops at an end mark |
| `FatEntries.WriteDirectoryEntries` | kernel/fat32.c:1164-1255 | the set of slots for this name, cluster, size and the five dates and times in place, no other slot changed |
| `FatEntries.PlacedInRoom` | kernel/fat32.c:1185-1253 | a set put where room was found keeps the rule about end marks |
| `FatEntries.EraseEntries` | kernel/fat32.c:1501-1517 | wherever the first slot and the last are: the first byte of every slot between them on the device is marked and no other byte changes; it fails exactly if the last lies before the first |
| `FatEntries.ErasedSet` | kernel/fat32.c:1501-1517 | of a set in one cluster exactly the slots are marked deleted |
| `FatEntries.ErasedAcross` | kernel/fat32.c:1501-1517 | a set laid across two clusters costs every cluster between them on the device the first byte of each slot, and no other cluster anything |
| `FatEntries.AcrossHarmless` | kernel/fat32.c:1501-1517 | nothing between them changes if and only if all those bytes are the mark already |
| `FatEntries.Bystander` | kernel/fat32.c:1501-1517 | a set in clusters 5 and 7 of one sector each costs cluster 6 every 32nd byte |
| `FatEntries.FreedKeepsRule` | kernel/fat32.c:1501-1517 | erasing keeps the rule about end marks |
| `ShortNames.MakeShortName` | kernel/fat32.c:966-1019 | exactly the eleven bytes: up to eight kept characters, the numeric tail where one is due, three of the extension |
| `ShortNames.ShortFacts` | kernel/fat32.c:966-1019 | none of them is zero, and all are ASCII when the name is |
| `ShortNames.ShortBegins` | kernel/fat32.c:983-990 | whatever its number, it begins with the first kept character in upper case, or an underscore |
| `ShortNames.ShortenedIs` | kernel/fat32.c:983-986 | small letters become capitals, the fifteen forbidden characters an underscore, nothing else changes |
| `ShortNames.BasisIs` | kernel/fat32.c:971-990 | the first eight characters before the extension that are neither space nor dot, or an underscore |
| `ShortNames.TailIs` | kernel/fat32.c:1004-1018 | behind a tilde the number in decimal, in place of as few characters as possible |
| `ShortNames.PlainRead` | kernel/fat32.c:966-1019 | a name of up to eight and three characters is its own first short name, and is read back in capitals |
| `FatCreate.AddEntry` | kernel/fat32.c:1310-1339 | added exactly when one of a thousand short names is free, the set fits a cluster and there are clusters enough; in place of vacant slots, every other entry where it was, the rule and distinct short names kept |
| `FatCreate.SlotsEnough` | kernel/fat32.c:1056-1059 | one slot, and one for every thirteen characters begun |
| `FatCreate.AddedShortNames` | kernel/fat32.c:1310-1314 | a set whose short name was free leaves all short names different |
| `FatCreate.Create` | kernel/fat32.c:1292-1371 | refused exactly then; otherwise the file or directory exists, the record handed back says all of it and where its first and last slots are, a new directory has its two dated entries and obeys the rule itself, everything is on the disk, and of the sectors in front of the table only FSInfo has changed; what a refusal can leave behind |
| `FatCreate.FullDirectoryGrows` | kernel/fat32.c:1316-1322 | a full directory takes the last free cluster and the creation fails all the same |
| `FatCreate.SeenUnlessDeleted` | kernel/fat32.c:496-499 | a created entry is visible if and only if its name's first kept character is not the deleted mark; always for ASCII names |
| `FatCreate.UnseenName` | kernel/fat32.c:496-499 | the name that is that byte alone is not |
| `FatCreate.NotMissed` | kernel/fat32.c:471-565 | no reader that starts before a visible entry goes past it |
| `FatCreate.CreatedReadsBack` | kernel/fat32.c:513-558 | the entry read back has the name, cluster, size, attributes and dates it was created with, and the places of the first and last slot that removing it starts from |
| `FatCreate.Remove` | kernel/fat32.c:1535-1552 | the file's clusters are free, its slots deleted, the directory still a chain that obeys the rule, its short names as distinct as before; of the sectors in front of the table only FSInfo has changed |
| `FatCheck.CheckFileChain` | kernel/fat32.c:1723-1759 | ends on every table; marks exactly the clusters counted; with repairs they are afterwards a proper chain |
| `FatCheck.CheckTruncate` | kernel/fat32.c:1762-1778 | keeps the first clusters as a chain and frees only the rest of this one |
| `FatCheck.CutShortIs` | kernel/fat32.c:1762-1778 | what is kept is a chain, what is cut is free, and no other entry has changed |
| `FatCheck.Check.Enqueue` | kernel/fat32.c:1695-1719 | the directory joins the queue unless a longer queue is needed and refused; the check is complete exactly while every longer queue asked for has been granted |
| `FatCheckSlots.CheckLastLive` | kernel/fat32.c:1788-1821 | the last live slot of the first 65536 clusters, or none; ends on looped chains |
| `FatCheckFile.CheckFile` | kernel/fat32.c:2002-2042 | exactly the clusters found, the table afterwards and the new size |
| `FatCheckFile.SoundFileKept` | kernel/fat32.c:2022-2041 | a file in order is left alone by a repair if and only if its size rounded up stays within 32 bits; otherwise it is cut to one cluster |
| `FatCheckFile.LargestFileCut` | kernel/fat32.c:2022-2041 | as happens to a file of 2^32 - 1 bytes |
| `FatCheck.SoundWalk` | kernel/fat32.c:1723-1759 | on a proper chain nobody else has claimed the walk is that chain and changes nothing |
| `FatCheckDirectory.CheckEntry` | kernel/fat32.c:1943-2042 | what becomes of a short entry of each kind, byte for byte (`TreatedSize` and `TreatedDot` read the result); what it leads to is marked and, if a directory, queued; what is done to a file goes on record |
| `FatDeeds.AccountedFile` | kernel/fat32.c:2002-2042 | one more file keeps the record: every file gone over, in order, with exactly what is done to a file, and the table changed by nothing else |
| `FatCheckFile.NeededExact` | kernel/fat32.c:2023 | the clusters needed are right if and only if the rounding stays within 32 bits |
| `FatSurvey.SurveyStep` | kernel/fat32.c:1867-2043 | one more slot: links and entries gone over lead to marked clusters, and nothing is marked or queued without one that leads there |
| `FatSurvey.SurveyOnward` | kernel/fat32.c:1857-1866 | the same for the next cluster of a directory |
| `FatSurvey.SurveyStop` | kernel/fat32.c:2049-2052 | and for the end of one |
| `FatCheckVolume.CheckDirectory` | kernel/fat32.c:1824-2056 | ends on every table; every slot of the clusters walked is exactly what the checker makes of it, no other cluster's data changes, what the entries lead to is marked and queued, every file is on record; each queued directory has used up a fresh mark; without repairs no sector of the device changes |
| `FatRuns.FreedMeans` | kernel/fat32.c:1907-1942 | the pieces of long names deleted are exactly those in hand at a short entry that does not own them |
| `FatRuns.RunFreed` | kernel/fat32.c:1907-1942 | of pieces in a row before a short entry the first twenty are deleted unless all carry this entry's checksum, the others never |
| `FatKept.NameStays` | kernel/fat32.c:1907-1953 | every entry is read under the name it had, although pieces of long names are gone and sizes have changed |
| `FatKept.EntryStays` | kernel/fat32.c:1867-2046 | every entry keeps its attributes and what it leads to, a directory's entry everything; nothing else becomes an entry |
| `FatKept.FileSettled` | kernel/fat32.c:1999-2042 | every file's entry of the directories walked has its place on record, and is afterwards what the record says (read byte by byte in `DeedSize`) |
| `FatResized.DeedSize` | kernel/fat32.c:1999-2042 | in what an entry is settled as, bytes 0 to 27 are as they were; the size read at 28 is 0 for a file without clusters, what the clusters found hold modulo 2^32 if they are fewer than needed, and otherwise the old one |
| `FatResized.TreatedDot` | kernel/fat32.c:1959-1981 | after a repair "." reads the directory's own cluster and ".." the parent's, 0 for the root; right ones are left byte for byte, and of the others no other byte changes |
| `FatResized.DotIsRead` | kernel/fat32.c:1341-1369 | the two entries a new directory is given are read as one dot and two, naming what they were given |
| `FatResized.NewDotsKept` | kernel/fat32.c:1959-1981 | so a check leaves them byte for byte |
| `FatCheckPass.Uncovered` | kernel/fat32.c:1896-1905 | after a repair no end mark stands in front of a live entry of the clusters walked |
| `FatCheckPass.SealedAfterRepair` | kernel/fat32.c:1896-1905 | a repaired directory obeys the rule about end marks if and only if every end mark in a cluster with a successor had a live entry behind it |
| `FatCheckPass.EmptyStaysUnsealed` | kernel/fat32.c:1896-1905 | an empty directory of two clusters keeps its end marks |
| `FatCheckVolume.CheckDirectories` | kernel/fat32.c:2225-2228 | the queue runs dry, having held no more directories than there were clusters to mark; every directory in it has been walked, and every one of their slots is at the end exactly what the checker makes of it |
| `FatReach.SurveyClosed` | kernel/fat32.c:1723-1759 | the marks of a complete check whose directories met no marked cluster are closed under the links and entries there were when it began |
| `FatReach.MarkedIsReachable` | kernel/fat32.c:2114-2124 | whatever is marked could be reached from the root, and in such a check everything that could |
| `FatReach.TidyNotCrossed` | kernel/fat32.c:1861-1864 | no directory meets a marked cluster where no cluster of a directory is claimed twice; files may share clusters with each other |
| `FatReach.Overlooked` | kernel/fat32.c:1861-1864 | where a file begins at the root's second cluster, what the entries there lead to stays unmarked although it is reachable |
| `FatFreed.FilesApart` | kernel/fat32.c:1733-1747 | a cluster belongs to one file at most, the one whose walk marked it |
| `FatFreed.ChangedByFile` | kernel/fat32.c:1723-1778 | every entry of the table that the walks have changed is one of a file's |
| `FatFreed.FileEnds` | kernel/fat32.c:1723-1778 | what its treatment makes of a file's entries of the table is what they are when the whole check is over |
| `FatFreed.FreedExactly` | kernel/fat32.c:1762-1778 | a cluster in use is free after the whole check if and only if, with repairs, a complete check left it unmarked and it is not bad, or it is the surplus of a file |
| `FatFreed.FreedUnreachable` | kernel/fat32.c:2114-2156 | the same with what nothing led to from the root when the check began, if it was complete and no directory met a mark |
| `FatNamed.NamedFreed` | kernel/fat32.c:1762-1778 | an entry is left naming a cluster given back if and only if that is the surplus of a file |
| `FatNamed.NoneNamed` | kernel/fat32.c:1762-1778 | none is where no entry names a cluster behind those another file is entitled to |
| `FatNamed.OwnFileKept` | kernel/fat32.c:2022-2041 | a file in order on a chain nothing else leads to is found to hold exactly that chain, is not resized, and keeps the chain to the end if and only if the rounding stays within 32 bits |
| `FatUndercut.UndercutFreed` | kernel/fat32.c:1762-1778 | a repair gives back the first cluster of a file that begins inside the surplus of one before it |
| `FatUndercut.UndercutTidy` | kernel/fat32.c:1861-1864 | which can be so where directories share nothing and none meets a mark |
| `FatUndercut.TwoFiles` | kernel/fat32.c:1762-1778 | the input: clusters of one sector, a file of one byte on two clusters, and a file of ten bytes that begins at the second |
| `FatRepaired.UndercutLeft` | kernel/fat32.c:1735-1745 | the later file's entry is still there and names the free cluster |
| `FatRepaired.FileSurvives` | kernel/fat32.c:2185-2237 | a file in order on a chain nothing else leads to comes through the whole repair with its entry and its data, and with its chain if and only if the rounding stays within 32 bits |
| `FatRepaired.ContentsKept` | kernel/fat32.c:2185-2237 | so its contents are the same bytes |
| `FatRepaired.FileChained` | kernel/fat32.c:1723-1778 | after the whole repair every file that holds anything has a proper chain of exactly the clusters it keeps |
| `FatRepaired.OverlookedFreed` | kernel/fat32.c:2120-2124 | the check counts as complete, and a repair frees it |
| `FatLost.CheckFatCopies` | kernel/fat32.c:2059-2110 | with repairs every copy is the same as the first; without, nothing changes, and silence means that they agree |
| `FatLost.CheckLost` | kernel/fat32.c:2114-2183 | frees unmarked entries only and only after a complete walk; used + free + bad is the cluster count; the free figure is exact |
| `FatLost.SweptClean` | kernel/fat32.c:2152-2156 | afterwards nothing is lost, and no marked entry has changed |
| `FatCheckVolume.CheckVolume` | kernel/fat32.c:2185-2237 | the whole check: it ends, balances its counts, and changes table and data only with repairs; every slot of the directories walked and every file's chain is then exactly what the checker makes of it, every entry is still there under its name and leads where it led, the size and first cluster read in every file's entry and in every dot's are right, and no other cluster's data has changed; of the sectors in front of the table only FSInfo ever changes, and it then has the free count; without repairs that is all that changes on the device, if nothing was waiting in the cache; exactly the unmarked clusters of a complete check and the files' surplus are given back; nothing is hidden in any directory walked, and no copy of the table left apart; the check is complete exactly when memory for the queue was granted every time |

## Left out

- Device and allocator failures: block reads and writes and page allocations succeed. The one exception is the memory for a
  longer queue of directories: a schedule says of each time it is asked for whether it is granted.
- Hostile boot sectors: a mounted volume is taken to have a table entry for every cluster, at least two reserved sectors and room on the
  device for its clusters (`Sound`), and the root cluster is on the volume. The mount does not check these; the formatter
  ensures them (`FormattedSound`).
- Paths: splitting, `fat32_stat`, `fat32_opendir`, name comparison and the emptiness check before a directory is removed. `Create` starts
  once the name is known to be new, `Remove` once the entry has been found.
- `fat32_rename` and `fat32_set_attributes`, which are compositions of what is modelled; ".." after a directory has been moved.
- The label a mount record keeps, and volume serial numbers after formatting.
- The wording and paths of the checker's reports; its fault counters are kept but nothing is proved of them beyond
  `CheckFatCopies`.
- FatCreate.Remove: requires a set that lies in one cluster, as every set written here does; what is erased of any other set is
  `FatEntries.EraseEntries`.
- FatFile.Write: the file's directory entry must lie in a cluster that is in use and is not the file's own.
- FatGeometry.LayoutFits: stated below 2^32 sectors, the range the boot sector can record.
- FatCheckPass.Uncovered: needs a directory of at most 65536 clusters, where the search for its last entry stops; the
  slots of longer ones are gone over all the same, numbered modulo 2^32 as the code does.
- FatCheckVolume.CheckVolume: what a check without repairs writes is stated for a cache with nothing waiting; after an operation that
  claimed clusters in vain the waiting sector of the table goes out as well.
- FatCheckVolume.CheckDirectory: the set of faults reported is not characterised.
- FatReach.TidyNotCrossed: one direction; whether a directory's cluster that is claimed twice makes a directory meet a mark depends on
  the order of the walk.
- FatNamed.NoneNamed: one direction; whether a file that begins in another's surplus loses it depends on which of the two is gone over
  first. `NamedFreed` is exact, in terms of what each file was found to hold.
- AudioStream.Voice.Offer: above 48 kHz, requires the chunk's end and one step more to stay within 64 bits (2^32 - 4 frames are short
  enough at every rate). The song it speaks of is made of the frames as they are read; `ConvertExact` says when those are the chunk's.
- FatFormat.Mount: requires a boot sector whose layout is `Sound`, see above.
- FatVolume.Volume.constructor: requires a layout that is `Sound`, see above.
- ModularArithmetic.SubMod: requires the right operand to be at most one modulus above the left, as the code's single addition does.
- `bignum_from_bytes`, `bignum_to_bytes` and the elliptic curves above them are not part of this model.
- Constant time and cryptographic strength.
- The tone and sample voices, panning, volume, the service loop's counters, and voice ownership. The stream's 64-bit counters are taken
  not to wrap.
- Alignment of buffers is a number that decides between two paths proved to have the same effect.
- Marks of the checker are one boolean a cluster, not one bit of a byte.
