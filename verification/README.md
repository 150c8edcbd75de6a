# Isabel: verified models of the DES library and of the MCU's tables

These Dafny modules model two parts of Isabel and prove what they are for.

**The DES library (`lib/crypto`).** The cipher, its key schedule, the chaining
modes, the checksum, the file encryptor, the encrypted stream, `crypt` and the
password-to-key function, on 32-bit words and bytes as bit vectors. The cipher
is modelled for an arbitrary round function and schedule (`Feistel`), then
instantiated with the tables (`SpTables`, `SkTables`, `DEncrypt`, `SetKey`).
The checks that `des_set_key` can make, and the keys they are about, are in
`KeyCheck`, `OppositeKeys` and `WeakKeyTable`. `Fips46` is the algorithm of FIPS PUB 46-3 written independently from the
standard's own tables, on strings of bits; `FipsAgreement` proves that
`des_set_key` and `des_encrypt` compute it for every key and block. The modes
are proved for any block function with a left inverse (`CbcEncrypt`, section
6.2 of NIST SP 800-38A; `PcbcEncrypt`), and then used with DES;
`StandardModes` says what they write bit by bit in terms of the standard, and
`SaltedDes` does so for `crypt`. The stream is
a connection with short reads and writes (`Connections`), the frames on it
(`Frames`), the writer and the reader with its left-over buffer (`EncWrite`,
`EncRead`), and runs of both (`EncStream`). The fold of a password
(`PasswordFold`, `StringToKey`) is compared with section 6.2 of RFC 3961
(`SevenBitFold`).

**Stateful parts of the MCU (`components/MCU/app`).** The address tables of
the statistics and of the RTCP receivers are linear-probing tables
(`LinearProbing`, `BackShift`, `RtcpRecv`, `StatGatherer`) that agree with
maps; what a record counts is in `RxCounters`. The mixing ring (`MixTape`, `MixProcessor`) is a window on an unbounded
tape on which the packets of each source come to lie (`MixSources`). The
switcher and the mixer (`FlowProcessor`, `Switcher`, `Mixer`) share
reference-counted processors between flow lists.

Code that updates variables, buffers or objects is a method or a class with
the same loops and fields, proved against functions on values; the laws are
lemmas about those functions. Invariants of the classes are their `Valid()`
predicates, which every constructor establishes and every method keeps, so
they hold over every run: for the flow lists, `Valid()` says that each
`referenceCount` is the number of entries that point at the processor and at
least one, that no list holds a processor twice, that the running tasks are
the processors with entries, and for the switcher that there is at most one
processor for each payload type; for the ring, that it shows the tape and that
all that was sent is the tape up to the reader.

Where the code does not do what its design suggests, the model follows the
code, and the exact condition is proved:

- `deleteReceiver` stops pulling entries back at the first one that sits in
  its own home slot. Other addresses stay reachable if and only if none of
  them was displaced past that slot (`BackShift.PullIsRightIff`); three
  concrete addresses show that they need not
  (`RtcpRecv.UnsafeRemovalLosesAnAddress`).
- The comment on `des_set_key` promises -2 for an illegal weak key. The test
  asks for one difference instead of one match, so with checking on every key
  of odd parity is refused: a key is accepted if and only if checking is off
  (`KeyCheck.AcceptedIffUnchecked`).
- Two of the four keys listed as weak, 1F1F1F1F1F1F1F1F and E0E0E0E0E0E0E0E0,
  are not. A schedule reads the same in both directions exactly when the halves
  that PC1 makes of the key are all zeros or all ones, and two schedules are
  opposite exactly when the halves alternate and are one rotation apart
  (`OppositeKeys.BackwardSelfIff`, `OppositeKeys.BackwardIff`); these two keys
  fail that, the other fourteen do not
  (`WeakKeyTable.TableIsRightIff`). With 1F1F1F1F0E0E0E0E and E0E0E0E0F1F1F1F1
  in their place the table would be complete
  (`WeakKeyTable.TablePutRightIsComplete`).
- `setRXData` adds one more than the distance of the sequence numbers to the
  lost packets of the interval, and then the whole interval's to all lost ones,
  so g missing packets are counted as g exactly when the interval stood at
  65534 (`RxCounters.LostIsRightIff`, `RxCounters.TwoLostAreFour`). A packet
  that is 0x8001 numbers ahead around the 16 bits and smaller than the last one
  is not counted at all (`RxCounters.UnorderedIff`).
- References count entries, and an entry stands for all targets of a flow, so
  `switcher_t::unsetFlow` ends a processor exactly when `referenceCount` is 1
  and the target was there (`Switcher.Switcher.UnsetFlow`), whatever targets
  are left: one flow set for two receivers and unset for the first cuts off the
  second (`Switcher.Switcher.OtherTargetIsCutOff`). It also takes the target
  from the shared processor before it looks at the entry, so unsetting a second
  flow with the same target leaves that flow's entry in place
  (`Switcher.Switcher.SharedTargetLeavesEntry`).
- `mixer_t::setFlow` looks up by the target's payload type but creates for the
  one it is given. `Mixer.Mixer.SetFlowOnce` says exactly when one processor
  for each destination survives that, `Mixer.Mixer.SecondProcessor` is a run
  in which it does not. The only caller passes the target's own payload type
  (`components/MCU/app/sessionManager.cc:1963`), and then it always survives.
- In `deliver`, a packet that does not fit ahead of the reader wraps into the
  window about to be sent. `MixTape.ContributionIsContiguousIff` and, for the
  whole stream of a source, `MixSources.StreamIsGaplessIff` say exactly when
  this does not happen; `MixTape.PacketInTwoPieces` is a packet to which it does.
- The test for an empty window asks whether all its cells read -1, which is
  also what silence mixed into cleared cells leaves. `heartBeat` drops a window
  exactly when they do (`MixProcessor.MixProcessor.HeartBeat`), and
  `MixProcessor.MixProcessor.SilenceIsDropped` is a run that loses two packets
  to it.

`dafny verify dfyconfig.toml` checks all modules.

## Model

| member | source | states |
|---|---|---|
| FipsAgreement.DesIsFips46 | lib/crypto/ecb_encrypt.c:104-182 | for every 64-bit key and block, des_set_key followed by des_encrypt yields the same 64 bits as the algorithm of FIPS PUB 46-3 written out from its tables, enciphering and deciphering |
| FipsAgreement.RoundsAreIterations | lib/crypto/ecb_encrypt.c:120-161 | after any number of rounds, in either direction, the two words are Ln and Rn of the standard, bit n of a half being bit n modulo 32 of its word |
| FipsAgreement.KeysAre | lib/crypto/set_key.c:134-170 | the two schedule words of each round hold exactly the 48 bits of Kn |
| FipsPermutations.IpIsInitialPermutation | lib/crypto/ecb_encrypt.c:120-137 | the five PERM_OP steps and the rotation after them are the table IP |
| FipsPermutations.Pc1IsChoice1 | lib/crypto/set_key.c:134-142 | the PERM_OP and HPERM_OP steps and the byte shuffle are permuted choice 1 |
| FipsPermutations.SubKeyIsChoice2 | lib/crypto/set_key.c:154-169 | the eight skb lookups and the shuffling of s and t are permuted choice 2 |
| FipsPermutations.TurnIsLeftShift | lib/crypto/set_key.c:146-151 | rotating a register right by one or two places is one or two left shifts of the bits of C and D |
| FipsRounds.JoinedIsSelected | lib/crypto/ecb_encrypt.c:49-60 | what the eight tables make of any two words is P of the selections from the 48 bits those words hold |
| FipsRounds.RoundIsF | lib/crypto/ecb_encrypt.c:49-60 | the eight SPtrans lookups are f(R, K) of the standard: E, the S-boxes and P, for every half and every pair of schedule words |
| FipsRounds.Sp0IsS1 | lib/crypto/spr.h:4-21 | each of the 64 entries of table 0 is the output of S1 on its index, read as a block of six bits, moved to where P puts it |
| FipsRounds.Sp1IsS2 | lib/crypto/spr.h:22-39 | each of the 64 entries of table 1 is the output of S2 on its index, read as a block of six bits, moved to where P puts it |
| FipsRounds.Sp2IsS3 | lib/crypto/spr.h:40-57 | each of the 64 entries of table 2 is the output of S3 on its index, read as a block of six bits, moved to where P puts it |
| FipsRounds.Sp3IsS4 | lib/crypto/spr.h:58-75 | each of the 64 entries of table 3 is the output of S4 on its index, read as a block of six bits, moved to where P puts it |
| FipsRounds.Sp4IsS5 | lib/crypto/spr.h:76-93 | each of the 64 entries of table 4 is the output of S5 on its index, read as a block of six bits, moved to where P puts it |
| FipsRounds.Sp5IsS6 | lib/crypto/spr.h:94-111 | each of the 64 entries of table 5 is the output of S6 on its index, read as a block of six bits, moved to where P puts it |
| FipsRounds.Sp6IsS7 | lib/crypto/spr.h:112-129 | each of the 64 entries of table 6 is the output of S7 on its index, read as a block of six bits, moved to where P puts it |
| FipsRounds.Sp7IsS8 | lib/crypto/spr.h:130-146 | each of the 64 entries of table 7 is the output of S8 on its index, read as a block of six bits, moved to where P puts it |
| WordBits.BlockBitsAreByteBits | lib/crypto/des_local.h:32-35 | the bit numbering used for blocks is that of the bytes, most significant bit of the first byte first |
| Feistel.FpUndoesIp | lib/crypto/ecb_encrypt.c:173-177 | the last five PERM_OP steps undo the first five |
| Feistel.IpUndoesFp | lib/crypto/ecb_encrypt.c:120-125 | and the other way round |
| Feistel.RoundsUndone | lib/crypto/ecb_encrypt.c:146-161 | the rounds taken 30 to 0 undo the rounds taken 0 to 30, from either end |
| Feistel.CipherInverse | lib/crypto/ecb_encrypt.c:104-182 | for every round function, schedule and block, each direction of des_encrypt undoes the other |
| Feistel.DesInverse | lib/crypto/ecb_encrypt.c:104-182 | the same for the block functions that the modes use |
| Feistel.RunRounds | lib/crypto/ecb_encrypt.c:146-161 | the stepped loops, two rounds at a time on l and r in place, compute the sixteen textbook rounds |
| Feistel.DesEncrypt | lib/crypto/ecb_encrypt.c:104-182 | des_encrypt writes the cipher of its two input words and changes nothing else; input and output may be one array |
| EcbEncrypt.DesEcbEncrypt | lib/crypto/ecb_encrypt.c:6-28 | des_ecb_encrypt replaces exactly eight output bytes by the cipher of the eight input bytes |
| DEncrypt.OffsetsSelectSameEntries | lib/crypto/ecb_encrypt.c:35-47 | the masked byte offsets of the ALT_ECB form select the same table entries |
| DEncrypt.NibblesDoNotCarry | lib/crypto/spr.h:3-146 | the eight tables have pairwise disjoint output bits, so + and | of their entries agree |
| DEncrypt.AltRoundIsRound | lib/crypto/ecb_encrypt.c:34-61 | both forms of D_ENCRYPT compute the same round for every half and every schedule words |
| DEncrypt.AltCipherIsCipher | lib/crypto/ecb_encrypt.c:34-61 | so the whole cipher is the same function in both builds |
| DesLocal.C2lnPads | lib/crypto/des_local.h:38-50 | the fall-through switch of c2ln loads a short block as if zeros followed it |
| DesLocal.StoreLoad | lib/crypto/des_local.h:32-55 | l2c undoes c2l on eight bytes |
| DesLocal.LoadStore | lib/crypto/des_local.h:32-55 | c2l undoes l2c on two words |
| StandardModes.XorBlockBits | lib/crypto/cbc_encrypt.c:37-38 | the exclusive or of two blocks is that of their 64 bits, bit by bit |
| StandardModes.EcbIsStandard | lib/crypto/ecb_encrypt.c:6-28 | in the code book, the bits of each block are the output of the algorithm of FIPS PUB 46-3 on those of its input, zeros after a short end |
| StandardModes.CbcIsStandard | lib/crypto/cbc_encrypt.c:24-48 | the bits of ciphertext block i are that output on those of plaintext block i, exclusive or those of ciphertext block i-1 or of the iv |
| StandardModes.CbcInverseIsStandard | lib/crypto/cbc_encrypt.c:49-73 | and each bit of the deciphered text is that of the deciphered block, exclusive or the same one |
| StandardModes.PcbcIsStandard | lib/crypto/pcbc_encrypt.c:21-45 | for PCBC the blocks before are both the plaintext and the ciphertext one |
| StandardModes.PcbcInverseIsStandard | lib/crypto/pcbc_encrypt.c:46-69 | and when deciphering the plaintext one as it was deciphered |
| StandardModes.FileIsStandard | lib/crypto/des.c:218-265 | the bits of each block of an encrypted file, from a zero iv, on the data, the filler and the count of data bytes in the last block |
| SetKey.DesSetKey | lib/crypto/set_key.c:94-172 | with checking off or passed, writes exactly the schedule of the key in sixteen steps and returns 0; a wrong parity gives -1, a key called weak -2, and both leave the schedule as it was |
| KeyCheck.CheckParity | lib/crypto/set_key.c:27-38 | answers yes exactly for keys whose bytes all have odd parity |
| KeyCheck.DesIsWeakKey | lib/crypto/set_key.c:70-78 | answers yes exactly when some key of the table differs from this one in the bytes compared |
| KeyCheck.EveryKeyIsCalledWeak | lib/crypto/set_key.c:70-78 | which is so for every key, as long as at least one byte is compared |
| KeyCheck.AcceptedIffUnchecked | lib/crypto/set_key.c:90-110 | so a key is accepted if and only if checking is off, and otherwise refused with -1 exactly when some byte has even parity and with -2 exactly when none has |
| OppositeKeys.BackwardIff | lib/crypto/set_key.c:134-170 | for every two keys, the schedule of one is the other's read backwards if and only if the halves PC1 makes alternate (all zeros, all ones, or every other bit) and are one rotation apart |
| OppositeKeys.BackwardSelfIff | lib/crypto/set_key.c:134-170 | a schedule reads the same in both directions if and only if both halves are all zeros or all ones |
| OppositeKeys.OneSubKeyIff | lib/crypto/set_key.c:134-170 | and exactly then all sixteen pairs of schedule words are equal |
| OppositeKeys.Pc1Decides | lib/crypto/set_key.c:134-142 | PC1 drops the parity bits and nothing else |
| OppositeKeys.SameScheduleIff | lib/crypto/set_key.c:94-172 | two keys have one schedule if and only if they differ in the low bits of their bytes at most |
| OppositeKeys.BackwardUndoes | lib/crypto/ecb_encrypt.c:104-182 | enciphering under two keys with opposite schedules, one after the other, gives back every block |
| WeakKeyTable.TableIsRightIff | lib/crypto/set_key.c:50-68 | that condition evaluated on the table: each weak key has its own schedule as the opposite one, and the semi-weak keys have each other's in pairs, except for the third and the fourth key |
| WeakKeyTable.TablePutRightIsComplete | lib/crypto/set_key.c:50-68 | with those two put right, the table lists, but for parity bits, exactly the pairs of keys whose schedules are opposite, out of all keys |
| SetKey.TurnsStayBelow28 | lib/crypto/set_key.c:144-151 | c and d stay below 2^28 at every step |
| KeyLaws.TurnsComeBack | lib/crypto/set_key.c:144-151 | the sixteen rotations total 28 places: c and d end where PC1 put them |
| KeyLaws.ScheduleIgnoresParity | lib/crypto/set_key.c:94-172 | keys that differ only in the low bit of their bytes have the same schedule |
| KeyLaws.SubKeyNot | lib/crypto/set_key.c:154-169 | complementing c and d complements exactly the schedule bits that a round looks at |
| KeyLaws.ComplementLaw | lib/crypto/ecb_encrypt.c:104-182 | for every key and block, the complemented block under the schedule of the complemented key gives the complemented result, in either direction |
| KeyLaws.UniformHalvesInvolution | lib/crypto/set_key.c:134-170 | when the halves that PC1 makes are each all zeros or all ones, all sixteen pairs of schedule words are equal and encrypting twice is the identity |
| OddParity.odd_parity | lib/crypto/podd.h:3-19 | every entry has odd parity and differs from its index in the low bit at most |
| OddParity.OddStays | lib/crypto/podd.h:3-19 | the entries equal to their index are exactly those of odd parity |
| StringToKey.DesSetOddParity | lib/crypto/set_key.c:18-25 | each byte is replaced by its table entry, so every byte has odd parity |
| StringToKey.OddParityKeepsSchedule | lib/crypto/set_key.c:18-25 | with key checking off, fixing the parity of a key does not change its schedule |
| SkTables.Skb0 | lib/crypto/sk.h:4-20 | every entry is the or of the single-bit entries of its index; the other seven tables carry the same contract |
| PasswordFold.ReverseStepsReverse | lib/crypto/string2key.c:31-33 | the three mask steps move bit k of a byte to place 7-k, and doing so twice changes nothing |
| PasswordFold.FoldCharIsFanFold | lib/crypto/string2key.c:22-36 | one round of the loop keeps the key equal to the xor of even chunks shifted left and odd chunks reversed as whole blocks, short last chunks included |
| StringToKey.FoldPassword | lib/crypto/string2key.c:15-36 | so does the loop over any string |
| SevenBitFold.FoldedKeyIsStandard | lib/crypto/string2key.c:15-37 | the folded key is the one key that section 6.2 of RFC 3961 makes of the string before key correction: the seven low bits of each character, every other block of 56 bits backwards, exclusive or, odd parity |
| SevenBitFold.TopBitsDoNotMatter | lib/crypto/string2key.c:15-37 | so the top bits of the characters make no difference to it |
| SevenBitFold.StringKeyIsStandard | lib/crypto/string2key.c:7-46 | the key is the one whose bits are those of the last block of the CBC encryption of the string, padded with zeros, under the folded key as key and iv, with odd parity: section 6.2 of RFC 3961 without key correction; of an empty string it is the folded key |
| StringToKey.DesStringToKey | lib/crypto/string2key.c:7-46 | the key is the checksum of the string under the folded and parity-fixed key, used as key and iv at once, and every byte of it has odd parity |
| CbcEncrypt.CbcRoundTrip | lib/crypto/cbc_encrypt.c:24-73 | for any block function with a left inverse, decryption undoes encryption |
| CbcEncrypt.CbcBytesRoundTrip | lib/crypto/cbc_encrypt.c:24-73 | decrypting the ceil(n/8) blocks made from n bytes with length n returns the n bytes, for every n |
| CbcEncrypt.CbcBytesConcat | lib/crypto/cbc_encrypt.c:24-48 | encrypting a concatenation is two calls, the second started from the last block of the first |
| CbcEncrypt.CbcInverseBytesConcat | lib/crypto/cbc_encrypt.c:49-73 | the same for decryption, chained by the last ciphertext block |
| CbcEncrypt.CbcInverseLocal | lib/crypto/cbc_encrypt.c:49-73 | ciphertexts that agree in a block and the one before it give the same plaintext block |
| CbcEncrypt.CbcInverseBytesLocal | lib/crypto/cbc_encrypt.c:49-73 | the same for each byte of the plaintext, for every length |
| CbcEncrypt.CbcDamageStaysNear | lib/crypto/cbc_encrypt.c:49-73 | changing one ciphertext block changes the plaintext in that block and the next at most |
| CbcEncrypt.DesCbcEncrypt | lib/crypto/cbc_encrypt.c:5-77 | both directions, any length, in place or not: the output array afterwards is the CBC result and then what was there before |
| CbcCksum.CksumIsLastBlock | lib/crypto/cbc_cksum.c:21-46 | the checksum is the last block of the CBC encryption of the same input, the iv when that is empty |
| CbcCksum.CksumConcat | lib/crypto/cbc_cksum.c:21-46 | the checksum of a concatenation is a second checksum started from the first |
| CbcCksum.DesCbcCksum | lib/crypto/cbc_cksum.c:5-47 | writes the checksum to eight bytes of the output, which may be the iv itself, and returns its second word |
| PcbcEncrypt.PcbcRoundTrip | lib/crypto/pcbc_encrypt.c:21-69 | for any block function with a left inverse, decryption undoes encryption |
| PcbcEncrypt.PcbcBytesRoundTrip | lib/crypto/pcbc_encrypt.c:21-69 | the same on bytes, for every length |
| PcbcEncrypt.PcbcChainsAgree | lib/crypto/pcbc_encrypt.c:21-69 | encryptor and decryptor hold the same chaining value at every block boundary |
| PcbcEncrypt.DecryptorChainIsFold | lib/crypto/pcbc_encrypt.c:46-69 | on any ciphertext the value the decryptor holds is the iv xor D(c) xor c of all blocks so far |
| PcbcEncrypt.DesPcbcEncrypt | lib/crypto/pcbc_encrypt.c:5-72 | both directions, any length, in place or not: the output array afterwards is the PCBC result and then what was there before |
| Blocks.StoreTail | lib/crypto/des_local.h:72-83 | l2cn writes the first n bytes of the two words and nothing else |
| FileCipher.EncBytesConcat | lib/crypto/des.c:245-251 | chunks chained by the last ciphertext block are one call, wherever the boundaries between whole blocks fall |
| FileCipher.Padding | lib/crypto/des.c:229-237 | the padded length is a multiple of eight and one to eight bytes more than the data |
| FileCipher.StripPadding | lib/crypto/des.c:297-307 | dropping to l-8+last undoes the padding whatever the filler |
| FileCipher.DecryptedAsTheLastByteSays | lib/crypto/des.c:290-322 | the last byte of the deciphered file says how many bytes of the last block to keep, and above 7 the result is the message and all chunks of 8192 bytes before the last |
| FileKey.MakeKey | lib/crypto/des.c:194-207 | each character gets its top bit cleared or set after its ones are counted bit by bit |
| FileKey.KeyByteIs | lib/crypto/des.c:194-207 | which keeps the low seven bits and gives a seven-bit character odd parity |
| FileKey.PasswordsDecideSchedules | lib/crypto/des.c:194-210 | two seven-bit passwords have one key schedule if and only if their first eight characters are the same |
| FileCipher.FileRoundTrip | lib/crypto/des.c:218-322 | decrypting an encrypted file gives it back, for every byte string, filler, key, and mode |
| DoEncryption.EncryptLoop | lib/crypto/des.c:218-265 | the loop over chunks of BUFSIZE bytes writes one encryption of the padded file |
| DoEncryption.DecryptLoop | lib/crypto/des.c:267-322 | the loop that holds a chunk back until the next read writes the decrypted file without its padding, or all chunks but the last when the last byte is above 7 |
| LengthHeader.N2lL2n | lib/crypto/des_local.h:61-69 | n2l undoes l2n for every 32-bit length |
| Frames.FrameOpens | lib/crypto/enc_read.c:57-82 | the header, the rounded-up body and a decryption with the header length give back the data of a frame, whatever its filler |
| EncWrite.FramesCarryData | lib/crypto/enc_write.c:28-61 | however a call is split, and however short a piece is, its frames carry exactly its data |
| EncWrite.PiecesAre | lib/crypto/enc_write.c:28-42 | frame i of a call carries bytes 16384i to 16384(i+1) of its data, the last one the rest; an empty call has one frame |
| EncWrite.WireFrameIs | lib/crypto/enc_write.c:43-76 | a frame is the length in four bytes, most significant first, and the data with its filler enciphered in the mode of the session from its iv |
| EncWrite.DesEncWrite | lib/crypto/enc_write.c:6-87 | appends exactly the frames of its data to the connection through any sequence of short writes, and returns the length |
| EncRead.ReadStepConserves | lib/crypto/enc_read.c:30-137 | a call returns at most what was asked for, and what it returns and leaves is what was there, in order |
| EncRead.ReadStepTakes | lib/crypto/enc_read.c:30-137 | a call returns all that was asked for of the left-over plaintext, or of the next frame, if there is as much, and takes a frame exactly when nothing was left over |
| EncRead.RawStepIsReadStep | lib/crypto/enc_read.c:57-137 | on the bytes of whole frames and any cut of one more, what a call does to the bytes is that step on the frames, and nothing is delivered of the frame that was cut |
| EncRead.BodyFitsIff | lib/crypto/enc_read.c:71-80 | the body a header announces fits the buffer of BSIZE bytes exactly when the header is at most MAXWRITE |
| EncRead.EncReader.TakeFrame | lib/crypto/enc_read.c:57-82 | on any bytes of which no more than its buffer holds arrives for the next frame, reads exactly the header and the body it announces through any sequence of short reads, and gives up exactly when the connection ends before them |
| EncRead.EncReader.DesEncRead | lib/crypto/enc_read.c:10-138 | on the same bytes, from any writer, returns what one read of the left-over plaintext and those bytes gives and keeps the rest of both; the rest of the buffer stays |
| EncStream.RunConserves | lib/crypto/enc_read.c:30-137 | in every interleaving of writes and reads, written = delivered + left over + in unread frames |
| EncStream.RunDeliversPrefix | lib/crypto/enc_read.c:30-137 | so what has been read is always a prefix of what has been written |
| EncStream.EmptyReadMeansAllRead | lib/crypto/enc_read.c:30-137 | after any run without empty writes, a read that asks for something returns nothing exactly when everything written has been read |
| EncStream.RunCalls | lib/crypto/enc_read.c:10-138 | any sequence of calls of des_enc_write and des_enc_read on one connection returns what the run of the steps delivers, a prefix of what was written |
| EncStream.OneReadDeliversAWrite | lib/crypto/enc_read.c:55-137 | when everything has been read, one read that asks for enough returns all of a write of 1 to 16384 bytes |
| EncStream.InTurn | lib/crypto/enc_read.c:10-138 | messages of such lengths, written and read in turn by real calls, arrive one by one as they were sent |
| EncStream.ReadsDrain | lib/crypto/enc_read.c:30-137 | and reads that each ask for something deliver everything in the end |
| Fcrypt.StirSwaps | lib/crypto/fcrypt.c:415-420 | the u^(u<<16) step exchanges bits j and j+16 for each bit j of the salt mask and leaves all others |
| Fcrypt.BodyIsIterated | lib/crypto/fcrypt.c:540-572 | FP followed by IP cancels: the fused loop is that many successive ciphers of the zero block, for every salt |
| Fcrypt.UnsaltedIterated | lib/crypto/fcrypt.c:540-572 | with both masks zero the cipher repeated is the ordinary one |
| Fcrypt.Body | lib/crypto/fcrypt.c:527-573 | body returns the 25-fold salted cipher of the zero block, and the 25-fold ordinary one when both masks are zero |
| Crypt.SaltReadsText | lib/crypto/fcrypt.c:432-460 | con_salt undoes cov_2char on all 64 characters |
| Crypt.SaltsSwap | lib/crypto/fcrypt.c:486-489 | the two masks that two salt characters give lie in bits 0 to 5 and 4 to 9, where stirring is a conditional swap |
| Crypt.KeyIgnores | lib/crypto/fcrypt.c:491-498 | characters past the eighth and the top bit of each make no difference to the key |
| Crypt.TakeSix | lib/crypto/fcrypt.c:511-522 | the inner loop takes the next six bits, most significant first, across byte boundaries |
| Crypt.Encode | lib/crypto/fcrypt.c:503-523 | the outer loop writes the eleven characters of the 64 bits and two zeros |
| Crypt.TextIsInjective | lib/crypto/fcrypt.c:503-523 | different results of body have different texts |
| Crypt.Crypt | lib/crypto/fcrypt.c:462-525 | crypt returns the two salt characters and the text of the salted 25-fold cipher under the key of the password, and writes A over a missing salt character |
| SaltedDes.SaltedRoundIsF | lib/crypto/fcrypt.c:413-430 | the salted D_ENCRYPT is f(R, K) of the standard with output bits i and i+24 of E exchanged, for i from 1 to 6 by the bits of the first salt character and for i from 7 to 12 by those of the second |
| SaltedDes.IteratedIsRepeated | lib/crypto/fcrypt.c:540-572 | so its repetition from the zero block is that of the standard algorithm with this f |
| SaltedDes.KeyIsPasswordBits | lib/crypto/fcrypt.c:491-498 | bit j of key byte i is bit j+1 of character i, for eight characters or up to the terminator, and all others are zero |
| SaltedDes.CharacterIs | lib/crypto/fcrypt.c:452-460 | the 64 characters are a point, a slash, the digits, the capital and the small letters in this order |
| SaltedDes.TextIs | lib/crypto/fcrypt.c:503-523 | character m of the text stands for bits 6m to 6m+5 of the block and two zeros, most significant first |
| SaltedDes.HashIsStandard | lib/crypto/fcrypt.c:462-525 | crypt is the two salt characters and the text of 25 such encipherings of 64 zeros under those bits of the password |
| AddressHash.GetIndex | components/MCU/app/general.h:163-209 | the home slot of every address of either family is below 2^15, inside the table |
| AddressHash.HomeIs | components/MCU/app/general.h:163-209 | the low byte of the home is the exclusive or of the address bytes, byte k turned left by k places, and the high byte that of the bits that came round |
| AddressHash.OneByteMoves | components/MCU/app/general.h:163-209 | addresses of one family that differ in exactly one byte have different homes |
| LinearProbing.ProbeDecides | components/MCU/app/RTCPRecv.cc:226-242 | in a well placed table no key is stored twice and a probe finds exactly the keys that are stored |
| LinearProbing.ProbeEnds | components/MCU/app/RTCPRecv.cc:226-242 | in any table, a probe that meets a place to stop ends at the first one from the home on |
| LinearProbing.InsertAgrees | components/MCU/app/RTCPRecv.cc:246-257 | filling the slot where a probe ended keeps every entry findable and the table equal to a map |
| LinearProbing.RoomToStop | components/MCU/app/RTCPRecv.cc:226-242 | with fewer keys than slots a probe for any key ends |
| BackShift.ScanIsPull | components/MCU/app/RTCPRecv.cc:266-284 | in a well placed table, the scan over all slots with a lookup in the half-moved table at each step is pulling entries back up to the first slot that is free or holds an entry in its home |
| BackShift.DeletedIsPulled | components/MCU/app/RTCPRecv.cc:260-286 | so is the whole deletion, when there is such a slot |
| BackShift.PullIsRightIff | components/MCU/app/RTCPRecv.cc:260-286 | pulling back leaves every entry findable if and only if no other entry was displaced past the slot where it stops |
| BackShift.PullKeepsOthers | components/MCU/app/RTCPRecv.cc:260-286 | whatever the table, exactly the deleted entry is gone and all others are still stored, unchanged |
| BackShift.FreeStopIsRight | components/MCU/app/RTCPRecv.cc:266-284 | when the scan stops at a free slot nothing can have passed it |
| BackShift.InOrderDeletes | components/MCU/app/RTCPRecv.cc:260-286 | when homes do not decrease along a run the deletion is right, and the order remains |
| RtcpRecv.DeletedIsRemoved | components/MCU/app/RTCPRecv.cc:260-286 | in a well placed table with a free slot, deleteReceiver pulls back behind a known address and changes nothing for an unknown one |
| RtcpRecv.RemoveAgrees | components/MCU/app/RTCPRecv.cc:260-286 | after deleteReceiver the table stores exactly the map without the address; every address is still reachable if and only if the deletion was safe |
| RtcpRecv.InOrderRemoval | components/MCU/app/RTCPRecv.cc:260-286 | with homes in order every deletion is safe |
| RtcpRecv.RunAgrees | components/MCU/app/RTCPRecv.cc:226-286 | after any run of additions and safe deletions every stored address is reachable and the table is the map |
| RtcpRecv.UnsafeRemovalLosesAnAddress | components/MCU/app/RTCPRecv.cc:267-284 | adding 0.0.0.0, 1.0.0.0 and 2.1.0.0 and deleting the first leaves the third stored where no lookup finds it |
| RtcpRecv.RTCPRecv.GetPosition | components/MCU/app/RTCPRecv.cc:226-242 | the loop ends, at the first slot from the home on that is free or holds the address |
| RtcpRecv.RTCPRecv.AddReceiver | components/MCU/app/RTCPRecv.cc:246-257 | adds an empty report for an unknown address, changes nothing for a known one, keeps every address reachable |
| RtcpRecv.RTCPRecv.DeleteReceiver | components/MCU/app/RTCPRecv.cc:260-286 | on any table, broken ones included, leaves exactly what the scan on values leaves: at most MAX_USERS steps, each moving an entry if a lookup of it leads to the slot before |
| StatGatherer.RunAgrees | components/MCU/app/statGatherer.cc:441-481 | after any run of packets, the table each payload type sees is well placed and stores exactly its map from address to record, although the slots are shared |
| StatGatherer.RecordStays | components/MCU/app/statGatherer.cc:449-481 | the record a first packet created is what every later lookup of that address and payload type finds |
| StatGatherer.RecordsDiffer | components/MCU/app/statGatherer.cc:449-481 | different addresses or payload types never have the same record |
| StatGatherer.RunCanStop | components/MCU/app/statGatherer.cc:602-633 | a lookup ends while fewer addresses than slots have been seen with its payload type, however full the others are |
| StatGatherer.Session.GetPosition | components/MCU/app/statGatherer.cc:602-633 | the loop over shared slots ends at the first one that is free for the payload type or holds the address |
| StatGatherer.Session.SetRXData | components/MCU/app/statGatherer.cc:441-575 | finds or creates the slot and the record; a new record holds the packet's own counts, a known one counts the packet, and nothing else changes |
| StatGatherer.RXData.Update | components/MCU/app/statGatherer.cc:487-574 | the nested tests on the sequence number, with the side effect in one of them and the widths of the counters, do to the counters what the laws below are about |
| RxCounters.ReceivedIff | components/MCU/app/statGatherer.cc:501-574 | a packet is counted as received exactly when its number is the next one, also across the end of 16 bits |
| RxCounters.DuplicatedIff | components/MCU/app/statGatherer.cc:531-535 | as a duplicate exactly when its number is the last one |
| RxCounters.UnorderedIff | components/MCU/app/statGatherer.cc:522-528 | as out of order exactly when it is more than 0x8001 numbers ahead around 16 bits, or at least 0x8000 and larger; one distance is not counted at all |
| RxCounters.LostIsRightIff | components/MCU/app/statGatherer.cc:515-520 | of g packets missing the count of lost ones grows by g exactly when the count of the interval stood at 65534 |
| RxCounters.TwoLostAreFour | components/MCU/app/statGatherer.cc:515-520 | after a first packet 7, packet 10 makes it four lost, not two |
| RxCounters.InOrderCounts | components/MCU/app/statGatherer.cc:441-575 | of a stream in order, however long, every packet is counted as received and nothing else is counted |
| MixTape.MixStep | components/MCU/app/mixer.cc:181-191 | adding a sample to a ring slot, saturating, is writing it to the next tape cell kept in that slot |
| MixTape.ContributionIsContiguousIff | components/MCU/app/mixer.cc:180-194 | a packet lies on the tape in one piece and in order exactly when it fits in the cells ahead of the reader |
| MixTape.RestWraps | components/MCU/app/mixer.cc:180-194 | the samples that do not fit go to the cells about to be read |
| MixTape.PacketInTwoPieces | components/MCU/app/mixer.cc:180-194 | 320 samples mixed in at the front of the ring when the reader is at 160: half lie a ring ahead, half in the next window |
| MixTape.ZerosLeaveBlank | components/MCU/app/mixer.cc:230-246 | a blank cell that only zeros were mixed into still looks blank |
| MixSources.StreamIsGaplessIff | components/MCU/app/mixer.cc:160-340 | however packets of all sources and beats are interleaved, the samples of a source that is not marked, overtaken or reset lie on the tape one after the other if and only if each of its packets comes when the cells it should go to are ahead of the reader and within the ring |
| MixSources.SinceMarkIff | components/MCU/app/mixer.cc:160-340 | the same for all samples from a marked packet on |
| MixSources.MarkedStartIff | components/MCU/app/mixer.cc:172-175 | the first sample of a packet with a mark, or of an overtaken source, goes to the cell that opens the window 200 ms on, if and only if 200 ms are less than the ring |
| MixSources.MarkedIsHeardAfter | components/MCU/app/mixer.cc:160-340 | in any run from there on, the beat that carries it is the one after exactly 200/ms sending beats |
| MixSources.OvertakenIff | components/MCU/app/mixer.cc:325-339 | a position becomes -1 exactly when it is above half of the reader's and less than 60 ms of samples ahead of it |
| MixTape.NoStraddleIff | components/MCU/app/mixer.cc:225-241 | windows of n samples one after the other never straddle the end of the ring if and only if n divides its size |
| MixTape.BeatStep | components/MCU/app/mixer.cc:294-311 | a beat reads exactly the next n tape cells, and clearing their slots leaves the ring showing the tape from there on |
| MixTape.ReadIsFinal | components/MCU/app/mixer.cc:180-194 | later packets change nothing that has been read |
| MixTape.SentIsFinalTape | components/MCU/app/mixer.cc:160-340 | in every interleaving of packets and beats, all that was sent is the final tape up to the reader: each cell the saturating fold of its contributions in arrival order over its background, once |
| MixProcessor.MixProcessor.Deliver | components/MCU/app/mixer.cc:160-218 | adds the packet to the tape at the position of its source, or a delay ahead of the reader after a mark; other sources, what was sent and the reader stay |
| MixProcessor.MixProcessor.HeartBeat | components/MCU/app/mixer.cc:221-340 | a window of blanks resets; a missing codec or failed encoding changes only the timestamp; otherwise one packet with the next number carries the tape window, the reader moves on, and overtaken positions are marked |
| MixProcessor.MixProcessor.HandleAll | components/MCU/app/mixer.cc:160-340 | any interleaving of deliver and heartBeat leaves the tape and the positions as the run that these laws are about |
| MixProcessor.MixProcessor.HandleMarked | components/MCU/app/mixer.cc:160-340 | the same for real calls: after a packet with a mark the window about to be sent has its first sample exactly when 200 ms of windows have been sent |
| MixProcessor.MixProcessor.WaitedIs | components/MCU/app/mixer.cc:203-211 | the milliseconds compared with the delay are those between the two times, but for a fraction of one |
| MixProcessor.MixProcessor.SilenceIsDropped | components/MCU/app/mixer.cc:230-246 | two packets of zeros, the second later than the delay, set the period and fill the window; the beat that then comes drops them and resets |
| MixProcessor.MixProcessor.Reset | components/MCU/app/mixer.cc:343-365 | every source starts over at the front of a ring of noise with nothing sent |
| MixProcessor.MixProcessor.MarkOvertaken | components/MCU/app/mixer.cc:325-339 | exactly the nonzero positions between half of and just ahead of the reader become -1 |
| FlowProcessor.EntryAdded | components/MCU/app/switch.cc:164-188 | an entry added to a list without one for its processor adds one to that count and to no other |
| FlowProcessor.EntryRemoved | components/MCU/app/switch.cc:212-223 | an entry removed takes one off its count and off no other, and at none the processor is in no list |
| FlowProcessor.CountAllOf | components/MCU/app/flowProcessor.cc:75-90 | a processor is counted at most once for each list, so the 16-bit count never wraps |
| FlowProcessor.FlowProcessor.AddEntry | components/MCU/app/flowProcessor.cc:75-80 | addRef and the new entry keep every count equal to the number of entries |
| FlowProcessor.FlowProcessor.RemoveEntry | components/MCU/app/flowProcessor.cc:82-90 | so do remove and decRef, and the task goes exactly with the last entry |
| FlowProcessor.Processor.AddTarget | components/MCU/app/flowProcessor.cc:43-58 | a target is added once |
| FlowProcessor.Processor.DeleteTarget | components/MCU/app/flowProcessor.cc:60-73 | the first target with that ID goes, and the result says whether there was one |
| Switcher.Switcher.Find | components/MCU/app/switch.cc:108-143 | finds a processor of the payload type exactly when one is running |
| Switcher.Switcher.SetFlow | components/MCU/app/switch.cc:146-192 | shares the one processor of the payload type or makes it, adds an entry unless the list has one, adds the target; all else stays and the invariant is kept |
| Switcher.Switcher.UnsetFlow | components/MCU/app/switch.cc:195-226 | without an entry, or a target with that ID, nothing changes; else exactly that target and that entry go, and with the last entry the processor |
| Switcher.Switcher.SetThenUnset | components/MCU/app/switch.cc:146-226 | unsetting what was just set restores all lists exactly when the flow had no entry for its payload type before |
| Switcher.Switcher.OtherTargetIsCutOff | components/MCU/app/switch.cc:195-226 | one flow with two targets: unsetting it for the first ends the processor with the second still in its list |
| Switcher.Switcher.SharedTargetLeavesEntry | components/MCU/app/switch.cc:195-226 | two flows with the same target, both unset again, leave a processor without targets running with one reference |
| Mixer.Mixer.Find | components/MCU/app/mixer.cc:524-558 | finds a processor that serves the destination exactly when one is running |
| Mixer.Mixer.SetFlow | components/MCU/app/mixer.cc:561-614 | the lookup is by the target's own payload type, the new processor is made for the one given; entry, target and counts as above, and a nonzero SSRC is set |
| Mixer.Mixer.UnsetFlow | components/MCU/app/mixer.cc:617-648 | the first entry of the list that serves the target goes, and with the last entry the processor; no target list changes, so one processor for each destination stays one |
| Mixer.Mixer.SetFlowOnce | components/MCU/app/mixer.cc:561-614 | setFlow keeps one processor for each destination and payload type exactly when the target was served already or the payload type given is not sent to it yet |
| Mixer.Mixer.SecondProcessor | components/MCU/app/mixer.cc:561-614 | on a new mixer, the same call twice with a payload type that is not the target's makes two processors for one destination |
| Mixer.Mixer.SetThenUnset | components/MCU/app/mixer.cc:561-648 | unsetting what was just set, for the target's own payload type, restores all lists exactly when no entry of the flow served it before |

## Left out

- The global `des_check_key` is a parameter of `SetKey.DesSetKey`; `des_string_to_key` clears it around its call (`lib/crypto/string2key.c:37-40`), and the copy of `des_set_key` in `lib/crypto/fcrypt.c` has no checks.
- The key correction of section 6.2 of RFC 3961, which replaces weak keys, is not done by the code.
- Machines with 8-byte longs: words are 32 bits; the code masks the upper half away where it could matter (`lib/crypto/ecb_encrypt.c:139-141`, `lib/crypto/set_key.c:150-151`). The ALT_ECB tables are those of 4-byte longs.
- The second copies of the tables in `lib/crypto/fcrypt.c` (SPtrans, skb, `des_set_key`), which are the same as those of `lib/crypto/spr.h` and `lib/crypto/sk.h`, are not modelled again; nor is its ALT_ECB form of the salted round.
- C strings are byte sequences without their terminator, buffers that are only read are sequences; `&outbuf[HDRSIZE]` is a second array that is appended to the header.
- `time`, `srandom`, `random` and `rand`: the filler is arbitrary bytes.
- Errors of read, write, fread and fwrite other than the end of the file or connection, EINTR, and option parsing. Connections are sequences of bytes, files are read and written in full chunks.
- EncRead.EncReader.TakeFrame: when a header above MAXWRITE is followed by more than BSIZE bytes the code writes behind its buffer; that, and a header from 2^31 on, a negative length, are not modelled. The writer sends neither (`EncRead.RawStepIsReadStep`).
- EncRead.EncReader.DesEncRead: the same, when nothing is left over; and lengths are not negative.
- DoEncryption.DecryptLoop: the ciphertext is a positive number of whole blocks; a file of another length makes the code work on stale bytes of its buffers, and an empty one makes it read in front of them.
- `crypt` demands salt characters below 128, as its table does, and two of them; the static result buffer is a returned sequence.
- OLD_STR_TO_KEY, `quad_cksum`, `random_key`, the read and write of passwords, uuencoding.
- Report blocks received by `RTCPRecv_t`, its losses and its sockets: a report's list is carried along unchanged.
- StatGatherer.Session.SetRXData: when an interval began (a clock) is not part of this model, nor are recovered packets, the statistics made of the counters and `rtcpSender_t`. Sessions are taken to exist.
- A lookup of an unknown address in a table without a free slot never ends in the code; the methods that look up demand that a probe can end, which `LinearProbing.RoomToStop` and `StatGatherer.RunCanStop` give while fewer addresses than slots are known.
- Address families other than IPv4 and IPv6, at which `getIndex` aborts.
- MixProcessor.MixProcessor.HeartBeat: the codec, its rate and packet length and the result of encoding are parameters (the codec library is not part of this model); the packet has the header fields that change and the samples given to the encoder. The header fields that are the same in all packets, the SSRC among them, and the delivery to the targets are left out, and so is `setPT`, so the number of samples of a beat is fixed and divides 7680.
- MixProcessor.MixProcessor.Deliver: source IDs are below 256, the size of `pos`, as the array demands. Decoding, silence detection and resampling in `mixer_t::deliver` are floating point.
- The doubles of the underrun test are exact reals, which give the same comparisons.
- `flowProcessor_t::deleteTarget` and `deleteProcessor`, and the destructors: `deleteTarget` lowers the count without removing the entry unless it reaches zero and skips an index after a removal, so the invariant is stated for setFlow and unsetFlow.
- Port lists, `setPT`, `setSSRC` of a running mixer and delivery of packets in the switcher and the mixer; flow IDs are below 0xffff, the size of the matrix.
- Video, audio transcoding, grids, FEC, `sessionManager`, `demux`, `socketPool` and `components/DVRB`: plumbing, floating point or code that is not part of this repository.
