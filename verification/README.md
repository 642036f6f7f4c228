# wmbusmeters, the hard core

wmbusmeters turns wireless M-Bus telegrams into meter readings. This project models four parts of it and proves
what they are for.

**AES-128, CBC and CMAC** (`src/aes.cc`, `src/aescmac.cc`). `Aes.Aes` is the in-place code: the round keys, the
pointer to the block being worked on and the pointer to the chaining vector are fields, and a C pointer is an array
with an offset. Each layer is proved against FIPS 197 as a function on blocks, including MixColumns against
multiplication in GF(2^8) and the S-box against the field inverse. The ciphers undo each other, CBC calls of any length
refine the recursive definition of NIST SP 800-38A, and AES_CMAC refines RFC 4493 with its subkeys as doublings in
GF(2^128). The schedule, the cipher and the MAC are also computed, round by round, on the published examples that
`src/testinternals.cc` uses and on the one of FIPS 197.

**The record parser** (`src/dvparser.cc`). `DvSpec.Parse` says what one loop over two cursors yields, when the
descriptors are inside the data and when they come from a remembered format. `DvParser.Parser` is the imperative loop
with its dictionary of formats, and yields exactly that. Around it: what the parser gives back of a printed telegram,
when a compact frame gives what the full frame gave, when a record overwrites another, what the extractors return for
a number that was printed, and what the dictionary holds after any run. `DvAnswers` ties all of this to literal widths
and to encoders of numbers that share nothing with the extractors.

**The Diehl cipher** (`src/manufacturer_specificities.cc`). The 32-bit register is a bijection, the keystream is its
own inverse on payloads, the early-exit decode equals a full decode followed by the check, and rewriting the address
before decryption changes neither the interpretation nor the decoded bytes. What a meter encodes under its key comes
back from the frame as it was received. Every header byte that enters the seed matters, and a telegram for each default
key is decoded on literals.

**The bus manager** (`src/bus.cc`). `BusSpec` is a state machine over an environment that may answer anything at any
time; `Bus.BusManager` is the class with its loops and erasures, proved to follow it. `BusSafety` proves what holds over
every run.

Some properties one would like are false of the code. For each there is a concrete input that fails and the exact
condition under which the property holds:

- A printed telegram is read back unless a variable-length record with an empty payload is followed by exactly one byte
  (`DvPrint.RoundTripIff`, `DvPrint.AmbiguousExample`).
- A compact frame gives what its full frame gave unless a record without data is reached when the data is used up, or
  the previous case occurs in either frame (`DvCompact.CompactAgreesIff`, `DvCompact.LostRecordExample`,
  `DvCompact.SwallowedFillerExample`).
- No record overwrites another on all inputs of n bytes if and only if n < 4094; from there on keys are cut off by the
  formatting buffer (`DvKeys.NothingOverwrittenIff`).
- The width assertions of the extractors fail for a number if and only if the data has at least two bytes left for it
  but not all that it needs (`DvEndToEnd.AbortsIffCutShort`, `DvEndToEnd.TruncatedExample`).
- A decimal number of twelve digits comes out of the long extractor if and only if it is below 2^31, and any number
  comes out of the double extractor's integer part if and only if it is below 2^32
  (`DvEndToEnd.LongIsNumber`, `DvEndToEnd.DoubleRawIsNumber`, `DvEndToEnd.LargeNumbersExample`).
- A device configured by its identity raises no alarm while it is open if it is the first of those configured so, and
  the second of two with the same identity and type always raises it (`BusRounds.NoAlarmForOpenDevice`,
  `BusRounds.SecondOfTwoIsAlarmed`).
- The data cursor can pass the end of the data, by one byte and in three cases that all end the loop
  (`DvSpec.PayloadCursor`, `DvSpec.CursorPastEndExample`).

A byte is `bv8` in the ciphers and a number below 256 in the parser, where masks and shifts are quotients and
remainders.

## Model

| member | source | states |
|---|---|---|
| Gf256.XtimeIsProduct | src/aes.cc:315-318 | doubling with the conditional 0x1b is multiplication by x modulo x^8+x^4+x^3+x+1 |
| Gf256.MultiplyIsProduct | src/aes.cc:338-352 | the shift-and-xor product is the field product for every second factor below 0x20 |
| Gf256.ShortcutIsMix | src/aes.cc:321-334 | the byte computed from the column sum and one doubling is the row (2 3 1 1) of the matrix product |
| Gf256.InvMixOfMix | src/aes.cc:321-375 | the inverse matrix undoes the matrix on every column |
| Gf256.MixOfInvMix | src/aes.cc:321-375 | and the other way round |
| SBoxes.InvSBoxOfSBox | src/aes.cc:98-133 | the second table inverts the first at every byte |
| SBoxes.SBoxOfInvSBox | src/aes.cc:98-133 | the first table inverts the second at every byte |
| SBoxes.SBoxIsAffineOfInverse | src/aes.cc:98-115 | every table entry is the affine map of the field inverse, with 0 for 0 |
| AesSpec.SubBytesInverse | src/aes.cc:272-282 | substitution and inverse substitution undo each other on every block |
| AesSpec.ShiftRowsInverse | src/aes.cc:287-313 | the two row rotations undo each other |
| AesSpec.MixColumnsInverse | src/aes.cc:321-375 | the two column mixings undo each other |
| AesSpec.DecryptMeetsEncrypt | src/aes.cc:422-470 | after the inverse rounds down to round n, the state is that of encryption inside round n |
| AesSpec.InvCipherOfCipher | src/aes.cc:422-470 | decryption undoes encryption for every schedule and block |
| AesSpec.EncryptMeetsDecrypt | src/aes.cc:422-470 | the same meeting point in the other direction |
| AesSpec.CipherOfInvCipher | src/aes.cc:422-470 | encryption undoes decryption for every schedule and block |
| Aes.RconIsPower | src/aes.cc:137-138 | the round constants that are used are the powers of x |
| Aes.TempIsNextWord | src/aes.cc:201-252 | rotating, substituting and adding the constant gives the next word of the recursive key schedule |
| Aes.Aes.KeyExpansion | src/aes.cc:185-254 | fills the round-key array with the recursive key schedule of the key |
| Aes.Aes.KeyExpansionStep | src/aes.cc:201-252 | one turn of the loop extends the schedule by one correct word |
| AesRounds.FirstBytes | src/aes.cc:209-249 | the first word of each round key, byte by byte from the round key before it: which byte is substituted into which place, and where the constant goes |
| AesRounds.LaterByte | src/aes.cc:250-253 | every other byte of a round key is the sum of the byte it replaces and the byte four places before it |
| Aes.Aes.AddRoundKey | src/aes.cc:258-268 | adds round key n to the block and changes nothing around it |
| Aes.Aes.SubBytes | src/aes.cc:272-282 | substitutes every byte of the block and changes nothing around it |
| Aes.Aes.ShiftRows | src/aes.cc:287-313 | the shifts through one temporary are the rotation of row r by r |
| Aes.Aes.MixColumn | src/aes.cc:321-334 | the in-place column with its temporaries is the matrix product, at the four places only |
| Aes.Aes.MixColumns | src/aes.cc:321-334 | all four columns, and nothing around the block |
| Aes.Aes.InvMixColumn | src/aes.cc:359-375 | the column of sixteen products is the inverse matrix product |
| Aes.Aes.InvMixColumns | src/aes.cc:359-375 | all four columns, and nothing around the block |
| Aes.Aes.InvSubBytes | src/aes.cc:380-390 | inverse substitution of the block |
| Aes.Aes.InvShiftRows | src/aes.cc:392-418 | the shifts the other way are the inverse rotation |
| Aes.Aes.Cipher | src/aes.cc:422-445 | the ten in-place rounds are the cipher of FIPS 197 |
| Aes.Aes.InvCipher | src/aes.cc:447-470 | the in-place inverse rounds, keys in reverse, are the inverse cipher |
| AesKnown.FipsExample | src/aes.cc:185-445 | the key and block of appendix C.1 of FIPS 197 give 69c4e0d86a7b0430d8cdb78070b4c55a |
| Aes.Aes.EcbEncrypt | src/aes.cc:479-490 | copies, expands the key and encrypts the first block of the result, whatever the length; the rest is the copy and what was there |
| Aes.Aes.EcbDecrypt | src/aes.cc:492-503 | the same for decryption |
| Aes.Aes.XorWithIv | src/aes.cc:515-522 | adds the current chaining vector to a block, also to one that begins before the vector and runs into it |
| Aes.Aes.CbcEncryptBlock | src/aes.cc:541-551 | one turn: masks the input block, encrypts it into the output, and leaves the vector pointing at it |
| Aes.Aes.CbcEncryptBlocks | src/aes.cc:524-559 | any length: output blocks, masked input blocks, untouched rest and final vector |
| Aes.Aes.CbcEncryptBuffer | src/aes.cc:524-559 | the whole call, with a null key keeping the schedule and a null vector chaining on |
| Aes.Aes.CbcDecryptBlock | src/aes.cc:579-588 | one turn of decryption, the vector left pointing into the input |
| Aes.Aes.CbcDecryptBlocks | src/aes.cc:561-596 | any length: output blocks, untouched rest and final vector |
| Aes.Aes.CbcDecryptBuffer | src/aes.cc:561-596 | the whole call, with null key and null vector |
| Cbc.EncryptAt | src/aes.cc:541-551 | block j is the cipher of plaintext j added to ciphertext j-1 |
| Cbc.DecryptAt | src/aes.cc:579-588 | block j is the inverse cipher of ciphertext j added to ciphertext j-1 |
| Cbc.DecryptOfEncrypt | src/aes.cc:524-596 | the CBC round trip for every number of blocks |
| Cbc.EncryptOfDecrypt | src/aes.cc:524-596 | and the other way round |
| Cbc.EncryptSplit | src/aes.cc:529-551 | encrypting A and then B from the last block of A is encrypting A followed by B |
| Cbc.DecryptSplit | src/aes.cc:566-588 | the same for decryption |
| AesUse.EncryptThenDecrypt | src/testinternals.cc:938-975 | the repository's own AES test for every length, key and vector: the plaintext comes back |
| AesUse.EncryptInTwoCalls | src/aes.cc:529-551 | two encryption calls, the second with null key and vector, have the effect of one |
| AesUse.DecryptInTwoCalls | src/aes.cc:566-588 | the same for two decryption calls |
| Gf128.DoubleIsTimesX | src/aescmac.cc:36-57 | shifting sixteen bytes with carries and adding 0x87 is multiplication by x in GF(2^128) |
| CmacSpec.SubkeysAreDoublings | src/aescmac.cc:29-58 | K1 and K2 are one and two doublings of the encrypted zero block |
| CmacSpec.ChainIsCbc | src/aescmac.cc:110-119 | the MAC chain from any start ends in the last CBC block |
| CmacSpec.MacIsLastCbcBlock | src/aescmac.cc:88-121 | the MAC is the last block of CBC with zero vector over the prepared message |
| AesUse.MacByCbc | src/aescmac.cc:79-122 | calling AES_CMAC on a message and AES_CBC_encrypt_buffer with a zero vector on the prepared message gives the same sixteen bytes, as the MAC and as the last block |
| Cmac.ShiftLeft | src/util.cc:305-316 | the byte loop shifts the block by one bit |
| Cmac.Xorit | src/util.cc:300-303 | adds two blocks |
| Cmac.GenerateSubkeys | src/aescmac.cc:29-58 | writes K1 and K2 of the expanded key |
| Cmac.Pad | src/aescmac.cc:60-77 | the message end, 0x80 and zeros |
| Cmac.AesCmac | src/aescmac.cc:79-122 | for every length, 0 and partial blocks included, the sixteen bytes are the recursive MAC and nothing else of the buffer changes |
| AesKnown.EmptyMessageExample | src/testinternals.cc:471-480 | the code of the empty message under the test key is bb1d6929e95937287fa37d129b756746 |
| AesKnown.OneBlockExample | src/testinternals.cc:483-492 | the code of the test message of one block is 070a16b46b4d4144f79bdd9dd04a287c |
| DiehlLfsr.StepInverse | src/manufacturer_specificities.cc:179-184 | a step has an inverse on both sides |
| DiehlLfsr.StepsInverse | src/manufacturer_specificities.cc:179-184 | so has any number of steps |
| DiehlLfsr.ZeroOnlyFromZero | src/manufacturer_specificities.cc:179-184 | the register becomes zero exactly if it started at zero |
| DiehlLfsr.KeystreamAt | src/manufacturer_specificities.cc:176-186 | byte i of the keystream is the low byte after 8(i+1) steps, whatever the payload |
| DiehlLfsr.ApplyTwice | src/manufacturer_specificities.cc:176-186 | applying the keystream twice restores every payload |
| DiehlLfsr.KeystreamDeterminesKey | src/manufacturer_specificities.cc:176-186 | different seeds give different keystreams, from four bytes on |
| Diehl.FeedbackFromFlags | src/manufacturer_specificities.cc:181-183 | the four flag tests give the feedback bit of the register |
| Diehl.ShiftEight | src/manufacturer_specificities.cc:179-184 | the inner loop is eight steps |
| Diehl.DecodeDiehlLfsr | src/manufacturer_specificities.cc:166-212 | the early-exit decode equals decoding everything and then checking |
| Diehl.EncodedIsDecoded | src/manufacturer_specificities.cc:257-319 | what a meter encodes is decoded by whoever holds its key, and no default key is tried then; without a key, what is encoded under a default key is decoded, under the second one unless the first fits too |
| Diehl.TransformKeepsInterpretation | src/manufacturer_specificities.cc:60-163 | rewriting the address changes no frame's interpretation |
| Diehl.SwappingHasOrderThree | src/manufacturer_specificities.cc:139-157 | rotating the address three times restores the frame |
| Diehl.Telegram.TransformDiehlAddress | src/manufacturer_specificities.cc:139-163 | the in-place rotation or replacement of the address bytes, and nothing else |
| Diehl.Telegram.PreProcess | src/wmbus.cc:1656-1665 | keeps the first ten bytes before rewriting, and only when it rewrites |
| Diehl.PreProcessKeepsDecode | src/manufacturer_specificities.cc:139-212 | decoding the rewritten frame with the kept bytes gives what decoding the received frame gives |
| Diehl.Telegram.DecryptRealData | src/manufacturer_specificities.cc:279-319 | succeeds exactly when some candidate decodes, uses the first that does, keeps all bytes before pos, and changes nothing on failure |
| Diehl.Receive | src/wmbus.cc:1490-1756 | pre-processing, length tests, transport layer field and security mode: a frame that is cut off, ends with its address or has field 0x71 is rejected after rewriting, a real-data frame with 0x7A is decoded with the first key that fits the received bytes, or fails, or is taken for plain when simulated |
| Diehl.RealDataOfEncoded | src/manufacturer_specificities.cc:166-212 | a payload with a valid checksum, encoded with a key, decodes to itself under that key |
| DiehlKnown.HeaderBytesMatter | src/manufacturer_specificities.cc:168-186 | two frames of at least four payload bytes that differ in exactly one of bytes 2 to 13 are decoded differently under the same key, before the check |
| DiehlKnown.KeyMatters | src/manufacturer_specificities.cc:168-186 | two keys decode a frame of at least four payload bytes differently, before the check |
| DiehlKnown.IzarTelegram | simulations/simulation_izars.txt:3-4 | the telegram is decoded with the first default key to 4ba00d00009e0d00007e29, where its readings 3488 and 3486 stand |
| DiehlKnown.HydrusTelegram | simulations/simulation_t1.txt:265 | the telegram is decoded with the second default key to 4b69c00c0069840c00a129 |
| DiehlKnown.ChecksumExample | src/manufacturer_specificities.cc:188-208 | payloads that pass and fail the two checks: bit 4 of the sum is not compared, and nothing passes when empty |
| DiehlKnown.RealDataIff | src/manufacturer_specificities.cc:60-131 | a frame holds real data if and only if its bytes name one of five manufacturers, a control field 0x44 or 0x46, and field 0x71, or 0x7A with bit 4 of byte 14 |
| DiehlKnown.RewrittenBytes | src/manufacturer_specificities.cc:36-163 | the rewritten frame in the bytes of the received one: which frames are rotated, which get the bytes 00 07, and which stay |
| Hex.Hex2BinInverse | src/util.cc:190-247 | reading hexadecimal text inverts writing it |
| Hex.Bin2HexInjective | src/util.cc:228-236 | different bytes have different text |
| DvSpec.PayloadCursor | src/dvparser.cc:253-284 | where the data cursor goes: at most one past the end, exactly when, and never when the loop goes round |
| DvSpec.ParseCursor | src/dvparser.cc:127-284 | for every byte string in both modes the final cursor is between its start and one past the end |
| DvSpec.CursorPastEndExample | src/dvparser.cc:253-284 | a telegram of four bytes whose data cursor ends at five |
| DvFields.AddDifeIsSum | src/dvparser.cc:173-205 | or-ing in the shifted bits of a dife is adding a digit |
| DvFields.FieldsArePositional | src/dvparser.cc:173-205 | storage is base 16 above its low bit, tariff base 4 and subunit base 2, for chains of any length |
| DvFields.SevenDifesFit | src/dvparser.cc:173-205 | with at most seven difes every field stays below 2^29, 2^14 and 2^7 |
| DvFields.FieldsRoundTrip | src/dvparser.cc:173-205 | every storage, tariff and subunit within n digits comes back from an encoder with n difes |
| DvEndToEnd.EncodedFieldsComeBack | src/dvparser.cc:127-284 | a record printed with the encoder's difes is parsed and stored with exactly the encoded storage number, tariff and subunit |
| DvPrint.RoundTrip | src/dvparser.cc:127-284 | printed records, with fillers and a manufacturer block, are read back in order with their offsets and their format |
| DvPrint.AmbiguousFails | src/dvparser.cc:253-270 | with an ambiguous record the printed records do not come back |
| DvPrint.RoundTripIff | src/dvparser.cc:127-284 | the round trip holds if and only if no empty variable-length payload is followed by exactly one byte |
| DvPrint.AmbiguousExample | src/dvparser.cc:253-270 | a four-byte telegram that is not read back |
| DvCompact.CompactAgreesIff | src/dvparser.cc:86-294 | for all well-formed records and fillers, the format learned is theirs, and the compact frame gives the headers and values of the full frame if and only if no record of the full frame is ambiguous and the compact frame loses nothing |
| DvCompact.LongPayloadsAreSafe | src/dvparser.cc:253-284 | that condition holds whenever no payload is empty |
| DvCompact.LostRecordExample | src/dvparser.cc:276-284 | a record without data at the end is read from the full frame and lost in the compact one |
| DvCompact.SwallowedFillerExample | src/dvparser.cc:253-284 | a full frame whose empty text comes out as the filler behind it, while the compact frame gives the empty text |
| DvValues.DistinctKeysKeepAll | src/dvparser.cc:236-274 | with distinct keys there are as many entries as records and every record has its own |
| DvKeys.FullKeyInjective | src/dvparser.cc:236-251 | a key that is not cut off determines the identifier and the count |
| DvKeys.FewBytesDistinct | src/dvparser.cc:236-251 | identifiers of fewer than 4094 bytes in all have distinct keys, cut off or not |
| DvKeys.ShortInputsKeepAll | src/dvparser.cc:236-274 | so no record of an input of fewer than 4094 bytes is overwritten, in both modes |
| DvKeys.OverwritingInput | src/dvparser.cc:246-251 | for every length from 4094 on, an input of that length with two records under one key |
| DvKeys.NothingOverwrittenIff | src/dvparser.cc:236-274 | nothing is overwritten on any input of n bytes if and only if n < 4094 |
| DvCache.LoadIsFirst | src/dvparser.cc:51-63 | after any sequence of formats, a lookup gives the first one with that signature, or nothing |
| DvCache.FirstHasSignature | src/dvparser.cc:286-294 | what a lookup gives was learned earlier and has the signature as its CRC |
| DvCache.EntriesNeverChange | src/dvparser.cc:286-294 | an entry that is present stays as it is |
| DvCache.SameEntries | src/dvparser.cc:236-274 | equal headers and values give equal entries, offsets aside |
| DvCache.CompactThroughCache | src/dvparser.cc:51-294 | after any history in which no other format came first under the signature, a full frame and then its compact frame give the same entries through the dictionary |
| DvParser.ReadDifes | src/dvparser.cc:173-205 | the dife loop takes the chain of bytes and accumulates the fields |
| DvParser.ReadVifes | src/dvparser.cc:220-234 | the vife loop takes the chain of bytes |
| DvParser.ReadHeader | src/dvparser.cc:131-234 | a complete header, or the bytes read when the input ends before the vif |
| DvSpec.PayloadValue | src/dvparser.cc:253-275 | a fixed-width payload is its bytes, or all but the last of those left; behind a length byte it is the bytes counted, as far as they go, and with at most two bytes left whatever follows |
| DvAnswers.FixedWidths | src/wmbus.cc:1956-1976 | behind every header with nibble 0 to 12 or 14, the first record has exactly the next 0 1 2 3 4 4 6 8 0 1 2 3 4 6 bytes as its value |
| DvAnswers.VariableWidth | src/dvparser.cc:253-275 | with nibble 13 it has as many bytes as the length byte says, unless that is 0 with one byte behind it |
| DvAnswers.SpecialFunctions | src/dvparser.cc:138-157 | with nibble 15 the parse ends, with a manufacturer index after 0x0f; only 0x2f is skipped |
| DvAnswers.RepeatedExample | src/dvparser.cc:236-251 | two records under one identifier get the keys 0113 and 0113_2 |
| DvParser.Parser.LoadFormatBytesFromSignature | src/dvparser.cc:53-63 | the first format learned under the signature, with that CRC, or failure |
| DvParser.Parser.ParseDV | src/dvparser.cc:65-297 | the map is exactly the parsed records stored in order; a full frame's format is learned, a compact frame's is not |
| DvRun.Receive | src/wmbus.cc:1532-1582 | one full or compact frame: its values, with the format that was learned or is known in advance, and what is learned |
| DvRun.ReceiveAll | src/wmbus.cc:1532-1582 | over any run, each compact frame is decoded with the first format its signature came with, else with the one known in advance, else dropped |
| DvRun.FormatHasSignature | src/wmbus.cc:1549-1566 | whatever came before, a compact frame is only decoded with a format whose CRC is its signature |
| DvAgree.EntriesAgreeIff | src/dvparser.cc:236-274 | where keys are distinct, the maps of two parses with the same headers agree offsets aside if and only if the records do |
| DvAgree.FramesAgreeIff | src/dvparser.cc:86-294 | whatever came before each, a full frame and the compact frame decoded with its format give the same entries if and only if nothing is lost in either |
| DvAgree.RunAgreesIff | src/wmbus.cc:1532-1582 | over every run, a full frame and any later compact frame with its signature and data give the same entries if and only if nothing is lost in either, provided no other format came first under the signature |
| DvKnown.KnownHasSignature | src/wmbus.cc:3491-3524 | every format that is built in has its signature as CRC |
| DvExtract.FindKey | src/dvparser.cc:315-348 | finds a matching entry if there is one, and the first in key order |
| DvExtract.AtMostIff | src/dvparser.cc:325-346 | key order is dictionary order: a prefix comes first, and otherwise the smaller character where the keys first differ |
| DvAnswers.MatchesIff | src/dvparser.h:30-44 | which records without extension bytes answer which queries, by the leading bits of the vif and the bits of the dif |
| DvExtract.ExtractDV | src/dvparser.cc:350-369 | the dif and vif of a key, past its difes and in spite of its count suffix |
| DvExtract.BinarySumIsLittleEndian | src/dvparser.cc:611-656 | the written-out sums are little-endian numbers and fit 64 bits |
| DvEndToEnd.BcdSumIsNumber | src/dvparser.cc:659-696 | the written-out decimal sums are the numbers of the digits |
| DvEndToEnd.KeyBytes | src/dvparser.cc:246-251 | a key that is not cut off gives the identifier's bytes back |
| DvEndToEnd.LongIsNumber | src/dvparser.cc:587-704 | a stored complete number is extracted: always if binary, and if and only if below 2^31 if decimal |
| DvEndToEnd.DoubleRawIsNumber | src/dvparser.cc:463-585 | the integer that is scaled is the number if and only if it is below 2^32 |
| DvEndToEnd.AbortsIffCutShort | src/dvparser.cc:253-704 | in every telegram, full or compact, the width assertions fail for a number if and only if at least two bytes but fewer than its width are left for it |
| DvEndToEnd.TruncatedExample | src/dvparser.cc:253-270 | a cut-off telegram whose record runs into a width assertion |
| DvEndToEnd.LargeNumbersExample | src/dvparser.cc:538-696 | telegrams with 2147483648 and 4294967296 in decimal digits, which the long extractor gets wrong, and the second of which the double extractor gets wrong |
| DvEndToEnd.ReadNumber | src/dvparser.cc:65-704 | parse, find and extract: if exactly one record answers and it is a complete number, the answer is that number and its offset, exactly within the ranges above |
| DvAnswers.DecimalAnswer | src/dvparser.cc:538-696 | for nibbles 9, 10, 11, 12, 14, every n of 2, 4, 6, 8, 12 decimal digits written into a telegram is extracted as n, if and only if below 2^31 for the long and 2^32 for the double |
| DvAnswers.BinaryAnswer | src/dvparser.cc:487-656 | for nibbles 1, 2, 3, 4, 6, 7, every n of 1, 2, 3, 4, 6, 8 little-endian bytes is extracted as n, for the double if and only if below 2^32 |
| DvAnswers.ReadDecimal | src/dvparser.cc:65-704 | the telegram of one decimal number, asked for what it measures, is found and answered with that number within those ranges |
| DvAnswers.ReadBinary | src/dvparser.cc:65-704 | the same for a binary number |
| DvAnswers.VolumeExample | src/dvparser.cc:65-704 | the telegram 0a 13 34 12 answers the query for an instantaneous volume with 1234, and not those for a maximum or a temperature |
| BusSpec.EraseFirstDead | src/bus.cc:286-299 | erasing the first device that does not work takes away that device and nothing else |
| Bus.BusManager.constructor | src/bus.cc:53-61 | everything empty and the warning flag set |
| Bus.BusManager.CheckForDeadWmbusDevices | src/bus.cc:261-338 | what is left of the device list is exactly the working devices in order; the others are closed in order; then the notices |
| Bus.RemoveLost | src/bus.cc:520-542 | the two loops leave the intersection of an ignore list with a listing |
| Bus.BusManager.DetectAndConfigureWmbusDevices | src/bus.cc:364-518 | dead devices, then the configured devices in order, then the scans that were asked for, then alarms for the configured devices that are not handled |
| Bus.BusManager.PerformAutoScanOfSerialDevices | src/bus.cc:544-602 | the listing, the shrunk ignore list and every listed tty in order |
| Bus.BusManager.PerformAutoScanOfSwradioDevices | src/bus.cc:604-667 | nothing without the programs; else the listing, the shrunk ignore list and every listed radio in order |
| Bus.FindSpecifiedDevice | src/bus.cc:724-751 | in the configured files, identities and types: the first device without a file that has the detected identity and a fitting type; if there is none, the first with neither file nor identity and a fitting type; none exactly if neither exists |
| Bus.BusManager.FindBusByAlias | src/bus.cc:753-760 | the first device with the alias, or none |
| Bus.BusManager.SendTheQueue | src/bus.cc:771-799 | hands over the deliverable contents in order and empties the queue |
| Bus.DecodeHex | src/util.cc:190-205 | the loop over the text is the reading of hexadecimal pairs, blanks skipped |
| Bus.BusManager.Drive | src/main.cc:352-362 | any sequence of operations from creation on follows the state machine and keeps the promises about runs |
| BusSafety.IgnoredIff | src/bus.cc:440-666 | each of the two ignore lists holds exactly the names with a failed attempt that every later listing still had |
| BusSafety.LawfulIsPatient | src/bus.cc:440-666 | between a failed attempt at a name and the next attempt lies a listing without the name, on serial lines and among radios |
| BusSafety.LawfulReadsOnce | src/bus.cc:426-478 | a file that was detected as stdin, file or simulation, or opened as a simulation, is not detected again |
| BusSafety.LawfulIsRateLimited | src/bus.cc:501-517 | alarms for the same configured device are more than sixty seconds apart |
| BusSafety.LawfulNoticesOnce | src/bus.cc:301-337 | that there is no device is noticed only when none is open, and only after a device was opened since the last such notice |
| BusRounds.MarkedIff | src/bus.cc:495-499 | a configured device ends up handled if and only if its own step handled it or some open device was detected as it |
| BusRounds.RoundAlarmsIff | src/bus.cc:364-518 | a detection round raises an alarm for a configured device if and only if it looks for all devices, neither the device's own step nor any device open after the scans accounts for it, and its last alarm was more than sixty seconds ago |
| BusRounds.NoAlarmForOpenDevice | src/bus.cc:495-517 | a round raises no alarm for the first device configured with the identity of an open device |
| BusRounds.NoAlarmForCommand | src/bus.cc:397-416 | nor for a device configured by a command or hexadecimal data |
| BusRounds.AlarmForAbsentDevice | src/bus.cc:364-518 | a round for all devices raises an alarm for a device configured by type or identity that no open device stands for, once the last alarm is more than sixty seconds ago |
| BusRounds.SecondOfTwoIsAlarmed | src/bus.cc:495-517 | of two devices configured with the same identity and type, every round for all devices reports the second as missing, even with the device open |
| BusSteps.HandledIff | src/bus.cc:364-483 | after its step a configured device is handled exactly if the round looks at it and it has a command, hexadecimal data, or a file that is not missing |
| BusSteps.FileDetection | src/bus.cc:440-479 | a file that is detected is ignored from then on exactly if it is a character device with nothing behind it, read only this once exactly if it is stdin, a file or a simulation, and opened exactly if something was detected |
| BusSteps.FileNotDetected | src/bus.cc:417-461 | a file in use, read before, ignored and still listed, or missing is not detected, and only names that are no longer listed stop being ignored |
| BusSteps.OpenFoundIff | src/bus.cc:569-663 | a device that a scan found is opened, keeping its identity, if and only if any device will do or some configured one fits by identity or by type |
| BusSteps.RadioScanOpens | src/bus.cc:604-667 | whatever the environment answers, a scan for radios opens devices only under the serial numbers that were listed |
| BusSteps.HexIsDelivered | src/bus.cc:771-799 | bytes written as hexadecimal text are deliverable if and only if there are at most 250 and some open device has the alias |
| BusRounds.ScanProbesIff | src/bus.cc:544-602 | a scan probes a tty that is listed once if and only if it is not ignored, not forbidden and not in use when its turn comes |
| BusSafety.WithoutDead | src/bus.cc:286-299 | erasing the devices that do not work one by one leaves exactly the working ones, in order |
| BusSafety.LawfulIsOnlyOpen | src/bus.cc:261-299 | contents go to, and closing concerns, devices that are open at that moment |
| BusSafety.LawfulIsInOrder | src/bus.cc:762-799 | contents are handed over in the order they were queued, each at most once |
| BusSafety.DetectKeeps | src/bus.cc:364-518 | a detection round in any environment keeps the invariant and sends nothing |
| BusSafety.SendQueueKeeps | src/bus.cc:771-799 | sending keeps the invariant and leaves the queue empty |
| BusSafety.DeliveredIff | src/bus.cc:771-799 | a queued content is handed over if and only if its bus exists, it is at most 500 characters long and they are hexadecimal |
| BusSafety.RunKeeps | src/bus.cc:261-799 | every reachable state satisfies the invariant |
| BusSafety.RunIsSafe | src/bus.cc:261-799 | over every run: patience with ignored names, files read once, alarms rate limited, contents in order at most once, of at most 500 characters and to their own bus while it is open, one notice for each time that no device is left, the queue being the part not handled |
| BusSafety.RunIgnoresIff | src/bus.cc:440-666 | in every reachable state the ignore lists are what the history of attempts and listings says |
| BusSafety.RunDevices | src/bus.cc:68-338 | in every reachable state the open devices are those that were opened, in that order, less those that were closed |
| BusSafety.RunDelivers | src/bus.cc:762-799 | over every run, each content that no longer waits was sent by one step, and handed over if and only if it could be delivered to the devices open at that step |

## Left out

- Meter drivers, manufacturer tables, command line, configuration files, printing and the daemon: lookups and plumbing.
- Log texts, explanations and the `parsed` bytes of a telegram: they do not influence what is decoded.
- Floating-point scaling, dates, strings and the fixed-width extractors of `src/dvparser.cc`: they repeat the number
  extractors on other widths or depend on the local time zone.
- The data CRC of a compact frame: the source does not check it either.
- DvFields.FieldsArePositional: on unbounded integers; beyond seven difes the source's int overflows, and
  DvFields.SevenDifesFit shows that up to seven it does not.
- DvEndToEnd.LongIsNumber: the source sums twelve decimal digits in an int, where overflow is undefined; the model wraps
  at 32 bits, as common compilers do.
- DvEndToEnd.DoubleRawIsNumber: the same, so its result for decimal numbers from 2^31 on rests on that wrapping.
- DvEndToEnd.AbortsIffCutShort: like DvEndToEnd.ReadNumber, for fewer than 4094 format bytes and a key not cut off.
- DvAgree.FramesAgreeIff: for full frames of fewer than 4094 bytes without a manufacturer block.
- DvAgree.RunAgreesIff: the same.
- DvEndToEnd.ReadNumber: for inputs of 4094 bytes and more nothing is said, since keys may collide there; from 2048
  bytes on it asks that the key of the answering record is not cut off. A telegram has at most 256 bytes.
- Aes.Aes.EcbEncrypt: the output has room for a block and is not the input or the key; the source copies with memcpy,
  which demands memory that does not overlap.
- Aes.Aes.EcbDecrypt: the same.
- Aes.Aes.XorWithIv: not for a block that begins inside the vector, where the source reads bytes it has already changed.
- Aes.Aes.CbcEncryptBlock: input and output are different buffers and the vector does not lie in the input. The source
  copies with memcpy, which demands memory that does not overlap; two places in one buffer are not modelled.
- Aes.Aes.CbcEncryptBlocks: the same.
- Aes.Aes.CbcEncryptBuffer: the same. A last partial block is processed as a whole block, as in the source.
- Aes.Aes.CbcDecryptBlock: the same, with the vector outside the output.
- Aes.Aes.CbcDecryptBlocks: the same.
- Aes.Aes.CbcDecryptBuffer: the same.
- AES-192 and AES-256 branches, which the configuration of the source switches off.
- Negative lengths in AES_CMAC.
- Diehl.DecodeDiehlLfsr: asks for the fifteen frame bytes that the source reads without a test.
- Diehl.Telegram.DecryptRealData: the reversed byte order of `uint32FromBytes` is not modelled.
- Diehl.Receive: what other layers make of a frame that is passed on. Frames of fewer than ten bytes, whose header the
  source reads past their end, are rejected in the model.
- The default manufacturer key that is tried for other encrypted modes.
- Bus.BusManager.DetectAndConfigureWmbusDevices: link modes and the texts of notices and alarms are not modelled.
- Opening devices, serial input and output, and locks: answers of the environment and single-threaded operations.
