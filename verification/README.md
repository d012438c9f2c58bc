# A verified model of gostls

gostls is a TLS 1.2 client with the Russian GOST cipher suites. This project models the parts of it
that decide correctness by themselves, and proves what they promise, for all inputs and all runs.
`dafny verify dfyconfig.toml` (Dafny 4.11) checks the whole project.

- **Record protection.** `GostCnt` and `GostImit` are the two streaming states of the GOST 28147-89
  protector, with key meshing every 1024 bytes. Every field of each is shown to be a function of the
  number of bytes encrypted, or of the bytes authenticated, whatever the division over calls.
  `GostProtector` puts them together: any run of records opens to what was sealed, and each tag covers
  all records before it. `CbcPadding` and `CbcProtector` show that the branch-free CBC decryption
  computes a plain branching statement. `Aead` and `CtrOmac` cover the other protectors and their
  nonces.
- **Record layer.** `RecordLayer` drives all protectors as a two-ended protocol with protectors swapped
  mid-stream; its class `Layer` is the object that the handshake works on. `RecordAttempts` is every run of
  writes over a transport that may fail at any byte, and which numbers and nonces their seals use.
- **Handshake codec.** `Wire`, `Extensions` and `Messages` are the parsers and printers; `Layout` says where
  every field of every message stands on the wire, as the exact condition for a body to be accepted.
- **Handshake.** `Reassembly`, `Transcript`, `ClientSpec` and `ClientHandshake` are the client state
  machine, from the bytes of the transport on. A handshake that succeeds has exactly one of the allowed
  traces, has passed every check, and has read the server's messages under the protectors it installed,
  the server's keys behind the ChangeCipherSpec; what it wrote can be read back by an end that installs
  the same protectors. Conversely it succeeds on every such run that arrives, if nothing fails locally:
  transport and random source work, and no message or transcript is too long. `ConformingServer` says
  which bytes make a run arrive, in whatever records and with whatever behind the Finished, and
  `ClientFeasible` shows that an environment whose protector constructors accept only keys of the suite's
  sizes has such runs, without and with the optional messages.
  `ClientChecks` says byte by byte what the client's checks accept, and so what a completed run
  establishes: a signature over the key exchange parameters, the chain, the transcript that the Finished
  messages cover, every key; and which alert a refusal sends.
- **Keys.** `KeySchedule` is the pseudo-random function and both copies of the key expansion, `Dhe` the
  finite-field exchange.
- **Connection.** `ConnInterleaving` is every interleaving of Handshake, Read, Write and Close;
  `ConnStream` is Read and Write as a byte stream, and `ByteStream` joins two ends: what is written is what
  is read, under any protector.

Conventions. A byte is an integer below 256; Go's `int` and `uint` have 64 bits (`MAX_INT` and `UINT64`
in `CbcPadding`); fixed-size Go arrays inside structs are sequences of that
length, since Go copies them by value. The cryptographic primitives are function-valued fields, and
everything assumed of them is written out in a predicate `Sound`: sizes, and that block decryption and
AEAD opening invert encryption and sealing. Block sizes are at most 255, MACs at most 64 and tags at most
16 bytes, as in the registered suites. Nothing is assumed of the GOST block cipher except in
the lemmas that require `Encrypts` or `Decrypts`. Randomness, the transport and certificate verification are
parameters. A GOST protector's `State(pos, fed)` stands for all its fields: `Cnt.Valid` and `Imit.Valid`
make every field a function of it.

Where the code and its comments differ the model follows the code:

- A comment in `Finalize` says that short inputs match the engine, which adds a zero block after at most
  8 bytes. The branch tests a count that the data block has already raised, so it never runs;
  `EngineAgreement` gives the exact inputs on which the code and that rule agree. The header of a record
  makes every input of the record path longer, so no record is affected.
- The head of the file says the chaining state after a tag is that of the padded final block.
  `Finalize` works on a snapshot and leaves the state alone; each tag still covers all earlier records.
  `PaddingInvisibleIff` says when that makes no difference to any tag of a run: every record starts on a
  block boundary of the bytes authenticated. `SecondRecordDiffers` is a run of two records where it does.
- `parseServerName` keeps the last name of the list, not the first (`SecondNameKept`). `KeptIsFirst` says
  when these are the same: the list has at most one entry, or its last entry repeats the first.
- `Handshake` documents that a fatal alert has been sent on failure. One is attempted exactly unless no
  random can be drawn, the ClientHello does not fit a record, or the transport does not take that record
  (`SilentFailure`); and it is on the wire exactly if it is attempted and its own record is accepted
  (`LostAlert`). If transport and random source work, a peer reads it behind everything sent before.
- `ParseMessage` compares the declared length with the low 32 bits of the input length; `RoundTrip`
  states the resulting condition, and `WrapRefuses` gives a case.
- The floor of 2048 bits for a DHE prime is counted over the bytes of its encoding, so that leading zeros
  count. `ShortPrimePasses` and `SevenPasses` give accepted primes below it; `FloorIff` says exactly which
  accepted parameters meet it: a byte in front of the last 256 is not zero, or the first of these has its
  top bit set.
- The bit-31 tests of CBC decryption are right for every payload of at most 2^31 bytes;
  `ExtractCBCPadding` and `OpenRecord` state the exact result beyond, and `WideRefused` gives a case. A padding length that leaves no room
  for the MAC is not refused but clamped; `ClampAgreesWithStrict` says exactly when that makes a
  difference, and `ClampDiffers` gives a case.

## Model

| member | source | states |
|---|---|---|
| Bytes.XorStreamSplit | internal/record/protection_gost.go:68-85 | combining data with a keystream in two chunks is the same as in one |
| Bytes.XorStreamInverse | internal/record/protection_gost.go:424 | applying a keystream twice at one position gives the data back |
| Bytes.XorByteBits | internal/record/protection_gost.go:74-79 | a bit of the exclusive or is set exactly if one of the two bits is |
| Bytes.FromBigEndianConcat | internal/handshake/wire.go:41-113 | big-endian order: the front of a string weighs 256 to the number of bytes behind it |
| Gost28147.MeshKey | internal/record/protection_gost.go:332-343 | encrypting the four blocks of the new key under the old one gives the RFC 4357 constant, byte by byte |
| Gost28147.MeshedKeyIff | internal/record/protection_gost.go:92-101 | the meshed key encrypts to the constant, and under a permutation no other key does |
| Gost28147.SectionKeys | internal/record/protection_gost.go:345-351 | the key in force at block 128(s+1) encrypts to the constant under the key in force at block 128s, for every s |
| Gost28147.KeyAtStep | internal/record/protection_gost.go:345-351 | the key in force changes exactly before blocks n > 0 with n % 128 = 0 |
| Gost28147.CountStep | internal/record/protection_gost.go:360 | count % 1024 + 8 follows the position within a section of 128 blocks |
| GostCnt.StepsClosedForm | internal/record/protection_gost.go:128-149 | after i steps the low word is a sum modulo 2^32, the high word a non-zero residue modulo 2^32 - 1 |
| GostCnt.StepsDistinct | internal/record/protection_gost.go:128-149 | counter blocks fewer than 128 steps apart differ, from the first step on |
| GostCnt.EndAroundAddIsResidue | internal/record/protection_gost.go:128-149 | the compare-and-increment carry is addition of C2 among the non-zero residues modulo 2^32 - 1 |
| GostCnt.CounterStepWords | internal/record/protection_gost.go:128-149 | one step seen as two words |
| GostCnt.SectionIsSteps | internal/record/protection_gost.go:111-154 | within a section the counter is iterated from the block the section starts with |
| GostCnt.SameKeyInSection | internal/record/protection_gost.go:111-154 | one key per section of 128 blocks |
| GostCnt.SectionBlocksDistinct | internal/record/protection_gost.go:111-154 | within a meshing section no counter block and, with an invertible cipher, no gamma block repeats |
| GostCnt.SectionKeystream | internal/record/protection_gost.go:92-154 | keystream block i of section s, decrypted under the key of the section, is the counter i + 1 steps behind the seed of the section, both words in closed form; the seed is the encryption under that key of the counter decrypted from the block before, or of the initial value |
| GostCnt.NextStateAt | internal/record/protection_gost.go:111-154 | one gamma step moves every field from block n - 1 of the recursive definition to block n; the IV is encrypted at block 0 only, meshing happens at every 128th |
| GostCnt.Cnt.constructor | internal/record/protection_gost.go:61-66 | the initial state is that of keystream position 0 |
| GostCnt.Cnt.Mesh | internal/record/protection_gost.go:92-109 | the new key encrypts to the RFC 4357 constant under the old one, and the counter is re-encrypted under the new key |
| GostCnt.Cnt.StepCounter | internal/record/protection_gost.go:128-149 | the two word additions with end-around carry compute the counter step |
| GostCnt.Cnt.NextGamma | internal/record/protection_gost.go:111-154 | the new fields are the specified gamma step of the old ones |
| GostCnt.Cnt.Drain | internal/record/protection_gost.go:74-79 | the inner loop uses consecutive gamma bytes until block or input ends, source and target possibly the same array |
| GostCnt.Cnt.XORBlock | internal/record/protection_gost.go:70-83 | one round of the outer loop yields keystream bytes at the right positions and keeps all fields those of the new position |
| GostCnt.Cnt.XORKeyStream | internal/record/protection_gost.go:68-85 | output is input XOR byte k % 8 of gamma block k / 8 from the current position on; the state is that of the advanced position; in place or not |
| GostImit.MeshDue | internal/record/protection_gost.go:348-360 | the count says exactly when the next block needs a meshed key |
| GostImit.FinalBlock | internal/record/protection_gost.go:297-302 | processing the zero-padded pending bytes gives the one-shot code of everything written |
| GostImit.FirstBlocks | internal/record/protection_gost.go:251-330 | the code of no block, of one block and of two, written out |
| GostImit.EngineAgreement | internal/record/protection_gost.go:291-308 | the tag equals the engine's rule, as the comment gives it, for every cipher and key exactly on inputs other than 1 to 8 bytes long |
| GostImit.EngineDiffers | internal/record/protection_gost.go:291-308 | a cipher that tells the code and the rule apart on 1 to 8 bytes |
| GostImit.PaddingMatters | internal/record/protection_gost.go:3-16 | if the bytes so far do not fill a block, whatever comes next, some cipher gives another tag when their padding stays in the state |
| GostImit.KeptPaddingAgreement | internal/record/protection_gost.go:238-251 | the two agree for every cipher and key exactly if the bytes so far fill whole blocks |
| GostImit.Imit.constructor | internal/record/protection_gost.go:190-192 | the initial state is that of no bytes written |
| GostImit.Imit.ProcessBlockMesh | internal/record/protection_gost.go:348-361 | advances chaining value, key and count by one block of the whole input |
| GostImit.Imit.FillBuffer | internal/record/protection_gost.go:202-224 | completes the pending block and defers it while no data follows |
| GostImit.Imit.AbsorbBlocks | internal/record/protection_gost.go:226-231 | whole blocks are processed in order, and 1 to 8 bytes are left |
| GostImit.Imit.Write | internal/record/protection_gost.go:199-237 | chaining value, key, count and pending 1 to 8 bytes become a function of all bytes written, however divided over calls |
| GostImit.Imit.ProcessSnap | internal/record/protection_gost.go:261-289 | one block on a snapshot, under a locally meshed key if due |
| GostImit.Imit.Finalize | internal/record/protection_gost.go:251-314 | the tag is the one-shot meshed code of everything written; no field changes; the trailing branch is dead |
| GostProtector.OpenSealed | internal/record/protection_gost.go:408-436 | a receiver in the sender's state gets the plaintext and reaches the sender's new state |
| GostProtector.SealedParts | internal/record/protection_gost.go:408-448 | under the keystream stand the plaintext and the code of everything authenticated so far, this header and plaintext last; both streams advance by just that |
| GostProtector.OpenedIsSealed | internal/record/protection_gost.go:418-436 | a fragment that opens is the sealed form of its plaintext |
| GostProtector.RunRoundTrip | internal/record/protection_gost.go:408-448 | any list of records opens in order to the plaintexts, both ends in the same state |
| GostProtector.CumulativeTag | internal/record/protection_gost.go:438-448 | the tag of a record is the one-shot code of the inputs of all records up to it, and the block count is then positive |
| GostProtector.PaddingInvisibleIff | internal/record/protection_gost.go:3-16 | for every run: keeping the padding changes no tag under any cipher and key exactly if every record starts on a block boundary |
| GostProtector.SecondRecordDiffers | internal/record/protection_gost.go:438-448 | a run of two empty records whose second tag it changes |
| GostProtector.Gost28147Protector.constructor | internal/record/protection_gost.go:388-405 | a fresh protector starts at position 0 with nothing authenticated |
| GostProtector.NewGost28147Protector | internal/record/protection_gost.go:372-406 | refuses exactly keys and IVs of the wrong length |
| GostProtector.Gost28147Protector.ComputeMac | internal/record/protection_gost.go:438-448 | authenticates the 13-byte header and the plaintext on top of everything before |
| GostProtector.Gost28147Protector.SealRecord | internal/record/protection_gost.go:408-416 | fragment and new state are the specified seal |
| GostProtector.Gost28147Protector.OpenRecord | internal/record/protection_gost.go:418-436 | result and new state are the specified open; a short fragment changes nothing, a bad tag still advances both streams |
| MacData.AdditionalDataInjective | internal/record/protection.go:110-118 | the 13 bytes determine sequence number, type, version and length |
| MacData.HeaderIff | internal/record/protection.go:110-118 | bytes 0 to 7 decode to the number, 8 is the type, 9 and 10 are the version, 11 and 12 decode to the length modulo 2^16; no other 13 bytes do |
| CbcPadding.NotSignMaskOfDifference | internal/record/protection.go:264-274 | the shifted complement of an unsigned difference is 0xff exactly when it is non-negative with bit 31 clear |
| CbcPadding.ClearDifferenceKeepsAllOnes | internal/record/protection.go:277 | the mask stays all ones exactly when the byte is outside the padding or equals its length |
| CbcPadding.FoldBitsIsAllOnes | internal/record/protection.go:281-285 | folding maps 0xff to 0xff and everything else to 0x00 |
| CbcPadding.CheckByte | internal/record/protection.go:271-278 | one round of the scan keeps 0xff iff byte i is outside the padding or right |
| CbcPadding.ExtractCBCPadding | internal/record/protection.go:258-288 | removes padLen + 1 bytes; the mask is 0xff exactly for well-formed padding whose distance has bit 31 clear, else 0x00; for at most 2^31 bytes exactly for well-formed padding |
| CbcPadding.WideRefused | internal/record/protection.go:258-288 | well-formed padding of 2^31 + 1 bytes that is refused |
| CbcProtector.CbcInverse | internal/record/protection.go:156-186 | CBC decryption inverts CBC encryption for every IV and whole number of blocks |
| CbcProtector.CbcNext | internal/record/protection.go:156-160 | each further block is combined with the ciphertext block before it, or the IV, and then encrypted |
| CbcProtector.CbcNextDecrypted | internal/record/protection.go:182-186 | each further block is decrypted and then combined with the ciphertext block before it, or the IV |
| CbcProtector.PaddedBodyShape | internal/record/protection.go:128-143 | 1 to blockSize padding bytes plus the length byte, a block multiple, well formed |
| CbcProtector.OpenSealed | internal/record/protection.go:122-217 | opening a sealed fragment under the same number, type and version gives the plaintext |
| CbcProtector.SealedParts | internal/record/protection.go:122-163 | a fragment is the IV and, encrypted, the plaintext, the HMAC of header and plaintext, and padding bytes that each count the others |
| CbcProtector.OpenedShape | internal/record/protection.go:199-216 | a fragment accepted without overlap decrypts to plaintext, MAC and padding only |
| CbcProtector.ClampAgreesWithStrict | internal/record/protection.go:201-211 | clamped and strict decryption differ exactly when overlong well-formed padding overlaps the MAC of the empty content |
| CbcProtector.ClampDiffers | internal/record/protection.go:201-211 | a suite and a fragment on which they differ |
| CbcProtector.ClampInBounds | internal/record/protection.go:203-204 | the selected length is 0 if the raw length is negative or has bit 31 set, else the raw length |
| CbcProtector.ComputeMac | internal/record/protection.go:226-238 | the MAC does not depend on the extra bytes |
| CbcProtector.BuildBody | internal/record/protection.go:128-143 | the buffer is content followed by equal padding bytes |
| CbcProtector.SealRecord | internal/record/protection.go:122-163 | explicit IV and encrypted padded body, or no fragment exactly if the random source fails |
| CbcProtector.CheckDecrypted | internal/record/protection.go:199-216 | the exact decision of the branch-free checks for every length, bit 31 of the distances included |
| CbcProtector.OpenRecord | internal/record/protection.go:168-217 | the exact result for every fragment, which is the branching statement up to 2^31 bytes |
| CbcProtector.NarrowIsPlain | internal/record/protection.go:199-216 | bit 31 plays no part up to 2^31 bytes |
| Aead.GcmOpenSealed | internal/record/protection.go:338-374 | AES-GCM round trip with the explicit nonce |
| Aead.GcmParts | internal/record/protection.go:338-353 | the fragment starts with the number, followed by the plaintext sealed under salt and number, the header alone as additional data |
| Aead.GcmOpensIff | internal/record/protection.go:355-374 | a fragment opens exactly if its ciphertext opens under salt and wire nonce with the header of the expected number |
| Aead.GcmNonceInjective | internal/record/protection.go:377-383 | the nonce determines the number |
| Aead.BuildChaChaNonce | internal/record/protection_chacha20.go:79-89 | the loop computes IV XOR left-padded sequence number |
| Aead.ChaChaNonceInjective | internal/record/protection_chacha20.go:79-89 | the nonce determines the number |
| Aead.ChaChaOpenSealed | internal/record/protection_chacha20.go:52-76 | ChaCha20-Poly1305 round trip |
| Aead.ChaChaParts | internal/record/protection_chacha20.go:52-89 | the plaintext is sealed under a nonce that combined with the IV is four zeros and the number, the header alone as additional data |
| Aead.ChaChaOpensIff | internal/record/protection_chacha20.go:60-76 | a fragment opens exactly if it does under the nonce and the header of the expected number |
| CtrOmac.AdjustIV | internal/record/protection_ctromac_gost.go:297-319 | the carry loop yields (origIV + seq) mod 256^k big-endian, then zeros |
| CtrOmac.CarryStep | internal/record/protection_ctromac_gost.go:297-319 | one byte addition with carry keeps the big-endian sum |
| CtrOmac.CarryByte | internal/record/protection_ctromac_gost.go:297-319 | one round of the loop keeps the partial sum with its carry |
| CtrOmac.CounterRepeats | internal/record/protection_ctromac_gost.go:297-319 | two records share a counter exactly when their numbers agree modulo 256^k |
| CtrOmac.CounterUniqueInWindow | internal/record/protection_ctromac_gost.go:297-319 | no counter repeats within any window of 256^k records |
| CtrOmac.OpenSealed | internal/record/protection_ctromac_gost.go:172-280 | CTR-OMAC round trip |
| CtrOmac.SealedParts | internal/record/protection_ctromac_gost.go:172-230 | under the keystream of initial value plus number stand the plaintext and the OMAC of header and plaintext |
| CtrOmac.OpenedIsSealed | internal/record/protection_ctromac_gost.go:234-280 | a fragment that opens is the sealed form of its plaintext |
| RecordLayer.OpenSealed | internal/record/protection.go:40-43 | every protector opens what it sealed and both ends advance alike |
| RecordLayer.SealBound | internal/record/record.go:141-165 | no protector adds more than 2048 bytes |
| RecordLayer.WireFields | internal/record/record.go:136-178 | type, version 3.3 and length in front of the payload sealed under the current number; refused exactly if type, size or number is out of range |
| RecordLayer.ReadIff | internal/record/record.go:183-239 | a record is accepted exactly if its header is in range, it has arrived whole, and it opens to at most 2^14 bytes |
| RecordLayer.ReadRefused | internal/record/record.go:183-239 | which error a refused record gives, in order of precedence |
| RecordLayer.ReadWritten | internal/record/record.go:136-239 | a written record is read back whatever follows it, fits the 16-bit length and the read limit, and leaves both ends in the same state |
| RecordLayer.RunRoundTrip | internal/record/record.go:122-239 | for any run of writes and swaps a mirroring reader recovers exactly the records and ends in the writer's state |
| RecordLayer.WriterRunSnoc | internal/record/record.go:122-178 | a run goes on by one more write or swap where it stands |
| RecordLayer.ReadBack | internal/record/record.go:122-239 | what a run wrote can be read by an end that knows only types, payloads and swaps |
| RecordLayer.SequenceNumbers | internal/record/record.go:122-178 | the sequence number counts the records since the last swap |
| RecordLayer.Layer.constructor | internal/record/record.go:101-118 | both directions start unprotected at the given number, 0 in NewLayer |
| RecordLayer.Layer.ChangeCipherSpec | internal/record/record.go:122-132 | a given direction gets its protector and restarts at 0, the other is untouched |
| RecordLayer.Layer.WriteRecord | internal/record/record.go:136-178 | refusals and a failing random source change nothing; success appends the record and advances; a transport failure writes a prefix, uses up protector state and keeps the number |
| RecordLayer.Layer.ReadRecord | internal/record/record.go:183-239 | result, error, bytes consumed and new state for every input, failures included; payloads are of known type and at most 2^14 bytes |
| RecordAttempts.NumberAt | internal/record/record.go:136-178 | a seal uses the first number plus the records taken before it, whatever the transport breaks off |
| RecordAttempts.NumbersRepeatIff | internal/record/record.go:136-178 | two seals under one protector use the same number exactly if the first failed and no record was taken between them |
| RecordAttempts.NoncesRepeatIff | internal/record/record.go:136-178 | the same for the nonces of GCM and ChaCha20-Poly1305 |
| RecordAttempts.NoFailureNoRepeat | internal/record/record.go:136-178 | without a failure of the transport no nonce of an epoch repeats |
| RecordAttempts.WriteAttempts | internal/record/record.go:136-178 | a run of writes on the layer object leaves the state and reports the errors of that description |
| RecordAttempts.NonceTwice | internal/record/record.go:162-175 | a write broken off behind its nonce, and another: the same nonce bytes on the wire |
| Wire.ReadUint16Printed | internal/handshake/wire.go:41-123 | a printed uint16 reads back |
| Wire.ReadPrefixedPrinted | internal/handshake/wire.go:61-142 | a printed length-prefixed field reads back if its length fits |
| Wire.ReadPrefixedIsPrinted | internal/handshake/wire.go:61-113 | whatever is read is exactly what the printer writes |
| Wire.DecodeEncodedPairs | internal/handshake/extensions.go:209-247 | a printed list of pairs decodes to the list |
| Wire.DecodePairsLoop | internal/handshake/extensions.go:226-233 | the loop decodes every pair |
| Wire.EncodePairsLoop | internal/handshake/extensions.go:237-247 | the loop prints every pair in order |
| Wire.ReadVectorPrinted | internal/handshake/messages.go:343-371 | a printed list of length-prefixed entries reads back |
| Wire.ReadVectorIsPrinted | internal/handshake/messages.go:356-368 | an accepted list is the printed form of its entries |
| Wire.VectorAt | internal/handshake/messages.go:323-371 | a list of length-prefixed entries, by the position of every length and entry, both directions |
| Wire.ReadVectorLoop | internal/handshake/messages.go:356-368 | the loop accepts and returns what the recursive reader does |
| Wire.VectorLoop | internal/handshake/messages.go:323-340 | the loop prints every entry in order |
| Extensions.ParsePrinted | internal/handshake/extensions.go:67-131 | a printed list of distinct extensions is stored one by one and its types reported in order |
| Extensions.StorePieces | internal/handshake/extensions.go:377-419 | storing the canonical pieces gives the extensions back |
| Extensions.PrintedSize | internal/handshake/extensions.go:377-419 | size of the canonical list, field by field |
| Extensions.ParseMarshalled | internal/handshake/extensions.go:377-419 | the canonical list parses to the same extensions |
| Extensions.LastNameBound | internal/handshake/extensions.go:164-187 | the name kept takes at least three bytes more in the list |
| Extensions.SetExtGrowth | internal/handshake/extensions.go:102-123 | an extension re-encodes in at most the bytes it took |
| Extensions.ParsedGrowth | internal/handshake/extensions.go:67-131 | a parsed list re-encodes in at most its own bytes more than what was there before |
| Extensions.ReparseExtensions | internal/handshake/extensions.go:67-131 | accepted extensions re-encode in no more bytes and parse to the same value |
| Extensions.ParseServerNameLoop | internal/handshake/extensions.go:142-190 | empty body accepted, every entry a host name, the last one kept |
| Extensions.NamesPrinted | internal/handshake/extensions.go:142-190 | a printed list of host names reads back |
| Extensions.LastNameOf | internal/handshake/extensions.go:164-187 | the name kept is the last of the list |
| Extensions.OneEntryIff | internal/handshake/extensions.go:164-187 | at most one name exactly if the first entry fills the list |
| Extensions.KeptIsFirst | internal/handshake/extensions.go:141-190 | the name kept is the first exactly if the list has at most one entry or its last repeats its first; for distinct names, exactly one entry |
| Extensions.SecondNameKept | internal/handshake/extensions.go:141-190 | a list of two names of which the second is kept |
| Extensions.ParseExtensionsLoop | internal/handshake/extensions.go:67-131 | the cursor loop equals the recursive parser, duplicates and unknown types refused |
| Messages.ParsedType | internal/handshake/types.go:106-136 | the dispatch never confuses message types |
| Messages.ParseExtBlockPrinted | internal/handshake/messages.go:156-177 | the optional extension block round trip, absent when empty |
| Messages.ParseClientHelloPrinted | internal/handshake/messages.go:44-180 | in-range ClientHellos round trip |
| Messages.ParseServerHelloPrinted | internal/handshake/messages.go:203-305 | ServerHellos round trip up to the recomputed extension types |
| Messages.ParseCertificatePrinted | internal/handshake/messages.go:323-371 | certificate lists round trip |
| Messages.CertificateIsPrinted | internal/handshake/messages.go:343-371 | an accepted body is the printed form of its certificates |
| Messages.ParseCertificateVerifyPrinted | internal/handshake/messages.go:526-563 | round trip, with any bytes behind the signature ignored |
| Messages.ParseCertificateRequestPrinted | internal/handshake/messages.go:443-499 | every well-formed request is accepted with its value |
| Messages.CertificateRequestIsPrinted | internal/handshake/messages.go:443-499 | an accepted request is the printed form of its value |
| Messages.ParseBodyPrinted | internal/handshake/types.go:106-136 | every in-range body with a printer round trips |
| Layout.EnvelopeIff | internal/handshake/types.go:70-79 | type, 3-byte length and body by position, and nothing else is an envelope |
| Layout.MessageAt | internal/handshake/types.go:17-79 | the type byte of every kind of message |
| Messages.ParseEnvelope | internal/handshake/types.go:84-136 | an envelope opens to its body and the rest, exactly unless the length comparison wraps |
| Messages.RoundTrip | internal/handshake/types.go:70-136 | ParseMessage of a printed message and any rest gives the message and the rest, with the exact wrap condition |
| Messages.WrapRefuses | internal/handshake/types.go:94-96 | a Finished in front of 2^32 - 12 bytes is refused |
| Messages.ExtBlockShrinks | internal/handshake/messages.go:156-177 | an accepted extension block re-encodes in no more bytes, and has at most 2 + 65535 |
| Messages.ClientHelloParts | internal/handshake/messages.go:83-180 | an accepted body is the printed fields of its value in front of an accepted extension block |
| Messages.ReparseClientHello | internal/handshake/messages.go:83-180 | every accepted ClientHello is in range, re-encodes in no more bytes and parses to the same value |
| Messages.ServerHelloParts | internal/handshake/messages.go:227-305 | an accepted ServerHello is its fields in front of an accepted extension block without a host name |
| Layout.ClientHelloIff | internal/handshake/messages.go:83-180 | a body is accepted as a ClientHello exactly if version, random, session id, suites, compressions and extension block stand at their places |
| Layout.ServerHelloIff | internal/handshake/messages.go:227-305 | the same of a ServerHello, its suite before its compression |
| Layout.PrintedHello | internal/handshake/messages.go:44-220 | the printed hellos have that layout, and no other strings do |
| Layout.ExtensionsIff | internal/handshake/extensions.go:193-419 | the printed list by position: for each extension its type, lengths and contents, in ascending order of types; no other string has this layout |
| Layout.BlockIff | internal/handshake/extensions.go:377-419 | no extensions give nothing, others a length and the list |
| Layout.ExtensionListIff | internal/handshake/extensions.go:67-131 | a list is accepted exactly if it is cut into pieces with no type twice that can be stored one after the other |
| Layout.UnderstoodIff | internal/handshake/extensions.go:102-347 | which types are understood and which bodies each of them accepts |
| Layout.StoreIff | internal/handshake/extensions.go:95-125 | pieces can be stored exactly if each of them is understood |
| Layout.ExtBlockIff | internal/handshake/messages.go:156-177 | the optional block of a hello: absent, or a length and such a list to the end |
| Layout.CertificateIff | internal/handshake/messages.go:343-371 | a Certificate is accepted exactly if list length, and length and contents of every certificate, stand at their places and none is empty |
| Layout.CertificateVerifyIff | internal/handshake/messages.go:526-563 | hash before signature algorithm, length, signature: accepted exactly so with anything behind, printed exactly so with nothing behind |
| Layout.CertificateRequestIff | internal/handshake/messages.go:443-499 | types, algorithms and authorities by position, accepted exactly so |
| Transcript.AppendAllIsConcatenation | internal/handshake/transcript.go:50-58 | overflow exactly when all writes together exceed the cap, else the buffer is their concatenation |
| Transcript.Transcript.constructor | internal/handshake/transcript.go:40-42 | empty and not overflowed |
| Transcript.Transcript.Write | internal/handshake/transcript.go:50-58 | appends, or marks the overflow for good and drops the message |
| Transcript.Transcript.Sum | internal/handshake/transcript.go:70-83 | hashes the whole buffer; fails without a hash and after overflow |
| Reassembly.FrontIsStable | internal/handshake/client.go:1232-1246 | more bytes do not change a decided front message |
| Reassembly.FrontIsEnvelope | internal/handshake/client.go:1300-1311 | rebuilding the envelope of a message gives back its bytes on the wire |
| Reassembly.FrontOfEnvelope | internal/handshake/client.go:1232-1246 | an envelope in front of any bytes is found whole |
| Reassembly.FrontIff | internal/handshake/client.go:1232-1246 | a message is found exactly if type, a length of at most 2^18 and the body stand in front; a larger length is refused once it is read |
| Reassembly.IncompleteBound | internal/handshake/client.go:1232-1246 | a buffer still waiting for bytes is below 4 + 2^18 |
| Reassembly.NextIsFrontOfStream | internal/handshake/client.go:1227-1286 | a call finds the first message of the undivided stream and leaves the records behind it; without one it goes on behind the records |
| Reassembly.ReadManyIsDeframe | internal/handshake/client.go:1227-1286 | successive calls return the messages of the stream, under whatever protector its records came |
| Reassembly.FragmentationIndependence | internal/handshake/client.go:1227-1286 | two ways to cut a stream into records, even under different protectors, give the same messages and the same end |
| Reassembly.NextReads | internal/handshake/client.go:1227-1298 | a call takes exactly the records up to the one that completes its message |
| Reassembly.SuppliedIsTaken | internal/handshake/client.go:1227-1298 | records that hold given messages, empty ones between them included, are taken as these messages |
| Reassembly.TakenIsSupplied | internal/handshake/client.go:1227-1298 | messages that were taken came in such records |
| Reassembly.WritesAreRead | internal/handshake/client.go:1227-1298 | handshake records written by a peer are read with their payloads |
| KeySchedule.PHash | internal/suites/prf.go:24-41 | terminates with the first outLen bytes of the unbounded stream |
| KeySchedule.AppendBlock | internal/suites/prf.go:24-41 | one more block extends the prefix of the stream |
| KeySchedule.ShorterIsPrefix | internal/suites/prf.go:24-41 | shorter outputs are prefixes of longer ones |
| KeySchedule.FirstBlocks | internal/suites/prf.go:24-41 | the first two blocks of the stream, written out |
| KeySchedule.ComputePRF | internal/suites/prf.go:52-67 | fails exactly on an empty label or a request for no bytes, else byte k is byte k of the stream for label and seed |
| KeySchedule.DeriveMasterSecret | internal/suites/keyschedule.go:34-44 | 48 bytes of the stream for the label, the client random and the server random, exactly for 32-byte randoms |
| KeySchedule.DeriveVerifyData | internal/suites/keyschedule.go:164-171 | 12 bytes, or 32 for the GOST 2018 exchange, of the stream for label and digest |
| KeySchedule.LabelsSeparate | internal/suites/keyschedule.go:34-171 | uses of the function with different labels never share a seed |
| KeySchedule.Labels | internal/suites/keyschedule.go:34-171 | the labels are the ASCII strings of RFC 5246 |
| KeySchedule.PartitionSizes | internal/suites/keyschedule.go:64-80 | sizes of the six pieces; only AEAD suites and the three GOST stream modes draw IVs |
| KeySchedule.PartitionUnique | internal/suites/keyschedule.go:116-145 | sizes and concatenation determine the six pieces |
| KeySchedule.SlicesPartition | internal/suites/keyschedule.go:116-145 | the six slices concatenate to the block |
| KeySchedule.KeyExpansion | internal/suites/keyschedule.go:92-146 | exact error cases; the six pieces concatenate to the key block in order with the suite's sizes; every piece by its position in the stream for the server's and then the client's random |
| KeySchedule.ExpandKeys | internal/handshake/client.go:1149-1189 | for 32-byte randoms, fails exactly when the key block is empty, else the same partition; CBC suites take no IV from the block; every piece by its position in the stream for the server's and then the client's random |
| KeySchedule.ExpandKeysManual | internal/handshake/client.go:1315-1369 | fails exactly when no bytes are asked for; else the six pieces, with the given IV length, concatenate to the key block of the two randoms, each by its position in the stream |
| KeySchedule.TakePair | internal/suites/keyschedule.go:119-143 | the client and the server piece are consecutive |
| KeySchedule.ExpansionsAgree | internal/handshake/client.go:1149-1189 | both copies give the same key material for every suite and 32-byte randoms |
| Dhe.SharedSecret | internal/ke/dhe.go:140-151 | (g^y mod p)^x and (g^x mod p)^y agree modulo p |
| Dhe.ParsePrintedParams | internal/ke/dhe.go:169-191 | printed parameters parse back with nothing left over |
| Dhe.CutIsParsed | internal/handshake/client.go:821-844 | whatever the skipping parser cuts off the strict parser accepts completely |
| Dhe.CutPrinted | internal/handshake/client.go:821-844 | printed DHE parameters are cut off in front of anything |
| Dhe.ParamsIff | internal/ke/dhe.go:169-191 | parameters parse exactly if prime, generator and public value stand behind their lengths in this order, with nothing left over |
| Dhe.ModExpValue | internal/ke/dhe.go:262-292 | the result for a base that the library takes decodes to the power modulo p and is no longer than p |
| Dhe.LeftPad | internal/ke/dhe.go:296-305 | zeros in front up to the length, longer inputs unchanged |
| Dhe.PaddingKeepsValue | internal/ke/dhe.go:296-305 | padding keeps the number |
| Dhe.Validate | internal/ke/dhe.go:215-252 | accepts exactly the valid parameters |
| Dhe.ValidIff | internal/ke/dhe.go:215-252 | in numbers: at least 256 bytes, p odd, g at least 2, public value strictly between 1 and p - 1 |
| Dhe.FillsBytesIff | internal/ke/dhe.go:215-221 | an encoding has at least 8k bits exactly if a byte before its last k is not zero or the first of these has its top bit set |
| Dhe.FloorIff | internal/ke/dhe.go:63-221 | accepted parameters have a prime of 2048 bits exactly if its encoding fills 256 bytes |
| Dhe.ShortPrimePasses | internal/ke/dhe.go:215-252 | every odd number from 5 on that fits 256 bytes is accepted as a prime if padded to them |
| Dhe.SevenPasses | internal/ke/dhe.go:215-252 | an accepted prime of three bits |
| Dhe.ClientKeyExchange | internal/ke/dhe.go:113-165 | fails exactly if the parameters are malformed or invalid, no exponent can be drawn, or the library refuses modulus or base; else public value and secret are the powers modulo p, both exactly as long as p |
| Dhe.Agreement | internal/ke/dhe.go:113-165 | for Ys = g^y mod p the padded secret is the client's public value to the power y |
| ClientSpec.CompletedFlow | internal/handshake/client.go:219-419 | the messages received and sent in a completed run, in order |
| ClientSpec.CompletedAuthentication | internal/handshake/client.go:1018-1146 | a Certificate iff requested, with the configured one or none; CertificateVerify iff it was not empty, with an advertised and supported algorithm that fits the key, kind by kind |
| ClientSpec.CompletedDhe | internal/handshake/client.go:821-890 | the signed parameters of a completed DHE run are exactly the printed form of what the key exchange parses |
| ClientChecks.SkeParamsIff | internal/handshake/client.go:707-890 | a ServerKeyExchange yields parameters exactly if they stand in front of an advertised algorithm of the suite's kind of key and a signature that verifies over both randoms and the parameters, for DHE and ECDHE |
| ClientChecks.CompletedSignature | internal/handshake/client.go:707-890 | a completed run over DHE or ECDHE used parameters signed so |
| ClientChecks.ServerHelloChoiceIff | internal/handshake/client.go:463-541 | a ServerHello is taken exactly if, by position, it picks version 3.3, an offered and known suite and no compression, and its extensions are distinct, understood, offered and without a host name |
| ClientChecks.ChainOfIff | internal/handshake/client.go:544-588 | a Certificate is taken exactly if it lists, by position, a non-empty accepted chain |
| ClientChecks.CompletedServerHello | internal/handshake/client.go:463-588 | a completed run has accepted both |
| ClientChecks.OwnHello | internal/handshake/client.go:422-452 | every byte of the client's own hello by position |
| ClientChecks.CompletedTranscript | internal/handshake/client.go:219-419 | what CertificateVerify and both Finished messages cover: every message with its envelope, in order, written out |
| ClientChecks.CompletedKeys | internal/handshake/client.go:249-262 | every byte of the master secret and of the six keys; the client's keys protect what is sent |
| ClientChecks.CompletedCertificateVerify | internal/handshake/client.go:1105-1146 | the signature is over the digest of all messages before it |
| ClientChecks.CompletedFinished | internal/handshake/client.go:310-408 | every byte of both Finished values |
| ClientChecks.CompletedRecords | internal/handshake/client.go:284-328 | the records sent: one message each, the byte 1 as ChangeCipherSpec, and the new protector exactly between it and Finished |
| ClientChecks.AlertRecord | internal/handshake/client.go:1207-1213 | an alert goes out with level 2 in a record of type 21 |
| ClientSpec.ArrivesIsTaken | internal/handshake/client.go:219-419 | a run that arrives in records is taken message by message |
| ClientSpec.TakenArrives | internal/handshake/client.go:219-419 | and the other way round |
| ClientSpec.CcsIsRead | internal/handshake/client.go:352-369 | a ChangeCipherSpec written by the peer is read, and the records behind it with the new protector |
| ClientSpec.ConformingServer | internal/handshake/client.go:219-419 | a server that writes the messages of a run in any records, a ChangeCipherSpec, and under the new protector the Finished and anything else, makes the run arrive |
| ClientFeasible.SomeGoodRun | internal/handshake/client.go:219-419 | an environment that works as documented, with protectors for keys of the suite's sizes only, has a good RSA run without local failure |
| ClientFeasible.Feasible | internal/handshake/client.go:219-419 | and there are bytes that make it arrive |
| ClientFeasible.SomeAuthenticatedRun | internal/handshake/client.go:219-419 | and, with a signed ServerKeyExchange, a CertificateRequest and a CertificateVerify, a good DHE run |
| ClientFeasible.FeasibleAuthenticated | internal/handshake/client.go:219-419 | which bytes make arrive as well |
| ClientHandshake.ParseEnveloped | internal/handshake/client.go:382-385 | parsing a rebuilt envelope parses the body |
| ClientHandshake.Client.constructor | internal/handshake/client.go:208-214 | nothing sent, received or hashed yet, on an unused record layer |
| ClientHandshake.Client.WriteRecord | internal/record/record.go:136-178 | a record goes out exactly if type, size, number, random source and transport allow it; the bytes written grow by exactly those taken, and stay those of the trace |
| ClientHandshake.Client.Fatal | internal/handshake/client.go:1207-1213 | an alert is attempted: exactly the bytes the transport takes of its record are written, and if it is accepted the bytes written stay those of the trace |
| ClientHandshake.Client.WriteTranscript | internal/handshake/client.go:1301-1311 | the transcript catches up with the last message |
| ClientHandshake.Client.SendMessage | internal/handshake/client.go:284-292 | a message is logged and hashed exactly if its record goes out; it does if nothing fails |
| ClientHandshake.Client.ReadHandshakeRecord | internal/handshake/client.go:1227-1298 | result, buffer and state of the record layer are those of the reassembly function; the buffer stays below 4 + 2^18 + 2^14 and, after a message, below 2^14 |
| ClientHandshake.Client.Expect | internal/handshake/client.go:464-477 | succeeds exactly if the next message has the type and parses; on refusal the alert by what was wrong |
| ClientHandshake.Client.SendClientHello | internal/handshake/client.go:422-460 | the hello with the drawn random goes out exactly if a random can be drawn, it fits a record, and the transport takes it |
| ClientHandshake.Client.RecvServerHello | internal/handshake/client.go:463-541 | accepts exactly an acceptable ServerHello that comes next, and takes its suite and random; on refusal the alert by what was wrong |
| ClientHandshake.Client.RecvCertificate | internal/handshake/client.go:544-588 | accepts exactly a non-empty verified chain that comes next; on refusal the alert by what was wrong |
| ClientHandshake.Client.VerifyServerKeyExchange | internal/handshake/client.go:707-890 | the parameters exactly if signed over both randoms with an advertised algorithm of the suite's kind; on refusal the alert by what was wrong, with `Signed` both ways |
| ClientHandshake.Client.TakeServerKeyExchange | internal/handshake/client.go:620-638 | hashed, then verified |
| ClientHandshake.Client.TakeCertificateRequest | internal/handshake/client.go:645-659 | stored and hashed if it parses |
| ClientHandshake.Client.RecvServerFlight | internal/handshake/client.go:600-701 | ServerKeyExchange exactly for DHE and ECDHE, before an optional CertificateRequest, then ServerHelloDone; takes every such flight, and no more than it |
| ClientHandshake.Client.RecvFlightMessage | internal/handshake/client.go:604-684 | one message, taken exactly if it is allowed at this point and valid; on refusal the alert by what was wrong |
| ClientHandshake.Client.SelectClientSigAlg | internal/handshake/client.go:1018-1063 | the first advertised algorithm the server supports and the key can use, or none exists |
| ClientHandshake.PreferredOrNone | internal/handshake/client.go:1018-1063 | the preferred algorithm is unique, and excludes that none is usable |
| ClientHandshake.Client.SendClientCertificate | internal/handshake/client.go:1073-1097 | the configured certificate if an algorithm can be used, else an empty one |
| ClientHandshake.Client.AnswerRequest | internal/handshake/client.go:266-282 | a Certificate exactly if one was requested, with the preferred algorithm or empty |
| ClientHandshake.Client.SendCertificateVerify | internal/handshake/client.go:1105-1146 | signs the hash of everything before it |
| ClientHandshake.Client.FinishedValue | internal/handshake/client.go:311-319 | the Finished value of the whole handshake so far; fails exactly past the cap |
| ClientHandshake.Client.SendCcs | internal/handshake/client.go:303-308 | the given protector is installed right after the ChangeCipherSpec, numbering restarts, and reading is not affected |
| ClientHandshake.Client.ReceiveCcs | internal/handshake/client.go:354-369 | accepts exactly a ChangeCipherSpec record holding 1; the bytes behind it are read with the given protector; on refusal the alert by what was wrong |
| ClientHandshake.Client.ReceiveServerFinished | internal/handshake/client.go:352-419 | the server's Finished, read behind the ChangeCipherSpec with the new protector, matches everything before it and ends its record; every such Finished is accepted, whatever follows; on refusal the alert by what was wrong |
| ClientHandshake.Client.SendClientFlight | internal/handshake/client.go:266-300 | Certificate iff requested, ClientKeyExchange, CertificateVerify iff that Certificate was not empty |
| ClientHandshake.Client.GreetServer | internal/handshake/client.go:220-234 | ClientHello, ServerHello and Certificate, both directions |
| ClientHandshake.Client.ServerPhase | internal/handshake/client.go:220-242 | the first four steps as a whole, both directions, and exactly when nothing is sent |
| ClientHandshake.Client.KeyPhase | internal/handshake/client.go:244-262 | key exchange, master secret, the partition of the key block, and protectors from the client's keys for sending and the server's for receiving; succeeds exactly where these do; on refusal the alert by what was wrong |
| ClientHandshake.Client.ClientPhase | internal/handshake/client.go:244-300 | keys and client flight as a whole, both directions |
| ClientHandshake.Client.SendFinished | internal/handshake/client.go:302-328 | ChangeCipherSpec, the new protector and the Finished over everything before it |
| ClientHandshake.Client.FinishPhase | internal/handshake/client.go:302-341 | ChangeCipherSpec and Finished in both directions, no handshake bytes across the boundary |
| ClientHandshake.Client.ClearPhase | internal/handshake/client.go:220-300 | everything before the ChangeCipherSpecs, both directions |
| ClientHandshake.Client.RunHandshake | internal/handshake/client.go:219-346 | the whole handshake message by message, both directions |
| ClientHandshake.Client.AlertDecided | internal/handshake/client.go:1207-1213 | the alert is on the wire exactly if its record was accepted, and if nothing fails a peer reads it |
| ClientHandshake.Client.Handshake | internal/handshake/client.go:219-346 | success means exactly an allowed trace, every check passed, the ServerHello by position, the chain and a signature over the parameters among them, the messages arrived under the protectors installed, and a peer can read what was sent; every good run that arrives succeeds if nothing fails locally; on failure an alert is attempted except exactly when the ClientHello could not be sent, is on the wire exactly if its record is then accepted, and is read by a peer if transport and random source work |
| ClientHandshake.SilentFailure | internal/handshake/client.go:216-226 | without a random the handshake fails and no alert is attempted |
| ClientHandshake.LostAlert | internal/handshake/client.go:1207-1213 | the transport takes the ClientHello only: the handshake fails and its alert is not on the wire |
| ClientHandshake.ClearAccepts | internal/record/record.go:136-178 | an unprotected record goes out exactly if it fits and the transport has room for it and its header |
| ClientHandshake.UnfailingAccepts | internal/record/record.go:136-178 | under every protector a record of legal size goes out if transport and random source work |
| ClientHandshake.SyncedReads | internal/handshake/client.go:219-346 | the bytes written for a trace are read as its messages by an end that installs the same protectors |
| ConnInterleaving.StepKeepsInv | conn.go:111-297 | every step of every call keeps the invariant |
| ConnInterleaving.RunKeepsInv | conn.go:111-297 | so does every schedule |
| ConnInterleaving.ReachableInv | conn.go:111-297 | the invariant holds in every reachable state |
| ConnInterleaving.WritesNeverOverlap | conn.go:229-293 | no two calls are inside WriteRecord at once |
| ConnInterleaving.CloseNotifyIsLast | conn.go:277-297 | close_notify at most once, after a completed handshake, and no record follows it |
| ConnInterleaving.DataAfterHandshake | conn.go:111-126 | application data only after success, handshake records never after them |
| ConnInterleaving.CloseNeverWaits | conn.go:277-297 | whatever others hold, Close can take its next step, which brings it nearer to its end |
| ConnInterleaving.StepMovesOne | conn.go:111-297 | a step moves only the call that takes it |
| ConnInterleaving.CloseReturns | conn.go:258-297 | in every schedule, however others are interleaved, Close has returned after seven moves of its own, and until then can always move |
| ConnInterleaving.CloseSends | conn.go:277-297 | in every schedule, a Close that has returned wrote close_notify if it won the swap, found the handshake done at its load and the mutex free at its try-lock, and else wrote nothing |
| ConnInterleaving.CloseAloneNotifies | conn.go:277-297 | on an open and idle connection seven moves of Close alone end the log in close_notify |
| ConnInterleaving.WriteAdds | conn.go:229-256 | in every schedule, a Write behind the handshake begins only data, no more records than it has, and all of them if it finds the connection open and none fails |
| ConnInterleaving.OneHandshake | conn.go:111-126 | in every run all handshake records come from one call |
| ConnInterleaving.ClosedStaysSilent | conn.go:111-126 | on a connection closed before its handshake got under way nothing is ever written, whatever is called |
| ConnInterleaving.SomeoneMoves | conn.go:111-297 | no deadlock: in every reachable state, a call that has not returned or the one it waits for can take a step |
| ConnStream.FindData | conn.go:158-218 | at most 32 empty records and one more are taken, and data found is not empty |
| ConnStream.FoundBytes | conn.go:164-218 | the records taken hold exactly the payload found |
| ConnStream.ReadStepConserves | conn.go:130-219 | delivered and buffered bytes are the old buffer and the application bytes taken; errors are sticky and come with no data |
| ConnStream.RunConserves | conn.go:130-219 | the same over any run of reads of any sizes |
| ConnStream.ReadDecides | conn.go:158-218 | what a read makes of up to 32 empty records and the next one: data, end of stream, or which error |
| ConnStream.ReadGivesUp | conn.go:158-218 | the 33rd empty record in a row is an error |
| ConnStream.ChunksPartition | conn.go:236-253 | the records of a write concatenate to its input in pieces of 1 to 2^14 bytes |
| ConnStream.Conn.constructor | conn.go:97-107 | nothing read, buffered or sent yet |
| ConnStream.Conn.Close | conn.go:277-280 | the connection is marked closed |
| ConnStream.Conn.Fetch | conn.go:162-218 | the record loop finds what the recursive search does |
| ConnStream.Conn.Classify | conn.go:171-217 | what one record means for the search |
| ConnStream.Conn.Read | conn.go:135-219 | one read step on an open connection, nothing on a closed one; delivered plus buffered equals taken |
| ConnStream.Conn.Write | conn.go:229-256 | the chunks sent, the count and the failure for every point of failure; nothing when closed |
| ByteStream.AllChunksPartition | conn.go:236-253 | the records of a series of writes hold its bytes in order, none empty |
| ByteStream.ReadsDeliver | conn.go:130-219 | every read with room delivers a byte while one is left |
| ByteStream.EndToEnd | conn.go:130-256 | whatever is written in whatever pieces under any sound protector, and read with whatever buffers: the reader gets a prefix of the bytes written, and all of them after enough reads |

## Left out

- The internals of the cryptographic libraries: they are parameters with stated contracts.
- Timing: only the functional result of the constant-time code is modelled.
- X.509 parsing, chain verification and the peer-certificate callback: one accept-or-reject function.
- The ECDHE, RSA and GOST key exchanges: calls into libraries, one function of suite, chain and parameters.
- Suite tables and registry, dialer, deadlines, configuration loading, debug log: data and plumbing.
- Error texts: errors are distinguished only where control flow depends on them.
- Length checks of the AEAD and CTR-OMAC constructors: they would only add easy members.
- Protectors inside the record layer are values with explicit state, because the interface they
  implement has no counterpart here; the GOST object itself is a class proved against that value.
- The interleaving model takes a lock operation, an atomic access or a record write as one or two steps
  and does not model weak memory.
- ConnStream.Conn.Close: only marks the connection closed; the alert it sends and its races are in ConnInterleaving.
- RecordLayer.Layer.WriteRecord: a transport failure is a number of bytes accepted, and the failure of a cipher constructor inside Seal is not modelled, because the keys of a built protector have the right size.
- CbcProtector.SealRecord: does not model the failure of the cipher constructor, for the same reason.
- Dhe.ModExpValue: which moduli and bases the library refuses is a parameter, and that it reduces a base it takes is assumed as documented.
- The object of ConnStream works on the records that the layer delivers, as values; ByteStream joins these values to the records of the layer.
