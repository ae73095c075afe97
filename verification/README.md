# A model of OpenSSH 5.9p1 with CSBuFLO

This project models the parts of the repository that carry hard properties and
proves those properties for all inputs, all message sequences and all runs:

- **Buffers and the wire format** (`Buffers`, `Wire`): the growable byte queue of
  `buffer.c` and the fields put on and taken from it.
- **Channel flow control** (`Channels`, `FlowControl`, `FlowStreams`,
  `FlowProgress`; section 5.2 of RFC 4254): two ends of one channel, joined by
  FIFO links, as a step system. Safety, in-order delivery and progress.
- **J-PAKE** (`NumberTheory`, `Jpake`; section 2.2 of RFC 8236): the agreement
  theorem, with the Schnorr proofs.
- **User authentication** (`Userauth`, `UserauthSafety`, `UserauthSuccess`, `UserauthServer`,
  `UserauthLogin`;
  section 5 of RFC 4252): the server as a transition system over messages, with
  the J-PAKE and keyboard-interactive subprotocols and the dispatch table.
- **Key exchange** (`Kexinit`, `MatchList`, `KeyDerivation`, `Kex`, `KexNames`,
  `KexExchange`; sections 7.1 and 7.2 of RFC 4253): negotiation and key
  derivation at both ends.
- **The CRC compensation detector** (`Crc32Table`, `Crc32`, `Crc32Division`,
  `Deattack`, `Detector`).
- **Ciphers** (`CbcMode`, `CtrMode`, `AcssTables`, `Acss`): AES-CBC and AES-CTR
  over an arbitrary block function, and the ACSS stream cipher.
- **CIDR matching** (`AddrBits`, `AddrMatch`, `AddrOps`).
- **SOCKS requests** (`Socks`, `SocksExact`, `SocksDecoder`; RFC 1928).
- **The CSBuFLO transcript scheduler** (`Transcript`).

`Bytes` holds the byte type and big-endian numbers, `Octets` the exclusive or of
bytes.

Throughout, a pure module says what happens to the state, and a class or method
with loops and fields updated in place is proved to do just that. Where the
original calls fatal() a method returns false or `None`. What comes from outside
(random numbers, hashes, block ciphers, clocks, the password database, host name
parsing, tables of algorithms) is a parameter or part of an event.

Check everything with `dafny verify dfyconfig.toml`.

## Reading the results

- *Integers.* Window arithmetic is modulo 2^32 where the code uses `u_int`
  (`Channels`), and the wrap-around is proved not to happen. Buffer admission
  uses the 32-bit rounding of the code.
- *Failures are part of the claims.* Round trips, key agreement, the reopening of
  a window, mirrored negotiation, the failure limit, the J-PAKE login, the demand of a
  transcript, buffer admission and CIDR matching are stated
  as equivalences: the condition after "if and only if" is one a caller can check.
- *What the code does not guarantee.* A receiver that closes its output side while
  its whole window waits there unwritten never hands that window back
  (`FlowProgress.DeliveryAfterClosing`); negotiation fails if the first common name
  is not supported, even if a later one is (`KexNames.ClientPrefers`).
- *Where code and comments differ*, the code is followed: `jpake.c` says the
  exponent of step 2 is taken modulo p and takes it modulo q; `addrmatch.c`
  cuts the last byte off a 64-byte entry instead of refusing it
  (`AddrOps.WholeOrRefused`, `AddrOps.LongEntry`); the host name limit of SOCKS4A
  cannot be reached behind the search limit of 1024; the transcript scheduler asks
  for endless credit until the URL is acknowledged, but an acknowledgement left over
  from the page before counts as one (`Transcript.LateAcknowledgement`).

## Model

| member | source | states |
|---|---|---|
| `Buffers.AdmitsPredictsAppend` | modified_openssh-5.9p1/buffer.c:103-158 | for every offset, end and allocation and every 32-bit length, buffer_check_alloc and the append agree if and only if the length is at most BUFFER_MAX_CHUNK or the check says no |
| `Buffers.AdmitsPredictsAlways` | modified_openssh-5.9p1/buffer.c:103-158 | they agree in every state of the buffer if and only if the length is at most BUFFER_MAX_CHUNK, or at least BUFFER_MAX_LEN and below the first length whose 32-bit sums can wrap around, a range no state admits |
| `Buffers.AdmitsOversizedChunk` | modified_openssh-5.9p1/buffer.c:144-158 | past BUFFER_MAX_CHUNK they do not always agree: a concrete length that the check admits and the append refuses |
| `Buffers.SmallContentsFit` | modified_openssh-5.9p1/buffer.c:80-137 | however far offset and end have drifted, an append that leaves at most SAFE_CONTENTS bytes in the buffer is never fatal |
| `Buffers.FitsStep` | modified_openssh-5.9p1/buffer.c:116-136 | one compaction or one enlargement (or the failure of the size limit) of the restart loop leads to the fate predicted from the counters alone |
| `Buffers.FitsMonotone` | modified_openssh-5.9p1/buffer.c:103-137 | a shorter append fits wherever a longer one does |
| `Buffers.Buffer.constructor` | modified_openssh-5.9p1/buffer.c:33-43 | an empty buffer of 4096 bytes |
| `Buffers.Buffer.Clear` | modified_openssh-5.9p1/buffer.c:62-67 | the contents are dropped |
| `Buffers.Buffer.Compact` | modified_openssh-5.9p1/buffer.c:79-94 | contents are moved to the front exactly when offset exceeds the smaller of the allocation and the chunk limit, and never change |
| `Buffers.Buffer.MakeRoom` | modified_openssh-5.9p1/buffer.c:113-136 | the restart loop ends, keeps the contents, and leaves room exactly when the counters allow it |
| `Buffers.Buffer.AppendSpace` | modified_openssh-5.9p1/buffer.c:102-137 | succeeds exactly within the chunk limit and the size limit, and extends the contents by len bytes behind the old ones |
| `Buffers.Buffer.Append` | modified_openssh-5.9p1/buffer.c:71-77 | the data is added at the end of the queue, or nothing changes where the original is fatal |
| `Buffers.Buffer.CheckAlloc` | modified_openssh-5.9p1/buffer.c:143-158 | answers the admission question without changing contents or answer |
| `Buffers.Buffer.Get` | modified_openssh-5.9p1/buffer.c:170-181 | removes and returns the first len bytes, or changes nothing when there are fewer |
| `Buffers.Buffer.Consume` | modified_openssh-5.9p1/buffer.c:192-201 | drops bytes at the front, or nothing when there are fewer |
| `Buffers.Buffer.ConsumeEnd` | modified_openssh-5.9p1/buffer.c:212-219 | drops bytes at the end, or nothing when there are fewer |
| `Buffers.RunOps` | modified_openssh-5.9p1/buffer.c:71-219 | every sequence of operations behaves as on an unbounded byte queue, and is not fatal as long as the contents stay modest |
| `Wire.PutUint` | modified_openssh-5.9p1/bufaux.c:129-154 | appends the big-endian digits; not fatal while there is room |
| `Wire.PutString` | modified_openssh-5.9p1/bufaux.c:270-282 | appends length and bytes |
| `Wire.PutMpint` | modified_openssh-5.9p1/bufbn.c:142-178 | appends the mpint encoding of any non-negative integer |
| `Wire.GetUint` | modified_openssh-5.9p1/bufaux.c:58-124 | returns the integer at the front and leaves the rest, or fails and leaves all |
| `Wire.GetString` | modified_openssh-5.9p1/bufaux.c:164-193 | returns the string at the front if it is within 256 KiB and complete; on failure the length field is gone |
| `Wire.GetCstring` | modified_openssh-5.9p1/bufaux.c:205-226 | additionally refuses a NUL anywhere but at the end |
| `Wire.GetMpint` | modified_openssh-5.9p1/bufbn.c:187-216 | refuses a set sign bit and more than 8192 bytes, else returns the value |
| `Wire.MpintBodyValue` | modified_openssh-5.9p1/bufbn.c:142-216 | the body of an encoded integer reads back as that integer and never has its sign bit set |
| `Wire.MpintBodyMinimal` | modified_openssh-5.9p1/bufbn.c:142-178 | no shorter byte string with a clear sign bit denotes the same integer |
| `Wire.FieldRoundTrip` | modified_openssh-5.9p1/bufaux.c:58-316 | a field is read back exactly, with the following bytes untouched, if and only if it is within the reader's limits |
| `Wire.MessageRoundTrip` | modified_openssh-5.9p1/bufaux.c:129-282 | any sequence of puts is undone by the matching gets if and only if every field is within the limits |
| `Wire.CstringExact` | modified_openssh-5.9p1/bufaux.c:205-226 | a string of any bytes is taken as a C string if and only if it is within 256 KiB and has no NUL before its last byte |
| `Wire.MpintExact` | modified_openssh-5.9p1/bufbn.c:187-216 | an mpint of any bytes is taken if and only if it is within 8192 bytes and its sign bit is clear, and then is the number they denote |
| `Wire.MessageInjective` | modified_openssh-5.9p1/bufaux.c:270-282 | two messages of the same shape with the same bytes have the same fields, beyond the limits of the reader too |
| `Jpake.SchnorrComplete` | modified_openssh-5.9p1/schnorr.c:124-347 | an honest proof over any generator of the subgroup verifies, whatever random number it used |
| `Jpake.SchnorrAccepts` | modified_openssh-5.9p1/schnorr.c:255-347 | of a public value with a known logarithm exactly the proofs are accepted whose commitment is g to the power r + xh, for a value other than 1 |
| `Jpake.SchnorrExact` | modified_openssh-5.9p1/schnorr.c:255-347 | with v the logarithm of the commitment a proof is accepted if and only if x is not 0 and r + xh is v, both modulo q |
| `Jpake.SchnorrMember` | modified_openssh-5.9p1/schnorr.c:262-303 | a value that is 0, 1, not below p or not in the subgroup is refused with any proof |
| `Jpake.SchnorrSound` | modified_openssh-5.9p1/schnorr.c:255-347 | special soundness: two accepted proofs with the same commitment under challenges that differ modulo q make the public value a power of the generator |
| `Jpake.SchnorrMessage` | modified_openssh-5.9p1/schnorr.c:81-87 | the challenge is the hash of generator, p, q, commitment, public value and identity as wire fields in that order |
| `Jpake.SchnorrBinds` | modified_openssh-5.9p1/schnorr.c:81-87 | so equal inputs mean that all six are equal |
| `Jpake.Step1` | modified_openssh-5.9p1/jpake.c:193-242 | public values are powers of g with proofs; stops exactly when one of them is 1 |
| `Jpake.StepOneExact` | modified_openssh-5.9p1/jpake.c:258-276 | step 1 of a peer with exponents x and y passes if and only if neither vanishes modulo q and both proofs satisfy their equation |
| `Jpake.Step2` | modified_openssh-5.9p1/jpake.c:246-321 | continues exactly when the peer's two values and proofs are valid and the own value is not 1; the value sent is (product of three public values) to the power mypriv2 * s |
| `Jpake.KeyConfirm` | modified_openssh-5.9p1/jpake.c:349-416 | continues exactly when the peer's proof holds over the rebuilt generator; gives the key and the confirmation hash |
| `Jpake.CheckConfirm` | modified_openssh-5.9p1/jpake.c:423-451 | accepts exactly the expected hash |
| `Jpake.Agreement` | modified_openssh-5.9p1/jpake.c:283-409 | client and server derive the same key if and only if (x1+x2+x3+x4)*(s_server - s_client) is 0 modulo q |
| `Jpake.StepValueAboveOne` | modified_openssh-5.9p1/jpake.c:283-315 | a step-2 value is degenerate exactly when its exponent sum times the secret vanishes modulo q |
| `Jpake.HonestStepTwo` | modified_openssh-5.9p1/jpake.c:311-315 | the generator rebuilt by the peer is the one the step-2 proof used, so the proof verifies |
| `Jpake.ConfirmBytesInjective` | modified_openssh-5.9p1/jpake.c:325-345 | the confirmation input determines the key |
| `Jpake.ConfirmMessage` | modified_openssh-5.9p1/jpake.c:325-345 | the confirmation is the hash of key, identity and session as wire fields in that order |
| `Jpake.ConfirmBinds` | modified_openssh-5.9p1/jpake.c:325-345 | equal inputs mean equal key, identity and session |
| `Jpake.Steps` | modified_openssh-5.9p1/jpake.c:193-321 | steps 1 and 2 of two honest ends: stopped exactly when a step-2 exponent vanishes; otherwise everything sent passes the other end's checks |
| `Jpake.Exchange` | modified_openssh-5.9p1/jpake.c:193-451 | the whole exchange: when it stops, when the keys agree, that confirmations succeed if the keys agree, and otherwise only through a hash collision |
| `Channels.Channel.constructor` | modified_openssh-5.9p1/channels.c:267-335 | a channel with its windows and empty buffers |
| `Channels.Channel.SetFds` | modified_openssh-5.9p1/channels.c:826-842 | a session gets its window and grants it to the client with an adjust |
| `Channels.Channel.PollInputBuffer` | modified_openssh-5.9p1/channels.c:2293-2350 | sends min(window, packet, input) bytes from the front of input and charges them to the remote window |
| `Channels.Channel.PollExtendedBuffer` | modified_openssh-5.9p1/channels.c:2352-2384 | the same for stderr data |
| `Channels.Channel.OutputPoll` | modified_openssh-5.9p1/channels.c:2263-2386 | both, in that order, and nothing once closing |
| `Channels.Channel.InputData` | modified_openssh-5.9p1/channels.c:2392-2449 | data beyond the window is discarded, otherwise charged and appended; on a closed output side it is charged and counted as consumed |
| `Channels.Channel.InputExtendedData` | modified_openssh-5.9p1/channels.c:2452-2496 | after an EOF it disconnects unless the peer has the bug; another type code, a missing descriptor or data beyond the window is dropped; the rest is charged and appended |
| `Channels.Channel.InputWindowAdjust` | modified_openssh-5.9p1/channels.c:2677-2699 | the remote window grows modulo 2^32 |
| `Channels.Channel.CheckWindow` | modified_openssh-5.9p1/channels.c:1915-1935 | hands back the consumed bytes exactly when the window is low |
| `Channels.Channel.PreOpen` | modified_openssh-5.9p1/channels.c:880-915 | selects exactly the descriptors the state allows, and a read only if a full CHAN_RBUF read will fit the input buffer |
| `Channels.Channel.HandleRfd` | modified_openssh-5.9p1/channels.c:1722-1768 | an admitted read is appended to input and cannot be fatal |
| `Channels.Channel.HandleWfd` | modified_openssh-5.9p1/channels.c:1771-1861 | any partial write takes bytes from the front of output and counts them as consumed |
| `Channels.Channel.HandleEfdWrite` | modified_openssh-5.9p1/channels.c:1863-1888 | the same for extended output |
| `Channels.Channel.HandleEfdRead` | modified_openssh-5.9p1/channels.c:1889-1913 | stderr input is appended, or dropped when ignored |
| `FlowControl.ActSafe` | modified_openssh-5.9p1/channels.c:1783-2699 | every step of either end keeps the window accounts: remote window plus data and adjusts in flight at most the receiver's window, and the receiver's window, consumed and buffered bytes at most the maximum plus injected bytes |
| `FlowControl.TakeExact` | modified_openssh-5.9p1/channels.c:2417-2446 | for every data message the window covers, in every state of the output side, the window falls by its length and what the receiver holds (window, bytes to hand back, buffered bytes) stays the same: no window is lost by faked consumption |
| `FlowControl.SessionStart` | modified_openssh-5.9p1/channels.c:826-842 | the opening of a session, with the first window adjust still on its way, is such an opening |
| `FlowControl.DynamicStart` | modified_openssh-5.9p1/channels.c:1400-1440 | so is that of a dynamic forwarding with replies sent or waiting and bytes that came after the request |
| `FlowControl.FlowControlSafety` | modified_openssh-5.9p1/channels.c:1783-2699 | in every state reachable from any opening of the two ends: the accounts hold, the too-much-data branches are dead, no window arithmetic wraps, and for windows that fit the buffers no append is fatal |
| `FlowControl.DefaultWindowFits` | modified_openssh-5.9p1/channels.h:163-164 | the default window and packet sizes, with the SOCKS replies, fit the buffers |
| `FlowControl.InputBounded` | modified_openssh-5.9p1/channels.c:881-913 | in every run an end buffers for sending less than the window of the peer and one read, apart from input it had before the opening |
| `FlowStreams.InOrderDelivery` | modified_openssh-5.9p1/channels.c:1722-2496 | in every run each end has written out a prefix of what the other was given, early input included, after its own replies; for both streams |
| `FlowProgress.ActExact` | modified_openssh-5.9p1/channels.c:1783-2699 | while no phase changes the accounts hold with equality and neither end loses any of its window, whatever the state of its output side |
| `FlowProgress.ActDescends` | modified_openssh-5.9p1/channels.c:1783-2699 | every step lowers an explicit measure or changes nothing |
| `FlowProgress.StuckWindowReopens` | modified_openssh-5.9p1/channels.c:1916-1934 | a sender out of window, nothing in flight, a drained receiver with its output side open or closed: the window is handed back if and only if some of it is left and its maximum is at least two or exceeds three packets |
| `FlowProgress.SomethingEnabled` | modified_openssh-5.9p1/channels.c:1722-2386 | while a byte is undelivered and the receiver has any window left some step that acts is enabled |
| `FlowProgress.RoundWorks` | modified_openssh-5.9p1/channels.c:1722-2386 | a fair round of steps lowers the cost as long as a byte can be delivered |
| `FlowProgress.CompleteDelivery` | modified_openssh-5.9p1/channels.c:1722-2496 | under any fair schedule any finite payload arrives completely and in order within a number of rounds bounded by the cost; with windows that fit the buffers no append on the way is fatal |
| `FlowProgress.CloseExact` | modified_openssh-5.9p1/nchan.c:487-509 | closing an output side keeps the accounts exact and takes from the window exactly the output that is dropped |
| `FlowProgress.DeliveryAfterClosing` | modified_openssh-5.9p1/channels.c:2417-2446 | the same where output sides close at any time: fair rounds take every byte off a sender if and only if nothing was left to send or the receiver has not dropped its whole window with its output; a closed receiver has written a prefix, an open one everything |
| `Crc32Table.TableEntry` | modified_openssh-5.9p1/crc32.c:29-94 | each of the 256 entries is eight steps of bit-serial division |
| `Crc32.SshCrc32` | modified_openssh-5.9p1/crc32.c:96-105 | the table-driven loop computes the bit-serial checksum for every length |
| `Crc32.CrcIsLinear` | modified_openssh-5.9p1/crc32.c:96-105 | the checksum is GF(2)-linear in start value and message |
| `Crc32Division.CrcIsRemainder` | modified_openssh-5.9p1/crc32.c:96-105 | the checksum is the remainder of the message times x^32 divided by the generator polynomial |
| `Deattack.CrcUpdateContinues` | modified_openssh-5.9p1/deattack.c:73-78 | crc_update continues a checksum by the four bytes of the word |
| `Deattack.CheckCrc` | modified_openssh-5.9p1/deattack.c:80-98 | true exactly when the pattern of blocks equal to S has checksum zero |
| `Deattack.PatternAt` | modified_openssh-5.9p1/deattack.c:81-95 | the pattern byte by byte: one at the start of every block equal to the given one, zero elsewhere |
| `Deattack.CompensationIsInvisible` | modified_openssh-5.9p1/deattack.c:80-98 | that is the case exactly when adding the pattern to any message leaves its checksum unchanged |
| `Detector.Pigeonhole` | modified_openssh-5.9p1/deattack.c:119-128 | distinct numbers below j are at most j of them, so the table is never full |
| `Detector.Probe` | modified_openssh-5.9p1/deattack.c:146-156 | linear probing ends, and finds an equal earlier block if and only if there is one |
| `Detector.StoreKeeps` | modified_openssh-5.9p1/deattack.c:145-158 | storing a block keeps every earlier block findable |
| `Detector.HashTable.Reserve` | modified_openssh-5.9p1/deattack.c:116-128 | the table grows in steps of four to at least one and a half slots a block |
| `Detector.HashTable.ScanPairs` | modified_openssh-5.9p1/deattack.c:130-142 | the quadratic path gives the expected verdict |
| `Detector.HashTable.ScanHashed` | modified_openssh-5.9p1/deattack.c:143-159 | the hashed path gives the same verdict from whatever the table held before |
| `Detector.HashTable.DetectAttack` | modified_openssh-5.9p1/deattack.c:102-160 | for every buffer and after any earlier calls: the 33rd repetition, an earlier compensating one, or neither; a bad length is refused |
| `Detector.VerdictByCount` | modified_openssh-5.9p1/deattack.c:99-161 | what the verdict means: bad beyond 256 KiB or with a broken block; an attack if and only if one of the first 32 blocks that repeat an earlier one compensates; otherwise a denial of service if and only if more than 32 repeat one |
| `CbcMode.DecryptEncrypt` | modified_openssh-5.9p1/cipher-aes.c:90-115 | decryption inverts encryption for every block permutation, IV and block count |
| `CbcMode.EncryptInParts` | modified_openssh-5.9p1/cipher-aes.c:90-101 | two consecutive calls encrypt as one call on the concatenation |
| `CbcMode.DecryptInParts` | modified_openssh-5.9p1/cipher-aes.c:102-115 | two consecutive calls decrypt as one call on the concatenation |
| `CbcMode.Context.EncryptBlocks` | modified_openssh-5.9p1/cipher-aes.c:90-101 | the loop writes CBC encryption, also fully in place |
| `CbcMode.Context.DecryptBlocks` | modified_openssh-5.9p1/cipher-aes.c:102-115 | the backward loop writes CBC decryption, also fully in place, and saves the last ciphertext block |
| `CbcMode.Context.Cbc` | modified_openssh-5.9p1/cipher-aes.c:73-117 | both directions; a length that is no multiple of 16 is refused |
| `CbcMode.RoundTripInPlace` | modified_openssh-5.9p1/cipher-aes.c:73-117 | encrypting and decrypting one buffer in place restores it, with equal IVs at both ends |
| `CtrMode.IncrementAddsOne` | modified_openssh-5.9p1/cipher-ctr.c:51-58 | the counter, read as a number, grows by one modulo 256^len |
| `CtrMode.AdvanceAdds` | modified_openssh-5.9p1/cipher-ctr.c:51-58 | n increments add n modulo 256^16 |
| `CtrMode.CtrInc` | modified_openssh-5.9p1/cipher-ctr.c:50-58 | the in-place loop performs that increment |
| `CtrMode.CryptTwice` | modified_openssh-5.9p1/cipher-ctr.c:60-82 | running twice from the same counter is the identity |
| `CtrMode.CryptInParts` | modified_openssh-5.9p1/cipher-ctr.c:60-82 | splitting at a block boundary changes neither output nor final counter |
| `CtrMode.Context.Ctr` | modified_openssh-5.9p1/cipher-ctr.c:60-82 | the byte loop writes the keystream cipher, also in place, and advances the counter once per started block |
| `AcssTables.DecOfEnc` | modified_openssh-5.9p1/acss.c:29-98 | the decryption table undoes the encryption table |
| `AcssTables.ReverseIsReversal` | modified_openssh-5.9p1/acss.c:100-133 | the third table reverses the bits of a byte |
| `Acss.AdvanceLive` | modified_openssh-5.9p1/acss.c:172-206 | after any number of rounds both registers are within 17 and 25 bits and non-zero, and the carry is 0 or 1 |
| `Acss.Step17IsEightClocks` | modified_openssh-5.9p1/acss.c:173-178 | a step is eight clocks of the 17-bit register with taps 0 and 14, fed in at bit 16 |
| `Acss.Step25IsEightClocks` | modified_openssh-5.9p1/acss.c:180-185 | a step is eight clocks of the 25-bit register with taps 0, 3, 4 and 12, fed in at bit 24 |
| `Acss.RegistersClocked` | modified_openssh-5.9p1/acss.c:172-185 | after n rounds each register has been clocked 8n times, whatever the mode |
| `Acss.AddendsByMode` | modified_openssh-5.9p1/acss.c:189-207 | the addends are the top bytes of the registers; the modes 0 and 3 complement the first, the mode 2 the second |
| `Acss.KeystreamIsSum` | modified_openssh-5.9p1/acss.c:172-206 | the key stream is the base-256 sum of the two register streams, least significant byte first, with the pending carry |
| `Acss.DecryptEncrypt` | modified_openssh-5.9p1/acss.c:208-213 | from equal states decryption undoes encryption for every input |
| `Acss.CryptInParts` | modified_openssh-5.9p1/acss.c:162-217 | any chunking gives the same bytes |
| `Acss.CryptedAt` | modified_openssh-5.9p1/acss.c:208-213 | each byte is sboxenc of the input and the key stream byte of its own round, or the key stream byte over sboxdec of the input |
| `Acss.SeededLive` | modified_openssh-5.9p1/acss.c:219-244 | seeding never leaves a register zero or out of range |
| `Acss.SeededAt` | modified_openssh-5.9p1/acss.c:218-245 | where each key byte, mixed with the subkey and bit-reversed, sits in the registers, and the two injected ones |
| `Acss.Key.Seed` | modified_openssh-5.9p1/acss.c:219-244 | registers from the reversed key bytes, mixed with the subkey if there is one |
| `Acss.Key.SetKey` | modified_openssh-5.9p1/acss.c:246-258 | installs key, direction and mode and drops a subkey |
| `Acss.Key.SetSubkey` | modified_openssh-5.9p1/acss.c:260-266 | reseeds with the subkey |
| `Acss.Key.Round` | modified_openssh-5.9p1/acss.c:172-206 | one round; an unknown mode has already stepped the registers |
| `Acss.Key.Acss` | modified_openssh-5.9p1/acss.c:162-217 | the loop ciphers len bytes, also in place, and leaves the rest of the destination alone; an unknown mode writes nothing |
| `Acss.RoundTripInPlace` | modified_openssh-5.9p1/acss.c:162-217 | one structure's encryption in place is undone by another keyed alike |
| `UserauthSafety.ReceiveInv` | modified_openssh-5.9p1/auth2.c:178-367 | every message keeps the invariant below |
| `UserauthSafety.AuthenticationSafety` | modified_openssh-5.9p1/auth2-jpake.c:81-560 | after every message sequence: no handler has used a missing context or field, at most one J-PAKE handler is enabled, a context is live exactly while one is, its fields hold the values of the earlier steps with verified proofs, success is for a valid user and for root only where allowed, failures are below the limit while connected |
| `UserauthSuccess.SuccessExactly` | modified_openssh-5.9p1/auth2.c:213-361 | in any run the next message logs the user in if and only if it is a request for an enabled method with a good verdict, an accepted keyboard-interactive response or the J-PAKE confirmation waited for, of a valid user, and for root only as PermitRootLogin says |
| `UserauthSuccess.RootLogin` | modified_openssh-5.9p1/auth.c:305-325 | after any messages root is in only if permitted at all, not by password under without-password, and with a forced command under forced-commands-only |
| `UserauthSuccess.ServiceFirst` | modified_openssh-5.9p1/auth2.c:180-210 | while the server runs, requests are handled if and only if ssh-userauth has been asked for |
| `UserauthSuccess.ServiceGranted` | modified_openssh-5.9p1/auth2.c:180-210 | a service request for ssh-userauth is granted and any other ends the connection |
| `UserauthSuccess.UnknownMessage` | modified_openssh-5.9p1/dispatch.c:84-104 | a type nobody has registered is ignored, one outside the table ends the connection |
| `UserauthSuccess.NameBeforeStyle` | modified_openssh-5.9p1/auth2.c:230-231 | a user name with a style is the part before the first colon |
| `UserauthSuccess.NoneOnce` | modified_openssh-5.9p1/auth2-none.c:57-74 | while connected, none is on offer if and only if no request for it has been handled |
| `UserauthSuccess.LogFaithful` | modified_openssh-5.9p1/auth2.c:293-361 | a message is logged at most once, under its own method and attempt, and laid to the server if and only if a plain method that was run reported it so |
| `UserauthSafety.Dispatched` | modified_openssh-5.9p1/dispatch.c:82-104 | in every reachable state each handler is found under the message type it is meant for and under no other |
| `UserauthSafety.IdentityFixed` | modified_openssh-5.9p1/auth2.c:233-263 | once named, user, service, validity and uid never change |
| `UserauthSafety.RefusalsBounded` | modified_openssh-5.9p1/auth2.c:347-358 | the counter is the number of charged failures; all refusals but server faults and one initial none are charged, so their number is bounded while connected |
| `UserauthSafety.LimitMustBePositive` | modified_openssh-5.9p1/auth2.c:278-358 | the counter stays below max_authtries in all runs if and only if that is positive; otherwise nobody ever gets in |
| `UserauthSafety.JpakeLogin` | modified_openssh-5.9p1/auth2-jpake.c:529-560 | in any run the confirmation logs in exactly when it is the digest of the key derived from the context, for a valid user who may |
| `UserauthSafety.HonestClient` | modified_openssh-5.9p1/auth2-jpake.c:479-560 | an honest client with the same secret sends the digest the server waits for, with a different one only through a hash collision |
| `UserauthLogin.HonestLogin` | modified_openssh-5.9p1/auth2-jpake.c:371-560 | from a fresh connection the service, request, step 1, step 2 and confirm messages of an honest client end in success if and only if the method is offered, the user is valid and may log in, no step-2 exponent vanishes, and the keys agree or the hash collides |
| `UserauthServer.Authctxt.constructor` | modified_openssh-5.9p1/auth2.c:170-176 | a table of protocol errors with the service request handler |
| `UserauthServer.Authctxt.SettleAttempt` | modified_openssh-5.9p1/auth2.c:333-366 | log entry, success, charge and disconnection as the transition system has them |
| `UserauthServer.Authctxt.FinishUserauth` | modified_openssh-5.9p1/auth2.c:292-367 | an authenticated invalid user is fatal, root may be refused, then the attempt is settled |
| `UserauthServer.Authctxt.InputServiceRequest` | modified_openssh-5.9p1/auth2.c:178-210 | ssh-userauth enables requests, everything else disconnects |
| `UserauthServer.Authctxt.Lookup` | modified_openssh-5.9p1/auth2.c:394-408 | finds a method exactly if it is known and enabled |
| `UserauthServer.Authctxt.IdentifyUser` | modified_openssh-5.9p1/auth2.c:233-263 | the first request fixes the identity, a later change disconnects |
| `UserauthServer.Authctxt.InputUserauthRequest` | modified_openssh-5.9p1/auth2.c:212-290 | resets the subprotocols, tries the method within the limit and finishes |
| `UserauthServer.Authctxt.StopChallenge` | modified_openssh-5.9p1/auth2-chall.c:203-213 | drops the keyboard-interactive context and handler |
| `UserauthServer.Authctxt.StartChallenge` | modified_openssh-5.9p1/auth2-chall.c:216-245 | starts the next device or stops |
| `UserauthServer.Authctxt.InputInfoResponse` | modified_openssh-5.9p1/auth2-chall.c:279-346 | accepts, asks again, or moves to the next device, and finishes |
| `UserauthServer.Authctxt.StopJpake` | modified_openssh-5.9p1/auth2-jpake.c:107-118 | clears the three handlers and the context |
| `UserauthServer.Authctxt.StartJpake` | modified_openssh-5.9p1/auth2-jpake.c:371-419 | fills the context and expects step 1 |
| `UserauthServer.Authctxt.TryMethod` | modified_openssh-5.9p1/auth2-jpake.c:81-98 | J-PAKE and keyboard-interactive postpone, other methods report |
| `UserauthServer.Authctxt.InputStep1` | modified_openssh-5.9p1/auth2-jpake.c:421-477 | verifies step 1, computes b and expects step 2 |
| `UserauthServer.Authctxt.InputStep2` | modified_openssh-5.9p1/auth2-jpake.c:479-527 | verifies step 2, derives the key and expects the confirmation |
| `UserauthServer.Authctxt.InputConfirm` | modified_openssh-5.9p1/auth2-jpake.c:529-560 | checks the confirmation, frees the context and finishes |
| `UserauthServer.Authctxt.Deliver` | modified_openssh-5.9p1/dispatch.c:82-104 | one message is dispatched as the transition system does |
| `UserauthServer.Authctxt.Serve` | modified_openssh-5.9p1/dispatch.c:82-104 | the loop runs the transition system until the link is down or the user is in |
| `Kexinit.RoundTrip` | modified_openssh-5.9p1/kex.c:95-141 | kex_buf2prop undoes kex_prop2buf, whatever cookie and flag and whether or not lists carry a NUL, if and only if each list is within the string limit and the message within one buffer chunk; otherwise it is fatal |
| `Kexinit.Prop2Buf` | modified_openssh-5.9p1/kex.c:95-110 | writes cookie, ten lists, flag and reserved word |
| `Kexinit.Buf2Prop` | modified_openssh-5.9p1/kex.c:113-141 | parses a copy of the message, or is fatal |
| `MatchList.ItemsOfJoin` | modified_openssh-5.9p1/match.c:249-257 | a list written with commas is read back name by name |
| `MatchList.FirstInSpec` | modified_openssh-5.9p1/match.c:258-278 | the earliest of the client's names among the server's; none exactly when they share none |
| `MatchList.Split` | modified_openssh-5.9p1/match.c:249-257 | the server's names up to forty or an empty one |
| `MatchList.Choose` | modified_openssh-5.9p1/match.c:240-278 | the two loops compute that choice |
| `Kex.Mirror` | modified_openssh-5.9p1/kex.c:401-475 | from the same proposals both ends stop or neither; their results mirror each other if and only if they agree on truncating MAC keys or the truncation changes none |
| `KexNames.MatchAgrees` | modified_openssh-5.9p1/match.c:240-278 | on two written lists the result is the earliest name of the client among the first forty of the server, if there is one |
| `KexNames.ClientPrefers` | modified_openssh-5.9p1/kex.c:401-464 | for either role: every cipher, MAC, compression, method and host key is the earliest name of the client, in the list of its purpose and direction, among the first forty of the server; fatal if and only if for some pair of lists that name does not exist or is not supported; and the need is the largest of the six lengths |
| `KexNames.SkipsWrongGuess` | modified_openssh-5.9p1/kex.c:377-399 | a packet is skipped if and only if one was announced and the first names of methods or host keys differ, unless the peer has the bug |
| `KexNames.RoamingOffered` | modified_openssh-5.9p1/kex.c:421-430 | roaming is taken up exactly by a client whose server offers it |
| `Kex.KeysMirror` | modified_openssh-5.9p1/kex.c:401-549 | both ends stop or neither; if they derive keys alike, what one sends under is what the other reads under (algorithms, lengths, IV, key and MAC key) if and only if they agree on truncating MAC keys or the truncation changes none |
| `Kex.KeysByLetter` | modified_openssh-5.9p1/kex.c:526-549 | IV, key and MAC key are the derivations for A, C, E towards the server and B, D, F towards the client; fatal without a digest or a need |
| `Kex.KeysLongEnough` | modified_openssh-5.9p1/kex.c:455-464 | we_need makes every derived key long enough for block, key and MAC key in both directions |
| `KexExchange.KexState.PickMode` | modified_openssh-5.9p1/kex.c:285-335 | one direction's cipher, MAC and compression, or fatal |
| `KexExchange.KexState.PickModes` | modified_openssh-5.9p1/kex.c:432-464 | both directions and the largest need |
| `KexExchange.KexState.PickKex` | modified_openssh-5.9p1/kex.c:337-363 | the method and its digest, or fatal |
| `KexExchange.KexState.PickHostkey` | modified_openssh-5.9p1/kex.c:365-375 | the host key type, or fatal |
| `KexExchange.KexState.ProposalsMatch` | modified_openssh-5.9p1/kex.c:377-399 | true exactly when both first guesses agree |
| `KexExchange.KexState.ChooseConf` | modified_openssh-5.9p1/kex.c:401-475 | leaves exactly the negotiated result in the structure, and says whether to skip a packet |
| `KexExchange.KexState.DeriveKeys` | modified_openssh-5.9p1/kex.c:526-549 | six keys A to F, assigned by direction; the negotiated algorithms become current |
| `KexExchange.Exchange` | modified_openssh-5.9p1/kex.c:401-549 | two ends that exchanged their messages and share a secret: if they agree on truncating MAC keys or the truncation changes none, both stop or neither, and the keys mirror each other |
| `KeyDerivation.DeriveKeyPrefix` | modified_openssh-5.9p1/kex.c:490-516 | a key is long enough and less than one digest longer; the key for a smaller need is a prefix of that for a larger one |
| `KeyDerivation.BlockAt` | modified_openssh-5.9p1/kex.c:494-516 | the first digest is taken over secret, hash, letter and session, every other over secret, hash and all key material before it; the secret is left out exactly for a peer with the bug |
| `KeyDerivation.Derive` | modified_openssh-5.9p1/kex.c:477-523 | the loop fills the digest array with exactly that key; a digest or need of zero size is fatal |
| `AddrMatch.NetmatchIsPrefix` | modified_openssh-5.9p1/addrmatch.c:350-363 | for all addresses and mask lengths addr_netmatch returns 0 if and only if families agree, the net has no host bits for a valid length, IPv6 scopes agree and the first masklen bits are equal |
| `AddrMatch.HostBits` | modified_openssh-5.9p1/addrmatch.c:297-307 | addr_host_is_all0s accepts exactly a valid length with no bit set behind it, bit by bit over the family's width |
| `AddrMatch.CmpSame` | modified_openssh-5.9p1/addrmatch.c:179-200 | the byte-wise IPv6 comparison is 0 exactly on identical words and scope |
| `AddrMatch.CmpInet` | modified_openssh-5.9p1/addrmatch.c:178-187 | IPv4 addresses are ordered as numbers |
| `AddrMatch.CmpInet6` | modified_openssh-5.9p1/addrmatch.c:188-200 | IPv6 addresses are ordered by their first different byte, and with equal bytes by scope |
| `AddrBits.MaskPrefix` | modified_openssh-5.9p1/addrmatch.c:117-144 | two words agree under a mask exactly when their first bits agree |
| `AddrBits.HostPart` | modified_openssh-5.9p1/addrmatch.c:296-307 | nothing is left under the inverted mask exactly when no bit behind its length is set |
| `AddrBits.ShiftedIsMask` | modified_openssh-5.9p1/addrmatch.c:131-140 | the shifted all-ones word is the mask with that many leading bits |
| `AddrOps.FillNetmask` | modified_openssh-5.9p1/addrmatch.c:116-144 | fills the mask across the four words, or refuses the length |
| `AddrOps.FillAnd` | modified_openssh-5.9p1/addrmatch.c:150-172 | masks one word or four, or refuses mixed families |
| `AddrOps.InvertInPlace` | modified_openssh-5.9p1/addrmatch.c:234-253 | inverts the words of the family in place |
| `AddrOps.Compare` | modified_openssh-5.9p1/addrmatch.c:178-200 | the comparison loop |
| `AddrOps.TestHost` | modified_openssh-5.9p1/addrmatch.c:296-307 | mask, invert, and, test for zero |
| `AddrOps.MatchNet` | modified_openssh-5.9p1/addrmatch.c:349-363 | mask the host and compare |
| `AddrOps.PtonCidr` | modified_openssh-5.9p1/addrmatch.c:313-348 | at most 63 bytes are read and a text of more than 64 is refused; a given or default length must fit the family and the net must have no host bits |
| `AddrOps.EntryMatches` | modified_openssh-5.9p1/addrmatch.c:349-423 | an entry that parses as a network matches if and only if the families agree, for IPv6 the scopes agree, and the first masklen bits are equal; one that does not, as a wildcard pattern |
| `AddrOps.EntryRead` | modified_openssh-5.9p1/addrmatch.c:313-348 | what every written entry of fewer than 64 bytes is read as: no network, inconsistent, or the network it says, decided by its bits |
| `AddrOps.WholeOrRefused` | modified_openssh-5.9p1/addrmatch.c:313-325 | whatever the parsers behind it accept, an entry is read whole or refused if and only if it is not of exactly 64 bytes, or its first slash is the last byte that is copied |
| `AddrOps.LongEntry` | modified_openssh-5.9p1/addrmatch.c:318-331 | a concrete entry of 64 bytes, 0.0.0.0/ with 55 zeros and an 8: read as 0.0.0.0/0, so that it matches every IPv4 host and nothing else |
| `AddrOps.FoldSpec` | modified_openssh-5.9p1/addrmatch.c:392-423 | the first invalid entry or negated match decides; without one any plain match gives 1 |
| `AddrOps.ListExact` | modified_openssh-5.9p1/addrmatch.c:365-426 | for a list of any comma-free entries: the first malformed entry gives -2 and the first negated hit -1, whichever comes first; without one the result is 1 if some entry is hit and 0 if none is |
| `AddrOps.ListChecked` | modified_openssh-5.9p1/addrmatch.c:365-390 | without an address the result is -2 if and only if some entry is malformed and 0 otherwise; an address that does not parse gives 0 |
| `AddrOps.CheckOnly` | modified_openssh-5.9p1/addrmatch.c:365-376 | without an address the result is only ever 0 or -2 |
| `AddrOps.AddrMatchList` | modified_openssh-5.9p1/addrmatch.c:377-426 | the loop computes that fold over all comma-separated entries |
| `Socks.PollStable` | modified_openssh-5.9p1/channels.c:1083-1372 | a turn that acts would have acted in the same way had more bytes been there |
| `Socks.NeedMore` | modified_openssh-5.9p1/channels.c:1400-1440 | a turn that leaves the channel reading has taken nothing, or one whole SOCKS5 greeting |
| `Socks.ScheduleIndependent` | modified_openssh-5.9p1/channels.c:1400-1440 | for every chunking of the same bytes and every timing of the turns the channel settles in the same state: dead, or the same host, port, replies and bytes left over |
| `Socks.HostFits` | modified_openssh-5.9p1/channels.c:1104-1160 | the search limit is stricter than the host name limit, which is never reached |
| `Socks.Dialogue5` | modified_openssh-5.9p1/channels.c:1195-1372 | every greeting that offers no authentication followed by a request for an address or a name is decoded exactly, with the rest left over |
| `Socks.Dialogue4` | modified_openssh-5.9p1/channels.c:1083-1183 | every SOCKS4 or 4A request of at most 1026 bytes, whatever its host name, is decoded exactly, with the rest left over |
| `Socks.Overlong4` | modified_openssh-5.9p1/channels.c:1111-1124 | a longer one kills the channel |
| `SocksExact.Encoded5Opens` | modified_openssh-5.9p1/channels.c:1243-1373 | every encoded SOCKS5 request opens the channel to its destination |
| `SocksExact.HostDenoted` | modified_openssh-5.9p1/channels.c:1340-1362 | a name ends at its first NUL |
| `SocksExact.Request5Exact` | modified_openssh-5.9p1/channels.c:1243-1373 | after the greeting the channel opens if and only if a whole encoded request is there, and dies if and only if five bytes or more are there that no further bytes make one |
| `SocksExact.GreetingExact` | modified_openssh-5.9p1/channels.c:1214-1242 | a greeting is answered if and only if it is whole and offers no authentication, and refused if and only if it is whole and does not |
| `SocksExact.Encoded4Opens` | modified_openssh-5.9p1/channels.c:1083-1183 | every encoded SOCKS4 or 4A request within reach of the search opens the channel to its destination |
| `SocksExact.Request4Exact` | modified_openssh-5.9p1/channels.c:1083-1183 | the channel opens if and only if such a request is there; one that was killed could not have been completed |
| `SocksExact.OpensExactly` | modified_openssh-5.9p1/channels.c:1400-1440 | however the bytes arrive the channel settles on opening if and only if they begin with a SOCKS4 request, or a greeting that offers no authentication and then a request |
| `SocksDecoder.DynamicChannel.FindNuls` | modified_openssh-5.9p1/channels.c:1104-1126 | the scan for the terminating NULs |
| `SocksDecoder.DynamicChannel.Decode4` | modified_openssh-5.9p1/channels.c:1083-1183 | touches the buffer only when a whole request is there, and then decodes it |
| `SocksDecoder.DynamicChannel.DecodeGreeting` | modified_openssh-5.9p1/channels.c:1214-1242 | waits for a whole greeting and answers it, or refuses it |
| `SocksDecoder.DynamicChannel.DecodeRequest` | modified_openssh-5.9p1/channels.c:1243-1373 | waits for a whole request and decodes it, or refuses it |
| `SocksDecoder.DynamicChannel.PreDynamic` | modified_openssh-5.9p1/channels.c:1400-1440 | one turn: need more, dead, or opening |
| `Transcript.ClientFromSpec` | modified_openssh-5.9p1/misc.c:407-442 | the client's packets are the entries of negative size, each once and in trace order |
| `Transcript.TranscriptRun` | modified_openssh-5.9p1/clientloop.c:1715-1799 | over every run of pages, on the current one, packets are released in order and each once, each with credit for its demand or after five seconds, and credit is what was received less what was spent, never negative; outside transcript mode the last page has been played to its end |
| `Transcript.SinceExplained` | modified_openssh-5.9p1/clientloop.c:1748-1779 | while deadlock_start is set it is the time of a turn since when the client has been blocked on the current packet |
| `Transcript.DeadlockWaited` | modified_openssh-5.9p1/clientloop.c:1752-1768 | a release for deadlock comes at least five seconds after such a turn |
| `Transcript.SizesFollowTrace` | modified_openssh-5.9p1/clientloop.c:1723-1734 | from the second release on every packet has exactly its recorded size; only the first may take along what is queued |
| `Transcript.EffectiveDemand` | modified_openssh-5.9p1/clientloop.c:1729-1745 | an entry's own demand counts, except that INT_MAX is asked for from the first look at a page's first packet if and only if no acknowledgement has come on that page, none was left over when it began, and the client has not given up on it |
| `Transcript.AcknowledgedSince` | modified_openssh-5.9p1/channels.c:1281-1297 | what left over and come mean: the flag survives the start of a page and is set by an acknowledgement only |
| `Transcript.AcknowledgementUsed` | modified_openssh-5.9p1/clientloop.c:1729-1745 | an acknowledgement is kept, across pages too, until a look at a packet other than the first of a page, while the second is still special, uses it up |
| `Transcript.LateAcknowledgement` | modified_openssh-5.9p1/clientloop.c:1729-1760 | an acknowledgement that comes after the client has given up makes the next page ask for its own demand unacknowledged: a concrete run |
| `Transcript.TwoTurnsRelease` | modified_openssh-5.9p1/clientloop.c:1748-1779 | two turns five seconds apart release a packet whenever one is left |
| `Transcript.PlaysToEnd` | modified_openssh-5.9p1/clientloop.c:1715-1799 | at most two turns per packet left, each five seconds after the one before, release every packet of the page, whatever is received or acknowledged in between |
| `Transcript.Client.MoveToNext` | modified_openssh-5.9p1/misc.c:407-442 | the cursor moves to the next packet of negative size, or to the end for good |
| `Transcript.Client.ProcessIncoming` | modified_openssh-5.9p1/packet.c:1652-1667 | received bytes become credit |
| `Transcript.Client.Acknowledged` | modified_openssh-5.9p1/packet.c:1503-1511 | the acknowledgement sets its flag |
| `Transcript.Client.TakeUp` | modified_openssh-5.9p1/channels.c:1269-1297 | a page resets cursor, credit and first-packet flag, and nothing else; it is refused while one is played |
| `Transcript.Client.ConsiderItem` | modified_openssh-5.9p1/clientloop.c:1722-1797 | flags, demand and size of an item, and its release or wait |
| `Transcript.Client.Block` | modified_openssh-5.9p1/clientloop.c:1748-1779 | wait, or give up after five seconds |
| `Transcript.Client.Pass` | modified_openssh-5.9p1/clientloop.c:1715-1892 | one pass through the transcript branch; the mode is left only at the end of a transcript |

## Left out

- Sockets, select, terminals, signals, files and logging: I/O without semantics to state. Reads and writes of any size are events.
- Datagram channels, output filters and forced tty reads: their window accounting differs from that of streams.
- The exchange of EOF and CLOSE messages: in `FlowControl` closing is an arbitrary phase change that can only go forward.
- Channel numbers and the table of channels: one channel is modelled at each end.
- Privilege separation: the single-process path is modelled.
- SSH1: its integer format, its channels and its key exchange.
- OpenSSL: BIGNUMs are mathematical integers, hashes and AES are arbitrary functions, and `KeyDerivation.Digest` only needs the length it reports.
- The byte format of Schnorr proofs and the choice of the default group.
- GSSAPI, Kerberos, PAM and the inner workings of the password, public key and host-based methods: their verdict is part of the event.
- Keyboard-interactive devices: what they ask and answer is part of the event.
- The attempt counter of userauth and the received-bytes counter of the transcript are unbounded; the code would need 2^31 requests or 2^64 bytes to wrap them.
- Sending and receiving of the KEXINIT packet itself, its cookie's randomness, and the key exchange methods that produce the shared secret.
- `getaddrinfo`, `strtoul` and wildcard patterns: functions given to `AddrOps`.
- The printed form of IP addresses in SOCKS requests, and the side effects of the SOCKS5 commands 4, 5 and 6, which all kill the channel.
- Deattack.CrcUpdateContinues: states the continuation for a little-endian host, whose memory order the words of `crc_update` are given in; on a big-endian host the bytes of each word enter in the other order.
- SocksDecoder.DynamicChannel.PreDynamic: assumes room for a ten-byte reply in the output buffer, where the code would be fatal; a dynamic channel has at most two bytes there.
- The early jump to the end of a transcript on an onload event, the padding after its end, the estimation of tau, the server's half of the scheduler, and how `w2w` is paid off by writes.
- `dh.c`, `hashmap.c`, `atomicio.c`, `hostfile.c`, `auth-options.c`, escape processing and forwarding set-up: loops that would only add easier claims.
- FlowProgress.DeliveryAfterClosing: output sides may close at any time, while input sides and extended descriptors stay as they are; extended data that arrives after its descriptor has closed is dropped without being charged, and its window is lost.
