# A verified model of a LoRaWAN server

This project models the parts of a LoRaWAN back end whose correctness rests on arithmetic, protocol state and
cryptographic structure, and proves what they are for. Three connected cores are covered.

* **Frame cryptography and keys.** The table-driven AES is proved equal to FIPS-197, and a bijection for every key and
  block. The streaming CMAC, with its in-place shifts and its kept-back block, returns the RFC 4493 code of a message
  however the message is split. On top of these stand the counter-mode payload cipher, the join server's session keys
  and join-accept, the integrity checks of both network-server roles, and the rule by which a server tells LoRaWAN 1.1
  sessions from 1.0 sessions: that rule is right because AES is injective.
* **The serving network server's downlink side.** The six-slot MAC command ring with its tombstones refines an ordered
  list of commands; the scan of uplink commands is proved against the splitting of a byte string; the scheduler,
  the uplink handling and the handling of sent downlinks form a state machine over which the frame counters are
  proved for all runs. Together with the application server this gives an end-to-end theorem: whatever order requests,
  answers, uplinks, schedulings and radio results come in, a payload found in a transmission decrypts, under the
  counter in its header, to a message the application submitted.
* **Addresses, nonces and slots.** The DevAddr/NetID prefix code and the least-free allocation, the nonce ledger and the
  bound it puts on acceptances, class B ping slots, base64, and the adaptive data rate.

Code that works in place is modelled in place: the AES state and key schedule, the CMAC context, PHYPayloadBin, the
command ring, the base64 buffers and the signal history are arrays, and the servers' state is in classes whose methods
are proved against functions on values. The properties over runs are lemmas about these functions. Fixed-width integers
are `newtype`s or bit-vectors, so a wrap-around is either excluded by proof or written out.

## Files

One module per file. `Basics` holds the shared integer types. `Gf256` and `Fips197` are the field and the standard's
cipher, `Vectors` its published examples, `Aes` the code of libbackend/aes.c; `Rfc4493` is the standard's message authentication code, `Cmac` the code of
libbackend/cmac.c; `PayloadCipher` is LoRa_Encrypt and the byte writers. `SessionKeys`, `NonceLedger` and `JoinAccept`
are the join server with the key storage and the version inference of the network server. `MacQueue` and `MacParser` are
the MAC command ring and the scan of uplink commands. `DataFrame` holds the integrity checks, `DownlinkFrame` the bytes
of a downlink, `DownlinkCounters` the state machine of the frame counters, `ServingServer` the class that implements
it in place, `AppServer` the application server's half, and `DownlinkDelivery` the two servers together. On these stand
`DeliveryReports`, on what the reports of success and failure are worth, `FOptsDelivery`, on the MAC commands a device
finds in a frame, and `CounterReuse`, on payloads that share a counter. `ClassB`,
`DevAddr`, `Base64` and `Adr` are the ping slots, the addresses, the text encoding and the adaptive data rate.

## What was found on the way

Where a promise does not hold of the code, the model keeps the code as it is and a lemma says exactly when the promise
holds.

* NFCntDown falls in one case only, when its last 32-bit value is counted (`OnlyWrapsAround`); the theorems over runs ask
  for a run that does not use up the 32-bit counter.
* An unconfirmed payload is reported to the application as sent with the next successful downlink, even if that downlink
  did not carry it, and as failed although the frame stays and is sent later. `UncarriedIsReported` is such a run, and
  `SuccessReportIsTrueIff` and `FailureIsSentAfterAllIff` say for every run when the frame carries the payload: it was
  built while the payload waited and had its place in it, and no other payload was taken since.
* In LoRaWAN 1.1 two messages share a counter, and with it a keystream, exactly if the application server took no report
  of success between them (`CounterIsSharedIff`, `TwoUnderOneCounter`). In 1.0 no two payloads ever do
  (`OldCountersAreNeverShared`).
* The bound on accepted 1.1 join requests holds exactly for rows whose nonce columns are not NULL
  (`AcceptancesAreBoundedIff`).
* A NetID's base address parses back to it exactly when its identifier fits the width of its type
  (`ParsedOfBaseIff`); fNS_init does not check that.
* Of the CFList lengths let through, exactly with 0 and 16 can a device take the join-accept (`DeviceTakesIff`).
* In LoRaWAN 1.1 the FOpts are encrypted under NFCntDown even in a frame whose header carries AFCntDown. A device that
  decrypts under the header's counter finds the commands exactly if the two keystreams agree on their length
  (`FOptsReachDeviceIff`): always if the counters are equal, and for fifteen bytes of commands not under some counter
  below 257, whatever the key (`FOptsGetLost`).
* In the 1.0 branch a failing insert into the nonces table does not refuse the join: an accepted nonce is never accepted
  again exactly if it could be inserted (`AcceptedNonceNeverRepeatsIff`, `SevenIsAcceptedTwice`).
* The search for a device address never tries the all-ones address: if that is the only free one the mote keeps what it
  had (`LeastFreeIsAssignedIff`, `LastIsNeverGiven`).
* Answers to DevStatus, DutyCycle and RxTimingSetup requests clear nothing from the queue (`AnsweredRequestsAreGone` names
  the seven that do).
* The uplink window keeps the upper half of the counter over a rollover of the lower half (`WindowIsModular`).

What the specification functions compute is pinned down by statements that do not use them: published vectors for the
cipher and the subkeys, laws that determine the message authentication code, the bytes of every block at their offsets,
devices with keys of their own, commands with encodings of their own.

## Model

| member | source | states |
|---|---|---|
| Gf256.TablesAreProducts | libbackend/aes.c:77-92 | Every multiplication macro gives the product of FIPS-197 section 4.2 by its constant, for every byte. |
| Gf256.GfMulAdditive | libbackend/aes.c:81-92 | The field product the tables hold distributes over XOR. |
| Gf256.SBoxDefinition | libbackend/aes.c:96-128 | Every S-box entry is the affine map of the multiplicative inverse of its index, as section 5.1.1 defines it. |
| Gf256.InvSBoxOfSBox | libbackend/aes.c:130-162 | The inverse table undoes the S-box on every byte. |
| Gf256.SBoxOfInvSBox | libbackend/aes.c:130-162 | The S-box undoes the inverse table on every byte. |
| Gf256.XTimeIsConditionalReduction | libbackend/aes.c:82-82 | The branch-free doubling is the shift with the conditional reduction by {1b}. |
| Fips197.MixColumnsInverse | libbackend/aes.c:443-499 | InvMixColumns after MixColumns and MixColumns after InvMixColumns are the identity on every block. |
| Fips197.CipherBijection | libbackend/aes.c:560-637 | For every key schedule and number of rounds the inverse cipher undoes the cipher and the other way round. |
| Vectors.WordLaw | libbackend/aes.c:522-550 | For every legal key each word of the schedule comes from the last word and the one Nk back as section 5.2 writes it, byte by byte: rotated with the round constant, substituted, or as it is. |
| Vectors.Schedule128 | libbackend/aes.c:505-552 | The eleven round keys of appendix A.1 of FIPS-197. |
| Vectors.Schedule192 | libbackend/aes.c:505-552 | The first words after the key in appendix A.2. |
| Vectors.Schedule256 | libbackend/aes.c:505-552 | The first words after the key in appendix A.3, with the extra substitution of 32-byte keys. |
| Vectors.RoundIs | libbackend/aes.c:560-585 | A round is the substitution, the rotation of the rows, the mixing by doublings and sums, and the key addition, written out for each of the sixteen bytes. |
| Vectors.ExampleCipher | libbackend/aes.c:560-637 | The example of appendix B of FIPS-197 is encrypted and decrypted as published. |
| Aes.AddRoundKeyInPlace | libbackend/aes.c:406-409 | The XOR loop adds the round key of section 5.1.4. |
| Aes.CopyAndKey | libbackend/aes.c:376-404 | Copying and keying in one pass gives the keyed block and leaves the rest of the buffer alone. |
| Aes.ShiftSubRows | libbackend/aes.c:411-425 | The fused in-place permutation is ShiftRows of SubBytes. |
| Aes.InvShiftSubRows | libbackend/aes.c:427-441 | Its inverse is InvSubBytes of InvShiftRows. |
| Aes.MixSubColumns | libbackend/aes.c:443-470 | The fused table step is MixColumns of ShiftRows of SubBytes. |
| Aes.InvMixSubColumns | libbackend/aes.c:472-499 | The fused inverse step is InvSubBytes of InvShiftRows of InvMixColumns. |
| Aes.AesContext.SetKey | libbackend/aes.c:505-552 | For 16, 24 and 32 bytes the buffer holds the whole KeyExpansion, with no overflow of the byte-wide counters; any other length is refused and leaves the context unusable. |
| Aes.AesContext.ExpandWord | libbackend/aes.c:522-550 | One round of the schedule loop appends exactly the next word of KeyExpansion. |
| Aes.AesContext.NextTemp | libbackend/aes.c:523-544 | The rotation, substitution and round constant are those of the standard's word, including the extra substitution of long keys. |
| Aes.AesContext.Encrypt | libbackend/aes.c:560-585 | The loop computes the Cipher of section 5.1, or refuses without touching the output when no key is set. |
| Aes.AesContext.EncryptKeyed | libbackend/aes.c:560-585 | After aes_set_key the output is the block enciphered under that key, also in place. |
| Aes.AesContext.Decrypt | libbackend/aes.c:612-637 | The loop computes the InvCipher of section 5.3 and writes sixteen bytes only. |
| Aes.AesContext.DecryptKeyed | libbackend/aes.c:612-637 | After aes_set_key the output is the block deciphered under that key. |
| Aes.BlockBijection | libbackend/aes.c:505-637 | For every key of a legal length and every block, decryption undoes encryption and encryption undoes decryption. |
| Rfc4493.ShiftLeftMovesBits | libbackend/cmac.c:42-47 | The byte-wise shift moves each of the 128 bits one place to the left. |
| Rfc4493.ChainPrefix | libbackend/cmac.c:91-102 | The chain over the first blocks does not depend on what follows them. |
| Rfc4493.CmacOfBlock | libbackend/cmac.c:108-154 | The code of one whole block is the cipher of that block masked with the doubled cipher of zero. |
| Rfc4493.CmacOfPart | libbackend/cmac.c:108-154 | The code of a shorter message is the cipher of the padded message masked with that doubled again. |
| Rfc4493.CmacOfMore | libbackend/cmac.c:91-102 | A block that a whole block follows goes, enciphered, into that block; with the laws for a last block this determines the code of every message. |
| Rfc4493.CmacOfLittleMore | libbackend/cmac.c:108-154 | A block that less than a block follows is chained to the padded rest. |
| Rfc4493.FirstExample | libbackend/cmac.c:119-136 | The first subkey of RFC 4493 section 4 from the cipher of zero given there. |
| Rfc4493.SecondExample | libbackend/cmac.c:119-136 | The second subkey of RFC 4493 section 4, with the reduction. |
| Cmac.XorInto | libbackend/cmac.c:49-55 | The XOR macro adds a block into a buffer in place. |
| Cmac.ShiftInPlace | libbackend/cmac.c:42-47 | LSHIFT with one buffer as both arguments shifts it, although it reads bytes it is about to overwrite. |
| Cmac.DoubleInPlace | libbackend/cmac.c:119-136 | Shift and conditional 0x87 are the doubling of RFC 4493 section 2.3. |
| Cmac.CmacContext.SetKey | libbackend/cmac.c:61-72 | After Init and SetKey the context has absorbed the empty message. |
| Cmac.CmacContext.TopUp | libbackend/cmac.c:79-90 | The kept-back block is topped up, and enters the chain only once more data follows it. |
| Cmac.CmacContext.AbsorbWhole | libbackend/cmac.c:91-102 | Whole blocks enter the chain as long as more than one block remains. |
| Cmac.CmacContext.Update | libbackend/cmac.c:74-106 | A context that absorbed a message has, after Update with any data, absorbed the message followed by the data. |
| Cmac.CmacContext.MaskLast | libbackend/cmac.c:112-145 | The kept-back block is masked with K1, or padded and masked with K2. |
| Cmac.CmacContext.Final | libbackend/cmac.c:108-154 | The digest is the RFC 4493 section 2.4 code of the absorbed message. |
| Cmac.MacOfChunks | libbackend/cmac.c:61-154 | For every split of every message into Update calls the digest is the code of the concatenation. |
| PayloadCipher.Write2ByteValue | libbackend/libserver.c:222-231 | Two little-endian bytes at the pointer, nothing else changed. |
| PayloadCipher.Write3ByteValue | libbackend/libserver.c:206-217 | Three little-endian bytes at the pointer, nothing else changed. |
| PayloadCipher.Write4ByteValue | libbackend/libserver.c:188-204 | Four little-endian bytes at the pointer, nothing else changed. |
| PayloadCipher.Load4OfLittleEndian4 | libbackend/lorawan.h:92-96 | What the writers store the packed structures read back, for every 32-bit value. |
| PayloadCipher.BlockExOr | libbackend/libserver.c:1612-1621 | The bytes of the stretch are XORed, all others kept. |
| PayloadCipher.BuildCounterBlock | libbackend/libserver.c:1652-1660 | Block A of LoRaWAN 1.1 section 4.3.3, up to its index byte. |
| PayloadCipher.LoRaEncrypt | libbackend/libserver.c:1647-1685 | Exactly the stretch the loop touches is XORed with the keystream from the first block index, and nothing else is written; from index 0 the stretch is sixteen bytes longer than the data. |
| PayloadCipher.CryptInvolution | libbackend/libserver.c:1638-1685 | Encryption undoes itself for equal key, address, direction and counter. |
| PayloadCipher.CryptPrefix | libbackend/libserver.c:1667-1684 | The first bytes of the result do not depend on the slack behind the data. |
| PayloadCipher.CounterBlockIsBlockA | libbackend/libserver.c:1652-1667 | Block A has the constant, direction, address, counter and index of LoRaWAN 1.1 section 4.3.3 at their offsets, and no other block has. |
| PayloadCipher.CryptByBlockA | libbackend/libserver.c:1667-1684 | Byte j is XORed with byte j modulo 16 of the enciphered block A whose index is j / 16 further than the first. |
| PayloadCipher.LoopEndsIffIndexCanPass | libbackend/libserver.c:1667-1667 | The 8-bit block index passes the block count exactly when there are at most 254 blocks. |
| SessionKeys.GenerateSessionKey | join_server/main.c:137-166 | The key is the root key's cipher of a block with the type's number, the join nonce, the JoinEUI or NetID, the device nonce and zeros at their offsets. |
| SessionKeys.EncryptionIsInjective | join_server/main.c:160-165 | Under one root key equal session keys come from equal inputs. |
| SessionKeys.DistinctNoncesGiveDistinctKeys | join_server/main.c:150-158 | Different 24-bit join nonces give different keys of one type, whatever the other fields are. |
| SessionKeys.DistinctTypesGiveDistinctKeys | join_server/main.c:143-148 | The four key types of one join and root key give four different keys. |
| SessionKeys.AnswerKeys | join_server/main.c:572-611 | A 1.1 answer carries the three derived network keys, a 1.0 answer the one. |
| SessionKeys.SessionRow.TakeJoinAns | network_server/sNS.c:151-191 | The one key of a 1.0 answer is stored three times, the three of a 1.1 answer each in its column. |
| SessionKeys.VersionAfterJoin | network_server/common.c:1303-1306 | For every join the derived keys, stored as the network server stores them and compared as it compares them, stand in the columns of their names and give the version the device joined with. |
| SessionKeys.InferredVersionIsJoined | network_server/common.c:1303-1306 | For every root key, nonce and identifier the inferred version is the one the device joined with. |
| NonceLedger.JoinMote.TakeNonce | join_server/main.c:346-403 | The decision and the whole new row: the column is compared, then it and joinNonce advance by one; failing statements leave the row alone. |
| NonceLedger.JoinMote.TakeOldNonce | join_server/main.c:404-419 | A recorded nonce or a failing query refuses; an accepted nonce is recorded unless its insert fails. |
| NonceLedger.BooksBalance | join_server/main.c:374-401 | Over every sequence of requests the join nonces issued are consecutive, and their number is what the two columns advanced together. |
| NonceLedger.ColumnsAreBounded | join_server/main.c:377-381 | No sequence of requests takes a column beyond 65535. |
| NonceLedger.NullNeverAdvances | join_server/main.c:371-374 | A NULL column accepts any number of requests and stays NULL. |
| NonceLedger.AcceptancesAreBoundedIff | join_server/main.c:371-391 | At most 131070 requests are ever accepted exactly when neither column is NULL. |
| NonceLedger.SessionKeysNeverRepeat | join_server/main.c:346-403 | Over every sequence of requests the issued join nonces stay within 24 bits and differ, and so do the session keys of one type and root key derived from them. |
| NonceLedger.AcceptedNonceNeverRepeatsIff | join_server/main.c:404-419 | An accepted 1.0 device nonce is refused for ever, whatever requests follow, exactly if it could be inserted. |
| NonceLedger.RecordedNonceIsRefused | join_server/main.c:404-419 | An accepted and inserted nonce differs from every nonce accepted later in the sequence. |
| NonceLedger.SevenIsAcceptedTwice | join_server/main.c:411-417 | Nonce 7 is accepted twice when its first insert fails. |
| JoinAccept.CryptJoinServer | join_server/main.c:174-183 | The first block is deciphered, and the second whenever the length reaches sixteen. |
| JoinAccept.JoinFrameIntegrityCode | libbackend/libserver.c:2089-2104 | The first four bytes of the CMAC of the input. |
| JoinAccept.Assemble | join_server/main.c:426-510 | The buffer holds the header, the fields, the CFList and the integrity code, up to the pointer. |
| JoinAccept.BuildJoinAccept | join_server/main.c:426-544 | A CFList over sixteen bytes is refused. Any other answer tells the version in bit 7 of DLSettings, and the device it is for takes it exactly if the CFList has 0 or 16 bytes: a 1.0 device with NwkKey, a joining 1.1 device with NwkKey and JSIntKey, a rejoining one with JSEncKey and JSIntKey. |
| JoinAccept.RecoverOfTransmission | join_server/main.c:174-183 | Enciphering the transmitted blocks gives back the plain text with its integrity code. |
| JoinAccept.JoinAcceptRoundTrip | join_server/main.c:426-544 | The device recovers every field and the CFList, and the integrity code it recomputes is the one it received. |
| JoinAccept.DeviceTakesIff | join_server/main.c:463-544 | Whatever stands behind the plain text, the device gets all fields back exactly if the CFList has 0 or 16 bytes. |
| JoinAccept.AddressedTakesIff | join_server/main.c:495-544 | The same for each of these three devices with its own keys: it deciphers, recomputes the code over the bytes the specification names, and finds the fields. |
| DataFrame.DataFrameIntegrityCode | network_server/common.c:45-67 | Four bytes of the CMAC of the sixteen-byte block followed by the message. |
| DataFrame.CheckMic | network_server/sNS.c:1934-1953 | A 1.0 uplink passes exactly if its last four bytes are those of the CMAC. |
| DataFrame.CheckCmacS | network_server/sNS.c:1752-1783 | The serving server accepts exactly if the two bytes behind the message are the first two of its CMAC. |
| DataFrame.AuthBlockHasBytes | network_server/common.c:45-67 | The block has 0x49, the confirmed counter, data rate, channel, direction, address, full counter and length at their offsets. |
| DataFrame.BytesMakeAuthBlock | network_server/common.c:45-67 | No other block has these bytes. |
| DataFrame.CheckCmacF | network_server/fNS.c:596-660 | The forwarding server accepts exactly if the last two bytes are the first two of the CMAC over a block with direction up and the message. |
| DataFrame.BothHalvesAreTheMic | network_server/fNS.c:596-660 | For every message exactly the code made of two bytes of each CMAC passes both servers. |
| DataFrame.MicIsFourCmacBytes | network_server/sNS.c:1945-1950 | For every message exactly the first four bytes of the CMAC pass in 1.0. |
| DataFrame.WindowIsModular | network_server/sNS.c:1866-1878 | The signed comparisons accept exactly a counter at most 0x4000 ahead modulo 2^16; the assumed counter falls behind exactly on a rollover. |
| DownlinkFrame.GetQueuedMacCmds | network_server/sNS.c:1419-1484 | FOpts are the queue's longest prefix of at most fifteen bytes, encrypted from block 0 in 1.1; FCtrl gets the length; the queue drops the sent commands that need no answer. |
| DownlinkFrame.EncryptFOpts | network_server/sNS.c:1471-1476 | In spite of the sixteen bytes too many, the header is kept and FOpts are the encrypted commands. |
| FOptsDelivery.FOptsByBlockA | network_server/sNS.c:1471-1481 | In 1.1 byte j of FOpts is the command byte XORed with byte j of the cipher of block A for direction down, NFCntDown and index 0; in 1.0 it is the command byte. |
| FOptsDelivery.DecryptsIff | network_server/sNS.c:1471-1481 | Commands encrypted in one context come back in another exactly if the two keystreams agree on their length. |
| FOptsDelivery.FOptsReachDeviceIff | network_server/sNS.c:1545-1616 | Over every run a device that decrypts FOpts under the counter in the header finds the commands taken out of the queue exactly if, in 1.1, the keystreams of NFCntDown and of that counter agree on their length. |
| FOptsDelivery.FOptsReachDevice | network_server/sNS.c:1545-1616 | Over every run it finds them in 1.0, in frames counted on NFCntDown, and in frames whose AFCntDown equals NFCntDown. |
| FOptsDelivery.SomeCounterLoses | network_server/sNS.c:1471-1476 | For every key, address and NFCntDown some counter below 257 has a keystream that differs within fifteen bytes. |
| FOptsDelivery.FOptsGetLost | network_server/sNS.c:1545-1616 | In every idle 1.1 session and for every fifteen bytes of commands a payload under some AFCntDown makes the device find other bytes. |
| DownlinkFrame.PutHeader | network_server/sNS.c:1619-1633 | With FOpts, port and payload in place, the buffer starts with the frame's message. |
| DownlinkFrame.Seal | network_server/sNS.c:1635-1654 | Right behind the message stand the first four bytes of the CMAC over a block with direction down, the full counter and the length, and the message. |
| DownlinkFrame.EncodedCodeIs | network_server/sNS.c:1635-1652 | Every receiver that puts such a block in front of the bytes before the last four finds the code in those. |
| DownlinkFrame.ReadBackOfEncode | network_server/sNS.c:1862-1863 | The uplink parser's offsets find the address, ACK bit, FOpts, port, payload and lower counter half of every frame. |
| DownlinkFrame.EncodedMicPasses | network_server/sNS.c:1635-1652 | The code of a transmission passes the check over the bytes before it. |
| DownlinkFrame.PhyLengthIsExactIff | network_server/sNS.c:1559-1654 | The 8-bit length arithmetic is exact just for transmissions of at most 255 bytes. |
| DownlinkCounters.NoCounterIsSkipped | network_server/sNS.c:1502-1668 | Over every run NFCntDown never decreases and never passes a value that no scheduled frame carried. |
| DownlinkCounters.UnconfirmedCountersAreUnique | network_server/sNS.c:2506-2527 | Over every run the counters of frames sent on NFCntDown never fall, and an unconfirmed frame's counter is below that of every later one. |
| DownlinkCounters.OnlyWrapsAround | network_server/sNS.c:1486-1498 | A step lowers NFCntDown exactly when it counts the last 32-bit value. |
| DownlinkCounters.AcceptedIsPlacedIff | network_server/sNS.c:2448-2478 | An accepted 1.0 payload goes into the frame answering the next uplink exactly if no counted frame awaits its ACK or the uplink brings it. |
| DeliveryReports.WaitingIsCarriedIff | network_server/sNS.c:1516-1592 | Over every run the unsent frame carries the waiting payload exactly if it was built while that payload waited and had its place in it, and no other payload was taken and no other frame built since. |
| DeliveryReports.SuccessReportIsTrueIff | network_server/sNS.c:2529-2533 | Over every run an unconfirmed payload reported as sent was in the frame sent exactly if a frame was sent, was built while the payload waited and had its place in it, and no other payload was taken since. |
| DeliveryReports.FailureIsSentAfterAllIff | network_server/sNS.c:2506-2533 | Over every run the frame whose failure is reported stays and is the next one sent, so that a payload reported as failed is sent after all under the same condition. |
| DeliveryReports.UncarriedIsReported | network_server/sNS.c:2529-2533 | In both versions a run of five steps after which a payload that no frame carried is reported as sent. |
| DeliveryReports.ReportIsDueIff | network_server/sNS.c:1986-1992 | Over every run a report of success is due exactly if an uplink brought an ACK while a confirmed payload waited and nothing was reported since. |
| DeliveryReports.ConfirmedIsReportedIff | network_server/sNS.c:2529-2535 | So a confirmed payload is reported exactly then, whether the transmission succeeded or not, and never as failed. |
| DeliveryReports.RequestsAreDistinct | app_server/main.c:567-569 | Over every run of both servers the requests have identifiers of their own. |
| DeliveryReports.MailedSuccessIsTrueIff | app_server/web.c:486-504 | The condition for a true report of success, for every run of both servers. |
| ServingServer.ServingMote.TakeUplink | network_server/sNS.c:1974-1994 | The ACK bit counts a due frame once and makes an answer due for a waiting confirmed payload; the whole new state is the specified one. |
| ServingServer.ServingMote.TakeRequest | network_server/sNS.c:2448-2500 | A 1.0 request under another counter than the needed one is refused with that counter and changes nothing; any other is stored, with its identifier. |
| ServingServer.ServingMote.ResendConfirmed | network_server/sNS.c:1880-1905 | The new uplink counter is noted, and in 1.1 the saved confirmed downlink stands in PHYPayloadBin again, byte for byte. |
| ServingServer.ServingMote.NeedsDownlink | network_server/sNS.c:1516-1542 | A frame is built exactly for the listed reasons, and over an unsent one only for a confirmed 1.1 uplink. |
| ServingServer.ReasonsAre | network_server/sNS.c:1516-1542 | The reasons one by one: queued commands, a confirmed uplink, ADRACKReq, an unacknowledged confirmed downlink, a waiting payload. |
| ServingServer.ServingMote.ComposeFrame | network_server/sNS.c:1559-1624 | The payload, the type, the counter and the echoed uplink counter are those of the specified frame. |
| ServingServer.ServingMote.ScheduleDownlink | network_server/sNS.c:1500-1668 | With nothing unsent a frame is built exactly if commands are queued, the uplink was confirmed or asked for an ADR acknowledgement, a confirmed downlink was not acknowledged, or a payload waits; an unsent frame stays unless a confirmed 1.1 uplink replaces it. The bytes parse to the right type, address, ACK bit, counter, FOpts and payload and end with the right code; at least one queued command is sent if there is any, and those that need no answer leave the queue. |
| ServingServer.BuiltOnAir | network_server/sNS.c:1545-1654 | What the parser's offsets find in the transmission, field by field from the state. |
| ServingServer.BuiltHasCode | network_server/sNS.c:1635-1654 | Its code covers the full counter, and in 1.1 once the counter of the confirmed uplink it answers. |
| ServingServer.ServingMote.DownlinkSent | network_server/sNS.c:2506-2535 | The state machine's sent step, and exactly the answer given to the application. |
| DownlinkDelivery.RequestByBlockA | app_server/main.c:546-565 | Byte j of a request is the message's byte XORed with its byte of the cipher of block A for direction down, the reported counter and index 1 + j / 16. |
| DownlinkDelivery.DeviceRecoversPlaintext | app_server/main.c:538-565 | Over every run of both servers a payload in a scheduled frame decrypts under that frame's counter to a message the application submitted. |
| DownlinkDelivery.TransmissionReachesDevice | network_server/sNS.c:1609-1652 | Over every run, from the bytes on the air: the last four bytes are the code a device computes with a block of its own making, and the parsed payload decrypts under the counter it covers to a message the application submitted. |
| DownlinkDelivery.RetryAcceptedIffUnmoved | app_server/web.c:505-520 | A refused 1.0 request sent again under the returned counter is accepted, whatever happened meanwhile, exactly if the network server still needs that counter. |
| DownlinkDelivery.ExchangeKeepsInStep | app_server/web.c:500-504 | From servers that agree on the counter, an undisturbed 1.0 exchange carries the message and leaves them agreeing, one count further. |
| DownlinkDelivery.RunIsSeen | network_server/sNS.c:2430-2503 | In every run of both servers the network server is in the state of its own run over the requests, uplinks, schedulings and radio results it sees. |
| CounterReuse.OldCountersAreNeverShared | network_server/sNS.c:2448-2478 | Over every 1.0 run two frames with payloads under one counter carry the same request, so that no keystream is used for two. |
| CounterReuse.CounterIsSharedIff | app_server/web.c:500-504 | Over every 1.1 run two messages are encrypted under one counter exactly if the application server took no report of success between them. |
| CounterReuse.TwoUnderOneCounter | app_server/main.c:525-565 | In every fresh 1.1 session two different messages stand in frames with one counter when the second is sent while the report on the first is under way. |
| AppServer.AppSession.SendDownlink | app_server/main.c:525-569 | The payload is encrypted under AFCntDown, and that counter and the next identifier are reported; the two-server model's send is exactly this request. |
| AppServer.AppSession.TakeXmitDataAns | app_server/web.c:500-520 | The step the run theorems take: success counts, a returned counter is taken over and the message sent again under it, any other answer changes nothing. |
| MacQueue.FittingIsLongest | network_server/sNS.c:1435-1451 | The drained prefix fits into the room, and no longer one does. |
| MacQueue.FirstFits | network_server/sNS.c:1435-1451 | The first queued command always fits into an empty FOpts field. |
| MacQueue.FewDistinctCommands | network_server/sNS.h:22-28 | In every state the operations keep, at most five commands with distinct opcodes are queued. |
| MacQueue.HeldCoversLive | network_server/sNS.c:1033-1042 | The slots in use hold the live commands in order, and there are at most five of them. |
| MacQueue.LiveOfCleared | network_server/sNS.c:1113-1134 | On the slots in use clearing is the removal from the list. |
| MacQueue.WithoutRemoves | network_server/sNS.c:1113-1134 | Removing an opcode leaves no command with it. |
| MacQueue.CommandQueue.constructor | network_server/sNS.c:1821-1824 | The calloc'ed ring is a valid, empty queue. |
| MacQueue.CommandQueue.Trim | network_server/sNS.c:1019-1026 | The cleanup loop ends, drops the tombstones in front only, and leaves the list and the slots in use as they were. |
| MacQueue.CommandQueue.Contains | network_server/sNS.c:1044-1058 | Found exactly if a live command has the opcode. |
| MacQueue.CommandQueue.Put | network_server/sNS.c:1016-1072 | The command is appended, or everything stays as it was: exactly when it is too long, five slots are in use, or its opcode is queued. |
| MacQueue.CommandQueue.Clear | network_server/sNS.c:1113-1134 | Exactly the commands with the opcode are gone, the order of the others is kept, and a gap stays unless it is in front. |
| MacQueue.CommandQueue.Wipe | network_server/sNS.c:866-881 | The list is empty and no slot is in use, so the next legal put succeeds. |
| MacQueue.CommandQueue.AreQueued | network_server/sNS.c:1400-1414 | True exactly if the list is not empty. |
| MacQueue.CommandQueue.Drain | network_server/sNS.c:1429-1462 | The buffer holds the longest prefix of at most fifteen bytes; of it only the commands that need an answer stay queued, in front of the rest. |
| MacParser.CommandsOfEncoded | network_server/sNS.c:1209-1395 | Whatever end-device commands were put one after the other into a buffer, each with the bytes its definition gives it, are exactly the commands found. |
| MacParser.SplitIsPrefix | network_server/sNS.c:1209-1395 | In any buffer the commands found are its bytes from the first to the end; only the last may run past it. |
| MacParser.EffectOnQueue | network_server/sNS.c:1216-1395 | For each command by name: the request is answered with these bytes, or the request with this opcode is cleared, or the queue stays. |
| MacParser.EffectOnFields | network_server/sNS.c:1216-1395 | For each command by name, the fields it sets. |
| MacParser.LiveAfterScan | network_server/sNS.c:1209-1395 | After the scan the list is the unanswered requests in their old order and behind them the answers put, in the order of their commands. |
| MacParser.SurvivorsUnanswered | network_server/sNS.c:1283-1330 | No request survives whose answer was among the commands, for the seven answers that clear one. |
| MacParser.AnswersAreNotRequests | network_server/sNS.c:1216-1395 | The opcodes the scan queues and those it clears are disjoint. |
| MacParser.AnsweredRequestsAreGone | network_server/sNS.c:1209-1395 | After the scan no LinkADR, RXParamSetup, NewChannel, TXParamSetup, RejoinParam, PingSlotChannel or BeaconFreq request is live whose answer was present; the other answers clear nothing. |
| MacParser.AnswerIsQueuedIff | network_server/sNS.c:1216-1395 | After the scan an answer is queued exactly if one with its opcode was queued before or a command that asks for it found fewer than five slots in use. |
| MacParser.FirstIsAnswered | network_server/sNS.c:1216-1395 | The answer queued is the one to the first such command, byte for byte. |
| MacParser.LastCommandSets | network_server/sNS.c:1229-1239 | After the scan the last PingSlotInfoReq has set period and offset and the last DeviceModeInd the class; without one nothing changed. |
| MacParser.ResetStartsSession | network_server/sNS.c:1343-1361 | A session starts and the adaptive data rate is set back exactly if a ResetInd was among the commands. |
| MacParser.RekeyEndsWait | network_server/sNS.c:1320-1342 | The wait for a RekeyInd ends exactly if a joined mote's for version 1 was among the commands. |
| MacParser.MacState.Dispatch | network_server/sNS.c:1216-1395 | One command is taken whole, and the slots in use and every field change exactly as that command asks. |
| MacParser.MacState.ParseMacCommands | network_server/sNS.c:1180-1398 | The slots in use and every field after the call are what the commands in the buffer, by name and in order, make of those before it, each by its own effect. |
| ClassB.ComputePingOffset | network_server/sNS.c:1142-1175 | The offset is the number made of the first two bytes, lower one first, of the cipher under the zero key of beacon time, address and zeros, modulo the period. |
| ClassB.PingPeriodIs | network_server/sNS.c:1233-1234 | The integer divisions give 32 times 2^p, which divides the 4096 slots of the window. |
| ClassB.ChooseSlot | network_server/fNS.c:126-159 | The 16-bit loop ends without wrapping at the least own slot five slots away, and defers exactly when none is left before the next beacon. |
| ClassB.StepsReachLeast | network_server/fNS.c:129-131 | Stepping by whole periods meets the least slot congruent to the offset past the bound. |
| ClassB.DeferredSlotIsOwn | network_server/fNS.c:1277-1289 | The slot of a deferred frame is one of the device's own, inside the next window. |
| DevAddr.RefusedIff | libbackend/libserver.c:1734-1786 | Exactly the addresses with top byte 0xff are refused. |
| DevAddr.BaseOfParsed | libbackend/libserver.c:1734-1786 | Every other address is rebuilt from the NetID and network address it parses to. |
| DevAddr.ParsedOfBaseIff | network_server/fNS.c:369-416 | An address on a NetID's base parses back to that NetID exactly if the identifier fits its type's width. |
| DevAddr.ExampleAddresses | libbackend/libserver.c:1734-1786 | One address of each type, taken apart into NetID, NwkID and network address. |
| DevAddr.Network.Init | network_server/fNS.c:369-416 | The base and the number of address bits are those of the address plan; a NetID beyond 24 bits is refused. |
| DevAddr.Network.GetDevAddr | network_server/sNS.c:2073-2129 | The search ends at the least address nobody has, at NONE_DEVADDR if that lookup fails, and otherwise leaves the address alone. |
| DevAddr.LeastFreeIsAssignedIff | network_server/sNS.c:2073-2129 | While lookups succeed, a mote gets the least free address whatever it had before exactly if one below the all-ones address is free. |
| DevAddr.LeastFreeIsAssigned | network_server/sNS.c:2073-2129 | In that case the address given out also parses back to the network. |
| DevAddr.NothingFreeBelowLast | network_server/sNS.c:2073-2129 | Otherwise the mote keeps the address it had. |
| DevAddr.LastIsNeverGiven | network_server/sNS.c:2073-2129 | In every network, when only the all-ones address is free the mote does not get it. |
| Base64.TableIsAlphabet | app_server/base64.c:10-11 | The table is the alphabet of RFC 4648 section 4, in order. |
| Base64.GroupHoldsBits | app_server/base64.c:25-80 | The 24 bits of three bytes are those of the four values whose characters make their group. |
| Base64.EncodedLength | app_server/base64.c:25-80 | An encoding has four characters for every started group of three bytes. |
| Base64.DecodeOfEncode | app_server/base64.c:25-151 | Decoding an encoding gives the bytes back exactly for nonempty input. |
| Base64.ForeignCharactersAreSkipped | app_server/base64.c:107-123 | Characters outside the alphabet change nothing, wherever they stand. |
| Base64.Base64Encode | app_server/base64.c:25-80 | The loops produce the encoding inside the computed buffer, with room for the NUL. |
| Base64.Base64Decode | app_server/base64.c:93-151 | The loops produce the decoding, or refuse, inside the computed buffer. |
| Adr.AdrState.TakeUplink | network_server/adr.c:23-28 | The oldest of the three values is replaced. |
| Adr.AdrState.Scan | network_server/adr.c:73-86 | The wrapping scan reads each slot once: the average is the mean, the spread the largest difference. |
| Adr.AdrState.Init | network_server/adr.c:28-54 | A known region sets the three values, the channel masks and the power back, and keeps the place of the next value; an unknown one changes nothing. |
| Adr.AdrState.Adjust | network_server/adr.c:56-127 | The data rate and then the power take the least number of steps that uses the margin up, and a request is made exactly on a change or when forced; without a known region nothing happens. |
| Adr.StableIff | network_server/adr.c:54-90 | Within the bounds the scan assumes, the signal is stable exactly if no two of the three values are 4 dB apart. |
| Adr.StepsAreMonotone | network_server/adr.c:95-110 | A larger margin never gives fewer steps, and the number of steps is determined by the margin. |
| Adr.PowerAfterDataRate | network_server/adr.c:95-110 | Power drops only with the data rate at its maximum, and the margin pays for all steps taken. |

## Left out

- ServingServer.ServingMote.ScheduleDownlink: requires that it is not the path on which a confirmed 1.1 uplink drops an unsent downlink while no payload is placed (network_server/sNS.c:1520-1523), because that path goes on with the old PHYPayloadLen and leaves no well-defined frame; the theorems over runs leave out the same step. It also requires that a frame to be built fits 255 bytes; above that the 8-bit length wraps, as PhyLengthIsExactIff says.
- ServingServer.ServingMote.TakeRequest: takes payloads of at most 244 bytes, the size of FRMPayloadBin; a longer one would be copied beyond it.
- DownlinkFrame.EncryptFOpts: the fifteen bytes read from behind the sixteen-byte buffer are arbitrary values instead of undefined behaviour.
- PayloadCipher.LoRaEncrypt: requires at most 254 blocks; above that the loop of the source does not end, as LoopEndsIffIndexCanPass says.
- MacParser.MacState.ParseMacCommands: requires two readable bytes behind the commands, where a truncated last command is read from.
- MacQueue.CommandQueue.Put: opcode 0, which the ring uses as its tombstone mark and no command has, is excluded.
- Aes.AddRoundKeyInPlace: the word-wise variants of the block operations and the on-the-fly key schedules are compile-time alternatives and not modelled.
- NonceLedger.JoinMote.TakeNonce: a NULL joinNonce, and the clamping of the 24-bit column at its maximum, are not modelled.
- Adr.AdrState.Adjust: signal ratios are real numbers, and the queued request is returned instead of being put into the queue.
- DeliveryReports.ConfirmedIsReportedIff: says when a confirmed payload is reported; whether the device acknowledged that payload or an earlier frame is not modelled.
- DevAddr.Network.GetDevAddr: the sessions table is a function from addresses to lookup results, so it does not change during the search.
- ConfFCntDown and the choice of the confirmed counter for uplink integrity checks: the checks are modelled for every block they are given.
- Class B and C downlinks through downlinkBC, the resend timer, and counting after a deferred class B send: the state machine is that of class A.
- New sessions: a run stays within one session, from which the keys and the version are taken.
- Database: tables are maps updated at once, although the program queues its writes to another process; failing statements are inputs where the code looks at them.
- HTTP, JSON, message queues, gateway sockets, web pages, DNS and transaction identifiers: plumbing.
- Key envelopes (AES key wrap in a foreign library): they carry the key unchanged.
- Roaming start and stop, and the lifetimes of requesters: mostly HTTP and pointer ownership.
- Regional data-rate and channel tables, time on air, beacon corrections: finite tables and floating point.
- The byte packing of sNS_force_rejoin, and the second scanner arib_parse_start_mac_cmd: no clean specification.
