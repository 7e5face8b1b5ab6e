# A verified model of the Chat program and its CRC library

Chat is a peer-to-peer chat program in C. Every program keeps a linked list of the members it knows,
passes such lists around when somebody signs in, protects each packet with a CRC-32 from the libcrc
library it carries along, and runs its work on a small thread pool. This project models those parts
in Dafny and proves what they are for. `dafny verify dfyconfig.toml` checks all of it.

## The CRC library

`Lfsr` is the plain thing: a register of bits that is clocked once per message bit, which is division
over GF(2). It knows nothing of bytes, words or tables. Its main results are that the register is the
unique remainder of the message polynomial, that it is linear, that a generator with a constant term
never loses a burst as long as the register is wide, and that a generator divisible by x + 1 keeps
the parity. `Words`, `Messages` and `ByteSteps` connect machine words and bytes with bit strings, in
either bit order, and show that one table step is eight bit steps. `CrcLaws` states the laws for a
`Variant`, the parameters one source file fixes.

`ReflectedCrc16` (with `Crc16`, `CrcKermit`, `CrcDnp`), `Crc32`, `CrcCcitt`, `Crc64` and `Crc8` are
the C code: tables filled by their own loops, lazily or beforehand, the streaming step, the one-shot
loop and the finalisation. Each method is proved to compute `Crc(variant, message)`, so the laws, and
their instances in `CrcTheorems`, are about the values the C functions return. `CrcSick` is the odd
one out, a register that shifts once per byte, and has its own theory. `Generators` gives every
generator by its exponents, and `CheckValues` proves the values the library lists for
"123456789", so the constants are those of the CRCs the functions are named after.

`Chat/libcrc/USAGE.md` asks for a complement at the end of Kermit and SICK; the code takes none, and
the model follows the code.

## The membership protocol

`Members` is the list as a sequence, `MemberList` the C list itself: nodes linked by `next`, a counter,
pointer walks, linking and unlinking, each method proved to change the sequence as it should.
`ByteOrder`, `Packets` and `Wire` are the payload: the encoding and decoding loops on a 400-byte array,
for every pairing of little- and big-endian hosts, and what a payload says apart from byte order and
padding. `PacketCrc` is the header and the CRC check.

`Gossip` is the protocol as steps of a whole network: programs start, sign in, quit, handle one packet
at a time in any order, and packets get lost. A quit by an unknown name jams the program that receives
it, as it does in C. `Peer` is the C code of one program, and every sender and
receiver in it is proved to do to list, flag and wire exactly what the corresponding step of `Gossip`
says; `Peer.ReceiveSaid` puts a sender and a receiver together. `Gossip` proves, over all runs, where entries come from and that the packets die out;
`Convergence` proves that one sign-in between two groups ends, after exactly as many packets as there
are members, with everybody knowing everybody. `Departure` proves what a quit does in a network in which
nobody is about to hear of the one who quits. `Convergence` assumes reliable delivery, that nobody else signs in
or quits meanwhile, and that each handler is one atomic step; sending a sign-in and setting the flag
are one step.

## The thread pool

`TaskQueue` is the linked list of jobs. `PoolRuns` is the pool as a step system: any number of workers
and submitting threads, each moving one C statement or so at a time, with the mutex, the condition
variable, wake-ups nobody asked for, cancellation inside `pthread_cond_wait` and during a job. A worker
cancelled during a job loses that job's node, as the C code does. Jobs are assumed to return: a worker
running one can always finish, although a job that waits for the mutex of `task.c` may in fact wait. Its main results hold in every state
of every run: no sleeping on work, no job taken out of order or lost
while its worker lives, no node freed twice.

## Model

| member | source | states |
|---|---|---|
| Lfsr.RunIsTheRemainder | Chat/libcrc/src/crc32.c:58-66 | the register after the loop is the remainder of message times x^w (start value added to the highest powers) modulo the generator, and no other word is such a remainder |
| Lfsr.Division | Chat/libcrc/src/crc64.c:58-66 | dividend = generator times quotient plus register, for every message and start value |
| Lfsr.RemainderUnique | Chat/libcrc/src/crc64.c:58-66 | quotient and remainder of that division are unique |
| Lfsr.RunLinear | Chat/libcrc/src/crc16.c:58-66 | the register is additive in start value and message together |
| Lfsr.RunToZero | Chat/libcrc/src/crcccitt.c:99-107 | up to a register width of message leaves zero exactly when the register began with those bits |
| Lfsr.RunInjective | Chat/libcrc/src/crc64.c:58-66 | for a fixed message, different start values never end in the same register |
| Lfsr.BurstDetected | Chat/libcrc/src/crc32.c:52-68 | two messages whose differences fit one register width end in the same register exactly when they are equal |
| Lfsr.RunParity | Chat/libcrc/src/crc16.c:52-98 | with x + 1 dividing the generator, register parity = start parity plus message parity |
| Lfsr.TrailerToResidue | Chat/libcrc/src/crc16.c:52-98 | one register width of trailer reaches a given residue exactly when it is register plus constant |
| CrcLaws.RegisterIsRemainder | Chat/libcrc/src/crc16.c:58-66 | the same for byte strings in either bit order: the table-driven register is the polynomial remainder, and nothing else is |
| CrcLaws.BurstLaw | Chat/libcrc/src/crcccitt.c:93-111 | equal length, differences within one register width: equal CRC exactly when equal message |
| CrcLaws.OneByteLaw | Chat/libcrc/src/crc64.c:52-94 | replacing any one byte changes the CRC |
| CrcLaws.ParityLaw | Chat/libcrc/src/crcdnp.c:52-77 | CRC parity = message parity when the constants are even |
| CrcLaws.AffineLaw | Chat/libcrc/src/crc16.c:52-98 | for three messages of one length, the CRC of the sum is the sum of the CRCs |
| CrcLaws.StartValueLaw | Chat/libcrc/src/crcccitt.c:51-111 | variants with the same generator differ by an amount that depends on the length alone |
| CrcLaws.StartValueEffect | Chat/libcrc/src/crc64.c:52-94 | that amount is the difference of the constants run through a zero message |
| CrcLaws.ResidueLaw | Chat/libcrc/src/crc32.c:52-68 | a trailer leaves the residue exactly when it is the CRC of the message before it |
| CrcLaws.ZeroResidue | Chat/libcrc/src/crckrmit.c:64-73 | the residue is zero exactly for variants without a final complement |
| CrcLaws.StreamingLaw | Chat/libcrc/src/crc32.c:77-81 | a message may be fed in two pieces, the second starting from the register of the first |
| ByteSteps.LowByteStep | Chat/libcrc/src/crc16.c:107-113 | shift, look up and add equals eight bit steps with the byte, low bit first |
| ByteSteps.HighByteStep | Chat/libcrc/src/crcccitt.c:120-126 | the same for registers that shift left |
| ReflectedCrc16.LazyTable.InitTab | Chat/libcrc/src/crc16.c:124-149 | after the nested loops every entry is its index clocked eight times, and the flag is set |
| ReflectedCrc16.LazyTable.Entry | Chat/libcrc/src/crckrmit.c:101-126 | the inner loop with its separate crc and c yields the clocked index |
| ReflectedCrc16.LazyTable.Update | Chat/libcrc/src/crcdnp.c:86-92 | one streaming step builds the table if need be and feeds the byte bit by bit, whether it was built before or not |
| ReflectedCrc16.LazyTable.Fold | Chat/libcrc/src/crc16.c:52-70 | the one-shot loop is the fold of the streaming step from any start value, null input included, and the register of the whole message |
| ReflectedCrc16.SwapTwice | Chat/libcrc/src/crckrmit.c:69-73 | the byte swap at the end is its own inverse |
| ReflectedCrc16.FoldBits | Chat/libcrc/src/crc16.c:58-66 | the fold of the streaming step, as a word, is the division register of the message |
| Crc16.Crc16 | Chat/libcrc/src/crc16.c:52-70 | crc_16 is the fold of update_crc_16 from 0, and the CRC of the general theory with its constants |
| Crc16.CrcModbus | Chat/libcrc/src/crc16.c:80-98 | the same with start value 0xFFFF |
| CrcKermit.CrcKermit | Chat/libcrc/src/crckrmit.c:51-75 | crc_kermit is the byte-swapped fold of update_crc_kermit; swapped back it is that CRC; no complement is taken |
| CrcDnp.CrcDnp | Chat/libcrc/src/crcdnp.c:52-77 | crc_dnp is the complemented, then byte-swapped fold of update_crc_dnp; swapped back it is that CRC with final complement |
| Crc32.Crc32Table.InitCrc32Tab | Chat/libcrc/precalc/crc32_table.c:46-65 | every entry of the generated table is its index clocked eight times |
| Crc32.Crc32Table.Entry | Chat/libcrc/precalc/crc32_table.c:52-63 | the inner loop that starts at i itself gives the same clocked index as the builders that keep crc and c apart |
| Crc32.Crc32Table.UpdateCrc32 | Chat/libcrc/src/crc32.c:77-81 | the table step equals feeding the byte a bit at a time without a table |
| Crc32.Crc32Table.Crc32 | Chat/libcrc/src/crc32.c:52-68 | crc_32 equals the bit-serial algorithm of section 8 of RFC 1952 on every input, null included |
| Crc32.FoldBits | Chat/libcrc/src/crc32.c:58-66 | the bit-serial register is the division register of the message |
| Crc32.Crc32Bits | Chat/libcrc/src/crc32.c:52-68 | so the returned word is the CRC of the general theory, complemented |
| CrcCcitt.CcittTable.InitCrcCcittTab | Chat/libcrc/src/crcccitt.c:137-162 | lazily built table: every entry is its index, moved up, clocked eight times |
| CrcCcitt.CcittTable.UpdateCrcCcitt | Chat/libcrc/src/crcccitt.c:120-126 | one streaming step feeds the byte a bit at a time, high bit first, whether the table was built before or not |
| CrcCcitt.FoldBits | Chat/libcrc/src/crcccitt.c:99-107 | the fold of the streaming step, as a word, is the division register of the message |
| CrcCcitt.CcittTable.CrcCcittGeneric | Chat/libcrc/src/crcccitt.c:93-111 | for every start value the result is the fold of update_crc_ccitt and the CRC of the general theory |
| CrcCcitt.CcittTable.CrcXmodem | Chat/libcrc/src/crcccitt.c:51-55 | start value 0 |
| CrcCcitt.CcittTable.CrcCcitt1D0F | Chat/libcrc/src/crcccitt.c:65-69 | start value 0x1D0F |
| CrcCcitt.CcittTable.CrcCcittFFFF | Chat/libcrc/src/crcccitt.c:79-83 | start value 0xFFFF |
| Crc64.Crc64Table.InitCrc64Tab | Chat/libcrc/precalc/crc64_table.c:48-71 | every entry of the generated table is its index at the top, clocked eight times |
| Crc64.Crc64Table.UpdateCrc64 | Chat/libcrc/src/crc64.c:103-107 | one table step equals feeding the byte a bit at a time without a table |
| Crc64.FoldBits | Chat/libcrc/src/crc64.c:58-66 | the fold of that step, as a word, is the division register of the message |
| Crc64.Crc64Table.Crc64Ecma | Chat/libcrc/src/crc64.c:52-68 | crc_64_ecma is the fold of update_crc_64 from 0 and the CRC of the general theory (Annex B of ECMA-182) |
| Crc64.Crc64Table.Crc64We | Chat/libcrc/src/crc64.c:78-94 | crc_64_we is the complemented fold from all ones, and that CRC |
| Crc8.TableIsEight | Chat/libcrc/src/crc8.c:46-64 | every one of the 256 literals is its index clocked eight times with polynomial 0x31 |
| Crc8.UpdateCrc8 | Chat/libcrc/src/crc8.c:99-103 | one look-up is eight bit steps of division |
| Crc8.Crc8 | Chat/libcrc/src/crc8.c:73-89 | crc_8 is the fold of update_crc_8 and the CRC of the general theory |
| Crc8.FoldBits | Chat/libcrc/src/crc8.c:73-89 | that fold, as a byte, is the division register of the message |
| CrcSick.UpdateCrcSick | Chat/libcrc/src/crcsick.c:87-102 | one bit step and the addition of this byte beside the previous one |
| CrcSick.CrcSick | Chat/libcrc/src/crcsick.c:45-78 | crc_sick is the byte-swapped fold of update_crc_sick with previous byte 0 first |
| CrcSick.FoldBits | Chat/libcrc/src/crcsick.c:59-70 | that fold, as a word, is the register of the theory of this file |
| CrcSick.SickParity | Chat/libcrc/src/crcsick.c:59-70 | the parity of the result is the parity of the last byte only |
| CrcSick.SingleByteDetected | Chat/libcrc/src/crcsick.c:59-70 | messages of one length that differ in exactly one byte never collide |
| CrcTheorems.LibraryBurst | Chat/libcrc/src/crc32.c:52-68 | all eleven polynomial CRCs: a burst no longer than the CRC goes unnoticed exactly when there is none |
| CrcTheorems.LibraryOneByte | Chat/libcrc/src/crc8.c:73-89 | all eleven notice any change of one byte |
| CrcTheorems.LibraryParity | Chat/libcrc/src/crc64.c:52-94 | all but CRC-32 have the parity of the message |
| CrcTheorems.OddDamageDetected | Chat/libcrc/src/crc16.c:52-98 | so any odd number of flipped bits is noticed |
| CrcTheorems.LowFirstResidue16 | Chat/libcrc/src/crc16.c:52-98 | appending what crc_16 or crc_modbus returns low byte first leaves the residue, and no other two bytes do |
| CrcTheorems.SwappedResidue16 | Chat/libcrc/src/crcdnp.c:65-75 | appending what crc_kermit or crc_dnp returns, whose bytes are exchanged, high byte first leaves the residue, and no other two bytes do |
| CrcTheorems.LowFirstResidue32 | Chat/libcrc/src/crc32.c:52-68 | the same for crc_32 low byte first |
| CrcTheorems.HighFirstResidue16 | Chat/libcrc/src/crcccitt.c:93-111 | the same for the CCITT forms high byte first |
| CrcTheorems.HighFirstResidue64 | Chat/libcrc/src/crc64.c:52-94 | the same for both CRC-64s high byte first |
| CrcTheorems.FamiliesDifferByLength | Chat/libcrc/src/crcccitt.c:51-83 | crc_16 and crc_modbus, the three CCITT forms, and the two CRC-64s differ by a value that depends on length alone |
| CrcTheorems.SameGenerator | Chat/libcrc/src/crckrmit.c:101-126 | 0x8408 is 0x1021 read from the other end |
| CrcTheorems.RevMessageBits | Chat/libcrc/src/crckrmit.c:51-75 | reading bytes low bit first is reading the reversed bytes high bit first |
| CrcTheorems.KermitIsReversedXmodem | Chat/libcrc/src/crckrmit.c:51-75 | crc_kermit of a message, bytes swapped, reversed bit by bit, is crc_xmodem of the message with every byte reversed, and nothing else is |
| CrcTheorems.KermitLoopIsReversedXmodemLoop | Chat/libcrc/src/crckrmit.c:51-75 | for every message, the word the Kermit loop ends with is the reversal of the word the XModem loop ends with over reversed bytes |
| Generators.Crc16Generator | Chat/libcrc/include/checksum.h:46-46 | CRC-16 and Modbus divide by x^16 + x^15 + x^2 + 1 |
| Generators.KermitGenerator | Chat/libcrc/include/checksum.h:51-51 | Kermit divides by x^16 + x^12 + x^5 + 1 |
| Generators.DnpGenerator | Chat/libcrc/include/checksum.h:50-50 | DNP divides by x^16 + x^13 + x^12 + x^11 + x^10 + x^8 + x^6 + x^5 + x^2 + 1 |
| Generators.CcittGenerator | Chat/libcrc/include/checksum.h:49-49 | the CCITT forms divide by x^16 + x^12 + x^5 + 1 |
| Generators.SickGenerator | Chat/libcrc/include/checksum.h:52-52 | SICK steps with x^16 + x^15 + x^2 + 1 |
| Generators.Crc32Generator | Chat/libcrc/include/checksum.h:47-47 | CRC-32 divides by the polynomial of section 8 of RFC 1952, given by its exponents |
| Generators.Crc64Generator | Chat/libcrc/include/checksum.h:48-48 | CRC-64 divides by the polynomial of Annex B of ECMA-182, given by its exponents |
| Generators.Crc8Generator | Chat/libcrc/src/crc8.c:46-64 | CRC-8 divides by x^8 + x^5 + x^4 + 1 |
| CheckValues.Crc16Check | Chat/libcrc/test/testcrc.c:63-63 | crc_16 of "123456789" is 0xBB3D |
| CheckValues.ModbusCheck | Chat/libcrc/test/testcrc.c:63-63 | crc_modbus of it is 0x4B37 |
| CheckValues.KermitCheck | Chat/libcrc/test/testcrc.c:63-63 | crc_kermit of it is 0x8921 |
| CheckValues.DnpCheck | Chat/libcrc/test/testcrc.c:63-63 | crc_dnp of it is 0x82EA |
| CheckValues.XmodemCheck | Chat/libcrc/test/testcrc.c:63-63 | crc_xmodem of it is 0x31C3 |
| CheckValues.Ccitt1D0FCheck | Chat/libcrc/test/testcrc.c:63-63 | crc_ccitt_1d0f of it is 0xE5CC |
| CheckValues.CcittFFFFCheck | Chat/libcrc/test/testcrc.c:63-63 | crc_ccitt_ffff of it is 0x29B1 |
| CheckValues.Crc32Check | Chat/libcrc/test/testcrc.c:63-63 | crc_32 of it is 0xCBF43926 |
| CheckValues.EcmaCheck | Chat/libcrc/test/testcrc.c:63-63 | crc_64_ecma of it is 0x6C40DF5F0B497347 |
| CheckValues.WeCheck | Chat/libcrc/test/testcrc.c:63-63 | crc_64_we of it is 0x62EC59E3F1A4F00A |
| CheckValues.Crc8Check | Chat/libcrc/test/testcrc.c:63-63 | crc_8 of it is 0xA2 |
| CheckValues.SickCheck | Chat/libcrc/test/testcrc.c:63-63 | crc_sick of it is 0x56A6 |
| Members.Add | Chat/src/list.c:39-74 | adding keeps the old list as a prefix and names and addresses pairwise distinct |
| Members.Merge | Chat/src/task.c:592-623 | so does merging any received list |
| Members.MergeIdempotent | Chat/src/task.c:591-623 | a second merge of the same payload changes nothing, whatever is in it |
| Members.MergeSettles | Chat/src/task.c:591-623 | after a merge every entry of the payload is present or shut out by a clash |
| Members.MergeIsUnion | Chat/src/task.c:591-623 | within one directory merging is set union |
| Members.MergeCommutes | Chat/src/task.c:591-623 | so two merges commute as far as who is known |
| Members.MergeOfStrangers | Chat/src/task.c:591-623 | a list of strangers is appended in order |
| Members.AddThenDelete | Chat/src/list.c:39-148 | a successful add undone by a delete of the same name gives the very same list |
| Members.AddedIsFound | Chat/src/list.c:39-148 | and the delete does find the added entry |
| Members.DeleteKeeps | Chat/src/list.c:120-148 | deleting keeps the head and distinctness and removes exactly one member |
| MemberList.MemberList.ListInit | Chat/src/list.c:21-36 | one-entry list, or nothing when memory is short |
| MemberList.MemberList.ListNewMember | Chat/src/list.c:38-74 | refuses clashes, a missing list and lack of memory, else appends; chain, counter and distinctness are kept |
| MemberList.MemberList.FindClash | Chat/src/list.c:49-54 | the first loop finds a clash exactly when there is one |
| MemberList.ClashTest | Chat/src/list.c:49-54 | a clash is the same name or the same address |
| MemberList.MemberList.ListSearchMemberId | Chat/src/list.c:76-96 | the entry with that name, or the zeroed record when there is none |
| MemberList.MemberList.ListSearchMemberIp | Chat/src/list.c:98-118 | the same by address |
| MemberList.MemberList.ListDeleteMember | Chat/src/list.c:120-148 | unlinks the first entry after the head with that name, or reports that there is none |
| MemberList.MemberList.ListDelete | Chat/src/list.c:150-169 | frees every node once, first to last, and zeroes the counter |
| MemberList.MemberList.ListNoOfMembers | Chat/src/list.c:194-198 | the counter is the number of members |
| ByteOrder.HeaderWord | Chat/src/task.c:203-203 | a header word converted with htonl, carried as bytes and converted back is unchanged for all four pairings of byte orders |
| ByteOrder.HeaderHalf | Chat/src/task.c:174-174 | the same for the 16-bit length |
| ByteOrder.EncodedIsMemory | Chat/src/task.c:184-189 | the four bytes written are the bytes of the address in the sender's memory |
| ByteOrder.DecodedIsLoad | Chat/src/task.c:487-493 | the receiver loads them as its own memory would hold them |
| ByteOrder.LoadStores | Chat/src/task.c:487-493 | what was loaded lies in memory as the bytes it was loaded from |
| CrcCcitt.High16Injective | Chat/libcrc/src/crcccitt.c:93-111 | the bits of the theory determine the returned word |
| Crc64.High64Injective | Chat/libcrc/src/crc64.c:52-94 | the same for 64 bits |
| ReflectedCrc16.Low16Injective | Chat/libcrc/src/crc16.c:52-98 | the same for reflected 16-bit words |
| ByteOrder.HalfOnTheWire | Chat/src/task.c:174-174 | the converted length goes out high byte first from either kind of host |
| ByteOrder.WordOnTheWire | Chat/src/task.c:203-203 | a converted word goes out most significant byte first from either kind of host |
| ByteOrder.MostSignificantFirst | Chat/src/task.c:186-189 | which byte of a word each mask and shift picks |
| ByteOrder.MemoryOrder | Chat/src/task.c:184-189 | the lowest address holds the least significant byte on a little-endian host, the most significant on a big-endian one |
| Packets.EncodeSignIn | Chat/src/task.c:182-202 | send_sign_in writes count and entries, every entry readable back, and nothing beyond them |
| Packets.EncodeMemberList | Chat/src/task.c:356-374 | send_member_list does the same with whole name buffers |
| Packets.MergePayload | Chat/src/task.c:591-623 | the decoding loop turns the list into the merge of the decoded payload |
| Wire.EncodedMeaning | Chat/src/task.c:182-202 | an encoded list can be read back and says exactly the sender's members in order |
| Wire.GlobalMerge | Chat/src/task.c:591-623 | merging commutes with forgetting byte order and padding |
| Wire.ReceivedMeaning | Chat/src/task.c:591-623 | what a receiver's list becomes depends only on what the payload says |
| Wire.RoundTrip | Chat/src/task.c:346-374 | a disjoint receiver ends with its own list followed by the sender's in order, same address bytes in memory, same C strings |
| Wire.ReadsAnn | Chat/src/packet.h:4-11 | one payload byte by byte: count, address, name and padding of a list of one |
| Wire.Numbers | Chat/src/task.h:7-25 | the packet types, version and sizes |
| PacketCrc.Seal | Chat/src/task.c:172-203 | the header every sender but send_error builds: version 1, length high byte first, CRC-32 of the covered bytes most significant byte first |
| PacketCrc.CrcIsEqual | Chat/src/task.c:723-725 | compares crc_32 of the given bytes |
| PacketCrc.UndamagedPasses | Chat/src/task.c:679-684 | an undamaged packet passes the check for every pairing of byte orders |
| PacketCrc.BurstIsCaught | Chat/src/task.c:679-684 | damage to the covered bytes within 32 consecutive bits passes exactly when there is none |
| Peer.Peer.SendUpdate | Chat/src/task.c:423-459 | sends the same entries to everyone after the head who can be reached, as the protocol's forwarding step says |
| Peer.Peer.SendMemberList | Chat/src/task.c:320-381 | one MEMBER_LIST packet with the whole list, or nothing when the address cannot be reached |
| Peer.Peer.SendSignIn | Chat/src/task.c:151-215 | one SIGN_IN packet and the flag set, or nothing at all |
| Peer.Peer.SendQuit | Chat/src/task.c:222-259 | the own name, short enough for a name buffer, in a packet whose check covers it and its NUL, to everyone after the head who can be reached |
| Peer.Peer.SendMsg | Chat/src/task.c:266-312 | one packet with the text and its NUL, length strlen + 1, to the entry of that name if its address is not 0 and can be reached, else nothing |
| Peer.Peer.RecvSignIn | Chat/src/task.c:472-518 | list, flag and packets sent are exactly the protocol's sign-in step |
| Peer.Peer.RecvMemberList | Chat/src/task.c:574-630 | list, flag and packets sent are exactly the protocol's listing step |
| Peer.Peer.RecvQuit | Chat/src/task.c:526-544 | unlinks the first entry after the head that bears the name in the payload, or, if there is none, leaves the list alone and keeps the mutex for good; that is the protocol's sign-out step |
| Peer.Peer.Receive | Chat/src/task.c:647-716 | dispatch by type; a failed check is reported and changes nothing else |
| Peer.Peer.ReceiveSaid | Chat/src/task.c:647-716 | sender and receiver composed: what was sent as a protocol message passes the check and is handled as that message, for every pairing of byte orders |
| Peer.NamedPasses | Chat/src/task.c:222-259 | a sign-out packet gives its receiver a name that ends within 16 bytes, a length that covers it, and a check that passes |
| Peer.CarriedPasses | Chat/src/task.c:203-205 | the check of a packet with members covers exactly the count and those members |
| Peer.BroadcastForwards | Chat/src/task.c:440-458 | the loop over the list sends what the protocol calls forwarding |
| Gossip.SignOutRemoves | Chat/src/task.c:526-544 | a sign-out takes out exactly the members after the head with that name, and jams the program exactly when there is none |
| Gossip.StepKeeps | Chat/src/task.c:472-630 | provenance is kept by every step: sign-in, handling, quit, start and loss |
| Gossip.RunKeeps | Chat/src/task.c:160-203 | in every state of every run, with any number of sign-ins, all entries belong to real members, lists are distinct and start with their owner, sign-ins start with their sender |
| Gossip.ReplyGoesToSigner | Chat/src/task.c:498-502 | the reply to a sign-in goes to its sender, whose entry then is in the list |
| Gossip.DeliveryWeighs | Chat/src/task.c:483-630 | handling a packet lowers the potential, since forwarding uses up the flag |
| Gossip.GossipEnds | Chat/src/task.c:586-588 | without new commands at most Potential packets are handled or lost, from any state a run can reach |
| Convergence.DeliveryConverges | Chat/src/task.c:472-630 | every delivery after a sign-in keeps the invariant and leaves exactly one packet fewer to handle |
| Convergence.Begins | Chat/src/task.c:151-215 | the sign-in establishes it, with as many packets to handle as there are members |
| Convergence.ForwardTells | Chat/src/task.c:440-458 | what is forwarded tells each other member of the own group once |
| Convergence.Converges | Chat/src/task.c:152-630 | in any order of deliveries exactly |A| + |B| packets are handled, until then one can be, and then every list holds every member of both groups exactly once, owner first |
| Convergence.StrangersCanMeet | Chat/src/task.c:151-215 | the situation is not an empty one: any two freshly started programs can meet like this |
| Convergence.PacketsStaySmall | Chat/src/task.c:151-215 | no packet on the way lists more members than one group has, so groups of 19 fit the payload |
| Departure.SignOutsReach | Chat/src/task.c:244-257 | send_quit tells every reachable member after the head |
| Departure.SignOutsOnce | Chat/src/task.c:244-257 | and nobody twice |
| Departure.QuitStarts | Chat/src/task.c:222-259 | a quit in a quiet network establishes the invariant of a departure |
| Departure.DeliveryKeepsLeaving | Chat/src/task.c:526-544 | every delivery keeps it, in any order |
| Departure.Departs | Chat/src/task.c:222-544 | in every run after a quit: whoever has handled its sign-out no longer lists the one who quit and still lists everybody else; whoever was not told knows what it knew; stuck is exactly who was told of somebody it did not know |
| Departure.GroupShrinks | Chat/src/task.c:222-544 | a group in which everybody lists everybody ends with everybody left listing exactly everybody left |
| Departure.MeetThenPart | Chat/src/task.c:152-544 | the network a meeting ends with is quiet, so the two theorems can be used one after the other |
| TaskQueue.ThreadPool.AddTask | Chat/src/thpool.c:66-103 | appends one fresh node; chain and counter agree |
| TaskQueue.ThreadPool.TakeFirst | Chat/src/thpool.c:139-145 | takes the first job off the list and leaves the rest in order |
| PoolRuns.FirstSteps | Chat/src/thpool.c:45-131 | a fresh worker locks first, and with no job added goes to sleep |
| PoolRuns.StepKeeps | Chat/src/thpool.c:58-158 | every step of every thread keeps the whole invariant |
| PoolRuns.RunKeeps | Chat/src/thpool.c:9-199 | so it holds in every state of every run, spurious wake-ups and cancellation included |
| PoolRuns.WorkerAttended | Chat/src/thpool.c:128-146 | no worker step can leave a job to sleepers |
| PoolRuns.NobodySleepsOnWork | Chat/src/thpool.c:128-146 | with the mutex free and nobody cancelled, workers on their way to the lock number at least min(counter, N - running) |
| PoolRuns.EveryJobOnce | Chat/src/thpool.c:66-152 | jobs are taken in lock order of adding; every one is queued, held, freed by its taker or lost with it, once; counter is the list length when the mutex is free |
| PoolRuns.FreedOnce | Chat/src/thpool.c:139-152 | a node is freed once, by the worker that took it, when nobody else holds it |
| PoolRuns.NeverTakesFromEmpty | Chat/src/thpool.c:129-141 | a worker past the counter check always finds a node |
| PoolRuns.AllAsleepAllDone | Chat/src/thpool.c:128-152 | a pool whose workers all sleep has run and freed every job ever added |
| PoolRuns.NeverStuck | Chat/src/thpool.c:75-146 | while a job waits the mutex owner can go on, or, if there is none, some worker can |
| PoolRuns.CancelledCanLeave | Chat/src/thpool.c:184-192 | after pthread_cancel, while a cancelled worker is still there the mutex owner can go on, or, if there is none, that worker can |
| PoolRuns.WorkerExclusive | Chat/src/thpool.c:108-134 | being between lock and unlock is owning the mutex, so cleanup_handler unlocks only a mutex its thread holds |
| PoolRuns.DestroyLeavesNoLock | Chat/src/thpool.c:184-192 | once all workers are gone none of them has left the mutex locked |

## Left out

- Sockets, address look-up, the accept loop and everything else of `client.c` and `server.c`: I/O. Which addresses answer is a parameter, and a packet arrives whole or not at all.
- `send_all_data` after a partial send: it advances in whole packets, so nothing is claimed about partial sends.
- `send_error` and `recv_error`: the length is swapped twice and the check value cut to 16 bits, so the header law does not hold there.
- `recv_quit` copies the name through a variable it never set; the model takes the name from the payload.
- A program that has kept its mutex (`recv_quit` with an unknown name) blocks at its next lock; in the model it takes no further step, and no packet to it is handled.
- A failed CRC check only prints a line, so no result says that damaged packets are ignored.
- More than 19 members in a packet and names without a NUL in their 16 bytes: preconditions, since the C code would read or write past its buffers.
- The unlocked reads of `sign` and of the member count: handlers are atomic steps.
- Convergence.Converges: one sign-in at a time; with sign-ins of several programs at once, or quits in between, no convergence is claimed (provenance and termination do cover them).
- Departure.Departs: a list with the quitter's entry that is still on its way can bring the entry back, so nothing is claimed for a quit while such a list or a sign-in is on its way.
- Peer.Peer.RecvSignIn: the reply the C loop sends at `i == 0` is a statement before the loop; nothing is merged before it in either.
- Memory shortage is a parameter of the list operations; the decoding loops are modelled with enough memory.
- MemberList.MemberList.ListDelete: the list variable still refers to freed nodes afterwards, and its further use, like a second `List_init`, is outside the model.
- The name buffer of a node is a value of 16 bytes, so aliasing between a payload and a node's name, which the C code copies, does not arise.
- `crc_16`, `crc_modbus`, `crc_kermit` and `crc_dnp` use one class for their three private tables, and each call is given the table of its file.
- Crc8.TableIsEight: the 256 literals are written as sixteen constant rows.
- Integer widths: bit-vectors for registers and addresses, a 16-bit range type for the length; counts and lengths of messages are unbounded.
- The pool and the heap queue meet only in their specifications: `PoolRuns` names nodes by numbers and treats the list as a sequence.
- Steps of `pthread_cond_signal` wake one sleeper; waking more is covered by wake-ups nobody asked for.
- Repeated `Thpool_free` at shutdown, failure of thread creation, and error returns of the mutex functions.
- `recv_msg`, `List_print`, the command line, `checksum_NMEA`, `taskqueue.c`, the text output of the table generator and the example programs: I/O or easy.
