# Protocol code of the Flamingo app: verified models

The app's own Swift code is user interface and storage. What can go wrong in interesting ways is the protocol code in
its pods: the nanopb codec and the parts of BoringSSL that carry handshakes, write records and count references. This
project models that code in Dafny and proves what it is for. All files are verified together:

    dafny verify dfyconfig.toml

## The parts

**Protocol Buffers (nanopb).** `PbMessages` has descriptors and messages: a message is a sequence of slots, a slot the
values of one field (one for required and singular fields, at most one for optional ones and union members, any number
for repeated ones). `PbEncode` and `PbDecode` say which bytes a message has and which message bytes have; `PbOutput`,
`PbEncoder`, `PbInput` and `PbDecoder` are the streams and routines as they run, proved against that; `PbCommon` is the
cyclic field iterator and `PbRequired` the bitset of required fields. `PbWire` is the wire format by itself, and that
the encoder writes it. `PbMeaning` is what bytes mean, field by field, and `PbDecodeMeaning` that the one pass of the
decoder computes it, required fields included; `PbMerging` tells what several records of a field come to. `PbTyped`
shows that whatever is decoded fits the structures and their arrays. `PbRoundTrip` has the main results: the round trip
and forward compatibility, at any depth. Both come with the exact condition under which they hold, because a string
that fills its array without a terminator is encoded but cannot be decoded, and because a length prefix of 2^32 or more
is written and then refused. `Varint` has the integer codecs, with the 32-bit decoder that ignores padding bits.

**DTLS handshake transport.** `DtlsReplay` is the replay window, as a set and over whole runs, and `DtlsRecord` the
reader of records that keeps it. `DtlsBitmask`, `DtlsReassembly` and `DtlsReceiver` are reassembly: the bitmask, the
window of pending messages and the ring of slots that implements it; `DtlsRuns` has what a receiver notes of its run,
and `DtlsAnyFragments` what holds of it if nobody vouches for the fragments. `DtlsFlight` and `DtlsCutting` say how
flights are cut into records and datagrams for any answers of the cipher and the transport, `DtlsLoss` what a failing
seal loses, `DtlsNumbers` that record numbers count on, and `DtlsSender` is the sender as it runs; with `DtlsHistory`
it notes what it has put out. `DtlsDelivery` puts both ends together: with an arbitrary network between a sender object
and a receiver object, messages come out whole, in order and once, and as soon as they can.

**TLS 1.2 handshake.** `TlsClient` and `TlsServer` are the two state machines as step functions. `TlsConversation` is
the one conversation both are in; `TlsClientSteps` and `TlsServerSteps` show that every step keeps a party in its place
in it; `TlsLockstep` and `TlsProgress` conclude for all schedules: nobody rejects anything, transcripts agree, there is
no deadlock, and both get done. `TlsRounds` and `TlsAnyPeer` are about one party alone against any peer. `TlsAccount`
has the order of a handshake as one party holds the other to it; `TlsServerAccount` and `TlsClientAccount` show for any
peer that what a party took and said stands in that order, that each signature due was checked, and that it fails only
at what may not be said. `TlsMachine`, `TlsClientMachine` and `TlsServerMachine` are the machines as objects whose
fields the steps update, with the loop and the driver, and `TlsNetwork` joins two such objects: the results hold of
them too. A signature stands for the transcript it is over and a Finished for its sender and the transcript it is
computed from.

**Around the handshake.** `CipherChoice` is the choice among equal-preference groups, for any flags: the rule parser
ends every group, and `CipherChoice.AnOpenGroupIsIgnored` says what would happen to one that does not end.
`ConstantTime` and `Premaster` are the branch-free removal of RSA padding, against the branching specification of the
standards. `TlsMessages` and `TlsMessageDelivery` split messages into records and put them together. `TlsWrite`,
`TlsWriter`, `TlsWriteOnce`, `TlsWriteTwice` and `TlsWriteReports` are non-blocking writes with retries, partial writes
and early data. `RefCount`, `RefCountAtomic` and `RefCountLocked` are the two reference counts, with threads that
interleave step by step.

`Bytes` and `Bits` are the arithmetic of bytes and of the bits of machine words.

## What turned out not to hold

- Decoding what was encoded: not for a string that fills its array, and not for length prefixes from 2^32 on
  (`PbRoundTrip.RoundTrip` has the exact condition, `PbRoundTrip.FullStringIsLost` a case).
- No replay across key changes: exactly as long as the 16-bit epoch does not wrap (`DtlsReplay.ReplayFreeExactly`; a
  case is `DtlsReplay.WrappedEpochReplays`).
- Record numbers differ: exactly as long as an epoch has no more than 2^48 - 1 records; the next one is refused, but
  its number starts again (`DtlsNumbers.NumbersDifferExactly`).
- Fragments from the far future are ignored: not the one exactly seven ahead, which ends the connection
  (`DtlsDelivery.OnePastTheWindowFails`, `DtlsDelivery.FailsExactly`).
- A failed send resumes from the same point: exactly when sealing did not fail behind a record of the same datagram
  (`DtlsLoss.ResumesExactly`); otherwise those records are passed over until the next retransmission
  (`DtlsLoss.LostIsSkipped`, `DtlsLoss.AMessageIsLost`). Whether a flight can suffer it is known beforehand: exactly
  if one of its datagrams takes a second record (`DtlsLoss.SafeExactly`).
- Retried writes seal each byte once: exactly when no call comes with less data than was already written
  (`TlsWriteOnce.EveryByteIsSealedOnce`). A byte is really sealed twice exactly if anything is sealed after such a
  call (`TlsWriteTwice.SealsTwiceExactly`; a case is `TlsWriteTwice.ShortRetrySealsTwice`).
- A padded varint keeps its value in the 32-bit decoder: exactly up to 37 bytes, where the bit counter wraps, a
  `uint_fast8_t` of eight bits (`Varint.CorrectUpTo37BytesExactly`, `Varint.WrappedCounterMisreads`). The 64-bit
  decoder drops bits above the word without an error; where both accept they agree (`Varint.DecodersAgree`).

## Model

| member | source | states |
|---|---|---|
| Varint.VarintAtMostTenBytes | Flamingo/Pods/nanopb/pb_encode.c:574-594 | every 64-bit value is encoded in at most ten bytes |
| Varint.VarintRoundTrip | Flamingo/Pods/nanopb/pb_decode.c:250-271 | decoding undoes encoding on all 64-bit values and consumes exactly the bytes of the value |
| Varint.ZigZagRoundTrip | Flamingo/Pods/nanopb/pb_decode.c:1240-1252 | unzigzag undoes zigzag on every signed 64-bit value, within 64 bits |
| Varint.ZigZagOnto | Flamingo/Pods/nanopb/pb_encode.c:596-605 | zigzag is onto: every 64-bit word stands for exactly one signed value |
| Varint.FixedRoundTrip | Flamingo/Pods/nanopb/pb_encode.c:607-633 | little-endian fixed-width integers come back |
| Varint.Varint32RoundTrip | Flamingo/Pods/nanopb/pb_decode.c:182-248 | the 32-bit decoder accepts the encoding of a value below 2^63 exactly when it is below 2^32, and then returns it |
| Varint.NegativeInt32Accepted | Flamingo/Pods/nanopb/pb_decode.c:208-227 | the ten-byte sign-extended form of a negative 32-bit number is read as its low word |
| Varint.DecodersAgree | Flamingo/Pods/nanopb/pb_decode.c:182-271 | where the 32-bit and the 64-bit decoder both accept, they stop at the same byte and the first result is the second modulo 2^32 |
| Varint.CorrectUpTo37BytesExactly | Flamingo/Pods/nanopb/pb_decode.c:182-242 | for every length: what the 32-bit decoder accepts is its groups modulo 2^32 exactly up to 37 bytes; in longer padding the 8-bit bit counter has wrapped |
| Varint.WrappedCounterMisreads | Flamingo/Pods/nanopb/pb_decode.c:206-238 | for every length above 37, a padded varint that is accepted with the value 8 though its groups are a multiple of 2^32 |
| PbInput.IStream.ReadByte | Flamingo/Pods/nanopb/pb_decode.c:136-152 | one byte from a limited stream; fails without moving exactly at the limit |
| PbInput.IStream.Read | Flamingo/Pods/nanopb/pb_decode.c:100-132 | the next bytes of a limited stream; fails without moving when they are not there |
| PbInput.IStream.ReadVarint | Flamingo/Pods/nanopb/pb_decode.c:250-271 | the shifting loop computes the 64-bit varint, which drops bits above the word, and fails on an eleventh byte or the end of the stream |
| PbInput.IStream.ReadVarint32 | Flamingo/Pods/nanopb/pb_decode.c:182-242 | the loop with its overflow tests, trailing padding and end-of-stream flag computes the 32-bit varint |
| PbOutput.FillVarint | Flamingo/Pods/nanopb/pb_encode.c:574-594 | the masking loop fills the buffer with the varint of any 64-bit value |
| PbOutput.BufWrite | Flamingo/Pods/nanopb/pb_encode.c:72-82 | the copy loop writes the bytes at the position and nothing else |
| PbOutput.OStream.Write | Flamingo/Pods/nanopb/pb_encode.c:101-119 | a write succeeds exactly when the room suffices, then extends the output by exactly those bytes and counts them; a sizing stream only counts |
| PbOutput.OStream.WriteVarint | Flamingo/Pods/nanopb/pb_encode.c:574-594 | writes the varint of the value, or fails for lack of room |
| PbEncoder.EncodeTag | Flamingo/Pods/nanopb/pb_encode.c:635-639 | writes the key made of tag and wire type |
| PbEncoder.EncodeString | Flamingo/Pods/nanopb/pb_encode.c:674-680 | writes the length and the bytes |
| PbEncoder.EncodeSVarint | Flamingo/Pods/nanopb/pb_encode.c:596-605 | writes the zigzag form |
| PbEncoder.EncodeFixed | Flamingo/Pods/nanopb/pb_encode.c:607-633 | writes the little-endian bytes |
| PbEncoder.EncodeCString | Flamingo/Pods/nanopb/pb_encode.c:831-855 | the scan for the terminator stops at it or at the size of the array, so the characters before it are what is written |
| PbEncoder.EncodeValue | Flamingo/Pods/nanopb/pb_encode.c:734-869 | each field encoder writes the bytes of its value, or fails exactly when the value has none or there is no room |
| PbEncoder.EncodeSubstream | Flamingo/Pods/nanopb/pb_encode.c:705-730 | the second pass over a submessage on a substream of exactly the counted size always succeeds and writes exactly that many bytes: a changed size is impossible |
| PbEncoder.EncodeSubmessage | Flamingo/Pods/nanopb/pb_encode.c:682-730 | sizing pass, length and second pass together write the length-prefixed message, at any depth |
| PbEncoder.EncodePackedArray | Flamingo/Pods/nanopb/pb_encode.c:140-181 | the size computed first is the size of the elements written, and on a sizing stream the shortcut counts the same |
| PbEncoder.EncodeUnpacked | Flamingo/Pods/nanopb/pb_encode.c:182-209 | every element with its own tag, in order |
| PbEncoder.EncodeField | Flamingo/Pods/nanopb/pb_encode.c:307-392 | required, optional, singular, repeated and union fields: what is written for each, what is omitted, and when encoding fails |
| PbEncoder.Encode | Flamingo/Pods/nanopb/pb_encode.c:494-516 | a message is encoded as its fields in order; on any stream the outcome is success with exactly those bytes or failure for an inconsistent message or lack of room |
| PbEncoder.GetEncodedSize | Flamingo/Pods/nanopb/pb_encode.c:533-542 | the sizing pass returns the length of what the real encoding writes |
| PbEncoder.EncodeToBuffer | Flamingo/Pods/nanopb/pb_encode.c:84-119 | encoding to a buffer succeeds exactly when the counted size fits it, and then fills exactly that much |
| PbEncoder.EncodeNullTerminated | Flamingo/Pods/nanopb/pb_encode.c:523-531 | the message and a zero tag |
| PbWire.MessageIsWire | Flamingo/Pods/nanopb/pb_encode.c:494-516 | the encoder writes a message exactly if its integers have a width and its arrays and byte arrays fit, and then in the wire format: each field in turn under a key of eight times its number plus 0, 1, 2 or 5, a varint, eight bytes, a counted payload or four bytes by its type, repeated numbers packed into one payload |
| PbWire.NothingIsWritten | Flamingo/Pods/nanopb/pb_encode.c:213-303 | a proto3 message counts as default exactly if it can be written and not one byte of it is |
| PbWire.VarintIsSpelled | Flamingo/Pods/nanopb/pb_encode.c:574-594 | byte k of a varint holds bits 7k to 7k + 6, all but the last have the top bit set, and the last is zero only if it is the only one |
| PbWire.FixedIsSpelled | Flamingo/Pods/nanopb/pb_encode.c:596-632 | byte k of a fixed-width number holds bits 8k to 8k + 7 |
| PbCommon.OffsetsMatchLayout | Flamingo/Pods/nanopb/pb_common.c:40-75 | summing the stored distances from field to field recovers the place of every member, unions included |
| PbCommon.FieldIter.Begin | Flamingo/Pods/nanopb/pb_common.c:8-18 | the iterator rests on the first field |
| PbCommon.FieldIter.Next | Flamingo/Pods/nanopb/pb_common.c:20-76 | one step of the cycle keeps position, data address and required-field number consistent, and reports the wrap |
| PbCommon.FieldIter.Find | Flamingo/Pods/nanopb/pb_common.c:78-95 | from any position a tag is found exactly when the descriptor has it, and the iterator is back where it was when not |
| PbDecoder.FindField | Flamingo/Pods/nanopb/pb_common.c:78-95 | the cyclic search finds the field a linear scan from the front finds |
| PbDecoder.CountRequired | Flamingo/Pods/nanopb/pb_decode.c:1012-1022 | running the iterator to the end counts the required fields |
| PbRequired.RecordsOneMore | Flamingo/Pods/nanopb/pb_decode.c:988-993 | setting the bit of a required field adds just that field to what the bitset says |
| PbRequired.CheckRequired | Flamingo/Pods/nanopb/pb_decode.c:1024-1045 | the comparison of whole words and of the last partial word succeeds exactly when each of the first 64 required fields was seen |
| PbDecoder.MarkRequired | Flamingo/Pods/nanopb/pb_decode.c:988-993 | marks the field the iterator rests on, if it is required and among the first 64 |
| PbDecoder.MakeSubstream | Flamingo/Pods/nanopb/pb_decode.c:367-380 | a substream of exactly the announced length, refused when the parent has less; the parent keeps the rest |
| PbDecoder.CloseSubstream | Flamingo/Pods/nanopb/pb_decode.c:382-396 | however much of the substream was read, the parent goes on right behind it |
| PbDecoder.ReadTag | Flamingo/Pods/nanopb/pb_decode.c:293-314 | a key, the end of the stream, a zero tag and a broken key are told apart |
| PbDecoder.SkipVarint | Flamingo/Pods/nanopb/pb_decode.c:273-282 | passes over one varint |
| PbDecoder.SkipUnknown | Flamingo/Pods/nanopb/pb_decode.c:316-327 | an unknown field is passed over exactly up to its end, and fails exactly when it is not all there |
| PbDecoder.DecodeIntegerField | Flamingo/Pods/nanopb/pb_decode.c:1289-1372 | the three integer decoders: values that do not survive the cast to the width of the field are refused |
| PbDecoder.DecodeFixedField | Flamingo/Pods/nanopb/pb_decode.c:1254-1286 | fixed-width integers |
| PbDecoder.DecodeBytesField | Flamingo/Pods/nanopb/pb_decode.c:1391-1426 | bytes that fit the array |
| PbDecoder.DecodeStringField | Flamingo/Pods/nanopb/pb_decode.c:1428-1461 | strings that fit the array with a terminator |
| PbDecoder.DecodeFixedLengthField | Flamingo/Pods/nanopb/pb_decode.c:1487-1508 | exactly the length of the field, or nothing, which clears it |
| PbDecoder.DecodeSubmessage | Flamingo/Pods/nanopb/pb_decode.c:1463-1485 | a submessage from a substream, merged into the one that is there or into a cleared one |
| PbDecoder.DecodePackedField | Flamingo/Pods/nanopb/pb_decode.c:419-448 | the loop over a packed array fills the slot up to its size and uses up the substream |
| PbDecoder.DecodeField | Flamingo/Pods/nanopb/pb_decode.c:401-475 | what one field of the wire does to its slot, by the kind of the field and of the wire |
| PbDecoder.DecodeKnown | Flamingo/Pods/nanopb/pb_decode.c:988-996 | a known field is stored, which clears the rest of its union, and noted as seen |
| PbDecoder.DecodeNoInit | Flamingo/Pods/nanopb/pb_decode.c:901-1049 | the loop over the stream computes the decoding of the bytes field by field, the required-field check included |
| PbDecoder.SetToDefaults | Flamingo/Pods/nanopb/pb_decode.c:812-895 | the walk over all fields gives required and singular fields their defaults, at any depth, and clears the rest |
| PbDecoder.Decode | Flamingo/Pods/nanopb/pb_decode.c:1051-1063 | pb_decode computes the decoding of the bytes from a cleared message |
| PbDecoder.DecodeDelimitedFrom | Flamingo/Pods/nanopb/pb_decode.c:1080-1093 | the message in a substream of the announced length, and the stream goes on right behind it |
| PbDecodeMeaning.DecodesMeaning | Flamingo/Pods/nanopb/pb_decode.c:901-1063 | for all descriptors and bytes, the one pass of pb_decode comes to what each field makes of its own records alone: their payloads are found by field type or, if the field is not known, by wire type; it fails exactly if a record is broken, a value does not fit or a required field is missing |
| PbDecodeMeaning.DecodesDelimitedMeaning | Flamingo/Pods/nanopb/pb_decode.c:1065-1093 | the same behind a count, whatever remains of the counted bytes |
| PbDecodeMeaning.RequiredWasSent | Flamingo/Pods/nanopb/pb_decode.c:1024-1044 | bytes that decode hold the tag of each of the first 64 required fields |
| PbDecodeMeaning.FailsExactlyIfMissing | Flamingo/Pods/nanopb/pb_decode.c:1024-1044 | if the records are sound and every value fits, decoding fails exactly if one of the first 64 required fields is missing |
| PbMerging.LastOneCounts | Flamingo/Pods/nanopb/pb_decode.c:401-475 | of several records of a field the last one counts, and of the members of a union the one whose record comes last is set |
| PbMerging.ListsAreJoined | Flamingo/Pods/nanopb/pb_decode.c:421-461 | a repeated field holds the elements of all its records in order, packed or not |
| PbMerging.MergingIsJoining | Flamingo/Pods/nanopb/pb_decode.c:1463-1485 | to merge one message and then another is to decode the bytes of both together |
| PbMerging.UnsentIsCleared | Flamingo/Pods/nanopb/pb_decode.c:812-899 | a field of which nothing was sent has its default if it is required or proto3, and is not set otherwise |
| PbRoundTrip.RoundTrip | Flamingo/Pods/nanopb/pb_decode.c:1051-1063 | decoding what was encoded gives back every field and value exactly when each string leaves room for its terminator and each length prefix is below 2^32, and fails otherwise |
| PbRoundTrip.ForwardCompatible | Flamingo/Pods/nanopb/pb_decode.c:919-997 | a receiver whose descriptor drops any fields, at any depth, gets exactly the projection of the message, under the same condition on the fields it keeps |
| PbRoundTrip.DelimitedRoundTrip | Flamingo/Pods/nanopb/pb_decode.c:1080-1093 | the length-delimited form comes back and reading stops right behind it exactly when the message is decodable and its own length below 2^32; otherwise it is refused |
| PbRoundTrip.FullStringIsLost | Flamingo/Pods/nanopb/pb_decode.c:1428-1461 | a concrete string that fills its array is encoded and cannot be decoded again |
| PbRoundTrip.SkipSlot | Flamingo/Pods/nanopb/pb_decode.c:273-327 | a dropped field changes nothing and takes the receiver to the next field |
| PbRoundTrip.KeepSlot | Flamingo/Pods/nanopb/pb_decode.c:401-475 | a kept field fills its slot and takes the receiver to the next field |
| PbTyped.DecodedMessageFits | Flamingo/Pods/nanopb/pb_decode.c:1391-1508 | whatever the bytes, a decoded message is one its structure can hold at any depth: integers within their widths, bytes with their length word and strings with their terminator inside their arrays, no repeated field beyond its array, one member to a union |
| DtlsReplay.DiscardRefinesSet | Flamingo/Pods/BoringSSL-GRPC/ssl/dtls_record.cc:140-150 | the window test is true exactly for recorded numbers and for those 64 or more below the maximum |
| DtlsReplay.RecordRefinesSet | Flamingo/Pods/BoringSSL-GRPC/ssl/dtls_record.cc:155-175 | recording any number adds exactly it to the set the window stands for |
| DtlsReplay.AcceptedExactly | Flamingo/Pods/BoringSSL-GRPC/ssl/dtls_record.cc:225-259 | over any run a record is accepted exactly when it decrypts to at most 16384 bytes, its epoch is the number of key changes in 16 bits, it is new since the keys changed, and it is less than 64 below the maximum |
| DtlsReplay.ReplayFreeExactly | Flamingo/Pods/BoringSSL-GRPC/ssl/dtls_record.cc:225-259 | for every number of key changes: no run with that many accepts a record twice exactly when they are fewer than the 65536 epochs |
| DtlsReplay.NeverReplayed | Flamingo/Pods/BoringSSL-GRPC/ssl/dtls_record.cc:155-175 | no epoch and sequence number is accepted twice over any run in which the 16-bit epoch does not wrap |
| DtlsReplay.WrappedEpochReplays | Flamingo/Pods/BoringSSL-GRPC/ssl/dtls_method.cc:81-95 | after 65536 key changes a record of the first epoch is accepted again |
| DtlsRecord.ToU64 | Flamingo/Pods/BoringSSL-GRPC/ssl/dtls_record.cc:128-136 | the loop computes the big-endian number |
| DtlsRecord.RecordReader.BitmapShouldDiscard | Flamingo/Pods/BoringSSL-GRPC/ssl/dtls_record.cc:140-150 | the bit test computes the window test on the sequence field |
| DtlsRecord.RecordReader.BitmapRecord | Flamingo/Pods/BoringSSL-GRPC/ssl/dtls_record.cc:155-175 | shifting and setting compute the new window |
| DtlsRecord.RecordRoundTrip | Flamingo/Pods/BoringSSL-GRPC/ssl/dtls_record.cc:195-206 | a record that was written is read as it was, and what is behind it in the datagram comes next |
| DtlsRecord.ParsedIsSpelled | Flamingo/Pods/BoringSSL-GRPC/ssl/dtls_record.cc:195-206 | what is read is what the bytes at the front of the datagram spell |
| DtlsRecord.HeaderExactly | Flamingo/Pods/BoringSSL-GRPC/ssl/dtls_record.cc:193-221 | a datagram begins with a record exactly if it has the 13 bytes of a header, a body as long as the last two say and not too long, and the version: major number 0xFE without keys, the one in use with them |
| DtlsRecord.RecordReader.OpenBody | Flamingo/Pods/BoringSSL-GRPC/ssl/dtls_record.cc:229-259 | epoch check, replay check, decryption and length limit, in this order, decide what is accepted and recorded; it is an error exactly if only the length is too large |
| DtlsRecord.RecordReader.TakeAlert | Flamingo/Pods/BoringSSL-GRPC/ssl/tls_record.cc:551-602 | one alert to a record: a close_notify closes, a few warnings are ignored, all else is an error |
| DtlsRecord.RecordReader.OpenRecord | Flamingo/Pods/BoringSSL-GRPC/ssl/dtls_record.cc:177-272 | a bad header or version drops the whole datagram, any other record just its own bytes; the replay window sees exactly the records with a good header; an accepted record is handed out or, if an alert, processed; after a close_notify nothing is looked at |
| DtlsRecord.WarningsIgnoredExactly | Flamingo/Pods/BoringSSL-GRPC/ssl/tls_record.cc:582-588 | over any records accepted, a warning is ignored exactly if at most four came since the last record that was no alert |
| DtlsRecord.AlertOutcomeExactly | Flamingo/Pods/BoringSSL-GRPC/ssl/tls_record.cc:551-602 | over any records accepted, an alert closes if it is a warning of close_notify, is passed over if it is another warning and no more than four came in a row, and is an error otherwise |
| DtlsRecord.RecordReader.SetReadState | Flamingo/Pods/BoringSSL-GRPC/ssl/dtls_method.cc:81-95 | refused while handshake data is left over; otherwise the next epoch with an empty window |
| DtlsFragment.FragmentRoundTrip | Flamingo/Pods/BoringSSL-GRPC/ssl/d1_both.cc:459-473 | parsing a fragment gives back its header and body and stops at its end |
| DtlsFragment.HeaderIsSpelled | Flamingo/Pods/BoringSSL-GRPC/ssl/d1_both.cc:511-523 | the twelve bytes of a header in their order, each number with its high byte first |
| DtlsFragment.ParsedIsWireSized | Flamingo/Pods/BoringSSL-GRPC/ssl/d1_both.cc:459-473 | every field parsed is within its width |
| DtlsBitmask.BitRangeIs | Flamingo/Pods/BoringSSL-GRPC/ssl/d1_both.cc:203-205 | bit_range has exactly the bits from start to just below end |
| DtlsBitmask.SetRange | Flamingo/Pods/BoringSSL-GRPC/ssl/d1_both.cc:222-236 | partial first byte, whole bytes and partial last byte together set exactly the bits of the range |
| DtlsBitmask.IsFull | Flamingo/Pods/BoringSSL-GRPC/ssl/d1_both.cc:238-250 | the comparison against all ones succeeds exactly when every byte of the message was received; padding bits never matter |
| DtlsReassembly.SlotsAreDistinct | Flamingo/Pods/BoringSSL-GRPC/ssl/d1_both.cc:267-276 | within the window no two sequence numbers share a slot of the ring |
| DtlsReassembly.TakeAllKeepsWindow | Flamingo/Pods/BoringSSL-GRPC/ssl/d1_both.cc:297-406 | whatever a record holds, every message kept is inside the window and within its length |
| DtlsAnyFragments.RefusedExactly | Flamingo/Pods/BoringSSL-GRPC/ssl/d1_both.cc:172-218 | whatever comes, a fragment breaks the connection exactly if it lies outside its message or the message is too long, if with the keys of epoch 1 it is not of the message due, if its number is seven ahead, or if its type or length differ from the fragments that are there |
| DtlsAnyFragments.TakenExactly | Flamingo/Pods/BoringSSL-GRPC/ssl/d1_both.cc:355-403 | any other fragment adds its bytes to its message, over those that are there, unless it lies before or beyond the seven messages of the window or the message is whole; all else stays |
| DtlsAnyFragments.ReadExactly | Flamingo/Pods/BoringSSL-GRPC/ssl/d1_both.cc:408-438 | a message is handed out exactly if it is the one due and all of it is there, and the next number is due then |
| DtlsAnyFragments.MadeOfWhatCame | Flamingo/Pods/BoringSSL-GRPC/ssl/d1_both.cc:265-438 | over any run, whatever the fragments: messages are read in the order of their numbers, and each byte of each came in a fragment of that number, type and length |
| DtlsAnyFragments.BringsExactly | Flamingo/Pods/BoringSSL-GRPC/ssl/d1_both.cc:297-347 | besides handshake records only a ChangeCipherSpec of the byte 1 without keys and application data under keys do not break the connection |
| DtlsReceiver.HmFragment.Mark | Flamingo/Pods/BoringSSL-GRPC/ssl/d1_both.cc:211-251 | the bitmask is exactly the set of received positions, and is dropped exactly when that is all of them |
| DtlsReceiver.HmFragment.Add | Flamingo/Pods/BoringSSL-GRPC/ssl/d1_both.cc:393-402 | copying and marking a fragment adds exactly its bytes |
| DtlsReceiver.Ring.IsCurrentMessageComplete | Flamingo/Pods/BoringSSL-GRPC/ssl/d1_both.cc:255-259 | the slot of the next number is there and complete |
| DtlsReceiver.Ring.CurrentMessage | Flamingo/Pods/BoringSSL-GRPC/ssl/d1_both.cc:408-424 | the message handed out has the bytes collected, behind a header as of one fragment |
| DtlsReceiver.Ring.GetIncomingMessage | Flamingo/Pods/BoringSSL-GRPC/ssl/d1_both.cc:265-295 | the slot of an acceptable fragment, new or with the same type and length; the slot always has the number asked for |
| DtlsReceiver.Ring.TakeFragment | Flamingo/Pods/BoringSSL-GRPC/ssl/d1_both.cc:355-403 | a fragment makes the connection fail, is dropped, or adds its bytes, exactly as the window of pending messages says |
| DtlsReceiver.Ring.Advance | Flamingo/Pods/BoringSSL-GRPC/ssl/d1_both.cc:426-438 | the next number, with the slot of the last one emptied |
| DtlsReceiver.ReceiveState.OpenHandshake | Flamingo/Pods/BoringSSL-GRPC/ssl/d1_both.cc:297-406 | all fragments of a record are taken in turn, and a ChangeCipherSpec is noted |
| DtlsReceiver.ReceiveState.Open | Flamingo/Pods/BoringSSL-GRPC/ssl/ssl_lib.cc:230-242 | an error is remembered and after one no record is looked at; the state is always where the events so far lead |
| DtlsReceiver.OpenedAsBrought | Flamingo/Pods/BoringSSL-GRPC/ssl/d1_both.cc:303-343 | what any record does, by its type, is what the events it brings do |
| DtlsReceiver.ReceiveState.OpenChangeCipherSpec | Flamingo/Pods/BoringSSL-GRPC/ssl/d1_both.cc:475-492 | the ChangeCipherSpec that came earlier or the one in this record, and each just once |
| DtlsReceiver.ReceiveState.SetReadState | Flamingo/Pods/BoringSSL-GRPC/ssl/dtls_method.cc:81-95 | refused exactly when the old epoch has a message or a ChangeCipherSpec left over |
| DtlsReceiver.ReceiveState.GetMessage | Flamingo/Pods/BoringSSL-GRPC/ssl/d1_both.cc:408-424 | a message exactly when the next one is complete, with its type, body and raw form |
| DtlsReceiver.ReceiveState.NextMessage | Flamingo/Pods/BoringSSL-GRPC/ssl/d1_both.cc:426-438 | moves past the message that was shown |
| DtlsReceiver.ReceiveState.HasUnprocessedHandshakeData | Flamingo/Pods/BoringSSL-GRPC/ssl/d1_both.cc:440-457 | whether a message is left besides the one being processed, or a ChangeCipherSpec |
| DtlsFlight.FlightCarriesAll | Flamingo/Pods/BoringSSL-GRPC/ssl/d1_both.cc:693-734 | the fragments of a whole flight partition every message body, in order, without gap or overlap |
| DtlsFlight.WalkIsHonest | Flamingo/Pods/BoringSSL-GRPC/ssl/d1_both.cc:693-734 | every fragment sent is a slice of one message of the flight, with its type, number and total length |
| DtlsFlight.WalkReaches | Flamingo/Pods/BoringSSL-GRPC/ssl/d1_both.cc:693-734 | every byte between two positions of the sender is in a fragment sent between them |
| DtlsFlight.WalkAdvances | Flamingo/Pods/BoringSSL-GRPC/ssl/d1_both.cc:782-827 | messages left and bytes left decrease lexicographically with every record |
| DtlsSender.FinishMessage | Flamingo/Pods/BoringSSL-GRPC/ssl/d1_both.cc:525-536 | the fragment length is copied over the total length and nothing else changes |
| DtlsSender.FinishedIsBuilt | Flamingo/Pods/BoringSSL-GRPC/ssl/d1_both.cc:511-536 | a message built by init and finish parses as one whole fragment, so the later re-parse cannot fail |
| DtlsSender.Sender.SealNextMessage | Flamingo/Pods/BoringSSL-GRPC/ssl/d1_both.cc:644-734 | one record: a ChangeCipherSpec or the next slice of the message, as long as fits, or no progress, only when not one byte of the body would fit; the cipher and an unknown epoch are the only other causes of failure |
| DtlsSender.Sender.SealNextPacket | Flamingo/Pods/BoringSSL-GRPC/ssl/d1_both.cc:739-780 | as many records as fit one datagram, in order; the position moves with each record, also when sealing fails |
| DtlsSender.Sender.SendFlight | Flamingo/Pods/BoringSSL-GRPC/ssl/d1_both.cc:782-827 | datagrams no longer than the MTU; they and the records of a datagram that broke off account for the move of the position; a refused datagram moves it back; success means the end of the flight with nothing lost |
| DtlsCutting.SendAccounts | Flamingo/Pods/BoringSSL-GRPC/ssl/d1_both.cc:782-827 | the same for any answers of cipher and transport: what was written and what was lost is one walk over the flight |
| DtlsCutting.SendsAll | Flamingo/Pods/BoringSSL-GRPC/ssl/d1_both.cc:782-827 | the whole flight goes out if nothing is refused, the epochs are known, each message fits a datagram and record numbers remain |
| DtlsCutting.SendReports | Flamingo/Pods/BoringSSL-GRPC/ssl/d1_both.cc:782-827 | what a sending returns tells where it ended: all gone and flushed or not, refused by the transport, or broken off |
| DtlsCutting.DatagramsAreFull | Flamingo/Pods/BoringSSL-GRPC/ssl/d1_both.cc:728-780 | a datagram that is not the last ends with no byte to spare, or before a message of which not one byte would be sure to fit |
| DtlsNumbers.SendingCountsOn | Flamingo/Pods/BoringSSL-GRPC/ssl/dtls_record.cc:283-345 | in a sending the records sealed for each epoch, those lost included, have the numbers that follow the channel, one after the other |
| DtlsNumbers.NumbersDifferExactly | Flamingo/Pods/BoringSSL-GRPC/ssl/dtls_record.cc:333-336 | over the life of an epoch the numbers of its records differ exactly as long as there are no more than 2^48 - 1 of them |
| DtlsNumbers.EachIsAccepted | Flamingo/Pods/BoringSSL-GRPC/ssl/dtls_record.cc:140-175 | a receiver of that epoch accepts each of such a run of records once, if they come in order |
| DtlsLoss.ResumesExactly | Flamingo/Pods/BoringSSL-GRPC/ssl/d1_both.cc:793-812 | the next sending goes on where the datagrams written end exactly when sealing did not fail behind a record of the same datagram |
| DtlsLoss.SafeExactly | Flamingo/Pods/BoringSSL-GRPC/ssl/d1_both.cc:746-779 | no answers of cipher and transport make a flight lose anything exactly when each of its datagrams holds one record, which is known before sending |
| DtlsLoss.LostIsSkipped | Flamingo/Pods/BoringSSL-GRPC/ssl/d1_both.cc:747-812 | bytes lost are in no datagram of that sending nor of the one that goes on from there |
| DtlsLoss.AMessageIsLost | Flamingo/Pods/BoringSSL-GRPC/ssl/d1_both.cc:782-820 | two messages that fit one datagram, the second seal failing: the next sending reports success and the first message is in no datagram |
| DtlsLoss.SuchAFlight | Flamingo/Pods/BoringSSL-GRPC/ssl/d1_both.cc:744-780 | such a flight: two empty messages in clear and an MTU of 1400 |
| DtlsFlight.WalkWithin | Flamingo/Pods/BoringSSL-GRPC/ssl/d1_both.cc:693-734 | no fragment sent between two positions reaches outside the part of its message that lies between them |
| DtlsSender.Sender.FlushFlight | Flamingo/Pods/BoringSSL-GRPC/ssl/d1_both.cc:829-834 | marks the flight complete and sends on |
| DtlsSender.Sender.Retransmit | Flamingo/Pods/BoringSSL-GRPC/ssl/d1_both.cc:836-845 | sends the whole flight again from its start |
| DtlsSender.Sender.AddOutgoing | Flamingo/Pods/BoringSSL-GRPC/ssl/d1_both.cc:555-594 | a message starts a new flight if the last one is complete; at most seven, with consecutive numbers; the history of messages made grows by it |
| DtlsSender.Sender.FlightNumbersDistinct | Flamingo/Pods/BoringSSL-GRPC/ssl/d1_both.cc:555-594 | so the numbers in a flight differ, also across the wrap of the 16-bit counter |
| DtlsSender.Sender.SetWriteState | Flamingo/Pods/BoringSSL-GRPC/ssl/dtls_method.cc:97-107 | the next 16-bit write epoch with record numbers from zero; cipher and numbers of the last one are kept, so messages queued before it can still be sealed unless the epoch wrapped |
| DtlsDelivery.InOrderOnce | Flamingo/Pods/BoringSSL-GRPC/ssl/d1_both.cc:265-438 | for any loss, reordering, overlap and duplication, what is handed out is a prefix of the messages sent, each once |
| DtlsDelivery.HoldsExactly | Flamingo/Pods/BoringSSL-GRPC/ssl/d1_both.cc:265-406 | a pending message holds exactly the bytes of the fragments taken for it |
| DtlsDelivery.ReadyExactly | Flamingo/Pods/BoringSSL-GRPC/ssl/d1_both.cc:408-424 | the next message can be had exactly when each of its bytes has been taken |
| DtlsDelivery.HonestIsAcceptable | Flamingo/Pods/BoringSSL-GRPC/ssl/d1_both.cc:362-390 | a fragment of what was sent is refused only for its length, its epoch, or a number exactly one past the window |
| DtlsDelivery.FailsExactly | Flamingo/Pods/BoringSSL-GRPC/ssl/d1_both.cc:362-390 | a run over honest fragments fails exactly when one of those came |
| DtlsDelivery.OnePastTheWindowFails | Flamingo/Pods/BoringSSL-GRPC/ssl/d1_both.cc:380-390 | a fragment exactly seven ahead ends the connection, one eight ahead is ignored |
| DtlsRuns.RecordIsArrivals | Flamingo/Pods/BoringSSL-GRPC/ssl/d1_both.cc:345-405 | any bytes of a record do what the fragments in them do when they arrive one by one, up to bytes that are none, errors included |
| DtlsRuns.SentRecordIsArrival | Flamingo/Pods/BoringSSL-GRPC/ssl/d1_both.cc:706-727 | the plaintext of a record of this sender is the arrival of its one fragment |
| DtlsDelivery.CarriedIsHonest | Flamingo/Pods/BoringSSL-GRPC/ssl/d1_both.cc:644-827 | all that senders put out, in any transmissions, are fragments of the messages |
| DtlsDelivery.EndToEndOfSender | Flamingo/Pods/BoringSSL-GRPC/ssl/d1_both.cc:555-845 | a sender object with the history it keeps itself, and any run of a receiver on what it put out: what is handed out is a prefix of the messages it made, and the next one is there once a whole sending of it has been taken |
| DtlsDelivery.EndToEndOfObjects | Flamingo/Pods/BoringSSL-GRPC/ssl/d1_both.cc:265-845 | a sender object and a receiver object, each with the history it keeps, and a network that delivers only what the one put out: what the other has handed out is a prefix of the messages made, what it has ready is the next of them, and it has that ready once a whole sending of it has been taken |
| DtlsDelivery.ReadMessage | Flamingo/Pods/BoringSSL-GRPC/ssl/d1_both.cc:408-438 | reading from the receiver object gives the next message that the sender object made, exactly when one is ready, and moves on by one |
| DtlsDelivery.EndToEnd | Flamingo/Pods/BoringSSL-GRPC/ssl/d1_both.cc:265-845 | once every fragment one complete sending made of the next message has been taken, it is handed out, after exactly the messages before it |
| TlsClient.ClientDo | Flamingo/Pods/BoringSSL-GRPC/ssl/handshake_client.cc:1707-1789 | every pass of the client goes on only to a state of lower rank and otherwise waits or fails, waits for a message only where one is read, and keeps the order of ciphers and Finished messages |
| TlsServer.ServerDo | Flamingo/Pods/BoringSSL-GRPC/ssl/handshake_server.cc:1539-1621 | the same of every pass of the server |
| TlsConversation.StepReceive | Flamingo/Pods/BoringSSL-GRPC/ssl/handshake.cc:215-222 | what a party in step reads is the slot it is in, and hashing it and letting it go takes it to the next |
| TlsConversation.StepSend | Flamingo/Pods/BoringSSL-GRPC/ssl/handshake.cc:176-184 | a message added in its slot is hashed, joins the flight and keeps both parties in step |
| TlsConversation.StepSendCcs | Flamingo/Pods/BoringSSL-GRPC/ssl/handshake_client.cc:1471-1474 | so does a ChangeCipherSpec |
| TlsConversation.StepGetFinished | Flamingo/Pods/BoringSSL-GRPC/ssl/handshake.cc:380-429 | the Finished a party in step reads has the MAC of the peer over exactly the transcript the party has, and is accepted |
| TlsRounds.SendFinishedVouches | Flamingo/Pods/BoringSSL-GRPC/ssl/handshake.cc:431-476 | behind a Finished that was sent, the transcript holds the part its MAC is over followed by it |
| TlsLockstep.ClientResolveFine | Flamingo/Pods/BoringSSL-GRPC/ssl/handshake.cc:491-628 | what a waiting client finds is what it waits for: no round of the driver fails, and each keeps the invariant |
| TlsLockstep.ServerResolveFine | Flamingo/Pods/BoringSSL-GRPC/ssl/handshake.cc:528-628 | the same of a waiting server |
| TlsClientSteps.ReadServerHelloHolds | Flamingo/Pods/BoringSSL-GRPC/ssl/handshake_client.cc:535-759 | a step of a party in step never refuses what its peer in step sends and keeps it in its place in the conversation: the ServerHello, in full handshakes and resumptions |
| TlsClientSteps.ReadServerCertificateHolds | Flamingo/Pods/BoringSSL-GRPC/ssl/handshake_client.cc:771-819 | a step of a party in step never refuses what its peer in step sends and keeps it in its place in the conversation: a Certificate exactly with certificate ciphers |
| TlsClientSteps.ReadCertificateStatusHolds | Flamingo/Pods/BoringSSL-GRPC/ssl/handshake_client.cc:821-869 | a step of a party in step never refuses what its peer in step sends and keeps it in its place in the conversation: a CertificateStatus exactly when one is sent |
| TlsClientSteps.ReadServerKeyExchangeHolds | Flamingo/Pods/BoringSSL-GRPC/ssl/handshake_client.cc:891-1071 | a step of a party in step never refuses what its peer in step sends and keeps it in its place in the conversation: present or left out, by the cipher |
| TlsClientSteps.ReadCertificateRequestHolds | Flamingo/Pods/BoringSSL-GRPC/ssl/handshake_client.cc:1073-1143 | a step of a party in step never refuses what its peer in step sends and keeps it in its place in the conversation: present or left out |
| TlsClientSteps.ReadServerHelloDoneHolds | Flamingo/Pods/BoringSSL-GRPC/ssl/handshake_client.cc:1145-1167 | a step of a party in step never refuses what its peer in step sends and keeps it in its place in the conversation: the empty ServerHelloDone |
| TlsClientSteps.SendClientCertificateHolds | Flamingo/Pods/BoringSSL-GRPC/ssl/handshake_client.cc:1169-1218 | a step of a party in step never refuses what its peer in step sends and keeps it in its place in the conversation: a Certificate exactly when asked for |
| TlsClientSteps.SendClientKeyExchangeHolds | Flamingo/Pods/BoringSSL-GRPC/ssl/handshake_client.cc:1220-1371 | a step of a party in step never refuses what its peer in step sends and keeps it in its place in the conversation: the master secret is made from the transcript the server makes it from |
| TlsClientSteps.SendClientCertificateVerifyHolds | Flamingo/Pods/BoringSSL-GRPC/ssl/handshake_client.cc:1373-1455 | a step of a party in step never refuses what its peer in step sends and keeps it in its place in the conversation: the transcript is still buffered when it is signed |
| TlsClientSteps.SendClientFinishedHolds | Flamingo/Pods/BoringSSL-GRPC/ssl/handshake_client.cc:1457-1512 | a step of a party in step never refuses what its peer in step sends and keeps it in its place in the conversation: ChangeCipherSpec, protocol, channel ID and Finished in this order |
| TlsClientSteps.ReadSessionTicketHolds | Flamingo/Pods/BoringSSL-GRPC/ssl/handshake_client.cc:1566-1647 | a step of a party in step never refuses what its peer in step sends and keeps it in its place in the conversation: a ticket exactly when one was promised |
| TlsClientSteps.ReadServerFinishedHolds | Flamingo/Pods/BoringSSL-GRPC/ssl/handshake_client.cc:1658-1672 | a step of a party in step never refuses what its peer in step sends and keeps it in its place in the conversation: the MAC is the expected one |
| TlsLockstep.RunClientFine | Flamingo/Pods/BoringSSL-GRPC/ssl/handshake_client.cc:1707-1789 | whatever a round of the client is, the invariant of both parties and the network is kept |
| TlsClientMachine.RunClient | Flamingo/Pods/BoringSSL-GRPC/ssl/handshake_client.cc:1707-1789 | the loop ends, and comes to a number of passes the last of which waits, fails or is done |
| TlsClientMachine.CompleteClient | Flamingo/Pods/BoringSSL-GRPC/ssl/handshake.cc:491-628 | the driver ends for whatever any peer sends: done, failed, put off, or all of it read and more needed; and done only with both Finished over the own transcript |
| TlsServerSteps.ReadClientHelloHolds | Flamingo/Pods/BoringSSL-GRPC/ssl/handshake_server.cc:432-510 | a step of a party in step never refuses what its peer in step sends and keeps it in its place in the conversation: the ClientHello is looked at and not yet let go |
| TlsServerSteps.SelectCertificateHolds | Flamingo/Pods/BoringSSL-GRPC/ssl/handshake_server.cc:512-560 | a step of a party in step never refuses what its peer in step sends and keeps it in its place in the conversation: it may be put off |
| TlsServerSteps.SelectParametersHolds | Flamingo/Pods/BoringSSL-GRPC/ssl/handshake_server.cc:572-684 | a step of a party in step never refuses what its peer in step sends and keeps it in its place in the conversation: the ClientHello is hashed once |
| TlsServerSteps.SendServerHelloHolds | Flamingo/Pods/BoringSSL-GRPC/ssl/handshake_server.cc:686-752 | a step of a party in step never refuses what its peer in step sends and keeps it in its place in the conversation: the ServerHello |
| TlsServerSteps.SendServerCertificateHolds | Flamingo/Pods/BoringSSL-GRPC/ssl/handshake_server.cc:754-840 | a step of a party in step never refuses what its peer in step sends and keeps it in its place in the conversation: certificate and status exactly when the client expects them |
| TlsServerSteps.SendServerKeyExchangeHolds | Flamingo/Pods/BoringSSL-GRPC/ssl/handshake_server.cc:842-912 | a step of a party in step never refuses what its peer in step sends and keeps it in its place in the conversation: exactly when the client expects it |
| TlsServerSteps.SendServerHelloDoneHolds | Flamingo/Pods/BoringSSL-GRPC/ssl/handshake_server.cc:914-947 | a step of a party in step never refuses what its peer in step sends and keeps it in its place in the conversation: with a CertificateRequest before it exactly when one is due |
| TlsServerSteps.ReadClientCertificateHolds | Flamingo/Pods/BoringSSL-GRPC/ssl/handshake_server.cc:949-1040 | a step of a party in step never refuses what its peer in step sends and keeps it in its place in the conversation: a Certificate, perhaps empty, exactly when it was asked for |
| TlsServerSteps.ReadClientKeyExchangeHolds | Flamingo/Pods/BoringSSL-GRPC/ssl/handshake_server.cc:1058-1267 | a step of a party in step never refuses what its peer in step sends and keeps it in its place in the conversation: the master secret is made from the transcript the client makes it from |
| TlsServerSteps.ReadClientCertificateVerifyHolds | Flamingo/Pods/BoringSSL-GRPC/ssl/handshake_server.cc:1269-1363 | a step of a party in step never refuses what its peer in step sends and keeps it in its place in the conversation: the signature is over the transcript the server has, and it still has it |
| TlsServerSteps.ReadNextProtoHolds | Flamingo/Pods/BoringSSL-GRPC/ssl/handshake_server.cc:1379-1413 | a step of a party in step never refuses what its peer in step sends and keeps it in its place in the conversation: exactly when negotiated |
| TlsServerSteps.ReadChannelIdHolds | Flamingo/Pods/BoringSSL-GRPC/ssl/handshake_server.cc:1415-1437 | a step of a party in step never refuses what its peer in step sends and keeps it in its place in the conversation: the signature is over the transcript the server has |
| TlsServerSteps.ReadClientFinishedHolds | Flamingo/Pods/BoringSSL-GRPC/ssl/handshake_server.cc:1439-1461 | a step of a party in step never refuses what its peer in step sends and keeps it in its place in the conversation: the MAC is the expected one |
| TlsServerSteps.SendServerFinishedHolds | Flamingo/Pods/BoringSSL-GRPC/ssl/handshake_server.cc:1463-1509 | a step of a party in step never refuses what its peer in step sends and keeps it in its place in the conversation: ticket, ChangeCipherSpec and Finished in this order |
| TlsLockstep.RunServerFine | Flamingo/Pods/BoringSSL-GRPC/ssl/handshake_server.cc:1539-1621 | whatever a round of the server is, the invariant of both parties and the network is kept |
| TlsServerMachine.RunServer | Flamingo/Pods/BoringSSL-GRPC/ssl/handshake_server.cc:1539-1621 | the loop ends, and comes to a number of passes the last of which waits, fails or is done |
| TlsServerMachine.CompleteServer | Flamingo/Pods/BoringSSL-GRPC/ssl/handshake.cc:491-628 | the driver ends for whatever any peer sends, and is done only with both Finished over the own transcript |
| TlsConversation.NotBothWaiting | Flamingo/Pods/BoringSSL-GRPC/ssl/handshake.cc:491-628 | two parties in step with the conversation that both wait have something on its way |
| TlsClientSteps.ClientStepHolds | Flamingo/Pods/BoringSSL-GRPC/ssl/handshake_client.cc:535-1705 | no step of the client fails on what a server in step sends, and each keeps the client in step with the one conversation |
| TlsClientSteps.ClientAwaits | Flamingo/Pods/BoringSSL-GRPC/ssl/handshake_client.cc:535-1672 | whenever the client reads, the next thing said is a message of the server |
| TlsServerSteps.ServerStepHolds | Flamingo/Pods/BoringSSL-GRPC/ssl/handshake_server.cc:432-1537 | no step of the server fails on what a client in step sends, and each keeps the server in step |
| TlsServerSteps.ServerAwaits | Flamingo/Pods/BoringSSL-GRPC/ssl/handshake_server.cc:432-1461 | whenever the server reads, the next thing said is a message of the client |
| TlsLockstep.NeverRejects | Flamingo/Pods/BoringSSL-GRPC/ssl/handshake_client.cc:535-1672 | for every schedule, full or resumed, neither machine ever rejects what the other sent |
| TlsLockstep.AgreementAtTheEnd | Flamingo/Pods/BoringSSL-GRPC/ssl/handshake.cc:380-476 | when both are done the transcripts are equal, each Finished was checked against the transcript it was made from, and the master secrets depend on the same messages |
| TlsProgress.StepLowersMeasure | Flamingo/Pods/BoringSSL-GRPC/ssl/handshake_client.cc:1707-1789 | every step that does something, no operation being put off, lowers one measure of both machines and the network |
| TlsProgress.NoDeadlock | Flamingo/Pods/BoringSSL-GRPC/ssl/handshake.cc:491-628 | with nothing on its way and neither able to move, both are done |
| TlsProgress.BothReachDone | Flamingo/Pods/BoringSSL-GRPC/ssl/handshake.cc:491-628 | from every reachable state both parties can get to the end |
| TlsNetwork.Network.Perform | Flamingo/Pods/BoringSSL-GRPC/ssl/handshake.cc:491-628 | two machine objects joined by queues: after any action on them neither has failed, and if both are done they agree |
| TlsNetwork.Network.Complete | Flamingo/Pods/BoringSSL-GRPC/ssl/handshake.cc:491-628 | delivering what is under way and running who can go on ends, from any state the objects can be in, with both done and in agreement |
| TlsAnyPeer.ClientDoneMeansFinished | Flamingo/Pods/BoringSSL-GRPC/ssl/handshake_client.cc:1457-1789 | whatever any peer sends, a client that is done has switched both ciphers, and in its transcript stand both Finished, each right behind the part its MAC is over |
| TlsAnyPeer.ServerDoneMeansFinished | Flamingo/Pods/BoringSSL-GRPC/ssl/handshake_server.cc:1365-1621 | the same of a server |
| TlsServerAccount.PassRecounted | Flamingo/Pods/BoringSSL-GRPC/ssl/handshake_server.cc:1539-1621 | whatever any client sent, each pass of the server takes or says just what stands next in the order of the handshake, and fails exactly if a message is read and the one at the front may not stand there |
| TlsServerAccount.ServerAccounts | Flamingo/Pods/BoringSSL-GRPC/ssl/handshake_server.cc:1539-1621 | over any rounds, what the server took and said is a conversation in the order of the handshake, with all that was fed and flushed accounted for; it fails only at what may not be said |
| TlsServerAccount.SignatureWasChecked | Flamingo/Pods/BoringSSL-GRPC/ssl/handshake_server.cc:1269-1363 | whatever any client sends, a server that has its certificate and is past the CertificateVerify has checked a signature over all that was said up to the ClientKeyExchange |
| TlsServerAccount.ChannelIdWasChecked | Flamingo/Pods/BoringSSL-GRPC/ssl/handshake_server.cc:1415-1437 | the same of the channel ID, if it was negotiated |
| TlsServerAccount.ServerDoneHasSaidAll | Flamingo/Pods/BoringSSL-GRPC/ssl/handshake_server.cc:1439-1537 | a server that is done has the whole conversation behind it and has sent all of its part |
| TlsServerAccount.ServerDoneHasChecked | Flamingo/Pods/BoringSSL-GRPC/ssl/handshake_server.cc:1269-1437 | it has checked each signature that was due, and if it insists on a certificate it has one |
| TlsServerAccount.HeldUpExactly | Flamingo/Pods/BoringSSL-GRPC/ssl/handshake_server.cc:1539-1621 | the states an unfinished operation holds it in: certificate and parameter choice, signing, the check of the certificate of the client, decryption of its key |
| TlsClientAccount.PassRecounted | Flamingo/Pods/BoringSSL-GRPC/ssl/handshake_client.cc:1707-1789 | the same of each pass of the client, where a message that is optional may be passed over |
| TlsClientAccount.ClientAccounts | Flamingo/Pods/BoringSSL-GRPC/ssl/handshake_client.cc:1707-1789 | the same of a client over any rounds |
| TlsClientAccount.ClientDoneHasSaidAll | Flamingo/Pods/BoringSSL-GRPC/ssl/handshake_client.cc:1658-1705 | the same of a client that is done |
| TlsClientAccount.ReturnsEarlyExactly | Flamingo/Pods/BoringSSL-GRPC/ssl/handshake_client.cc:1514-1564 | a client returns early exactly behind its own part of a full handshake with false start on: all of it is sent, and the last part of the server is not heard yet |
| TlsClientAccount.HeldUpExactly | Flamingo/Pods/BoringSSL-GRPC/ssl/handshake_client.cc:1707-1789 | the states an unfinished operation holds it in: the check of the certificate of the server, the choice of an own one, signing, and the channel ID |
| CipherChoice.Pass | Flamingo/Pods/BoringSSL-GRPC/ssl/handshake_server.cc:390-423 | the single pass returns the acceptable cipher with the smallest place in the other list, of the first group that has any and ends, and nothing exactly when there is none |
| CipherChoice.ChooseCipher | Flamingo/Pods/BoringSSL-GRPC/ssl/handshake_server.cc:357-424 | the choice by that rule, with the server's or the client's list as the one in order of priority |
| CipherChoice.ChoiceIsUnique | Flamingo/Pods/BoringSSL-GRPC/ssl/handshake_server.cc:357-424 | the rule leaves exactly one answer |
| CipherChoice.NoneOnlyIfNoneIsAcceptable | Flamingo/Pods/BoringSSL-GRPC/ssl/handshake_server.cc:357-424 | with a list whose last group ends, nothing is chosen exactly when no cipher is acceptable to both; what is chosen is |
| CipherChoice.ClientPreferenceTakesTheFirst | Flamingo/Pods/BoringSSL-GRPC/ssl/handshake_server.cc:381-385 | without server preference it is the first acceptable cipher of the client |
| CipherChoice.WithoutGroupsTheServersFirst | Flamingo/Pods/BoringSSL-GRPC/ssl/internal.h:1877-1879 | with no groups it is the first acceptable cipher of the server |
| CipherChoice.InOneGroupTheClientDecides | Flamingo/Pods/BoringSSL-GRPC/ssl/internal.h:1867-1869 | with one group it is the first acceptable cipher of the client |
| CipherChoice.AnOpenGroupIsIgnored | Flamingo/Pods/BoringSSL-GRPC/ssl/handshake_server.cc:416-423 | what the pass makes of flags whose last group does not end, which the rule parser never builds: nothing is chosen exactly when all that is acceptable stands in it |
| ConstantTime.Msb | Flamingo/Pods/BoringSSL-GRPC/crypto/internal.h:242-246 | all ones exactly if the top bit is set |
| ConstantTime.IsZero | Flamingo/Pods/BoringSSL-GRPC/crypto/internal.h:302-316 | all ones exactly for zero |
| ConstantTime.Eq | Flamingo/Pods/BoringSSL-GRPC/crypto/internal.h:324-328 | all ones exactly for equal words |
| ConstantTime.EqInt8 | Flamingo/Pods/BoringSSL-GRPC/crypto/internal.h:342-346 | an 8-bit mask of equality of two ints, negative ones included |
| ConstantTime.IsZero8 | Flamingo/Pods/BoringSSL-GRPC/crypto/internal.h:318-322 | an 8-bit mask |
| ConstantTime.Eq8 | Flamingo/Pods/BoringSSL-GRPC/crypto/internal.h:330-334 | an 8-bit mask |
| ConstantTime.Select8 | Flamingo/Pods/BoringSSL-GRPC/crypto/internal.h:348-362 | one operand or the other, by a mask of ones or zeros |
| Premaster.CheckPadding | Flamingo/Pods/BoringSSL-GRPC/ssl/handshake_server.cc:1157-1171 | the accumulated mask is all ones exactly if the padding is 00 02, nonzero octets and 00 and the version matches, and all zeros otherwise |
| Premaster.SelectPremaster | Flamingo/Pods/BoringSSL-GRPC/ssl/handshake_server.cc:1136-1178 | the branch-free selection computes the premaster secret of the branching specification, entirely one or the other, and fails openly exactly on the public lengths |
| Premaster.PaddingByPlace | Flamingo/Pods/BoringSSL-GRPC/ssl/handshake_server.cc:1157-1171 | looking at fixed places is the same as searching for the separator (section 7.2.2 of RFC 3447) |
| Premaster.HonestPremasterIsSelected | Flamingo/Pods/BoringSSL-GRPC/ssl/handshake_client.cc:1272-1306 | what a client padded comes out, if it has the length and the version (sections 7.2.1 and 7.2.2 of RFC 3447) |
| Premaster.ShortBlocksHoldNoPremaster | Flamingo/Pods/BoringSSL-GRPC/ssl/handshake_server.cc:1149-1155 | a block too short for the code holds no premaster secret anyway |
| TlsWrite.Flush | Flamingo/Pods/BoringSSL-GRPC/ssl/ssl_buffer.cc:239-252 | a flush touches only the buffer and the wire, and reports success only with the buffer empty |
| TlsWrite.WritePending | Flamingo/Pods/BoringSSL-GRPC/ssl/s3_pkt.cc:202-218 | a retry that goes through reports the pending record and clears it, any other leaves it, and no retry seals anything |
| TlsWriter.Writer.FlushBuffer | Flamingo/Pods/BoringSSL-GRPC/ssl/ssl_buffer.cc:239-252 | the loop computes the flush, whatever the transport answers |
| TlsWriter.Writer.WritePendingRecord | Flamingo/Pods/BoringSSL-GRPC/ssl/s3_pkt.cc:202-218 | computes the pending write |
| TlsWriter.Writer.DoWriteRecord | Flamingo/Pods/BoringSSL-GRPC/ssl/s3_pkt.cc:221-289 | handshake bytes first, then one sealed record, remembered until it is flushed; if sealing fails the handshake bytes stay in the write buffer |
| TlsWriter.Writer.WriteSome | Flamingo/Pods/BoringSSL-GRPC/ssl/s3_pkt.cc:162-199 | one round of the loop: the limit for early data, one record, and how much is left |
| TlsWriter.Writer.Write | Flamingo/Pods/BoringSSL-GRPC/ssl/s3_pkt.cc:129-200 | the loop computes the write, over all rounds |
| TlsWriter.Writer.SendAlert | Flamingo/Pods/BoringSSL-GRPC/ssl/s3_pkt.cc:405-423 | an alert goes through the same pending-write rules |
| TlsWriter.Writer.FlushPendingFlight | Flamingo/Pods/BoringSSL-GRPC/ssl/s3_both.cc:231-279 | the write buffer goes before the flight, what is gone is not sent again, and the flight is over only when the transport has flushed too |
| TlsWriteOnce.WriteSealsOnceExactly | Flamingo/Pods/BoringSSL-GRPC/ssl/s3_pkt.cc:129-200 | a call with the data that comes next keeps to sealing each byte once exactly when it comes with at least as much as was already written |
| TlsWriteOnce.WriteBoundsEarlyData | Flamingo/Pods/BoringSSL-GRPC/ssl/s3_pkt.cc:163-191 | no more is sealed as early data than the ticket allows, whatever is retried |
| TlsWriteOnce.WriteInOrder | Flamingo/Pods/BoringSSL-GRPC/ssl/s3_pkt.cc:254-288 | wire, buffer and flight together are always what was put out, in order |
| TlsWriteOnce.WriteContinues | Flamingo/Pods/BoringSSL-GRPC/ssl/s3_pkt.cc:129-200 | whatever was sealed before, a call with the data that comes next and no less than was already written goes on sealing where the connection is |
| TlsWriteReports.CallReports | Flamingo/Pods/BoringSSL-GRPC/ssl/s3_pkt.cc:129-200 | a call with partial writes that succeeds reports what was written before and one record more; without, all of its data; its new records are cut from the data one after the other, each as large as the fragment size and the ticket allow |
| TlsWriteReports.RetryMustMatch | Flamingo/Pods/BoringSSL-GRPC/ssl/s3_pkt.cc:202-222 | a retry of another kind, shorter, or from elsewhere without moving buffers changes nothing; one that matches flushes the pending record first |
| TlsWriteReports.CallsForNothing | Flamingo/Pods/BoringSSL-GRPC/ssl/s3_pkt.cc:129-160 | after a close nothing is written, and a call with less than was written makes the connection forget that |
| TlsWriteReports.NeedsHandshakeExactly | Flamingo/Pods/BoringSSL-GRPC/ssl/s3_pkt.cc:162-181 | a call asks for the handshake exactly when it is the one that closes early data |
| TlsWriteReports.AlertReports | Flamingo/Pods/BoringSSL-GRPC/ssl/s3_pkt.cc:405-423 | an alert goes out in a record of its own |
| TlsWriteReports.FlightReports | Flamingo/Pods/BoringSSL-GRPC/ssl/s3_both.cc:231-279 | flushing a flight succeeds with all of it on the wire behind the write buffer, or leaves what is left of it |
| TlsWriteReports.SealFailureIsForGood | Flamingo/Pods/BoringSSL-GRPC/ssl/s3_pkt.cc:224-290 | a record that cannot be sealed leaves the handshake bytes that waited in the write buffer, from where nothing takes them any more |
| TlsWriteOnce.EveryByteIsSealedOnce | Flamingo/Pods/BoringSSL-GRPC/ssl/s3_pkt.cc:129-289 | over any run of writes, alerts, flights, failing seals and failing flushes: the data sealed is what was reported plus the unreported part of the last call, each byte once, exactly when no retry came with less than was already written; in any case all goes out in order and early data stays in bounds |
| TlsWriteTwice.SealedByPlaces | Flamingo/Pods/BoringSSL-GRPC/ssl/s3_pkt.cc:129-289 | every byte sealed over a run is the byte of the stream at the place noted for it |
| TlsWriteTwice.SealsTwiceExactly | Flamingo/Pods/BoringSSL-GRPC/ssl/s3_pkt.cc:143-157 | over any run: some byte of the stream is sealed twice exactly if a retry came with less data than was already written and anything was sealed after it |
| TlsWriteOnce.ReadyWritesAll | Flamingo/Pods/BoringSSL-GRPC/ssl/s3_pkt.cc:129-200 | if sealing does not fail and the transport takes every record, one call writes everything |
| TlsWriteTwice.ShortRetrySealsTwice | Flamingo/Pods/BoringSSL-GRPC/ssl/s3_pkt.cc:143-157 | a call with too little data makes the connection forget what it wrote; with moving buffers the same data is then sealed twice |
| TlsMessages.FrontOfPart | Flamingo/Pods/BoringSSL-GRPC/ssl/s3_both.cc:399-425 | any part of a stream shows its first message exactly when it holds all of it, and otherwise asks for no more than the message has |
| TlsMessages.FrontIsRaw | Flamingo/Pods/BoringSSL-GRPC/ssl/s3_both.cc:399-425 | a parsed message is what the bytes at the front spell |
| TlsMessages.RawIsSpelled | Flamingo/Pods/BoringSSL-GRPC/ssl/s3_both.cc:167-178 | a message is its type, its length in three bytes with the high byte first, and its body |
| TlsMessages.Sender.AddMessage | Flamingo/Pods/BoringSSL-GRPC/ssl/s3_both.cc:184-205 | the loop splits a message into as few records as there can be, which spell it; on failure a prefix went out and it is not hashed |
| TlsMessages.SplitsIntoFewest | Flamingo/Pods/BoringSSL-GRPC/ssl/s3_both.cc:184-205 | no fewer records would hold the message |
| TlsMessages.Reader.ParseMessage | Flamingo/Pods/BoringSSL-GRPC/ssl/s3_both.cc:399-425 | computes the message at the front of the buffer or how much is needed |
| TlsMessages.Reader.GetMessage | Flamingo/Pods/BoringSSL-GRPC/ssl/s3_both.cc:427-439 | shows the message, if it is there |
| TlsMessages.Reader.CanAcceptHandshakeData | Flamingo/Pods/BoringSSL-GRPC/ssl/s3_both.cc:441-459 | no record is taken while a message waits or one too long has begun |
| TlsMessages.Reader.HasUnprocessed | Flamingo/Pods/BoringSSL-GRPC/ssl/s3_both.cc:461-472 | bytes besides the message being processed |
| TlsMessages.Reader.OpenHandshake | Flamingo/Pods/BoringSSL-GRPC/ssl/s3_both.cc:529-559 | no record while a message waits or one too long has begun, none of another type, and a handshake record is appended whole |
| TlsMessages.Reader.NextMessage | Flamingo/Pods/BoringSSL-GRPC/ssl/s3_both.cc:562-583 | drops exactly the message shown |
| TlsMessageDelivery.BoundariesMakeNoDifference | Flamingo/Pods/BoringSSL-GRPC/ssl/s3_both.cc:399-583 | cut into records anyhow and read at any time, the messages come out as sent, and all of them once nothing can move (section 6.2.1 of RFC 5246) |
| TlsMessageDelivery.ReadableOnceItHasArrived | Flamingo/Pods/BoringSSL-GRPC/ssl/s3_both.cc:427-439 | a message can be read exactly from its last byte on |
| TlsMessageDelivery.SentIsReceived | Flamingo/Pods/BoringSSL-GRPC/ssl/s3_both.cc:184-205 | what was split on sending comes out whole, in order and once, whatever the limits in force |
| TlsMessageDelivery.ExcessiveExactly | Flamingo/Pods/BoringSSL-GRPC/ssl/s3_both.cc:451-456 | the limit bites exactly when a longer message has shown its header and not arrived whole |
| TlsMessageDelivery.StepsRunOut | Flamingo/Pods/BoringSSL-GRPC/ssl/s3_both.cc:474-583 | every step that changes anything brings the end closer |
| RefCount.NeverWraps | Flamingo/Pods/BoringSSL-GRPC/crypto/internal.h:402-406 | no sequence of operations takes the count beyond its maximum |
| RefCount.SaturationSticks | Flamingo/Pods/BoringSSL-GRPC/crypto/internal.h:408-412 | at the maximum it stays there, and nothing returns one or aborts any more |
| RefCount.CountsHolders | Flamingo/Pods/BoringSSL-GRPC/crypto/internal.h:402-416 | if only holders operate and it never saturates, the count is the number of references held |
| RefCount.LastDropTellsZero | Flamingo/Pods/BoringSSL-GRPC/crypto/internal.h:408-416 | then one decrement returns one exactly if all references were dropped, it is the last operation, and none aborts |
| RefCount.SaturatedIsNeverFreed | Flamingo/Pods/BoringSSL-GRPC/crypto/internal.h:408-412 | a count that ever saturates never tells anyone to free the object |
| RefCountAtomic.StepRefines | Flamingo/Pods/BoringSSL-GRPC/crypto/refcount_c11.c:37-65 | each step of a thread either changes nothing the others see or is one operation of an atomic counter |
| RefCountAtomic.EveryRunIsAtomic | Flamingo/Pods/BoringSSL-GRPC/crypto/refcount_c11.c:37-65 | under every interleaving, with spurious failures, the calls return what an atomic saturating counter returns in the order they take effect |
| RefCountAtomic.OneThreadFrees | Flamingo/Pods/BoringSSL-GRPC/crypto/refcount_c11.c:49-65 | so at most one thread frees the object, and nothing happens after |
| RefCountAtomic.IncrementCount | Flamingo/Pods/BoringSSL-GRPC/crypto/refcount_c11.c:37-47 | the loop takes effect once, after what came before its last attempt |
| RefCountAtomic.DecrementAndTestZero | Flamingo/Pods/BoringSSL-GRPC/crypto/refcount_c11.c:49-65 | likewise, with its outcome |
| RefCountLocked.StepRefines | Flamingo/Pods/BoringSSL-GRPC/crypto/refcount_lock.c:29-51 | only the step that records an outcome is an operation of the atomic counter |
| RefCountLocked.EveryRunIsAtomic | Flamingo/Pods/BoringSSL-GRPC/crypto/refcount_lock.c:29-51 | under every interleaving the lock keeps all but one thread out and the calls return what an atomic counter returns |
| RefCountLocked.OneThreadFrees | Flamingo/Pods/BoringSSL-GRPC/crypto/refcount_lock.c:37-51 | at most one thread frees the object here too |
| RefCountLocked.IncrementCount | Flamingo/Pods/BoringSSL-GRPC/crypto/refcount_lock.c:29-35 | what happens between locking and unlocking is one operation |
| RefCountLocked.DecrementAndTestZero | Flamingo/Pods/BoringSSL-GRPC/crypto/refcount_lock.c:37-51 | likewise, with its outcome |

## Left out

- PbEncoder.Encode: every length in the message is below 2^64, since sizes are counted in `size_t`; wrap-around of a
  count is not modelled.
- PbRoundTrip.RoundTrip: lengths are below 2^63; between there and 2^64 the 32-bit decoder's view of a ten-byte prefix
  is not modelled. Descriptors have static fields with distinct tags from 1 to 2^29 - 1.
- PbRoundTrip.ForwardCompatible: the same bounds.
- PbRoundTrip.DelimitedRoundTrip: the same bounds, also for the message itself.
- PbDecoder.Decode: what is left in the stream and in the message after an error is not stated.
- DtlsDelivery.InOrderOnce: fewer than 65536 messages in a connection, so the 16-bit number does not wrap.
- DtlsDelivery.EndToEnd: the same bound; and the records of the sending are taken as they arrive, the replay window
  and decryption deciding only which of them arrive at all.
- DtlsReplay.NeverReplayed: only while the epoch does not wrap; `DtlsReplay.ReplayFreeExactly` shows why.
- DtlsRecord.RecordReader.OpenRecord: what the body of a record decrypts to is given; ssl3.h is not part of this
  model, so the limit on the length of a body is a parameter.
- PbTyped.DecodedMessageFits: the defaults in the descriptor lie in their own arrays, as the generated initializers
  do.
- DtlsSender.Sender.SendFlight: the MTU is a parameter; querying the transport for it and the fallback size are not
  modelled. What the cipher adds and whether it fails, and what the transport takes, are scripts; a record too long
  for its own length field counts as a failing cipher.
- DtlsSender.Sender.SetWriteState: the new cipher is known by what it adds to a record.
- DtlsDelivery.EndToEndOfObjects: the same bound; which fragments arrive, and in which records, is open, but that they
  are among those put out is what is assumed of the network.
- TlsLockstep.NeverRejects: negotiation has succeeded and both sides know its result; callbacks of the application do
  not fail, only delay; messages have the contents their senders meant.
- TlsProgress.BothReachDone: operations that were put off are not put off forever.
- TlsNetwork.Network.Complete: the same; the schedule it follows is one of many.
- TlsWriteOnce.EveryByteIsSealedOnce: whether sealing a record fails depends on its number, type and contents;
  allocation does not fail.
- TlsMessages.Reader.OpenHandshake: starts from a record that has been opened; alerts, which end in an error or are
  skipped before, and the translated version 2 ClientHello are not modelled.
- TlsMessageDelivery.BoundariesMakeNoDifference: no message is longer than the reader's limit, and records are opened
  only while no message waits.
- RefCount.LastDropTellsZero: only for counts that never saturate; `RefCount.SaturatedIsNeverFreed` covers the others.
- RefCountAtomic.IncrementCount: what other threads do meanwhile is a finite script, so that the loop ends; the
  interleaved steps of `RefCountAtomic.StepRefines` have no such bound.
- RefCountAtomic.DecrementAndTestZero: the same finite script.
- Premaster.SelectPremaster: that running time does not depend on the contents is not a statement of this model.
- Protocol Buffers callbacks, extensions, fixed-count arrays, pointer fields with their allocation, custom streams,
  and builds without 64-bit integers. The memory of a message is a value here: overlapping union members, padding and
  stale array entries are not modelled.
- The default check for a singular submessage that holds fixed-count arrays, which takes element data for a count.
- DTLS timers, ChangeCipherSpec and HelloVerifyRequest steps inside the handshake machines; the machines are connected
  by a reliable stream here.
- TLS 1.3, SSL 3.0, the translated version 2 ClientHello, renegotiation, session lookup, tickets' contents,
  extensions, certificate verification, handing a handshake to another process, alerts' contents.
- Encryption, MACs and hashes: a sealed record is a function of its number, type and contents; a signature or MAC is a
  term.
- The constant-time comparisons for order, which nothing modelled here uses.
- Record splitting against attacks on CBC in TLS 1.0, which happens inside sealing.
- The app's own Swift code, CPU detection, memory allocation, thread wrappers, error tables and transport glue.
