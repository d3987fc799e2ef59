# A Matter controller, from bytes to commissioning

This project models the parts of a Matter controller that turn bytes into meaning and back, and the state machines
on top of them, and proves what each layer promises the next one. Every operation that the program carries out step by
step is a method or a class here; each is proved equal to a function of its inputs and old state, and the theorems are
about those functions, for all inputs and all runs. Round trips and rules are tied to the outside as well: every wire
format is also stated in literal bytes or numbers, and every rule in terms of the plain fields of what it speaks about.

- **TLV** (`TlvElement`, `TlvWriter`, `TlvReader`, `TlvTree`, `TlvWire`, `TlvShortest`, `Native`; Appendix A of the
  Matter Core Specification). `Writer` and `Reader` keep the buffer, cursor and container stack of the originals. Trees
  of any depth are the reference: writing a forest and reading it back yields its pre-order events at the right depths
  and then end of file, so encodings are prefix free, parsing inverts encoding, and the encoder's choice of widths is
  never longer than any encoding the reader accepts for the same tree. A tag survives exactly when its numbers fit its
  form. `TlvWire` has every element type, width, container and tag form as bytes.
- **Reports** (`Reassemble`, `ReportStream`, `Subscription`, `Revision`; chapter 10 of the specification).
  Reassembly is shown to be the one maximal grouping of a report sequence, to lose and reorder nothing, to be idempotent,
  and to undo any cutting of arrays into fragments, wherever the fragments are then cut into messages. `Read` and
  `Subscribe` run against an exchange whose incoming messages and send outcomes are arbitrary; their contracts say
  exactly when they succeed, what they return or deliver, how many acknowledgements were attempted, and which error they
  report otherwise. The revision field inserted into outgoing bytes is one more child of the encoded tree.
- **AES-CCM** (`CcmSpec`, `AesCcm`; RFC 3610). The block cipher is an arbitrary function on 16-byte blocks. The in-place
  loops are proved equal to the equations of sections 2.2 to 2.5; decryption returns a plaintext exactly for its sealed
  form; the authenticated input is an injective, prefix-free function of nonce, data and plaintext; counter blocks never
  meet each other or a first MAC block.
- **Messages** (`Message`, `Codec`, `ReplayWindow`, `SessionTable`, `Stack`; sections 4.4 and 4.5 of the
  specification). Headers and whole messages round-trip in both directions, with the exact condition in each; distinct
  messages never share a keystream block; the replay window decides by the whole history of received counters; the ID
  allocator finds the first free ID in circular order. `Stack` puts TLV, framing and encryption together.
- **Commissioning** (`CommissioningRules`, `CommissioningFacts`, `CommissionWorld`, `CommissionFlow`; section 5.5).
  `CommissioningRules` says when each deed is allowed, as conditions on the log of all earlier deeds and their outcomes;
  the promised orderings follow from legality alone, and `CommissioningFacts` has them in terms of deeds and answers.
  `CommissionFlow` is the flow itself, run against arbitrary outcomes of every command, wait and session; its log is
  legal in every run, it succeeds exactly when the device confirmed completion, a failed run's last deed before the
  closings is what it gave up for, and every session obtained is closed.
- **Setup codes** (`BitBuffer`, `BitFields`, `Base38`, `Decimal`, `Verhoeff`, `SetupPayload`, `ManualCode`; sections
  5.1.3 and 5.1.4). The bit buffer is one little-endian number with its fields side by side; QR and manual codes read
  back exactly for the payloads stated; the check digit catches every single wrong digit and every swap of different
  neighbours, in strings of any length.

`Bytes` has machine integers as ranges of `int`, little-endian bytes, and `&`, `|`, `^` and shifts as arithmetic on bits.
`dafny verify dfyconfig.toml` checks everything.

Where the code and its documentation or the specification differ, the model follows the code:

- Decryption accepts a body longer than 65535 bytes, which encryption refuses (`CcmSpec.DecryptIffEncrypt`).
- A reserved bit of the message flags is dropped when a header is decoded and encoded again (`Message.HeaderReencode`).
- Message counters are compared as plain numbers; there is no rollover (`ReplayWindow.NoRollover`).
- `Read` acknowledges every report message but the last; `Subscribe` acknowledges the last one too, although its comment
  says the two treat chunks the same way. While waiting for the subscribe response it does not look into status
  responses; it reports them as an unexpected opcode. A priming answer without data is not delivered as an empty batch.
- Printing a manual code does not check that the discriminator has 12 bits (`ManualCode.ManualFaithful`), and an 11-digit
  code whose VID/PID flag is set makes the parser slice past its end; the model returns `IndexPanic` there
  (`ManualCode.PanicsWhen`, reached by `ManualCode.PanicReached`).
- Base-38 text whose chunks denote more than their bytes hold is accepted and truncated (`Base38.EncodeDecode` says which
  text survives, `Base38.DecodeNotInjective` shows one that does not).
- The reader allocates what a string's length announces before it looks at the input (`TlvElement.PanicsWhen`).

## Model

| member | source | states |
|---|---|---|
| TlvElement.TagRoundTrip | internal/tlv/tags.go:14-120 | a tag comes back from its bytes if and only if its numbers fit its form |
| TlvElement.FixedRoundTrip | internal/tlv/encoder.go:49-161 | every integer and float, in the width chosen for it, is read back with its sign and nothing more is consumed |
| TlvElement.StringRoundTrip | internal/tlv/encoder.go:164-236 | a string behind a length field wide enough for it is read back whole |
| TlvElement.ValueRoundTrip | internal/tlv/decoder.go:105-246 | every value that fits comes back from its bytes, whatever follows |
| TlvElement.ElementRoundTrip | internal/tlv/decoder.go:29-78 | scanning an element's bytes yields the element and stops right behind it |
| TlvElement.PanicsWhen | internal/tlv/decoder.go:206-246 | reading panics if and only if a string has an eight-byte length above the allocation limit |
| TlvElement.PanicReached | internal/tlv/decoder.go:207-245 | nine bytes, 0x13 and a length of 2^48 + 1, reach the panic |
| TlvReader.Reader.constructor | internal/tlv/decoder.go:22-24 | a reader starts at the front of its input with no container open |
| TlvReader.Reader.ReadFull | internal/tlv/decoder.go:154-158 | takes exactly the bytes asked for, or all that is left and fails |
| TlvReader.Reader.DecodeTag | internal/tlv/tags.go:52-100 | takes the bytes of one tag form and rebuilds the tag, or fails at the end of input |
| TlvReader.Reader.ReadFixed | internal/tlv/decoder.go:154-204 | reads an integer, sign-extended where signed, or a float of the element's width |
| TlvReader.Reader.ReadString | internal/tlv/decoder.go:206-246 | reads a length and that many bytes; a length above what an allocation can have panics |
| TlvReader.Reader.ReadValue | internal/tlv/decoder.go:105-152 | reads the value of any element type, and rejects unknown types |
| TlvReader.Reader.ReadBody | internal/tlv/decoder.go:44-78 | after the control byte: the tag and the value, or the error between them |
| TlvReader.Reader.Next | internal/tlv/decoder.go:29-78 | one step from state to state: element, container stack, done flag and error together |
| TlvTree.ReadTree | internal/tlv/decoder.go:29-78 | from any state, reading an encoded tree gives its events and depths and leaves the containers as they were |
| TlvTree.ReadForest | internal/tlv/decoder.go:29-103 | the same for any sequence of trees |
| TlvTree.ReadBack | internal/tlv/encoder.go:32-293 | reading an encoded forest to the end gives exactly its pre-order events, each at its depth, then end of file |
| TlvTree.ParseEncode | cli/subscribe.go:270-328 | rebuilding a tree from its encoding gives the tree and the bytes after it |
| TlvTree.ParseEncodeAll | cli/cluster.go:473-485 | the children loop gives back all children up to the end of their container |
| TlvTree.EncodePrefixFree | internal/tlv/encoder.go:49-293 | no encoded tree is the beginning of another tree's encoding |
| TlvTree.EncodeAllInjective | internal/tlv/encoder.go:91-293 | different forests have different encodings |
| TlvTree.InsertChildren | internal/interaction/reassemble.go:142-156 | encoded elements put before the last byte of a container become its last children |
| TlvShortest.ElementIsShortest | internal/tlv/encoder.go:48-65 | the writer's form of a scanned element is no longer than what was scanned |
| TlvShortest.TreeIsShortest | internal/tlv/encoder.go:49-236 | any bytes the reader accepts as a tree are at least as long as the writer's encoding of that tree |
| TlvWire.BareValues | internal/tlv/types.go:33-58 | without a tag false is the byte 0x08, true 0x09 and null 0x14 |
| TlvWire.SignedBytes | internal/tlv/encoder.go:49-88 | a signed integer is 0x00 to 0x03 and its 1, 2, 4 or 8 bytes, by its range |
| TlvWire.UnsignedBytes | internal/tlv/encoder.go:91-130 | an unsigned one is 0x04 to 0x07 and its bytes, by its range |
| TlvWire.FloatBytes | internal/tlv/types.go:37-40 | floats are 0x0A and four bytes, 0x0B and eight |
| TlvWire.StringBytes | internal/tlv/types.go:41-56 | texts start from 0x0C and octet strings from 0x10, the next codes having wider lengths |
| TlvWire.ContainerBytes | internal/tlv/types.go:59-66 | structure, array and list are 0x15, 0x16 and 0x17, their children and 0x18 |
| TlvWire.TagForms | internal/tlv/tags.go:14-49 | the bytes of a null under each of the eight tag forms |
| TlvWire.SmallStructure | internal/tlv/encoder.go:32-293 | seven bytes of a structure of an integer and a boolean |
| TlvWire.FourLowBytesFirst | internal/tlv/encoder.go:67-89 | four bytes of a known number, the lowest first |
| TlvWire.EightLowBytesFirst | internal/tlv/encoder.go:67-88 | and eight |
| TlvWire.IntegersRead | internal/tlv/decoder.go:154-204 | integers are read in each of the eight codes, also in a wider one than they need |
| TlvWire.StringsRead | internal/tlv/decoder.go:206-245 | strings in each of the eight codes |
| TlvWire.OthersRead | internal/tlv/decoder.go:105-152 | 0x08 reads as false, 0x09 as true, 0x0A and 0x0B as floats, 0x14 as null; codes from 0x15 up have no value |
| TlvWire.ReadingFails | internal/tlv/decoder.go:29-103 | the end of input, an unopened end, an unknown code and input cut off in the tag, value, length or string |
| TlvWire.ContainersOpenAndClose | internal/tlv/decoder.go:56-76 | 0x15 to 0x17 go onto the container stack and 0x18 takes the last one off |
| TlvWire.TagsThatFit | internal/tlv/tags.go:14-100 | the tags that survive, form by form in numbers |
| TlvWire.TreesThatFit | internal/tlv/encoder.go:48-292 | the trees that the writer can express |
| TlvWriter.Writer.constructor | internal/tlv/encoder.go:22-24 | a writer starts empty with no container open |
| TlvWriter.Writer.EncodeTag | internal/tlv/tags.go:14-49 | appends the bytes of the tag, or nothing and an error for an unknown form |
| TlvWriter.Writer.WriteElement | internal/tlv/encoder.go:32-46 | appends control byte and tag |
| TlvWriter.Writer.WriteField | internal/tlv/encoder.go:67-130 | appends an integer in the width its element type says |
| TlvWriter.Writer.PutSignedInt | internal/tlv/encoder.go:49-65 | appends the element in the least width that holds the signed value |
| TlvWriter.Writer.PutUnsignedInt | internal/tlv/encoder.go:91-107 | appends the element in the least width that holds the value |
| TlvWriter.Writer.PutBool | internal/tlv/encoder.go:133-139 | appends the element; the value is in the type |
| TlvWriter.Writer.PutFloat32 | internal/tlv/encoder.go:142-150 | appends the element with its four bytes |
| TlvWriter.Writer.PutFloat64 | internal/tlv/encoder.go:153-161 | appends the element with its eight bytes |
| TlvWriter.Writer.PutString | internal/tlv/encoder.go:199-236 | appends the string behind the shortest length field that holds its length |
| TlvWriter.Writer.PutUTF8String | internal/tlv/encoder.go:164-178 | appends a text element |
| TlvWriter.Writer.PutOctetString | internal/tlv/encoder.go:181-195 | appends an octet string element |
| TlvWriter.Writer.PutNull | internal/tlv/encoder.go:239-241 | appends a null element |
| TlvWriter.Writer.StartContainer | internal/tlv/encoder.go:244-268 | appends the opening element and pushes the container, unless the tag is refused |
| TlvWriter.Writer.EndContainer | internal/tlv/encoder.go:287-293 | appends the end and pops, or fails and changes nothing when no container is open |
| TlvWriter.Writer.PutPreEncodedStruct | internal/tlv/encoder.go:274-284 | appends start, the given bytes and the end, and leaves the container stack alone |
| TlvWriter.PreEncodedIsNode | internal/tlv/encoder.go:270-284 | with encoded fields, that is the encoding of a structure with those fields |
| TlvWriter.Writer.PutTree | internal/tlv/encoder.go:48-293 | driving the writer over a tree of any depth appends its encoding and closes what it opened |
| TlvWriter.Writer.PutForest | internal/tlv/encoder.go:47-293 | the same for a sequence of trees |
| Native.Decode | cli/subscribe.go:257-266 | decodes exactly the bytes that parse as a tree, to its image, and gives the reader's error otherwise |
| Native.DecodeElement | cli/subscribe.go:270-284 | the image of the element the reader is on; the reader ends right past it at the depth it started from |
| Native.DecodeArray | cli/subscribe.go:291-308 | the images of all children in order; the container is closed |
| Native.DecodeStruct | cli/subscribe.go:313-328 | the map of the fields; the container is closed |
| Native.ChildrenStep | cli/cluster.go:465-485 | one turn of the children loop: the end, an error, or one child more and the rest to do |
| Native.DecodeEncoded | cli/subscribe.go:249-328 | an encoded tree decodes to its native image, whatever follows it |
| Native.ItemsInOrder | cli/subscribe.go:286-308 | array items keep their places |
| Native.FieldPresent | cli/subscribe.go:310-328 | a key is present if and only if some field has that tag number |
| Native.LastFieldWins | cli/subscribe.go:309-328 | its value is that of the last such field |
| Native.ScalarImages | cli/subscribe.go:276-284 | each kind of scalar becomes the value of that kind, octets a text of 0x and their hex digits |
| Native.ContainerImages | cli/subscribe.go:270-276 | 0x15 becomes a map, 0x16 and 0x17 arrays |
| Native.HexAt | cli/subscribe.go:279-281 | two hex digits for each byte, the high one first |
| Native.HexReadsBack | cli/subscribe.go:278-281 | the digits read back to the two halves of the byte |
| Native.KeysAreNumbers | cli/subscribe.go:316-321 | a key is its tag number in decimal |
| Reassemble.ReassembleListChunks | internal/interaction/reassemble.go:43-93 | the loop computes the maximal grouping, each group collapsed to one report |
| Reassemble.GroupsArePartition | internal/interaction/reassemble.go:20-93 | the groups are consecutive, leave nothing out, and none could have taken in the next report |
| Reassemble.GroupingUnique | internal/interaction/reassemble.go:21-93 | there is only one such grouping |
| Reassemble.CollapseKeepsHead | internal/interaction/reassemble.go:121-134 | a group's report differs from its first fragment in the list bytes only |
| Reassemble.NothingLost | internal/interaction/reassemble.go:43-134 | reports that are not appends map one to one in order; output length plus merged appends is input length |
| Reassemble.Idempotent | internal/interaction/reassemble.go:43-156 | reassembling twice is reassembling once, on any report sequence |
| Reassemble.SpliceAppends | internal/interaction/reassemble.go:136-156 | splicing encoded items into an encoded array is appending to the array |
| Reassemble.CollapseUndoesCut | internal/interaction/reassemble.go:115-156 | an array cut anywhere into a marker and one append per remaining item collapses to the original report, byte for byte |
| Reassemble.UndoesChunking | internal/interaction/reassemble.go:20-156 | any list of reports, each cut anywhere or not at all, comes back exactly; what can be cut and merged is said by path fields |
| Reassemble.KeyWhen | internal/interaction/reassemble.go:99-108 | a report can be merged if and only if it has data and endpoint, cluster and attribute; node and list index do not count |
| Reassemble.ContinuesWhen | internal/interaction/reassemble.go:43-93 | a report continues a list if and only if it has a null index and the path of one with data that starts with 0x16 and no null index |
| Reassemble.CollapseOneMore | internal/interaction/reassemble.go:136-155 | each further fragment goes in before the last byte, and 0x18 after it, whatever the bytes are |
| ReportStream.Read | internal/interaction/client.go:33-95 | succeeds if and only if the answer is complete and every send succeeds; returns the reassembled reports of all messages after one acknowledgement per message but the last; otherwise the error of the first thing that went wrong; the exchange is closed once |
| ReportStream.AnyCutIsRead | internal/interaction/client.go:27-95 | what `Read` returns is the original reports, however lists were cut into fragments and fragments into messages |
| ReportStream.MessageKinds | internal/interaction/client.go:67-81 | which messages are reports, and which of them announce another |
| ReportStream.ReportsOfBoth | internal/interaction/client.go:57-92 | the reports of a stream are those of its parts in order |
| ReportStream.ReportsOfOne | internal/interaction/client.go:72-75 | a message has one report or, undecodable or of another kind, none |
| ReportStream.CollectedFromBoth | internal/interaction/client.go:76-78 | and the same for the attribute reports collected |
| ReportStream.CollectedFromOne | internal/interaction/client.go:77-77 | of one report all are collected |
| ReportStream.ReadErrors | internal/interaction/client.go:58-75 | which error each kind of message is reported as that does not complete the answer |
| ReportStream.Exchange.Receive | internal/protocol/exchange.go:57-67 | the next message, or a failure once there is none |
| ReportStream.Exchange.Send | internal/protocol/exchange.go:43-53 | one attempt, which may fail |
| ReportStream.Exchange.Close | internal/protocol/exchange.go:70-74 | counted, so that closing exactly once can be stated |
| Subscription.SplitAttributeReports | internal/interaction/client.go:507-520 | the data reports in order, unless some status fails: then no data and the first failing status |
| Subscription.FirstFailure | internal/interaction/client.go:508-514 | absent if and only if no report carries a failing status; `FirstOfFailures` says which it is |
| Subscription.DataOf | internal/interaction/client.go:508-519 | exactly the reports with data and without a status |
| Subscription.DataOfOne | internal/interaction/client.go:515-517 | one report gives itself, once, if it has data and no status, and otherwise nothing |
| Subscription.DataOfConcat | internal/interaction/client.go:507-519 | the data of two stretches of reports is that of the first and then that of the second |
| Subscription.FirstOfFailures | internal/interaction/client.go:509-513 | the failure is the status of the first report whose status is not 0 |
| Subscription.NoFailure | internal/interaction/client.go:508-515 | without such a report there is none |
| Subscription.CyclesCoverReports | internal/interaction/client.go:456-479 | cutting the stream into cycles loses nothing and keeps the order |
| Subscription.BatchesAreTheData | internal/interaction/client.go:478-488 | what is delivered is the data of the cycles, all of it, in order |
| Subscription.OneBatch | internal/interaction/client.go:481-488 | a cycle adds one batch, its data, unless it has none |
| Subscription.OneCompleteCycle | internal/interaction/client.go:473-479 | a cycle is all reports up to the first that announces no other |
| Subscription.CyclesInTurn | internal/interaction/client.go:414-479 | after a complete cycle the next one starts afresh |
| Subscription.EndsWhen | internal/interaction/client.go:429-454 | a non-zero status and an undecodable report end the stream |
| Subscription.QuietWhen | internal/interaction/client.go:416-496 | the loop goes on if and only if no message ends the stream, every acknowledgement succeeds, no completed cycle has a failing status and every batch is taken |
| Subscription.StopsAt | internal/interaction/client.go:429-495 | the error for each reason to stop, in the order in which they are looked at |
| Subscription.RejectionReasons | internal/interaction/client.go:361-385 | why a primed subscription is rejected, by the message that came instead of the response |
| Subscription.ReportMessage | internal/interaction/client.go:448-496 | exactly when a report lets the loop go on: it is acknowledged and, if it completes a cycle, the cycle has no failure and its data is taken |
| Subscription.QuietFromTheStart | internal/interaction/client.go:416-497 | the loop's reason to stop is the first one in the stream |
| Subscription.ReportLoop | internal/interaction/client.go:409-497 | stops at the first reason to stop; before it, the data of every completed cycle has been delivered, in order; every decoded report got one acknowledgement attempt; the error is the one that reason calls for |
| Subscription.Run | internal/interaction/client.go:409-499 | the goroutine: what the loop delivers, at most the one error it stops for, and both channels and the exchange closed once |
| Subscription.Prime | internal/interaction/client.go:298-357 | collects the priming answer if and only if it is complete and all of it, the last message included, could be acknowledged |
| Subscription.Establish | internal/interaction/client.go:293-385 | established if and only if primed without a failing status and then accepted; otherwise rejected with the reason and closed |
| Subscription.Subscribe | internal/interaction/client.go:292-500 | the exchange is closed exactly once on every path; delivered are the priming data and then the data of each completed cycle before the first reason to stop; at most one error |
| Revision.InsertRevision | internal/interaction/client.go:536-543 | any encoded container gains field 0xFF = 11 as its last child; the bytes are left alone if and only if they do not end in the end marker |
| Revision.RevisionBytes | internal/interaction/client.go:539-540 | the three bytes inserted are the encoding of that field |
| Revision.RevisionReadBack | internal/interaction/client.go:535-543 | read back as a map, field 255 is 11 and every other field is as it was |
| CcmSpec.MacFromFirstBlock | internal/crypto/aesccm.go:101-131 | the MAC of the whole input is the chain over first block, data and plaintext in turn |
| CcmSpec.FirstBlockInjective | internal/crypto/aesccm.go:103-119 | the first block determines nonce, length and whether there is data |
| CcmSpec.LengthPrefixInjective | internal/crypto/aesccm.go:136-150 | the length prefix determines its own size and the length of the data |
| CcmSpec.AadInjective | internal/crypto/aesccm.go:135-166 | padded data blocks determine the data and what follows them |
| CcmSpec.MacInputPrefixFree | internal/crypto/aesccm.go:101-185 | one authenticated input is a prefix of another only for the same nonce, data and plaintext |
| CcmSpec.CounterBlocksDistinct | internal/crypto/aesccm.go:190-218 | counter blocks of one nonce differ from each other and from every first MAC block |
| CcmSpec.CryptUndo | internal/crypto/aesccm.go:189-218 | encrypting twice with the same nonce gives the text back |
| CcmSpec.DecryptIffSealed | internal/crypto/aesccm.go:60-98 | decryption returns a plaintext if and only if the input is its sealed form |
| CcmSpec.DecryptEncrypt | internal/crypto/aesccm.go:28-98 | decrypting an encryption returns the plaintext, for every key, nonce and data |
| CcmSpec.DecryptIffEncrypt | internal/crypto/aesccm.go:36-98 | everything decryption accepts is an encryption if and only if the body has at most 65535 bytes |
| CcmSpec.XorByteBits | internal/crypto/aesccm.go:231-231 | the exclusive or of two bytes, bit by bit |
| CcmSpec.TwoBytes | internal/crypto/aesccm.go:220-226 | a two-byte length or counter, high byte first |
| CcmSpec.LengthPrefixBytes | internal/crypto/aesccm.go:138-149 | two bytes of length below 0xFF00, and otherwise 0xFF, 0xFE and four |
| CcmSpec.PaddedBytes | internal/crypto/aesccm.go:156-185 | padding adds fewer than sixteen zero bytes up to a whole block |
| CcmSpec.ChainBlock | internal/crypto/aesccm.go:161-165 | one block is xored into the state and encrypted |
| CcmSpec.CryptAt | internal/crypto/aesccm.go:204-217 | byte j of the text is xored with byte j mod 16 of the encrypted counter block 1 + j / 16 |
| CcmSpec.SealedBlock | internal/crypto/aesccm.go:101-218 | all bytes of a sealed text of up to sixteen bytes without data, from the block cipher alone |
| CcmSpec.SealedBlockWithData | internal/crypto/aesccm.go:100-218 | the same with up to fourteen bytes of additional data |
| CcmSpec.EncryptOutcome | internal/crypto/aesccm.go:28-56 | the sizes that are refused, in order: a key of other than 16 bytes, a nonce of other than 13, a text above 65535 |
| CcmSpec.DecryptFails | internal/crypto/aesccm.go:60-69 | the same for decryption, with input below 16 bytes |
| AesCcm.XorBytes | internal/crypto/aesccm.go:229-233 | the range becomes the exclusive or of its operands, also in place; the rest is untouched |
| AesCcm.PutLength | internal/crypto/aesccm.go:221-226 | writes the length big-endian into the end of the buffer |
| AesCcm.MacData | internal/crypto/aesccm.go:169-185 | chains the padded data, partial last block included |
| AesCcm.MacAad | internal/crypto/aesccm.go:134-166 | chains the length-prefixed, padded data |
| AesCcm.EncodeAadLength | internal/crypto/aesccm.go:136-150 | two or six bytes by the size of the data |
| AesCcm.CbcMac | internal/crypto/aesccm.go:100-131 | computes the MAC of RFC 3610, section 2.2 |
| AesCcm.Ctr | internal/crypto/aesccm.go:188-218 | in place: the text xored with the key stream from counter 1, the tag with that of counter 0 |
| AesCcm.Encrypt | internal/crypto/aesccm.go:25-56 | body and masked tag, or the first of the three size errors |
| AesCcm.Decrypt | internal/crypto/aesccm.go:58-98 | the plaintext, or an error and nothing else |
| Message.HeaderRoundTrip | internal/protocol/message.go:83-202 | an encoded header decodes to itself with normalised flags, consuming exactly its bytes |
| Message.HeaderReencode | internal/protocol/message.go:82-202 | a decoded header encodes to the bytes it came from if and only if bit 3 of the first byte is clear |
| Message.ProtocolRoundTrip | internal/protocol/message.go:249-334 | an encoded protocol header decodes to itself, normalised, if and only if its flag bits imply the matching fields |
| Message.ProtocolReencode | internal/protocol/message.go:248-334 | a decoded protocol header always encodes to the bytes it came from |
| Message.HeaderOnWire | internal/protocol/message.go:96-139 | the bytes of a header: version, bit 2 for a source, 1 or 2 for the destination, and the fields in order |
| Message.HeaderReadable | internal/protocol/message.go:145-199 | a header is read if and only if its destination size is not 3 and the bytes that its first byte announces are there |
| Message.ProtocolOnWire | internal/protocol/message.go:249-290 | flags, opcode, exchange, protocol, then vendor and counter if present |
| Message.FlagsOnWire | internal/protocol/message.go:205-216 | bit 4 is set with a vendor and bit 1 with a counter |
| Message.ProtocolReadable | internal/protocol/message.go:295-333 | a protocol header is read if and only if the bytes that bits 4 and 1 announce are there |
| Message.FlagsMatchWhen | internal/protocol/message.go:208-215 | flags match their fields if and only if bits 4 and 1 are set only with a vendor and a counter |
| Message.EncodeMessageHeader | internal/protocol/message.go:83-140 | the fixed fields and the optional node IDs at their offsets |
| Message.DecodeMessageHeader | internal/protocol/message.go:144-202 | the header and its length, or an error for short input or a reserved destination size |
| Message.EncodeProtocolHeader | internal/protocol/message.go:249-291 | the fixed fields and the optional vendor ID and counter |
| Message.DecodeProtocolHeader | internal/protocol/message.go:295-334 | the protocol header and its length, or an error for short input |
| Codec.BuildNonce | internal/protocol/codec.go:115-121 | fills the thirteen bytes with flags, counter and node ID |
| Codec.NonceInjective | internal/protocol/codec.go:112-121 | the nonce determines security flags, counter and node |
| Codec.KeystreamNotReused | internal/protocol/codec.go:43-56 | no counter block is used twice, within a message or across messages that differ in flags, counter or node |
| Codec.EncodeMessage | internal/protocol/codec.go:25-68 | header and payload, sealed under the session's key if it has one |
| Codec.DecodeMessage | internal/protocol/codec.go:72-110 | the message inside, or the error of the layer that refused it |
| Codec.DecodeEncode | internal/protocol/codec.go:25-110 | on paired sessions a message comes back, normalised, if and only if its protocol flags imply the matching fields |
| Codec.EncodesWhen | internal/protocol/codec.go:25-67 | encoding succeeds if and only if the session has no key, or a 16-byte one and the plaintext fits |
| Codec.EncodeDecode | internal/protocol/codec.go:24-110 | encoding a decoded message gives the received bytes if and only if bit 3 of the first byte is clear and, when encrypted, the length fits |
| Codec.SealedOnWire | internal/protocol/codec.go:45-58 | on a PASE or CASE session with an encryption key: the header in clear, and the rest sealed under that key with the sender in the nonce |
| Codec.ClearOnWire | internal/protocol/codec.go:59-67 | without a session, a secured one or a key: everything in clear |
| Codec.PairedWhen | internal/protocol/codec.go:45-92 | two secured ends fit if and only if the one encrypts with what the other decrypts with and is its peer |
| Codec.PairedInClear | internal/protocol/codec.go:59-97 | an end that sends in clear fits one that reads in clear, and no other |
| Stack.Deliver | internal/interaction/client.go:530-565 | written, revised, framed, sealed, opened and decoded, a container arrives as its image with the revision as one field more, whenever it can be encoded |
| ReplayWindow.PeerMessageCounter.constructor | internal/protocol/session.go:80-87 | nothing has been received |
| ReplayWindow.PeerMessageCounter.Validate | internal/protocol/session.go:92-128 | accepted if and only if never received before and less than 32 below the maximum; too old if and only if at least 32 below |
| ReplayWindow.Advanced | internal/protocol/session.go:103-114 | shifting the bitmap keeps it the record of the last 32 counters |
| ReplayWindow.Marked | internal/protocol/session.go:116-127 | a bit of the bitmap is set if and only if that counter has been received |
| ReplayWindow.NoReplay | internal/protocol/session.go:78-128 | over any sequence of calls no counter is accepted twice, and what is received but never accepted is too old in the end |
| ReplayWindow.ReorderingAccepted | internal/protocol/session.go:79-128 | distinct counters that arrive less than 32 out of order are all accepted |
| ReplayWindow.NoRollover | internal/protocol/session.go:102-120 | once the greatest counter has come, a counter is too old if and only if it is below its window |
| SessionTable.TriedNext | internal/protocol/session.go:184-187 | stepping to the next ID, skipping 0, walks the circle of IDs |
| SessionTable.TriesReachAll | internal/protocol/session.go:182-204 | 65535 tries from anywhere reach every ID but 0 |
| SessionTable.FirstFree | internal/protocol/session.go:184-204 | the ID found is the lowest free one from the start up, or if there is none the lowest of all |
| SessionTable.Table.constructor | internal/protocol/session.go:139-144 | an empty table whose next ID is 1 |
| SessionTable.Table.UnsecuredSession | internal/protocol/session.go:148-174 | session 0, created on first use; nothing else changes |
| SessionTable.Table.CreateSession | internal/protocol/session.go:177-206 | terminates with the lowest free ID from the next one up, or else the lowest of all, changes no other entry, and fails if and only if 1 to 65535 are all taken |
| SessionTable.Table.RemoveSession | internal/protocol/session.go:216-220 | removes that entry only |
| CommissioningRules.CredentialsInOrder | internal/commissioning/flow.go:257-411 | before AddNOC the failsafe was armed and then the root added, all on one PASE session |
| CommissioningRules.SentOnce | internal/commissioning/flow.go:200-608 | every command but ArmFailsafe is sent at most once in a run |
| CommissioningRules.CompleteOverCase | internal/commissioning/flow.go:589-595 | CommissioningComplete goes over CASE and everything else over PASE |
| CommissioningRules.NoUseAfterFailure | internal/commissioning/flow.go:376-520 | a session on which a required command failed is never used again |
| CommissioningRules.NetworkAfterCredentials | internal/commissioning/flow.go:413-520 | credentials are sent only after AddNOC and only off the network; if AddNOC's reply was lost, only on a later PASE session whose failsafe was re-armed for 900 s |
| CommissioningRules.ConnectAfterSetup | internal/commissioning/flow.go:495-520 | ConnectNetwork follows a successful setup on the same session |
| CommissioningRules.Attempts | internal/commissioning/flow.go:543-580 | at most three CASE attempts, and at most one PASE attempt more than the reconnect limit |
| CommissioningRules.OneAttemptOnceDropped | internal/commissioning/flow.go:544-556 | a CASE attempt after another one happens only while some PASE session is still sound |
| CommissioningRules.ProgressIncreases | internal/commissioning/flow.go:49-66 | reported steps strictly increase |
| CommissioningRules.StepReported | internal/commissioning/flow.go:832-836 | the step of whatever is done for the first time is the last one reported before it |
| CommissionWorld.World.ReportProgress | internal/commissioning/flow.go:831-836 | adds one report to the log and breaks none of its rules |
| CommissionFlow.ReadDevice | internal/commissioning/flow.go:257-336 | steps 4 and 5; stops when the device needs credentials that were not given |
| CommissionFlow.CheckCredentials | internal/commissioning/flow.go:299-336 | reads the feature map only off the network and without credentials, and stops if and only if it asks for some |
| CommissionFlow.RequestAttestations | internal/commissioning/flow.go:859-908 | three requests in order, stopping at the first failure |
| CommissionFlow.Validate | internal/commissioning/flow.go:345-354 | both validations, if configured, before anything else is sent |
| CommissionFlow.IssueCredentials | internal/commissioning/flow.go:356-368 | the CSR and then the NOC |
| CommissionFlow.InstallCredentials | internal/commissioning/flow.go:370-411 | root, then NOC; a lost reply counts as dropped, not as failed |
| CommissionFlow.Reconnect | internal/commissioning/flow.go:1077-1122 | a new PASE session later than the loss, or a failed wait or attempt to show for it |
| CommissionFlow.Redeliver | internal/commissioning/flow.go:444-493 | reconnects, re-arms and goes on, and closes the new session on every path |
| CommissionFlow.SetupNetwork | internal/commissioning/flow.go:495-506 | hands over the credentials; a lost transport is not a failure here |
| CommissionFlow.JoinNetwork | internal/commissioning/flow.go:507-520 | has the device join; a lost reply is not a failure here |
| CommissionFlow.Finish | internal/commissioning/flow.go:413-608 | from AddNOC to completion |
| CommissionFlow.TryCase | internal/commissioning/flow.go:563-580 | one wait and one attempt |
| CommissionFlow.EstablishCase | internal/commissioning/flow.go:522-588 | one attempt when the transport is gone, three otherwise, each after a wait |
| CommissionFlow.OverCase | internal/commissioning/flow.go:589-608 | completion over the CASE session, which is then closed |
| CommissionFlow.Complete | internal/commissioning/flow.go:591-595 | completion is the last deed of the run but for closings |
| CommissionFlow.OverPase | internal/commissioning/flow.go:257-608 | everything done while the first PASE session is open |
| CommissionFlow.Connect | internal/commissioning/flow.go:234-608 | discovery and PASE; the session is closed on every path |
| CommissionFlow.Commission | internal/commissioning/flow.go:200-609 | every run's log is legal; success if and only if completion was confirmed, by the last deed before the closings; otherwise that deed is the failure or the missing credentials the run gave up for, with every permitted attempt used up; every session closed |
| CommissionFlow.SuccessMeans | internal/commissioning/flow.go:376-608 | a completed run had AddNOC sent and not refused on PASE before CASE, and the credentials sent if they were needed |
| CommissioningFacts.CredentialsOverBleOnly | internal/commissioning/flow.go:241-305 | network credentials are sent only if the address discovery gave is a BLE one |
| CommissioningFacts.CredentialsSent | internal/commissioning/flow.go:444-520 | a completed run over BLE with Wi-Fi or Thread credentials sent them, and had the device join unless the transport was gone |
| CommissioningFacts.NetworkIDFirst | internal/commissioning/flow.go:507-509 | a Thread device is told to join only after the network ID was extracted |
| CommissioningFacts.AsksWhen | internal/commissioning/flow.go:313-335 | a device asks for credentials if and only if its feature map has Wi-Fi or Thread and no Ethernet |
| CommissioningFacts.FeaturesReadFirst | internal/commissioning/flow.go:311-341 | over BLE and without credentials the features are read before the attestation is requested |
| CommissioningFacts.FailsafeSeconds | internal/commissioning/flow.go:201-203 | the first failsafe is the given one or 180 s, a later one 900 s |
| CommissioningFacts.FoundFirst | internal/commissioning/flow.go:205-251 | discovery succeeded before the first PASE attempt, and before it the setup code was parsed if there is no passcode |
| CommissioningFacts.StepsInOrder | internal/commissioning/flow.go:257-394 | before AddNOC on a session, in order and on the same session: basic information, attestation, DAC, PAI, CSR and root, with the NOC issued and the attestation validated in between |
| CommissioningFacts.SessionUsed | internal/commissioning/flow.go:249-595 | completion goes over an established CASE session, everything else over PASE, and nothing over a closed one |
| CommissioningFacts.CaseAfterNoc | internal/commissioning/flow.go:563-582 | each CASE attempt comes right after waiting and after AddNOC was accepted or its answer lost, and none after one that succeeded |
| CommissioningFacts.PaseAgain | internal/commissioning/flow.go:1077-1121 | PASE is tried again only right after waiting, with Wi-Fi or Thread credentials owed since the answer to AddNOC was lost |
| CommissioningFacts.HowItEnds | internal/commissioning/flow.go:589-607 | the last deed before the closings is completion in a successful run and fatal in another |
| CommissioningFacts.SessionGivenUp | internal/commissioning/flow.go:257-519 | after any failure but of the two optional reads nothing more is sent on that session |
| CommissioningFacts.FatalWhen | internal/commissioning/flow.go:276-595 | which failures end a run, command by command |
| CommissioningFacts.NothingAfterFatal | internal/commissioning/flow.go:216-595 | after one of them only sessions are closed |
| CommissioningFacts.DroppedWhen | internal/commissioning/flow.go:396-518 | the transport is gone if and only if a required command failed on every PASE session |
| CommissioningFacts.AttemptsWhenGivenUp | internal/commissioning/flow.go:543-588 | a run that gives up on CASE tried it three times, or once without the transport; on PASE once, or seven times or one more than the limit given |
| CommissioningFacts.CommandSteps | internal/commissioning/flow.go:49-66 | the progress step of each command |
| CommissioningFacts.DeedSteps | internal/commissioning/flow.go:48-66 | and of everything else |
| BitBuffer.WriteBits | internal/commissioning/payload.go:243-252 | sets the bits of the value in its range and no others |
| BitBuffer.ReadBits | internal/commissioning/payload.go:255-266 | the number whose bits are those of the range |
| BitBuffer.ReadWritten | internal/commissioning/payload.go:243-266 | over clear bits, what was written is read back in its low bits |
| BitBuffer.ReadElsewhere | internal/commissioning/payload.go:242-266 | writing does not disturb a disjoint range |
| BitFields.ReadIsField | internal/commissioning/payload.go:254-266 | reading a range of the buffer is shifting and truncating its number |
| BitFields.WriteAddsField | internal/commissioning/payload.go:244-252 | writing above everything written so far adds the shifted field to the buffer's number |
| BitFields.Unpack | internal/commissioning/payload.go:75-121 | of any fields packed side by side, each is found again at its offset |
| Base38.Encode | internal/commissioning/payload.go:270-299 | the loop computes the base-38 text of chunks of three bytes and a shorter last one |
| Base38.Decode | internal/commissioning/payload.go:302-351 | the loop reads chunks back, or gives the first error, of a foreign character or of a left-over one |
| Base38.EncodedLength | internal/commissioning/payload.go:268-299 | five characters per three bytes, four for two, two for one |
| Base38.DecodeEncode | internal/commissioning/payload.go:270-351 | byte strings of every length survive |
| Base38.EncodeDecode | internal/commissioning/payload.go:269-351 | a text that decodes is the encoding of what it decodes to if and only if each chunk denotes a number its bytes can hold |
| Base38.DecodeNotInjective | internal/commissioning/payload.go:301-351 | two texts can decode to the same bytes; the second is not canonical |
| Base38.DigitCharacters | internal/commissioning/payload.go:269-299 | the 38 characters in order |
| Base38.OtherCharacters | internal/commissioning/payload.go:302-350 | exactly the others are refused |
| Base38.ThreeByteText | internal/commissioning/payload.go:270-298 | three bytes are their five digits in base 38, the lowest first |
| Base38.TwoByteText | internal/commissioning/payload.go:271-299 | two bytes at the end are four digits |
| Base38.OneByteText | internal/commissioning/payload.go:271-298 | one byte at the end is two |
| Verhoeff.TableD | internal/commissioning/payload.go:355-366 | the product table is that of the dihedral group of order ten |
| Verhoeff.TableInverse | internal/commissioning/payload.go:368-368 | the inverse table holds the inverses |
| Verhoeff.TableP | internal/commissioning/payload.go:370-379 | row i mod 8 of the permutation table is the i-th power of row 1 |
| Verhoeff.ReverseString | internal/commissioning/payload.go:405-411 | the in-place swaps reverse the string |
| Verhoeff.Generate | internal/commissioning/payload.go:383-391 | the loop computes the check digit of the string |
| Verhoeff.Validate | internal/commissioning/payload.go:394-402 | the loop decides whether the checksum is zero |
| Verhoeff.CheckDigitCompletes | internal/commissioning/payload.go:382-402 | a digit completes a string to a valid one if and only if it is the generated one |
| Verhoeff.OneDigitChanged | internal/commissioning/payload.go:393-402 | changing any one digit of a valid string makes it invalid |
| Verhoeff.NeighboursSwapped | internal/commissioning/payload.go:392-402 | swapping any two different neighbours of a valid string makes it invalid |
| Verhoeff.KnownCheckDigits | internal/commissioning/payload.go:383-390 | the check digits of three known strings, the body of a manual code among them |
| SetupPayload.ValidatePasscode | internal/commissioning/payload.go:215-230 | allowed if and only if not 0 and not in the list |
| SetupPayload.PackBits | internal/commissioning/payload.go:74-92 | seven writes leave the little-endian bytes of the packed fields |
| SetupPayload.QRCode | internal/commissioning/payload.go:66-95 | the text of the packed fields, or the first of the two range errors |
| SetupPayload.ParseQRCode | internal/commissioning/payload.go:98-129 | the fields at their offsets, or the first error |
| SetupPayload.PackedPayload | internal/commissioning/payload.go:75-122 | the packed bytes hold every field, version and flow in their three and two bits |
| SetupPayload.QRRoundTrip | internal/commissioning/payload.go:66-129 | a printed QR code reads back as the payload, or is refused for its passcode |
| SetupPayload.QRFaithful | internal/commissioning/payload.go:65-129 | a payload prints and reads back as itself if and only if its fields are in range and its passcode is allowed |
| SetupPayload.PackedFields | internal/commissioning/payload.go:74-91 | the packed number as a sum of the seven fields at bits 0, 3, 19, 35, 37, 45 and 57 |
| SetupPayload.RefusedPasscodes | internal/commissioning/payload.go:215-229 | refused are 0 and the other multiples of 11111111 up to 99999999, and two more |
| SetupPayload.PaddingAddsNothing | internal/commissioning/payload.go:109-113 | a code of fewer bytes reads as if the missing ones were zero |
| SetupPayload.ExampleQRCode | pkg/matter/matter_test.go:77-88 | the whole QR code of a known payload |
| ManualCode.ParseDecimal | internal/commissioning/payload.go:233-239 | the number modulo 2^32 |
| ManualCode.ManualPairingCode | internal/commissioning/payload.go:132-163 | the digits and their check digit, or an error for a wide passcode |
| ManualCode.ParseManualPairingCode | internal/commissioning/payload.go:166-212 | separators removed, then length, digits, check digit and fields in that order of errors |
| ManualCode.BodyPayload | internal/commissioning/payload.go:144-206 | the digit groups of a printed code spell the fields they came from |
| ManualCode.ManualRoundTrip | internal/commissioning/payload.go:132-212 | a printed code of 11 or 21 digits, typed with any separators, gives the passcode, the top discriminator bits and, for custom flow, vendor and product |
| ManualCode.ManualFaithful | internal/commissioning/payload.go:131-212 | a printed code reads back as what it keeps of the payload if and only if the passcode is allowed and the discriminator has 12 bits |
| ManualCode.BodyNumbers | internal/commissioning/payload.go:144-157 | the digit groups as numbers, with the custom flow being 2 |
| ManualCode.StrippedParts | internal/commissioning/payload.go:167-168 | dashes and blanks are dropped and nothing else |
| ManualCode.NotInTheCode | internal/commissioning/payload.go:184-211 | a code says nothing of version, capabilities and the low discriminator bits, nor of the identifiers without the custom flow |
| ManualCode.WhatIsKept | internal/commissioning/payload.go:132-211 | passcode, high discriminator bits and, for the custom flow, flow, vendor and product are kept |
| ManualCode.ExampleManualCode | pkg/matter/matter_test.go:90-98 | the whole manual code of a known payload, and what it reads back to when typed with dashes |
| ManualCode.PanicsWhen | internal/commissioning/payload.go:167-204 | parsing slices past the end if and only if a short code with a fitting check digit announces the identifiers in its first digit |
| ManualCode.PanicReached | internal/commissioning/payload.go:202-205 | a code that does |
| ManualCode.WrongDigitRejected | internal/commissioning/payload.go:180-182 | one wrong digit in any code whose check digit fits is reported as a wrong check digit |
| ManualCode.SwapRejected | internal/commissioning/payload.go:179-182 | and so are two swapped neighbours |
| ManualCode.ParseSetupCode | internal/commissioning/flow.go:839-844 | goes by the prefix |
| ManualCode.SetupCodeRoundTrip | internal/commissioning/flow.go:838-844 | both printed forms of a payload find their own parser |

## Left out

- `tlv.Marshal` and `tlv.Unmarshal`: message types are records above the TLV layer, and a payload either decodes to its type or does not.
- Floating-point values: carried as their bit patterns. Texts are byte strings whose UTF-8 is not looked at, and setup codes are strings of single-byte characters.
- The closures passed to `tlvChildren`: array and structure decoding each have the loop written out.
- Array arguments that may overlap: `XorBytes` allows the in-place use the program makes of it; the other buffers are distinct.
- Mutexes, atomics and channels as such: the counter, the table, the subscription's channels and the exchange are sequential objects. The channels are the sequences of what was sent on them; a consumer that does not take a batch until cancellation is a delivery that fails.
- `Exchange`: `NewExchange`, exchange IDs and the routing of incoming messages; the messages of one exchange are an arbitrary sequence.
- ReportStream.Exchange.Send: does not model stamping the exchange ID, the initiator flag and the session ID on the message, because what is sent is only counted here.
- ReportStream.Exchange.Close: counts calls; closing the incoming channel only the first time is not modelled, because every exchange is shown to be closed once.
- TlvReader.Reader.ReadString: panics above the allocation limit of the usual 64-bit platforms; running out of memory below it is not modelled.
- ReportStream.Read: does not model building the request from the paths, or a failure to create the exchange, because it then returns before doing anything.
- `Write`, `Invoke` and the typed status texts: one message and one answer each.
- Sessions: the table holds their ID, type and first counter; `NextMessageCounter` is an increment. Counters are not drawn here; random numbers are parameters.
- CommissionFlow.Commission: does not model encoding a request or drawing a nonce, whose errors come before anything is sent, nor `readDeviceInfo`, whose errors are ignored after completion.
- Attestation, NOC issuing, discovery and the two session handshakes: deeds with an arbitrary outcome.
- Durations: a wait is a deed that may be cancelled; how long it is is not modelled, except for the 900 s of the re-armed failsafe.
- `ReplayWindow`: states properties of the class; nothing in the program's message pump calls it.
- SPAKE2+, certificates, HKDF, transports, mDNS, storage, the command line and its output: not part of this model.
