# Verified model of the libofp codec

libofp (the library behind the `oftr` tool) encodes, decodes and rewrites OpenFlow messages. Most of
its logic builds, walks, pads and rewrites byte buffers that hold nested variable-length elements.
This project models that logic in Dafny and proves what the separate pieces of code have to agree on:
what a builder writes, a validator accepts and an iterator splits again; what a downgrade to
OpenFlow 1.0 loses; how long a message says it is and how long it really is. Around this core stand
models of the other stateful or algorithmic parts of the repository: the hash, the duration text
format, the learning-switch controllers, the OXM table compiler, and the bracket matcher and
preprocessor stack of the style checker. `dafny verify dfyconfig.toml` checks everything.

Code that updates objects in place is modelled by classes and methods with loops, proved against
specification functions; the theorems are about those functions. Integers are unbounded and every
wrap-around or narrowing of the source is written out.

| file | contents |
|---|---|
| `Bytes.dfy`, `Text.dfy`, `Options.dfy` | bytes, big-endian fields, padding, bit operators; character classes, trimming; optional values |
| `Framing.dfy`, `Validation.dfy` | the theory of self-delimiting elements; validators and iterators against it |
| `Oxm.dfy` | OXM types, entries, lists, look-up, ordered insertion |
| `Actions.dfy`, `Instructions.dfy`, `Properties.dfy` | element layouts, list builders, validation |
| `ActionWrite.dfy`, `Normalize.dfy`, `Transcode.dfy` | downgrade to 1.0, in-place upgrade, and the round trip |
| `Channel.dfy` | byte buffer, memory channel, message splitter |
| `Sections.dfy`, `FlowMod.dfy`, `FlowModV1.dfy`, `FlowRemoved.dfy`, `Bundle.dfy` | whole messages |
| `FlowModRun.dfy` | one FlowMod builder over a run of sends |
| `Wire.dfy` | the builders, validators and translations on literal bytes |
| `Builders.dfy` | builders that translate fields, send and restore them |
| `Hash.dfy`, `Collisions.dfy`, `HashValues.dfy`, `Duration.dfy`, `Controller.dfy`, `PrereqCompiler.dfy` | hash, durations, controllers, table compiler |
| `Brackets.dfy`, `Templates.dfy`, `Preprocessor.dfy` | the two cores of the style checker; angle brackets |

## Results

- `FlowModV1.SendReceiveIff`: a FlowMod sent on a version 1 channel is accepted by the receiver and
  brings the very actions that were sent if and only if every action is restorable, a condition on the
  bytes of the action and the receiver alone, and the list with its wrapping fits a message.
  `FlowModV1.SendAndReceive` runs the two sides. `Transcode.RoundTripIff` is the same for bare lists:
  any valid list, padded or not.
- `Normalize.Normalize.NormActions`: rewriting all actions inside the message buffer, with the buffer
  growing and shrinking under the iterators, is an exact splice.
- `ActionWrite.SizeLaw`: bytes of the list = bytes written + bytes saved + excess, with the exact
  condition for a zero excess; `Transcode.AlignedSizeLaw` names the excess for aligned lists.
- `Framing` with `Validation`, `Oxm`, `Actions`, `Instructions`, `Properties`: validators accept exactly
  the concatenations of complete elements, boundaries are unique, and builders, validators and
  iterators agree on them.
- `FlowMod.Layout3ReadsBack`, `FlowRemoved.Layout6ReadsBack`, `Bundle.BundleReadsBack`: accessors
  recover exactly what builders sent; validation accepts exactly when the parts are valid.
  `FlowRemoved.ValidFlowRemovedIff`: exactly which bytes pass as a FlowRemoved.
- `Collisions.WordDetermined`: for every key length and position exactly one 4-byte word gives a wanted hash,
  so keys that differ in one word, or in the tail alone, never collide. `HashValues.KnownAnswers`: three
  values of the hash itself.
- `Wire.DowngradeOnWire`, `UpgradeOnWire` and the other laws of `Wire`: both translations, every action and
  every instruction on literal bytes, without the tables of the other modules.
- `Brackets.SearchesAgree`: forward and backward search compute the same matching over any text.
  `Templates.AnglesMatch`: both also match the angle brackets around template arguments.
- `Preprocessor.StackAt`: at every place of a well-nested file the nesting stack is the effect of the
  branches around it and of the first branches before it. `WellNested` and `OnlyKeptLinesCount`: what
  remains is the effect of first branches, at any depth; the second also for unbalanced files.
- `PrereqCompiler.CompiledExactly`: on every table, one pass gives a field exactly the tokens it reaches
  by a chain whose steps, all but the last, lead to earlier fields. `CompleteIff` is the exact condition
  for the transitive closure, `CompiledIff` and `CompiledInOrder` the case of tables in order.
- `Channel.StopsIff`: the message splitter ends if and only if it never meets a header of length zero.
- `Controller.ScriptAgreesIff`: one script for all switches decides like one controller per switch on an
  interleaved run if and only if no frame is shorter than 14 bytes.
- `Duration.PrintParse`: durations survive printing and parsing. `AcceptedIff`: exactly which texts
  have which value.
- `FlowModRun.RunIsFreshIff`: exactly which runs of one FlowMod builder look like fresh builders;
  `FlowModRun.RunSplitsAgainIff`: exactly which runs the message splitter takes apart again.

## What the proofs showed about the code

- `normSetField` copies wire bytes into a native value and encodes them again. On a little-endian host
  this exchanges the two bytes of a TCP or UDP port (`Transcode.FieldAfterRoundTrip`,
  `PortDoesNotReturn`); such an action survives only when both bytes are equal (`Transcode.Restorable`).
- `write` emits the unpadded length of an action, `writeSize` counts the padded one; SET_FIELD actions
  without a 1.0 form are counted and not written (`ActionWrite.Exact` is the exact condition,
  `UnpaddedIsInexact` and `UntranslatableIsInexact` are instances).
- `withMask` doubles a length into 8 bits. The static bound on masked experimenter values admits 126
  and 127 bytes, where the length overflows (`Oxm.MaskRoundTrip`, `Oxm.MaskRoundTripFails`).
- The duration parser accepts text behind the digits. Behind a decimal fraction it counts as digits,
  behind the hexadecimal form it is dropped (`Duration.AcceptedIff`, `JunkIsExactIff`, `JunkShifts`,
  `HexJunkIsDropped`).
- `trace_msg_` stays for ever on a header of length zero (`Channel.StopsIff`, `ZeroLengthStays`,
  `ZerosNeverEnd`).
- `FlowModBuilder::sendOriginal` clears the builder's table id for good: a later message of another
  version differs from a fresh builder's exactly when the id was not zero (`FlowModRun.RunIsFreshIff`;
  `TableIdIsLost` is an instance).
- `InstructionList::add` writes experimenter data and nested actions without padding. A built list splits
  again if and only if every instruction fills whole words and fits its length field
  (`Instructions.BuiltList`; `UnalignedDoesNotSplit` is a list of 13 bytes).
  `FlowModBuilder::sendStandard` announces the padding all the same and does not write it: the header of a
  message below 64 KiB is right if and only if there is none (`FlowMod.Layout2LengthIff`,
  `FlowModRun.UnpaddedRunFails`). From version 3 on an assertion excludes such lists
  (`FlowMod.Layout3LengthIff`).
- The Python controller acts on frames of 7 to 13 bytes, which the C++ one ignores, and raises an exception
  on shorter ones (`Controller.ShortFrame`; `SevenBytesFlood` is an instance).
- A prerequisite list that names later fields can miss transitive prerequisites
  (`PrereqCompiler.CompleteIff`, `ForwardReference`).

## Model

| member | source | states |
|---|---|---|
| Bytes.PadLength | include/ofp/padding.h:17-19 | the least multiple of 8 that is not below the length |
| Bytes.Big16RoundTrip | include/ofp/byteorder.h:28-31 | reading a big-endian 16-bit field returns the number written, modulo 2^16 |
| Bytes.Big32RoundTrip | include/ofp/byteorder.h:33-41 | the same for 32 bits |
| Bytes.BitwiseIff | src/ofp/types.cpp:352-362 | and, or and exclusive or, bit by bit |
| Framing.ParseJoin | include/ofp/protocoliterator.h:101-147 | joining any run of complete elements and splitting the bytes gives the same elements in order |
| Framing.JoinParse | include/ofp/protocoliterator.h:101-147 | whatever splits is the join of its elements, each of them complete |
| Framing.SplitsIff | include/ofp/protocoliterator.h:101-147 | joined bytes split into the pieces that were joined if and only if every piece is a complete element |
| Framing.JoinInjective | include/ofp/protocoliterator.h:101-147 | element boundaries are unique |
| Framing.WellFormedIff | src/ofp/protocoliterator.cpp:58-112 | bytes split if and only if they are a concatenation of complete elements |
| Framing.ParseInsert | src/ofp/oxmlist.cpp:16-22 | inserting an element at a boundary inserts it into the list |
| Validation.ValidateArrayVariableSize | include/ofp/validation.h:132-189 | accepts exactly aligned bodies of a supported version that are runs of complete padded elements, each passing its own check |
| Validation.IsProtocolRangeValid | src/ofp/protocoliterator.cpp:30-113 | accepts exactly aligned runs of complete elements of at least the element size (8-byte alignment) |
| Validation.Iterate | include/ofp/protocoliterator.h:143-147 | the iterator visits every element of an accepted list once, in order, and stops exactly at the end |
| Validation.IteratorStep | include/ofp/protocoliterator.h:78-85 | one step lands on the next element boundary and never passes the end |
| Validation.ProtocolRangeSplitOffset | src/ofp/protocoliterator.cpp:195-242 | the split offset is the largest whole number of elements that fits the chunk; 0 exactly when the first does not fit |
| Oxm.TypeRoundTrip | include/ofp/oxmtype.h:55-59 | the four bytes of a type read back as class, field, mask bit and length |
| Oxm.NativeIsWord | include/ofp/oxmtype.h:55-59 | the number that orders types is their header read as one word |
| Oxm.MakeCases | include/ofp/oxmtype.h:88-93 | what a 16-bit size or-ed into the header does to length, mask bit and field |
| Oxm.MaskRoundTrip | include/ofp/oxmtype.h:41-53 | withoutMask undoes withMask if and only if the doubled length fits 8 bits |
| Oxm.MaskRoundTripFails | include/ofp/oxmlist.h:53-60 | a 126-byte experimenter value passes the static bound and its masked type does not come back |
| Oxm.EntryIsElement | include/ofp/oxmlist.h:65-94 | every added entry is one complete TLV that carries its type |
| Oxm.EntryRoundTrip | include/ofp/oxmiterator.h:38-90 | reading an added entry returns its type, experimenter id and mask, and a value whose bits are set exactly where those of the value and of the mask are |
| Oxm.MaskedBitIff | include/ofp/oxmlist.h:79-94 | a bit of the value written is set if and only if it is set in the value and in the mask |
| Oxm.MaskedAddress | include/ofp/oxmlist.h:79-84 | the bytes of 10.1.2.3 under 255.255.0.0 |
| Oxm.EntryStable | include/ofp/oxmlist.h:65-94 | adding again what was read back writes the same bytes |
| Oxm.ListRoundTrip | include/ofp/oxmiterator.h:96-118 | any list of added entries splits back into them and each reads back |
| Oxm.ValidateInput | include/ofp/oxmrange.h:48-64 | accepts exactly the concatenations of complete TLVs |
| Oxm.ValidateInputPaddedField | include/ofp/oxmrange.h:68-80 | accepts exactly one complete TLV and at most 7 zero bytes |
| Oxm.PaddedFieldIff | include/ofp/oxmrange.h:66-80 | the condition, restated as a concatenation |
| Oxm.Get | include/ofp/oxmrange.h:87-108 | returns the value of the first entry of the type, or nothing when there is none |
| Oxm.EntryPayload | include/ofp/oxmiterator.h:72-79 | behind its type and experimenter id an added entry holds the masked value and the mask |
| Oxm.BuiltLookup | include/ofp/oxmrange.h:87-108 | looking up in any built list, masked and experimenter entries included, finds the first entry added with that type |
| Oxm.OXMList.AddPlain | include/ofp/oxmlist.h:65-69 | appends type and value |
| Oxm.OXMList.AddExperimenter | include/ofp/oxmlist.h:71-77 | appends type, experimenter id and value |
| Oxm.OXMList.AddMasked | include/ofp/oxmlist.h:79-84 | appends type, masked value (Oxm.MaskedBitIff) and mask |
| Oxm.OXMList.AddExperimenterMasked | include/ofp/oxmlist.h:86-94 | appends type, experimenter id, masked value and mask |
| Oxm.OXMList.Add | include/ofp/oxmlist.h:28-60 | the list stays well-formed and iteration yields the new entry last |
| Oxm.OXMList.Pad8 | include/ofp/oxmlist.h:145-152 | appends zeros up to the next multiple of 8 counted with the offset |
| Oxm.OXMList.FindOrderedPos | src/ofp/oxmlist.cpp:51-59 | the boundary before the first entry whose type is above the given one |
| Oxm.OXMList.AddOrdered | src/ofp/oxmlist.cpp:16-22 | inserts one entry at that boundary; an ordered list stays ordered |
| Channel.ByteList.InsertUninitialized | include/ofp/bytelist.h:85-87 | opens a gap of unknown bytes; everything before and behind it is kept |
| Channel.ByteList.Remove | include/ofp/bytelist.h:99-100 | removes exactly the given range |
| Channel.MemoryChannel.Write | include/ofp/memorychannel.h:33-35 | appends the data |
| Channel.MemoryChannel.NextXid | include/ofp/memorychannel.h:40 | returns the counter and advances it modulo 2^32 |
| Channel.TraceMsg | src/ofp/log.cpp:41-61 | takes the turns of the loop until the guard is false and logs the messages passed, when every header it meets has a nonzero length |
| Channel.StopsIff | src/ofp/log.cpp:49-55 | some number of turns makes the guard false if and only if no header of length zero is met |
| Channel.ZeroLengthStays | src/ofp/log.cpp:49-55 | at a header of length zero every turn is the identity and the guard stays true |
| Channel.ZerosNeverEnd | src/ofp/log.cpp:49-55 | on eight zero bytes every iterate is the start |
| Channel.TraceSplits | src/ofp/log.cpp:41-61 | a buffer of complete messages is visited message by message with nothing left over |
| Channel.RunSplitsIff | src/ofp/log.cpp:41-61 | messages joined in a channel are split into exactly those messages, with nothing left over, if and only if each is as long as its header says |
| Channel.WriteMessages | include/ofp/memorychannel.h:33-35 | a run of writes leaves the concatenation of the messages |
| Actions.ActionIsElement | include/ofp/actions.h:239-342 | every kind of action is written as one complete padded element with its type and length |
| Actions.ActionList.AddFixed | include/ofp/actionlist.h:20-25 | appends the bytes of a fixed-size action |
| Actions.ActionList.AddSetFieldCustom | include/ofp/actionlist.h:28-42 | appends a SET_FIELD of any field, with or without experimenter id, padded |
| Actions.ActionList.AddUnknown | include/ofp/actionlist.h:44-51 | appends an unknown action, padded behind its unpadded length |
| Actions.ActionList.AddExperimenter | include/ofp/actionlist.h:53-60 | appends an experimenter action, padded |
| Actions.ActionList.Add | include/ofp/actionlist.h:20-60 | whatever is added, the list stays well-formed and iteration yields the new action last |
| Actions.ValidateSetField | src/ofp/actionrange.cpp:12-29 | accepts exactly SET_FIELD actions of 16 bytes or more that hold one zero-padded TLV |
| Actions.ValidateItem | src/ofp/actionrange.cpp:39-59 | the check of one action by its type, Nicira actions included |
| Actions.ValidateActions | src/ofp/actionrange.cpp:35-62 | accepts exactly aligned runs of complete actions that all pass |
| ActionWrite.SetFieldShape | src/ofp/actionrange.cpp:12-29 | a valid SET_FIELD has room for its value and only zeros behind it |
| ActionWrite.ExcessIsError | src/ofp/actionrange.cpp:135-211 | for one action: its bytes are those written, those saved and the excess, which is 0 if and only if the size is predicted exactly |
| ActionWrite.UnpaddedIsInexact | src/ofp/actionrange.cpp:117-119 | a valid action of size 5 is predicted with 8 bytes and written with 5 |
| ActionWrite.UntranslatableIsInexact | src/ofp/actionrange.cpp:206-209 | a valid SET_FIELD of IP_ECN is predicted with 16 bytes and not written |
| ActionWrite.SizeLaw | src/ofp/actionrange.cpp:65-123 | for a whole valid list, and the exact condition under which prediction and output agree |
| ActionWrite.WriteSize | src/ofp/actionrange.cpp:65-90 | returns the bytes written plus the excess on version 1, the size of the list otherwise |
| ActionWrite.Write | src/ofp/actionrange.cpp:93-123 | appends the translation of every action on version 1, the list itself otherwise |
| ActionWrite.WriteItem | src/ofp/actionrange.cpp:108-122 | appends the 1.0 form of one action, which Wire.DowngradeOnWire, NoFormOnWire and OthersOnWire give byte by byte |
| Normalize.Normalize.MakeOxm | include/ofp/normalize.h:92-94 | one TLV holding the value, padded to 12 bytes |
| Normalize.Normalize.Resize | include/ofp/normalize.h:96-107 | the buffer grows or shrinks at the action; the bytes around it stay |
| Normalize.Normalize.SpliceSetField | include/ofp/normalize.h:109-118 | the action becomes one SET_FIELD header and the list |
| Normalize.Normalize.NormSetField | include/ofp/normalize.h:78-128 | an exact splice when the size is aligned and holds the value, no change otherwise; the end iterator moves by the returned difference |
| Normalize.Normalize.NormOutput | src/ofp/normalize.cpp:1289-1315 | a 16-bit output action becomes a 32-bit one in place; other output actions stay |
| Normalize.Normalize.NormAction | src/ofp/normalize.cpp:1215-1287 | the action at the iterator is replaced by its internal form, which Wire.UpgradeOnWire and OutputOnWire give byte by byte |
| Normalize.Normalize.NormNext | src/ofp/normalize.cpp:1200-1210 | one turn of the loop replaces one action and moves to the next |
| Normalize.Normalize.NormActions | src/ofp/normalize.cpp:1191-1213 | the whole list inside the buffer becomes the list of the internal forms; nothing else changes |
| Normalize.NormOneIsElement | src/ofp/normalize.cpp:1215-1287 | the internal form of a complete action is a complete action |
| Transcode.SetFieldCanonical | src/ofp/actionrange.cpp:12-29 | a valid aligned SET_FIELD that 1.0 knows has 16 bytes and is determined by field and value |
| Transcode.FieldAfterRoundTrip | include/ofp/normalize.h:88-94 | an address survives downgrade and upgrade on any host; a port has its bytes exchanged on a little-endian one |
| Transcode.PortDoesNotReturn | include/ofp/normalize.h:88-94 | TCP port 80 comes back as 20480 on a little-endian host |
| Transcode.SetFieldReturnsIff | src/ofp/actionrange.cpp:162-211 | a SET_FIELD comes back if and only if it is restorable |
| Transcode.OutputReturnsIff | include/ofp/actions.h:73-87 | an output action comes back if and only if 16 bits tell its port apart and its padding is zero |
| Transcode.OtherReturnsIff | src/ofp/normalize.cpp:1215-1287 | any other action comes back if and only if it is not taken for a 1.0 action |
| Transcode.ActionReturnsIff | src/ofp/actionrange.cpp:108-122 | for every valid action: its 1.0 form is a complete action and comes back as the action if and only if it is restorable |
| Transcode.WrittenList | src/ofp/actionrange.cpp:93-123 | what is written is a run of complete 1.0 actions if and only if every action but the SET_FIELD ones fills its padded length |
| Transcode.SourcesAreWritten | src/ofp/normalize.cpp:1191-1213 | actions that normalize to a list and have together the bytes written for it are the written ones |
| Transcode.AlignedSizeLaw | src/ofp/actionrange.cpp:65-211 | for aligned lists the predicted size exceeds the output by exactly the SET_FIELD actions without a 1.0 form |
| Transcode.RoundTripIff | src/ofp/normalize.cpp:1191-1213 | downgrading and upgrading any valid list gives well-formed, equal bytes if and only if every action is restorable |
| Instructions.InstructionIsElement | include/ofp/instructions.h:75-113 | an instruction carries its type and its narrowed length, and is one complete element if and only if it fills whole words and fits 16 bits |
| Instructions.UnalignedDoesNotSplit | include/ofp/instructions.h:165-168 | an experimenter instruction with five bytes of data takes 13 bytes and is not a well-formed list |
| Instructions.InstructionList.AddWithActions | include/ofp/instructionlist.h:31-41 | appends the header and the nested action list |
| Instructions.InstructionList.AddExperimenter | include/ofp/instructionlist.h:43-47 | appends the header and the data |
| Instructions.InstructionList.Add | include/ofp/instructionlist.h:25-47 | appends the bytes of any instruction; iteration yields the old ones and then the new one if and only if it fills whole words and fits 16 bits; after a size that is not a multiple of 8 the list does not split at all |
| Instructions.ValidateInstruction | include/ofp/instructions.h:96-102 | the check of one instruction, its nested actions included |
| Instructions.ValidateInstructions | src/ofp/instructionrange.cpp:25-55 | accepts exactly aligned runs of complete instructions that all pass |
| Instructions.OutputActions | src/ofp/instructionrange.cpp:10-23 | returns the payload of the first APPLY_ACTIONS instruction, or nothing |
| Instructions.BuiltList | src/ofp/instructionrange.cpp:10-23 | a built list splits into its instructions if and only if each fills whole words and fits 16 bits; the actions found are then those of the first APPLY_ACTIONS added |
| Properties.PropertyIsElement | include/ofp/propertylist.h:35-55 | every property is one complete padded element |
| Properties.PropertyList.Add | include/ofp/propertylist.h:35-55 | both forms keep the list a well-formed multiple of 8 bytes and iteration yields the new property last |
| Sections.MessageHeaderFields | include/ofp/header.h:12-45 | version, type, length and transaction id read back |
| Sections.SectionReadsBack | src/ofp/matchheader.cpp:25-81 | a match or stat section gives its list back, ends where the next begins, and is valid exactly when its list is |
| Sections.ValidMatchIff | src/ofp/matchheader.cpp:25-81 | from version 4 on exactly the OXM sections with a well-formed list and any padding are valid |
| Sections.ValidStatIff | src/ofp/statheader.cpp:16-60 | the same for stat sections |
| FlowMod.FlowModBuilder.WriteFixedV1 | src/ofp/flowmod.cpp:136-141 | the 72 bytes in front of version 1 actions; FlowModV1.SentShape reads them back |
| FlowMod.FlowModBuilder.MeasureOriginal | src/ofp/flowmod.cpp:117-122 | the actions of the first APPLY_ACTIONS and the length announced for them |
| FlowMod.FlowModBuilder.SendOriginal | src/ofp/flowmod.cpp:112-150 | a version 1 message with the translated actions of the first APPLY_ACTIONS and the announced length |
| FlowMod.FlowModBuilder.SendStandard | src/ofp/flowmod.cpp:86-110 | a version 2 message with the standard match and any instructions, announced with their padding |
| FlowMod.FlowModBuilder.SendOxm | src/ofp/flowmod.cpp:51-83 | a message of version 3 and up with match section and instructions, under the source's assertion that they are padded |
| FlowMod.FlowModBuilder.Send | src/ofp/flowmod.cpp:42-84 | the form sent for each version, and that only the version 1 form changes the builder |
| FlowMod.Layout3ReadsBack | src/ofp/flowmod.cpp:10-35 | length, match and instructions of a sent message read back; validation accepts it exactly when it accepts the parts |
| FlowMod.Layout2ReadsBack | src/ofp/flowmod.cpp:10-35 | the same for version 2 and the standard match, with version, type and transaction id |
| FlowMod.Layout1LengthIff | src/ofp/flowmod.cpp:119-122 | on version 1, for messages of any size, when the header announces the bytes written; below 64 KiB if and only if every action has an exactly predicted size |
| FlowMod.Layout2LengthIff | src/ofp/flowmod.cpp:92-105 | on version 2 the header announces the bytes written if and only if the instructions are a multiple of 8 bytes and the message fits its length field |
| FlowMod.Layout3LengthIff | src/ofp/flowmod.cpp:51-63 | the same from version 3 on, without the assertion |
| FlowMod.AppliedActionsValid | include/ofp/instructions.h:96-102 | the actions found in valid instructions are valid |
| FlowModV1.RewriteFixed | src/ofp/normalize.cpp:259-271 | the seven copies leave exactly the new fixed part in front of the old bytes from offset 48 |
| FlowModV1.InsertMatch | src/ofp/normalize.cpp:286-298 | room is made and the match copied; room for an instruction header is left when actions follow |
| FlowModV1.UpgradeActions | src/ofp/normalize.cpp:311-318 | the actions are normalized in place and wrapped in one APPLY_ACTIONS instruction of the right length |
| FlowModV1.NormalizeFlowModV1 | src/ofp/normalize.cpp:226-320 | convertible messages take their internal form; of every other message it says which flag it gets and what is left of it |
| FlowModV1.InsertMatchAndActions | src/ofp/normalize.cpp:280-320 | the part behind the fixed fields: internal form for valid actions, otherwise a flag with the match inserted |
| FlowModV1.Mark | src/ofp/normalize.cpp:1317-1325 | flags the version byte and changes nothing else |
| FlowModV1.NormalizeMessage | src/ofp/normalize.cpp:33-139 | for a version 1 FlowMod: the whole outcome, and that accepted messages become their internal form and all others are flagged |
| FlowModV1.WrittenIsValid | src/ofp/actionrange.cpp:93-123 | the 1.0 form of a valid aligned list passes validation on arrival |
| FlowModV1.SentShape | src/ofp/flowmod.cpp:112-150 | a version 1 message holds version, type and transaction id, the match in bytes 8 to 48, the fixed fields and the translated actions |
| FlowModV1.SendReceiveIff | src/ofp/normalize.cpp:226-320 | the sent message is accepted and carries the actions sent if and only if all are restorable and the wrapped list fits |
| FlowModV1.FieldsArrive | src/ofp/normalize.cpp:259-271 | an accepted message brings transaction id, cookie, table, command, timeouts, priority, buffer id and flags, the converted match, a full cookie mask and no group, and the port if and only if 16 bits tell it apart |
| FlowModV1.SendAndReceive | src/ofp/flowmod.cpp:112-150 | the builder and the normalizer run one after the other, with the header and the match of the bytes sent and both statements about the bytes that come out |
| Wire.BigEndian | include/ofp/byteorder.h:28-41 | 16- and 32-bit numbers as bytes, in both directions |
| Wire.FieldOnWire | oxm/oxmfields.tab:5-22 | OXM header and 1.0 action code of every field |
| Wire.DowngradeOnWire | src/ofp/actionrange.cpp:160-213 | the bytes written on version 1 for a SET_FIELD of each field |
| Wire.NoFormOnWire | src/ofp/actionrange.cpp:208-212 | a SET_FIELD of any other field is not written |
| Wire.OthersOnWire | src/ofp/actionrange.cpp:108-122 | the bytes written for outputs and for all other actions |
| Wire.UpgradeOnWire | src/ofp/normalize.cpp:1215-1287 | the bytes that replace each 1.0 and 1.1 action, by version and protocol |
| Wire.OutputOnWire | src/ofp/normalize.cpp:1215-1287 | the bytes that replace a 1.0 output |
| Wire.ActionOnWire | include/ofp/actions.h:51-66 | the bytes of every action but SET_FIELD |
| Wire.SetFieldOnWire | include/ofp/actions.h:277-320 | the bytes of both forms of SET_FIELD |
| Wire.InstructionOnWire | include/ofp/instructions.h:75-113 | the bytes of every instruction |
| Wire.StatsOnWire | oxm/oxmfields.tab:89-93 | the headers of the three statistics |
| Wire.ValidActionOnWire | src/ofp/actionrange.cpp:35-63 | which complete actions pass, by their bytes |
| Wire.ValidInstructionOnWire | src/ofp/instructionrange.cpp:25-55 | which complete instructions pass, by their bytes |
| Wire.ValidMatchOnWire | src/ofp/matchheader.cpp:25-81 | which match sections pass, by version |
| Wire.RejectedOnWire | src/ofp/normalize.cpp:228-237 | the version byte of a message that could not be normalized |
| Wire.RemainsOnWire | src/ofp/normalize.cpp:228-310 | what is left of such a message besides its version byte |
| FlowModRun.SendOne | src/ofp/flowmod.cpp:42-84 | one send writes the message for the fixed part held, and only version 1 changes it |
| FlowModRun.SendRun | src/ofp/flowmod.cpp:42-150 | any run of sends of one builder writes the messages for the fixed parts left by the sends before |
| FlowModRun.ClearedMessageIff | src/ofp/flowmod.cpp:131-134 | clearing the table id shows in a message if and only if it was not zero and the version is not 1 |
| FlowModRun.RunIsFreshIff | src/ofp/flowmod.cpp:131-134 | every message of a run is that of a fresh builder if and only if the table id is zero or no message of a later version follows one of version 1 |
| FlowModRun.TableIdIsLost | src/ofp/flowmod.cpp:131-134 | table 5 sent on version 1 and then on version 4: the second message names table 0 |
| FlowModRun.MessageLengthIff | src/ofp/flowmod.cpp:42-150 | for every version, exactly when a message is as long as its header says |
| FlowModRun.RunSplitsAgainIff | src/ofp/log.cpp:41-61 | what one builder sends over any run of versions is split again into the messages sent if and only if each version gives a message as long as it says |
| FlowModRun.UnpaddedRunFails | src/ofp/flowmod.cpp:86-110 | with 13 bytes of instructions a version 2 message announces 152 bytes, has 149 and is not split again |
| FlowRemoved.FlowRemovedV6Builder.SetStat | src/ofp/flowremovedv6.cpp:72-82 | adds one entry to the stat list |
| FlowRemoved.FlowRemovedV6Builder.Send | src/ofp/flowremovedv6.cpp:84-118 | header, fixed part, match section and stat section with their padding |
| FlowRemoved.Layout6ReadsBack | src/ofp/flowremovedv6.cpp:22-70 | header, match and stat read back, nothing is left over, and validation accepts exactly well-formed lists |
| FlowRemoved.ValidFlowRemovedIff | src/ofp/flowremovedv6.cpp:35-75 | from version 4 on a message passes if and only if it is a header, a fixed part, a match section and a stat section with nothing behind |
| FlowRemoved.GetStat | src/ofp/flowremovedv6.cpp:10-20 | returns the first value of the type in the stat list |
| FlowRemoved.GettersReturn | src/ofp/flowremovedv6.cpp:10-20 | each getter returns the value first set for its type, in whatever order values were set |
| Bundle.OffsetWithin | src/ofp/bundleaddmessage.cpp:17-44 | in a valid message whose length is a multiple of 8 the padded inner message never passes the end |
| Bundle.BundleAddMessageBuilder.Send | src/ofp/bundleaddmessage.cpp:46-64 | header, inner message with padding, properties |
| Bundle.BundleReadsBack | src/ofp/bundleaddmessage.cpp:9-44 | header, inner message and properties read back, and the message is valid exactly when the properties are well-formed |
| Builders.ErrorBuilder.Send | src/ofp/error.cpp:83-109 | sends the message of a fresh builder for that version and restores type and code |
| Builders.ErrorReadsBack | src/ofp/error.cpp:83-109 | header, error type, code and data read back, with version 0 sent as version 1 |
| Builders.ErrorBuilder.SendRun | src/ofp/error.cpp:83-109 | over any run of versions every message equals that of a fresh builder |
| Builders.TranslateTypeInjective | src/ofp/header.cpp:14-29 | a version never confuses two message types it supports |
| Builders.TypesReturn | src/ofp/header.cpp:31-48 | translating a type to a version and from it are inverse wherever the version has the type |
| Builders.TranslatedTypes | src/ofp/header.cpp:9-29 | the type numbers of each version |
| Builders.HeaderOnlyReadsBack | include/ofp/headeronly.h:34-70 | a supported message is a header of eight bytes with the translated type; an unsupported one is not sent |
| Builders.HeaderOnlyBuilder.Send | include/ofp/headeronly.h:171-198 | sends the message of a fresh builder, or nothing for an unsupported version, and restores the type |
| Builders.HeaderOnlyBuilder.SendRun | include/ofp/headeronly.h:171-198 | over any run of versions every message equals that of a fresh builder; requests count transaction ids modulo 2^32, replies keep theirs |
| Hash.FinalMix32 | include/ofp/hash.h:23-30 | computes the final mix modulo 2^32 |
| Hash.FinalMixInverse | include/ofp/hash.h:23-30 | the final mix is a bijection on words, with its inverse |
| Hash.ScrambleInverse | include/ofp/hash.h:52-54 | the scrambling of a key word is a bijection |
| Hash.RoundInverse | include/ofp/hash.h:47-59 | a round is a bijection of the hash state |
| Hash.MixBlocks | include/ofp/hash.h:43-59 | the block loop folds the rounds over the aligned words and stops at the tail |
| Hash.MurmurHash32 | include/ofp/hash.h:37-75 | computes the digest that the theorems are about, on hosts of either byte order |
| Collisions.BlocksInverse | include/ofp/hash.h:47-59 | a whole run of rounds is a bijection of the hash state |
| Collisions.WordDetermined | include/ofp/hash.h:37-75 | with all other bytes fixed, an aligned word gives a wanted hash if and only if it is one certain word |
| Collisions.OneWordNoCollision | include/ofp/hash.h:37-75 | keys of one length that differ in one aligned word never collide |
| Collisions.FourByteKeys | include/ofp/hash.h:37-75 | the hash is injective on 4-byte keys |
| Collisions.TailNoCollision | include/ofp/hash.h:61-74 | keys of one length that differ only in the tail never collide |
| HashValues.KnownAnswers | test/ofp/hash_unittest.cpp:33-51 | the hash of a tail alone, of a block alone and of a block with a tail |
| HashValues.LoadedWord | include/ofp/hash.h:47-50 | the word that four bytes give on hosts of either byte order |
| Duration.ConsumeUInt32 | external/yaml-io/src/Support/StringRef.cpp:411-457 | reads the digits in front, failing without any or above 32 bits; the overflow test on wrapped 64-bit words is exact |
| Duration.AddDigit | external/yaml-io/src/Support/StringRef.cpp:439-445 | the overflow test finds exactly the sums that need more than 64 bits |
| Duration.Parse | src/ofp/durationsec.cpp:18-66 | computes the meaning of the text, always within 32 bits |
| Duration.Scale | src/ofp/durationsec.cpp:55-59 | the padding loop multiplies by the missing power of ten and never overflows 32 bits |
| Duration.FractionIsExact | src/ofp/durationsec.cpp:49-60 | a fraction of k digits, 1 to 9, has its exact value in nanoseconds |
| Duration.JunkIsExactIff | src/ofp/durationsec.cpp:42-60 | text behind the digits is accepted, and the value is that of the digits if and only if there is none or they are zero |
| Duration.JunkShifts | src/ofp/durationsec.cpp:42-60 | "1.5s" parses to one and a twentieth second |
| Duration.HexJunkIsDropped | src/ofp/durationsec.cpp:37-47 | text behind the hexadecimal form changes nothing |
| Duration.AcceptedIff | src/ofp/durationsec.cpp:18-66 | a text has a certain value if and only if it is a number of seconds alone or with a decimal or hexadecimal fraction of the described form |
| Duration.PrintParse | src/ofp/durationsec.cpp:70-87 | printing and parsing returns every 32-bit pair of seconds and nanoseconds |
| Duration.PrintedForm | src/ofp/durationsec.cpp:70-87 | below one second of nanoseconds the text is the seconds, a point and nine digits; above, the escape and hexadecimal digits; no leading zeros |
| Duration.DigitTable | src/ofp/durationsec.cpp:70-87 | the digits printed, and those read in either case |
| Controller.SimpleController.LookupPort | example/controller/simplecontroller.cpp:49-56 | finds the port exactly when the address is in the table |
| Controller.SimpleController.OnPacketIn | example/controller/simplecontroller.cpp:14-39 | learns, then floods, drops or forwards; short frames change nothing |
| Controller.SimpleController.OnPacketIns | example/controller/simplecontroller.cpp:14-56 | over any run the table is the latest port per unicast source and every decision is the right one |
| Controller.TableIsLearned | example/controller/simplecontroller.cpp:22-25 | the table after any history is the latest port per unicast source |
| Controller.OutcomeIsRight | example/controller/simplecontroller.cpp:27-38 | every decision follows from the latest port of the destination |
| Controller.FlowsLeadAway | example/controller/simplecontroller.cpp:33-38 | a flow leads to the latest port of its destination and never back to the arrival port |
| Controller.Script.HandlePacketIn | example/python/controller.py:118-138 | the handler on text, with the exception it raises on short data |
| Controller.SecondDigit | example/python/controller.py:47-48 | the second hexadecimal digit tells multicast addresses |
| Controller.KeyInjective | example/python/controller.py:124-130 | datapath and address make an unambiguous key |
| Controller.TablesAgree | example/python/controller.py:123-131 | the one table holds the table of every switch |
| Controller.ScriptAgreesIff | example/python/controller.py:118-138 | on any interleaved run all decisions agree with one controller per switch if and only if every frame has 14 bytes |
| Controller.ShortFrame | example/python/controller.py:118-138 | a frame below 14 bytes is ignored by the controllers and not by the script, which raises an exception if and only if there are fewer than 7 bytes |
| Controller.ScriptLearns | example/python/controller.py:118-125 | what the script learns from any frame, whole or not |
| Controller.SevenBytesFlood | example/python/controller.py:118-138 | a frame of seven bytes on which the script floods and the controller does nothing |
| PrereqCompiler.Trim | oxm/oxmfields_compile_main.cpp:366-374 | no white space at either end |
| PrereqCompiler.TrimSplit | oxm/oxmfields_compile_main.cpp:366-374 | what is trimmed is white space in front and behind |
| PrereqCompiler.NameMap | oxm/oxmfields_compile_main.cpp:337-341 | a name leads to the last field that carries it |
| PrereqCompiler.Identifier | oxm/oxmfields_compile_main.cpp:330-333 | the longest prefix without a blank, bracket or ampersand |
| PrereqCompiler.Split | oxm/oxmfields_compile_main.cpp:376-385 | the trimmed pieces that getline delivers |
| PrereqCompiler.TokensJoin | oxm/oxmfields_compile_main.cpp:376-385 | splitting distributes over a comma join when the left text is not empty and does not end in a comma |
| PrereqCompiler.ExpandField | oxm/oxmfields_compile_main.cpp:349-362 | the inner loop on the table |
| PrereqCompiler.CompilePrereqs | oxm/oxmfields_compile_main.cpp:336-364 | the pass over the table, in place |
| PrereqCompiler.JoinMember | oxm/oxmfields_compile_main.cpp:376-385 | the nonempty tokens of any comma join are those of its sides |
| PrereqCompiler.CompiledExactly | oxm/oxmfields_compile_main.cpp:336-364 | for every table: a nonempty token is in the compiled list if and only if it is reached by a chain whose steps, all but the last, go to earlier fields |
| PrereqCompiler.CompleteIff | oxm/oxmfields_compile_main.cpp:336-364 | the pass computes the transitive closure if and only if whatever is reached is reached by such a chain |
| PrereqCompiler.LayeredDescends | oxm/oxmfields_compile_main.cpp:336-364 | in a table that names only earlier fields every chain is of that kind |
| PrereqCompiler.OnePass | oxm/oxmfields_compile_main.cpp:336-364 | when prerequisites name earlier fields and no list ends in a comma, every field gets its full list, tokens in order |
| PrereqCompiler.CompiledIff | oxm/oxmfields_compile_main.cpp:336-364 | the case of tables that name only earlier fields: every token, empty ones included; lists marked with a slash end chains |
| PrereqCompiler.CompiledInOrder | oxm/oxmfields_compile_main.cpp:348-362 | without slash markers every prerequisite stands before what needs it |
| PrereqCompiler.MarkedStays | oxm/oxmfields_compile_main.cpp:345-347 | a list that begins with a slash is left as it is |
| PrereqCompiler.ForwardReference | oxm/oxmfields_compile_main.cpp:336-364 | a table with forward references in which a transitive prerequisite is missing |
| Text.CharacterClasses | external/cpplint/cpplint.py:2541-2549 | white space and word characters by their codes |
| Brackets.OperatorIff | external/cpplint/cpplint.py:1539 | the test for a preceding operator keyword is the pattern of the source |
| Brackets.FindEndOfExpressionInLine | external/cpplint/cpplint.py:1513-1588 | the forward search in a line, for any starting stack |
| Brackets.CloseExpression | external/cpplint/cpplint.py:1591-1632 | the forward search over lines, with its result for a missing end and the text of the last line |
| Brackets.FindStartOfExpressionInLine | external/cpplint/cpplint.py:1635-1709 | the backward search in a line, for any starting stack |
| Brackets.ReverseCloseExpression | external/cpplint/cpplint.py:1712-1747 | the backward search over lines, likewise |
| Brackets.ForwardLineAgrees | external/cpplint/cpplint.py:1526-1588 | a search that began at a bracket ignores angle brackets and semicolons |
| Brackets.BackwardLineAgrees | external/cpplint/cpplint.py:1651-1709 | the same backward, the skipped characters included |
| Brackets.SkippedIsNeutral | external/cpplint/cpplint.py:1657-1672 | the character the backward search skips is never a bracket |
| Brackets.BalancedBack | external/cpplint/cpplint.py:1513-1709 | text is well-bracketed read forward if and only if it is read backward |
| Brackets.CloseIff | external/cpplint/cpplint.py:1591-1632 | the forward search finds a position if and only if it closes the bracket and the text between is well-bracketed |
| Brackets.ReverseCloseIff | external/cpplint/cpplint.py:1712-1747 | the backward search finds exactly the same pairs |
| Brackets.SearchesAgree | external/cpplint/cpplint.py:1513-1747 | forward search from an opening bracket ends at a closing one if and only if backward search from there ends at the opening one |
| Templates.ForwardPasses | external/cpplint/cpplint.py:1513-1588 | the forward search passes over any template arguments, and over any bracketed text with shifts, arrows, comparisons and semicolons, and has the same stack behind them |
| Templates.BackwardPasses | external/cpplint/cpplint.py:1635-1709 | the backward search likewise |
| Templates.AnglesMatch | external/cpplint/cpplint.py:1591-1632 | from either angle bracket around template arguments the search finds the other |
| Templates.ComparisonIsNotOpen | external/cpplint/cpplint.py:1614-1616 | no search starts at a shift or a comparison |
| Templates.OperatorPasses | external/cpplint/cpplint.py:1539-1570 | how each search passes over the angle bracket of an operator function |
| Templates.LastForwardIs | external/cpplint/cpplint.py:1623-1632 | the line reported last is the first at which the search does not go on, or the end |
| Templates.LastBackwardIs | external/cpplint/cpplint.py:1738-1747 | the same backward |
| Preprocessor.KindIff | external/cpplint/cpplint.py:2540-2559 | lines are classified exactly as the three patterns do |
| Preprocessor.NestingState.UpdatePreprocessor | external/cpplint/cpplint.py:2519-2573 | saves and restores the nesting stack by the kind of the line; unexpected directives change nothing |
| Preprocessor.NestingState.UpdateAll | external/cpplint/cpplint.py:2595-2600 | all lines of a file, with any further effect of a numbered line as a parameter |
| Preprocessor.OnlyKeptLinesCount | external/cpplint/cpplint.py:2529-2536 | from any state and for any lines, what remains is the effect of the lines outside later branches |
| Preprocessor.WellNested | external/cpplint/cpplint.py:2519-2573 | a well-nested file leaves the saved stacks as they were and has the effect of its first branches alone |
| Preprocessor.LaterBranchBegins | external/cpplint/cpplint.py:2538-2556 | every later branch, behind any others and at any depth, begins with the stack held before its #if |
| Preprocessor.StackAt | external/cpplint/cpplint.py:2519-2573 | at every place of a well-nested file the stack is the effect of exactly the lines on the path to it |
| Preprocessor.PlaceOf | external/cpplint/cpplint.py:2519-2573 | every prefix of a well-nested file ends at such a place |

## Left out

- Memory management behind the byte buffer (growth, small-buffer storage, replaceUninitialized); the buffer is a sequence that insertions and removals reassign.
- Pointer alignment: the outcome of the test is a parameter of Validation.ValidateArrayVariableSize, Validation.IsProtocolRangeValid, Actions.ValidateActions and Instructions.ValidateInstructions. Instructions.ValidateInstruction and FlowModV1.InsertMatchAndActions take it as passed, because the nested list stands at a multiple of 8 bytes from the start of the range.
- Sections.SectionReadsBack: leaves out the pointer alignment tests of the match and stat headers.
- Arithmetic of `size_t` beyond the 16- and 32-bit fields written out.
- Validation.IsProtocolRangeValid: covers 8-byte alignment with a size field; ranges with 4-byte alignment, fixed-size elements or conditional sizes are left out.
- The conversions between OXM matches and the original and standard match structures; their results are parameters of FlowMod and FlowModV1.
- Normalization of messages other than version 1 FlowMod, and of actions outside it, which uses the same routine.
- The error code tables; they are a parameter of Builders.ErrorBuilder.
- Other message classes, multipart chunking, version negotiation, prerequisite checking at run time.
- YAML and JSON, sockets, TLS, the engine, logging formats, address text: input and output.
- Channel.TraceMsg: requires that no header it meets has length zero, because the loop of the source does not end on one (Channel.StopsIff).
- Validation.ProtocolRangeSplitOffset: stated for well-formed lists; on others the source stops at the first element that does not fit.
- Instructions.OutputActions: stated for lists whose APPLY_ACTIONS instructions have room for their header, which validation guarantees.
- Controller.SimpleController.OnPacketIn: the messages that carry a decision to the switch are not built.
- Controller.Script.HandlePacketIn: likewise.
- Templates.AnglesMatch: stated for arguments within one line in which no operator function is named; elsewhere angle brackets are tentative in the source, and the two searches look for the word `operator` at different places (Templates.OperatorPasses).
- What the style checker's nesting state does with a line besides the directives: an arbitrary function of the stack and the numbered line.
- PrereqCompiler.CompiledInOrder: order is stated for tables that name only earlier fields and use no slash marker.
- ActionWrite.Write: stated for lists that pass validation, because on others the source's iterator can leave the list.
- ActionWrite.WriteItem: likewise.
- ActionWrite.WriteSize: likewise.
- FlowMod.FlowModBuilder.SendOriginal: likewise, for the instructions of the builder.
- FlowMod.FlowModBuilder.MeasureOriginal: likewise.
- FlowMod.FlowModBuilder.Send: likewise, on version 1.
- FlowModRun.SendOne: likewise, on version 1.
- FlowModRun.SendRun: likewise, for runs that contain version 1.
- FlowModV1.SendAndReceive: likewise.
- Oxm.Get: stated for validated ranges, for the same reason.
- The style checker's removal of comments and strings and its regular-expression rules.
