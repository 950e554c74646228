# GrindJVM class-file decoder in Dafny

This project models the class-file decoder of GrindJVM, a Java virtual machine written in Go. The decoder turns the bytes of a `.class` file into a `ClassFile` record, following chapter 4 of The Java Virtual Machine Specification. It reads:

- the header: magic, minor and major version;
- the constant pool: seven supported constant kinds, with every other tag rejected;
- the access flags, this class and super class;
- the interface, field and method lists;
- the closing attribute list. Attributes are dispatched by name through a registry that holds `ConstantValue` and `Code`. Every other attribute is kept verbatim. `Code` holds its own nested attribute list.

It also models the frame-type classification of section 4.7.4 (StackMapTable).

The model has two views of every decoding step.

- **Specification view.** Pure functions over the byte sequence and a position, returning `Parsed<T>` (the value and the position after it, or a `DecodeError`): `ParseConstant`, `ParsePool`, `ParseAttribute`, `ParseCode`, `ParseMethod`, `ParseClassFile` and others.
- **Imperative view.** Methods over a `Reader` class (the opened file: its bytes and a read position). They mirror the Go functions loop for loop. Each is proved to end with the result and position that its specification function describes (`Mirrors`). Lists are preallocated arrays filled slot by slot in stream order, as in the source.

The lemmas state what the decoder promises on top of these functions:

- encode/decode round trips for u2, u4 and pool constants, and every decoded constant is the canonical encoding of the bytes it consumed;
- tag dispatch: which tags are supported;
- pool, list and attribute layout: counts, stream order, and stopping at the first failure;
- unknown attributes are kept verbatim;
- methods cache their Utf8 name, descriptor and first Code attribute;
- truncation: cutting the input never yields a shorter, successful decode.

Modules: `Types` (types.go), `Constants` (constants.go), `Lists` (the count-prefixed list loops shared by classfile.go and attributes.go), `Attributes` (attributes.go) and `ClassFiles` (classfile.go).

Reading from the file follows read(2) on a regular file. The reader returns as many bytes as remain, up to the buffer's length. It reports end of file only when a non-empty buffer finds nothing left. Hence `ReadU1`, `ReadU2` and `ReadU4` fail exactly when too few bytes remain; on failure they return 0 and leave the file drained.

## Model

| member | source | states |
|---|---|---|
| Types.ReadU1 | types.go:19-30 | Fails (ShortRead, value 0, file drained) iff no byte remains; otherwise returns the next byte and advances by one |
| Types.ReadU2 | types.go:32-44 | Fails (ShortRead, value 0, file drained) iff fewer than two bytes remain; otherwise returns b0*256 + b1 and advances by two |
| Types.ReadU4 | types.go:46-58 | Fails (ShortRead, value 0, file drained) iff fewer than four bytes remain; otherwise returns b0*2^24 + b1*2^16 + b2*2^8 + b3 and advances by four |
| Types.ParseU1 | types.go:19-30 | One byte decodes iff a byte remains at the position, giving that byte and the next position; otherwise ShortRead |
| Types.ParseU2 | types.go:32-44 | A u2 decodes iff two bytes remain, giving b0*256 + b1 and the position two on; otherwise ShortRead |
| Types.ParseU4 | types.go:46-58 | A u4 decodes iff four bytes remain, giving b0*2^24 + b1*2^16 + b2*2^8 + b3 and the position four on; otherwise ShortRead |
| Types.ParseBytes | classfile.go:122-123 | A run of n bytes decodes iff n bytes remain, giving exactly those bytes in order and the position n on; otherwise ShortRead |
| Types.Reader.Read | types.go:21 | A read(2) on the file: copies min(buffer length, bytes left) bytes from the position, advances past them, leaves the rest of the buffer alone, and reports end of file iff a non-empty buffer finds nothing left |
| Types.ReadRun | classfile.go:122-123 | A raw run of n bytes yields exactly the next n bytes and advances by n, or fails with ShortRead when fewer remain |
| Types.U2RoundTrip | types.go:42 | Reading two bytes written big-endian for n < 2^16 gives back n and consumes both |
| Types.U2Canonical | types.go:42 | Every decoded u2 re-encodes to exactly the two bytes it was read from |
| Types.U4RoundTrip | types.go:56 | Reading four bytes written big-endian for n < 2^32 gives back n and consumes all four |
| Types.U4Canonical | types.go:56 | Every decoded u4 re-encodes to exactly the four bytes it was read from |
| Types.TextRoundTrip | classfile.go:125 | Converting bytes to a string is lossless: each character is a byte value, and encoding the text gives back the bytes |
| Types.PrimitivesTruncated | types.go:19-58 | Cutting the input leaves a u1, u2, u4 or raw-run read that fits before the cut unchanged, and turns one that does not into ShortRead |
| Constants.KnownTagsDistinct | constants.go:3-21 | The seventeen tag constants are pairwise distinct |
| Constants.PoolConstant.Tag | constants.go:33-105 | Each of the seven pool-constant kinds has one of the seven supported tags |
| Constants.TagDeterminesKind | constants.go:33-105 | Two pool constants with the same Tag() are of the same kind |
| Constants.Utf8Text | classfile.go:162-163 | A name lookup succeeds iff the index is inside the pool and holds a Utf8 constant, and then returns its text; otherwise it is InvalidReference(index) |
| Lists.Repeat | classfile.go:44-50 | A list decoded by count holds exactly that many elements and never ends before it started |
| Lists.ParseCounted | classfile.go:43-50 | A u2 count followed by the elements: the list's length is the declared count, and it ends at least two bytes on |
| Lists.RepeatStep | classfile.go:45-49 | One loop step: a failing element makes the whole list fail with its error; otherwise the stored prefix grows by that element |
| Lists.RepeatEnds | classfile.go:44-50 | The fill loop starts with nothing stored and, after count steps, holds the whole list at the position where it ends |
| Lists.RepeatSplit | classfile.go:45-49 | Decoding n + m elements is decoding n, then m more from where they ended |
| Lists.RepeatStopsAtFirstFailure | classfile.go:45-49 | If the first k elements decode and element k fails, the list fails with that element's error |
| Lists.RepeatInOrder | classfile.go:45-49 | Element i of a decoded list is the one decoded right after the first i, so the list is in stream order |
| Lists.RepeatTruncated | classfile.go:45-49 | A list whose element decoders respect a cut of the input respects it too: unchanged before the cut, ShortRead past it |
| Lists.RepeatTruncatedFails | classfile.go:32-36 | The same with the weaker per-element guarantee: unchanged before the cut, some failure past it |
| Lists.CountedTruncated | classfile.go:43-50 | A count-prefixed list respects a cut of the input: unchanged before it, ShortRead past it |
| Attributes.ParseConstantValue | attributes.go:76-80 | A ConstantValue body decodes iff a u2 does, giving ConstantValue of that index, named "ConstantValue", two bytes on |
| Attributes.ParseCodeArray | attributes.go:105-107 | The code array decodes iff its u4 length and that many bytes after it remain; it is exactly those bytes and ends right after them |
| Attributes.ParseAttribute | attributes.go:34-53 | One attribute record ends at least six bytes (its header) after it starts and within the input |
| Attributes.ParseCode | attributes.go:101-135 | A Code body ends at least twelve bytes after it starts and within the input |
| Attributes.ParseAttributeList | attributes.go:25-30 | A list of n attribute records holds exactly n records |
| Attributes.ParseAttributes | attributes.go:22-32 | The attribute list's length is its declared u2 count |
| Attributes.AttributeEntries | attributes.go:34-53 | The attribute record read at each position, as a list element decoder that never moves backwards |
| Attributes.AttributeListIsRepeat | attributes.go:25-30 | A run of n attribute records is the generic count-driven list over AttributeEntries |
| Attributes.AttributesInOrder | attributes.go:25-30 | Record i of a decoded attribute list is the one decoded right after the first i records, so the list is in stream order |
| Attributes.AttributesStopAtFirstFailure | attributes.go:25-30 | If the first k records decode and record k fails, the whole list fails with that record's error |
| Attributes.ParseExceptionEntry | attributes.go:90-95 | An exception-table entry, when it decodes, occupies exactly eight bytes |
| Attributes.AttributeListStep | attributes.go:25-30 | One step of the attribute loop: a failing record makes the list fail with its error; otherwise the stored prefix grows and the position advances |
| Attributes.AttributeListEnds | attributes.go:24-31 | The attribute loop starts with nothing stored and, after count steps, holds the whole list |
| Attributes.ReadAttributes | attributes.go:22-32 | Reads the u2 count and that many records into a slice of that length, in stream order, stopping at the first failing record; result and position are those of ParseAttributes |
| Attributes.ReadAttribute | attributes.go:34-53 | Reads the name index and length, resolves the name, and keeps an unregistered attribute verbatim or hands a registered one to its reader; result and position are those of ParseAttribute |
| Attributes.ReadConstantValueAttribute | attributes.go:76-80 | Reads one u2 constant-value index, as ParseConstantValue says |
| Attributes.ReadExceptionTableEntry | attributes.go:112 | Reads the four u2 fields of an exception-table entry in declaration order, as ParseExceptionEntry says |
| Attributes.ReadExceptionTable | attributes.go:110-117 | Reads the u2 table length and that many entries into a slice of that length, stopping at the first failure |
| Attributes.ReadCodeAttribute | attributes.go:101-135 | Reads max_stack, max_locals, code_length, the code bytes, the exception table and the nested attribute list, in that order; result and position are those of ParseCode |
| Attributes.RegistryContents | attributes.go:11-16 | The registry holds exactly "ConstantValue" and "Code"; "StackMapTable" is not registered |
| Attributes.UnknownAttributeVerbatim | attributes.go:39-48 | An unregistered attribute is Unknown(name, data), with data exactly the next `length` bytes, and decoding advances by 6 + length; with fewer bytes left, ShortRead |
| Attributes.RegisteredDispatch | attributes.go:38-52 | An attribute whose name has a reader is exactly what that reader (ParseConstantValue or ParseCode) decodes from the bytes after its six-byte header |
| Attributes.AttributeNamePreserved | attributes.go:38-51 | With the default registry, a decoded attribute's Name() is the Utf8 text at its header's name index |
| Attributes.CodeLayout | attributes.go:101-125 | A decoded Code attribute is max_stack, max_locals, code_length, the code bytes verbatim, the exception table with its declared count, then a nested attribute list read by the same dispatch, ending where the Code body ends |
| Attributes.ExceptionEntryTruncated | attributes.go:110-117 | Cutting the input leaves an exception-table entry before the cut unchanged and makes one across it a ShortRead |
| Attributes.AttributeTruncated | attributes.go:34-53 | Cutting the input leaves an attribute that ends before the cut unchanged and makes one that reaches past it a ShortRead |
| Attributes.CodeArrayTruncated | attributes.go:105-107 | The same for the code array of a Code attribute |
| Attributes.CodeTruncated | attributes.go:101-135 | The same for a whole Code body, nested attributes included |
| Attributes.AttributesTruncated | attributes.go:22-32 | The same for a count-prefixed attribute list |
| Attributes.AttributeListTruncated | attributes.go:25-30 | The same for a run of n attribute records |
| Attributes.ConstantValueAsWrittenPanics | attributes.go:76-80 | As written, the ConstantValue reader panics on exactly the inputs where the intended u2 read succeeds, and agrees with it where it fails |
| Attributes.ExceptionEntryAsWrittenPanics | attributes.go:110-115 | As written, the exception-table entry read panics on exactly the inputs where the intended four-field read succeeds, and agrees with it elsewhere |
| Attributes.ConstantValueCounterexample | attributes.go:76-80 | On the bytes 00 05 the reader as written panics, where the intended reader returns ConstantValue(5) |
| Attributes.ExceptionEntryCounterexample | attributes.go:112 | On the entry bytes 00 00 00 04 00 04 00 00 the read as written panics, where the intended read returns the entry (0, 4, 4, 0) |
| Attributes.ConstantValueIntended | attributes.go:68-80 | The intended ConstantValue read decodes iff two bytes remain, giving their big-endian u2 as the index; otherwise ShortRead |
| Attributes.ExceptionEntryIntended | attributes.go:90-95 | The intended entry read decodes iff eight bytes remain, giving start_pc, end_pc, handler_pc and catch_type as big-endian u2 in declaration order; otherwise ShortRead |
| Attributes.U4AsWritten | attributes.go:36 | The length read as written: where four bytes remain, the u4 and the position after it; otherwise 0 with the file drained |
| Attributes.RawReadAsWritten | attributes.go:42-43 | A raw read whose byte count is ignored fails iff it asks for bytes with none left; otherwise it gives n bytes, consumes min(n, bytes left), and its buffer starts with exactly the bytes consumed and is zero after them |
| Attributes.ReflectiveRead | attributes.go:78 | A reflective read into unexported fields panics iff its bytes are all there; otherwise it returns ShortRead |
| Attributes.ConstantValueAsWritten | attributes.go:76-80 | The ConstantValue reader as written panics iff two bytes remain; otherwise it returns ShortRead |
| Attributes.ExceptionEntryAsWritten | attributes.go:112 | One exception-table entry read as written panics iff eight bytes remain; otherwise it returns ShortRead |
| Attributes.AttributeAsWritten | attributes.go:34-53 | The record as written, when it returns a record, ends at least two bytes on and within the input |
| Attributes.AttributeListAsWritten | attributes.go:25-30 | n records read as written, when they return a list, give exactly n records, ending no earlier than they started and, for n > 0, within the input |
| Attributes.AttributesAsWritten | attributes.go:22-32 | The attribute list as written, when it returns a list, holds as many records as its u2 count and ends within the input, at least two bytes on |
| Attributes.AttributeAsWrittenAgrees | attributes.go:34-53 | Wherever the intended record read succeeds with anything but a ConstantValue, the read as written returns the same record and position |
| Attributes.UnknownAttributeCutCounterexample | attributes.go:39-48 | Record "Foo" declaring four bytes with only AA BB left: as written it gives Unknown("Foo", AA BB 00 00) and no error; cut inside its length it gives Unknown("Foo", empty) and no error; the intended read gives ShortRead in both |
| Attributes.FrameKindOf | attributes.go:191-200 | Frame types 0-63 are same_frame, 64-127 same_locals_1_stack_item, 128-246 reserved, 247 same_locals_1_stack_item_extended, 248-250 chop, 251 same_frame_extended, 252-254 append and 255 full_frame, each iff in its range |
| ClassFiles.ParseConstant | classfile.go:81-150 | A decoded constant's Tag() is the tag byte read, and it ends within the input at least three bytes on; the result is UnsupportedConstant(tag) iff the tag is not one of the seven supported; any other failure is ShortRead |
| ClassFiles.ParsePool | classfile.go:30-37 | The pool's length is its declared count, slot 0 stays empty, and it ends at least two bytes on |
| ClassFiles.EncodeConstant | constants.go:29-105 | The bytes written for a constant start with its tag |
| ClassFiles.TagAt | classfile.go:82 | The tag is the next byte when one remains; a tag read that finds nothing gives 0 |
| ClassFiles.MissingTagUnsupported | classfile.go:81-83 | A pool entry with no byte left reads as tag 0 and fails as unsupported constant type 0 |
| ClassFiles.ParseField | classfile.go:173-176 | A field decodes iff the shared prefix does, and is exactly that prefix, ending where it ends |
| ClassFiles.ParseMethod | classfile.go:160-171 | A method decodes only where the shared prefix does, and ends where the prefix ends; MethodInfoResolved and MemberPrefixShared state the rest |
| ClassFiles.MemberHeaderLayout | classfile.go:152-158 | The shared prefix is the access flags, name index and descriptor index, u2 each in that order from its start, then the attribute list from six bytes on, ending where the prefix ends |
| ClassFiles.ParseMemberHeader | classfile.go:152-158 | A field or method prefix ends at least eight bytes on and within the input |
| ClassFiles.FirstCode | classfile.go:164-169 | No Code attribute gives nil; otherwise the result is the body of a Code attribute with no Code attribute before it |
| ClassFiles.ParseClassFile | classfile.go:24-79 | A decoded class file ends at least 24 bytes on and within the input |
| ClassFiles.ParseClassBody | classfile.go:39-77 | The part after the pool ends at least fourteen bytes on |
| ClassFiles.ReadConstant | classfile.go:81-150 | Reads the tag and dispatches on it, ignoring the tag read's own error, with the result and position ParseConstant gives |
| ClassFiles.ReadPool | classfile.go:30-37 | Reads the pool count and allocates the pool; result and position are those of ParsePool |
| ClassFiles.FillPool | classfile.go:32-37 | Fills slots 1 to count - 1 in stream order and leaves slot 0 alone, stopping at the first failing entry; the slots filled are those ParsePool describes |
| ClassFiles.ReadInterfaces | classfile.go:43-50 | Reads the interface count and that many u2 indices, in order |
| ClassFiles.ReadMemberHeader | classfile.go:152-158 | Reads access flags, name index, descriptor index and the attribute list, as ParseMemberHeader says |
| ClassFiles.ReadFieldInfo | classfile.go:173-176 | A field is exactly the shared prefix |
| ClassFiles.FirstCodeOf | classfile.go:164-169 | The loop with break returns the first Code attribute's body, or nil: the value FirstCode specifies |
| ClassFiles.ReadMethodInfo | classfile.go:160-171 | Reads the prefix, resolves the name and descriptor, and picks the first Code attribute, as ParseMethod says |
| ClassFiles.ReadFields | classfile.go:52-59 | Reads the field count and that many fields into a slice of that length, in order, stopping at the first failure |
| ClassFiles.ReadMethods | classfile.go:61-68 | Reads the method count and that many methods into a slice of that length, in order, stopping at the first failure |
| ClassFiles.ReadClassFile | classfile.go:24-79 | Reads header, pool, flags, this and super class, interfaces, fields, methods and attributes in file order, stopping at the first failure; result and position are those of ParseClassFile |
| ClassFiles.IndexPairRoundTrip | constants.go:37-62 | Two u2 indices written one after the other read back in declaration order |
| ClassFiles.OneIndexRoundTrip | classfile.go:84-102 | A Class or String constant reads back from its three bytes |
| ClassFiles.TwoIndexRoundTrip | classfile.go:88-118 | A Fieldref, Methodref, InterfaceMethodref or NameAndType constant reads back from its five bytes, fields in declaration order |
| ClassFiles.Utf8RoundTrip | classfile.go:120-126 | A Utf8 constant reads back from its u2 length and exactly that many text bytes |
| ClassFiles.ConstantRoundTrip | classfile.go:81-150 | Reading back the bytes written for any supported constant yields that constant and consumes exactly those bytes |
| ClassFiles.ConstantCanonical | classfile.go:81-150 | Every decoded constant is encodable, and its encoding is exactly the bytes the decode consumed |
| ClassFiles.SupportedTagsExactly | classfile.go:83-147 | Tags 1, 7, 8, 9, 10, 11 and 12 are supported; of the known tags, exactly 3-6 and 15-20 are unsupported |
| ClassFiles.PoolInOrder | classfile.go:32-37 | Slot i of a decoded pool holds the constant decoded right after the entries of slots 1 to i - 1 |
| ClassFiles.PoolStopsAtFirstFailure | classfile.go:32-36 | If the entries of slots 1 to k decode and the next fails, the whole pool fails with that entry's error |
| ClassFiles.MemberPrefixShared | classfile.go:152-176 | A method decodes iff the field with the same bytes does and its name and descriptor resolve to Utf8; the two then agree on the prefix and on where they end |
| ClassFiles.MethodInfoResolved | classfile.go:160-171 | A decoded method's name and descriptor are the Utf8 texts at its indices; its code is the first Code attribute in its list, or nil if there is none |
| ClassFiles.ClassFileHeader | classfile.go:24-79 | Magic, minor and major version are the first eight bytes, big-endian; the pool decoded after them is the class's pool; the body decoded after the pool supplies the class's flags, this and super class, interfaces, fields, methods and attributes, and the class ends where it ends |
| ClassFiles.ClassBodyLayout | classfile.go:39-77 | The body is access flags, this class and super class, then the interfaces, fields, methods and closing attributes in that order, each list being the one decoded where the previous ends and holding as many entries as its declared u2 count |
| ClassFiles.ConstantTruncated | classfile.go:81-150 | Cutting the input leaves a constant that ends before the cut unchanged and makes one that reaches past it fail |
| ClassFiles.PoolTruncated | classfile.go:30-37 | Cutting the input leaves a pool that ends before the cut unchanged and makes one that reaches past it fail |
| ClassFiles.MemberHeaderTruncated | classfile.go:152-158 | Cutting the input leaves a field or method prefix before the cut unchanged and turns one across it into ShortRead |
| ClassFiles.MembersTruncated | classfile.go:52-68 | The same for the field and method lists |
| ClassFiles.ClassBodyTruncated | classfile.go:39-77 | The same for everything after the pool |
| ClassFiles.ParseClassUpToAttributes | classfile.go:24-68 | Everything before the closing attribute list, read as the class file reads it: a class with no attributes yet, at least 22 bytes on |
| ClassFiles.ClassFileAsWritten | classfile.go:24-79 | The class file with its closing attribute list read as written: when it returns a class, everything before that list decoded, and the class ends at least 24 bytes on and within the input |
| ClassFiles.ClassFileThroughFront | classfile.go:24-79 | Once everything up to the closing attribute list is read, the intended decoder and the decoder as written differ only in how they read that list |
| ClassFiles.ClassFileCutCounterexample | classfile.go:70-77 | A 40-byte class whose last attribute "Foo" holds AA BB CC DD decodes; cut after 38 bytes the intended decoder reports ShortRead, while as written it returns a different class, with data AA BB 00 00, and no error |
| ClassFiles.ClassFileTruncated | classfile.go:24-79 | A class file cut after any byte decodes as before if it ended before the cut, and fails if it needed bytes past it: a truncated file never decodes as a shorter class |

## Left out

- jvm.go (opening `HelloWorld.class` and printing the result) and class.go (runtime class blocks and commented-out loader stubs): I/O and presentation with no decoding behaviour. The bytes of the file are the Reader's `data`.
- The `String()` methods and the roughly twenty-five attribute structs that only have a `Name()` method (attributes.go:207-370). Nothing decodes those attributes. `BootstrapMethodsAttribute.Name` returning "StackMapTable" (attributes.go:218) is left out with them.
- The StackMapTable payload (attributes.go:186-205): the reader is not registered, reads a u1 entry count where section 4.7.4 has u2, and reads no frame fields. Only the frame-type classification is modelled (`FrameKindOf`).
- The registry is a value (`Registry`, with `AttributeReaders` as the default) passed to the decoders, instead of the global map that `init` fills (attributes.go:11-16).
- `readAttribute`, called at attributes.go:121 and classfile.go:73 but never defined, is taken to be `ReadAttribute` (attributes.go:34). The class file's closing attribute list (classfile.go:70-77) is read by `ReadAttributes`, whose loop is the same.
- Errors overwritten between reads (for example classfile.go:26-28, attributes.go:35-36, attributes.go:102-109): the model stops at the first failing read. A failing read drains the file, so every later u1, u2 or u4 read fails too. Where the source's last read is one of those, its final verdict (decoded or failed) is the model's, and what differs is the partially filled `ClassFile` returned with an error, and sometimes which error is reported, or a panic in place of the error. The exception is a closing unregistered attribute cut short: its last read is a raw read whose error decides alone (see Findings, `ClassFiles.ClassFileAsWritten`).
- ClassFiles.ReadConstant: the Utf8 length error, which the source discards (classfile.go:121), is a ShortRead in the model. The source goes on with an empty text and fails at a later read.
- Types.ReadRun: the byte count of raw reads, which the source ignores (attributes.go:43, attributes.go:107, classfile.go:123), is checked. A run that finds too few bytes fails with ShortRead instead of keeping a zero-padded buffer.
- Type-assertion panics on `pool[i].(*UTF8Constant)` (attributes.go:38, classfile.go:162-163) are `InvalidReference(i)` failures. This includes an attribute header cut inside its name index: there the source looks up slot 0 and panics, while the model reports ShortRead. A header cut inside its length is the unknown-attribute case under Findings. Likewise `readMethodInfo` looks up the name and descriptor even when reading the prefix failed (classfile.go:161-163): a method cut inside its name or descriptor index looks up slot 0 and panics, while the model reports ShortRead.
- ReadConstant reads the Fieldref, Methodref, InterfaceMethodref and NameAndType layouts in one branch, since their two u2 fields share a layout; it then builds the kind the tag names.
- The Go functions' loops are split into helper methods where the proofs need smaller pieces: `FillPool`, `ReadInterfaces`, `ReadFields`, `ReadMethods`, `ReadExceptionTable`, and `ParseClassBody` for the specification. `ReadPool` returns straight away on a count of 0, where the source's loop runs no iteration.
- Long and Double constants taking two pool slots: the source rejects those tags, so the rule does not arise.
- The declared attribute length is not checked against what the ConstantValue and Code readers consume (attributes.go:36, attributes.go:51), as in the source.
- ClassFiles.ConstantTruncated, ClassFiles.PoolTruncated and ClassFiles.ClassFileTruncated state only that a decode reaching past a cut fails, not that it fails with ShortRead. A cut just before a pool entry makes the tag read find nothing, and the tag then reads as 0, so the source reports unsupported constant type 0.
- Attributes.ParseAttribute and ClassFiles.ClassFileTruncated model the evidently intended read of an unregistered attribute. As written, a closing unregistered attribute cut short decodes with zero padding and no error, so the source lacks the truncation property (see Findings).
- Attributes.AttributeAsWritten reads a Code body with ParseCode, not as written: a Code attribute closing the file whose own last nested attribute is an unregistered one cut short is not modelled as written.
- Attributes.ReadConstantValueAttribute and Attributes.ReadExceptionTableEntry model the evidently intended reads, not the panics listed under Findings.

## Findings

| source | as written | input that shows it | evidently intended | confidence | as-written member | corrected member |
|---|---|---|---|---|---|---|
| attributes.go:68-80 | `binary.Read` into `ConstantValueAttribute`, whose only field `constantValueIndex` is unexported. The reflective decoder fetches the two bytes, then panics when it sets the unexported field. | A field with a ConstantValue attribute whose body is `00 05` | Read the u2 constant-value index big-endian and return `ConstantValue(5)` | not executed | Attributes.ConstantValueAsWritten, Attributes.ConstantValueAsWrittenPanics, Attributes.ConstantValueCounterexample | Attributes.ParseConstantValue, Attributes.ConstantValueIntended, Attributes.ReadConstantValueAttribute |
| attributes.go:90-95, 110-115 | `binary.Read` into `ExceptionTableEntry`, whose four fields are unexported. Every Code attribute with a non-empty exception table panics after fetching the first entry's eight bytes. | A Code attribute whose exception table has one entry `00 00 00 04 00 04 00 00` | Read the four u2 fields in declaration order, giving the entry (0, 4, 4, 0) | not executed | Attributes.ExceptionEntryAsWritten, Attributes.ExceptionEntryAsWrittenPanics, Attributes.ExceptionEntryCounterexample | Attributes.ParseExceptionEntry, Attributes.ExceptionEntryIntended, Attributes.ReadExceptionTableEntry |
| attributes.go:41-48, classfile.go:70-77 | An unregistered attribute is read with a raw `r.Read(data)` whose byte count is ignored and whose error replaces the earlier ones. A read that finds fewer bytes than asked returns them with no error, leaving zeros in the buffer; one with an empty buffer returns no error at all. When that attribute is the last thing in the file, a truncated file decodes. | The class file of `ClassFiles.FooClass` (pool entry 1 is the Utf8 text "Foo"; one closing attribute "Foo" of length 4 holding AA BB CC DD) cut after 38 bytes | Report ShortRead for a file cut inside its last attribute | not executed | Attributes.AttributeAsWritten, Attributes.AttributesAsWritten, Attributes.UnknownAttributeCutCounterexample, ClassFiles.ClassFileAsWritten, ClassFiles.ClassFileCutCounterexample | Attributes.ParseAttribute, Attributes.UnknownAttributeVerbatim, Attributes.AttributeAsWrittenAgrees, ClassFiles.ClassFileTruncated |
