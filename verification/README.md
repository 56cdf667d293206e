# Verified models of vnx-base

vnx-base moves typed values between processes: over sockets, into recording files, and between the
threads of one program. This project states what its core promises and proves it for all inputs, all
runs and all interleavings.

`dafny verify dfyconfig.toml` checks the whole project.

## What is modelled

**The self-describing wire format.** A type is a flat sequence of 16-bit cells that refer to each
other by position. `ByteCode` models the validation of such codes, `Schemas` the trees they stand for,
`Wire` values and their bytes. `CopySpec` says what copying a value means on any bytes, `CopyLaws`
that it is right on encodings and that encodings are unambiguous, `MachineSizes` what 64-bit sizes do to
that, and `Streams` has the copying loops over a cursor and proves that they do what `CopySpec` says. The
fast paths that move a block of bytes are proved to equal the loops. `WireFormat` states the format byte
by byte, and `CodeLaws` what validation accepts, with the numbers of codes and limits written out.

**Versions of a type.** `Types` and `TypeCodes` lay out and link fields, `MemoryLayouts` says when a block
of bytes may be taken for native structs, `Evolution` has the generated `read` and `write` of a class
(`Frame` stands for all of them), `Conversions` the conversion of integers, and `Compatibility` puts them
together: what is written under one version of a type reaches a program with another version, field by
field and number by number.

**Order and hashes.** `Ordering` is the order of values, `CompareSpec`, `CompareLaws` and
`CompareStreams` relate `compare` to it, and `CompareDynamics` goes on to dynamic and optional values and
to the objects they make up. `Variants` and `Objects` carry this over to the operators of `Variant`, and
`HashSpec` and `HashStreams` show when equal Variants feed a hash the same bytes. `TypeStream` is about
type codes on a stream: whatever is named has been sent before.

**Recordings.** `Recordings` is the file format, `Writer` and `Reader` the two classes, `Replay` the
round trip, `Merge` the reader over several files and `MergedReplay` all of them together. A file is a
map from positions to items, each with the bytes it takes; `Writer` patches index blocks and the header in place, and `IndexBlocks` derives the
bytes of an index block from the wire format.

**Message passing.** `Resend` is the compression of repeated samples over a link, `Pipes` and `PipeRuns`
the bounded queues with their wake-up tokens, `RequestQueues` and `ThreadPools` the two schedulers.
Each critical section is one step, so an invariant that every step keeps holds in every interleaving.

**SHA-256 and JSON.** `Sha256` is proved against the definition of FIPS 180-4 in `Sha256Spec`, and
`Sha256Example` derives the digest of "abc" from that definition. `Json` and `JsonStream` parse, `JsonLaws`
proves that parsing undoes printing, and `JsonLayout` that white space between tokens makes no difference.

## Where the code falls short of the claim

Each of these is a proved statement with the exact condition or a concrete input.

- `CompareLaws.IntegersCompareAsNumbers`, `Variants.IntegerVariantsCompare`: unsigned numbers from 2^63
  on are taken as negative when they are compared with signed ones.
- `Objects.OptionalsCompare`, `Objects.NumberAgainstOther`: a number comes before null and null before a
  number, so `compare` is no order where both meet, in an optional number for example.
- `WireFormat.ArrayField`: 16 bits are kept of the size of a field, so an array of 8193 doubles gets 8 bytes.
- `MemoryLayouts.EquivalentWithPadding`, `MemoryLayouts.SafeExactlyIfUnpadded`: types can be called
  memory equivalent to a struct with padding although a field is elsewhere.
- `HashSpec.LargestAndMinusOne`, `HashSpec.EqualIntegersHashEqually`: integer Variants that are equal
  because one wraps around to the other feed a hash different bytes if the negative one is stored short.
- `Conversions.AlikeIsCast`: a boolean that is neither 0 nor 1 is read as its byte where arrays are taken
  as a block, and as 1 where they are converted.
- `Reader.RecordReader.ReadPrev`, `Replay.PreviousIsNext`: the stream is not moved to the sample before it
  is read, so the sample after the old position comes back, or an exception at the border of a block.
- `Merge.ChooseFails`, `Merge.ReadThrough`: a merge ends early exactly if a sample has a negative time. Only
  files that `RecordWriter` did not make have one, as `MergedReplay.RecordedInOrder` shows.
- `Resend.SafeExactlyIfInjective`, `Resend.SafeExactlyIfProper`, `Resend.LiftedDenial`: what re-sending
  needs of topic mappings, sequence numbers and permissions.
- `RequestQueues.GetStuck`, `RequestQueues.StuckExactly`, `RequestQueues.RequestQueue.HandleWhenStuck`: a
  return for a request that is still in the queue blocks the queue once that request is active, until it is
  cleared.
- `Sha256.ShortPaddingIsPadding`, `Sha256.Sha256State.Update`: the 32-bit length word is right below 2^29
  bytes and nowhere else, and a piece that makes the 32-bit sum wrap around is lost.
- `JsonLaws.NameComesBack`, `JsonLaws.NameIsReadExactly`: names with a quote or a backslash do not come back.

The documentation promises that fields of any integral type can be changed into each other and that
no error can occur on reading. The code throws when the nesting exceeds its recursion limit, so the
statements about `copy`, reading and compatibility have that limit as the only way to fail.

## Model

| member | source | states |
|---|---|---|
| `ByteCode.Fetch` | src/Type.cpp:69-183 | one instruction of `validate_code`: its own cells lie inside the code and every code it refers to starts strictly later, which is why the check terminates |
| `ByteCode.ValidateDecides` | src/Type.cpp:69-183 | `validate_code` accepts exactly the codes of which every cell an interpreter looks at exists and whose nesting fits the recursion limit; it returns the last cell, and the limit is the only reason to refuse a well formed code |
| `Schemas.DecodeFlatten` | src/Type.cpp:69-183 | an in-order layout of a schema tree, wherever it stands in a longer code, is well formed, decodes to that tree, is as deep as the tree and ends at its last cell |
| `Schemas.CheckFlatten` | src/Type.cpp:69-183 | for an in-order layout `validate_code` returns exactly the last cell, or reports the recursion limit exactly if the tree is too deep |
| `Schemas.DecodeIsSound` | src/Type.cpp:521-536 | in every decodable code a struct marked equivalent has no extended fields, at any level: the condition under which the bulk branches are right |
| `Schemas.DecodeIgnoresTypes` | src/Input.cpp:440-449 | a code that is valid without type information means the same under any, so dynamic values may be copied with the type code of whatever contains them |
| `CodeLaws.ValidateFlipped` | src/Type.cpp:69-183 | validation says the same of a code whose cells have their bytes swapped, for every code: the byte order of the machine that wrote it makes no difference |
| `CodeLaws.ReadSwappedCode` | src/Input.cpp:671-686 | a code that a machine of the other byte order wrote is read by `read_byte_code` exactly if it is valid, and is passed on with its size in this byte order |
| `CodeLaws.SingleCells` | src/Type.cpp:69-183 | which cells are a code by themselves, by their numbers, in either byte order |
| `CodeLaws.NestedLists` | src/Type.cpp:69-75 | 99 levels of lists around a number are accepted and 100 are not; 31 are the most for a dynamic value, whose code has at most 32 cells |
| `CodeLaws.CutShort` | src/Type.cpp:69-183 | an in-order layout from which anything at the end is missing is refused |
| `CodeLaws.CodeGoesOn` | src/Type.cpp:69-183 | cells behind a well formed code change nothing about it |
| `CodeLaws.BehindOwnCells` | src/Type.cpp:84-183 | where the codes an instruction refers to start, in either byte order: behind its own offsets, counts and dimensions, so that no cell is read twice |
| `Wire.ValueSizeIsFixedSize` | src/Type.cpp:26-67 | `get_value_size` reads off the flat code what the schema tree says, nested tuples and equivalent structs included; `WireFormat.NumberIsDecoded` has the sizes of numbers as they are |
| `Wire.EncodingOfFixedSize` | src/Type.cpp:26-67 | if `get_value_size` is k > 0 then every value of the code is encoded in exactly k bytes |
| `MachineSizes.MachineSizeIsSize` | src/Type.cpp:26-67 | with 64-bit sizes, the wrapped products and sums of `get_value_size` are right if and only if the size itself is below 2^64 |
| `MachineSizes.EncodingOfMachineSize` | src/Type.cpp:26-67 | every value with less than 2^64 bytes takes exactly as many bytes as the wrapped size says, if that is not 0 |
| `WireFormat.NumberIsDecoded` | src/Type.cpp:26-42 | the code of every number is valid, stands for that number and has its size: 1 byte for booleans and single bytes in either byte order, 2, 4 or 8 for integers, 4 for floats and 8 for doubles |
| `WireFormat.OnlyNumbersHaveSizes` | src/Type.cpp:26-67 | no other single cell has a size |
| `WireFormat.NumberOnTheWire` | src/Input.cpp:300-347 | with these sizes written out: every sequence of that many bytes is a value of the number and nothing else is, `copy` emits all of them and leaves the rest, and throws if there are fewer |
| `WireFormat.IntegerOnTheWire` | include/vnx/Input.h:109-119 | the same for the bytes of an integer n: byte k is n / 256^k modulo 256 |
| `WireFormat.NumbersOnTheWire` | src/Type.cpp:26-67 | arrays of n such numbers take n times their size, lists 4 bytes more than their elements |
| `WireFormat.ArrayField` | src/Type.cpp:379-393 | a field of n doubles whose size was not sent: 16 bits of its size are kept, and it is refused exactly if n is a multiple of 8192 |
| `WireFormat.HeadsOnTheWire` | src/Input.cpp:348-559 | sizes and counts are 32-bit integers with the lowest byte first, an optional starts with 0 or 1, arrays, tuples and matrices with their first item |
| `WireFormat.ImageOnTheWire` | src/Input.cpp:481-500 | the dimensions of an image, each in four bytes |
| `WireFormat.DynamicOnTheWire` | src/Input.cpp:671-686 | the code in front of a dynamic value: size and cells, two bytes each with the lower one first |
| `WireFormat.MapItems` | src/Input.cpp:402-422 | the items of a map are keys and values in turn, those of an object strings and dynamic values |
| `WireFormat.OtherItems` | src/Input.cpp:501-514 | the items of a tuple are its members in order |
| `WireFormat.ProductLaws` | src/Input.cpp:562-614 | the number of elements of a matrix or image is multiplicative in the dimensions, and n for one dimension n |
| `Wire.RunOfFixedSize` | src/Input.cpp:361-401 | n values of fixed size k take n * k bytes: the bulk branches of arrays, lists, matrices and images take as many bytes as the loops over elements |
| `CopyLaws.ReadBackByteCode` | src/Input.cpp:671-686 | `write_byte_code` throws exactly for codes that are too long; what it writes is read back by `read_byte_code` if validation accepts the code, and makes it throw if not |
| `CopyLaws.ReadBackHead` | src/Input.cpp:296-559 | what `copy` reads of the head of an encoded value (sizes, dimensions, flags, byte codes) is what was written, and nothing behind it |
| `CopyLaws.CopyEncoded` | src/Input.cpp:296-559 | for every schema and value, on the encoding followed by anything, `copy` consumes exactly the encoding, emits exactly its bytes and leaves the rest; it throws exactly if the nesting exceeds the recursion limit |
| `CopyLaws.CopyItemsEncoded` | src/Input.cpp:361-514 | the same for the items of a container, whichever mixture of bulk and element-wise copying is used |
| `CopyLaws.EncodingIsUnique` | src/Input.cpp:296-559 | the wire format is unambiguous: no encoding of a schema is the beginning of another one, so the bytes tell the value and where it ends |
| `CopyLaws.AnyFlag` | src/Input.cpp:523-534 | an optional whose flag is any byte: 0 means no value, everything else a value, and the flag is written as 0 or 1 |
| `CopySpec.Copy` | src/Input.cpp:296-559 | on any bytes at all, a copy that returns has emitted as many bytes as it consumed and stayed inside the stream |
| `CopySpec.ReadByteCode` | src/Input.cpp:671-686 | whatever the bytes are, a byte code that is read back is well formed and accounts for every byte that was consumed |
| `Streams.CopyBytes` | src/Input.cpp:277-290 | copying buffer by buffer, with or without an output, equals taking one block; a short stream throws |
| `Streams.CopyValue` | src/Input.cpp:273-301 | `copy` and `skip` over streams and flat codes refine the copy over schema trees on every input, bad ones included; `skip` is the same with no output, so it stops at the same place |
| `Streams.CopyCode` | src/Input.cpp:296-559 | the switch over the first cell refines the case distinction over schemas |
| `Streams.CopyRun` | src/Input.cpp:369-400 | the choice between one block and a loop, by `get_value_size` |
| `Streams.CopyEach` | src/Input.cpp:369-514 | the loops over elements, key and value pairs and tuple members refine the copy of a list of items |
| `Streams.CopyArray` | src/Input.cpp:361-380 | arrays |
| `Streams.CopyList` | src/Input.cpp:381-401 | lists, with their 32-bit size |
| `Streams.CopyMap` | src/Input.cpp:402-422 | maps: pairs of key and value codes at the right offsets |
| `Streams.CopyTuple` | src/Input.cpp:501-514 | tuples: element codes found through relative offsets |
| `Streams.CopyOptional` | src/Input.cpp:523-534 | optional values: a flag, then the value if the flag is set |
| `Streams.CopyMatrix` | src/Input.cpp:463-480 | matrices: the dimensions come from the code |
| `Streams.CopyImage` | src/Input.cpp:481-500 | images: the dimensions come from the stream |
| `Streams.TotalSize` | src/Input.cpp:562-614 | the number of elements of a matrix or image is the product of its dimensions |
| `Streams.CopyString` | src/Input.cpp:348-360 | strings |
| `Streams.CopyNumber` | src/Input.cpp:300-347 | numbers are copied as they are, by their width |
| `Streams.ReadDynamicCode` | src/Input.cpp:671-686 | `read_byte_code` over a stream: size limit, cells and validation, against the specification that inverts `write_byte_code` |
| `Streams.CopyDynamic` | src/Input.cpp:440-449 | dynamic values: the byte code is passed on and then interpreted one level down |
| `Streams.CopyObject` | src/Input.cpp:515-522 | objects, through the code of a map from strings to dynamic values |
| `Streams.ObjectIsMap` | src/Input.cpp:515-522 | copying an object is copying a map from strings to dynamic values, one level down |
| `Streams.CopyStruct` | src/Input.cpp:537-559 | structs: the type is looked up by index among the dependencies |
| `Streams.CopyFields` | src/Input.cpp:537-559 | a struct or class is its primitive block and then its extended fields, each by its own code |
| `Types.LinkKeeps` | src/Type.cpp:474-484 | `link_field_map` never moves a name that has a field, and other names only get fields that are there |
| `Types.LinkIsLookup` | src/Type.cpp:474-484 | when no name is in two different aliases (the same one may be in both versions), linking is a lookup: the name itself, or else its partner |
| `Types.PartnerOfPartner` | src/Type.cpp:474-484 | aliases work in both directions |
| `Types.SharedAliases` | src/Type.cpp:486-511 | a version whose aliases are all in the other one, or a type matched with itself, never mixes up names |
| `Types.LinkedByName` | src/Type.cpp:486-520 | after linking, a name leads to the last field that has it, or else to the last one that has its alias |
| `TypeCodes.EquivalentSize` | src/Type.cpp:279-377 | codes `is_equivalent_code` accepts have equal sizes |
| `WireFormat.AlikeExactly` | src/Type.cpp:279-345 | two numbers are laid out alike exactly if they have one size and are of one code or both integers |
| `MemoryLayouts.EquivalentWithPadding` | src/Type.cpp:521-536 | a concrete counterexample: `struct { uint8_t x; uint16_t y; }` takes 4 bytes with y at 2, and a type that was sent with the field sizes 1 and 3 compiles, is called equivalent and has y at 1 |
| `MemoryLayouts.EquivalentLayout` | src/Type.cpp:521-536 | for a struct without padding, whatever field sizes were sent: a type that `match` calls equivalent has every field at the offset of the C++ member |
| `MemoryLayouts.SamePlacesExactly` | src/Type.cpp:521-536 | for any struct: a type that is called equivalent has its fields at the offsets of the members if and only if each field takes as much as the member with the padding behind it |
| `MemoryLayouts.SafeExactlyIfUnpadded` | src/Type.cpp:521-536 | all types that are called equivalent to a struct are laid out like it if and only if it has no padding, or one member, or something in it that is never equivalent |
| `MemoryLayouts.CompiledIsRoomy` | src/Type.cpp:379-393 | compiled fields of an equivalent type have room for their values, as long as the struct is below 2^16 bytes |
| `TypeCodes.LinkFieldMap` | src/Type.cpp:474-484 | the loop over the aliases is `Link` |
| `TypeCodes.TypeCode.Compile` | src/Type.cpp:379-472 | compiling succeeds exactly if every field code is valid and every primitive field has a size that is settled; then indices, offsets, total size and the list of extended fields are those of a layout without gaps, and what was sent has not changed |
| `TypeCodes.TypeCode.Match` | src/Type.cpp:486-540 | matching succeeds exactly for native types; then the field map, the native index of every extended field and the equivalence flag are what the specification by names says, and the layout is untouched |
| `TypeCodes.TypeCode.CheckEquivalent` | src/Type.cpp:521-536 | the equivalence test |
| `TypeCodes.TypeCode.MatchPrimitive` | src/Type.cpp:490-504 | the table from native fields to primitive fields of the block |
| `TypeCodes.TypeCode.LinkExtended` | src/Type.cpp:512-519 | extended fields learn their native index; nothing else changes |
| `Evolution.BlockAt` | generated/src/Frame.cpp:298-312 | each primitive field stands in the block at the offset `compile` gave it |
| `Evolution.ClassHasType` | generated/src/Frame.cpp:298-319 | what a generated `write` puts together is a value of the struct its type code describes |
| `Evolution.WriteBlock` | generated/src/Frame.cpp:311-314 | writing the primitive fields one by one at their offsets fills the block exactly |
| `Evolution.WriteClass` | generated/src/Frame.cpp:298-319 | generated `write` emits exactly the encoding of the class value |
| `Evolution.ReadPrimitive` | generated/src/Frame.cpp:276-287 | primitive members are read through the field map; members without a field keep their value |
| `Evolution.ReadExtended` | generated/src/Frame.cpp:288-295 | each extended field goes to the member with its native index, or is skipped, and the stream moves past it either way |
| `Evolution.ReadClass` | generated/src/Frame.cpp:244-296 | generated `read` moves the stream exactly as `copy` of the class would, on every input, and what it assigns is a function of the block and of the pieces of the stream |
| `Evolution.PiecesOfEncoding` | generated/src/Frame.cpp:288-295 | the pieces of the stream the extended fields are read from are exactly the encodings of those fields |
| `Evolution.MemberReceived` | generated/src/Frame.cpp:276-295 | each native member ends up with the bytes of its source field, or with what it had |
| `Evolution.SchemaEvolution` | doc/pages/vni_interface.h:200-216 | for any old and new version linked by `match`: reading leaves the stream at the end of the value, members with a source get exactly what was written for it, all others keep their defaults, and the recursion limit is the only error |
| `Evolution.SourceIsLastFed` | src/Type.cpp:486-520 | the source of a native field is the last sent field of the same kind with its name, or with an alias of it that is not taken; both directions |
| `Evolution.MatchLinks` | src/Type.cpp:486-520 | whatever `match` links is linked as reading needs it: inside the tables and of the right kind |
| `Evolution.CompiledDescribes` | src/Type.cpp:433-472 | a compiled type satisfies what the interpreters assume of it |
| `Compatibility.Prepare` | src/Type.cpp:433-540 | compiling both versions and matching them goes through exactly if both compile and one is native; a native type may be matched with itself |
| `Compatibility.SendAndReceive` | doc/pages/vni_interface.h:200-216 | the whole way: written under one version, read under another, each native field gets the bytes of the last sent field that is meant for it by name or alias, or stays default if there is none, and the stream is right behind the value |
| `Compatibility.NumberArrives` | doc/pages/vni_interface.h:200-216 | an integer member that is fed by an integer field of any width, sign and byte order gets what the number that was sent becomes in its type: that number if and only if the type has it, and else the number of the type that differs from it by a multiple of 2^bits; for a boolean 0 exactly if the number is 0 |
| `Conversions.CastKeepsExactly` | include/vnx/Input.h:128-158 | a conversion gives the number of the type, by its range written out, that differs by a multiple of 2^bits, and so keeps exactly the numbers the type has |
| `Conversions.BecomesOne` | include/vnx/Input.h:128-158 | what a number becomes in a type is unique, and the number itself exactly if the type has it |
| `Conversions.ThreeHundred` | include/vnx/Input.h:128-158 | 300 that was sent as a 16-bit number in either byte order is read as 44 by a single byte |
| `Conversions.WrittenIsRead` | include/vnx/Input.h:128-158 | a number written in either byte order is read back as itself |
| `Conversions.IntegersComeThrough` | include/vnx/Input.h:128-158 | `read_value` of a number that was written as another integer type gives what it becomes in the type of the member, and takes its bytes |
| `Conversions.AlikeIsCast` | include/vnx/Input.h:172-174 | taking the bytes of an equivalent element type as they are is converting each element, except for booleans that are neither 0 nor 1 |
| `Conversions.ReadArray` | include/vnx/Input.h:163-187 | static arrays of another size and integer type: common elements are taken or converted, missing ones are 0, extra ones are skipped, and all bytes that were sent are used up |
| `Conversions.ElementsAreCast` | include/vnx/Input.h:163-187 | each element of the result is the converted number, exactly unless it is a boolean above 1 in an array that was taken as a block |
| `Conversions.ArraysComeThrough` | include/vnx/Input.h:163-187 | an array of numbers that was written with one integer type and size, read with another: each element is what the number becomes, and missing ones are 0 |
| `Ordering.NumberIsInjective` | src/Value.cpp:448-505 | two encodings of one width that stand for the same number are the same bytes |
| `Ordering.IntegersExactly` | src/Value.cpp:448-505 | integers are ordered by value, signed ones in two's complement |
| `Ordering.BytesExactly` | src/Value.cpp:640-647 | strings are ordered at the first byte in which they differ, or else by length |
| `Ordering.SizesExactly` | src/Value.cpp:721-774 | dimensions at the first one that differs, or else by their number |
| `Ordering.OrderLaws` | src/Value.cpp:585-850 | the order `compare` follows is antisymmetric, and 0 exactly for equal values |
| `Ordering.OrderTransitive` | src/Value.cpp:585-850 | it is transitive |
| `CompareLaws.IntegersCompareAsNumbers` | src/Value.cpp:448-505 | any two integer codes compare as numbers, exactly unless an unsigned one at or above 2^63 meets a signed one it wraps below |
| `CompareLaws.CompareEncoded` | src/Value.cpp:585-850 | `compare` on two encodings followed by anything gives the order of the values; when they are equal both streams are left behind the values |
| `CompareLaws.CompareRunEncoded` | src/Value.cpp:507-526 | the fast loop over numbers of one kind gives what comparing element by element would |
| `CompareLaws.EqualMeansSameBytes` | src/Value.cpp:585-850 | `compare` finds no difference exactly if the encodings are byte for byte the same, which is exactly if the values are |
| `CompareLaws.KindIsFirstCell` | src/Value.cpp:850 | the code `compare` falls back on is the first cell of the code |
| `CompareDynamics.CompareUnwrapped` | src/Value.cpp:585-604 | comparing two values of any kinds, dynamic or optional to any depth on either side, is comparing what is inside of them, as many levels further down |
| `CompareDynamics.WrittenInside` | src/Value.cpp:585-604 | a dynamic or optional value is written as its flags and codes and then as what is inside |
| `CompareDynamics.CompareRanked` | src/Value.cpp:585-850 | `compare` on values that hold dynamic and optional values anywhere, objects included, gives their rank: integers of whatever codes as numbers, values of one code item by item, others by their codes; when there is no difference both streams are left exactly at the ends |
| `CompareDynamics.RankLaws` | src/Value.cpp:585-850 | for such values that are written with one code where they are equal, the rank is antisymmetric and 0 exactly for a value itself |
| `Objects.DynamicsCompare` | src/Value.cpp:775-779 | two dynamic values of one code compare in the order of what they hold, equal exactly if they are written the same |
| `Objects.DynamicIntegersCompare` | src/Value.cpp:775-779 | two dynamic integers of any codes compare as integers |
| `Objects.OptionalsCompare` | src/Value.cpp:837-848 | optionals: both without a value are equal, both with one compare as the values, and null comes first; but a number comes before null as well |
| `Objects.NumberAgainstOther` | src/Value.cpp:605-636 | a number comes before anything that is no number, and the other comes after it exactly if the number has the smaller code; otherwise, as with null, each comes before the other |
| `Objects.ObjectsCompare` | src/Value.cpp:828-836 | Variants that hold objects: `==`, `<` and `<=` follow the rank of their fields, and they are equal exactly if their data is |
| `Objects.OneFieldCompares` | src/Value.cpp:828-836 | objects with one integer field compare by name and then by number, so {"x": 1} is less than {"x": 2} and not equal to it |
| `CompareStreams.CompareNumberArray` | src/Value.cpp:507-526 | `compare_integral_array` over streams, against its specification |
| `CompareStreams.CompareArrayAt` | src/Value.cpp:528-583 | `compare_array`: sizes first, then the fast loop or item by item |
| `CompareStreams.CompareValue` | src/Value.cpp:585-850 | `compare` over two streams and two flat codes refines the comparison by schemas on every input that is covered; what that comparison decides, dynamic and optional values included, is stated in `CompareLaws`, `CompareDynamics` and `Objects` |
| `CompareStreams.CompareSecond` | src/Value.cpp:585-604 | a dynamic or optional second value is unwrapped first |
| `CompareStreams.CompareFirst` | src/Value.cpp:605-850 | the switch over the first code, different kinds included |
| `CompareStreams.CompareNumberAt` | src/Value.cpp:448-505 | a number against whatever the second code is |
| `CompareStreams.CompareStringsAt` | src/Value.cpp:640-647 | strings compare as byte sequences |
| `CompareStreams.CompareMapAt` | src/Value.cpp:692-720 | maps: the pairs both have, then the sizes |
| `CompareStreams.CompareTupleAt` | src/Value.cpp:807-827 | tuples: the members both have, then the sizes |
| `CompareStreams.CompareMatrixAt` | src/Value.cpp:721-743 | matrices: dimensions from the codes, then the elements |
| `CompareStreams.CompareImageAt` | src/Value.cpp:744-774 | images: dimensions from the streams, then the elements |
| `CompareStreams.CompareSizes` | src/Value.cpp:721-743 | the first dimension that differs decides |
| `Variants.VariantsAreOrdered` | src/Variant.cpp:243-319 | the operators of `Variant` on values of one code are one total order: `==` is equality of the stored bytes, `<=` is `<` or `==`, `<` is the negation of `>=`, and `<=` is transitive; an empty Variant comes before all others |
| `Variants.DepthIsHeight` | src/Type.cpp:69-75 | a code that passed validation is never too deep for the interpreters |
| `Variants.UnsignedIsCanonical` | src/Output.cpp:202-240 | every unsigned width stores a number as the same bytes, under the narrowest code it fits |
| `Variants.SignedIsCanonical` | src/Output.cpp:249-303 | so does every signed width, non-negative numbers under unsigned codes, and the bytes read back as the number |
| `Variants.IntegerVariantsCompare` | src/Variant.cpp:243-319 | integer Variants compare as numbers exactly unless one wraps below the other, and are equal exactly if their bytes are or they are 2^64 apart |
| `HashSpec.FeedEncoded` | src/Value.cpp:881-1045 | `calc_hash` on the encoding of any value without structs, dynamic and optional values and objects included, feeds its leaves in order and stops at its end |
| `HashSpec.OrderedIsHashable` | src/Value.cpp:881-1045 | ordered values are among those, and need no more levels than their code is deep |
| `HashSpec.EqualVariantsHashEqually` | src/Variant.cpp:321-331 | equal Variants of one ordered code feed the hash the same bytes |
| `HashSpec.EqualIntegersHashEqually` | src/Variant.cpp:321-331 | equal integer Variants feed the hash the same bytes if and only if it is not the case that one is 2^64 above the other and that one is at least -2^31 |
| `HashSpec.LargestAndMinusOne` | src/Variant.cpp:321-331 | 2^64 - 1 and -1 are equal Variants; one feeds the hash 8 bytes and the other 1 |
| `HashStreams.HashValue` | src/Value.cpp:881-1045 | `calc_hash` over a stream and a flat code refines the feeding by schemas on every input that is covered |
| `HashStreams.HashArray` | src/Value.cpp:855-878 | `calc_hash_array`: single bytes at once, anything else one by one |
| `HashStreams.HashEach` | src/Value.cpp:962-1030 | the loops over map pairs, tuple members and elements |
| `HashStreams.HashWrapped` | src/Value.cpp:1003-1042 | dynamic and optional values and objects are hashed as what is inside |
| `TypeStream.TypeOutput.WriteTypeCode` | src/Output.cpp:101-109 | writing a type code keeps the stream self-describing and adds nothing but codes of types it refers to; nothing at all if it is known or type codes are disabled |
| `TypeStream.TypeOutput.WriteType` | src/Type.cpp:1061-1089 | a type comes after everything it refers to, and no code is written twice |
| `TypeStream.TypeOutput.WriteClass` | src/Output.cpp:160-173 | a value header comes after its type code |
| `TypeStream.TypeOutput.Clear` | src/Output.cpp:111-114 | after `clear` the stream starts anew |
| `TypeStream.ReadStream` | src/Input.cpp:162-173 | the reader gets through exactly if each name it meets has been read before or is registered; on a self-describing stream no lookup fails and the values come out in order |
| `Recordings.ResentIsStored` | src/RecordWriter.cpp:85-96 | if equal sequence numbers on a channel mean equal values, the sample a back-pointer leads to has the right number and value |
| `Recordings.FullExactly` | src/RecordWriter.cpp:85-96 | a sample is stored in full exactly if it is the first of its channel or its number is above that of the sample before it on the channel |
| `Recordings.StoredExactly` | src/RecordWriter.cpp:85-96 | what is read for an entry is the last sample of its channel, up to it, that was stored in full |
| `Recordings.TimeIsLatest` | src/RecordWriter.cpp:67-74 | the time of an entry is the latest receive time so far, and not negative |
| `Recordings.BeginsWith` | src/RecordWriter.cpp:67-74 | a recording begins with its first sample that has a time above 0 |
| `Writer.JustStored` | src/RecordWriter.cpp:85-96 | the item of a new sample: the sample, or a pointer to the last one of its channel that is in full |
| `Writer.RecordWriter.Write` | src/RecordWriter.cpp:65-118 | a write keeps the whole file consistent: every entry resolves, items and blocks follow each other without gaps and without overlap, finished blocks are linked both ways, channel table and times are those of the log |
| `Writer.RecordWriter.Put` | src/RecordWriter.cpp:76-107 | entry, item and channel of a new sample |
| `Writer.RecordWriter.AddBlock` | src/RecordWriter.cpp:185-205 | a full block is linked to a new one at the end of the file, in place, and nothing else changes |
| `Writer.RecordWriter.WriteIndex` | src/RecordWriter.cpp:178-183 | whatever is in the index, its bytes take exactly the slot of a block, so the rewrite in place touches nothing else |
| `IndexBlocks.IndexSchema` | generated/src/RecordIndex.cpp:133-167 | the wire schema of an index block is that of the type codes of `RecordIndex` and its entries |
| `IndexBlocks.IndexTakes` | generated/src/RecordIndex.cpp:229-246 | a `RecordIndex` with n entries takes 30 + 16 n bytes, its class header of 10 bytes included, whatever is in it |
| `IndexBlocks.IndexIsRead` | generated/src/RecordIndex.cpp:181-227 | reading over an index block ends exactly where the next item starts |
| `Writer.RecordWriter.WriteHeader` | src/RecordWriter.cpp:141-175 | the header is rewritten and padded to its slot, or throws exactly if less than six bytes of padding are left; everything else survives as long as the header itself fits |
| `Writer.RecordWriter.Flush` | src/RecordWriter.cpp:120-131 | after a flush the file holds the recording of everything written so far, with first and last time in its header |
| `Writer.AppendSample` | src/RecordWriter.cpp:85-96 | storing a sample in full, or as a pointer to the last full one of its channel, keeps every entry of the file intact |
| `Writer.BlockAdded` | src/RecordWriter.cpp:185-205 | everything a writer knows stays true when a block is added |
| `Writer.HeaderRewritten` | src/RecordWriter.cpp:141-175 | rewriting the header touches no block and no entry |
| `Reader.TrimmedIndex` | src/RecordReader.cpp:259-273 | dropping the unused entries from the end of an index leaves exactly the entries of the block |
| `Reader.RecordReader.Reset` | src/RecordReader.cpp:43-73 | opening: no header and no sample are reported; otherwise the cursor is on the first sample |
| `Reader.RecordReader.ReadIndex` | src/RecordReader.cpp:259-273 | reading an index block |
| `Reader.RecordReader.ReadSample` | src/RecordReader.cpp:234-257 | reading follows a back-pointer and returns to the place behind it |
| `Reader.RecordReader.SeekNext` | src/RecordReader.cpp:164-187 | the cursor over linked blocks moves one entry forward in the flat sequence, across blocks, or stays where it was at the end, an empty last block included |
| `Reader.RecordReader.SeekPrev` | src/RecordReader.cpp:189-207 | and one entry back, or stays at the beginning |
| `Reader.RecordReader.FixIndexPos` | src/RecordReader.cpp:209-226 | an empty last block is left again for the last entry before it |
| `Reader.RecordReader.ReadNext` | src/RecordReader.cpp:80-86 | the next sample, and the stream right behind it |
| `Reader.RecordReader.ReadPrev` | src/RecordReader.cpp:88-94 | for every position of cursor and stream that stepping back reaches: nothing at the start, an exception where an index block comes next, the sample after the one that was read last inside a block, and the current sample again at the end of the file; in step, the sample before comes back if and only if another one that is read happens to be the same |
| `Reader.AfterPrev` | src/RecordReader.cpp:88-94 | what stands at the stream position after `seek_prev`: an item of the recording, an index block or nothing |
| `Replay.PreviousIsNext` | src/RecordReader.cpp:88-94 | a recording of three samples where stepping to the second one and back reads the third one |
| `Reader.RecordReader.SeekByCount` | src/RecordReader.cpp:96-112 | moves by that many entries of the flat sequence, stops at its ends, and the end flags say so exactly |
| `Reader.RecordReader.SeekByTime` | src/RecordReader.cpp:114-130 | stops at the first entry at or after a forward target, at the last one at or before a backward one, else at the end it reached, with the flag of that end set |
| `Reader.RecordReader.SeekToTime` | src/RecordReader.cpp:132-134 | the same for an absolute time, with the flag of the end that was reached |
| `Replay.Record` | src/RecordWriter.cpp:28-131 | a run of writes and flushes goes through exactly if every header fits; then the file holds the recording, and its header the first and last time |
| `Replay.ReadAll` | src/RecordReader.cpp:43-86 | stepping from `reset` to the end gives exactly the entries of a recording |
| `Replay.RecordAndReplay` | src/RecordWriter.cpp:65-131 | the round trip: after any run of writes and flushes and `close`, the reader yields the written samples in order, each pointer giving the last full sample of its channel |
| `Replay.ReadBackValues` | src/RecordWriter.cpp:85-96 | with proper sequence numbers every sample comes back with its own channel, number and value |
| `Replay.RecordedTimesGrow` | src/RecordWriter.cpp:67-74 | recorded times never go back |
| `Replay.ForwardAndBack` | src/RecordReader.cpp:164-207 | a step forward is undone by a step back, across blocks |
| `Merge.ChooseEarliest` | src/MultiRecordReader.cpp:92-103 | with times that are not negative the loop finds the earliest head, the first file if several are, and finds nothing exactly if all is read |
| `Merge.ChooseFails` | src/MultiRecordReader.cpp:92-103 | for all times: nothing is found exactly if all is read or the last file with unread samples has a negative time |
| `Merge.MultiRecordReader.ReadNext` | src/MultiRecordReader.cpp:92-112 | the chosen file gives its current sample and is advanced; no other file moves |
| `Merge.MultiRecordReader.Reset` | src/MultiRecordReader.cpp:73-84 | all files from their start; the first sample of all becomes the current one; if nothing is found it throws unless a sample is left from before |
| `Merge.TakeOne` | src/MultiRecordReader.cpp:92-112 | taking the earliest head keeps the merge sorted and nothing unread belongs before anything taken |
| `Merge.ReadEverything` | src/MultiRecordReader.cpp:73-112 | the current sample after `reset` and then `read_next` to the end is a time-sorted interleaving with every sample of every file exactly once, each file in its order, ties by file order |
| `Merge.ReadThrough` | src/MultiRecordReader.cpp:73-112 | for all times: from `reset` to the first `read_next` that gives nothing every sample is read if and only if no file has a sample with a negative time |
| `MergedReplay.RecordedInOrder` | src/RecordWriter.cpp:67-74 | recordings made by the writer have times that are not negative and do not go back |
| `MergedReplay.ReadTogether` | src/MultiRecordReader.cpp:73-112 | files that were recorded, read together: the samples each file alone would give, every one once, sorted by recorded time |
| `Resend.Sender.Handle` | src/BaseProxy.cpp:143-198 | what is sent for a sample, and that its number is remembered exactly if it went out |
| `Resend.Receiver.Process` | src/BaseProxy.cpp:708-762 | what is published for a packet and what is remembered of it |
| `Resend.Play` | src/BaseProxy.cpp:143-198 | sending, receiving, connecting and losing the connection at either end: the objects take exactly the steps of the runs below, so what both ends forget on a disconnect is what the runs assume |
| `Resend.SendKeeps` | src/BaseProxy.cpp:156-198 | sending keeps the invariant: every packet on the link carries its value or will find it at the receiver |
| `Resend.ReceiveKeeps` | src/BaseProxy.cpp:733-741 | so does receiving |
| `Resend.DenyKeeps` | src/BaseProxy.cpp:714-732 | a denied publish breaks the agreement on its own channel only |
| `Resend.StepKeeps` | src/BaseProxy.cpp:143-198 | so does every step, failed sends and disconnects of either end in any order included |
| `Resend.DeliversOriginals` | src/BaseProxy.cpp:143-198 | in every run with proper numbers, an injective topic mapping and denials that last as long as the connection, every delivered sample has its original value although repeats are sent empty |
| `Resend.MixedUp` | src/BaseProxy.cpp:162-172 | for any two topics mapped to the same one there is a run that delivers a wrong value |
| `Resend.SafeExactlyIfInjective` | src/Topic.cpp:232-250 | a mapping of topics, one by one or by domains, is safe in all runs if and only if it maps no two topics to the same one |
| `Resend.SafeExactlyIfProper` | src/BaseProxy.cpp:162-171 | samples are safe in all runs if and only if their numbers start at 1 and equal numbers on a channel mean equal values |
| `Resend.NumberZero` | src/BaseProxy.cpp:162-171 | a run in which the first sample of a channel has number 0 and arrives without its value |
| `Resend.SameNumber` | src/BaseProxy.cpp:162-171 | a run in which two values share a number and the second one arrives as the first |
| `Resend.LiftedDenial` | src/BaseProxy.cpp:714-741 | a run of seven steps in which one denied publish is repeated and accepted, and an older value is delivered |
| `Pipes.AddTokenAdds` | src/Node.cpp:97-103 | a notification adds exactly one token |
| `Pipes.AddTokenSorted` | src/Node.cpp:97-103 | and keeps the map sorted by priority with no empty queue |
| `Pipes.DropTokenDrops` | src/Node.cpp:125-138 | taking the next token removes exactly the first one of the first priority |
| `Pipes.Node.Notify` | src/Node.cpp:97-103 | the token goes behind those of its priority |
| `Pipes.Node.PopNext` | src/Node.cpp:125-138 | the oldest token of the lowest priority value, and what is left |
| `Pipes.Pipe.Push` | src/Pipe.cpp:127-171 | one turn of `push`: result, queue and notification; every result comes with exactly the pipes and messages it is for. OK: an open, running pipe below its limits gains the message; at a limit only one in latest mode with a droppable front does, and loses that front. OVERFLOW, PAUSED, an exception or waiting: no room, and nothing changes |
| `Pipes.AddTokenAt` | src/Node.cpp:97-103 | where a new token goes: behind those of its priority, or into a new entry at the place of that priority |
| `Pipes.Pipe.Pop` | src/Pipe.cpp:173-184 | the oldest message, if there is one |
| `Pipes.Pipe.Close` | src/Pipe.cpp:204-241 | the pipe is closed and empty, and the leftover messages are handed back in order |
| `PipeRuns.PushKeeps` | src/Pipe.cpp:127-171 | pushing keeps queue length and tokens equal, also when a drop suppresses the notification |
| `PipeRuns.PopNextKeeps` | src/Node.cpp:125-138 | a token moves from the map to the reader, also when the node is stopped in between |
| `PipeRuns.PopMsgKeeps` | src/Node.cpp:140-150 | a message leaves with the token the reader holds |
| `PipeRuns.StepKeeps` | src/Pipe.cpp:127-241 | every step keeps the invariant |
| `PipeRuns.RunKeeps` | src/Pipe.cpp:127-241 | in every interleaving: messages leave each pipe in the order in which they were accepted, no accepted BLOCKING message is dropped before close, size limits hold, and each open pipe has as many messages as tokens |
| `PipeRuns.KeepOldestDropsNothing` | src/Pipe.cpp:127-171 | in every run a pipe that was opened to keep the oldest messages never drops one |
| `PipeRuns.PushAtLimit` | src/Pipe.cpp:135-157 | a push to an open pipe at its size limit: in latest mode with a droppable front that front goes and the message is taken in without a token; otherwise the pipe stays as it is |
| `PipeRuns.NoLostWakeUp` | src/Node.cpp:44-66 | a reader that finds no token has nothing left to read in any open pipe |
| `PipeRuns.DrainReadsAll` | src/Node.cpp:27-42 | reading until nothing is left ends, with every open pipe empty unless a message stopped the node |
| `RequestQueues.RequestQueue.Forward` | src/RequestQueue.cpp:23-38 | a new request is pending, goes to the end of the queue, and what can be dispatched is, with the fate of each request that leaves; the queue keeps its invariant: arrival order, fates that never change, at most one request out unless cleared, nothing waiting while none is out |
| `RequestQueues.RequestQueue.SendNext` | src/RequestQueue.cpp:86-104 | dispatches the first request that can be sent; those before it fail; nothing moves while one is active |
| `RequestQueues.RequestQueue.Handle` | src/RequestQueue.cpp:65-84 | a return is taken exactly if it belongs to a pending request, which is closed for good and answered unless it wants no return; if it was the active one the next is dispatched; it comes too early exactly if the request is still queued |
| `RequestQueues.RequestQueue.HandleWhenStuck` | src/RequestQueue.cpp:65-84 | once a request that was answered too early is active, no return gets the queue going again |
| `RequestQueues.StuckExactly` | src/RequestQueue.cpp:65-104 | the queue is stuck exactly when its active request was answered while it was queued, so never if no return is handled for a queued request |
| `RequestQueues.GetStuck` | src/RequestQueue.cpp:23-104 | a run of four calls on a new queue that gets it stuck |
| `RequestQueues.Make` | src/RequestQueue.cpp:23-84 | any call: which requests count as answered too early, by the test whether the key is pending and queued at the call, and that only `clear` ends being stuck |
| `RequestQueues.PendingExactly` | src/RequestQueue.cpp:23-104 | in every run pending are the queued, the dispatched and the failing requests but for those a return was handled for while they were queued; they are exactly these if and only if no such request is still under way |
| `RequestQueues.RequestQueue.Purge` | src/RequestQueue.cpp:40-58 | all queued requests leave in order, and those that are still pending are closed |
| `RequestQueues.RequestQueue.Clear` | src/RequestQueue.cpp:60-63 | the queue is purged and the active request forgotten |
| `ThreadPools.ThreadPool.AddTask` | src/ThreadPool.cpp:39-68 | accepted, refused, waiting or run at once, by thread count, limit and whether the pool runs; an accepted job is queued and pending |
| `ThreadPools.ThreadPool.TakeNext` | src/ThreadPool.cpp:143-194 | a worker takes its finished job off the pending set when it next locks, then takes the first queued job, waits, or leaves; the job was never started before |
| `ThreadPools.ThreadPool.Finish` | src/ThreadPool.cpp:164-179 | a finished job stays pending until its worker locks again |
| `ThreadPools.ThreadPool.Sync` | src/ThreadPool.cpp:97-102 | `sync()` returns exactly if every accepted job has finished |
| `ThreadPools.ThreadPool.SyncBarrier` | src/ThreadPool.cpp:104-113 | when `sync(barrier)` returns every accepted job up to the barrier has finished |
| `ThreadPools.ThreadPool.SyncJobs` | src/ThreadPool.cpp:115-128 | when `sync(jobs)` returns every accepted one of them has finished |
| `ThreadPools.StartKeeps` | src/ThreadPool.cpp:143-166 | starting the first job of the queue keeps the pool consistent: it was never started before, and it is in the hands of the worker that took it |
| `ThreadPools.FinishKeeps` | src/ThreadPool.cpp:168-176 | a job that is done stays pending in the hands of its worker |
| `ThreadPools.ForgetKeeps` | src/ThreadPool.cpp:148-157 | when the worker locks the queue again, its job and nothing else stops being pending |
| `ThreadPools.PendingExactly` | src/ThreadPool.cpp:39-194 | in every interleaving pending are exactly the jobs in the queue and those in the hands of a worker that has not locked the queue since, both directions, and no job is both |
| `Sha256Spec.AbsorbAppend` | src/SHA256.cpp:68-100 | blocks can be absorbed in several goes |
| `Sha256.Sha256State.Transform` | src/SHA256.cpp:68-100 | the loops over schedule and rounds compute the hash of section 6.2.2 of FIPS 180-4, block by block |
| `Sha256.Sha256State.Expand` | src/SHA256.cpp:72-80 | the message schedule |
| `Sha256.Sha256State.OneRound` | src/SHA256.cpp:84-95 | one round, in place |
| `Sha256.Sha256State.Update` | src/SHA256.cpp:119-139 | after `update` the state stands for the message with the piece appended; exactly if the 32-bit sum of waiting and new bytes wraps around it stands for a message that lost the piece and the end of what was waiting |
| `Sha256.Sha256State.Finalize` | src/SHA256.cpp:141-156 | the digest of the message with the padding as it is written; below 2^29 bytes it is the digest of FIPS 180-4 |
| `Sha256.ShortPaddingIsPadding` | src/SHA256.cpp:141-151 | the padding with its 32-bit length is that of section 5.1.1 if and only if the message is shorter than 2^29 bytes |
| `Sha256.HashPieces` | src/SHA256.cpp:102-156 | however a message below 2^29 bytes is split into `update` calls, the digest is that of the whole message |
| `Sha256Example.DigestOfAbc` | test/test_input_output.cpp:885 | the digest of "abc" is ba7816bf...f20015ad, computed word by word and round by round: every constant, rotation and byte order counts |
| `JsonLaws.ScanEscaped` | src/Output.cpp:401-428 | every string, escaped and quoted, is scanned back as itself |
| `JsonLaws.WordOfNumber` | src/JSON.cpp:112-180 | every 64-bit integer, signed or unsigned, is printed as a word that reads back as that number |
| `JsonLaws.ReadPrinted` | src/JSON.cpp:55-273 | in front of any text a value can be followed by, a printed tree is read back and the rest is left, or the parser throws exactly if the tree is too deep |
| `JsonLaws.RoundTrip` | src/Visitor.cpp:124-176 | parsing undoes printing on all trees of null, booleans, 64-bit integers, strings, arrays and objects with plain names, exactly up to the depth limit |
| `JsonLayout.LayoutDoesNotMatter` | src/JSON.cpp:55-273 | whatever runs of space, tab, line feed, vertical tab, form feed and carriage return stand between the tokens of a printable tree, around it and inside empty brackets, the parser gives that tree and what follows it |
| `JsonLayout.ItemsAreRead` | src/JSON.cpp:186-222 | the same for the items of an array |
| `JsonLayout.FieldsAreRead` | src/JSON.cpp:224-273 | the same for the fields of an object |
| `JsonLayout.PrinterLayout` | src/Visitor.cpp:124-176 | the text of the printer is one of these layouts: a blank behind every comma and colon |
| `JsonLayout.LineBreak` | src/JSON.cpp:186-222 | "[1,\n2]" is the array of 1 and 2 |
| `JsonLayout.FoundBehindBlanks` | src/JSON.cpp:240-266 | the search for a colon, comma or brace skips exactly these characters |
| `JsonLayout.WordsAreSqueezed` | src/JSON.cpp:96-111 | text without quotes and brackets up to a delimiter is one word, with exactly these characters left out |
| `JsonLayout.UnquotedString` | src/JSON.cpp:164-178 | a word that is no number and no literal is a string without quotes |
| `JsonLayout.IntegerIsRead` | src/JSON.cpp:112-163 | a printed integer is read as itself exactly if it fits in 64 bits; otherwise the parser throws |
| `JsonLayout.FractionIsNumber` | src/JSON.cpp:112-152 | digits, a point and more digits are a number that is no integer |
| `JsonLayout.HexIsNumber` | src/JSON.cpp:112-152 | a word that starts with "0x" counts as a number, whatever follows |
| `JsonLaws.LessExactly` | src/JSON.cpp:253 | fields are kept in the order of their names: by the first character that differs, or else by length |
| `JsonLayout.PrintedCharacters` | src/Output.cpp:401-428 | how each character is written inside a string |
| `JsonLayout.PrintedNumbers` | src/Visitor.cpp:124-176 | numbers are written in decimal digits, the highest first |
| `JsonLaws.NameComesBack` | src/Visitor.cpp:166-171 | an object with one field comes back if and only if its name has no quote and no backslash, because names are not escaped |
| `JsonLaws.NameIsReadExactly` | src/Visitor.cpp:166-171 | in any text, where a name was printed it is read as that name if and only if it has no quote and no backslash |
| `Json.ReadJson` | src/JSON.cpp:55-180 | the parser ends on every text and never gives back more than it was given; a value takes at least one character |
| `JsonStream.ReadJsonEx` | src/JSON.cpp:55-180 | the stream parser refines the parser on text, on every input |
| `JsonStream.ScanValue` | src/JSON.cpp:60-111 | the loop that collects a string or a word, with its escape flags |
| `JsonStream.ReadArray` | src/JSON.cpp:186-222 | the loop of `read_array` |
| `JsonStream.ReadObject` | src/JSON.cpp:224-273 | the loop of `read_object`; a name that is not a string is skipped |
| `JsonStream.WriteString` | src/Output.cpp:401-428 | writing character by character gives the quoted and escaped string |

## Left out

- Streams.CopyCode: codes of the other byte order, and ANY and TYPE_CODE values, end as not modelled; the copy of a foreign struct does not flip its index (src/Input.cpp:549) and that of a foreign image writes flipped dimensions (src/Input.cpp:485-489), so no claim about them is made.
- CompareStreams.CompareValue: floats, ANY values, codes of the other byte order, and strings or lists compared with another kind of string or list end as not covered; struct values are followed but are not part of the order.
- CompareLaws.CompareEncoded: one code on both sides, without dynamic and optional values; those are in `CompareDynamics`. Across kinds `compare` is no order (a string against a number, src/Value.cpp:640-647).
- CompareDynamics.RankLaws: equal numbers of different codes at the same place, such as true and 1, compare equal without being the same, and containers of different codes are compared by `CompareDynamics.CompareUnwrapped` and the cases of `CompareSpec` alone.
- Objects.OptionalsCompare: a string against null, which reads the string and then nothing (src/Value.cpp:640-647), ends as not covered.
- HashSpec.FeedEncoded: the hash function is the sequence of bytes it is fed; of a struct only the code is fed, and the stream does not move over it.
- HashStreams.HashValue: floats are fed as their bytes; ANY values and codes of the other byte order end as not modelled.
- Ordering.OrderLaws: booleans are those that are written, 0 or 1; other bytes would compare equal without being the same.
- Evolution.ReadClass: members are given the code and the bytes of their field, and `Conversions` turns them into integers; floats, strings, containers and nested classes are not converted. Reading a class from an OBJECT or DYNAMIC code, and skipping without a type code, are left out.
- Compatibility.SendAndReceive: native fields of one kind have distinct names and no name is in two different aliases; aliases are a sequence in the order of the map that holds them. A field that moves between the primitive and the extended kind is not linked by the code and counts as missing.
- TypeStream.ReadStream: a type is its hash and what it refers to; whether type codes are disabled is fixed for a stream.
- Writer.RecordWriter.WriteHeader: topic statistics, markers and type code positions in the header are left out; the bytes the header takes are a parameter.
- Writer.RecordWriter.Write: the bytes of a sample or pointer, type codes included, are a parameter.
- Reader.RecordReader.SeekNext: an opened recording; damaged files are only considered where they are opened.
- Merge.MultiRecordReader.ReadNext: stepping back, seeking and the merged header of several files are left out.
- Merge.ReadEverything: recordings that have samples, with times as `MergedReplay.RecordedInOrder` finds them.
- Resend.Sender.Handle: hop counts, heartbeats and the shutdown topic are left out, permissions are a flag; requests and returns of the proxy are left out, since a request is recorded after it is sent and a fast return can be lost (src/BaseProxy.cpp:213-223).
- Resend.Receiver.Process: the import map, tunnels and overflows of the publishing pipe are left out; a denial is a flag.
- Resend.DeliversOriginals: a new connection starts once both ends have cleaned up after the old one.
- Pipes.Pipe.Push: one turn of its waiting loop, with the time as a parameter; peers, and connecting a pipe to another node, are left out.
- PipeRuns.RunKeeps: the wake-up of senders that wait for room is left out; a pipe is opened once.
- RequestQueues.RequestQueue.Forward: the source and number of a request are new, the random address of a source is a parameter, and `failing` names the requests that cannot be sent.
- ThreadPools.ThreadPool.AddTask: one turn of its waiting loop; what a job does, `wait` and `detach` are left out.
- JsonStream.ReadJsonEx: the modes that read to the end of the file or to a space are left out; fractions and hexadecimal numbers are kept as text, without their conversion.
- Evolution.ReadExtended: a typed read is taken to move the stream as `copy` of the same code does; for reads that convert containers this is assumed.
- JsonLaws.NameComesBack: objects with one field; with several fields the text of a name can reach into the next one, and what the whole text gives is not stated.
- JsonLayout.LayoutDoesNotMatter: names are quoted as the printer writes them, without escapes, and every two items are separated by one comma; that the parser takes any run of commas for one is not stated.
- JsonLaws.RoundTrip: fields are in the order of a map; floats have no round trip.
- `accept`, visitors and `code_to_string` walk a code as `copy` does and would add easy members.
- Streams.CopyRun: sizes are numbers without a limit; where 64-bit sizes differ is stated in `MachineSizes`, for all codes, and does not concern values that fit into memory. The overflow of matrix and image sizes is left out.
- Sockets, files and their buffers, and the buffer limit of 16384 bytes.
- The asynchronous clients, their pending maps and callbacks, `ToObject`, generated getters and setters, tools and terminals.
