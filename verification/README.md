# Verified models of the generators and the system call shims

A Dafny project about the parts of the library that are hardest to get right
by reading: the JSON codec compiler, the Unicode and number tables, the zone
and corpus tables, the package graph checker, and the two C shims that start
processes and take over signals. Each part has a fast or step by step form and
a simple meaning, and what is proved is that the two agree, for all inputs.

`dafny verify dfyconfig.toml` checks everything. Automatic induction is off in every
lemma, so a lemma holds by the steps it is written with and by no others.

## What is modelled

**The JSON codec compiler.** `JsonModel` has what the planner decides
(encodings, members, codecs), values and tokens. `JsonText` holds the two
reference functions: `Print`, which puts a comma before every field but the
first one written, and `Read`, a recursive descent over tokens. `EmitEncoder`
and `EmitDecoder` hold the statements the generator emits and an interpreter
for them. The interpreter is strict: a name declared twice, or one used out of
its scope, is a failure. `EncoderRuns` and `DecoderRuns` prove that running
the emitted statements is `Print` and `Read`; `JsonRoundTrip` and
`JsonIdentity` prove that `Read` undoes `Print` up to a normal form and say
exactly which values are their own normal form; `JsonWire` says key by key what
stands in a printed document and which numbers a field takes; `JsonLast` says what a
document with repeated, reordered or unknown keys means. `EmitBody`,
`EncoderLines` and `DecoderLines` are the generator as it is written, methods
that append indented lines to a `Body`, proved to lay out those statements.
`EncoderText` and `DecoderText` run such lines as they stand, knowing blocks by
their indentation only, and prove that to be running the statements.
`EncoderFlag` is about the one run time flag an encoder has.
`EncoderFlag` is about the one run time flag an encoder has.
`CodecTags`, `CodecStruct` and `CodecPlan` are the planner, down to the
removal loop, and `CodecNames` the names its functions get. `CodecFile` writes
the lines of a whole file, reads them back, and compiles and runs what it finds;
`JsonCodec` puts everything together.

**Unicode.** `UnicodeRuns`, `UnicodeWords` and `UnicodeBlob` are the greedy
strided runs, their packing into words, the array they share, and the searches.
`UnicodeOrbits` and `UnicodeFolds` are the four passes that build the folding
orbits and what is read from them. `UnicodeCases` is the case mappings as
ranges.

**Starting a process.** `SpawnChild` is the descriptor table of the child and
the two passes over it. `SpawnProtocol` is parent and child as two processes
that take steps in any order.

**Signals.** `Signals` is the handler, the pipe and the remembered
dispositions, with signals arriving between any two statements.

**The rest.** `PackageGraph` is the depth first search over the manifests.
`NumberTables` and `ShiftDigits` are the arithmetic the float tables rest on,
and `DecimalShift` the decimal that is shifted by them in place.
`JsonSuite` and `ZoneTable` are two encoded tables with their readers.

## Where the code and its own words differ

The model follows the code in each of these.

- `plan.py` calls a codec decodable by its own members alone. A struct with
  every field on the wire that holds a struct with a field tagged `-` is
  planned, and its decoder calls one that is not generated:
  `DecoderLinks.UnlinkedIsAccepted`.
- `plan.py` refuses two structs of one name, because both could not be imported
  into one file. Two structs with different names can still get functions of one
  name, `ID` and `Id` for instance, since `snake` loses capitals. Encoders are
  told apart by their argument; two decoders are not, and the file does not
  compile: `DecoderLinks.CollidingIsAccepted`. The round trip from the planner
  on, `JsonCodec.PlannedCycle`, holds exactly when neither happens and the value
  neither collapses nor nests too deep.
- Nothing in `emit.py` says that the round trip has exceptions. A filled Optional that
  holds something spelled `null`, and a raw message that is written and is
  empty, come back as something else: `JsonIdentity.CollapseExample`,
  `JsonIdentity.RoundTripIff`.
- The comment above the first pass in `spawn.c` says that anything sitting in
  the range being written is moved. The code moves a source only when it sits
  in a slot below its own, which is enough: `SpawnChild.Arrange`.
- `signal.c` says that a full pipe drops the byte. Nothing makes the write end
  non-blocking, so `write` would wait there instead. The model leaves open how
  a write ends and claims nothing of one that does not.
- `spawn.c` says that the caller never sees the id of something that never ran. A
  `read` of the report pipe that fails with anything but an interruption is taken
  for an end of file, and the pid is given back whatever the child wrote:
  `SpawnProtocol.UnheardExample`, `SpawnProtocol.PidExactly`.
- `ucd.py` says that the pairs pass three drops are those that `SimpleFold` gets
  right without an orbit. It does not when the one whose upper case is in the pair
  has a lower case outside it: `UnicodeOrbits.UntidyExample`.
- `tzdata.py` says that it checks in names what the lookup relies on. It accepts
  names that the lookup then refuses, which begin with a slash or hold two dots in
  a row, and `UTC` and the empty name are answered without looking:
  `ZoneTable.Lookup`.
- `jsonsuite.py` reads any table back but the empty one, which comes back as
  one document with an empty name: `JsonSuite.SuiteCases`.

## Model

| member | source | states |
|---|---|---|
| `JsonSkip.SkipElsewhere` | core/encoding/json/codec.mojo:502-560 | a value that can be stepped over in one place can be stepped over in front of anything, ends at the same token, and is refused for depth exactly when its own brackets pass the cap |
| `JsonSkip.ReadRawBack` | core/encoding/json/codec.mojo:562-574 | a raw message's own tokens are read back as that message wherever they stand |
| `JsonRoundTrip.ReadBack` | tools/codec/emit.py:192-341 | reading what was printed, with anything after it, gives the value's normal form and leaves the rest, or refuses the depth, and which of the two is decided by how deep the value nests |
| `JsonRoundTrip.StructBack` | tools/codec/emit.py:355-493 | the same for a struct with fields left out, present, repeated in containers and referring to itself |
| `JsonIdentity.NormFixed` | tools/codec/emit.py:208-214 | a value is its own normal form exactly when nothing in it is spelled `null` inside a filled Optional and no written raw message is empty |
| `JsonIdentity.UnmarshalPrint` | tools/codec/emit.py:419-493 | a whole printed document decodes to the normal form, with nothing left over |
| `JsonIdentity.RoundTripIff` | tools/codec/plan.py:76-79 | decoding undoes encoding if and only if the value is canonical and within the nesting cap |
| `JsonIdentity.PlainRoundTrip` | tools/codec/emit.py:297-306 | with no Optional directly around an Optional or a raw message, every value without an empty raw message comes back |
| `JsonIdentity.CollapseExample` | tools/codec/emit.py:299-306 | a field holding `Some(None)` in an accepted plan comes back as `None` |
| `JsonWire.EmptyExactly` | tools/codec/emit.py:344-352 | for every value of a kind that may be left out, the emitted test says empty exactly for the one value that a missing key is read as |
| `JsonWire.ObjectExactly` | tools/codec/emit.py:379-415 | a printed struct is the object of exactly those fields that are not tagged `-` and are not `omitempty` with nothing in them, in declared order, each under its key |
| `JsonWire.MarshalKeys` | tools/codec/emit.py:384-413 | what the emitted encoder writes has a member under a field's key exactly when the field is not `omitempty` or its value is not the empty one |
| `JsonWire.DictExactly` | tools/codec/emit.py:230-252 | a printed dictionary has each of its keys once, in ascending order |
| `Common.AtMostExactly` | tools/codec/emit.py:241-241 | the order the keys are in: a beginning of the other, or the smaller character where the two first differ |
| `JsonWire.ScalarsExactly` | core/encoding/json/codec.mojo:472-490 | reading a bool, a string or an integer takes exactly what printing a value of the type writes, and nothing else |
| `JsonWire.FloatIntoInteger` | core/encoding/json/codec.mojo:729-750 | what a float is written as suits an integer field exactly when the float is a whole number within the range of the field's width |
| `JsonLast.ObjectReads` | tools/codec/emit.py:443-493 | the emitted decoder on an object of well typed members, at any depth and with anything after it, gives the struct that its last members build and leaves the rest, or names the field that is missing |
| `JsonLast.OnlyLastMatters` | tools/codec/emit.py:281-294 | two objects in which what is last under every known key reads the same are decoded alike by the emitted decoder, at any depth and with anything after them, nested objects included |
| `JsonLast.SwapMembers` | tools/codec/emit.py:456-479 | members of an object anywhere in a document that have different keys may change places |
| `JsonLast.InsertMember` | tools/codec/emit.py:284-287 | a member may be put into an object anywhere when its key is unknown, and anywhere before a later one of its key, without changing the result |
| `JsonLast.MissingExactly` | tools/codec/emit.py:483-491 | such an object within the cap is refused exactly when a field with no empty value has no member, and the error names the first such field |
| `EncoderRuns.EncodeRuns` | tools/codec/emit.py:192-252 | the statements emitted for one value, run with any variables in scope, append that value's tokens and leave the older variables alone |
| `EncoderRuns.CommaRuns` | tools/codec/emit.py:379-393 | the comma placed before a field while generating is there at run time exactly when an earlier field was written, and `wrote` is only looked at where it was declared |
| `EncoderFlag.FlagExactly` | tools/codec/emit.py:373-381 | the flag is declared exactly where some statement of the fields sets or tests it |
| `EncoderFlag.CommaExactly` | tools/codec/emit.py:379-393 | a comma is written outright behind a field that is always written, tested for behind fields that may all be missing, and left out before the first |
| `EncoderRuns.FieldsRun` | tools/codec/emit.py:379-413 | for every member list and every choice of which omittable fields are present, the emitted fields are those of the encoder that tests a flag before each one; which fields those are is `JsonWire.ObjectExactly` |
| `EncoderRuns.BodyRuns` | tools/codec/emit.py:355-416 | an emitted encoder appends one whole object to whatever is in the buffer |
| `EncoderRuns.MarshalPrints` | tools/codec/emit.py:355-416 | every emitted encoder ends on every value of its struct and writes the printed value, whatever order a dictionary is iterated in |
| `DecoderRuns.ReadIntoRuns` | tools/codec/emit.py:272-278 | the statements that declare and read one value end as the reference reader does, with the same value or the same error, on every input |
| `DecoderRuns.FillRuns` | tools/codec/emit.py:297-341 | the same for a composite read into an empty variable |
| `DecoderRuns.ReplaceRuns` | tools/codec/emit.py:281-294 | reading a field again replaces what it held, collections included |
| `DecoderRuns.DispatchRuns` | tools/codec/emit.py:456-472 | the chain of tests over the keys does what looking the field up by name does, and an unknown key is skipped or refused |
| `DecoderRuns.ConstructRuns` | tools/codec/emit.py:483-492 | the constructor call passes every field its own variable, in the order the fields are declared |
| `DecoderRuns.BodyRuns` | tools/codec/emit.py:436-493 | an emitted decoder reads one object as the reference reader does |
| `DecoderRuns.UnmarshalRuns` | tools/codec/emit.py:419-493 | on every input, well formed or not, the emitted decoder ends and equals the reference reader |
| `EmitBody.NestLayout` | tools/codec/emit.py:149-167 | indentation loses nothing: blocks laid out as indented lines are found again from the lines |
| `EmitBody.Body.Block` | tools/codec/emit.py:160-164 | a line that opens a block stands at the old depth, and the depth grows by one |
| `EmitBody.Body.Fresh` | tools/codec/emit.py:169-172 | each temporary gets a number above all before it |
| `EncoderLines.EmitValue` | tools/codec/emit.py:192-252 | `encode` appends exactly the lines of the modelled statements, uses the temporaries counted for it, and leaves the depth as it was |
| `EncoderLines.EmitField` | tools/codec/emit.py:384-413 | one turn of the loop over the fields writes the modelled field and updates what is known about commas |
| `EncoderLines.EmitFields` | tools/codec/emit.py:382-413 | the loop over the fields writes all of them, commas placed by its two variables |
| `EncoderLines.WriteEncoder` | tools/codec/emit.py:355-416 | the lines of an encoder are its statements laid out, and the blocks read back from the indentation are those that were written |
| `EncoderLines.EncoderSolid` | tools/codec/emit.py:355-416 | every block an encoder opens has a line in it, and nothing else has |
| `DecoderLines.EmitRead` | tools/codec/emit.py:272-278 | `value` appends exactly the lines of the modelled read |
| `DecoderLines.EmitFill` | tools/codec/emit.py:297-341 | `fill` appends exactly the lines of the modelled composite read |
| `DecoderLines.EmitInto` | tools/codec/emit.py:281-294 | `into` appends exactly the lines of the modelled replacement |
| `DecoderLines.EmitDispatch` | tools/codec/emit.py:455-472 | the loop over the members writes one `if`, then `elif`s, and an `else` only when there was an `if` |
| `DecoderLines.EmitChecks` | tools/codec/emit.py:483-491 | the loop over the members writes a test for each field that must be there and gathers the arguments in order |
| `DecoderLines.WriteDecoder` | tools/codec/emit.py:436-493 | the lines of a decoder are its statements laid out, and the blocks read back from the indentation are those that were written |
| `DecoderLines.DecoderSolid` | tools/codec/emit.py:436-493 | every block a decoder opens has a line in it, and nothing else has |
| `EncoderText.OutlineRuns` | tools/codec/emit.py:149-252 | running the lines of an encoder as they are indented is running its statements, loops, `else`s and calls included |
| `DecoderText.OutlineRuns` | tools/codec/emit.py:255-341 | the same for the lines of a decoder, with each `elif` and `else` belonging to the `if` above it |
| `CodecFile.WriteFile` | tools/codec/emit.py:545-557 | the file is an encoder for each codec in order, and a decoder for each that can have one |
| `CodecFile.DecodersLoad` | tools/codec/emit.py:443-446 | the decoders of a file are found by name, each as it was written, if and only if no two have one name |
| `CodecTags.JoinSplit` | tools/codec/tags.py:104-108 | splitting at commas loses nothing |
| `CodecTags.SplitJoin` | tools/gen/jsonsuite.py:168-175 | parts without commas come back from being joined |
| `CodecTags.Read` | tools/codec/tags.py:85-126 | a tag has nothing wrong with it exactly when it is `-`, `-,`, or an allowed name with at most one `omitempty`, and what it then says |
| `CodecTags.Collide` | tools/codec/tags.py:129-142 | exactly the names with more than one field are reported, in order, with all their fields, and none exactly when the names are distinct |
| `CodecStruct.One` | tools/codec/plan.py:236-271 | a struct gets a codec exactly when it is not generic, hides nothing, can be built, and every field is one the generator takes with no two under one name; there is then one member a field in order, and each is what its tag and its type say |
| `CodecStruct.EncodingExactly` | tools/codec/plan.py:183-233 | a type is accepted exactly when it is one of the listed scalars, a raw message, an Optional, List or string-keyed Dict of an accepted type, or a struct that asked for a codec |
| `CodecStruct.EncodingSpells` | tools/codec/plan.py:183-230 | the encoding of every accepted type, spelled back, is the text of that type: widths, containers and the structs in them |
| `CodecStruct.MemberExactly` | tools/codec/plan.py:252-269 | a field becomes a member exactly when its tag is one of those allowed, its type has a form, and `omitempty` stands only on an Optional, a List, a Dict or a raw message; the member then spells the field's own type and carries the name and the `omitempty` that the tag is written with |
| `CodecPlan.OneStruct` | tools/codec/plan.py:183-233 | an accepted type leads to at most one struct, and its encoding names that one |
| `CodecPlan.NameOrPath` | tools/codec/plan.py:350-362 | looking a nested struct up by its last name finds what its path finds, as far as survival goes, even among twins |
| `CodecPlan.SurvivorsGreatest` | tools/codec/plan.py:309-336 | the survivors are the largest set of individually planned structs that lead only into the set |
| `CodecPlan.Gone` | tools/codec/plan.py:312-321 | a round finds exactly the structs that hold one without a codec |
| `CodecPlan.Removal` | tools/codec/plan.py:311-336 | the removal loop ends and leaves exactly the survivors |
| `CodecPlan.FirstPlans` | tools/codec/plan.py:284-307 | the second pass plans every struct that has no twin and no problem, and no other |
| `CodecPlan.Plan` | tools/codec/plan.py:274-347 | the codecs are those of the survivors and the refusals the paths of the others, both in the order they asked, each codec saying of every field what its tag and its type say |
| `CodecPlan.PlannedExactly` | tools/codec/plan.py:236-307 | a struct is planned exactly when it has no twin and passes every check, told by its fields, and its codec is then the one its fields spell |
| `CodecPlan.PlannedIsSound` | tools/codec/plan.py:262-270 | a planned codec has distinct field and JSON names, and `omitempty` only where a field can be absent |
| `CodecPlan.PlanIsAccepted` | tools/codec/plan.py:281-336 | every plan meets what the emitter's theorems ask, nested structs all planned |
| `CodecNames.SnakeKeeps` | tools/codec/plan.py:162-165 | structs whose functions have one name differ in capitals and underscores only |
| `CodecNames.SnakeExactly` | tools/codec/plan.py:162-165 | the two substitutions together put an underscore before a capital exactly when it follows a small letter or a digit, or follows anything but a line end and has a small letter after it, wherever their matches fall |
| `CodecNames.SnakeCollides` | tools/codec/plan.py:162-165 | two struct names with one function name |
| `DecoderLinks.BodyCallees` | tools/codec/emit.py:255-341 | a decoder calls exactly the decoders of the structs its fields hold, at any depth of containers |
| `DecoderLinks.ClosedExactly` | tools/codec/plan.py:138-148 | where no two decoders share a name, each call is to a decoder of the struct it is for if and only if every decodable struct holds only decodable ones |
| `DecoderLinks.UnlinkedIsAccepted` | tools/codec/plan.py:138-148 | the planner accepts a package whose decoder calls one that is never emitted |
| `DecoderLinks.CollidingIsAccepted` | tools/codec/plan.py:288-299 | the planner accepts a package of two structs whose decoders have one name |
| `JsonCodec.CycleExactly` | tools/codec/emit.py:355-493 | for every accepted plan with one decoder to a name and none missing, and every value, the emitted decoder run on the emitted encoder's output gives the value back if and only if it is canonical and within the cap, and otherwise its normal form or the depth error |
| `JsonCodec.CompilesExactly` | tools/codec/emit.py:534-560 | the lines of a file's decoders compile if and only if no two decoders have one name and each calls only decoders that are there for the struct it wants |
| `JsonCodec.FileExactly` | tools/codec/emit.py:534-560 | the same as the cycle for the written lines of any accepted plan, with the compiling part of the condition |
| `JsonCodec.PlannedCycle` | tools/codec/plan.py:274-347 | from the planner on: for whatever it makes of any package, the lines of the generated file, read back and run, return a value if and only if no two decoders share a name, every decoder called is there, and the value is canonical and within the cap |
| `UnicodeRuns.ExpandHolds` | tools/gen/ucd.py:364-370 | a code point is in a run's expansion exactly when it is in range and the stride divides its offset |
| `UnicodeRuns.GreedyExpands` | tools/gen/ucd.py:401-416 | the greedy runs of an increasing list expand to that list |
| `UnicodeRuns.GreedyMaximal` | tools/gen/ucd.py:401-416 | every greedy run but the last covers more than one code point, and none ends one of its strides before the next begins |
| `UnicodeRuns.GreedyUnique` | tools/gen/ucd.py:401-416 | runs with that property are the greedy runs of what they expand to, so there is one way to write a list |
| `UnicodeRuns.Pack` | tools/gen/ucd.py:401-416 | the loop's runs expand to the list and no two neighbours could have been one: a run that has not chosen its stride is the last, and none ends one stride before the next begins |
| `UnicodeRuns.Runs` | tools/gen/ucd.py:373-398 | the two widths, each in runs none of which could go on, and the Latin offset, which counts the leading runs within Latin-1 |
| `UnicodeRuns.TightUnique` | tools/gen/ucd.py:373-398 | there is one such table of a list |
| `UnicodeRuns.TableExactly` | tools/gen/ucd.py:373-398 | a table's rows are in order, and cover exactly the list, each width its own half |
| `UnicodeRuns.SameRunsExactly` | tools/gen/unicode.py:108-120 | two lists have the same runs exactly when they are the same list |
| `UnicodeWords.WordBits` | tools/gen/unicode.py:118-119 | or of the shifted fields is the sum the packing is modelled as |
| `UnicodeWords.UnpackBits` | core/unicode/letter.mojo:148-160 | shifts and masks of any word are the quotients and remainders the unpacking is modelled as |
| `UnicodeWords.UnpackWord` | core/unicode/letter.mojo:148-160 | unpacking a packed run gives the run |
| `UnicodeWords.In` | tools/gen/xmltables.py:199-223 | the binary search with its unsigned cast answers exactly membership, negative runes included |
| `UnicodeWords.Is16` | core/unicode/letter.mojo:232-259 | scan or binary search, whichever is taken, answers exactly membership |
| `UnicodeWords.IsFrom` | core/unicode/letter.mojo:291-311 | the two widths together, from a given row on, answer exactly membership in those rows |
| `UnicodeWords.IsIn` | core/unicode/letter.mojo:314-321 | a packed table answers true for exactly the list it was made from, and false for every negative rune |
| `UnicodeWords.IsExcludingLatin` | core/unicode/letter.mojo:324-326 | skipping the Latin rows changes no answer above Latin-1 |
| `UnicodeBlob.Blob.AddTable` | tools/gen/unicode.py:108-120 | a table is laid at the end if it is new and shared if not, and no other name's entry moves |
| `UnicodeBlob.Blob.Add` | tools/gen/unicode.py:108-120 | after any number of additions the array is the distinct tables in order of first use, each once, and every name finds its own |
| `UnicodeBlob.Blob.Contains` | tools/gen/unicode.py:108-155 | looking a code point up under a name answers for the list added under it |
| `UnicodeBlob.SharedExactly` | tools/gen/unicode.py:110-117 | two names share an entry exactly when they have the same table |
| `UnicodeOrbits.Gather` | tools/gen/ucd.py:275-282 | pass one leaves at each fold target the target and everything that folds to it |
| `UnicodeOrbits.AddSingles` | tools/gen/ucd.py:284-293 | pass two adds a group of one for a cased code point that nothing folds with |
| `UnicodeOrbits.DropPairs` | tools/gen/ucd.py:295-303 | pass three empties exactly the pairs that are each other's case |
| `UnicodeOrbits.WriteCycle` | tools/gen/ucd.py:305-314 | a group becomes a cycle, each pointing at the next and the last at the first, and nothing else is written |
| `UnicodeOrbits.BuildOrbits` | tools/gen/ucd.py:261-314 | the four passes leave at every code point the next of its class where the group was kept, and 0 elsewhere |
| `UnicodeOrbits.FoldExactly` | tools/gen/ucd.py:344-358 | `SimpleFold` gives the next of the folding class for every code point if and only if, in each dropped pair, the one whose upper case is the other has no lower case outside the pair |
| `UnicodeOrbits.UntidyExample` | tools/gen/ucd.py:295-303 | a database that meets every other hypothesis and on which `SimpleFold` leaves its class |
| `UnicodeFolds.FoldCycle` | tools/gen/ucd.py:344-358 | the cycle through a code point reaches exactly its class, and returns after as many steps as the class has members and not before |
| `UnicodeFolds.FoldPermutes` | tools/gen/ucd.py:344-358 | `SimpleFold` is a permutation of the code points |
| `UnicodeFolds.AddOrbit` | tools/gen/ucd.py:335-340 | the walk round an orbit ends, having added the whole class |
| `UnicodeFolds.FoldExceptions` | tools/gen/ucd.py:317-341 | the answer is sorted and is what the loop reaches from the class less the class; where dropped pairs keep their mappings to themselves it is exactly what folds together with a member |
| `UnicodeFolds.ExceptionsExactly` | tools/gen/ucd.py:325-341 | the loop reaches exactly what folds together with a list, for every list, if and only if the mappings of every dropped pair stay in the pair |
| `UnicodeCases.CaseRanges` | tools/gen/ucd.py:516-540 | the one pass computes the rows of the closed runs, or the refusal; `UnicodeCases.RowsExactly` says which rows those are |
| `UnicodeCases.KindExactly` | tools/gen/ucd.py:463-504 | a code point is upper, lower or title case, asked in that order, when that mapping leads to itself; failing that, by whether it has a lower or an upper case; and otherwise none, or missing when it is not assigned |
| `UnicodeCases.RowsExactly` | tools/gen/ucd.py:506-540 | when rows come out, a row is among them exactly when its range is a longest stretch of code points of one kind that move alike, or that swing between two cases in turn, and ends before the last point; its deltas lead to the three cases of its first point, or are the mark of a swing |
| `UnicodeCases.To` | core/unicode/letter.mojo:371-386 | the binary search over ordered rows applies the row a code point is in, and finds one exactly when there is one |
| `UnicodeCases.RowsInOrder` | tools/gen/ucd.py:516-540 | the rows are sorted, disjoint, and stop before the run still open |
| `UnicodeCases.RunSwings` | tools/gen/ucd.py:497-504 | along an alternating run the deltas alternate by the parity of the offset from its start |
| `UnicodeCases.RangesExactly` | tools/gen/ucd.py:448-555 | when rows come out, looking a code point up gives its upper, lower and title case as they stand in the database, for every code point, if and only if the last point has none, no neighbours of one kind both alternate the same way, and nothing has a title case only |
| `UnicodeCases.RefusedExactly` | tools/gen/ucd.py:550-554 | the generator refuses exactly when a closed run of more than one point starts in lower case |
| `UnicodeCases.RefusedMeans` | tools/gen/ucd.py:550-554 | the same told by the fields of the database alone |
| `SpawnChild.Process.DupAbove` | core/syscall/shim/spawn.c:61-63 | the duplicate gets the lowest free number at or above the floor, close on exec, and nothing else changes |
| `SpawnChild.MoveAside` | core/syscall/shim/spawn.c:150-158 | after the first pass every slot's source holds the file named for it and is not in a slot filled before it is read; only descriptors above the slots were added; it succeeds exactly when there are as many free numbers above the slots as sources in a slot below their own |
| `SpawnChild.FillSlots` | core/syscall/shim/spawn.c:159-174 | the second pass fills every slot from its source, untouched above the slots |
| `SpawnChild.Arrange` | core/syscall/shim/spawn.c:134-174 | for every table with duplicates, swaps, cycles and holes the new program finds in each slot the file named for it, or nothing, and above the slots only what was not close on exec |
| `SpawnChild.Child` | core/syscall/shim/spawn.c:77-190 | the child becomes the program, descriptors arranged and no end of the pipe open, exactly when nothing failed before, there are enough free numbers for the report and the sources to be moved, every slot is a number it may use, and `execve` works; otherwise it writes to the pipe's write end exactly the errno of the first of these that failed |
| `SpawnChild.OnlyNamed` | core/syscall/shim/spawn.c:146-148 | if everything else is close on exec, the program has exactly the named slots |
| `SpawnProtocol.RunInv` | core/syscall/shim/spawn.c:215-285 | what every step of every interleaving keeps |
| `SpawnProtocol.Answers` | core/syscall/shim/spawn.c:215-285 | whenever the parent has answered, its descriptors are as before; a failure means no child, or that child's own errno after waiting for it; a pid means nothing was written, unless `read` failed |
| `SpawnProtocol.PidExactly` | core/syscall/shim/spawn.c:261-284 | once a child was made, the answer is a pid if and only if no report was written or the parent's `read` failed with something other than an interruption |
| `SpawnProtocol.UnheardExample` | core/syscall/shim/spawn.c:261-284 | a run in which the child writes its errno and the parent answers with a pid |
| `SpawnProtocol.AnswersHappen` | core/syscall/shim/spawn.c:215-285 | runs that end in each answer: a pid with the program running, the errno of a child that wrote it and was waited for, and a failure with no child |
| `SpawnProtocol.ChildSteps` | core/syscall/shim/spawn.c:77-190 | the child run on a descriptor table takes one of the protocol's two steps, and which of them is decided as for `SpawnChild.Child`: it becomes the program with no end of the pipe left, or writes its own errno to the end it still holds |
| `SpawnProtocol.PidIsFinal` | core/syscall/shim/spawn.c:284-284 | after a pid no report is ever written, unless `read` failed |
| `SpawnProtocol.NeverStuck` | core/syscall/shim/spawn.c:255-281 | until the parent has answered, some process can take a step |
| `SpawnProtocol.StepsDescend` | core/syscall/shim/spawn.c:261-281 | every step but an interruption uses something up, so only endless signals could keep the parent waiting |
| `Signals.Take.Handle` | core/syscall/shim/signal.c:97-107 | the handler finds a pipe to write to and leaves `errno` as it was, however often its write is interrupted and whether it fails |
| `Signals.Take.Arrive` | core/syscall/shim/signal.c:97-107 | any signals arriving in a gap between statements leave `errno` and the dispositions alone, and put into the pipe exactly the numbers of those that are delivered and whose write goes through, in order |
| `Signals.HeardExactly` | core/syscall/shim/signal.c:97-107 | a signal among others puts its own number in its turn, if the handler has it and the write goes through, and nothing otherwise |
| `Signals.Take.Pipe` | core/syscall/shim/signal.c:121-141 | the pipe is made once, and given back again, with signals arriving at every step and the bytes of those in the pipe |
| `Signals.Take.CatchSignal` | core/syscall/shim/signal.c:157-187 | a signal is caught with the first disposition remembered, or nothing changes; what arrives before the handler is in place is heard under the old dispositions, what arrives after it under the new |
| `Signals.Take.IgnoreSignal` | core/syscall/shim/signal.c:194-217 | the same for ignoring one |
| `Signals.Take.RestoreSignal` | core/syscall/shim/signal.c:227-242 | what was remembered is put back and forgotten, or the default, and nothing else changes; what arrives is heard under the dispositions before and after |
| `Signals.Take.PerformAll` | core/syscall/shim/signal.c:157-242 | any run of calls, with signals arriving all through it, leaves the dispositions and what is remembered as the calls that gave 0 say one after another |
| `Signals.Take.TakeAndRestore` | core/syscall/shim/signal.c:219-242 | after any run of calls that does not give a signal back, giving it back reinstates the disposition it had before the run if a call took it over, and the default if none did |
| `Signals.HonestAlways` | core/syscall/shim/signal.c:153-156 | after any calls, what is remembered is never the handler itself, and the handler is only where something is remembered |
| `Signals.RestoreReinstates` | core/syscall/shim/signal.c:219-242 | the same on dispositions as values, for calls on this signal and on others |
| `PackageGraph.Search.Walk` | tools/lint/run.py:138-149 | the walk ends, adds only real cycles, and without one leaves a depth for the package that is settled by its dependencies |
| `PackageGraph.SettledMeans` | tools/lint/run.py:133-149 | settled depths rule out every cycle and are the longest paths |
| `PackageGraph.CycleIsReal` | tools/lint/run.py:141-143 | the path that is reported is a closed path of the graph |
| `PackageGraph.CheckGraph` | tools/lint/run.py:112-159 | a cycle is reported if and only if there is one, and every reported one is real; exactly the packages that are misplaced, name a stranger or are out of order are said to be; without a cycle exactly those not in the tier of their longest path are, with that tier; and there is no complaint if and only if the tree is sound |
| `PackageGraph.TiersDescend` | tools/lint/run.py:113-120 | in an accepted tree a package's tier is strictly above its dependencies' |
| `Common.SortedExactly` | tools/lint/run.py:125-132 | sorting leaves a list as it is exactly when no entry stands before one it should come after |
| `NumberTables.DividesExactly` | core/strconv/math.mojo:149-163 | for any divisor with an inverse, one product and one comparison decide divisibility |
| `NumberTables.InverseWorks` | tools/gen/strconv.py:116-118 | every odd number has an inverse modulo every power of two |
| `NumberTables.Div5Table` | tools/gen/strconv.py:106-120 | every row of the table answers rightly for every 64-bit number |
| `NumberTables.Normalise` | tools/gen/strconv.py:95-99 | doubling and halving end for every positive number, between 2^127 and 2^128 |
| `NumberTables.Pow10Table` | tools/gen/strconv.py:83-103 | every stored mantissa has its top bit set and is the power of ten scaled by a power of two and truncated |
| `NumberTables.MantissaIsOne` | tools/gen/strconv.py:84-90 | for every exponent only one mantissa meets that |
| `ShiftDigits.PrefixMeans` | core/strconv/decimal.mojo:239-255 | digits come before those of 5^k exactly when the number is below 5^k, both moved to the same length |
| `ShiftDigits.DigitsTogether` | tools/gen/strconv.py:128-130 | 2^k and 5^k have k + 1 digits together |
| `ShiftDigits.ShiftAdds` | tools/gen/strconv.py:123-131 | a left shift by k adds the digit count of 2^k, one fewer when the number's digits come before those of 5^k |
| `ShiftDigits.PrefixIsLess` | core/strconv/decimal.mojo:239-255 | the comparison loop computes the prefix order |
| `ShiftDigits.LeftCheats` | tools/gen/strconv.py:123-140 | the table gives for every shift the digit count of 2^k, and between its starts the digits of 5^k |
| `DecimalShift.Decimal.LeftShift` | core/strconv/decimal.mojo:258-301 | written backwards and in place, the digits become those of the number times 2^k, as many as there is room for and without zeros at the end; the point moves by the digits added, and `trunc` is set exactly when a digit that is not zero fell off |
| `DecimalShift.Decimal.Shift` | core/strconv/decimal.mojo:90-103 | in passes of at most 60 bits, and with nothing lost, the decimal is the number times 2^k exactly |
| `DecimalShift.Decimal.Trim` | core/strconv/decimal.mojo:175-184 | the zeros at the end go and nothing else |
| `DecimalShift.WrittenCheats` | tools/gen/strconv.py:123-140 | the strings that are written are right for every shift, as the shift assumes |
| `DecimalShift.AllWritten` | core/strconv/decimal.mojo:284-297 | when the carry is used up, what has been written is the digits of the product |
| `DecimalShift.MoreDigits` | core/strconv/decimal.mojo:284-297 | while something is carried, the place the length was worked out for is not reached |
| `JsonSuite.Spec` | tools/gen/jsonsuite.py:199-207 | an entry is that of the narrowest unit that qualifies in all its copies and what is left, or plain hex exactly when no width qualifies |
| `JsonSuite.AsRepeat` | tools/gen/jsonsuite.py:179-196 | it ends, finds the narrowest unit that qualifies with every copy of it, and finds none exactly when there is none |
| `JsonSuite.BestIsOne` | tools/gen/jsonsuite.py:179-196 | there is one such answer, so a document has one entry |
| `JsonSuite.HexBytes` | tools/gen/jsonsuite.py:98-109 | hex read back is the bytes it was written from |
| `HexText.HexMeans` | tools/gen/jsonsuite.py:199-207 | each byte is its two hex digits, the higher half first |
| `JsonSuite.Document` | tools/gen/jsonsuite.py:126-151 | an entry, plain or repeated, with or without a tail, reads back as the bytes it was written for |
| `JsonSuite.Generated` | tools/gen/jsonsuite.py:210-227 | a table is written unless a name holds a comma, with the chosen entry for each file in order |
| `JsonSuite.SuiteCases` | tools/gen/jsonsuite.py:168-175 | reading a written table gives every file back if and only if there was at least one |
| `ZoneTable.PadOrder` | tools/gen/tzdata.py:115-127 | padding keeps different names different and in the same order |
| `ZoneTable.NumberBack` | core/time/tzdata/__init__.mojo:177-183 | a number is read back from its field if and only if the field is wide enough for it |
| `ZoneTable.ReadArchive` | tools/gen/tzdata.py:108-133 | an archive is refused exactly when a name is too long or holds a bad character; otherwise every name's place holds its file, two names share a place exactly when their files are the same, and the blob is the distinct files and nothing more |
| `ZoneTable.WriteRecords` | tools/gen/tzdata.py:97-105 | the index is one record for each name in order, a number too wide for its field included |
| `ZoneTable.RecordsWidth` | tools/gen/tzdata.py:97-105 | the records are all of the reader's width if and only if every number fits its field |
| `ZoneTable.RecordsAscend` | tools/gen/tzdata.py:97-105 | the name fields of the records ascend strictly |
| `ZoneTable.Find` | core/time/tzdata/__init__.mojo:134-174 | for every query at all, the search finds the record of that name, or nothing when there is none |
| `ZoneTable.Generate` | tools/gen/tzdata.py:97-179 | an archive is refused exactly when a name is bad; otherwise the database that is written serves it if and only if every file, and all the distinct files before it, are short enough for the index's two fields |
| `ZoneTable.Lookup` | core/time/tzdata/__init__.mojo:69-117 | for every query, the answer: UTC for the empty name and `UTC`, a refusal for what cannot be a zone name, the file of any other name in the archive, and an unknown zone for the rest; a file is given exactly for the names in the archive that pass both tests |
| `ZoneTable.IsZoneName` | core/time/tzdata/__init__.mojo:117-133 | a zone name is not empty, does not begin with a slash or a backslash, and has no two dots in a row |

## Left out

- Text below tokens: how numbers and strings are spelled, escapes, rounding of floats to 32 bits, NaN and infinities, and `at_field`, which only adds to an error's text.
- JsonWire.ScalarsExactly: on documents where a number written without a point or an exponent is whole, as it is in any text; the sign of a zero is below the model.
- The layout of emitted text: line wrapping in `Body.call`, docstrings, imports, `literal`, `escaped`, `moved`, and the few lines of `marshal_json` and `unmarshal_json` around the functions they call.
- Names a generated file could take from elsewhere: what it imports, and keywords; `CodecNames` lowers ASCII letters only.
- The two kinds of function of a file are read back as two texts, one of encoders and one of decoders, in the order they are written.
- `tags.suspicious`, and finding the tag in a docstring, which is regular expressions; the model starts from the tag's text.
- The wording of problems: the planner's reasons are counted and not spelled, and a struct that is refused is reported once.
- CodecPlan.Plan: takes the package as already read, one struct per path, with no dot in a struct's name and no field declared twice, which is what a Mojo package is.
- EncoderRuns.MarshalPrints: the interpreter's fuel counts calls, and any fuel of at least the document's length is enough; `DecoderRuns.UnmarshalRuns` likewise with twice the length of the input.
- Reading the Unicode files, the general categories, the Latin-1 bitmask and the names of tables.
- UnicodeOrbits.BuildOrbits: on databases whose fold targets are code points that do not fold again and where code point 0 has no mappings, since 0 is how the data spells none.
- UnicodeCases.RangesExactly: on databases of at most Unicode's size with mappings in it.
- UnicodeWords.In: on rows in order with a positive stride, which is what the rows copied into the XML tables are.
- SpawnChild.Child: the descriptor table, close on exec and the numbers given out; signal masks, sessions, groups and directories appear only as a step that may fail.
- SpawnChild.Arrange: on tables whose named sources are open and are not the report pipe, without which a closed number could be given out again.
- UnicodeFolds.FoldExceptions: on databases whose mappings are code points.
- SpawnProtocol.Answers: a write of one int is whole, other holders of the pipe's write end do not exist, and nobody else waits for the child.
- Signals.Take.CatchSignal: one caller at a time, no other code that installs the handler, and a fixed set of signals the system refuses to change; `is_ignored` only asks the system.
- PackageGraph.CheckGraph: on distinctly named packages; where a package lies is one flag, and the line that is printed on success is not modelled.
- DecimalShift.Decimal.Shift: to the left only; `_right_shift` and rounding are not modelled, nor are the other numbers of the float tables and the algorithms that read them.
- ZoneTable.ReadArchive: an archive is a map from names, so a zip that lists one name twice is not modelled; hashing and file reading are not either.
- `core/time` beyond the lookup: what a zone file means.
- Tables and harnesses with nothing exact to prove: `rand.py`, the differ, parity and fuzz tools, and the lints that search text.
