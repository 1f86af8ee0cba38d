# Verified models of the TOML engine and the B-tree

This project models the two components of the repository that hold its hardest logic, and proves
what they promise:

- the TOML engine in `cpp_binding_workspace_example/bind_cpp_macros/toml.hpp` (TOML v1.0.0, built
  without exceptions): the UTF-8 decoder and its readers, the parsers and printers of keys, strings,
  integers, dates, arrays and inline tables, the rules about which statement may extend which table,
  the tree transforms `flatten` and `prune`, and paths;
- the B-tree in `btree_example/src/lib.rs`: insertion with splitting, lookup, the in-order walk and
  the validity check.

`dafny verify dfyconfig.toml` checks everything. Each module has a file of its own.

## How the model is built

Code that changes state is modelled in place: the B-tree node and database, the decoder, the block
reader, the ring buffer, the document parser, the value parser, the formatter, and the arrays and
tables that are flattened and pruned are classes, and loops are loops. Every such method is proved
against a function of its inputs or of the old state, and the theorems are about those functions:
over every input, every run of `add`, or every run of statements.

Where two things are said to be inverse, the condition is stated exactly. The main results:

- **B-tree.** After any run of `add`, `walk` visits the added devices. For every order, all runs with
  at most k copies of an id are walked in order, and searched right, if and only if k is at most
  ceil(order / 2) or the order is 0, 1 or 3; the runs that go wrong at every other order are given.
  With distinct ids the walk ascends and `find` is a plain map. The validity check succeeds if and
  only if something was added and the order is at least 2 - with duplicates, too. The height is
  logarithmic.
- **Definitions.** `DefinitionMeanings` states the rules on nothing but the statements: what every path of
  keys means after them, and which statement is allowed next. A document is accepted if and only if every
  statement is allowed, and then every path of the store leads to what it means - a value with all its
  texts, elements and keys, or a table or array of tables of its kind - whatever statements follow.
  Documents only grow, closed inline tables are final, no two headers open the same table, different
  paths lead to different nodes, and a table is not defined twice; only one more table in an array on the
  way makes its path free again.
- **Text.** The table-driven decoder is the grammar of RFC 3629. Block reader and ring buffer refine
  a tape of positioned code points, and what a pointer into the block shows later on follows from the text.
- **Languages.** Strings, keys, integers, times, date-times and paths are given as grammars of their own, and
  the parsers read exactly their texts, as what they mean: every text of the grammar is read, and every
  text that is read is one of it. Arrays and inline tables are elements and pairs with exactly one comma
  between two of them, with blanks and comments where they may stand; an inline table is accepted if
  and only if its keys are unrelated, and holds exactly its pairs, in the order of its map. Numbers of every
  spelling go to the parser of their kind.
- **Values.** A value is read back from its printed text if and only if it is at most 128 deep and
  no string in it is printed over many lines in a way that loses it. For strings, dates, times,
  integers, keys and paths the same holds with their own conditions. What a path reaches is the node that
  an enumeration of the tree has under it.

Some facts about the code that the proofs brought out (line numbers are those of `toml.hpp`):

- A string printed over many lines is not read back if it begins with a line break, or if it is
  printed as a literal and has three single quotes in a row (16749-16756, 14173-14178).
- An empty path is printed as the empty text, which reads as one empty key, and an empty key directly
  before an index is lost (11032-11033, 11043). A malformed text makes an empty path, which leads to
  the root (11496-11500, 11747-11778).
- `parse_integer` remembers the previous code point by a pointer into the reader's block of 32 bytes
  (14764). When the current code point is the first of the next block, the pointer shows what that
  block has put into the slot (12900). `parse_value` looks ahead 127 code points first, and these
  stay in the history of the reader, so only binary, octal or hexadecimal numbers longer than that are
  affected. Some valid ones are refused and some malformed ones accepted: `StaleNumbers.MisreadNumber`
  states exactly which, and `RefusedInput` and `AcceptedInput` give a document for each.
- Looking for a time behind a date and a space, `parse_value` may read up to 130 code points ahead,
  three more than it can step back (15302-15336). `LookAheads.StepsBackWithinHistory` states exactly
  when it stays within the 127: always, unless there are at least 115 underscores in the date or behind it.
- A number such as `-_1` is taken for a signed single digit, so that the parser goes on in the
  middle of it (15392-15399); the model does the same.
- `parse_time` assumes that it begins at a digit (14934), which `parse_date_time` does not check
  behind the separator; such a text is refused all the same, and `DateTimes.ParseTime` asks for
  no digit.

## Reading the model

Text is a `string`: a `char` is a Unicode scalar value. That the code points of a byte stream are
these is what the modules `Utf8`, `Utf8Readers` and `BufferedReaders` are about. The current code
point `cp` of the parser is a position in the text, and an error return is `None`; which error it is,
and its message, is not modelled. A parser whose result is needed by several others takes the position
and returns the one behind what it read; `InlineParser` keeps it in a field.

A node of the document has one owner, so subtrees are values where nothing else points to them, and
entries of a store under ids where the parser keeps pointers (`Definitions`). A table lists its
entries in the order of its map. `Equal` compares as `operator==` does, without the formats of
integers.

Integer widths: `uint64_t` and `uint32_t` accumulators are modelled with their wrap-around, and proved
never to be affected by it; `length` of the B-tree is a natural number (`RunIsValid` bounds the run
where it matters).

## Model

| member | source | states |
|---|---|---|
| DeviceDatabases.Node.FindClosestIndex | btree_example/src/lib.rs:148-160 | the loop with its early exit finds the last device whose id is at most the key, as a rank among the entries |
| DeviceDatabases.Node.AddKey | btree_example/src/lib.rs:117-132 | both parallel vectors get the new device and child at the same place, behind every device with the same id |
| DeviceDatabases.Node.RemoveKey | btree_example/src/lib.rs:134-146 | gives out the entry at the rank, or the left child with no device, and removes exactly that |
| DeviceDatabases.Node.MoveUpper | btree_example/src/lib.rs:103-107 | popping from the back and adding keys one at a time gives the sibling the reinserted upper entries, and leaves the lower ones |
| DeviceDatabases.Node.Split | btree_example/src/lib.rs:94-111 | in place: the lower half stays, the middle device goes up, the rest goes to a fresh sibling; no `unwrap` fails |
| DeviceDatabases.DeviceDatabase.Add | btree_example/src/lib.rs:198-208 | keeps the invariant that the root is the pure insertion of everything added so far, for every order and with duplicates |
| DeviceDatabases.DeviceDatabase.AddR | btree_example/src/lib.rs:210-252 | the recursive insertion in place returns the pure one, counts one more device and never unwraps nothing |
| DeviceDatabases.DeviceDatabase.Overflow | btree_example/src/lib.rs:235-251 | splits exactly above the order; the root grows a level, other nodes hand up the middle device |
| DeviceDatabases.DeviceDatabase.FindDevice | btree_example/src/lib.rs:289-308 | over every run at the orders 0, 1 and 3, and otherwise over every run with at most ceil(order / 2) copies of each id: a stored device with the id exactly if one was added; with distinct ids, the device of the plain map |
| DeviceDatabases.DeviceDatabase.FindR | btree_example/src/lib.rs:296-308 | the descent by node and child is the search function |
| DeviceDatabases.DeviceDatabase.Walk | btree_example/src/lib.rs:310-314 | over every run: visits every added device as often as it was added, `length` of them; in non-descending order over every run at the orders 0, 1 and 3 and otherwise over those with at most ceil(order / 2) copies of each id, and strictly ascending exactly if no id was added twice |
| DeviceDatabases.DeviceDatabase.WalkInOrder | btree_example/src/lib.rs:316-330 | the loop over both vectors visits the in-order sequence |
| DeviceDatabases.DeviceDatabase.IsAValidBTree | btree_example/src/lib.rs:254-261 | over every run, duplicates allowed: true exactly if something was added and the order is at least 2 |
| BTreeOrder.AddKeeps | btree_example/src/lib.rs:198-252 | one insertion adds exactly the new device to the multiset of stored devices, through removal, reinsertion and splits |
| BTreeSorted.AddBelowInOrder | btree_example/src/lib.rs:210-252 | one insertion, with all splits it causes, keeps the walk in order if every subtree has k keys or more and no id comes to more than k + 1 copies |
| BTreeSorted.AddBelowInserts | btree_example/src/lib.rs:210-252 | below a node of an ascending tree, insertion of a new id puts the device at its place in the in-order walk, at every order |
| BTreeThrees.AddBelowThree | btree_example/src/lib.rs:210-252 | at order 3 one insertion keeps the walk in order whatever ids are stored |
| BTreeSpines.AddBelowSpine | btree_example/src/lib.rs:210-252 | at the orders 0 and 1, where every insertion splits up to the root, likewise |
| BTreeOrder.ReinsertIdentity | btree_example/src/lib.rs:103-107 | reinserting popped keys one by one restores their order if their ids ascend |
| BTreeRuns.RunKeepsEveryDevice | btree_example/src/lib.rs:198-252 | over every run the walk holds each device as often as it was added |
| BTreeLimits.RunStaysInOrder | btree_example/src/lib.rs:198-330 | over every run in which no id is added more than ceil(order / 2) times, and over every run at the orders 0, 1 and 3, the walk is in non-descending order |
| BTreeLimits.RunAnswers | btree_example/src/lib.rs:198-308 | over the same runs `find` answers for every id: with a device that was added under it, or that there is none |
| BTreeLimits.RunAgreesWithMap | btree_example/src/lib.rs:198-308 | over the same runs `find` agrees with a plain map on which ids are there, and on the device of every id that was added once |
| BTreeCopies.ExactCopyLimit | btree_example/src/lib.rs:94-111 | for every order and every k: all runs with at most k copies of an id are walked in order, and searched right, if and only if k is at most ceil(order / 2) or the order is 0, 1 or 3 |
| BTreeCopies.EvenMisses | btree_example/src/lib.rs:94-111 | a run for every even order from 4 on with one copy too many, after which a device that was added is not found |
| BTreeCopies.OddMisses | btree_example/src/lib.rs:103-107 | the same for every odd order from 5 on, where splitting the root reinserts two equal keys the wrong way round |
| BTreeRuns.FindAnswers | btree_example/src/lib.rs:296-308 | in a tree whose walk is in order, equal ids allowed, the search finds a device exactly if one is stored under the id |
| BTreeRuns.DuplicatesBreakSearch | btree_example/src/lib.rs:94-111 | the counterexample at order 2: adding one id twice puts the walk out of order and hides another device from `find` |
| BTreeShape.RunIsValid | btree_example/src/lib.rs:254-287 | over every run the validity check succeeds if and only if something was added and the order is at least 2 |
| BTreeShape.ValidateReports | btree_example/src/lib.rs:263-287 | on a tree with all leaves at one depth the check reports that depth and exactly whether every node keeps the key rules |
| BTreeShape.RunFills | btree_example/src/lib.rs:94-111 | over every run both halves of every split keep their minimum of keys, and no node exceeds the order |
| BTreeShape.HeightBound | btree_example/src/lib.rs:235-251 | with leaves at depth h, 2 * ceil(order / 2)^h - 1 devices or more have been added |
| BTreeShape.RunLength | btree_example/src/lib.rs:216-218 | `length` is the number of stored devices after any run |
| DocumentParsers.DocumentParser.ParseStatement | cpp_binding_workspace_example/bind_cpp_macros/toml.hpp:16037-16080 | the parser with its vectors of pointers accepts a statement exactly if the statements before it allow it, and then every path of its store leads to what it means |
| DocumentParsers.DocumentParser.ParseTableHeader | cpp_binding_workspace_example/bind_cpp_macros/toml.hpp:15783-15934 | a header changes the whole store as the header rule says, with promotion out of `implicit_tables`, or is refused |
| DocumentParsers.DocumentParser.EnterParents | cpp_binding_workspace_example/bind_cpp_macros/toml.hpp:15783-15846 | the loop over all but the last segment enters tables and arrays of tables, and creates implicit tables |
| DocumentParsers.DocumentParser.OpenLastSegment | cpp_binding_workspace_example/bind_cpp_macros/toml.hpp:15847-15934 | the last segment makes a table or an element, promotes an implicit table that holds only tables, or is a redefinition |
| DocumentParsers.DocumentParser.ParseKeyValuePairAndInsert | cpp_binding_workspace_example/bind_cpp_macros/toml.hpp:15972-16034 | the walk along dotted keys and the insertion change the store as the rule for pairs says, or fail |
| DocumentParsers.DocumentParser.ParseValue | cpp_binding_workspace_example/bind_cpp_macros/toml.hpp:15134-15146 | arrays and inline tables are built node by node, at most 128 deep |
| DefinitionTheorems.StepKeeps | cpp_binding_workspace_example/bind_cpp_macros/toml.hpp:15783-16034 | every accepted header or pair keeps the invariant of the parser's vectors, and only lets the document grow |
| DefinitionTheorems.RunGrows | cpp_binding_workspace_example/bind_cpp_macros/toml.hpp:15783-15934 | over every run no statement removes or changes an earlier definition, and arrays of tables are only appended to |
| DefinitionTheorems.InlineTablesAreFinal | cpp_binding_workspace_example/bind_cpp_macros/toml.hpp:16236-16318 | over every run a closed inline table and everything reachable from it never changes again |
| DefinitionTheorems.HeadersOpenOnce | cpp_binding_workspace_example/bind_cpp_macros/toml.hpp:15847-15933 | over every run the headers open as many tables as there are headers, all different, and never the root |
| DefinitionTheorems.DottedKeysAvoidHeaders | cpp_binding_workspace_example/bind_cpp_macros/toml.hpp:15985-16008 | no dotted key of any document passes through a table that a header has opened |
| DefinitionPaths.RunTree | cpp_binding_workspace_example/bind_cpp_macros/toml.hpp:15783-16034 | over every run no node outside of values has two parents, and the root has none |
| DefinitionPaths.OneLookup | cpp_binding_workspace_example/bind_cpp_macros/toml.hpp:15783-15846 | different paths of keys lead to different nodes, unless into values, also through the last elements of arrays of tables |
| DefinitionPaths.RedefinitionIsRejected | cpp_binding_workspace_example/bind_cpp_macros/toml.hpp:15847-15933 | a table may not be defined twice: after a header, a header of either kind with the same path is an error, whatever headers and pairs are between them but array headers on the way to it |
| DefinitionPaths.RedefinitionBehindArray | cpp_binding_workspace_example/bind_cpp_macros/toml.hpp:15847-15933 | right behind one more array header, the same header is an error if and only if that array is not on the way to it |
| DefinitionMeanings.RunIs | cpp_binding_workspace_example/bind_cpp_macros/toml.hpp:15783-16034 | on nothing but the statements: a document is accepted if and only if the path of every pair is free, only tables that dotted keys or headers passed and no header opened are on its way, its value may be built, and every header meets no value and finds a free path, an array of tables, or a table that was only passed by headers and holds only tables; then every path leads to what it means |
| DefinitionMeanings.PairAccepted | cpp_binding_workspace_example/bind_cpp_macros/toml.hpp:15972-16010 | over every run a pair is accepted exactly if the statements before it allow it |
| DefinitionMeanings.HeaderAccepted | cpp_binding_workspace_example/bind_cpp_macros/toml.hpp:15783-15934 | the same for headers of both kinds |
| DefinitionMeanings.PairIsHeld | cpp_binding_workspace_example/bind_cpp_macros/toml.hpp:16026-16034 | whatever follows a pair, its path leads to a node that shows its value - the same texts, elements and keys - unless an array header cuts the path off |
| DefinitionMeanings.ShownStays | cpp_binding_workspace_example/bind_cpp_macros/toml.hpp:16033-16033 | over every run a node keeps showing its value, also where no path leads there any more |
| DefinitionMeanings.HeaderLookups | cpp_binding_workspace_example/bind_cpp_macros/toml.hpp:15847-15934 | what a header does to every path of the document: its own leads to what it opens, those behind an array header are cut, all others stay |
| DefinitionContents.EvalIs | cpp_binding_workspace_example/bind_cpp_macros/toml.hpp:15134-15146 | a value is accepted exactly if it is at most 128 deep and no key of any of its inline tables is the same as another one or leads through it, and the new node shows exactly the value |
| DefinitionContents.WalkIs | cpp_binding_workspace_example/bind_cpp_macros/toml.hpp:15977-16010 | a dotted key is walked exactly if every table on its way that is there may be passed |
| DefinitionLookups.WalkDottedLookup | cpp_binding_workspace_example/bind_cpp_macros/toml.hpp:15977-16010 | the same by paths from the root, and after the walk only the paths along the key are new, each leading to a new table of a dotted key |
| DefinitionLookups.WalkHeaderLookup | cpp_binding_workspace_example/bind_cpp_macros/toml.hpp:15783-15846 | the same for headers, which add implicit tables |
| Utf8.TableState | cpp_binding_workspace_example/bind_cpp_macros/toml.hpp:9086-9132 | the 364-entry table and its masks compute the transition that ranges of bytes describe |
| Utf8.DecoderAccepts | cpp_binding_workspace_example/bind_cpp_macros/toml.hpp:9086-9132 | the decoder ends at a boundary on exactly the byte strings of the grammar in section 4 of RFC 3629, with their scalar values and bytes |
| Utf8.DecodeEncode | cpp_binding_workspace_example/bind_cpp_macros/toml.hpp:14020-14041 | decoding the bytes the parser emits for any sequence of escaped scalars gives the sequence back |
| Utf8.EncodeDecode | cpp_binding_workspace_example/bind_cpp_macros/toml.hpp:14020-14041 | every well-formed byte string is what the parser would emit for the scalars it decodes to |
| Utf8Readers.IsAscii | cpp_binding_workspace_example/bind_cpp_macros/toml.hpp:12555-12589 | the block test that ORs lanes of 16 bytes is true exactly if every byte is below 0x80 |
| Utf8Readers.Utf8Decoder.Put | cpp_binding_workspace_example/bind_cpp_macros/toml.hpp:9121-9132 | one byte through the table |
| Utf8Readers.Utf8Reader.DecodeBlock | cpp_binding_workspace_example/bind_cpp_macros/toml.hpp:12920-12984 | both the ASCII fast path and the slow path decode what the decoder makes of the bytes; the overlong branch is never reached |
| Utf8Readers.Utf8Reader.CalcPositions | cpp_binding_workspace_example/bind_cpp_macros/toml.hpp:12903-12918 | every code point of a block gets its line and column, and the next block starts where this one ends |
| Utf8Readers.PositionCounts | cpp_binding_workspace_example/bind_cpp_macros/toml.hpp:12903-12918 | a position is one plus the line feeds before it, and one plus the code points since the last of them |
| Utf8Readers.Utf8Reader.ReadNextBlock | cpp_binding_workspace_example/bind_cpp_macros/toml.hpp:12847-13000 | a block keeps the reader in step with decoding the consumed bytes at once, wherever 32-byte boundaries fall |
| Utf8Readers.Utf8Reader.ReadNext | cpp_binding_workspace_example/bind_cpp_macros/toml.hpp:13025-13041 | repeated reads hand out exactly the positioned code points of the whole text after an optional byte order mark; an error exactly if it is not UTF-8; the slot of the code point before shows what the layout of blocks says |
| Utf8Readers.EndWithin | cpp_binding_workspace_example/bind_cpp_macros/toml.hpp:12920-12984 | what has been decoded from the first n bytes of a text are the code points that end within them |
| Blocks.SlotBetween | cpp_binding_workspace_example/bind_cpp_macros/toml.hpp:12900-12933 | once the next block is read, the slot of its predecessor holds the code point at the same place of that block, or nothing |
| BufferedReaders.PushHolds | cpp_binding_workspace_example/bind_cpp_macros/toml.hpp:13137-13140 | overwriting the oldest slot keeps the ring holding the end of the past, also where it wraps around |
| BufferedReaders.BufferedReader.ReadNext | cpp_binding_workspace_example/bind_cpp_macros/toml.hpp:13111-13147 | under any interleaving with steps back it returns the tape element at the cursor, and for well-formed text the tape is the text |
| BufferedReaders.BufferedReader.StepBack | cpp_binding_workspace_example/bind_cpp_macros/toml.hpp:13150-13162 | within the history it moves the cursor back and returns the element there |
| BufferedReaders.BufferedReader.HistoryReaches | cpp_binding_workspace_example/bind_cpp_macros/toml.hpp:13150-13158 | from the head the bound for a step back is met exactly up to 127 code points |
| BufferedReaders.BufferedReader.CurrentIsAt | cpp_binding_workspace_example/bind_cpp_macros/toml.hpp:13111-13162 | the slot or head the parser looks at is the tape element at the cursor |
| ArrayFlatten.TomlArray.Flatten | cpp_binding_workspace_example/bind_cpp_macros/toml.hpp:12063-12109 | in place, the array becomes the left-to-right concatenation of all leaves that are not arrays; every slot is filled exactly once |
| ArrayFlatten.TomlArray.FlattenChild | cpp_binding_workspace_example/bind_cpp_macros/toml.hpp:12046-12060 | moves the leaves of a child, in order, into empty slots, and ends behind them |
| ArrayFlatten.TomlArray.PreinsertionResize | cpp_binding_workspace_example/bind_cpp_macros/toml.hpp:11909-11922 | moves the tail up from its end to make room, without losing an element |
| ArrayFlatten.TomlArray.EraseHollow | cpp_binding_workspace_example/bind_cpp_macros/toml.hpp:12068-12087 | erasing from the back drops exactly the arrays without leaves, and tells whether any other array is left |
| ArrayFlatten.TotalLeafCount | cpp_binding_workspace_example/bind_cpp_macros/toml.hpp:12034-12043 | the recursive count is the number of leaves |
| ArrayFlatten.AllLeavesAreFlat | cpp_binding_workspace_example/bind_cpp_macros/toml.hpp:12063-12109 | no leaf of the flattened array is an array |
| Prune.NodeArray.Prune | cpp_binding_workspace_example/bind_cpp_macros/toml.hpp:12112-12136 | erasing by index from the back leaves the pruned elements |
| Prune.NodeTable.Prune | cpp_binding_workspace_example/bind_cpp_macros/toml.hpp:12420-12453 | erasing through the iterator leaves the pruned entries |
| Prune.PrunedHasNoEmpty | cpp_binding_workspace_example/bind_cpp_macros/toml.hpp:12112-12136 | a pruned tree has no empty table or array below its root |
| Prune.PruneKeepsScalars | cpp_binding_workspace_example/bind_cpp_macros/toml.hpp:12112-12136 | pruning keeps every scalar with the keys above it, in the same order |
| Prune.PrunedIsSame | cpp_binding_workspace_example/bind_cpp_macros/toml.hpp:12420-12453 | a tree is left as it is if and only if nothing below its root is empty |
| Prune.PruneTwice | cpp_binding_workspace_example/bind_cpp_macros/toml.hpp:12420-12453 | pruning is idempotent |
| Paths.ParsePath | cpp_binding_workspace_example/bind_cpp_macros/toml.hpp:11026-11202 | the loop with its callbacks is a fold over the components the text denotes, stopping where a callback declines or the text is malformed |
| Paths.PrintTo | cpp_binding_workspace_example/bind_cpp_macros/toml.hpp:11510-11529 | the printer's loop writes the components with their dots and brackets |
| Paths.PathOf | cpp_binding_workspace_example/bind_cpp_macros/toml.hpp:11476-11503 | the components of a text, none if it is malformed |
| Paths.PathRoundTrip | cpp_binding_workspace_example/bind_cpp_macros/toml.hpp:11026-11202 | parsing what was printed gives the components back if and only if there are any, the keys are free of dots and brackets, and no empty key directly precedes an index |
| Paths.ParsePrinted | cpp_binding_workspace_example/bind_cpp_macros/toml.hpp:11510-11529 | printed components with such keys are read back without the empty keys before an index |
| PathGrammar.PathIsRead | cpp_binding_workspace_example/bind_cpp_macros/toml.hpp:11026-11202 | every text of the grammar of paths - indices with blanks, leading zeroes or no closing bracket, too - is read as its components, without the empty keys right before an index |
| PathGrammar.ReadPath | cpp_binding_workspace_example/bind_cpp_macros/toml.hpp:11026-11202 | every text that is read as a path is one of that grammar, with those components |
| Paths.AtText | cpp_binding_workspace_example/bind_cpp_macros/toml.hpp:11209-11251 | the walk driven by the text, callback by callback |
| Paths.AtComponents | cpp_binding_workspace_example/bind_cpp_macros/toml.hpp:11737-11779 | the walk over components |
| Paths.WalksAgree | cpp_binding_workspace_example/bind_cpp_macros/toml.hpp:11737-11779 | the two walks reach the same node, or both none, if and only if the text is a path or the root is a value or empty |
| TreeNodes.ComponentsReach | cpp_binding_workspace_example/bind_cpp_macros/toml.hpp:11737-11779 | components lead to a node if and only if the enumeration of the tree has the node under them: elements numbered from the left, entries by key |
| TreeNodes.PrintedPathReaches | cpp_binding_workspace_example/bind_cpp_macros/toml.hpp:11209-11251 | the printed path of every node of a tree leads back to that node, if its keys are clean and none of its components is lost |
| Integers.ParseInteger | cpp_binding_workspace_example/bind_cpp_macros/toml.hpp:14725-14872 | the whole of `parse_integer` succeeds exactly if the digits are well spaced, at most 128, without a forbidden leading zero, and denote a number that fits 64 bits, and returns that number |
| Integers.ConsumeDigits | cpp_binding_workspace_example/bind_cpp_macros/toml.hpp:14761-14794 | the loop with its underscore rules collects the digits of a well spaced integer up to the end of the value, and refuses everything else |
| Integers.Convert | cpp_binding_workspace_example/bind_cpp_macros/toml.hpp:14796-14871 | trimming, digit limits, accumulation and range check give the denoted number exactly if it fits |
| Integers.Accumulate | cpp_binding_workspace_example/bind_cpp_macros/toml.hpp:14837-14851 | the wrapping accumulator and its power never wrap in a way that matters: the result is the denoted number |
| Integers.UnderscoresBetweenDigits | cpp_binding_workspace_example/bind_cpp_macros/toml.hpp:14765-14794 | where pointers show what was read, well spaced means that every underscore has a digit on both sides (TOML v1.0.0, Integer) |
| IntegerGrammar.IntegerIsRead | cpp_binding_workspace_example/bind_cpp_macros/toml.hpp:14725-14872 | every integer of the language is read as its number: a sign or the prefix of the base, and digits with single underscores between them that are, for decimal numbers, the printed ones |
| IntegerGrammar.ReadInteger | cpp_binding_workspace_example/bind_cpp_macros/toml.hpp:14725-14872 | every integer that is read is one of the language, without a leading zero in decimal |
| IntegerSpellings.AnyCaseReads | cpp_binding_workspace_example/bind_cpp_macros/toml.hpp:9009-9015 | every text that gives the hexadecimal digits of a number once its letters are upper-cased denotes the number |
| IntegerSpellings.IntegerInAnyCase | cpp_binding_workspace_example/bind_cpp_macros/toml.hpp:14837-14851 | texts that differ only in the case of hexadecimal digits are read as the same integer |
| IntegerSpellings.CodePointInAnyCase | cpp_binding_workspace_example/bind_cpp_macros/toml.hpp:14003-14018 | and as the same code point of an escape |
| IntegerSpellings.UnderscoreIsDropped | cpp_binding_workspace_example/bind_cpp_macros/toml.hpp:14761-14794 | a number with an underscore inside is read as the one without it |
| IntegerSpellings.PlusIsDropped | cpp_binding_workspace_example/bind_cpp_macros/toml.hpp:14733-14738 | a plus sign before a decimal number does not change what is read |
| StalePointers.ReaderShows | cpp_binding_workspace_example/bind_cpp_macros/toml.hpp:12847-13041 | what pointers into a block show follows from the UTF-8 lengths of the characters of the text alone, and is what the slots of the block reader hold |
| StalePointers.Misread | cpp_binding_workspace_example/bind_cpp_macros/toml.hpp:14761-14794 | `parse_integer` refuses a valid number, or accepts a malformed one, exactly under stated conditions on the text and the position of the value |
| StalePointers.ShortIsNotMisread | cpp_binding_workspace_example/bind_cpp_macros/toml.hpp:14764-14794 | a number that ends within the look-ahead is never misread |
| StaleNumbers.MisreadNumber | cpp_binding_workspace_example/bind_cpp_macros/toml.hpp:15174-15463 | at every place of every document, the number read differs from the rules of TOML exactly if it is binary, octal or hexadecimal and meets one of these conditions |
| StaleNumbers.RefusedInput | cpp_binding_workspace_example/bind_cpp_macros/toml.hpp:14765-14774 | a document with a valid number that is refused: 0x, 126 zeros and _1 from byte 32 to the end of the file |
| StaleNumbers.AcceptedInput | cpp_binding_workspace_example/bind_cpp_macros/toml.hpp:14765-14774 | a document with a malformed number that is accepted: 0x, 125 zeros and __1 from byte 32, with a digit in the comment behind it |
| Integers.PrintInteger | cpp_binding_workspace_example/bind_cpp_macros/toml.hpp:16873-16918 | the chosen base and prefix, and the digits of the number in it |
| Integers.IntegerRoundTrip | cpp_binding_workspace_example/bind_cpp_macros/toml.hpp:16873-16918 | every `int64_t`, the minimum included, in every base it can be printed in, is read back |
| Numerals.TextRoundTrip | cpp_binding_workspace_example/bind_cpp_macros/toml.hpp:10430-10513 | reading the digits of a number gives the number |
| Numerals.PaddedText | cpp_binding_workspace_example/bind_cpp_macros/toml.hpp:10430-10480 | zero padding gives the asked width and does not change the number |
| DateTimes.ParseDate | cpp_binding_workspace_example/bind_cpp_macros/toml.hpp:14876-14925 | reads exactly the valid date that stands there, and outside a date-time only where the value ends |
| DateTimes.DateExactly | cpp_binding_workspace_example/bind_cpp_macros/toml.hpp:10697-10704 | a date is read at a place if and only if it is valid (RFC 3339, section 5.7 and Appendix C) and its printed text stands there |
| DateTimes.ParseTime | cpp_binding_workspace_example/bind_cpp_macros/toml.hpp:14930-15014 | reads exactly the valid time that stands there, its fraction scaled to nanoseconds |
| DateTimes.ScaleFraction | cpp_binding_workspace_example/bind_cpp_macros/toml.hpp:15003-15012 | both scaling loops in 32 bits compute the nanoseconds of any fraction without wrapping |
| DateTimes.FractionTruncates | cpp_binding_workspace_example/bind_cpp_macros/toml.hpp:15003-15012 | a fraction of any length is truncated to nanoseconds |
| DateTimes.PrintFraction | cpp_binding_workspace_example/bind_cpp_macros/toml.hpp:10716-10724 | the loop that drops trailing zeroes |
| DateTimes.PrintTime | cpp_binding_workspace_example/bind_cpp_macros/toml.hpp:10707-10726 | the text of a time |
| DateTimes.FractionRoundTrip | cpp_binding_workspace_example/bind_cpp_macros/toml.hpp:10714-10725 | the scaling loops undo the loop that drops the zeroes |
| DateTimes.TimeRoundTrip | cpp_binding_workspace_example/bind_cpp_macros/toml.hpp:10707-10726 | a printed time is read back if and only if it is within the parser's limits |
| DateTimes.ParseDateTime | cpp_binding_workspace_example/bind_cpp_macros/toml.hpp:15018-15082 | reads exactly the valid date-time that stands there up to the end of the value |
| DateTimes.PrintDateTime | cpp_binding_workspace_example/bind_cpp_macros/toml.hpp:10729-10765 | the text of a date-time with its offset |
| DateTimes.MomentRoundTrip | cpp_binding_workspace_example/bind_cpp_macros/toml.hpp:10758-10765 | a printed date-time is read back if and only if its date, time and offset are valid |
| MomentGrammar.TimeIsRead | cpp_binding_workspace_example/bind_cpp_macros/toml.hpp:14930-15014 | every time of the language, with a fraction of up to 64 digits, is read |
| MomentGrammar.ReadTime | cpp_binding_workspace_example/bind_cpp_macros/toml.hpp:14930-15014 | every time that is read is one of the language: its clock, and the fraction its nanoseconds come from |
| MomentGrammar.MomentIsRead | cpp_binding_workspace_example/bind_cpp_macros/toml.hpp:15018-15082 | every date-time of the language is read: `T`, `t` or a space, any fraction, and `Z`, `z`, hours and minutes or no offset |
| MomentGrammar.ReadMoment | cpp_binding_workspace_example/bind_cpp_macros/toml.hpp:15018-15082 | every date-time that is read is one of the language, with that date, time and offset |
| MomentSpellings.RespelledReads | cpp_binding_workspace_example/bind_cpp_macros/toml.hpp:15018-15030 | a text with a space or `t` for `T`, or `z` for `Z`, is read as the one with the printed spelling |
| MomentSpellings.RespelledRoundTrip | cpp_binding_workspace_example/bind_cpp_macros/toml.hpp:15018-15082 | a printed date-time in another spelling is read back if and only if it is valid |
| MomentSpellings.FractionIsRead | cpp_binding_workspace_example/bind_cpp_macros/toml.hpp:14984-15012 | a fraction is read exactly if it has at most 64 digits, and gives the nanoseconds of its first nine |
| StringPrinter.PrintString | cpp_binding_workspace_example/bind_cpp_macros/toml.hpp:16622-16864 | the scan, the choice between bare, literal and escaped, and the escapes, under all flags |
| StringPrinter.ScanTraits | cpp_binding_workspace_example/bind_cpp_macros/toml.hpp:16633-16722 | the scan computes exactly which kinds of characters occur |
| StringPrinter.TextIsAscii | cpp_binding_workspace_example/bind_cpp_macros/toml.hpp:16622-16864 | where unicode is not allowed, every string is printed in ASCII |
| StringPrinter.TextMayStand | cpp_binding_workspace_example/bind_cpp_macros/toml.hpp:16622-16864 | line breaks and tabs are printed as they are only where the use and the flags allow it, other control characters never |
| StringPrinter.TextIsQuoted | cpp_binding_workspace_example/bind_cpp_macros/toml.hpp:16622-16722 | single quotes are used only where literal strings are allowed, and only bare keys stand without quotes |
| StringParser.ParseBasicString | cpp_binding_workspace_example/bind_cpp_macros/toml.hpp:13920-14158 | the loop with its two flags reads what rounds of the string grammar add up to |
| StringParser.ParseLiteralString | cpp_binding_workspace_example/bind_cpp_macros/toml.hpp:14162-14261 | the same for literal strings |
| StringParser.ParseString | cpp_binding_workspace_example/bind_cpp_macros/toml.hpp:14265-14310 | looks at three characters, goes back or not, and reads the string that stands there |
| StringParser.ParseCodePoint | cpp_binding_workspace_example/bind_cpp_macros/toml.hpp:13999-14018 | the loop with the falling place value reads exactly the scalar the digits denote, without wrapping |
| StringParser.CountQuotes | cpp_binding_workspace_example/bind_cpp_macros/toml.hpp:14058-14100 | the look-ahead tells quotes inside a multi-line string from its end, up to five of them |
| StringGrammar.StringIsRead | cpp_binding_workspace_example/bind_cpp_macros/toml.hpp:14265-14310 | every string of the grammar of TOML - literal and escaped characters, line breaks, quotes and continued lines, on one line or many - is read as what it means |
| StringGrammar.ReadString | cpp_binding_workspace_example/bind_cpp_macros/toml.hpp:14265-14310 | every string that is read is one of that grammar |
| StringGrammar.ItemsRead | cpp_binding_workspace_example/bind_cpp_macros/toml.hpp:13920-14261 | what stands between the delimiters is read item by item as what the items mean |
| StringGrammar.ContinuationVanishes | cpp_binding_workspace_example/bind_cpp_macros/toml.hpp:13946-13959 | in every multi-line basic string a backslash with spaces, a line break and all blanks and line breaks behind it is read as if it were not there |
| StringGrammar.EscapeIsShortest | cpp_binding_workspace_example/bind_cpp_macros/toml.hpp:16759-16860 | no escape of a character is shorter than the printed one |
| StringRoundTrips.StringRoundTrip | cpp_binding_workspace_example/bind_cpp_macros/toml.hpp:16622-16864 | under every combination of flags a printed string is read back if and only if it does not begin with a line break on many lines, nor has three single quotes in a multi-line literal; otherwise another string is read |
| StringRoundTrips.EscapedReads | cpp_binding_workspace_example/bind_cpp_macros/toml.hpp:16759-16860 | every escaped text, on one line or many, is read as the text it was printed for |
| StringRoundTrips.MultiLineReads | cpp_binding_workspace_example/bind_cpp_macros/toml.hpp:14185-14225 | a multi-line literal is read back if and only if it has no three quotes in a row; otherwise it ends too early |
| Keys.ParseKey | cpp_binding_workspace_example/bind_cpp_macros/toml.hpp:15621-15693 | the loop over segments and dots reads the list of segments that stands there |
| Keys.PrintKeyPath | cpp_binding_workspace_example/bind_cpp_macros/toml.hpp:17306-17315 | the printer's loop joins the printed keys by dots |
| Keys.KeyReads | cpp_binding_workspace_example/bind_cpp_macros/toml.hpp:17162-17165 | every key, printed bare, literal or escaped, is read back |
| Keys.KeysRead | cpp_binding_workspace_example/bind_cpp_macros/toml.hpp:15621-15693 | any printed list of keys is read back with the blanks behind it, and refused beyond 1024 |
| Keys.KeyPathRoundTrip | cpp_binding_workspace_example/bind_cpp_macros/toml.hpp:15621-15693 | `parse_key` on printed keys joined by dots returns exactly that list if there are at most 1024 of them |
| KeyGrammar.KeyIsRead | cpp_binding_workspace_example/bind_cpp_macros/toml.hpp:15621-15693 | every key of the grammar of TOML - bare and quoted segments, blanks around the dots - is read as its names, and refused beyond 1024 |
| KeyGrammar.ReadKey | cpp_binding_workspace_example/bind_cpp_macros/toml.hpp:15621-15693 | every key that is read is one of that grammar |
| ValueKinds.ScanAhead | cpp_binding_workspace_example/bind_cpp_macros/toml.hpp:15216-15336 | the look-ahead with its second scan for a time behind a space collects the traits of the value, and how far the reader has to go back |
| LookAheads.StepsBackWithinHistory | cpp_binding_workspace_example/bind_cpp_macros/toml.hpp:15296-15336 | the step back after the look-ahead stays within the history if and only if the value does not begin with a date spread over nearly all of it and a space |
| LookAheads.LongDateInput | cpp_binding_workspace_example/bind_cpp_macros/toml.hpp:15296-15336 | such a value: any date followed by 117 underscores and a space |
| ValueKinds.KindBegins | cpp_binding_workspace_example/bind_cpp_macros/toml.hpp:15551-15605 | dates, times and date-times are only chosen for values that begin with a digit |
| PrintedNumbers.IntegerReads | cpp_binding_workspace_example/bind_cpp_macros/toml.hpp:15174-15463 | every printed integer is classified as one, in its base, and read back |
| PrintedNumbers.DateReads | cpp_binding_workspace_example/bind_cpp_macros/toml.hpp:15174-15566 | every printed date is told from integers and date-times, and read back |
| PrintedNumbers.TimeReads | cpp_binding_workspace_example/bind_cpp_macros/toml.hpp:15174-15561 | every printed time is recognised and read back |
| PrintedNumbers.MomentReads | cpp_binding_workspace_example/bind_cpp_macros/toml.hpp:15174-15606 | every printed date-time, with any offset, is recognised and read back |
| NumberTokens.IntegerTokenReads | cpp_binding_workspace_example/bind_cpp_macros/toml.hpp:15174-15452 | every integer of the language, within the look-ahead, is recognised in its base and read as its number |
| NumberTokens.FloatTokenReads | cpp_binding_workspace_example/bind_cpp_macros/toml.hpp:15389-15517 | every float of the language, with a fraction, an exponent or both, goes to the parser of floats |
| NumberTokens.SpecialFloatReads | cpp_binding_workspace_example/bind_cpp_macros/toml.hpp:15117-15128 | infinities and not-a-numbers, with a sign or without, go to their parser |
| NumberTokens.TimeTokenReads | cpp_binding_workspace_example/bind_cpp_macros/toml.hpp:15552-15565 | every time of the language is recognised and read |
| NumberTokens.MomentTokenReads | cpp_binding_workspace_example/bind_cpp_macros/toml.hpp:15302-15336 | every date-time of the language is recognised and read, also with a space, where the look-ahead goes on behind the date |
| NumberTokens.ReadDateOrTime | cpp_binding_workspace_example/bind_cpp_macros/toml.hpp:15552-15606 | a date, time or date-time that is read is one of the language, and ends where a value may end |
| InlineParsers.InlineParser.ParseValue | cpp_binding_workspace_example/bind_cpp_macros/toml.hpp:15134-15618 | the recursive descent with its depth counter moves the position exactly as the grammar of values says, and restores the counter |
| InlineParsers.InlineParser.ParseArray | cpp_binding_workspace_example/bind_cpp_macros/toml.hpp:16167-16233 | the loop over elements, commas, blanks and comments |
| InlineParsers.InlineParser.ParseInlineTable | cpp_binding_workspace_example/bind_cpp_macros/toml.hpp:16236-16318 | the loop over pairs and commas, without line breaks or a dangling comma |
| InlineParsers.InlineParser.ParseKeyValuePairAndInsert | cpp_binding_workspace_example/bind_cpp_macros/toml.hpp:15938-16034 | a pair enters an inline table exactly if its key is new there |
| InlineParsers.InlineParser.ParseNumber | cpp_binding_workspace_example/bind_cpp_macros/toml.hpp:15174-15611 | after the look-ahead, the choice of a parser by traits, and what it reads from the beginning of the value |
| InlineParsers.InlineParser.ParseBoolean | cpp_binding_workspace_example/bind_cpp_macros/toml.hpp:14336-14357 | exactly the lower-case words, before the end of a value |
| InlineParsers.InlineParser.ConsumeBlanks | cpp_binding_workspace_example/bind_cpp_macros/toml.hpp:16189-16191 | whitespace, line breaks and comments |
| InlinePrinters.TomlFormatter.PrintArray | cpp_binding_workspace_example/bind_cpp_macros/toml.hpp:17205-17267 | one line or many, the text of the array, with the indentation restored |
| InlinePrinters.TomlFormatter.PrintInline | cpp_binding_workspace_example/bind_cpp_macros/toml.hpp:17168-17202 | the text of an inline table |
| InlinePrinters.TomlFormatter.Print | cpp_binding_workspace_example/bind_cpp_macros/toml.hpp:17191-17198 | the text of any value at the current indentation |
| InlineRoundTrips.EqualArrays | cpp_binding_workspace_example/bind_cpp_macros/toml.hpp:12151-12172 | the element-wise comparison is equality apart from the formats of integers |
| InlineRoundTrips.EqualTables | cpp_binding_workspace_example/bind_cpp_macros/toml.hpp:12469-12494 | the comparison in map order is equality of keys and values apart from the formats of integers |
| InlineRoundTrips.EntriesKeep | cpp_binding_workspace_example/bind_cpp_macros/toml.hpp:15972-16034 | whatever is read into an inline table, the values that are in it stay |
| InlineRoundTrips.ElementsRead | cpp_binding_workspace_example/bind_cpp_macros/toml.hpp:16167-16233 | the printed elements of an array, at any depth and on any layout, are read back exactly if each of them can be |
| InlineRoundTrips.EntriesRead | cpp_binding_workspace_example/bind_cpp_macros/toml.hpp:16236-16318 | the printed entries of an inline table, likewise, in the order of its map |
| InlineRoundTrips.InlineRoundTrip | cpp_binding_workspace_example/bind_cpp_macros/toml.hpp:17168-17267 | the text printed for a value is read as an equal value if and only if the value is nested at most 128 deep and none of its strings is lost, and as the same value if and only if its formats are kept, too |
| InlineRoundTrips.FormatsAreKept | cpp_binding_workspace_example/bind_cpp_macros/toml.hpp:16873-16918 | what is read back is the very same value, formats of integers included, exactly if the flags let every integer be printed in its own |
| InlineRoundTrips.NewlineFreeIsNotLost | cpp_binding_workspace_example/bind_cpp_macros/toml.hpp:16749-16756 | only strings with line breaks can be lost |
| InlineTables.InlineTableIs | cpp_binding_workspace_example/bind_cpp_macros/toml.hpp:16236-16318 | an inline table is accepted if and only if its pairs can be read and no key is the same as another one or leads through it; then it holds every pair under its keys, and nothing else |
| InlineTables.AddedIsThere | cpp_binding_workspace_example/bind_cpp_macros/toml.hpp:15985-16034 | a pair that may be added stands under its dotted key |
| InlineTables.OthersStay | cpp_binding_workspace_example/bind_cpp_macros/toml.hpp:15985-16034 | and everything stays that is neither on the way to it nor below it, also in a table that another dotted key has made |
| InlineTables.CanAddIs | cpp_binding_workspace_example/bind_cpp_macros/toml.hpp:15977-16010 | a key may be added exactly if it is new and all that stands on its way are tables of dotted keys |
| InlineTables.GetPathFollows | cpp_binding_workspace_example/bind_cpp_macros/toml.hpp:11737-11779 | looking up a dotted key is following a path of nothing but keys |
| InlineOrders.ReadInOrder | cpp_binding_workspace_example/bind_cpp_macros/toml.hpp:16033-16033 | every table in a value that is read lists its keys in order, all the way down |
| InlineOrders.LessIs | cpp_binding_workspace_example/bind_cpp_macros/toml.hpp:7753-7753 | that order is the dictionary order of the map: a beginning comes first, otherwise the first difference decides |
| InlineLayouts.ArrayIsLaidOut | cpp_binding_workspace_example/bind_cpp_macros/toml.hpp:16167-16233 | what is read as an array is elements with exactly one comma between two of them and perhaps a dangling one, with blanks and comments anywhere, and every such array is read |
| InlineLayouts.TableIsLaidOut | cpp_binding_workspace_example/bind_cpp_macros/toml.hpp:16236-16318 | the same for inline tables, without line breaks, comments or a dangling comma |
| InlineLayouts.GapsSkip | cpp_binding_workspace_example/bind_cpp_macros/toml.hpp:16189-16191 | spaces, line breaks and comments in any order are skipped |
| InlineLayouts.GapsStand | cpp_binding_workspace_example/bind_cpp_macros/toml.hpp:13826-13850 | nothing but those is skipped, and all of them |
| InlineLayouts.PlacedAreRead | cpp_binding_workspace_example/bind_cpp_macros/toml.hpp:16167-16233 | blanks, line breaks and comments around printed elements and a dangling comma do not change what is read |

## Left out

- Floats, infinities and not-a-numbers: their conversion is done by code that is not visible. The value parser takes an arbitrary parser of floats as a parameter, and printing an arbitrary function; the round trip is for values without floats.
- Full documents as text: headers, indentation and separators between sections are not printed or parsed; `Definitions` starts from the keys and values of statements.
- Error positions, error messages and source regions; the recording buffer.
- Reading from files and streams: the block reader reads from a byte sequence, and I/O errors do not occur.
- Malformed UTF-8 in strings that are printed.
- Whether an array is too wide for one line: the formatter's estimate uses floating-point logarithms, so the decision is an arbitrary function of the array and its indentation, and the round trip holds for all of them.
- `InlineRoundTrips.InlineRoundTrip`: for indentation strings of spaces and tabs, since any other would be read as part of the array.
- `std::to_chars` and the lower-to-upper conversion behind it: `Numerals.ToText` gives the upper-case digits at once.
- `InlineParsers.InlineParser.ParseNumber`: where the step back after the look-ahead is not within the history (exactly at a `LookAheads.LongDate`) the source relies on an assumption that does not hold; the model goes on from the beginning of the value all the same.
- Boxes of the B-tree and `node_ptr` children that have one owner are values in the field that owns them; a node is unboxed into an object while it is changed. Moving such a child between owners is a copy in the model.
- The two loops of `print_string` over ASCII and over decoded text do the same to each code point, and are one loop over code points.
- Dotted keys inside inline tables are modelled twice: with shared nodes in `Definitions`, where the rules over whole documents are proved, and on values in `InlineGrammar`, where inline text is read.
- JSON and YAML formatters, visitors, iterators, node views, comparison of floats, wide strings.
- The other examples of the repository: the binary search tree, the queues and stacks, the bloom filter, networking and bindings.
