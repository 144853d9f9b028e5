# ELM and GEL: verified models of their hard components

ELM is a library of data structures, GEL a reader of ELF and DWARF files. This Dafny project models the
components whose correctness is hardest to see from the code and proves what they promise. Imperative code
is modelled by methods and classes with loops, proved against functions; what the code promises is then
proved about these functions as lemmas.

`dafny verify dfyconfig.toml` checks everything.

## Components

| modules | component |
|---|---|
| Bits, WahWords, WahBuilder, WahLogic, WahVector, WahOperations, WahSafety | compressed bit vectors (WAH): words, the packing builder, the iterator, every operation, and exactly when packing loses a group |
| AvlTree, AvlOrder, AvlHeap, AvlInsert, AvlGenTree, AvlDelete, AvlGenRemove, AvlKeyRemove | the iterative AVL tree: links and balances in an arena of cells, path arrays, insertion, removal |
| AvlRecursive | the recursive AVL tree with stored heights, and its agreement with the iterative one |
| Leb128, LineProgram, LineReader, LineStandard, LineOpcodes, LineTable, LineRows, LineWriter, LinePool, LineEmitted, LineWhole, LineExample | DWARF line programs: variable-length integers, operations, the reader, the standard's state machine and exactly when the reader meets it, tables of rows written with any mix of operations, the pool of rows, and the way from bytes to the line of an address |
| LineSegs, LineMap, LineLookup, LineAddrIter, LineIter, LineMapResults | the line map built from the rows, its lookups and its two iterations |
| BlockLayout, BlockGC | the block allocator with garbage collection |
| ClusterSearch, Clusters | grouping memory blocks into clusters |
| PrintText, ScanText, PrintScan, ScanBases | printing and scanning integers |
| Plugins | the plugin life cycle |
| Fletcher | Fletcher's checksum: streams of bytes, the two sums and their packing |
| Unserializer, UnserializerFlush, UnserializerOrder | back-patching of references between unserialized objects, the flush, and exactly when it leaves every pointer on its object |
| Arith, Shifts, Collections, Options | products, quotients, 32-bit words, shifts, sequences without repetition and optional values |

## Where the code does not do what it seems to promise

Each of these is stated in the model as the code has it, with the exact condition or a concrete input.

- `fix` of the WAH builder looks at bit 30 of the word before the last without testing that this word is a
  fill. `WahBuilder.LosesGroup` is the exact condition under which one group of 31 bits disappears. It never
  holds for AND, AND-NOT and NOT (`WahOperations.AlwaysSafe`); for OR, set and clear it can
  (`WahSafety.OrCounterexample`, `WahSafety.SetCounterexample`, `WahSafety.ClearCounterexample`), exactly under
  the conditions of `WahLogic.OrLoses`, `WahSafety.SetLoses` and `WahSafety.ClearLoses`.
- `makeAnd`, `makeOr`, `makeReset` and `makeNot` leave `rem` at 0: the result has the operands' length only if
  they end on a whole group (`WahSafety.Make`, `WahSafety.MakeNot`). Negating twice with `makeNot` gives the
  words back exactly for vectors that end on a whole group or with a fill (`WahSafety.MakeNotTwice`).
- The multiplication that replaces a division by 31 is exact up to 4638218 and wrong at 4638219
  (`WahWords.DivExact`).
- `GenTree::remove` passes a path array without the pseudo-root. Removing a root that has a right child reads
  and writes index -1 of the array. Otherwise the root's balance is never updated, so the tree stays an AVL
  tree if and only if the subtree below the root does not get lower (`AvlKeyRemove.RemovedBalanced`). Further
  removals work all the same (`AvlKeyRemove.RemovedSides`); an insertion follows a null link exactly when it
  goes to an empty side that the root takes for heavier (`AvlGenTree.InsertableExact`,
  `AvlKeyRemove.InsertAfterRemove`, `AvlKeyRemove.NullFollowed`).
  The assertion in its search loop is inverted; the model has the behaviour without assertions.
- The line-program reader does not reset the address and the ISA after an end of sequence. Programs that fit
  its registers get the standard's rows exactly when every sequence that begins with such a register left over
  sets it before its first row (`LineStandard.ReaderMeetsStandard`, `LineStandard.StaleAddress`).
- It treats opcodes 1 to 12 as standard and the others as special whatever the header says: every opcode is
  taken for what it is exactly with the opcode base 13. Below 13 rows are lost, above 13 rows are invented
  (`LineOpcodes.AllTaken`, `LineOpcodes.LostRows`, `LineOpcodes.InventedRow`).
- `advance_pc` and `const_add_pc` ignore the number of operations per instruction, and nothing but a special
  opcode changes the operation index: all fitting programs are read right exactly when the number is 1, or
  instructions have no length (`LineStandard.ReadsAllIff`). With another number the programs that do not depend on
  it are (`LineStandard.StepsAlike`).
- The sweep of the garbage collector visits only existing chunks exactly when the leftover bytes of all chunks
  amount to no block; 24-byte blocks break it with the second default chunk (`BlockLayout.SweepInBounds`,
  `BlockLayout.DefaultChunks`).
- The overflow test of the 32-bit scanner misses some numbers (`PrintScan.MissedNumber`), and the signed scans,
  32 and 64 bits, give another number than the one written exactly for numbers out of the range that pass it
  and wrap to less than half the range (`ScanText.GivenWrong`, `PrintScan.MissedSigned`, `PrintScan.MissedWide`). The most negative
  number of each signed type is printed but not scanned back (`PrintScan.RoundTrip`).
- A character from 128 on that a scan pushes back looks like the end of the text when it is read again, and is
  lost; a scan leaves one exactly when it is the first character after the number (`ScanText.Input.Get`,
  `ScanText.Input.ScanULong`).
- The iteration by line looks only in the segment of each line's first row, and its last location of a line ends
  with the line even if the segment ends before (`LineMapResults.ListByLine`).
- Fletcher's checksum sums an odd byte at the end of a stream with the byte left over from the word before, not
  with 0 as `sum` intends (`Fletcher.PaddedWords`). Its one last fold may leave a bit 16 in either sum; the two
  halves of the checksum hold the sums modulo 65535 exactly when it leaves none (`Fletcher.Checksum.Total`,
  `Fletcher.LostHalf`).
- The unserializer does not detect a second object for an identifier, and pointers already filled in keep the
  first (`Unserializer.DefinedTwice`). The flush makes such objects itself, in documents where every identifier
  occurs once, exactly when it reads an element before one that holds it (`UnserializerOrder.FlushExact`,
  `UnserializerOrder.ReadTwice`).

## Model

| member | source | states |
|---|---|---|
| WahWords.DivExact | elm/src/util_WAHVector.cpp:57 | the multiply-and-shift is the division by 31 exactly when the remainder, scaled, stays below the next multiple: a condition on each value |
| WahWords.DivExactUpTo | elm/src/util_WAHVector.cpp:55-58 | division and remainder by 31 are exact for every value up to 4638218 |
| WahWords.DividesLess | elm/src/util_WAHVector.cpp:55-58 | if a value is divided exactly, so is what whole groups less leave of it |
| WahWords.Layout | elm/src/util_WAHVector.cpp:60-116 | what a literal, a fill of clear groups and a fill of full groups stand for, as numbers |
| WahWords.PackedUnique | elm/src/util_WAHVector.cpp:60-116 | packed words that stand for the same groups are the same words |
| WahWords.CanonicalUnique | elm/src/util_WAHVector.cpp:304-313 | two canonical vectors of the same length have the same bits if and only if they have the same words |
| WahBuilder.Builder.PushFill | elm/src/util_WAHVector.cpp:74-80 | merging with an equal fill before it keeps the words packed and appends exactly the fill's groups |
| WahBuilder.Builder.PushLite | elm/src/util_WAHVector.cpp:64-72 | a literal, or a fill for an empty or full group: the words stay packed and one group is appended |
| WahBuilder.Builder.Push | elm/src/util_WAHVector.cpp:82-88 | any word is appended as the groups it stands for |
| WahBuilder.Builder.Fix | elm/src/util_WAHVector.cpp:118-141 | the padding of a last partial literal is cleared and a group that becomes uniform is turned into a fill or merged, by the code's test |
| WahBuilder.FixedCorrect | elm/src/util_WAHVector.cpp:118-141 | the result is canonical with the same bits unless the word tested is a literal with the bit tested; then one group is missing |
| WahBuilder.Iter.Consume | elm/src/util_WAHVector.cpp:157-207 | consuming part of a run moves by exactly that many groups and never past the run |
| WahBuilder.Iter.PushTail | elm/src/util_WAHVector.cpp:157-207 | the word after the current one is pushed, merging if it can, and those after it are copied unchanged |
| WahVector.Vector.constructor | elm/src/util_WAHVector.cpp:231-234 | a new vector of a size that the code divides exactly has that size and all its bits equal; without bits it has a fill of no group, which is not canonical |
| WahVector.Vector.BitOf | elm/src/util_WAHVector.cpp:258-266 | the bit read is that of the plain bit sequence, for every index that the code divides exactly |
| WahVector.Vector.Equals | elm/src/util_WAHVector.cpp:304-313 | comparing words decides equality of all bits |
| WahVector.Vector.Includes | elm/src/util_WAHVector.cpp:319-343 | true exactly when every bit of the other vector is set here, although padding bits of fills are set |
| WahVector.SubsetGroups | elm/src/util_WAHVector.cpp:319-343 | inclusion of the bits is emptiness of every group of the difference, padding included |
| WahVector.Vector.IncludesStrictly | elm/src/util_WAHVector.cpp:350-352 | true exactly for a proper subset |
| WahVector.Vector.Size | elm/src/util_WAHVector.cpp:359-367 | the number of bits is recomputed from the words |
| WahVector.Vector.CountOnes | elm/src/util_WAHVector.cpp:374-388 | the number of set bits, the last partial group counting only its own |
| WahOperations.DoBinary | elm/src/util_WAHVector.cpp:559-660 | AND, OR and AND-NOT: canonical words for the operator on every bit, at most one word less than the operands together, or one group lost in the unsafe case of fix |
| WahOperations.AlwaysSafe | elm/src/util_WAHVector.cpp:559-587 | on canonical operands AND and AND-NOT never meet the unsafe case |
| WahLogic.OrLoses | elm/src/util_WAHVector.cpp:596-624 | OR meets it exactly when two partial last groups together are full and the result's group before them is a literal with its top bit set |
| WahSafety.OrCounterexample | elm/src/util_WAHVector.cpp:596-624 | two vectors of 33 bits whose OR loses a group |
| WahOperations.DoNot | elm/src/util_WAHVector.cpp:669-686 | canonical words with every bit negated |
| WahOperations.NegationInvolutive | elm/src/util_WAHVector.cpp:669-686 | negating twice gives back the same words |
| WahOperations.ResetIsAndNot | elm/src/util_WAHVector.cpp:633-660 | AND-NOT gives word for word the AND with the negation |
| WahOperations.SetTo | elm/src/util_WAHVector.cpp:408-507 | for every index that the code divides exactly, only the bit asked for changes and the words stay canonical, or one group is lost in the unsafe case |
| WahSafety.InnerNeverLoses | elm/src/util_WAHVector.cpp:408-507 | changing a bit before the last group never loses a group |
| WahSafety.SetLoses | elm/src/util_WAHVector.cpp:408-455 | setting a bit of the last group loses one exactly when it completes it after a literal with its top bit set |
| WahSafety.ClearLoses | elm/src/util_WAHVector.cpp:461-507 | clearing one loses a group exactly for the single bit of a full last group after a literal with its top bit clear |
| WahSafety.SetCounterexample | elm/src/util_WAHVector.cpp:408-455 | setting the last of 32 bits of a canonical vector of two groups leaves one group |
| WahSafety.ClearCounterexample | elm/src/util_WAHVector.cpp:461-507 | clearing the last of 32 bits of another one does as well |
| WahSafety.Make | elm/include/elm/util/WAHVector.h:57-61 | the operators returning a vector give the operator on every bit and keep the length exactly when the operands end on a whole group, or lose a group in the unsafe case |
| WahSafety.Apply | elm/include/elm/util/WAHVector.h:56-60 | the operators in place give the operator on every bit, in canonical form, or lose a group in the unsafe case |
| WahSafety.MakeNot | elm/include/elm/util/WAHVector.h:63 | every bit negated, in a vector whose length is right exactly when the operand ends on a whole group |
| WahSafety.MakeNotTwice | elm/include/elm/util/WAHVector.h:63 | making a negation twice gives the words back exactly when the vector ends on a whole group or with a fill |
| WahSafety.MadeTwice | elm/src/util_WAHVector.cpp:669-686 | the same of any words negated with one length and then with that of whole groups |
| WahSafety.ApplyNotTwice | elm/include/elm/util/WAHVector.h:62 | negation in place, twice, leaves every word as it was |
| AvlTree.InsertBalanced | elm/src/avl_GenTree.cpp:31-93 | insertion restores balances in -1..1 equal to the height differences; the height grows by one exactly when it says so |
| AvlTree.DeleteBalanced | elm/src/avl_GenTree.cpp:98-223 | so does removal of any node; the height drops by one exactly when it says so |
| AvlOrder.InsertInOrder | elm/src/avl_GenTree.cpp:31-93 | the in-order sequence gains the new node at its rank and nothing else changes |
| AvlOrder.RankSeparates | elm/include/elm/avl/GenTree.h:179-201 | the search puts a key after all smaller ones and before all others |
| AvlOrder.InsertSorted | elm/include/elm/avl/GenTree.h:179-201 | insertion keeps the keys sorted |
| AvlOrder.DeleteInOrder | elm/src/avl_GenTree.cpp:98-223 | removal takes the node at the end of the path out of the in-order sequence and nothing else |
| AvlInsert.InsertAtY | elm/src/avl_GenTree.cpp:41-92 | linking, adjusting from y and at most one rotation at y is insertion; the subtree of y grows exactly when y was balanced |
| AvlInsert.InsertAbove | elm/src/avl_GenTree.cpp:41-92 | above y nothing but a link changes |
| AvlGenTree.AbstractTree.RotateSingle | elm/src/avl_GenTree.cpp:52-57 | the link changes of a single rotation, either side, on the cells; no other cell changes |
| AvlGenTree.AbstractTree.RotateDouble | elm/src/avl_GenTree.cpp:58-68 | the same for a double rotation with its three balance cases |
| AvlGenTree.AbstractTree.AdjustBalances | elm/src/avl_GenTree.cpp:41-46 | the loop along the recorded directions adjusts exactly the nodes of the search path |
| AvlGenTree.AbstractTree.Rebalance | elm/src/avl_GenTree.cpp:48-92 | the rotation at y, if its balance left -1..1, and the link from z to the new top |
| AvlGenTree.AbstractTree.InsertNode | elm/src/avl_GenTree.cpp:31-93 | the cells hold the tree of the insertion |
| AvlGenTree.AbstractTree.Add | elm/include/elm/avl/GenTree.h:179-201 | the search finds y, z, q and the directions, and the cells then hold the tree of the insertion, in every tree whose rotation finds its links |
| AvlGenTree.InsertableExact | elm/src/avl_GenTree.cpp:48-92 | in a tree whose sides are AVL trees the rotation of an insertion finds its links exactly unless the key goes to an empty side that the root takes for heavier |
| AvlDelete.DeleteUnwinds | elm/src/avl_GenTree.cpp:98-223 | removal anywhere is unlinking followed by the climb along the path while subtrees shrink |
| AvlDelete.DeletePending | elm/src/avl_GenTree.cpp:98-223 | after unlinking the tree is balanced but for the subtree at the end of the path |
| AvlDelete.PendingStep | elm/src/avl_GenTree.cpp:139-222 | each step of the climb moves that exception one level up |
| AvlGenRemove.ShrinkNode | elm/src/avl_GenTree.cpp:141-221 | the rebalancing of one node after one side shrank, and whether the climb stops |
| AvlGenRemove.TakeSuccessor | elm/src/avl_GenTree.cpp:108-136 | the successor takes the removed node's place, and the path is extended down to the place that shrank |
| AvlGenRemove.GoUp | elm/src/avl_GenTree.cpp:139-222 | the loop up the path arrays leaves the unwound tree in the cells |
| AvlGenRemove.RemoveNode | elm/src/avl_GenTree.cpp:98-223 | removal below any hook: the hanging subtree becomes that of the deletion and no other cell changes |
| AvlGenRemove.RemoveAt | elm/src/avl_GenTree.cpp:98-223 | with the pseudo-root first in the path the cells hold the tree of the deletion |
| AvlKeyRemove.PresentIff | elm/include/elm/avl/GenTree.h:75-87 | in a sorted tree the search meets every key that is there |
| AvlKeyRemove.Remove | elm/include/elm/avl/GenTree.h:231-252 | removal of a key fails exactly for a root with a right child; else the cells hold the tree with the root's balance unchanged, also after earlier removals |
| AvlKeyRemove.RemovedSides | elm/include/elm/avl/GenTree.h:231-252 | the sides of the root stay AVL trees, removal after removal |
| AvlKeyRemove.InsertAfterRemove | elm/src/avl_GenTree.cpp:48-92 | an insertion after a removal follows no null link exactly unless the removal emptied the side the key goes to while the root was heavier there |
| AvlKeyRemove.NullFollowed | elm/src/avl_GenTree.cpp:58-68 | adding 20 and 30, removing 30 and adding 25 makes the double rotation follow one |
| AvlKeyRemove.RemovedInOrder | elm/include/elm/avl/GenTree.h:231-252 | exactly the first node with the key leaves the in-order sequence |
| AvlKeyRemove.DeleteShrinks | elm/src/avl_GenTree.cpp:139-222 | a removal lowers the tree exactly when every node down to the one unlinked loses height, as read from the balances before |
| AvlKeyRemove.RemovedBalanced | elm/include/elm/avl/GenTree.h:231-252 | the tree stays an AVL tree if and only if not all nodes below the root on the path lose height |
| AvlKeyRemove.RootGoesStale | elm/include/elm/avl/GenTree.h:231-252 | a tree of three nodes on which it does not |
| AvlRecursive.Agree | elm/src/avl_Tree.cpp:182-224 | on every AVL tree without the key the recursive and the iterative insertion give the same tree |
| AvlRecursive.AgreePresent | elm/src/avl_Tree.cpp:182-224 | a key that is there is left alone |
| AvlRecursive.SingleAgrees | elm/src/avl_Tree.cpp:225-244 | single rotations store the right heights |
| AvlRecursive.DoubleAgrees | elm/src/avl_Tree.cpp:247-256 | so do double rotations |
| AvlRecursive.RecInsertExact | elm/src/avl_Tree.cpp:182-224 | the recursive insertion keeps every stored height right and the sides within one of each other |
| AvlRecursive.FormsMatch | elm/include/elm/avl/Tree.h:33-67 | a tree with right heights is that of its balances, which are the height differences |
| AvlRecursive.Get | elm/src/avl_Tree.cpp:123-136 | the search loop finds the first node with the key, exactly when there is one |
| Leb128.ReadUnsigned | gel/src/dwarf_line.c:384-401 | the value of the first complete encoding modulo 2^32, and an error exactly when there is none |
| Leb128.ReadSigned | gel/src/dwarf_line.c:411-435 | the same for signed integers, the sign extended below five bytes |
| Leb128.EndOf | gel/src/dwarf_line.c:384-435 | an encoding ends where it ends, whatever bytes follow |
| Leb128.EndCut | gel/src/dwarf_line.c:384-435 | every proper prefix of an encoding is reported as truncated |
| Leb128.UnsignedRoundTrip | gel/src/dwarf_line.c:384-401 | the encoding of section 7.6 of DWARF 4 has the value encoded, in at most k bytes for 7k bits |
| Leb128.SignedRoundTrip | gel/src/dwarf_line.c:411-435 | so has the signed encoding |
| Leb128.UnsignedExamples | gel/src/dwarf_line.c:384-401 | the examples of section 7.6 of DWARF 4 |
| Leb128.SignedExamples | gel/src/dwarf_line.c:411-435 | its signed examples |
| LineProgram.ReadOp | gel/src/dwarf_line.c:735-868 | the operation, error, overrun or file definition that the bytes at a position are, with each opcode's number; bytes that encode an operation are read as that operation, with exactly its length, whatever follows |
| LineProgram.OneOutcome | gel/src/dwarf_line.c:735-868 | these outcomes exclude one another, and the operation and its length are unique |
| LineProgram.EncodedReads | gel/src/dwarf_line.c:139-157 | what the standard encodes is read as such, over all operations |
| LineReader.Local.Emit | gel/src/dwarf_line.c:646-700 | a row is appended unless its file number is too high, and each file's low and high stay the least and greatest lines of its rows |
| LineReader.ReadLines | gel/src/dwarf_line.c:709-888 | whatever the bytes, those read are operations one after the other, exactly their rows with a known file are recorded in order, and the reader stops at the end, at an error, at an overrun, at a file below 1 or at a file definition, and says which |
| LineReader.RanOnce | gel/src/dwarf_line.c:709-888 | the bytes determine the rows and the outcome |
| LineReader.RanProgram | gel/src/dwarf_line.c:709-888 | the bytes of a program are read to their end, and its rows recorded |
| LineExample.Words | gel/src/dwarf_line.c:783-829 | operands of two and four bytes in either order, as numbers |
| LineExample.ReadsTable | gel/src/dwarf_line.c:139-157 | twelve bytes give four rows with given files, lines, addresses, flags and ISAs |
| LineEmitted.RowsInTables | gel/src/dwarf_line.c:646-700 | the descriptor index of every recorded row is inside its file's table |
| LineStandard.ReaderMeetsStandard | gel/src/dwarf_line.c:709-888 | a program that keeps the registers within their widths, and whose advances are of instructions where the standard counts operations, gets exactly the rows of sections 6.2.2 and 6.2.5 of DWARF 4 if and only if every sequence after one that left an address or an ISA other than 0 sets it before its first row |
| LineStandard.AddressMoves | gel/src/dwarf_line.c:747-751 | a 32-bit address that differs from the standard's differs after every advance that both make |
| LineStandard.FlatAlike | gel/src/dwarf_line.c:747-782 | with one operation an instruction, or instructions without length, every program is such a one |
| LineStandard.FixedAlike | gel/src/dwarf_line.c:783-786 | under every header so is a program of fixed advances, and its rows are the standard's |
| LineStandard.StaleAddress | gel/src/dwarf_line.c:813-827 | without that a second sequence starts where the first ended |
| LineStandard.WideAdvance | gel/src/dwarf_line.c:747-751 | with more than one operation an instruction, and instructions that have a length, advance_pc 1 and a copy make another row than they should |
| LineStandard.ReadsAllIff | gel/src/dwarf_line.c:747-782 | all programs that fit and set what they need are read as the standard says if and only if there is one operation an instruction or instructions have no length |
| LineOpcodes.ByteTaken | gel/src/dwarf_line.c:733-868 | an opcode is taken as extended, standard or special as the header says exactly when it is below both 13 and the opcode base, or below neither |
| LineOpcodes.AllTaken | gel/src/dwarf_line.c:733-868 | all opcodes are exactly when the opcode base is 13 |
| LineOpcodes.ProgramTaken | gel/src/dwarf_line.c:733-868 | a program of the standard is the same program for the reader exactly when each of its opcodes is taken so |
| LineOpcodes.SameProgramsIff | gel/src/dwarf_line.c:733-868 | all programs of known operations are, exactly when the opcode base is not below 13 |
| LineOpcodes.LostRows | gel/src/dwarf_line.c:795-798 | for every opcode base below 13 there is a program whose two rows are lost |
| LineOpcodes.InventedRow | gel/src/dwarf_line.c:852-880 | for every opcode base above 13 an unknown standard opcode makes a row, with a wrapped adjusted opcode |
| LineTable.WrittenProgram | gel/src/dwarf_line.c:709-888 | the bytes written for a list of operations are a program of exactly these, wherever special opcodes start |
| LineRows.ReadStandard | gel/src/dwarf_line.c:709-888 | any bytes that are a program of the standard are read as its rows, under the exact conditions above |
| LineRows.ProgramRows | gel/src/dwarf_line.c:709-888 | any mix of operations for each row, a copy or a special opcode last, has a table's rows, with their files, ISAs and flags, if and only if each group's advances add up to its row, the last file and ISA it sets are the row's and so are the flags |
| LineRows.GroupsNarrow | gel/src/dwarf_line.c:709-888 | such a program stays within the registers if the lines on the way do |
| LineRows.TableRead | gel/src/dwarf_line.c:709-888 | the reader's rows for it are the table's |
| LineRows.ReadBack | gel/src/dwarf_line.c:709-888 | reading any bytes that encode it records exactly the table |
| LineWriter.SetUpDone | gel/src/dwarf_line.c:757-800 | the operations in front of a row set its file, ISA and flags and move nothing |
| LineWriter.ChosenReaches | gel/src/dwarf_line.c:745-868 | special, const_add_pc and special, fixed_advance_pc or advance_pc all come to the row they were made for |
| LineWriter.TableWritten | gel/src/dwarf_line.c:709-888 | every table whose addresses go up by whole instructions has a program, in bytes, for every list of such choices, the files, ISAs and flags being set before |
| LineWhole.MapProgram | gel/src/dwarf_line.c:899-1021 | the map built from the rows read from the bytes of a program is that of the standard's rows, field by field, over the executable program headers |
| LineWhole.LineOfAddress | gel/src/debug_line.c:383-404 | from the bytes of a program to a lookup: the file and line of an address are those of the last row of the standard that covers it, or none |
| LineWhole.Replayed | gel/src/dwarf_line.c:942-972 | the rows replayed from the pool are those emitted |
| LinePool.Pool.Append | gel/src/dwarf_line.c:310-362 | one more record, at the bottom of the last chunk or the top of a new one |
| LinePool.Pool.Replay | gel/src/dwarf_line.c:942-972 | the records are visited in the order of emission, each with the one after it |
| LineSegs.InitSegments | gel/src/debug_line.c:414-460 | the segments cover exactly the addresses of the executable program headers, stay disjoint if these are, and have one slot a step; of disjoint, non-empty headers two that touch share one exactly when the lower comes first, and the segments start where the headers do that touch no earlier one, last first |
| LineSegs.StartersAre | gel/src/debug_line.c:422-445 | these headers, each once and in descending order |
| LineSegs.JoinedTogether | gel/src/debug_line.c:422-445 | headers that touch are in one segment exactly when the one that ends there comes first |
| LineMap.LastCovering | gel/src/dwarf_line.c:962-986 | what a slot should hold is the last row whose addresses include it |
| LineMap.Paint | gel/src/dwarf_line.c:978-989 | the slots of a row's addresses, and only these, get its descriptor |
| LineMap.Build | gel/src/dwarf_line.c:899-1021 | each slot names the last row covering it; each descriptor has the least start, the greatest end and the first segment, flags and ISA of its line's rows |
| LineLookup.LineAtIsLast | gel/src/dwarf_line.c:899-1021 | every address of a segment is mapped to the line of the last row that covers it |
| LineLookup.BuiltSound | gel/src/dwarf_line.c:899-1021 | in a built map the descriptor of a mapped slot is inside its table, in use, and its addresses include the slot |
| LineLookup.LineFromAddress | gel/src/debug_line.c:383-404 | the unit and line of the last row that covers the address, or none if there is none or no segment |
| LineLookup.AddressFromLine | gel/src/debug_line.c:351-371 | the least address of the line's code, 0 if it has none |
| LineLookup.ThereAndBack | gel/src/debug_line.c:351-404 | an address found on a line lies within that line's addresses, so the line's address is at most it |
| LineAddrIter.AddrIter.Find | gel/src/debug_line.c:275-309 | the next run of slots of one line, which no longer run contains, everything before it being unmapped |
| LineAddrIter.AllByAddress | gel/src/debug_line.c:275-340 | the iteration ends with every mapped slot in exactly one maximal run, in ascending order |
| LineIter.LineIter.Find | gel/src/debug_line.c:137-186 | the next run of the current line or of a later one, nothing being skipped |
| LineIter.AllByLine | gel/src/debug_line.c:137-218 | the iteration ends with exactly the mapped slots that lie in the segment of their line, each in a longest run of the line; runs of a line ascend with a gap between, and every line in use with a segment has one from its lowest slot |
| LineIter.RunsExactly | gel/src/debug_line.c:137-218 | such a list has every longest run of every line in its segment, and no empty one but at a lowest slot that does not hold the line |
| LineIter.ContainedAll | gel/src/debug_line.c:137-218 | these are all mapped slots, and the locations end with them, if every line keeps to one segment |
| LineIter.SameRuns | gel/src/debug_line.c:137-340 | both iterations give the same runs; the one by line may add empty ones |
| LineMapResults.ByAddress | gel/src/debug_line.c:275-340 | an address is in a listed location of a line exactly when the map gives it that line, and in no two locations |
| LineMapResults.ByAddressAscending | gel/src/debug_line.c:275-340 | within a segment locations ascend and touching ones are about different lines |
| LineMapResults.ByLine | gel/src/debug_line.c:137-218 | the same exactness for the iteration by line, if every line keeps to one segment |
| LineMapResults.ListByAddress | gel/src/debug_line.c:320-340 | first and next locations until none is left: every mapped address once, with its line |
| LineMapResults.ListByLine | gel/src/debug_line.c:196-218 | up to the end of its segment the locations of a line have exactly the addresses mapped to it there; if every line keeps to one segment, the same set of addresses and lines as by address |
| LineMapResults.BuiltContained | gel/src/dwarf_line.c:992-1003 | tables whose lines keep to one segment give maps that the iteration by line can walk |
| BlockLayout.BlocksApart | elm/src/alloc_BlockAllocatorWithGC.cpp:115-137 | two numbered blocks share no byte |
| BlockLayout.NumberOf | elm/src/alloc_BlockAllocatorWithGC.cpp:159-178 | the bit computed from any address within a block is the block's |
| BlockLayout.SweepInBounds | elm/src/alloc_BlockAllocatorWithGC.cpp:115-137 | the sweep stays within the chunks exactly when their leftover bytes amount to no block |
| BlockLayout.DefaultChunks | elm/include/elm/alloc/BlockAllocatorWithGC.h:33 | with the default chunk size and 24-byte blocks it does not |
| BlockGC.Allocator.Mark | elm/src/alloc_BlockAllocatorWithGC.cpp:159-178 | the bit of the pointer's block is set, and the answer is whether it was not |
| BlockGC.Allocator.Collect | elm/src/alloc_BlockAllocatorWithGC.cpp:115-123 | over a whole collection mark is true exactly for the first mark of each block |
| BlockGC.Allocator.CollectGarbage | elm/src/alloc_BlockAllocatorWithGC.cpp:115-141 | the free list then has exactly the unmarked blocks, each once, the last cut first |
| BlockGC.Allocator.Allocate | elm/src/alloc_BlockAllocatorWithGC.cpp:68-100 | which block is returned in each of the four cases: the first of the free list; the next of the last chunk; after a collection, with no chunk added, the unmarked block that was cut last; or, exactly when every block is marked, the first of a new chunk. It is not held by the client, and every held block stays out of the free list |
| BlockGC.NoOverlap | elm/src/alloc_BlockAllocatorWithGC.cpp:68-100 | different blocks, such as the new one and any held one, share no byte |
| BlockGC.Allocator.Forget | elm/src/alloc_BlockAllocatorWithGC.cpp:125-137 | a block the client lets go is no longer held, so a collection may take it |
| BlockGC.Allocator.TotalCount | elm/src/alloc_BlockAllocatorWithGC.cpp:203-205 | the number of blocks cut |
| BlockGC.UsedAndFree | elm/src/alloc_BlockAllocatorWithGC.cpp:203-205 | each block cut is either free or in use: total count = free count + blocks in use |
| BlockGC.DirectCollection | elm/src/alloc_BlockAllocatorWithGC.cpp:115-141 | a collection started outside an allocation is right exactly when the free list is empty and the last chunk all cut |
| ClusterSearch.Visit | gel/src/gel_memory.c:30-74 | the recursive search adds new blocks connected to the first, and leaves no unused neighbour of any |
| ClusterSearch.FoundComponent | gel/src/gel_memory.c:30-74 | its list is a whole connected component |
| ClusterSearch.ClusterList | gel/src/gel_memory.c:148-186 | the lists partition the blocks; two blocks share a list exactly when a chain of neighbours links them |
| Clusters.ClusterBlocks | gel/src/gel_memory.c:148-186 | so do the lists of memory blocks |
| Clusters.NearIsSharing | gel/include/gel/gel_plugin.h:49-58 | two blocks that do not overlap are neighbours exactly when some cluster has bytes of both |
| Clusters.SharersTogether | gel/src/gel_memory.c:148-186 | blocks with bytes in a common cluster are in the same list |
| PrintText.TextLength | elm/src/io_Output.cpp:62-85 | the text has the least number of digits: n suffice exactly below the n-th power of the base |
| PrintText.Horner | elm/src/io_Output.cpp:62-85 | the digits are written just before the end given, and nothing else of the buffer changes |
| PrintText.Print | elm/src/io_Output.cpp:126-214 | each integer type's buffer has room for digits and sign, and the text is the decimal number |
| ScanText.Input.Get | elm/src/io_Input.cpp:50-69 | the next byte, but for one from 128 on that was pushed back: it looks like the end |
| ScanText.Input.ReadDigits | elm/src/io_Input.cpp:201-224 | the leading digits are read, no more; the 32-bit form refuses exactly when the wrapped value drops |
| ScanText.FitsNoDrop | elm/src/io_Input.cpp:201-219 | a number below 2^32 is never refused |
| ScanText.Input.ScanULong | elm/src/io_Input.cpp:179-224 | the number with its base prefix, exact if it fits, and what follows it is left; the next read is disturbed exactly when that starts with a byte from 128 on |
| ScanText.Input.ScanULLong | elm/src/io_Input.cpp:255-292 | the same on 64 bits, wrapping without a test |
| ScanText.Input.ScanSigned | elm/src/io_Input.cpp:231-320 | a sign, then a number: refused exactly when the unsigned scan refuses it or its wrapped value is half the range or more, else the wrapped value |
| ScanText.InRange | elm/src/io_Input.cpp:231-320 | of the numbers that fit the unsigned type, those below half the range are given back and the others refused |
| ScanText.GivenWrong | elm/src/io_Input.cpp:231-320 | another number than the one written is given exactly for one out of the range that passes the test and wraps to less than half the range |
| PrintScan.PrintedFound | elm/src/io_Input.cpp:179-224 | a printed number followed by a blank or nothing is found whole, with its value |
| PrintScan.RoundTrip | elm/src/io_Output.cpp:126-214 | a printed list is scanned back exactly when it has no most negative number of a signed type |
| PrintScan.SixteenDigits | elm/src/io_Input.cpp:156-172 | the sixteen digits, lower and upper case, as they are scanned and as they are printed |
| PrintScan.BaseDigits | elm/src/io_Input.cpp:156-172 | the digits of a base are exactly the first ones of these, with the same values |
| PrintScan.MissedNumber | elm/src/io_Input.cpp:209-219 | ten nines are taken for 1410065407 |
| PrintScan.MissedSigned | elm/src/io_Input.cpp:231-320 | so they are by the signed scan |
| PrintScan.MissedWide | elm/src/io_Input.cpp:295-320 | the 64-bit scan takes the text printed for 2 to the power 64 plus 5 for 5 |
| ScanBases.NotationFound | elm/src/io_Input.cpp:183-206 | after 0x, 0X, 0b, 0B, 0 or nothing a number in base 16, 2, 8 or 10 is found whole, in lower or upper case, with its value |
| ScanBases.ScanNotation | elm/src/io_Input.cpp:179-224 | each number below 2^32 is scanned back from each notation, and what follows is left |
| ScanBases.ZeroAlone | elm/src/io_Input.cpp:195-199 | a 0 without prefix or octal digit after it is a number by itself |
| ScanBases.ZeroEight | elm/src/io_Input.cpp:195-199 | so 08 is a 0, and the 8 is left |
| ScanBases.SignFound | elm/src/io_Input.cpp:235-240 | a sign is one character, plus or minus |
| Plugins.Registry.Plug | elm/src/system_Plugin.cpp:265-293 | use, revival and first use, then every unused plugin gets older by one |
| Plugins.Registry.Unplug | elm/src/system_Plugin.cpp:299-326 | the counter, the unused list and the cleanup at age 16 |
| Plugins.StepIs | elm/src/system_Plugin.cpp:390-393 | the backward loop ages every unused plugin once, cleans up those of age 16, each once and the last first, and leaves the others in their order, although it removes while it runs |
| Plugins.DoGood | elm/src/system_Plugin.cpp:265-326 | the unused list holds exactly the plugins with a counter from -16 to -1 |
| Plugins.CounterCounts | elm/src/system_Plugin.cpp:265-326 | over every run the counter of a plugin in use is its number of outstanding plugs |
| Plugins.NeverInUse | elm/src/system_Plugin.cpp:299-326 | a plugin with outstanding plugs is never cleaned up |
| Plugins.CleanedAtAge | elm/src/system_Plugin.cpp:265-326 | an unused plugin nobody uses again is cleaned up at the 16th plug after, no sooner and no later |
| Plugins.NeverTwice | elm/src/system_Plugin.cpp:299-326 | over every run from the start no plugin is cleaned up twice, those cleaned up are the ones past age 16, and the unused plugins are in the order of their ages |
| Fletcher.Checksum.constructor | elm/src/checksum_Fletcher.cpp:43-49 | both sums start at 0xFFFF |
| Fletcher.Checksum.Add | elm/src/checksum_Fletcher.cpp:63-69 | neither sum overflows, and both stay congruent to the exact sums |
| Fletcher.FoldBounds | elm/src/checksum_Fletcher.cpp:54-58 | a fold after 180 words brings both sums back to their starting bounds |
| Fletcher.Checksum.Put | elm/src/checksum_Fletcher.cpp:76-91 | after any streams of bytes the sums are positive and congruent modulo 65535 to the sum and the sum of prefix sums of their words, an odd byte making a word with the second byte of the word before |
| Fletcher.PaddedWords | elm/src/checksum_Fletcher.cpp:76-106 | these are the words of the stream padded with 0 exactly when its length is even or that byte is 0 |
| Fletcher.PackedExact | elm/src/checksum_Fletcher.cpp:98-105 | the halves of the packed word are the sums modulo 65535 exactly when both are below 2^16 |
| Fletcher.Checksum.Total | elm/src/checksum_Fletcher.cpp:98-105 | so they are for the checksum, exactly when both folded sums are |
| Fletcher.LostHalf | elm/src/checksum_Fletcher.cpp:98-105 | the checksum of 0xFFFF and 1 has a lower half of 0, their sum being 1 modulo 65535 |
| Unserializer.EventsFollow | elm/src/serial2_XOMUnserializer.cpp:24-47 | after any reading, each pointer holds the last object recorded before it was read, else the first one after, or waits for it |
| Unserializer.HoldExactly | elm/src/serial2_XOMUnserializer.cpp:155-193 | every pointer holds its identifier's object exactly when the object it was filled with is the last one recorded |
| Unserializer.DefinedTwice | elm/src/serial2_XOMUnserializer.cpp:181-193 | two objects for one identifier leave a pointer on the first |
| UnserializerFlush.Reader.Put | elm/src/serial2_XOMUnserializer.cpp:24-34 | the pointer is filled in if there is an object, else it waits |
| UnserializerFlush.Reader.Record | elm/src/serial2_XOMUnserializer.cpp:38-47 | all waiting pointers are filled in and none waits any more |
| UnserializerFlush.Reader.OnPointer | elm/src/serial2_XOMUnserializer.cpp:155-174 | the memory follows the event, and an identifier met for the first time becomes pending, last |
| UnserializerFlush.Reader.BeginObject | elm/src/serial2_XOMUnserializer.cpp:181-193 | the memory follows the event; what is still without object is pending |
| UnserializerFlush.Flush | elm/src/serial2_XOMUnserializer.cpp:87-124 | it ends, having read the elements of the pending identifiers last first, each unresolved and asked for when its turn came; it fails exactly at an identifier without object or element |
| UnserializerOrder.FilledExactly | elm/src/serial2_XOMUnserializer.cpp:105-122 | in a document with unique identifiers every pointer was filled with the last object of its identifier exactly when no element was read before one that holds it |
| UnserializerOrder.FlushExact | elm/src/serial2_XOMUnserializer.cpp:87-124 | after a complete flush every identifier has an object and no pointer waits, and all pointers hold their objects under exactly that condition on the events before the flush and the elements |
| UnserializerOrder.FlatDocument | elm/src/serial2_XOMUnserializer.cpp:87-124 | in a document where no element with an identifier holds another one all pointers hold their objects |
| UnserializerOrder.CompleteDocument | elm/src/serial2_XOMUnserializer.cpp:87-124 | the flush is complete if every pointer refers to an identifier that has an element or an object |
| UnserializerOrder.NestedUnique | elm/src/serial2_XOMUnserializer.cpp:105-122 | a document of two elements, one within the other, with unique identifiers |
| UnserializerOrder.FlushOfNested | elm/src/serial2_XOMUnserializer.cpp:105-122 | after pointers to 2 and to 1, where 2 holds 1, the flush reads 1 and then 2 |
| UnserializerOrder.NestedOutOfOrder | elm/src/serial2_XOMUnserializer.cpp:105-122 | that is an element before one that holds it |
| UnserializerOrder.ReadTwice | elm/src/serial2_XOMUnserializer.cpp:105-122 | this leaves the pointer to 1 on an object that is not the last one of 1 |

## Left out

- Unified mirror images: `doAnd`/`doOr`/`doReset`, `set(int)`/`clear(int)`, left and right rotations and the
  two halves of the removal climb are each one method with the operator, value or side as parameter.
- WahVector.Vector.constructor: sizes that the code does not divide exactly.
- WahVector.Vector.BitOf: indices that it does not, and vectors of more than 2 to the power 31 minus 1 bits, whose
  indices do not fit an `int`.
- WahOperations.SetTo: the same indices and vectors.
- WAH: the growth of the builder's array, operations on vectors without words, `isEmpty`, `isFull`, and `set`/`clear` without
  argument, which do not have their documented meaning.
- WahOperations.DoBinary: the `rem` of the result is that of the object it is called on, as in the code; the
  operands' `rem` is required to be equal.
- AvlGenTree: memory is a sequence of cells, cell 0 standing for the root pointer; path arrays have no fixed
  length (the code's holds 32 levels). `set`, `copy`, `clear`, the iterator and `AbstractTree::count`, which
  follows a null root on an empty tree, are not modelled.
- AvlRecursive: the recursive functions are modelled on values, so relinking in place is not captured; the
  removals of this class do not restore balance and are left out.
- AvlKeyRemove.Remove: the key must be there, as the code demands; the freed node stays in the arena. What an
  insertion makes of balances that are already stale is the tree `Insert` computes; it need not be balanced.
- LineProgram: `define_file` and the header with its directory and file names are not read; column,
  discriminator, the operation index of a row and the lowest and highest addresses of all rows are not kept.
- Leb128.ReadUnsigned: encodings whose sixth byte would be read are excluded, since they shift by 35 bits.
- Leb128.ReadSigned: the same exclusion.
- LineStandard.ReaderMeetsStandard: programs that advance by single operations, but for the failing one of
  WideAdvance; programs whose registers leave their 32 or 16 bits, for which the standard
  gives no rows of that width; the operands of unknown standard opcodes.
- LineRows.ReadBack: several operations an instruction; tables of more than one sequence.
- LineMap.Build: addresses are unbounded and on one grid of steps that segments and rows share; the end
  of sequence's extra descriptor is only shown to stay unused.
- LineIter.AllByLine: lines whose least address lies before the segment of their first row, for which the code
  computes slots from a negative difference; so for LineIter.LineIter.Find.
- LineMapResults.ListByLine: the same lines as LineIter.AllByLine.
- LineIter and LineAddrIter: units are visited in index order; the order of the hash table is not modelled.
- BlockGC: chunk addresses come from the caller; the free list threaded through the blocks is a sequence. The
  client's collection is the list of pointers it marks.
- Clusters: the addresses of the memory clusters made from the lists.
- ScanText: floating-point numbers.
- PrintText.Print: the negation of the most negative number, undefined in C++, is taken as 2 to the power 31 or 63.
- Plugins: startup, dynamic loading and the pluggers' own lists; a plugin cleaned up is not used again.
- Fletcher: failing reads. The bytes of the first word, undefined in the code, are given to the constructor.
- Unserializer: an element's content is given as its events; the reference `NULL`, types and classes are not
  modelled. Where two reads fill the same pointer, only the order of the writes is stated.
- UnserializerOrder.FlushExact: an element read on its own and as part of another makes two objects.
- Memory exhaustion and error messages everywhere.
