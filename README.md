# GraphX core in Dafny

GraphX is a small graph-processing virtual machine with a toolchain. Its assembler (`helpers/asm.py`) turns `.graphx` text into a binary image. The image holds 32-bit instruction words, the three compressed-sparse-row (CSR) lists `row_index`, `col_index` and `values`, and a memory section. The VM side (`src/graph.c`, `src/datastructures.c`) answers CSR queries and keeps a FIFO frontier. A graph editor (`helpers/graph.py`) builds an adjacency matrix from drawn edges, converts it to CSR and prints it as assembler data sections.

This project models those four pieces and proves what they promise:

- `isa.dfy` (module `Isa`): the opcode table, the mask constants and `encode_instruction`. Each of the seven operand templates is specified field by field, and the groups are proved to partition the table.
- `assembler.dfy` (module `Assembler`): `parse_assembly`. Pass 1 (`FirstPassFrom`) and pass 2 (`SecondPass`) are folds over the cleaned lines. They are implemented by the loops of `ParseAssembly`, and each loop is proved equal to its fold. Lemmas cover label resolution, the code length, the data sections and when assembly succeeds or fails.
- `image.dfy` (module `Image`): `write_binary` as the byte string it writes, plus the loader's reading of that layout. Packing and reading back are proved inverse.
- `python_text.dfy` (module `PyText`): the pieces of Python the assembler and the editor rely on:
  - `str.strip`;
  - `re.sub(';.*$', '', line)`;
  - `re.split('[,\s]+', line)`;
  - `", ".join`;
  - `str(int)`;
  - `int(s)` and `int(s, 0)`.
- `bits.dfy` (module `Bits`): `<<`, `&` and `|` on non-negative Python integers, with the masking and disjoint-or facts the encoder needs.
- `ctypes.dfy` (module `CTypes`): the C integer conversions the VM performs, namely `int32_t`/`uint32_t`/`size_t` assignment and unsigned subtraction.
- `frontier.dfy` (module `Frontier`): the ring-buffer queue as a class over a 1024-slot array, and the `frontier_*` dispatchers. The abstract contents are the window between the two counters.
- `csr_graph.dfy` (module `CsrGraph`): the binary searches, degree and neighbour slice of `src/graph.c`, and the neighbour iterator. The iterator is modelled as written and also as evidently intended.
- `graph_builder.dfy` (module `GraphBuilder`): the editor's `Graph` class. This covers the CSR conversion loop, `__str__` and the proof that the assembler reads the printed text back into the same three lists. It also covers `to_adjacency_matrix`.
- `wrappers.dfy` (module `Wrappers`): `Option` and `Result`.

## Model

| member | source | states |
|---|---|---|
| `Isa.OperandValue` | helpers/asm.py:69 | `int(args[i])`: an `IndexError` exactly when `i` is past the last operand. A substituted register or label is used as is. Otherwise the token's base-10 reading, or a `ValueError` |
| `Isa.ReadOperands` | helpers/asm.py:74-76 | The first `k` operands convert exactly when each does. The values are those conversions, in order. On failure the error is that of the first operand that fails |
| `Isa.EncodeOutcome` | helpers/asm.py:55-105 | Encoding succeeds exactly when `op` is a key of `OPCODES` and the operands its group reads all convert. A failure is the first failing operand's. The final `ValueError` branch is never taken |
| `Isa.GroupsCoverOpcodes` | helpers/asm.py:26-105 | A mnemonic is a key of `OPCODES` exactly when it belongs to one of the seven groups `encode_instruction` tests |
| `Isa.GroupsDisjoint` | helpers/asm.py:64-101 | No mnemonic belongs to two groups |
| `Isa.OpcodesFitField` | helpers/asm.py:26-53 | Every opcode fits the 5-bit `OPCODE_ARG_MASK` field |
| `Isa.EncodeNoOperand` | helpers/asm.py:61-65 | HALT, ITER, NEXT, LDV, HASN, FEMPTY and FSWAP encode to `OPCODES[op] << 27` whatever the arguments |
| `Isa.EncodeImmediate` | helpers/asm.py:68-70 | For BZ, BNZ, JMP, LDN and HASE, the word is below 2^32. Its top five bits are the opcode and its low 27 bits are the operand mod 2^27 |
| `Isa.EncodeRegRegReg` | helpers/asm.py:73-77 | For ADD and SUB, bits 24-26, 21-23 and 18-20 hold the three operands mod 8. The low 18 bits are zero and the opcode sits on top |
| `Isa.EncodeRegRegConst` | helpers/asm.py:80-84 | For ADDI and SUBI, two register fields hold their operands mod 8, and the low 21 bits hold the constant mod 2^21 |
| `Isa.EncodeRegReg` | helpers/asm.py:87-90 | For CMP, MOV, LDR and STR, two register fields hold their operands mod 8, and the low 21 bits are zero |
| `Isa.EncodeRegConst` | helpers/asm.py:93-96 | For MOVI, LD and ST, the register field holds operand 0 mod 8, and the low 24 bits hold the constant mod 2^24 |
| `Isa.EncodeReg` | helpers/asm.py:99-101 | For CLR, PUSH and POP, the register field holds operand 0 mod 8, and the low 24 bits are zero |
| `Isa.EncodedWordFits` | helpers/asm.py:55-105 | Every encoded word is in `[0, 2^32)` and `word >> 27 == OPCODES[op]` |
| `Isa.MaskRegister` | helpers/asm.py:19 | `x & REGISTER_ARG_MASK == x mod 8` for every integer, negative ones included |
| `Isa.MaskImmediate` | helpers/asm.py:20 | `x & IMMEDIATE_ARG_MASK == x mod 2^27` |
| `Isa.MaskConstant` | helpers/asm.py:21 | `x & CONSTANT_ARG_MASK == x mod 2^24` |
| `Isa.MaskRegConstant` | helpers/asm.py:22 | `x & REG_CONSTANT_ARG_MASK == x mod 2^21` |
| `Bits.AndLowMask` | helpers/asm.py:69 | Python's `x & (2^k - 1)` equals `x mod 2^k` for any integer `x`, so out-of-range and negative operands are reduced and never rejected |
| `Bits.OrDisjoint` | helpers/asm.py:77 | Or-ing a value below `2^k` into a multiple of `2^k` is addition, so the shifted fields do not overlap |
| `PyText.StripComment` | helpers/asm.py:129 | `re.sub(';.*$', '', line)`: a line with no `;` is unchanged. Otherwise the text before the first `;` that `.*$` can reach is kept, together with a final newline |
| `PyText.StripSpec` | helpers/asm.py:132 | `str.strip()` returns the contiguous middle of the line whose ends are not whitespace. It is empty exactly when the line is all whitespace |
| `PyText.Split` | helpers/asm.py:172 | `re.split('[,\s]+', s)` gives at least one piece, and no piece contains a separator. Text without separators is its own single piece |
| `PyText.SplitJoin` | helpers/graph.py:26 | Splitting the `", "`-join of non-empty, separator-free pieces gives the pieces back |
| `PyText.NatToStringShape` | helpers/graph.py:26 | `str(n)` for `n >= 0` is decimal digits without a leading zero (except for 0) whose value is `n` |
| `PyText.IntRoundTrip` | helpers/asm.py:190 | `int(str(x), 0) == x` for every integer `x` |
| `Assembler.CleanAll` | helpers/asm.py:128-132 | Each line as both passes see it: comment removed, then stripped |
| `Assembler.Pass1Step` | helpers/asm.py:134-146 | One line of pass 1 advances `pc` by at most one. Afterwards each label maps either to its earlier address or to the current `pc`, and a label that was not bound before maps to the current `pc` |
| `Assembler.FirstPassFrom` | helpers/asm.py:127-146 | After pass 1, `pc` is at most the number of lines, and every label maps to an address no greater than `pc` |
| `Assembler.PcStep` | helpers/asm.py:142-146 | Pass 1 counts a line exactly when it is an instruction line (non-blank, not a directive, not a label) inside `.code` |
| `Assembler.LabelLastDefinition` | helpers/asm.py:143-144 | A label maps to the `pc` at its last definition inside `.code`, so a repeated label keeps its last definition |
| `Assembler.LabelsAreDefined` | helpers/asm.py:143-144 | Every label pass 1 knows has a definition line in `.code`, and it maps to the `pc` at that line |
| `Assembler.StartIrrelevant` | helpers/asm.py:127-146 | Once the first significant line is a directive, the section pass 1 starts in changes nothing after that line |
| `Assembler.Resolve` | helpers/asm.py:177-181 | A register name becomes its index even when a label has the same name. A label becomes its address. Any other token is kept for `int()` |
| `Assembler.ResolveAll` | helpers/asm.py:177-181 | Every operand is substituted on its own, in place |
| `Assembler.SubstituteOperands` | helpers/asm.py:177-181 | The substitution loop rewrites each `args[i]` as `Resolve` does |
| `Assembler.EncodeLine` | helpers/asm.py:172-183 | An instruction line assembles exactly when `encode_instruction` accepts its first token and its substituted operands |
| `Assembler.ParseLiterals` | helpers/asm.py:187-190 | A data line yields one integer per token, or the `ValueError` of a bad literal |
| `Assembler.LiteralAt` | helpers/asm.py:188-190 | The `k`-th integer of a data line is `int(tokens[k], 0)` |
| `Assembler.LiteralsFail` | helpers/asm.py:188-190 | A data line fails only at a token `int(token, 0)` rejects, and the error names that token |
| `Assembler.LiteralsSucceed` | helpers/asm.py:188-190 | A data line whose tokens all parse does not fail |
| `Assembler.ReadLiterals` | helpers/asm.py:188-190 | The token loop computes `ParseLiterals`, stopping at the first bad token |
| `Assembler.StepFails` | helpers/asm.py:156-208 | A line raises in pass 2 exactly when it is one of these: an instruction of `.code` that does not encode; a data line of a CSR section with a bad token; a `.mem` line that is not an integer |
| `Assembler.StepsAgree` | helpers/asm.py:149-183 | Both passes change sections on the same lines. Pass 2 appends a word on exactly the lines pass 1 counts |
| `Assembler.DataStep` | helpers/asm.py:185-208 | A line of a data section appends its integers to that section's list alone, and the code is untouched |
| `Assembler.StepGrows` | helpers/asm.py:149-208 | Pass 2 only appends: every list after a line extends the list before it |
| `Assembler.Pass2Tracks` | helpers/asm.py:149-183 | At every line, pass 2 is in pass 1's section, and its code length equals pass 1's `pc` |
| `Assembler.Pass2Prefix` | helpers/asm.py:149-208 | If pass 2 gets through `k` lines, it got through every shorter prefix, and each list only grew |
| `Assembler.Pass2Fails` | helpers/asm.py:149-208 | When pass 2 fails, there is a first line that raises, and every line before it passed |
| `Assembler.Pass2Succeeds` | helpers/asm.py:149-208 | Pass 2 gets through a prefix exactly when none of its lines raises |
| `Assembler.ErrorStays` | helpers/asm.py:149-208 | The first exception is the result whatever lines follow |
| `Assembler.EntryIrrelevant` | helpers/asm.py:149-163 | Once the first significant line is a directive, the section pass 2 is entered in does not change its result |
| `Assembler.AsWrittenAgrees` | helpers/asm.py:109-210 | For a file whose first significant line is a directive, `parse_assembly` as written equals the assembler that starts pass 2 outside any section |
| `Assembler.CodeLength` | helpers/asm.py:127-183 | For the assembler that enters pass 2 outside any section (`AssembleFresh`), `len(code)` equals pass 1's final `pc` |
| `Assembler.CodeOfLine` | helpers/asm.py:165-183 | For `AssembleFresh`, the instruction on line `j` is encoded at index `pc` of `code`, where `pc` is pass 1's count before line `j` |
| `Assembler.LabelAddressesInstruction` | helpers/asm.py:143-183 | For `AssembleFresh`, `code[code_labels[L]]` is the encoding of the first instruction after the last definition of `L` |
| `Assembler.AssembleSucceeds` | helpers/asm.py:149-208 | `AssembleFresh` succeeds on a file when none of its lines raises in pass 2 |
| `Assembler.AssembledLinesPass` | helpers/asm.py:149-208 | In a file on which `AssembleFresh` succeeds, no line raises |
| `Assembler.DataOfLine` | helpers/asm.py:185-208 | For `AssembleFresh`, the integers of a data line sit in their section's list, right after those of the earlier lines |
| `Assembler.ParsedCodeLength` | helpers/asm.py:109-183 | `parse_assembly` as written, on a file whose first significant line is a directive: `len(code)` equals pass 1's final `pc` |
| `Assembler.ParsedCodeOfLine` | helpers/asm.py:109-183 | `parse_assembly` as written, on such a file: the instruction on cleaned line `j` is encoded, labels substituted, at index `pc` of `code`, where `pc` is pass 1's count before line `j` |
| `Assembler.ParsedLabelAddress` | helpers/asm.py:109-183 | `parse_assembly` as written, on such a file: `code[code_labels[L]]` is the encoding of the first instruction after the last definition of `L` |
| `Assembler.ParsedSucceeds` | helpers/asm.py:109-210 | `parse_assembly` as written returns normally on such a file exactly when no cleaned line raises in the section pass 1 puts it in |
| `Assembler.ParsedDataOfLine` | helpers/asm.py:109-208 | `parse_assembly` as written, on such a file: the integers of a data line sit in their section's list, right after those of the earlier lines |
| `Assembler.AssembledCodeFits` | helpers/asm.py:183 | Every word in `code` is below 2^32 |
| `Assembler.LeadingInstructionMisplaced` | helpers/asm.py:110-165 | As written, an instruction before the first directive of a file whose last section is `.code` is encoded |
| `Assembler.LeadingInstructionSkipped` | helpers/asm.py:110-165 | When pass 2 starts outside any section, that line is ignored, as pass 1 ignored it |
| `Assembler.FirstPassLine` | helpers/asm.py:134-146 | One iteration of the pass-1 loop body computes `Pass1Step` |
| `Assembler.CollectLabels` | helpers/asm.py:127-146 | The pass-1 loop computes `section`, `pc` and `code_labels` as `FirstPassFrom` does |
| `Assembler.SecondPassLine` | helpers/asm.py:149-208 | One iteration of the pass-2 loop body computes `Pass2Step` with the source's readers |
| `Assembler.Emit` | helpers/asm.py:149-208 | The pass-2 loop computes `SecondPass`, stopping at the first exception |
| `Assembler.ParseAssembly` | helpers/asm.py:109-210 | `parse_assembly` returns `Assemble(lines)`: both loops, with pass 2 entered in pass 1's last section |
| `Image.PackU32` | helpers/asm.py:222 | `struct.pack('<I', v)` succeeds exactly for `v` in `[0, 2^32)` and gives four bytes. Otherwise it raises for `v` |
| `Image.PackThenUnpack` | helpers/asm.py:222 | Reading four packed bytes little-endian gives the word back |
| `Image.UnpackThenPack` | helpers/asm.py:222 | Packing the value of any four bytes gives those bytes, so the encoding is a bijection |
| `Image.PackWords` | helpers/asm.py:221-222 | A section packs to four bytes per word, or fails at a word that does not fit |
| `Image.PackWordsRoundTrip` | helpers/asm.py:220-222 | A section packs exactly when every word fits, and reads back as the same words |
| `Image.WriteBinaryOutcome` | helpers/asm.py:214-222 | `write_binary` completes exactly when every count and word fits 32 bits. It then writes `20 + 4 * (sum of counts)` bytes |
| `Image.TakeWords` | src/main.c:75-85 | The loader takes `n` words exactly when at least `4n` bytes remain, and leaves the rest |
| `Image.TakePacked` | src/main.c:75-85 | A packed section is read back off the front of whatever follows it |
| `Image.ImageRoundTrip` | src/main.c:75-85 | Reading the documented layout from `write_binary`'s bytes gives back the code, the three CSR lists and the memory |
| `CTypes.ToU32` | src/graph.c:17 | `int32_t` to `uint32_t` is reduction mod 2^32, and converting back gives the original |
| `CTypes.ToI32` | src/graph.c:21 | `uint32_t` to `int` is congruent mod 2^32 and keeps values that fit |
| `CTypes.SubU32` | src/graph.c:85 | `end - start` in `uint32_t` wraps below zero |
| `CTypes.SubSize` | src/graph.c:127 | `end - start` in `size_t` wraps below zero |
| `CTypes.ToSize` | src/graph.c:108 | `int32_t` to `size_t` keeps non-negative values and is congruent mod 2^32 |
| `Frontier.Slot` | src/datastructures.c:41 | `counter & QUEUE_MASK` is `counter mod 1024` |
| `Frontier.SlotsDistinct` | include/datastructures.h:7-8 | Counters less than a full ring apart use different slots |
| `Frontier.WindowPush` | src/datastructures.c:41-42 | Writing slot `front & QUEUE_MASK` of a non-full ring appends to the queued window |
| `Frontier.WindowPop` | src/datastructures.c:63-64 | The slot of `back` is the oldest queued value, and advancing `back` drops it |
| `Frontier.QueueInit` | src/datastructures.c:11-22 | A null queue gives -1. Otherwise all 1024 slots and both counters are 0, the queue is empty, and the result is 0 |
| `Frontier.QueuePush` | src/datastructures.c:33-44 | A null queue gives -1. A full queue gives -1 and changes nothing. Otherwise slot `front & 1023` gets the node, `front` grows by one, `back <= front <= back + 1024` is kept, the contents gain the node at the end, and the result is 0 |
| `Frontier.QueuePop` | src/datastructures.c:55-66 | A null queue or result gives -1. An empty queue gives -1 and changes nothing. Otherwise the result receives the oldest value, `back` grows by one, the contents lose their first element, and the result is 0 |
| `Frontier.QueueEmpty` | src/datastructures.c:76-82 | A null queue gives -1. Otherwise the result is 1 exactly when the queue is empty and 0 otherwise, and nothing changes |
| `Frontier.FrontierInit` | src/datastructures.c:93-112 | A null frontier gives -1. Otherwise the type is stored first. A queue type initialises its queue, and any other type gives -1 with the queue untouched |
| `Frontier.FrontierPush` | src/datastructures.c:123-139 | It dispatches to the queue push for queue frontiers: 0 exactly when there was room, and the node is appended. Any other type gives -1 and changes nothing |
| `Frontier.FrontierPop` | src/datastructures.c:150-166 | It dispatches to the queue pop for queue frontiers: 0 exactly when the queue held a value, which is handed out in FIFO order. Any other type gives -1 and changes nothing |
| `Frontier.FrontierEmpty` | src/datastructures.c:176-192 | A queue frontier answers 1 or 0 as its queue is empty or not. A null frontier or any other type gives -1 |
| `CsrGraph.LastProbe` | src/graph.c:21 | `int h = end - 1` is `end - 1`, including -1 for an empty row at 0 |
| `CsrGraph.HasEdge` | src/graph.c:48-69 | On a sorted row, the binary search terminates, and its loop invariant keeps every probe inside the row's slice. It returns 1 exactly when `v` occurs in `col_index[row_index[u] .. row_index[u+1])`, and 0 otherwise. A decreasing pair `row_index[u] > row_index[u+1]` gives 0 without reading `col_index` |
| `CsrGraph.GetWeight` | src/graph.c:15-36 | On a sorted row, it returns `values[k]` for some `k` in the row with `col_index[k] == v`, and 0 when `v` is absent. A decreasing pair `row_index[u] > row_index[u+1]` gives 0 |
| `CsrGraph.Degree` | src/graph.c:153-160 | The degree is `row_index[u+1] - row_index[u]` in `uint32_t`, widened to `size_t` |
| `CsrGraph.GetNeighbors` | src/graph.c:81-89 | The slice starts at `row_index[u]`. `*size` is the degree, converted to `int` |
| `CsrGraph.NeighborsAreRow` | src/graph.c:81-89 | For an in-bounds row, the returned slice is exactly the row: `v` is in it exactly when `v` is a neighbour of `u` |
| `CsrGraph.InitIterator` | src/graph.c:101-112 | A null iterator or graph gives -1 and leaves the iterator untouched. Otherwise it sets `start`, `end`, `current_index = 0` and `it_node = node = node`, and the result is 0 |
| `CsrGraph.NextNeighbor` | src/graph.c:124-142 | As written: while `current_index < end - start`, it reads `col_index[current_index]` and `values[current_index]` at the un-offset index, writes them to the non-null outputs and advances by one. Otherwise it gives -1 and changes nothing |
| `CsrGraph.NextNeighborInRow` | src/graph.c:124-142 | Corrected iterator: each success reads `col_index[start + current_index]` inside the row, so the iteration visits exactly the row's neighbours |
| `CsrGraph.VisitNeighbors` | src/graph.c:101-142 | `graph_init_iterator` on node `u`, then `graph_next_neighbor` until it gives -1: the calls succeed exactly `end - start` times, and the nodes handed out are `col_index[0 .. end - start)`, whichever row `u` is |
| `CsrGraph.VisitRow` | src/graph.c:101-142 | The same walk with the corrected iterator hands out exactly row `u`'s slice `col_index[start .. end)`, in order |
| `CsrGraph.IterationExample` | src/graph.c:130-131 | On a graph with `row_index = [0, 1, 3, ...]` and `col_index = [1, 0, 2, ...]`, walking node 1 with the iterator as written gives `[1, 0]`, and with the corrected one gives its neighbours `[0, 2]` |
| `GraphBuilder.NonZeroEntries` | helpers/graph.py:16-19 | Each collected column is in `[0, n)` with a non-zero cell, and its value is that cell |
| `GraphBuilder.NonZeroSorted` | helpers/graph.py:16-18 | The collected columns of a row strictly increase |
| `GraphBuilder.NonZeroComplete` | helpers/graph.py:16-18 | Every non-zero cell of the row is collected |
| `GraphBuilder.ColumnsInRange` | helpers/graph.py:16-18 | Every `col_index` entry is in `[0, n)` |
| `GraphBuilder.ConvertRow` | helpers/graph.py:16-20 | The inner loop appends row `i`'s non-zero columns and values, and `col_length` counts them |
| `GraphBuilder.ConvertedStep` | helpers/graph.py:14-20 | One outer iteration keeps the conversion invariant: the lists hold rows `0 .. i` |
| `GraphBuilder.Graph.constructor` | helpers/graph.py:5-21 | `m == n == len(matrix)`. `row_index`, `col_index` and `values` are the CSR of the matrix |
| `GraphBuilder.RowIndexAt` | helpers/graph.py:13-21 | `row_index[i]` is the number of non-zero cells in the rows above `i` |
| `GraphBuilder.RowIndexShape` | helpers/graph.py:13-21 | `len(row_index) == len(matrix) + 1` and `row_index[0] == 0`. `row_index` is non-decreasing, and `row_index[-1] == len(col_index) == len(values)` |
| `GraphBuilder.RowSlice` | helpers/graph.py:14-20 | Row `i`'s slice of `col_index` (and of `values`) is exactly its non-zero columns (and cells) |
| `GraphBuilder.RowEntries` | helpers/graph.py:14-20 | Row `i`'s slice strictly increases and lies in `[0, n)`, with `values[k] == matrix[i][col_index[k]]`. `matrix[i][j] != 0` exactly when `j` is in the slice, which is the sorted-row precondition of the C binary search |
| `GraphBuilder.Texts` | helpers/graph.py:26 | `map(str, xs)`, element by element |
| `GraphBuilder.ListTextChars` | helpers/graph.py:26 | A printed list is made of digits, signs, commas and spaces. It is empty exactly for an empty list, and starts and ends with a numeral |
| `GraphBuilder.ListTextReadsBack` | helpers/graph.py:26 | The assembler's data-line reader turns `", ".join(map(str, xs))` back into `xs` |
| `GraphBuilder.TextsReadBack` | helpers/graph.py:26 | `int(str(x), 0)` over a list gives the list back |
| `GraphBuilder.ReadLinesCons` | helpers/asm.py:234-235 | Reading lines splits off the text up to and including the first newline |
| `GraphBuilder.SectionLines` | helpers/graph.py:26 | One printed section is read as its heading line, its list line and a blank line |
| `GraphBuilder.StrLines` | helpers/graph.py:23-29 | `str(graph)` is read as the three sections' lines, in the order `.row_index`, `.col_index`, `.values` |
| `GraphBuilder.CleanedLines` | helpers/asm.py:128-132 | Cleaning those lines leaves each heading, each list and an empty line |
| `GraphBuilder.ListingPass` | helpers/asm.py:185-204 | Pass 2 over the three cleaned sections appends each list line's integers to its own list |
| `GraphBuilder.AssembleListing` | helpers/asm.py:185-204 | Both passes over the cleaned printout give empty code and memory, and the three lists |
| `GraphBuilder.StrReadsBack` | helpers/graph.py:23-29 | `parse_assembly` over the lines of `str(graph)`, split as `readlines()` splits them, returns empty code and memory and the graph's own `row_index`, `col_index` and `values` |
| `GraphBuilder.PyIndex` | helpers/graph.py:76 | A list index in `[-n, n)` names the cell Python's negative indexing gives |
| `GraphBuilder.UnwrittenCell` | helpers/graph.py:74 | A cell no edge writes stays 0 |
| `GraphBuilder.LastWriteWins` | helpers/graph.py:75-77 | A cell holds the weight of the last edge that writes it |
| `GraphBuilder.LastWeightSymmetric` | helpers/graph.py:76-77 | The edges write cells `(i, j)` and `(j, i)` alike |
| `GraphBuilder.ToAdjacencyMatrix` | helpers/graph.py:71-79 | The result is `n` by `n`. Each cell holds the weight of the last edge between its two nodes, or 0 when there is none. The matrix is symmetric |

## Left out

- The `main()` functions: the assembler's command line, file handles and the two `print` calls of `write_binary`, and the editor's pygame loop, drawing, spatial hash, `intersect_point`, `dist_to_line` and `closest_edge`. These are I/O and floating-point UI geometry.
- `src/graphX.c` is not part of this model; it does not compile, and its decoder's layout disagrees with the encoder. `src/main.c` is used only for its documented image layout. `pagerank.py` and `test/baseline` are out of scope: they are floating-point iteration and fixed-input benchmarks.
- Non-integer matrix cells and edge weights: cells are integers, so the `int(...)` test of the conversion is the identity.
- `PyText.Split`: Python's `re` engine is modelled only as splitting on runs of `,` and the Unicode whitespace that `\s` and `str.strip` share. `int(s)` and `int(s, 0)` cover signs, decimal, `0x`/`0o`/`0b` prefixes and single underscores between digits; other Unicode digit forms are read as failures.
- `Image.WriteBinary`: when `struct.pack` raises part-way, the bytes already written stay in the file. The model returns only the error and not that prefix.
- `Frontier.QueuePush`: the `uint64_t` counters are unbounded naturals. Wrap-around needs 2^64 operations, and 1024 divides 2^64, so the slot arithmetic is unaffected.
- `Frontier.QueueInit`: the `static` queue functions are only called with a queue embedded in a frontier. A null queue is modelled through nullable references, and aliasing between the result cell and the queue is excluded by their types.
- `CsrGraph.HasEdge`: requires both row bounds to lie within the 65536-entry arrays, and a non-decreasing row to be sorted, as the source's comment assumes. Out-of-bounds reads are undefined behaviour in C, and what the search returns on an unsorted row is not stated. A decreasing pair of bounds is covered: it returns 0.
- `CsrGraph.GetWeight`: requires the same bounds and sorted row as `CsrGraph.HasEdge`.
- `CsrGraph.NextNeighbor`: requires the index it reads to be inside the 65536-entry arrays; a read past them is undefined behaviour in C. When `neighbor` and `weight` point at the same cell, only the weight written last is stated.
- `CsrGraph.VisitNeighbors`: requires a non-decreasing, in-bounds row. With a decreasing pair, `end - start` wraps in `size_t` and the walk reads past the arrays, which is undefined behaviour in C.
- `CsrGraph.VisitRow`: requires the same non-decreasing, in-bounds row as `CsrGraph.VisitNeighbors`.
- `CsrGraph.GetNeighbors`: the returned pointer is modelled as an offset into `col_index` and a size.
- `GraphBuilder.Graph.constructor`: requires every row to have at least `len(matrix)` cells; a shorter row raises `IndexError` in the source, and that path is not modelled.
- `GraphBuilder.ToAdjacencyMatrix`: requires every edge endpoint to be a valid Python index of an `n`-element list; others raise `IndexError`. The nested lists are modelled as a sequence of row values, since no two rows are the same list object.
- `GraphBuilder.StrReadsBack`: the printed text is split into lines as `readlines()` does; the file written in between is not modelled.
- The header comments of `include/datastructures.h:13-14` say pops come from `front`; the code pushes at `front` and pops from `back`, and the model follows the code.

## Findings

| source | as written | input that shows it | evidently intended | confidence | as-written member | corrected member |
|---|---|---|---|---|---|---|
| src/graph.c:130-131 | the iterator reads `col_index[current_index]` and `values[current_index]`, without adding `start` | `row_index = [0, 1, 3]`, `col_index = [1, 0, 2]`, iterating node 1 yields `[1, 0]` instead of `[0, 2]` | read at `start + current_index`, inside the row | not executed; high | `CsrGraph.NextNeighbor`, `CsrGraph.VisitNeighbors`, `CsrGraph.IterationExample` | `CsrGraph.NextNeighborInRow`, `CsrGraph.VisitRow` |
| helpers/asm.py:110 | `section` is set once, so pass 2 starts in the section pass 1 ended in | lines `["HALT", ".code"]`: pass 1 counts no instruction, but pass 2 encodes `HALT` and `code == [0]` | lines before the first directive are ignored by both passes | not executed; medium | `Assembler.LeadingInstructionMisplaced` | `Assembler.LeadingInstructionSkipped`, `Assembler.AsWrittenAgrees` |
