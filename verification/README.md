# LuaJIT cores: models and proofs

These Dafny modules model the algorithmic cores of a LuaJIT that runs several
threads without a global lock, and prove what those cores promise:

- **DynASM for x86** (`Dasm*.dfy`, `dynasm/dasm_x86.h`). `DasmEncoder` is the
  encoder with its real arrays and pass 1; `DasmLink` is pass 2 and `DasmEncode`
  pass 3; `DasmBuild` is the client that finishes the interpreter's code. The
  section buffers hold label references threaded into chains, so `DasmChains` and
  `DasmLabels` relate them to the history of the puts: which definition each
  reference *means* is defined on that history alone (`IsTarget`), and every step
  keeps the buffers in agreement with it. `DasmLayout` and `DasmLinking` hold the
  argument for shrinking in one pass: between any two places, the final distance
  is never more than the estimate, so a branch that fits by the estimate fits.
  `DasmEmit` says what bytes come out and reads them back as a processor does.
  `DasmMeaning` says the same from the action list alone, with the numbers that stand
  in it: which events a put records, which check fails first, and what the finished
  code has for each listed byte, branch, immediate and padding.
- **Pattern matcher** (`Lua*.dfy`, `src/lib_string.c`). `LuaPattern.Best` is the
  outcome that a pattern means, without state; `LuaMatch.MatchState` is the C code
  with its capture array changed and undone in place. `LuaReference` is the pattern
  language as the manual explains it, character by character, for repetitions that are
  chosen beforehand; `LuaPriority` shows that the outcome is that of the first choices in
  priority order that do not fail.
- **Allocator** (`Alloc*.dfy`, `src/lj_alloc.c`). `AllocTiles` is the tiling of the
  segment by chunks with the heads and feet in word memory, `AllocSmall` the rings
  of the small bins, `AllocTrie`, `AllocWiring`, `AllocSearch` and `AllocTree` the
  32 tries with their rings of equal sizes, and `AllocHeap` malloc, free and
  realloc on top of them.
- **Register moves of the trace assembler** (`AsmMoves.dfy`, `AsmPhi.dfy`,
  `src/lj_asm.c`). Code is emitted backwards and executed forwards: the emitted
  list is run on an arbitrary machine state to say where each value ends up.
- **Threads** (`Admission.dfy`, `LiveList.dfy`, `RequireClaims.dfy`). Transition
  systems with one step per atomic access and any number of threads, and
  theorems about all their runs.
- **Smaller pieces**: `TableSort.dfy` (`table.sort`), `RefTable.dfy` (`luaL_ref`),
  `LogicalImm.dfy` (logical immediates of ARM64). `Bytes` and `Powers` are shared.

`dafny verify dfyconfig.toml` checks everything.

## What is not true of the code

Two things that one would like to hold do not; each has its exact condition here.

- The tree bins of the allocator are not in order of size for all sizes, since
  `compute_tree_index` cuts the shifted size to 32 bits: a chunk of 2^40 bytes goes
  to the first bin, one of 12 MB to the last (`AllocIndex.OutOfOrder`).
  `AllocIndex.IndexMonotone` says for which sizes the order holds (exactly those of
  `Sized`: below 2^40, or with bits 8 to 39 that alone make the least size of the
  last bin). Best fit is proved under that condition on the sizes involved; everything
  else about the heap is proved without it.
- `dasm_imm13` returns an encoding for some 64-bit numbers that have none, such as
  2^40 + 2^56 (`LogicalImm.Irregular`). It is right about a number it accepts
  exactly if the first run of ones ends inside the first period
  (`LogicalImm.Imm13`), which always holds when both halves are equal.

Two results rest on what other code establishes first, and are stated as such:

- The values that a side trace inherits come from different parent registers, because
  snapshot replay emits one reference for each parent reference (`src/lj_snap.c:656-687`,
  `src/lj_snap.c:723`). `AsmMoves.AsmState.HeadSide` shows that the shuffle needs
  no more than that, and needs it.
- No PHI gets the last register of a file (`src/lj_asm.c:1798-1799`). From this alone
  `AsmPhi.PhiState.PhiShuffle` always succeeds, evicting a register where none is free.

## Model

| member | source | states |
|---|---|---|
| DasmEncoder.Encoder.constructor | dynasm/dasm_x86.h:84-146 | A new encoder satisfies the invariant of pass 1 with an empty history in every section. |
| DasmEncoder.Encoder.Put | dynasm/dasm_x86.h:162-269 | A put ends with exactly the status that its action list and arguments call for (the first immediate, local, global, PC label or section that fails its range check, or OK); when OK it has added precisely its actions with their arguments to its section and its label events to the history, other sections are as before, and the invariant that ties chains, label words and buffers to the history holds again. |
| DasmMeaning.PutListed | dynasm/dasm_x86.h:162-269 | What a put stores is what the list says byte by byte: one cell for each action, at its place and with its argument, up to and including 254 or 255, and for each of the bytes 244, 245, 248 and 249 the label event that the byte behind it or the argument names. |
| DasmMeaning.StatusListed | dynasm/dasm_x86.h:189-249 | The status of a put is the code of the first listed action that fails its check: immediates out of range (234, 235, 236, 238), a backward local without a visible definition, a label number beyond the table, a PC label or section that does not exist. |
| DasmEncoder.Encoder.Reserve | dynasm/dasm_x86.h:171-176 | Afterwards a maximal put fits into the buffer of the active section; what the buffers say is unchanged. |
| DasmEncoder.BwdCheck | dynasm/dasm_x86.h:219-220 | The range check for a backward reference passes exactly if a definition of that local label is visible and no forward reference has reopened it. |
| DasmChains.SlotNamesTarget | dynasm/dasm_x86.h:215-250 | At every point between the steps of pass 1, the slot of a reference holds the position of the one definition it means (next one for a forward local, latest earlier one for a backward local, for globals and PC labels the latest earlier or else the first later one); while there is none yet, it holds the next older open reference to the label. |
| DasmChains.TargetUnique | dynasm/dasm_x86.h:215-250 | A reference never means two definitions. |
| DasmLabels.RefStep | dynasm/dasm_x86.h:215-241 | Storing a reference and, for an undefined label, putting it at the head of the chain keeps the invariant. |
| DasmLabels.DefStep | dynasm/dasm_x86.h:243-249 | A definition that collapses the chain of its label, sets the label word and stores its offset keeps the invariant: every open reference to it is resolved and no other one touched. |
| DasmEncoder.Encoder.Collapse | dynasm/dasm_x86.h:247 | The loop ends, although positions along a chain go up and down across sections, and has written exactly the slots of the open references to the label. |
| DasmLabels.CollapseTurn | dynasm/dasm_x86.h:247 | The slot that a turn of the loop overwrites holds the position of the next older open reference, so the loop goes on along the chain. |
| DasmLink.CheckStep | dynasm/dasm_x86.h:507-522 | Reports the first local label with an open forward reference, else forgets the local labels (keeping the invariant) and checks the section. |
| DasmLabels.ResetStep | dynasm/dasm_x86.h:507-516 | Zeroing the words of local labels without open references keeps the invariant for all other references and later ones. |
| DasmLabels.ExternalStep | dynasm/dasm_x86.h:288-295 | Collapsing the chain of an undefined global gives each of its references the marker -idx and leaves all other references alone. |
| DasmLink.BindGlobals | dynasm/dasm_x86.h:288-295 | After the loop over all globals, exactly the open references to globals have become markers of their own global. |
| DasmLayout.Slack | dynasm/dasm_x86.h:297-357 | Between any two places, in the same or different sections, the final distance is non-negative and at most the distance estimated with maximal sizes and the estimated sizes of the sections. |
| DasmLayout.ShortBranchFits | dynasm/dasm_x86.h:316-333 | Each branch that pass 2 made short has a final displacement from -128 to 127, whether its label was already fixed or still estimated at the time. |
| DasmLayout.AlignedAfter | dynasm/dasm_x86.h:342 | After an ALIGN the final offset is a multiple of the alignment, and none lies between. |
| DasmActions.MaskIsMod | dynasm/dasm_x86.h:472-474 | On 32-bit words, `&` with each mask an alignment can have is the remainder that the model uses. |
| DasmLink.RelFacts | dynasm/dasm_x86.h:316-333 | The words read from the buffers, with their mix of fixed and estimated labels, yield the decision defined on the history: the exact distance backwards, the summed estimates forwards. |
| DasmLinking.LinkStep | dynasm/dasm_x86.h:306-349 | One action of pass 2 extends the layout by one cell: all fixed label slots hold final offsets, all others their estimates. |
| DasmLinking.LinkSection | dynasm/dasm_x86.h:352 | The next section starts where the one before ends in the final code. |
| DasmLink.Link | dynasm/dasm_x86.h:272-362 | Reports the first PC label used without a definition; otherwise all sections are laid out, every label slot holds its final offset, undefined globals are bound, and the size is that of the layout. |
| DasmEmit.OutSize | dynasm/dasm_x86.h:391-482 | Pass 3 has emitted exactly as many bytes when it passes a cell as pass 2 says the cell's offset is: the passes agree at every action. |
| DasmEmit.CodeSize | dynasm/dasm_x86.h:488-490 | The whole code has the size that pass 2 announced. |
| DasmEmit.BranchReachesLabel | dynasm/dasm_x86.h:442-454 | Decoding the emitted JMP or Jcc (EB, E9, 70-7F, 0F 80-8F of the Intel SDM, volume 2) at its place in the finished code gives the final offset of the definition that the reference means. |
| DasmEmit.ImmediateBytes | dynasm/dasm_x86.h:412-420 | In the finished code an immediate is the little-endian form of its argument in the width that pass 1 reserved; for a sign-extended byte the opcode two bytes before has been raised by 2. |
| DasmEmit.PaddingBytes | dynasm/dasm_x86.h:471-474 | SPACE leaves as many filler bytes as its argument says, ALIGN leaves only NOPs. |
| DasmEmit.ExternalBytes | dynasm/dasm_x86.h:442-446 | A reference to an undefined global ends in a displacement that leads from the end of the instruction to the global's address. |
| DasmMeaning.LiteralStays | dynasm/dasm_x86.h:478-480 | Each instruction byte of the list stands in the finished code at the final offset of its cell, and an escaped one is the byte behind 252; only a short branch next to it or a sign-extended immediate may change it. |
| DasmMeaning.OpcodeBefore | dynasm/dasm_x86.h:306-349 | The two opcode bytes that a branch or immediate looks back on are the list bytes of the two cells in front of it. |
| DasmMeaning.BranchOpcode | dynasm/dasm_x86.h:313-315 | Every relative reference comes behind its opcode byte in the list, and one of 80 to 8F behind 0F. |
| DasmMeaning.BranchLabel | dynasm/dasm_x86.h:215-241 | The event of a relative reference is the label that the list names at its place. |
| DasmMeaning.BranchMeaning | dynasm/dasm_x86.h:442-454 | With the opcode of the list, JMP, Jcc or any other (CALL among them), the finished bytes lead to the final offset of the one definition that the reference means. |
| DasmMeaning.ShortExactly | dynasm/dasm_x86.h:313-333 | A branch is short exactly if its opcode is E9 or 80 to 8F and its distance, final for a label before it and estimated for one behind it, fits; E9 saves 3 bytes and the others 4. |
| DasmMeaning.ImmediateMeaning | dynasm/dasm_x86.h:412-420 | Reading the finished bytes of an immediate back, signed, unsigned or 32 bits wide as its action says, gives the argument it was put with; a sign-extended one has the opcode of the list plus 2 in front. |
| DasmMeaning.PaddingMeaning | dynasm/dasm_x86.h:471-474 | SPACE leaves as many copies of the listed byte as its argument says; ALIGN leaves 90 up to the next multiple of the listed mask plus 1, and less than one such step. |
| DasmMeaning.AllMeans | dynasm/dasm_x86.h:391-482 | All this holds of every cell of the finished code at once. |
| DasmEncode.Encode | dynasm/dasm_x86.h:384-491 | Writes exactly the code of the layout into the buffer, stays inside the announced size, gives each defined global its address and no other, and never returns DASM_S_PHASE. |
| DasmEncode.GetPcLabel | dynasm/dasm_x86.h:494-504 | The final offset of the latest definition of a PC label, or -2 for an unused or out-of-range label; never -1 after linking. |
| DasmBuild.BuildCode | src/host/buildvm.c:196-213 | Check, link, encode and collect offsets after any puts: success exactly if no local label is open, no PC label used without a definition and every bytecode has its label, the first one without being reported; on success the finished code says for every listed byte, branch, immediate and padding what the list said, and each handler offset is that of its label. |
| LuaMatch.FindClassEnd | src/lib_string.c:191-210 | The end of a single-character item, or its two pattern errors, as the pattern's grammar defines it. |
| LuaMatch.MatchSet | src/lib_string.c:232-253 | A character is accepted exactly if one of the listed parts (classes and ranges) contains it, or for `^` none. |
| LuaMatch.SingleMatch | src/lib_string.c:255-263 | A character is accepted exactly if it is among those that the item describes: an item is a list of classes and ranges, taken as it is or complemented, and `.` is the complement of nothing. |
| LuaPattern.ListedParts | src/lib_string.c:240-252 | Reading a set from left to right, with its escapes and ranges, finds a character exactly if some part of the set contains it. |
| LuaChars.ClassMeaning | src/lib_string.c:212-230 | The test by the low five bits of a class name agrees with the classes by name: lower case names a class, upper case its complement, and any other character itself. |
| LuaChars.Alphabet | src/lj_char.c:26-43 | The character classes, written out as the characters they contain. |
| LuaMatch.MatchBalance | src/lib_string.c:267-286 | The end of the balanced text, NULL, or the error for a pattern that ends too early. |
| LuaPattern.ClosesFirst | src/lib_string.c:273-285 | `%bxy` ends at the first place where the nesting level, counted from the text itself, is 0, and fails exactly if there is none. |
| LuaMatch.MatchState.MaxExpand | src/lib_string.c:288-301 | Greedy repetition: outcome, captures and depth are those of trying every count downwards from the longest stretch. |
| LuaMatch.MatchState.MinExpand | src/lib_string.c:303-315 | Lazy repetition: the same, counting upwards. |
| LuaMatch.MatchState.StartCapture | src/lib_string.c:317-329 | Opens a capture for the rest of the pattern and undoes it when the rest fails; too many captures are an error. |
| LuaMatch.MatchState.EndCapture | src/lib_string.c:331-340 | Closes the innermost open capture for the rest of the pattern and reopens it when the rest fails. |
| LuaMatch.MatchState.CaptureToClose | src/lib_string.c:182-189 | The innermost capture that is still open, or the error. |
| LuaMatch.MatchState.MatchCapture | src/lib_string.c:342-352 | A back-reference to a closed capture matches exactly if each of the next characters equals the one at the same place of the captured text, and then ends behind them; an invalid or open capture is an error. |
| LuaMatch.MatchState.DoMatch | src/lib_string.c:354-437 | The matcher returns the outcome that the pattern means: an end with the captures meant, NULL with level and captures as on entry, or that error; "pattern too complex" exactly if the depth needed exceeds the limit; the depth is balanced. |
| LuaMatch.Find | src/lib_string.c:491-516 | The search returns the leftmost start at which the pattern matches and fails only if it matches nowhere; an anchored pattern is tried once. |
| LuaPriority.FirstInPriority | src/lib_string.c:288-437 | The outcome is the one of the first choice of counts in priority order (most repetitions first for `*`, `+`, `?`, fewest first for `-`) that does not fail, and it is a failure exactly if every choice fails. What a choice leads to is said by characters of the subject (`LuaReference.Follow`), with nothing of the matcher in it. |
| LuaPriority.BracketsIs | src/lib_string.c:232-253 | A set contains a character exactly if one of its escapes, ranges and single characters has it, or, behind `^`, none. |
| LuaPriority.BalanceIs | src/lib_string.c:267-286 | `%bxy` matches from x to the place where the nesting of the text first comes down to 0, and nothing else. |
| LuaPriority.BackRefIs | src/lib_string.c:342-352 | A back-reference ends at `e` exactly if the text up to `e` repeats the captured one character by character. |
| LuaPriority.EscIs | src/lib_string.c:369-397 | Balance, frontier (the set begins between the two neighbouring characters, with 0 in front of the subject and behind it) and back-references, with their errors, do what is said of the characters. |
| LuaPriority.InnermostIs | src/lib_string.c:182-189 | The capture that is closed is the last one that is open, and there is an error exactly if none is. |
| LuaPriority.StarsNeed | src/lib_string.c:354-357 | `n` items `a*` take exactly n nested calls on every subject, which is what the limit of "pattern too complex" counts. |
| LuaPriority.ChoiceFollows | src/lib_string.c:354-437 | Following the counts the matcher settles on, without any search, gives its outcome. |
| LuaPriority.ChoiceFirst | src/lib_string.c:288-437 | Those counts come no later in priority order than any others that do not fail. |
| LuaPriority.CountFirst | src/lib_string.c:288-315 | If any admissible count of an item lets the rest succeed, the item succeeds, with a count at least as large (for `-`: as small). |
| LuaPriority.WellFormedNoError | src/lib_string.c:354-437 | A well-formed pattern raises no error on any text from any reachable captures. |
| AllocBitmap.BinsMarked | src/lj_alloc.c:645-651 | On the 32-bit word, marking bin `i` adds exactly `i` to the set of marked bins. |
| AllocBitmap.BinsCleared | src/lj_alloc.c:645-651 | Clearing removes exactly `i`. |
| AllocBitmap.BinsLater | src/lj_alloc.c:655-656 | `left_bits` of a bin, and-ed with the map, leaves exactly the marked bins after it. |
| AllocBitmap.Lowest | src/lj_alloc.c:1163-1165 | The bin taken from a map is marked and the first one. |
| AllocIndex.IndexInBin | src/lj_alloc.c:614-637 | The bin of a size holds the sizes from its minimum to the next bin's, for sizes whose shifted value is not cut. |
| AllocIndex.IndexMonotone | src/lj_alloc.c:614-625 | The index of a size is at least that of every smaller size exactly if the size is one that is not sent to too low a bin by the cut to 32 bits. |
| AllocIndex.OutOfOrder | src/lj_alloc.c:614-625 | 2^40 bytes go to the first bin and 12 MB to the last. |
| AllocIndex.SteerStep | src/lj_alloc.c:742-746 | The top bit of the shifted size is the digit of the size at the current depth, and stays so one level down. |
| AllocIndex.DigitOrder | src/lj_alloc.c:628-635 | Of two sizes of a bin, the one with the set digit where they first differ is larger: the tries are in order. |
| AllocRing.RingJoin | src/lj_alloc.c:756-759 | Linking behind the head gives the ring with the chunk in the second place, for any ring. |
| AllocRing.RingDrop | src/lj_alloc.c:770-774 | Unlinking from a ring of several gives the ring without the chunk, and the predecessor that takes its place. |
| AllocTree.TreeBins.Insert | src/lj_alloc.c:728-765 | Keeps the tries well formed (placed by digits, same sizes in rings, parents and children in agreement, map bits exactly for non-empty bins) and adds precisely the chunk. |
| AllocTree.TreeBins.FindSpot | src/lj_alloc.c:741-755 | The walk ends at the node of the same size if the path has one, else at a free child link where the size belongs. |
| AllocTree.TreeBins.Unlink | src/lj_alloc.c:767-811 | Keeps the tries well formed and removes precisely the chunk, in each of its cases: ring member, leaf, inner node, root. |
| AllocTree.TreeBins.LeafBelow | src/lj_alloc.c:776-786 | The replacement is a leaf strictly below the node, now cut from its parent. |
| AllocTrie.PlacedReplaced | src/lj_alloc.c:776-810 | A leaf from below may take a node's place: all chunks still sit where their digits send them. |
| AllocWiring.Install | src/lj_alloc.c:787-810 | Repointing the parent, or the bin, and adopting both children links the new node exactly where the old one was. |
| AllocWiring.WiredReplaced | src/lj_alloc.c:776-810 | Cutting the leaf and installing it wires precisely the trie with the leaf in the node's place. |
| AllocSearch.SeekStep | src/lj_alloc.c:1142-1159 | One turn of the guided walk: every chunk that would fit better than the candidate is still below the current slot or the last right sibling left behind. |
| AllocSearch.NearerIsSmaller | src/lj_alloc.c:1150-1155 | The right sibling left behind last has only smaller sizes than those left earlier, so remembering one is enough. |
| AllocSearch.DescendStep | src/lj_alloc.c:1168-1175 | Going down the leftmost children passes no better fit by. |
| AllocTree.TreeBins.FindFit | src/lj_alloc.c:1130-1175 | What it returns fits and is in the tries; for sizes in order it has the least size that fits, and there is none only if none fits. |
| AllocTree.TreeBins.FindLeast | src/lj_alloc.c:1194-1211 | The least chunk of all tries. |
| AllocSmall.SmallBins.Insert | src/lj_alloc.c:675-687 | Adds precisely the chunk to the ring of its size; the map agrees. |
| AllocSmall.SmallBins.Unlink | src/lj_alloc.c:690-700 | Removes precisely the chunk; the map bit is cleared exactly if its bin has become empty. |
| AllocSmall.SmallBins.UnlinkFirst | src/lj_alloc.c:703-711 | Removes a chunk of exactly the bin's size. |
| AllocTiles.PrevChunk | src/lj_alloc.c:461-462 | A clear PINUSE bit means that the foot in front leads to a free chunk that ends here; a set one that the chunk in front is in use. |
| AllocTiles.Covered | src/lj_alloc.c:456-462 | Every address of the segment lies in exactly one chunk. |
| AllocTiles.SplitTile | src/lj_alloc.c:1304-1306 | The words written when a free chunk is split leave sound tags for both parts. |
| AllocTiles.SplitTopTile | src/lj_alloc.c:1340-1345 | The same for a split of top. |
| AllocTiles.CutTile | src/lj_alloc.c:1439-1445 | The same for cutting the rest off a chunk in use. |
| AllocTiles.GrowTile | src/lj_alloc.c:1447-1456 | The same for growing a chunk into top. |
| AllocTiles.MergeFree | src/lj_alloc.c:472-477 | The tags of a free chunk written over a whole run of chunks between chunks in use are sound for the merged chunk. |
| AllocTiles.MergeTop | src/lj_alloc.c:1381-1384 | The same for a run that ends in top. |
| AllocTiles.ExtendTop | src/lj_alloc.c:875-888 | Setting up a larger top keeps all tags sound. |
| AllocTiles.FreshSound | src/lj_alloc.c:1226-1249 | The words of a fresh segment describe the state chunk followed by top. |
| AllocTiles.UserWrite | src/lj_alloc.c:439-477 | A write of the user into a block in use, up to the last word it may use, destroys no tag and no other block. |
| AllocTiles.FreeWrite | src/lj_alloc.c:392-397 | A write into a free chunk between its head and its foot destroys no tag and no block. |
| AllocHeap.RequestSize | src/lj_alloc.c:431-437 | The chunk for a request is 8-aligned, at least minimal, and holds the request beside its head. |
| AllocHeap.Heap.constructor | src/lj_alloc.c:1226-1249 | A new heap is valid and has the state chunk as its only block. |
| AllocHeap.Heap.ReplaceDv | src/lj_alloc.c:715-723 | The old designated victim, if any, is in its small bin, and the new one is in place: every free chunk is filed exactly once. |
| AllocHeap.Heap.InsertChunk | src/lj_alloc.c:815-817 | A loose free chunk is filed in the bin of its size and nothing else changes. |
| AllocHeap.Heap.UnlinkChunk | src/lj_alloc.c:819-821 | A binned chunk becomes loose and nothing else changes. |
| AllocHeap.Heap.TmallocSmall | src/lj_alloc.c:1194-1222 | Serves a small request from a chunk of least size over all tree bins (for sizes in order); the rest becomes dv. |
| AllocHeap.Heap.TmallocLarge | src/lj_alloc.c:1130-1191 | Serves a large request with the best fit of all tree bins (for sizes in order), and only if dv cannot hold it or is larger than the chunk; or returns NULL with nothing changed, and then dv fits at least as well as every tree chunk that can hold the request. |
| AllocHeap.Heap.MallocSmall | src/lj_alloc.c:1273-1312 | Serves a small request from a small bin that fits without remainder or almost, else, if dv is too small, from the least small chunk or the least tree chunk, the rest becoming dv; or leaves everything unchanged, only if dv fits or no bin can serve it. |
| AllocHeap.Heap.ServeExact | src/lj_alloc.c:1281-1289 | A small bin of the size, or of the next one if the former is empty, serves the request as a whole. |
| AllocHeap.Heap.ServeNext | src/lj_alloc.c:1290-1310 | The least chunk of all small bins that is large enough serves the request, and the rest becomes dv. |
| AllocHeap.Heap.MallocLarge | src/lj_alloc.c:1317-1322 | The best tree chunk serves a large request if it beats dv; otherwise nothing has changed and dv is at least as good as every chunk of the trees. |
| AllocHeap.Heap.MallocTop | src/lj_alloc.c:1340-1349 | top serves the request; the segment grows only if top is too small, by the size asked of the system. |
| AllocHeap.GranularityMeaning | src/lj_alloc.c:996-998 | The system is asked for the least whole number of granules that leaves room for the chunk, the foot of top and one byte more; if that wraps around, for less than the chunk, which is the failing case. |
| AllocHeap.Heap.UseDv | src/lj_alloc.c:1323-1336 | Serves the request from dv, split or whole. |
| AllocHeap.Heap.AllocSys | src/lj_alloc.c:983-1040 | Serves the request from an extended top; fails exactly if the size wraps around, the system refuses or the address space ends. |
| AllocHeap.Heap.Malloc | src/lj_alloc.c:1269-1349 | The heap stays valid, all blocks in use keep their words, and a result is one new block that holds the request and at most a remainder below the least chunk, taken from the chunk that the policy names: exact small bin, dv, least small and least tree chunk for a small request; best of the trees and dv for a large one (for sizes in order); top last. dv afterwards is stated. The segment grows only when top is too small. It fails only if no free chunk and not top can hold the request (for large requests: for sizes in order) and the system does not extend the segment. |
| AllocHeap.Heap.Forward | src/lj_alloc.c:1380-1418 | The forward half of a free merges with top, dv or a binned neighbour, or files the chunk, and so restores the invariant; top and dv afterwards are those of the case. |
| AllocHeap.Heap.Free | src/lj_alloc.c:1352-1421 | The heap stays valid, precisely the block is no longer in use, all other blocks keep their words and the segment its end; dv changes exactly when it borders on the block, and then covers it or has gone into top. |
| AllocHeap.Heap.Copy | src/lj_alloc.c:1464-1465 | The first n bytes of one block are those of the other afterwards, for any n; the bytes behind them and all other blocks are as before. |
| AllocHeap.Heap.Relocate | src/lj_alloc.c:1461-1468 | New block, copy, free of the old: the contents survive, also though the new block can come from merged neighbours. It returns NULL only if no free chunk can hold the request and the system does not extend. |
| AllocHeap.Heap.Realloc | src/lj_alloc.c:1423-1471 | The block is replaced by one that holds the request, its bytes up to the lesser of the old usable size and the new size are kept, other blocks are untouched. It stays in place, with the stated size, whenever it is large enough or can grow into top. It returns NULL, with all blocks as before, only for a request beyond all bounds, or when it cannot stay in place, no free chunk can hold the request (for sizes in order) and the system does not extend. |
| AllocHeap.Heap.Allocate | src/lj_alloc.c:1473-1484 | The allocator function of the VM: frees, allocates or resizes with the guarantees of the three, NULL for a request that is not 0 being limited as theirs. |
| AllocHeap.Heap.BlocksApart | src/lj_alloc.c:1269-1471 | In every valid heap two blocks in use share no byte, are 8-aligned and lie inside the segment. |
| AllocHeap.Heap.LinkWrite | src/lj_alloc.c:392-397 | In every valid heap the link fields of a binned chunk lie inside that free chunk: to store one destroys no tag, no block and no link of another chunk. |
| AllocHeap.Heap.AllFreed | src/lj_alloc.c:1352-1421 | When every block has been freed, the heap consists of the state chunk and top: all bins and dv are empty, because no two free chunks are ever adjacent. |
| AllocHeap.NothingFits | src/lj_alloc.c:1269-1349 | If neither bins, dv nor top can serve a request, then no free chunk of the tiling can. |
| AsmMoves.AsmState.HeadSide | src/lj_asm.c:2119-2256 | If it succeeds, running the emitted code delivers every inherited value to its register, given that the pending parent registers are distinct (and only then). If they are, it gives up exactly if some registers wait for each other in a cycle and their file has no register to spare. It always ends. |
| AsmMoves.AsmState.Scan | src/lj_asm.c:2120-2149 | After the scan the coalesced registers are free and out of `allow`, `live` holds the parent registers awaited, and a reference has been lost exactly if two wait for one register. |
| AsmMoves.ScanEnd | src/lj_asm.c:2120-2149 | The lost references of the scan are those that share a parent register with another. |
| AsmMoves.AsmState.LoadSlots | src/lj_asm.c:2202-2217 | Loads every value that the parent spilled; only register moves remain. |
| AsmMoves.AsmState.Coalesce | src/lj_asm.c:2223-2232 | Moves until no live parent register is free, keeping every value on its way; each move takes a register out of `live` and `allow`. |
| AsmMoves.AsmState.BreakCycle | src/lj_asm.c:2238-2254 | Frees a live register by renaming to a temporary that is not live and not coalesced, or reports that the file has none. |
| AsmMoves.AsmState.Shuffle | src/lj_asm.c:2219-2256 | The loop ends with nothing pending, or without a temporary when every allowed register of a file is live. |
| AsmMoves.OnlyCycles | src/lj_asm.c:2234-2254 | When no live register is free, the registers in use are exactly the live ones: what remains is a permutation. |
| AsmMoves.AsmState.KnotLeft | src/lj_asm.c:2234-2254 | Then they are a knot of the original moves: each is the target of a move from one of them and the source of a move to one of them. |
| AsmMoves.Emitted | src/lj_asm.c:2094-2256 | An instruction put in front of the code turns where the values are delivered from into where it reads them. |
| AsmMoves.Resolve | src/lj_asm.c:2223-2231 | The move from the parent register completes a reference and keeps the invariant for all others. |
| AsmMoves.Rename | src/lj_asm.c:754-781 | The inverse move of a rename redirects one pending reference and keeps the invariant, given that the temporary is still allowed. |
| AsmPhi.PhiState.PhiShuffle | src/lj_asm.c:1630-1687 | It ends and succeeds whenever each file has a register that is no PHI register. Left operands that sit in the file of their PHI register all end in their PHI register if the file has a free register or nothing is out of place, and otherwise at most one of the file ends in its spill slot; no invariant sits in a modified register, and running the emitted code leaves each value where the loop body expects it. |
| AsmPhi.PhiState.ShufflePhis | src/lj_asm.c:1630-1670 | The loop ends (by mismatches, then by blocked registers) with all PHIs settled. No left operand of a file with a free register loses its own, and at most one of any file does. |
| AsmPhi.PhiState.Pass | src/lj_asm.c:1636-1663 | After one pass every PHI register that it does not report is settled and every one that it reports is held by another PHI; no mismatch is added, and if none is removed the reported registers are all in use. |
| AsmPhi.PhiState.PassStep | src/lj_asm.c:1639-1663 | One PHI: renamed home, blocked by another PHI, or cleared of an invariant first; all other PHIs stay where they are. |
| AsmPhi.PhiState.Break | src/lj_asm.c:1596-1610 | Renaming one candidate frees a blocked register of its file and adds no mismatch; where no register is free, one that is not blocked is evicted first, which costs at most one left operand its register. |
| AsmPhi.BreakLost | src/lj_asm.c:1596-1610 | Each break keeps it true, for both files, that at most one left operand has lost its register since the start, and none, with a register still free, if the file had a free one then. |
| AsmPhi.PhiState.RaEvict | src/lj_asm.c:517-540 | Frees a register of the allowed set: that of the reference of least cost, or the lowest weak one where there is any and that one is neither weak nor a constant; every value keeps its way home. |
| AsmPhi.PhiState.RaPick | src/lj_asm.c:543-550 | The highest free register of the allowed set, evicting only if there was none. |
| AsmPhi.Cycles | src/lj_asm.c:1624-1668 | When every blocked register is held by a blocked PHI, all of them are mismatched: the blocked registers form cycles. |
| AsmPhi.PhiState.RaRename | src/lj_asm.c:754-781 | A rename changes one register assignment and keeps every value's way home. |
| AsmPhi.PhiState.RaRestore | src/lj_asm.c:481-501 | A restore frees the register; the emitted load or rematerialisation brings the value back where it is expected. |
| AsmPhi.PhiState.RestoreModified | src/lj_asm.c:1672-1687 | No invariant is left in a register of the file that the loop modifies, and nothing else has been restored; settled PHIs stay settled. |
| Admission.NextKeeps | src/lib_threading.c:691-718 | Every step of every thread keeps the invariant of counters, gate and shutdown. |
| Admission.AccessKeeps | src/lib_threading.c:855-931 | The same for one access of one thread. |
| Admission.GateExcludes | src/lib_os.c:374-402 | In every run, while a caller holds the exclusive gate nobody else does and no thread is admitted. |
| Admission.NeverLockedAgain | src/lib_threading.c:855-914 | Once a thread has been admitted, `mt_active` stays set and no caller of os.setlocale wins the gate again. |
| Admission.DrainIsFinal | src/lib_threading.c:754-778 | Once the closer has set the flag, seen no reservation and then no live thread, no thread is admitted now or later. |
| Admission.CountersNeverUnderflow | src/lib_threading.c:691-718 | `mt_entering` and `mt_live` never go below zero. |
| Admission.Settles | src/lib_threading.c:855-931 | Nothing but the gate, the collectors and the shutdown keeps a thread out: with the gate open and the collectors at rest, a thread at any point of getting in ends up by itself admitted and counted once, or after the shutdown refused with everything given back. |
| Admission.AdmittedAlone | src/lib_threading.c:855-914 | Every run that ends with the gate open, the collectors at rest and no shutdown goes on, by accesses of one idle or entering thread alone, until that thread is admitted. |
| Admission.NoChoice | src/lib_threading.c:855-931 | What a moving thread does next is determined by the shared words. |
| Admission.LocksAlone | src/lib_os.c:374-402 | A caller of os.setlocale alone closes the gate exactly if no thread is in, is getting in or has ever been in; otherwise nothing has changed. |
| Admission.BacksOut | src/lib_os.c:386-402 | If a thread has come in behind the closed gate, it opens the gate again. |
| Admission.ClosesAlone | src/lib_threading.c:754-778 | The waiting path of the shutdown ends as soon as both counters are 0. |
| LiveList.NextKeeps | src/lib_threading.c:171-272 | Every step keeps the invariant of both lists, the nodes in flight and the count. |
| LiveList.OnePlace | src/lib_threading.c:171-272 | In every run each published node is in the active list, in the retired list or popped by exactly one thread, and only dead ones have left the active list. |
| LiveList.ListStable | src/lib_threading.c:193-220 | No step changes the next link of an active node, and none takes a node that is not dead from the list. |
| LiveList.CountExact | src/lib_threading.c:222-272 | The live count is the number of counted nodes and positive whenever it is about to be decremented. |
| LiveList.PublishesAlone | src/lib_threading.c:222-243 | A thread alone publishes its node as the new head, counted and known to its thread object. |
| LiveList.Trims | src/lib_threading.c:193-207 | A thread that trims alone retires exactly the dead nodes in front of the first live one, in that order. |
| LiveList.RemovedAlone | src/lib_threading.c:258-272 | Every run goes on, by accesses of one idle thread alone, to the removal of any published thread object: its node is dead and no longer counted, and no dead node is at the head. |
| LiveList.FreeAll | src/lib_threading.c:274-289 | The two walks free the active nodes, then the retired ones. |
| LiveList.FreedOnce | src/lib_threading.c:274-289 | When all threads rest, that is every published node exactly once. |
| RequireClaims.NextKeeps | src/lib_package.c:745-832 | Every step of every thread keeps the invariant of claims and nested calls. |
| RequireClaims.OneLoader | src/lib_package.c:792-832 | A thread in a loader, however deeply nested, owns the claim of that module. |
| RequireClaims.NoTwoLoaders | src/lib_package.c:792-832 | In every run no two threads are in loaders of one module. |
| RequireClaims.OnlyAcquirerClears | src/lib_package.c:764-829 | Only the call that acquired the claim clears it, as the innermost call, when no other call of the thread is in that loader. |
| RequireClaims.ClaimHasHolder | src/lib_package.c:745-829 | Every claim belongs to exactly one call, which is still going to clear it, also after an error of its loader. |
| RequireClaims.LoadsAlone | src/lib_package.c:792-826 | Every run goes on, by one thread alone, to the loader of any module that no other thread claims: with a new claim if there was none, under its own otherwise. |
| RequireClaims.EndsAlone | src/lib_package.c:824-831 | And from the loader to the end of the call, which takes the claim away exactly if this call had acquired it. |
| TableSort.AuxSort | src/lib_table.c:365-426 | For every comparator the part of the array is permuted within its bounds and the loops end; for a strict weak order it is sorted and the error unreachable. Fewer than 2^d elements take at most d calls inside each other. |
| TableSort.Partition | src/lib_table.c:391-416 | Ends for every comparator with the pivot's place inside the part, or with the error; for a strict weak order everything before it is not greater and everything after it not less. |
| TableSort.MiddleOfThree | src/lib_table.c:368-390 | Puts the ends and the middle in order; up to three elements are then sorted. |
| TableSort.ScanUp | src/lib_table.c:398-402 | Stays inside the part or raises the error, and stops at the first element not less than the pivot. |
| TableSort.ScanDown | src/lib_table.c:403-407 | The same, downwards. |
| TableSort.Swap | src/lib_table.c:331-335 | Exchanges two elements and nothing else. |
| TableSort.Comparator.Less | src/lib_table.c:348-363 | The answer may depend on the number of the call; it follows an order if the caller's function does. |
| TableSort.SplitSorted | src/lib_table.c:417-425 | After the split, sorting both sides in any way sorts the whole. |
| TableSort.TableSort | src/lib_table.c:428-438 | `table.sort` permutes the elements 1 to n, and sorts them for a strict weak order; the number of calls of `auxsort` inside each other, if more than 1, is at most log2(n) + 1. |
| RefTable.Refs.Ref | src/lib_aux.c:280-300 | The new reference is the slot released last, or the next one behind all others if none is released; it holds the value and every outstanding value stays. The length is asked for only without holes. nil has its own reference. |
| RefTable.Refs.Unref | src/lib_aux.c:302-311 | Precisely the reference is released, to be the next one taken; a negative one is ignored. |
| RefTable.OnlyBorder | src/lib_aux.c:294-297 | When the list of released slots is empty the table has one border only, so `#t` is the number of references. |
| RefTable.Popped | src/lib_aux.c:291-293 | Taking the first released slot keeps the list acyclic and ending in its only nil hole. |
| RefTable.Pushed | src/lib_aux.c:304-310 | So does releasing a slot. |
| RefTable.Refs.ValueKept | src/lib_aux.c:280-311 | After any run of both, each outstanding reference still holds the value it was given. |
| LogicalImm.Ffs | dynasm/dasm_arm64.h:175-180 | The number of the highest set bit, -1 for zero. |
| LogicalImm.Imm13 | dynasm/dasm_arm64.h:182-213 | Each 64-bit bitmask immediate is accepted and the result is its only canonical encoding of 13 bits, N, immr below the element size and imms, by the fields of DecodeBitMasks (Arm ARM DDI 0487); an accepted number is one exactly if its first run ends inside the first period. With equal halves, acceptance means exactly that the 32-bit value is a bitmask immediate, and the result has N = 0 and decodes to it over 32 bits. |
| LogicalImm.OnlyEncoding | dynasm/dasm_arm64.h:207-211 | A canonical code that decodes to a number is what the encoder returns for it: there is no other. |
| LogicalImm.Decodes | dynasm/dasm_arm64.h:207-211 | Both forms of the result, plain and inverted, decode to the pattern and to its complement, for every period, start and length. |
| LogicalImm.RunsOf | dynasm/dasm_arm64.h:188-190 | The three bit tricks find the start, the end and the next start of the runs of any pattern. |
| LogicalImm.EncodableIsPattern | dynasm/dasm_arm64.h:182-213 | Whatever the decoder can produce is a repeated run of ones or the complement of one. |
| LogicalImm.Found | dynasm/dasm_arm64.h:182-213 | Encoding loses no immediate: everything that can be decoded from some code is encoded, and decodes back. |
| LogicalImm.Sound | dynasm/dasm_arm64.h:182-213 | A regular number that is accepted is a bitmask immediate. |
| LogicalImm.HalvesRegular | dynasm/dasm_arm64.h:182-213 | A number with equal halves that is accepted is regular. |
| LogicalImm.Words32 | dynasm/dasm_arm64.h:182-213 | A 32-bit value has an encoding with N = 0 exactly if the encoder accepts it twice over, and the result is such an encoding. |
| LogicalImm.Irregular | dynasm/dasm_arm64.h:192-206 | 2^40 + 2^56 is accepted although no code decodes to it. |

## Left out

DynASM:
- The actions DISP, VREG, MARK, SETLABEL, EXTERN, IMM_LG, IMM_PC and REL_A, and the other architectures.
- DasmEncoder.Encoder.Put: starts from status OK, with a section number and buffer positions below 2^24; puts after an error, and overflow of 32-bit offsets and positions, are not modelled. A relative reference must follow its own opcode byte.
- DasmEncoder.Encoder.constructor: label arrays have their final size from the start; `dasm_growpc` during encoding and `dasm_free` are not modelled.
- DasmLink.Link: the local labels are closed, as `dasm_checkstep` ensures.
- DasmBuild.BuildCode: the symbol table and the check for undefined globals that follow are not modelled.
- An ALIGN operand is a mask 2^k - 1 up to 255, as the comment at `dynasm/dasm_x86.h:252` demands.
- The label array has exactly `10 + maxgl` words; the rounding of `DASM_M_GROW`, which a client can redefine, is not modelled.
- Status codes are formed with `+` where the source has `|`; the two agree for indices below 2^24.

Matcher:
- `gmatch`, `gsub`, the plain-text shortcut of `find` and the pushing of captures as Lua values.
- The message texts; each error is a value of its own.

Allocator:
- mmap, munmap and mremap; direct-mapped chunks (a large request is served as if direct mapping failed); more than one segment; trimming and the release of segments.
- AllocHeap.Heap.AllocSys: the system either extends the segment at its end or refuses.
- AllocHeap.Heap.Malloc: for large requests, best fit and the failure clause are stated for sizes that the tree bins keep in order (AllocIndex.IndexMonotone).
- The links of free chunks are fields of their own beside the word memory of heads, feet and user data (AllocHeap.Heap.LinkWrite shows that their places are the chunk's own); the two bin maps are sets (AllocBitmap.BinsMarked, BinsCleared and BinsLater relate the words to them).

Trace assembler:
- AsmMoves.AsmState.HeadSide: references that the side trace itself keeps in a spill slot (pass 2), the stack adjustment and the base register of the parent are not modelled.
- AsmPhi.PhiState.PhiShuffle: saving the PHI registers with spill slots at the end, and overflow of the spill area, are not modelled.
- The rename records for snapshots and the limits of the machine code area.

Threads:
- Weak memory, fences and futex waits: the accesses are sequentially consistent and a wait is a repeated read. Progress is shown for one thread that moves while the others rest, not under every schedule.
- Admission.DrainIsFinal: the early return of `lj_threading_shutdown`, which reads the counters in the other order, is not modelled; nor is the GC threshold.
- Admission.NeverLockedAgain: speaks of callers of os.setlocale; the garbage collector's own claims of `mt_gc_exclusive` (`src/lj_gc.c:1603-1626`, `src/lj_gc2.c:5270-5302`) are not modelled, and a finalizer's claim looks at `mt_live` only.
- LiveList.OnePlace: a thread object is published once; GC marks, leases and reclamation for readers are not modelled.
- RequireClaims.NoTwoLoaders: compare-and-swap on the claims table is one step. That a module is loaded once is not claimed, as `_LOADED` is not read again after the claim is won.

Smaller pieces:
- TableSort.AuxSort: a comparator that changes the table, the Lua stack and 32-bit overflow of `l+u`.
- RefTable.Refs.Unref: releasing slot 0, or a reference that is not outstanding; a table that is also used otherwise.
- LogicalImm.Imm13: fields are combined by addition where the source has `|`, and `n & -n` is a function for the lowest bit.
