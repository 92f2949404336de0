# A verified model of the branch-prediction workbench

The repository couples a processor emulator, branch predictors and benchmark programs: an A64
translator writes branch records, a client and a server exchange them through shared memory,
TAGE predictors consume them, a trace reader feeds the championship predictor, and CoreMark is
the guest program. This project models the algorithmic cores of these parts and proves what they
are for. Sizes (cells in a sector, banks, table and window sizes, list length, history lengths) are
symbolic throughout.

`dafny verify dfyconfig.toml` checks everything; no file depends on anything outside this directory.

## Layout

| files | contents |
|---|---|
| `Bits`, `Modular`, `Sequences` | machine words as bit sequences, division by a variable, reversal |
| `Cells`, `CoreList`, `Comparators`, `Runs`, `MergeSort`, `SortProperties`, `ListOps`, `ListChecksum`, `ListBench` | CoreMark's linked list: heap cells, the comparators that rewrite them, the in-place mergesort, the benchmark that scrambles a list and restores it |
| `Crc`, `StateGrammar`, `CoreState` | CoreMark's checksum and its number-recognising state machine |
| `SharedMemory`, `Progress`, `Exchange` | the client/server protocol as interleaved steps, its termination, and the same steps as an imperative machine |
| `Folding`, `History`, `GlobalHistory` | history registers that fold a long path, three codings of their step |
| `TageTable`, `Tage`, `FrequencyBins` | the tagged-table predictor and the frequency bins |
| `EdgeWindow` | the sliding window of the BT9 trace reader |
| `Tcg`, `A64Words`, `A64Arith`, `A64Compare`, `A64Bitfield` | the integer part of the A64 translator: emitted operations, their interpreter, and the architecture |

## How the parts are modelled

* **Linked list.** Nodes and cells are objects; `Stored` says that the heap holds a numbered memory
  image, and every method relates the images before and after. A comparator is told only through the
  cells it rewrites. A cell's key may become known during the sort but never changes afterwards,
  which is what makes a sort with a memoising comparator meaningful. The two benchmark kernels that
  `calc_func` calls are arbitrary functions of the data type and the checksum of the moment.
* **Protocol.** A state holds the two sectors, the status word, the cursors, three unbounded
  semaphores and a program counter for each process. A schedule is any sequence of process names. The
  methods of `Exchange.Machine` act on arrays and fields; each action is proved to be one step.
* **Histories.** `Fold` is the definition from scratch: the XOR of the last entries, entry `j` rotated by `j`
  modulo the register length. Every register is proved equal to it.
* **Predictor.** `Settled` says what a whole update leaves in the tables. Which counters are trained and
  which banks are stolen or allocated is stated independently of the loops.
* **Translator.** Code generation appends operations to a buffer. The buffer object carries a ghost store
  that was arbitrary at the start; emitted code cannot depend on it, so each contract speaks about all
  register values. Instruction words are split bit by bit as the decoder does. The reference is the
  pseudocode of ARM DDI 0487A.a, sections C3.4.2 (bitfield) and C3.5.3 to C3.5.5.

## What the proofs brought to light

* The last cell of every sector carries the *next* address: the client advances its counter before
  writing it (`SharedMemory.CellAt`).
* While one process is between changing the status and flipping its cursor, the two cursors agree
  exactly when one sector is full, the reverse of the resting rule (`SharedMemory.SectorExclusion`).
* A BT9 window of one entry has stride zero: it never moves, and the driver loop re-reads entry 0
  for ever (`EdgeWindow.DriveOne`). From two entries on the driver delivers exactly the list; it
  ends by the overflow exception if and only if the list ends on a refill boundary.
* The iterator's post-increment hands back the advanced iterator, not the previous one.
* The checksum loop of `core_bench_list` walks the list but feeds the word of its head every time
  (`ListBench.Walk`).
* `core_bench_list` does not always give its list back. `core_list_init` can give several items the
  same idx; if such items reach the last sort out of order, the sort, being stable, leaves them so,
  and the chain comes back in another order (`ListBench.IdxSortRestoresExactly`). A list whose head has
  idx 0, as it always has, is given back by every call if and only if no two items share an idx
  (`ListBench.GivenBackExactly`, `ListBench.CoreBenchList`); the list made from 240 bytes with seed 7 is
  not (`ListBench.TiedListIsLost`). The data words are restored in every case.
* `initSC` clears entry 0 of the history ring once for every entry. The registers start as folds of
  the ring only because a static array is zero to begin with (`GlobalHistory.InitHistory`).
* The transition counter of the state *scientific* never moves, and the one of *invalid* counts only
  tokens that fail at their first byte or behind a complete exponent (`CoreState.TallyOfInvalid`).
* The second corruption pass of `core_bench_state` restores the buffer if and only if the two seed
  bytes agree and no touched byte becomes a comma, unless nothing was touched (`CoreState.RestoredExactly`).
* The given history lengths fit the ring exactly when, made strictly increasing, they end at the last
  one; otherwise an assertion of the ring fires (`History.LengthsFitExactly`).
* `postp_index` reads one counter past its array; the mask drops it, so the index does not depend on it.

## Model

| member | source | states |
|---|---|---|
| Comparators.CalcFunc | src_and_configurations/Coremark/core_list_join.c:63-95 | a cached cell yields its 7-bit key and changes nothing; an uncached one calls the state kernel if its low three bits are 0 and the matrix kernel if they are 1, with 0x11 times bits 3 to 6, at least 0x22 for the state kernel, and the checksum of the moment, and otherwise takes its own word; seven bits of the result are cached below the kept upper byte, the checksum absorbs the result, and the first result of each kernel is kept |
| Cells.RawByType | src_and_configurations/Coremark/core_list_join.c:67-90 | the same three cases of the result, as a function of the word |
| Cells.OtherKernels | src_and_configurations/Coremark/core_list_join.c:74-90 | a kernel matters only to the words of its type |
| Cells.AbsorbByType | src_and_configurations/Coremark/core_list_join.c:78-91 | crcstate changes only for type 0, crcmatrix only for type 1, each only from zero |
| Comparators.CompareComplex | src_and_configurations/Coremark/core_list_join.c:101-105 | both cells are evaluated in order; the sign is that of the difference of their cached keys |
| Comparators.CompareIdx | src_and_configurations/Coremark/core_list_join.c:112-118 | with no result record both low bytes are rebuilt from the upper ones; the sign is that of the idx difference |
| Comparators.SourceComparatorsArePreorders | src_and_configurations/Coremark/core_list_join.c:101-118 | both comparators order the final views of the cells totally and transitively |
| Comparators.EffectStays | src_and_configurations/Coremark/core_list_join.c:63-118 | any further comparison keeps the account of which cells were computed, each at most once, and of the sums |
| Comparators.ComparisonViews | src_and_configurations/Coremark/core_list_join.c:63-118 | a comparison never changes a key that was known and makes both compared keys known |
| Cells.RegenUndoesCache | src_and_configurations/Coremark/core_list_join.c:93-116 | a cell whose bytes agreed is regenerated exactly, whatever was cached in its low byte |
| CoreList.SetNext | src_and_configurations/Coremark/core_list_join.c:426-496 | one pointer store changes one entry of the memory image |
| Runs.MergingStays | src_and_configurations/Coremark/core_list_join.c:455-480 | a merge in progress stays a sorted, stable merge when a comparator that caches makes more keys known |
| MergeSort.ChooseMerges | src_and_configurations/Coremark/core_list_join.c:463-469 | taking the head that the comparison names keeps the output sorted, stable and a merge of the consumed parts |
| Runs.PassStep | src_and_configurations/Coremark/core_list_join.c:436-484 | merging one pair of runs extends a pass: good runs of twice the length, same nodes in range |
| MergeSort.Choose | src_and_configurations/Coremark/core_list_join.c:457-471 | the four-way choice takes a head that a stable merge may take next, and says which |
| MergeSort.MergeRuns | src_and_configurations/Coremark/core_list_join.c:455-480 | the inner loop links the stable merge of both runs behind the tail and leaves the rest of the list alone |
| MergeSort.FindSecond | src_and_configurations/Coremark/core_list_join.c:441-449 | stepping insize places finds the second run and both lengths |
| MergeSort.MergePair | src_and_configurations/Coremark/core_list_join.c:437-483 | one turn of the pass loop replaces two runs by their merge |
| MergeSort.Pass | src_and_configurations/Coremark/core_list_join.c:431-486 | after a pass the list is a NULL-terminated chain of stable sorted runs of length 2*insize over the same nodes |
| MergeSort.CoreListMergesort | src_and_configurations/Coremark/core_list_join.c:426-496 | for any total preorder, also one that rewrites cells: terminates with a NULL-terminated list of exactly the same nodes, stably sorted by the final keys, each cell compared at least once when there are two |
| MergeSort.PermutationCovers | src_and_configurations/Coremark/core_list_join.c:426-496 | a list of as many distinct nodes as there are contains every node |
| SortProperties.StableOrderUnique | src_and_configurations/Coremark/core_list_join.c:426-496 | only one order is sorted and stable, so the result of a sort is determined by the keys |
| SortProperties.MemoisingSort | src_and_configurations/Coremark/core_list_join.c:63-105 | after a sort with cmp_complex every cell is cached, the order follows the final 7-bit keys stably, exactly the uncached cells were computed, once each, into the sums, and upper bytes are unchanged |
| SortProperties.ComplexKeepsUpper | src_and_configurations/Coremark/core_list_join.c:92-93 | the data sort keeps every upper byte |
| ListOps.CoreListFind | src_and_configurations/Coremark/core_list_join.c:370-380 | the first node that matches, or NULL |
| ListOps.MatchesExactly | src_and_configurations/Coremark/core_list_join.c:370-380 | a match is by idx, or for a negative idx by the low byte with nothing above it |
| ListOps.CoreListReverse | src_and_configurations/Coremark/core_list_join.c:395-404 | the list of the same nodes in reverse order |
| ListOps.CoreListRemove | src_and_configurations/Coremark/core_list_join.c:316-327 | the two info pointers are swapped, the item links past the next cell, and that cell, with a NULL link, is handed back |
| ListOps.CoreListUndoRemove | src_and_configurations/Coremark/core_list_join.c:345-355 | swaps the info pointers back and links the cell in behind the other |
| ListOps.UndoRemoveRestores | src_and_configurations/Coremark/core_list_join.c:316-355 | undoing a remove gives back the very memory it started from |
| ListOps.Splice | src_and_configurations/Coremark/core_list_join.c:158-163 | the cell behind the one found becomes the second cell of the list; all others keep their order |
| ListBench.SortList | src_and_configurations/Coremark/core_list_join.c:426-496 | the sort result for a list whose nodes are numbered in any order |
| ListBench.IdxSortRestoresData | src_and_configurations/Coremark/core_list_join.c:112-118 | sorting by idx gives every data word its initial value if upper bytes were kept |
| ListBench.IdxSortRestoresExactly | src_and_configurations/Coremark/core_list_join.c:187-188 | for a list whose idx ascend, equal ones allowed: sorting by idx puts the nodes back into their initial chain if and only if nodes that share an idx were still in their initial order |
| ListBench.DistinctKeepsTies | src_and_configurations/Coremark/core_list_join.c:187-188 | with distinct idx that condition holds whatever the order |
| ListBench.StraightExactly | src_and_configurations/Coremark/core_list_join.c:187-188 | the links are the initial ones exactly when the order is the initial one |
| ListBench.InitialIdxCollides | src_and_configurations/Coremark/core_list_join.c:247-254 | exactly which items behind the first fifth get the idx 0 of the list head |
| ListBench.GivenBackExactly | src_and_configurations/Coremark/core_list_join.c:132-188 | a list whose head has idx 0 reaches the last sort with its ties in order, for every seed3 and finder_idx, if and only if no two nodes share an idx |
| ListBench.HeadFoundReverses | src_and_configurations/Coremark/core_list_join.c:144-164 | one round that searches for the idx 0 of the head leaves the list reversed |
| ListBench.ReversedTies | src_and_configurations/Coremark/core_list_join.c:187-188 | the reversed list has its ties in order exactly when there are none |
| ListBench.TiedListIsTied | src_and_configurations/Coremark/core_list_join.c:212-256 | the list made from 240 bytes with seed 7: its idx ascend, its words have agreeing bytes, and its first two nodes share the idx 0 as the only ones |
| ListBench.TieSwaps | src_and_configurations/Coremark/core_list_join.c:187-188 | if the first two nodes are the only ones to share an idx, reversing and sorting by idx exchanges them and restores the rest |
| ListBench.TiedListIsLost | src_and_configurations/Coremark/core_list_join.c:132-199 | run on that list with seed3 1 and finder_idx 0 the benchmark leaves the second node pointing to the former head, and the head to the third |
| ListBench.FindRound | src_and_configurations/Coremark/core_list_join.c:144-164 | one round: the list is reversed, and if something other than the head was found, the node that stood before it comes second and list->next points to it, all others keeping the reversed order; the bit added is bit 9 of a word found with bit 0 set, or bit 8 of the second word after a miss |
| ListChecksum.AfterRoundTurns | src_and_configurations/Coremark/core_list_join.c:146-163 | the new order, position by position |
| ListChecksum.OneRound | src_and_configurations/Coremark/core_list_join.c:144-166 | the state of the loop after one more round, from the state before: order, idx, searched data, bit added, found and missed |
| ListBench.SecondRoundSplices | src_and_configurations/Coremark/core_list_join.c:144-166 | two rounds from idx 0 on a list whose idx start 0, 1 and then go on higher: the third node comes second, all others are back in place |
| ListChecksum.FoundOrMissed | src_and_configurations/Coremark/core_list_join.c:144-166 | every round finds or misses |
| ListChecksum.FindSumValue | src_and_configurations/Coremark/core_list_join.c:170 | the loop adds 4 for each find and takes 1 for each miss, modulo 2^16 |
| ListBench.FindLoop | src_and_configurations/Coremark/core_list_join.c:144-170 | after all rounds the heap differs only in its links, and order, idx and checksum are those of `Rounds` |
| ListChecksum.FirstIsSought | src_and_configurations/Coremark/core_list_join.c:370-380 | the node found is the one at the first matching position |
| ListBench.Walk | src_and_configurations/Coremark/core_list_join.c:179-195 | the head's word is fed once for every cell from the finder on |
| ListBench.SortByData | src_and_configurations/Coremark/core_list_join.c:172-173 | the data sort: stable order by final words, caches and sums accounted for |
| ListBench.RemoveAndUndo | src_and_configurations/Coremark/core_list_join.c:174-186 | removing one item, searching, checksumming and putting it back leaves the memory as it was; what is searched is the list without its second cell, and the head's word is fed once for every cell from the one found on |
| ListChecksum.RemovedSumSkipsSecond | src_and_configurations/Coremark/core_list_join.c:174-186 | the same for the checksum as a function of the memory |
| ListChecksum.FeedTimesIsMessage | src_and_configurations/Coremark/core_list_join.c:179-195 | feeding one word several times is feeding one message |
| ListBench.RestoreOrder | src_and_configurations/Coremark/core_list_join.c:187-188 | the final idx sort restores every data word and info pointer, and the links if and only if equal idx arrive in their initial order |
| ListBench.CoreBenchList | src_and_configurations/Coremark/core_list_join.c:132-199 | for three or more cells with ascending idx, equal ones allowed, and agreeing bytes: same node-to-info links and same data16 values at the end; the same chain if and only if nodes that share an idx reach the last sort in their initial order, which for finder_idx up to 0 is the order `FoundOrder` computes from the arguments; always when no two share one, and for seed3 1, finder_idx 0 and a head with idx 0 only then; and the returned checksum |
| ListBench.BenchSumIsMessage | src_and_configurations/Coremark/core_list_join.c:170-195 | the returned checksum is the CRC, from the find loop's sum on, of one message: the head's word once for each cell from the one found on, the second cell being out, and the sorted head's word once for each other cell |
| Crc.Crcu8 | src_and_configurations/Coremark/core_util.c:142-165 | the shifts and masks are eight steps of a reflected shift register |
| Crc.Crcu16 | src_and_configurations/Coremark/core_util.c:166-178 | the fold over little-endian bytes |
| Crc.Crcu32 | src_and_configurations/Coremark/core_util.c:171-175 | the fold over little-endian bytes |
| Crc.FeedExactlyRemainder | src_and_configurations/Coremark/core_util.c:142-165 | the register is the remainder, and the only one, of register and message modulo x^16+x^15+x^2+1 over GF(2) |
| Crc.FeedLinear | src_and_configurations/Coremark/core_util.c:142-165 | XOR-linear in register and message together |
| StateGrammar.ReachedClassifies | src_and_configurations/Coremark/core_state.c:184-277 | the machine is in a state if and only if the text belongs to that state's class of the number grammar; Invalid means that no number begins with the text |
| StateGrammar.InvalidIsHopeless | src_and_configurations/Coremark/core_state.c:184-277 | a text is rejected exactly when no continuation makes it a number |
| StateGrammar.ReachedNumber | src_and_configurations/Coremark/core_state.c:184-277 | the accepting states are INT, FLOAT and SCIENTIFIC |
| CoreState.Switch | src_and_configurations/Coremark/core_state.c:193-271 | one byte: next state and counter increments |
| CoreState.Transition | src_and_configurations/Coremark/core_state.c:184-277 | the token starting here: its extent, its class and the counters; it ends at a skipped comma, at NUL, or one past the first impossible byte |
| CoreState.TokenUnique | src_and_configurations/Coremark/core_state.c:184-277 | the token at a position is determined |
| CoreState.TallyIsLeaving | src_and_configurations/Coremark/core_state.c:198-269 | six counters tell which states were left, none more than once per token; the one of Scientific never moves |
| CoreState.TallyOfInvalid | src_and_configurations/Coremark/core_state.c:209-269 | the counter of Invalid counts only failures from the first state or after a complete exponent |
| CoreState.Scan | src_and_configurations/Coremark/core_state.c:59-69 | terminates; the tokens partition the buffer up to its first NUL, and both count arrays tally them |
| CoreState.Corrupt | src_and_configurations/Coremark/core_state.c:70-75 | in every byte below blksize at a multiple of step that is not a comma exactly the bits of the seed change; all other bytes stay |
| CoreState.FlipBits | src_and_configurations/Coremark/core_state.c:72-73 | a bit of the byte changes if and only if that bit of the seed is set |
| CoreState.ZeroSeed | src_and_configurations/Coremark/core_state.c:70-75 | seed 0 corrupts nothing |
| CoreState.TwoPassesExactly | src_and_configurations/Coremark/core_state.c:70-92 | two passes are one pass with the XOR of the seeds if and only if no touched byte becomes a comma in between or the second seed is 0 |
| CoreState.RestoredExactly | src_and_configurations/Coremark/core_state.c:70-92 | the undo pass restores the buffer if and only if the seeds agree and no touched byte became a comma, or nothing was touched |
| CoreState.CoreBenchState | src_and_configurations/Coremark/core_state.c:43-99 | both scans, both passes, and the checksum of the message made of the two counts of each state as 32-bit words |
| CoreState.FinalsIsCount | src_and_configurations/Coremark/core_state.c:59-61 | final_counts is the number of tokens that ended in the state |
| CoreState.TalliesIsCount | src_and_configurations/Coremark/core_state.c:59-61 | for six states track_counts is the number of tokens on which the state was left |
| SharedMemory.RunKeepsInvariant | other_files/client-server_SHM/client.c:44-93 | every interleaving keeps the protocol invariant |
| SharedMemory.Fifo | other_files/client-server_SHM/server.c:108-153 | in every interleaving the processed cells are a prefix of the produced ones, in order and unaltered; a server that left its loop processed exactly the desired number; no error exit is reachable |
| SharedMemory.CountedOut | other_files/client-server_SHM/client.c:52-63 | cell k of the stream belongs at position k modulo NDATA |
| SharedMemory.CellAtExactly | other_files/client-server_SHM/client.c:52-64 | cell k carries k modulo NDATA and the address k, the last one of a sector the address k + 1 |
| SharedMemory.SectorExclusion | other_files/client-server_SHM/server.c:116-149 | status is the set of full sectors, fills minus reads is between 0 and 2, the cursors agree when they should, and the sector written is never the one read |
| SharedMemory.SectorContents | other_files/client-server_SHM/server.c:116-131 | in every interleaving each full sector holds all cells of its round, unaltered |
| SharedMemory.NoDeadlock | other_files/client-server_SHM/server.c:109-115 | no lost wake-up, never both blocked before the server is done, exact token accounts, so passes that find the memory empty never outnumber the fills |
| SharedMemory.ServerReleasesClient | other_files/client-server_SHM/server.c:108-151 | a client that waits is released within NDATA+13 server steps, unless the server finishes |
| SharedMemory.ClientReleasesServer | other_files/client-server_SHM/client.c:44-93 | a server that waits is released within 5*NDATA+7 client steps |
| Progress.RunTicks | other_files/client-server_SHM/server.c:108-153 | along any schedule the count of steps taken never falls, and where it stays nothing has happened |
| Progress.ServerFinishes | other_files/client-server_SHM/server.c:108-153 | after `Bound` rounds in each of which both processes get a turn, in any order, the server has left its loop with exactly the desired cells |
| Exchange.Machine.constructor | other_files/client-server_SHM/server.c:68-70 | the initial values |
| Exchange.Machine.ClientStep | other_files/client-server_SHM/client.c:44-93 | one action of the client on arrays and fields is one step of the protocol |
| Exchange.Machine.ServerStep | other_files/client-server_SHM/server.c:108-153 | one action of the server is one step of the protocol |
| Exchange.Machine.Execute | other_files/client-server_SHM/server.c:108-153 | acting by a schedule is a run of the protocol; from the initial values the cells read are a prefix of those written, both in order, a finished server has read the desired number, no error exit is reached, status names the full sectors, every full array holds its round, and the sector written is not the one read |
| History.PathHistory.Insert | other_files/cbp2016.eval/sim/predictor.cc:413-417 | the ring gets a new newest entry and loses its oldest |
| History.PathHistory.Entry | other_files/cbp2016.eval/sim/predictor.cc:421-431 | entry n counted from the newest |
| History.CompressedHistory.RotateLeft | other_files/cbp2016.eval/sim/predictor.cc:465-472 | a rotation within clength bits |
| History.CompressedHistory.Update | other_files/cbp2016.eval/sim/predictor.cc:476-483 | rotate, bring the newest entry in, take the outgoing one out |
| Folding.NextIsFold | other_files/cbp2016.eval/sim/predictor.cc:476-483 | stepping the register equals folding the longer history from scratch |
| Folding.RingStep | other_files/cbp2016.eval/sim/predictor.cc:476-483 | the same over a ring that drops its oldest entry, length zero included |
| History.LengthIncreases | other_files/cbp2016.eval/sim/predictor.cc:559-563 | bank lengths never decrease towards bank 0 |
| History.LengthBound | other_files/cbp2016.eval/sim/predictor.cc:559-563 | when a bank's length stays below a bound, in terms of the given lengths |
| History.LengthsFitExactly | other_files/cbp2016.eval/sim/predictor.cc:549-568 | no assertion of the ring fires if and only if the lengths leave room to be made increasing |
| History.EqualLengthsDoNotFit | other_files/cbp2016.eval/sim/predictor.cc:549-568 | two equal lengths of 3: the second register gets length 4 and the assertion fires |
| History.Subpath.constructor | other_files/cbp2016.eval/sim/predictor.cc:549-568 | all registers start as folds of an empty path; the four registers of every bank have logg, logg - hp, tagbits and tagbits - 1 bits |
| History.Subpath.Update | other_files/cbp2016.eval/sim/predictor.cc:587-597 | all four registers of every bank equal the from-scratch fold after any update; no assertion fires; the new entry has the direction in bit 0 and the address above it |
| History.Subpath.RegistersFold | other_files/cbp2016.eval/sim/predictor.cc:476-483 | at any time every register is the fold of the path |
| GlobalHistory.CodingsAgree | src_and_configurations/BP_read_from_file/TAGE_PREDICTOR/common_var.h:77-97 | for one-bit entries rotation, shift-XOR-mask and add-mask give the same register |
| GlobalHistory.ShiftIsNext | other_files/cbp2016.eval/sim/predictor.cc:1030-1036 | the shift-XOR-mask step is the rotate step when an entry fits the register and shifting it loses no bit |
| GlobalHistory.AddIsNext | src_and_configurations/BP_read_from_file/TAGE_PREDICTOR/common_var.h:77-97 | the add step, carries included, is the rotate step for one-bit entries |
| GlobalHistory.FoldedHistory.constructor | other_files/cbp2016.eval/sim/predictor.cc:1021-1027 | a new register is the fold of the zeroed ring |
| GlobalHistory.FoldedHistory.Update | other_files/cbp2016.eval/sim/predictor.cc:1030-1036 | the register over the masked ring equals the fold of the last OLENGTH entries |
| GlobalHistory.HistoryUpdate | other_files/cbp2016.eval/sim/predictor.cc:1635-1652 | one ring write and every register still equals its fold; the entry has the direction in bit 0, above it six bits of target, target shifted by three and PC XORed |
| GlobalHistory.InitHistory | other_files/cbp2016.eval/sim/predictor.cc:1266-1269 | the ring at the start of a run is zero |
| GlobalHistory.UpdateAll | other_files/cbp2016.eval/sim/predictor.cc:1635-1652 | from the initial ring and new registers, after any number of updates the ring records the branches newest first, bit by bit, and every register is the fold of its OLENGTH newest entries |
| GlobalHistory.ComputeHistory | src_and_configurations/BP_read_from_file/TAGE_PREDICTOR/common_var.h:77-97 | the register equals the fold of the shifted one-bit history |
| GlobalHistory.ComputeAll | src_and_configurations/BP_read_from_file/TAGE_PREDICTOR/common_var.h:77-97 | a new register after any history of bits equals the fold of the newest of them |
| GlobalHistory.AddRunIsFold | src_and_configurations/BP_read_from_file/TAGE_PREDICTOR/common_var.h:77-97 | the same of the bare add steps, as a function of the whole history |
| GlobalHistory.PushedAllAt | other_files/cbp2016.eval/sim/predictor.cc:1635-1652 | a pushed history has its newest entry first and the older ones behind |
| TageTable.StaysSaturatedExactly | other_files/cbp2016.eval/sim/predictor.cc:380-396 | when ctrupdate reports saturation, and that the counter stays in its signed range |
| Tage.Tage.CtrUpdate | other_files/cbp2016.eval/sim/predictor.cc:380-396 | one step up or down within the signed range, and the saturation report |
| Tage.HashBound | other_files/cbp2016.eval/sim/predictor.cc:751-769 | indices and tags fit their widths |
| Tage.HashBits | other_files/cbp2016.eval/sim/predictor.cc:751-769 | each bit of a hash is the XOR of that bit of its three words |
| Tage.Tage.IndexBits | other_files/cbp2016.eval/sim/predictor.cc:759-762 | bit i of an index: of the address, of the first register and of the second one shifted by the difference of the register lengths |
| Tage.Tage.TagBits | other_files/cbp2016.eval/sim/predictor.cc:766-769 | the same for a tag |
| Tage.Tage.IndicesAgreeExactly | other_files/cbp2016.eval/sim/predictor.cc:759-762 | two lookups select the same entry if and only if these bits agree everywhere |
| Tage.Tage.TagsAgreeExactly | other_files/cbp2016.eval/sim/predictor.cc:766-769 | two lookups compare the same tag if and only if these bits agree everywhere, so one bit of address or register that differs alone makes another tag |
| Tage.Tage.BimodalBits | other_files/cbp2016.eval/sim/predictor.cc:752-755 | the bimodal index is the low bits of the address |
| Tage.Tage.OnPath | other_files/cbp2016.eval/sim/predictor.cc:759-769 | indices and tags are functions of the address and the path alone |
| Tage.Tage.PostpIndex | other_files/cbp2016.eval/sim/predictor.cc:772-792 | the index is made of the two longest hits and the useful bit and does not depend on the counter read past the array |
| Tage.MaskDropsTop | other_files/cbp2016.eval/sim/predictor.cc:780-788 | the mask removes the third counter whatever it is |
| Tage.PostpFields | other_files/cbp2016.eval/sim/predictor.cc:772-792 | the useful bit and the low bits of both counters can be read back from the index |
| Tage.Tage.constructor | other_files/cbp2016.eval/sim/predictor.cc:714-748 | the initial tables, all entries zero, the post-predictor as `InitialPost`, and the invariant |
| Tage.InitialPostAgrees | other_files/cbp2016.eval/sim/predictor.cc:741-744 | a new post-predictor says what the provider says, whatever the second hit and the useful bit |
| Tage.Tage.CondbrPredict | other_files/cbp2016.eval/sim/predictor.cc:803-823 | hit lists exactly the matching banks, ascending; both predictions and the post-prediction follow |
| TageTable.HitsAreMatches | other_files/cbp2016.eval/sim/predictor.cc:807-816 | the hit list is strictly ascending and contains a bank if and only if its tag matches |
| Tage.Tage.Uclear | other_files/cbp2016.eval/sim/predictor.cc:826-837 | every non-zero useful counter goes down by one, nothing else changes |
| Tage.Tage.Galloc | other_files/cbp2016.eval/sim/predictor.cc:840-846 | one entry gets the tag, a weak counter for the outcome and u = 0; nothing else changes |
| Tage.Tage.AggressiveTrain | other_files/cbp2016.eval/sim/predictor.cc:850-898 | trains the unbroken run of agreeing hits, the second hit beside a provider that is not useful, the bimodal counter by its rule; allsat as defined |
| Tage.Tage.AggressiveUpdate | other_files/cbp2016.eval/sim/predictor.cc:849-909 | allocates exactly the banks below the provider that are not useful and allowed by saturation or history length |
| Tage.Tage.CarefulTrain | other_files/cbp2016.eval/sim/predictor.cc:917-937 | trains the provider and, if it is not useful, its stand-in |
| Tage.Tage.StealEntries | other_files/cbp2016.eval/sim/predictor.cc:940-963 | the walk steals, counts failures and clears as `Steal` says; the table changes nowhere else |
| Tage.Tage.CarefulUpdate | other_files/cbp2016.eval/sim/predictor.cc:912-965 | the ISL-TAGE update: training, and stealing on a misprediction only |
| TageTable.StealExactly | other_files/cbp2016.eval/sim/predictor.cc:940-963 | exactly the banks are stolen that the walk reaches with room left and not just below a stolen one, and whose useful counter is zero at that moment, the clears so far counted in |
| TageTable.StealWorks | other_files/cbp2016.eval/sim/predictor.cc:940-963 | at most MAXALLOC banks, never two adjacent, all below the provider; every bank passed over was in use, adjacent, or behind the last; allocfail stays in 0..511 |
| TageTable.FailedSteal | other_files/cbp2016.eval/sim/predictor.cc:954-961 | a walk that steals nothing adds one failure per bank up to 511 and clears once for each from there on |
| TageTable.StealAccounts | other_files/cbp2016.eval/sim/predictor.cc:940-963 | away from both ends the failure counter gains one for each bank looked at in vain and loses one for each theft |
| TageTable.UpdateOfEntry | other_files/cbp2016.eval/sim/predictor.cc:840-997 | what a whole update leaves of any entry of any bank: tag, counter moved one step towards the outcome or not, useful counter lowered, zeroed or rewarded |
| TageTable.CarefulDepthExactly | other_files/cbp2016.eval/sim/predictor.cc:917-937 | the careful policy trains the provider, and the next hit beside a provider that is not useful |
| TageTable.AggressiveDepthExactly | other_files/cbp2016.eval/sim/predictor.cc:854-886 | the ramp up policy trains a hit when all up to it agree with the provider, or when it is the second beside a provider that is not useful |
| TageTable.AggressiveBimodalExactly | other_files/cbp2016.eval/sim/predictor.cc:862-897 | when the bimodal counter is trained during ramp up |
| TageTable.AllSaturatedExactly | other_files/cbp2016.eval/sim/predictor.cc:852-891 | allsat says that every trained counter was at its end in the direction of the outcome |
| Tage.Tage.AllocatedExactly | other_files/cbp2016.eval/sim/predictor.cc:898-909 | which banks the ramp up policy allocates |
| Tage.Tage.OutcomeExactly | other_files/cbp2016.eval/sim/predictor.cc:968-983 | what each policy trains, steals, allocates and counts |
| TageTable.SettledOk | other_files/cbp2016.eval/sim/predictor.cc:849-965 | an update keeps all counters, tags and useful counters in range |
| TageTable.PromotedKeeps | other_files/cbp2016.eval/sim/predictor.cc:987-993 | rewarding the provider changes no tag and no prediction counter and keeps u at most 3 |
| TageTable.LookupAfterUpdate | other_files/cbp2016.eval/sim/predictor.cc:803-965 | after an update the same lookup hits the allocated banks in order and then the old hits, and the first of them predicts the resolved direction |
| Tage.Tage.Reward | other_files/cbp2016.eval/sim/predictor.cc:986-997 | the useful counter of the provider goes up by one, to at most 3, exactly when it alone was right, and is never touched on an empty hit list; the post-predictor counts the outcome |
| Tage.Tage.CondbrUpdate | other_files/cbp2016.eval/sim/predictor.cc:968-1000 | the whole update: policy by the number of mispredictions, tables, bimodal and post-predictor, invariant kept |
| Tage.Tage.UpdateThenPredict | other_files/cbp2016.eval/sim/predictor.cc:803-1000 | predicting the same branch again after an update finds the allocated banks before the old hits and, if there are any, the resolved direction |
| Tage.Serve | other_files/cbp2016.eval/sim/predictor.cc:803-1000 | one branch: the prediction is a function of the path and the tables, and the tables afterwards are those of one update |
| Tage.Run | other_files/cbp2016.eval/sim/predictor.cc:1177-1182 | over any trace no assertion fires and all ranges are kept; each branch is predicted from the path and the tables its predecessors left and updates them once; the path holds the branches newest first, direction in bit 0, above it the address XORed for a taken branch with the doubled target; nmisp counts the wrong predictions |
| FrequencyBins.HalvedIsQuotient | other_files/cbp2016.eval/sim/predictor.cc:666-669 | repeated shifting divides by powers of two |
| FrequencyBins.FreqBins.Find | other_files/cbp2016.eval/sim/predictor.cc:660-681 | the first bin b with a count of at least maxfreq divided by 2^(b+1), else the last |
| FrequencyBins.HigherCountsComeFirst | other_files/cbp2016.eval/sim/predictor.cc:660-681 | for fixed maxfreq a higher count never gets a later bin |
| FrequencyBins.FreqBins.Update | other_files/cbp2016.eval/sim/predictor.cc:684-692 | maxfreq is the largest of all the counts the object was ever given, and grows by at most one a call |
| FrequencyBins.FreqBins.LargestAfter | other_files/cbp2016.eval/sim/predictor.cc:684-692 | being the largest determines maxfreq |
| FrequencyBins.Run | other_files/cbp2016.eval/sim/predictor.cc:1187-1188 | over any trace no assertion fires; every branch gets the bin of the count of its earlier occurrences and of the maximum so far, and counts are occurrences, one of them just above the final maximum and none higher |
| EdgeWindow.Reader.constructor | other_files/cbp2016.eval/sim/bt9_reader.h:1574-1592 | the first window |
| EdgeWindow.Reader.Shift | other_files/cbp2016.eval/sim/bt9_reader.h:1598-1614 | half a stride forward; slot i modulo the size holds entry i for every i in the window |
| EdgeWindow.Reader.MoveToNext | other_files/cbp2016.eval/sim/bt9_reader.h:1621-1634 | the shift's assertion never fires; false exactly at the end of the file |
| EdgeWindow.Reader.Load | other_files/cbp2016.eval/sim/bt9_reader.h:1641-1676 | inside the window the entry of the list at that index; before it underflow; behind the end of the file overflow; behind the window the entry of the window that shares its slot |
| EdgeWindow.RefillMarks | other_files/cbp2016.eval/sim/bt9_reader.h:1598-1614 | which lists end on a refill boundary |
| EdgeWindow.BranchInstanceIterator.PreIncrement | other_files/cbp2016.eval/sim/bt9_reader.h:781-789 | advances by one entry and stays on track |
| EdgeWindow.BranchInstanceIterator.PostIncrement | other_files/cbp2016.eval/sim/bt9_reader.h:797-807 | returns the advanced iterator |
| EdgeWindow.BranchInstanceIterator.Deref | other_files/cbp2016.eval/sim/bt9_reader.h:836-856 | the list entry at the index, or overflow behind the list; loading is repeated only after a step |
| EdgeWindow.Drive | other_files/cbp2016.eval/sim/main.cc:169-345 | with a window of two or more the driver delivers exactly the list and ends by overflow if and only if the list ends on a refill |
| EdgeWindow.DriveOne | other_files/cbp2016.eval/sim/main.cc:169-345 | with a window of one a non-empty list is never finished: every turn delivers entry 0 |
| A64Words.OverflowBySigns | src_and_configurations/Src_qemu_tofile/translate-a64.c:588-591 | signed overflow of AddWithCarry shows in three sign bits |
| A64Words.SubIsSum | src_and_configurations/Src_qemu_tofile/translate-a64.c:630-635 | subtraction is AddWithCarry with the complement, its carry the unsigned comparison |
| A64Words.ChainedSum | src_and_configurations/Src_qemu_tofile/translate-a64.c:692-694 | two double-width additions compute x + y + carry and its carry out |
| A64Words.AdcValue | src_and_configurations/Src_qemu_tofile/translate-a64.c:669-680 | two plain additions and the 32-bit extension compute the sum with carry |
| A64Arith.GenAddCC | src_and_configurations/Src_qemu_tofile/translate-a64.c:575-619 | result and NZCV of AddWithCarry(x, y, 0) in both widths, also when registers coincide; nothing else changes |
| A64Arith.GenSubCC | src_and_configurations/Src_qemu_tofile/translate-a64.c:622-666 | result and NZCV of AddWithCarry(x, NOT y, 1) |
| A64Arith.GenAdc | src_and_configurations/Src_qemu_tofile/translate-a64.c:669-680 | the sum with carry, flags untouched |
| A64Arith.GenAdcCC | src_and_configurations/Src_qemu_tofile/translate-a64.c:683-730 | result and NZCV of AddWithCarry(x, y, C); CF stays 0 or 1 |
| A64Arith.GenSetNZ64 | src_and_configurations/Src_qemu_tofile/translate-a64.c:555-559 | NF has bit 63 of the result as its sign, ZF is zero exactly when the result is; nothing else changes |
| A64Arith.CpuReg | src_and_configurations/Src_qemu_tofile/translate-a64.c:389-396 | the register, or a fresh zero for number 31 |
| A64Arith.ReadCpuReg | src_and_configurations/Src_qemu_tofile/translate-a64.c:408-421 | a copy in a fresh temporary, zero-extended in 32 bits |
| A64Arith.DisasAdcSbc | src_and_configurations/Src_qemu_tofile/translate-a64.c:3770-3801 | ADC, ADCS, SBC, SBCS for all encodings, operands, widths and coinciding registers |
| A64Arith.GenGetNzcv | src_and_configurations/Src_qemu_tofile/translate-a64.c:1431-1451 | the four flags in bits 31 to 28, all other bits zero |
| A64Arith.GenSetNzcv | src_and_configurations/Src_qemu_tofile/translate-a64.c:1453-1473 | the flags are the four bits; CF is 0 or 1 |
| A64Arith.SetThenGet | src_and_configurations/Src_qemu_tofile/translate-a64.c:1431-1473 | reading the flags back gives exactly the four bits that were set |
| A64Compare.Masks | src_and_configurations/Src_qemu_tofile/translate-a64.c:3866-3869 | negation and decrement of a truth value are the two masks |
| A64Compare.ConditionalCompare | src_and_configurations/Src_qemu_tofile/translate-a64.c:3833-3907 | the comparison's flags if the condition holds, the literal ones otherwise, with or without ANDC on the host; no register changes |
| A64Compare.DisasCc | src_and_configurations/Src_qemu_tofile/translate-a64.c:3811-3907 | CCMN and CCMP for all encodings; which encodings are unallocated |
| A64Bitfield.Bitmask64 | src_and_configurations/Src_qemu_tofile/translate-a64.c:2984-2988 | the low bits set |
| A64Bitfield.BitMoveBits | src_and_configurations/Src_qemu_tofile/translate-a64.c:3187-3203 | the architecture's masks and rotations, bit by bit |
| A64Bitfield.SignedIsExpected | src_and_configurations/Src_qemu_tofile/translate-a64.c:3216-3234 | every SBFM shortcut computes the architecture's result |
| A64Bitfield.UnsignedIsExpected | src_and_configurations/Src_qemu_tofile/translate-a64.c:3235-3252 | every UBFM shortcut does, and those that skip the zero extension need none |
| A64Bitfield.DepositIsExpected | src_and_configurations/Src_qemu_tofile/translate-a64.c:3254-3279 | the general deposit and sign extension do, for all three instructions |
| A64Bitfield.MoveField | src_and_configurations/Src_qemu_tofile/translate-a64.c:3214-3280 | whichever path is taken, the destination holds the result |
| A64Bitfield.DisasBitfield | src_and_configurations/Src_qemu_tofile/translate-a64.c:3187-3280 | SBFM, BFM and UBFM for all encodings and values, rd equal to rn included, upper half zero in 32 bits; which encodings are unallocated |
| Tcg.InvertNegates | src_and_configurations/Src_qemu_tofile/translate-a64.c:3837-3837 | inverting a condition negates it |

## Left out

- Exchange.Machine.ClientStep: one cell (three fields) is written in one action, and memory is sequentially consistent; the atomicity of each semaphore operation is that of chapter 3 of the System Interfaces volume of IEEE Std 1003.1-2008.
- Exchange.Machine.constructor: creation, naming and mapping of the semaphores and the memory are not modelled; both programs are taken to use the same names, and the server to have finished its set-up. The unused reading of a semaphore's value in the client is dropped.
- SharedMemory.Fifo: the server's prediction of each cell is left out; processing a cell means reading it.
- MergeSort.CoreListMergesort: at most 0x40000000 nodes, so that the doubled run length stays inside the source's 32-bit integer.
- Comparators.CalcFunc: the state and matrix kernels are arbitrary functions of data type and checksum; that the kernels leave their own memory as they found it is not part of that contract.
- ListBench.CoreBenchList: the initial list is any list as `core_list_init` leaves it (ascending idx, several of which may be equal, and equal bytes in each word); building it from a memory block is left out, and `InitialIdx` and `ItemWord` are the idx and the word of one item only. For a positive finder_idx the order that reaches the last sort depends on what the kernels return and on the order of evaluation, so the condition is stated on that order.
- CoreState.CoreBenchState: seeds are their low bytes, counts are unbounded until they are fed to the checksum as 32-bit words, and the second scan needs a NUL in the corrupted buffer, which the source takes for granted; a step of zero or less, for which the source loops for ever, is excluded. `core_init_state` is left out.
- Crc.Crcu32: the intermediate `crc16`, which only casts, is folded into its callers.
- History.Subpath.constructor: the geometric lengths come from floating-point powers and are an input.
- History.CompressedHistory.Update: a register of one bit, for which `rotateleft` asserts, is excluded.
- GlobalHistory.FoldedHistory.constructor: the register length is between the 7 bits of an entry and 25; the predictor uses LOGGEHL and LOGRHSP, which lie between.
- GlobalHistory.HistoryUpdate: the two register arrays are one list, and the pointer, an int in the source, does not overflow.
- GlobalHistory.ComputeHistory: the shift of the history array in `update_predictor.h` copies forward over itself and is left out; the method takes a history that has been shifted, and `ComputeAll` hands it such histories.
- Tage.Tage.CondbrUpdate: the misprediction count is unbounded, and `subp` selection and the combination of several predictors are left out.
- Tage.Run: one predictor with one subpath; the update of the backward-path subpath only on backward branches is a subsequence of these updates.
- FrequencyBins.Run: counts are unbounded integers.
- EdgeWindow.Reader.constructor: a window of zero entries, which divides by zero, is excluded; indices do not overflow 64 bits; reading and parsing the file is replaced by the list of its entries, and an entry stands for the records it selects.
- A64Compare.ConditionalCompare: `arm_test_cc` is defined outside the repository; its result, a condition and a variable to compare with zero, is arbitrary.
- Tcg.Emitter.constructor: temporaries are numbered upwards and never reused, the freeing of temporaries is left out, and the meaning of each operation on words is assumed as stated in `Tcg.dfy`; operations with two results read all operands first.
- The statistical corrector, perceptron, GEHL and RHSP tables, COLT sums and the combiner: long lists of table reads without a relation to prove.
- `update_predictor.h` and `get_prediction.h`: what is sound in them is counter bounds.
- The bimodal chain table, gshare, Dhrystone, the CoreMark matrix, the conversion routines and all port headers.
- Floating point, SIMD, cryptography, loads, stores and system registers of the translator, and all helpers.
- Files, pipes, sockets, text parsing, timing and printing.
